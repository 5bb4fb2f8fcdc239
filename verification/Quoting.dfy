/** Identifiers and string literals of CQL as internal/dataedit/builder.go and internal/schema/ddl.go print them. */
module Quoting {
  import opened Sequences
  import opened Options
  import opened Texts

  predicate Lowercase(c: char) {
    'a' <= c <= 'z'
  }

  predicate BareChar(c: char) {
    Lowercase(c) || Digit(c) || c == '_'
  }

  predicate AllBare(s: string) {
    s == "" || (AllBare(s[..|s| - 1]) && BareChar(s[|s| - 1]))
  }

  /** An identifier that needs no quotes: lower-case letters, digits and underscores, not led by a digit. */
  predicate Bare(s: string) {
    s != "" && !Digit(s[0]) && AllBare(s)
  }

  function Twice(c: char, q: char): string {
    if c == q then [q, q] else [c]
  }

  /** Every `q` is written twice. */
  function Doubled(s: string, q: char): string {
    if s == "" then ""
    else Doubled(s[..|s| - 1], q) + Twice(s[|s| - 1], q)
  }

  function QuotedIdent(s: string): string {
    if Bare(s) then s else "\"" + Doubled(s, '"') + "\""
  }

  function QuotedString(s: string): string {
    "'" + Doubled(s, '\'') + "'"
  }

  /** strings.Join. */
  function Join(parts: seq<string>, sep: string): string {
    if parts == [] then ""
    else if |parts| == 1 then parts[0]
    else parts[0] + sep + Join(parts[1..], sep)
  }

  lemma {:induction false} AllBareExactly(s: string)
    ensures AllBare(s) <==> forall i :: 0 <= i < |s| ==> BareChar(s[i])
    decreases |s|
  {
    if s != "" {
      AllBareExactly(s[..|s| - 1]);
      assert AllBare(s) <==> AllBare(s[..|s| - 1]) && BareChar(s[|s| - 1]);
      if AllBare(s) {
        forall i | 0 <= i < |s| ensures BareChar(s[i]) {
          assert i < |s| - 1 ==> s[..|s| - 1][i] == s[i];
        }
      }
    }
  }

  lemma {:induction false} DoubledLength(s: string, q: char)
    ensures |Doubled(s, q)| >= |s|
  {
    if s != "" {
      DoubledLength(s[..|s| - 1], q);
    }
  }

  /** An identifier is printed as it is exactly if it is not empty, has only lower-case letters, digits and underscores,
      and does not begin with a digit; any other is put in double quotes. */
  lemma {:induction false} BareExactly(s: string)
    ensures QuotedIdent(s) == s <==>
      s != "" && forall i :: 0 <= i < |s| ==> 'a' <= s[i] <= 'z' || s[i] == '_' || (i > 0 && '0' <= s[i] <= '9')
    ensures QuotedIdent(s) != s ==> QuotedIdent(s)[0] == '"' && |QuotedIdent(s)| >= |s| + 2
  {
    AllBareExactly(s);
    DoubledLength(s, '"');
  }

  // ----- the loops of the two packages -----

  /** strings.ReplaceAll(s, q, qq). */
  method ReplaceAll(s: string, q: char) returns (r: string)
    ensures r == Doubled(s, q)
  {
    r := "";
    var i := 0;
    while i < |s|
      invariant i <= |s| && r == Doubled(s[..i], q)
    {
      assert s[..i + 1][..i] == s[..i];
      r := r + if s[i] == q then [q, q] else [s[i]];
      i := i + 1;
    }
    assert s[..i] == s;
  }

  lemma {:induction false} PrefixBare(s: string, n: nat)
    requires n <= |s| && AllBare(s)
    ensures AllBare(s[..n])
    decreases |s|
  {
    if n < |s| {
      PrefixBare(s[..|s| - 1], n);
      assert s[..|s| - 1][..n] == s[..n];
    } else {
      assert s[..n] == s;
    }
  }

  // The test both loops make of the character at `i`.
  lemma {:induction false} CharTest(s: string, i: nat)
    requires i < |s| && AllBare(s[..i]) && (i > 0 ==> !Digit(s[0]))
    ensures ((i == 0 && !Lowercase(s[i]) && s[i] != '_') || !BareChar(s[i])) ==> !Bare(s)
    ensures !((i == 0 && !Lowercase(s[i]) && s[i] != '_') || !BareChar(s[i])) ==> AllBare(s[..i + 1]) && !Digit(s[0])
  {
    assert s[..i + 1][..i] == s[..i];
    if AllBare(s) {
      PrefixBare(s, i + 1);
    }
  }

  /** quoteIdent of internal/dataedit/builder.go. */
  method QuoteIdent(s: string) returns (r: string)
    ensures r == QuotedIdent(s)
  {
    if s == "" {
      return "\"\"";
    }
    var bare := true;
    var i := 0;
    while i < |s|
      invariant i <= |s| && AllBare(s[..i]) && (i > 0 ==> !Digit(s[0])) && bare
    {
      CharTest(s, i);
      if i == 0 && !Lowercase(s[i]) && s[i] != '_' {
        bare := false;
        break;
      }
      if !BareChar(s[i]) {
        bare := false;
        break;
      }
      i := i + 1;
    }
    assert bare ==> s[..i] == s;
    if bare {
      return s;
    }
    var doubled := ReplaceAll(s, '"');
    r := "\"" + doubled + "\"";
  }

  /** needsQuoting of internal/schema/ddl.go. */
  method NeedsQuoting(s: string) returns (r: bool)
    ensures r <==> !Bare(s)
  {
    if s == "" {
      return true;
    }
    var i := 0;
    while i < |s|
      invariant i <= |s| && AllBare(s[..i]) && (i > 0 ==> !Digit(s[0]))
    {
      CharTest(s, i);
      if i == 0 && !Lowercase(s[i]) && !(s[i] == '_') {
        return true;
      }
      if !BareChar(s[i]) {
        return true;
      }
      i := i + 1;
    }
    assert s[..i] == s;
    return false;
  }

  /** quoteIdent of internal/schema/ddl.go: both packages print every identifier alike. */
  method QuoteIdentDdl(s: string) returns (r: string)
    ensures r == QuotedIdent(s)
  {
    var needs := NeedsQuoting(s);
    if !needs {
      return s;
    }
    var doubled := ReplaceAll(s, '"');
    r := "\"" + doubled + "\"";
  }

  // ----- reading back -----

  /** What was read, and the text after it. */
  datatype Read = Read(text: string, rest: string)

  /** The text up to the closing `q`, a doubled `q` standing for one. */
  function ReadQuoted(s: string, q: char): (r: Option<Read>)
    ensures r.Some? ==> |r.value.rest| < |s|
  {
    if s == "" then None
    else if s[0] != q then Ahead([s[0]], ReadQuoted(s[1..], q))
    else if |s| > 1 && s[1] == q then Ahead([q], ReadQuoted(s[2..], q))
    else Some(Read("", s[1..]))
  }

  function Ahead(c: string, r: Option<Read>): (a: Option<Read>)
    ensures r.Some? <==> a.Some?
    ensures r.Some? ==> a.value.rest == r.value.rest
  {
    match r
    case None => None
    case Some(read) => Some(Read(c + read.text, read.rest))
  }

  function ReadBare(s: string): (r: Read)
    ensures |r.rest| <= |s|
  {
    if s == "" || !BareChar(s[0]) then Read("", s)
    else var r := ReadBare(s[1..]); Read([s[0]] + r.text, r.rest)
  }

  function ReadIdent(s: string): (r: Option<Read>)
    ensures r.Some? ==> |r.value.rest| <= |s|
  {
    if s != "" && s[0] == '"' then ReadQuoted(s[1..], '"')
    else if s != "" && BareChar(s[0]) && !Digit(s[0]) then Some(ReadBare(s))
    else None
  }

  function ReadString(s: string): (r: Option<Read>)
    ensures r.Some? ==> |r.value.rest| <= |s|
  {
    if s != "" && s[0] == '\'' then ReadQuoted(s[1..], '\'') else None
  }

  // What follows does not continue what was quoted, or the bare word.
  predicate EndsQuoted(rest: string, q: char) {
    rest == "" || rest[0] != q
  }

  predicate EndsIdent(rest: string) {
    rest == "" || !(BareChar(rest[0]) || rest[0] == '"')
  }

  lemma DoubledSnoc(s: string, last: char, q: char)
    ensures Doubled(s + [last], q) == Doubled(s, q) + Twice(last, q)
  {
    assert (s + [last])[..|s|] == s;
  }

  lemma {:induction false} DoubledHead(s: string, q: char)
    requires s != ""
    ensures Doubled(s, q) == Twice(s[0], q) + Doubled(s[1..], q)
    decreases |s|
  {
    if |s| > 1 {
      var front, last := s[..|s| - 1], s[|s| - 1];
      DoubledHead(front, q);
      assert s[1..] == front[1..] + [last];
      DoubledSnoc(front[1..], last, q);
      Assoc(Twice(s[0], q), Doubled(front[1..], q), Twice(last, q));
    } else {
      assert s[1..] == "" && s[..0] == "";
    }
  }

  lemma {:induction false} AllBareTail(s: string)
    requires s != "" && AllBare(s)
    ensures BareChar(s[0]) && AllBare(s[1..])
    decreases |s|
  {
    if |s| > 1 {
      AllBareTail(s[..|s| - 1]);
      assert s[1..][..|s| - 2] == s[..|s| - 1][1..];
    } else {
      assert s[1..] == "";
    }
  }

  lemma Cons(c: char, rest: string, all: string)
    requires all == [c] + rest
    ensures all != "" && all[0] == c && all[1..] == rest
  {
  }

  lemma Cons2(c: char, d: char, rest: string, all: string)
    requires all == [c, d] + rest
    ensures |all| > 1 && all[0] == c && all[1] == d && all[2..] == rest
  {
  }

  lemma {:induction false} JoinSnoc(parts: seq<string>, x: string, sep: string)
    ensures Join(parts + [x], sep) == if parts == [] then x else Join(parts, sep) + sep + x
    decreases |parts|
  {
    if |parts| > 0 {
      assert (parts + [x])[1..] == parts[1..] + [x];
      JoinSnoc(parts[1..], x, sep);
      if |parts| > 1 {
        Assoc(parts[0] + sep, Join(parts[1..], sep), sep + x);
        Assoc(parts[0] + sep, Join(parts[1..], sep), sep);
        Assoc(Join(parts[1..], sep), sep, x);
      }
    }
  }

  // `tail` closes the quoted text.
  lemma {:induction false} QuotedReads(s: string, q: char, rest: string, tail: string, all: string)
    requires EndsQuoted(rest, q) && tail == [q] + rest && all == Doubled(s, q) + tail
    ensures ReadQuoted(all, q) == Some(Read(s, rest))
    decreases |s|
  {
    if s == "" {
      assert all == tail;
      QuotedEnd(q, rest, all);
    } else {
      var later := Doubled(s[1..], q) + tail;
      DoubledHead(s, q);
      Assoc(Twice(s[0], q), Doubled(s[1..], q), tail);
      QuotedReads(s[1..], q, rest, tail, later);
      HeadTail(s);
      QuotedStep(s[0], q, later, all, s[1..], rest);
    }
  }

  lemma {:induction false} QuotedEnd(q: char, rest: string, all: string)
    requires EndsQuoted(rest, q) && all == [q] + rest
    ensures ReadQuoted(all, q) == Some(Read("", rest))
  {
    Cons(q, rest, all);
    assert |all| > 1 ==> all[1] == rest[0];
  }

  lemma {:induction false} QuotedStep(c: char, q: char, later: string, all: string, t: string, rest: string)
    requires all == Twice(c, q) + later && ReadQuoted(later, q) == Some(Read(t, rest))
    ensures ReadQuoted(all, q) == Some(Read([c] + t, rest))
  {
    if c == q {
      Cons2(q, q, later, all);
    } else {
      Cons(c, later, all);
    }
  }

  lemma {:induction false} BareReads(s: string, rest: string, all: string)
    requires AllBare(s) && EndsIdent(rest) && all == s + rest
    ensures ReadBare(all) == Read(s, rest)
    decreases |s|
  {
    if s == "" {
      assert all == rest;
    } else {
      AllBareTail(s);
      BareReads(s[1..], rest, s[1..] + rest);
      assert all[1..] == s[1..] + rest && s == [s[0]] + s[1..];
    }
  }

  // Quoted text with its opening quote.
  lemma {:induction false} OpenedReads(s: string, q: char, rest: string, all: string)
    requires EndsQuoted(rest, q) && all == [q] + Doubled(s, q) + [q] + rest
    ensures all != "" && all[0] == q && ReadQuoted(all[1..], q) == Some(Read(s, rest))
  {
    var tail := [q] + rest;
    var body := Doubled(s, q) + tail;
    assert all == [q] + body;
    Cons(q, body, all);
    QuotedReads(s, q, rest, tail, body);
  }

  /** Every identifier reads back, whatever its characters. */
  lemma {:induction false} IdentReads(s: string, rest: string, all: string)
    requires EndsIdent(rest) && all == QuotedIdent(s) + rest
    ensures ReadIdent(all) == Some(Read(s, rest))
  {
    if Bare(s) {
      AllBareTail(s);
      BareReads(s, rest, all);
    } else {
      OpenedReads(s, '"', rest, all);
    }
  }

  /** Every string literal reads back. */
  lemma {:induction false} StringReads(s: string, rest: string, all: string)
    requires EndsQuoted(rest, '\'') && all == QuotedString(s) + rest
    ensures ReadString(all) == Some(Read(s, rest))
  {
    OpenedReads(s, '\'', rest, all);
  }

  /** No two identifiers print alike, and no two strings do. */
  lemma {:induction false} QuotingInjective(s: string, t: string)
    ensures QuotedIdent(s) == QuotedIdent(t) ==> s == t
    ensures QuotedString(s) == QuotedString(t) ==> s == t
  {
    assert QuotedIdent(s) + "" == QuotedIdent(s) && QuotedIdent(t) + "" == QuotedIdent(t);
    assert QuotedString(s) + "" == QuotedString(s) && QuotedString(t) + "" == QuotedString(t);
    IdentReads(s, "", QuotedIdent(s));
    IdentReads(t, "", QuotedIdent(t));
    StringReads(s, "", QuotedString(s));
    StringReads(t, "", QuotedString(t));
  }
}
