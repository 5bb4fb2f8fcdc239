/** Stripping without a lexer: a text is taken apart into comments, literals and single characters, and every part but
    these becomes spaces (internal/query/classifier.go). */
module StatementParts {
  import opened Sequences
  import opened StatementLexer
  import opened ClassifierProperties

  /** A character of the statement itself, a comment or literal with its end, or one that runs to the end of the text. */
  datatype Part = Plain(c: char) | Whole(d: Delimited) | OpenBlock(body: string) | OpenLiteral(body: string)

  function Written(p: Part): string {
    match p
    case Plain(c) => [c]
    case Whole(d) => Text(d)
    case OpenBlock(body) => "/*" + body
    case OpenLiteral(body) => "'" + body
  }

  function Wiped(p: Part): string {
    match p
    case Plain(c) => [c]
    case _ => Spaces(|Written(p)|)
  }

  function WipedAll(ps: seq<Part>): string {
    if ps == [] then "" else Wiped(ps[0]) + WipedAll(ps[1..])
  }

  predicate Starts(t: string, c: char) {
    t != "" && t[0] == c
  }

  /** What `p` says of itself is true in front of the text `after`: nothing opens at a plain character, a part ends where
      it is said to end, and one without an end has none. */
  ghost predicate Fits(p: Part, after: string) {
    match p
    case Plain(c) => c != '\'' && !(c == '-' && Starts(after, '-')) && !(c == '/' && (Starts(after, '/') || Starts(after, '*')))
    case Whole(d) => Closes(d, after)
    case OpenBlock(body) => after == "" && forall k: nat :: !Pair(body, k, '*', '/')
    case OpenLiteral(body) => after == "" && QuotesDoubled(body)
  }

  /** From `i` on the text is these parts, one after another. */
  ghost predicate Parts(s: string, i: nat, ps: seq<Part>)
    requires i <= |s|
    decreases |ps|
  {
    if ps == [] then i == |s|
    else
      var j := i + |Written(ps[0])|;
      j <= |s| && s[i..j] == Written(ps[0]) && Fits(ps[0], s[j..]) && Parts(s, j, ps[1..])
  }

  // ----- the stripped text is that of the parts -----

  lemma {:induction false} OpenBody(s: string, i: nat)
    requires i <= |s| && ModeAt(s, i) == Literal && QuotesDoubled(s[i..])
    ensures forall k: nat :: i <= k < |s| ==> !Code(s, k)
    decreases |s| - i
  {
    if i < |s| {
      assert s[i..][0] == s[i] && s[i..][1..] == s[i + 1..];
      if s[i] != '\'' {
        OpenBody(s, i + 1);
      } else {
        assert s[i..][1] == s[i + 1] && s[i..][2..] == s[i + 2..];
        EscapedQuote(s, i);
        OpenBody(s, i + 2);
      }
    }
  }

  lemma {:induction false} OpenBlockRegion(s: string, i: nat, body: string)
    requires i <= |s| && s[i..] == "/*" + body && (forall k: nat :: !Pair(body, k, '*', '/')) && ModeAt(s, i) == Normal
    ensures BlankRegion(s, i, |s|)
  {
    assert s[i] == s[i..][0] && s[i + 1] == s[i..][1];
    forall k: nat | i + 2 <= k < |s| ensures !Pair(s, k, '*', '/') {
      assert s[k] == s[i..][k - i] == body[k - i - 2];
      assert k + 1 < |s| ==> s[k + 1] == s[i..][k + 1 - i] == body[k - i - 1];
      assert !Pair(body, k - i - 2, '*', '/');
    }
    BlockBody(s, i, |s|);
  }

  lemma {:induction false} OpenLiteralRegion(s: string, i: nat, body: string)
    requires i <= |s| && s[i..] == "'" + body && QuotesDoubled(body) && ModeAt(s, i) == Normal
    ensures BlankRegion(s, i, |s|)
  {
    assert s[i] == s[i..][0] && s[i + 1..] == s[i..][1..] == body;
    EnterLiteral(s, i);
    OpenBody(s, i + 1);
  }

  lemma {:induction false} PlainRegion(s: string, i: nat, c: char)
    requires i < |s| && s[i] == c && Fits(Plain(c), s[i + 1..]) && ModeAt(s, i) == Normal
    ensures Code(s, i) && ModeAt(s, i + 1) == Normal
  {
    assert i + 1 < |s| ==> s[i + 1] == s[i + 1..][0];
  }

  lemma SuffixSplit(t: string, i: nat, j: nat)
    requires i <= j <= |t|
    ensures t[i..] == t[i..j] + t[j..]
  {
  }

  lemma {:induction false} PartRegion(s: string, i: nat, p: Part)
    requires i + |Written(p)| <= |s| && s[i..i + |Written(p)|] == Written(p) && Fits(p, s[i + |Written(p)|..])
    requires ModeAt(s, i) == Normal
    ensures var j := i + |Written(p)|; i < j && Blank(s)[i..] == Wiped(p) + Blank(s)[j..] && (j < |s| ==> ModeAt(s, j) == Normal)
  {
    var j := i + |Written(p)|;
    SuffixSplit(Blank(s), i, j);
    match p {
      case Plain(c) =>
        assert s[i] == s[i..j][0];
        PlainRegion(s, i, c);
        assert Stripped(s, Blank(s), i);
      case Whole(d) =>
        RegionIsBlank(s, i, d, s[j..]);
        RegionWiped(s, i, j);
      case OpenBlock(body) =>
        assert s[i..j] == s[i..];
        OpenBlockRegion(s, i, body);
        RegionWiped(s, i, j);
      case OpenLiteral(body) =>
        assert s[i..j] == s[i..];
        OpenLiteralRegion(s, i, body);
        RegionWiped(s, i, j);
    }
  }

  lemma RegionWiped(s: string, i: nat, j: nat)
    requires i <= j <= |s| && BlankRegion(s, i, j)
    ensures Blank(s)[i..j] == Spaces(j - i)
  {
    forall k | i <= k < j ensures Blank(s)[k] == ' ' {
      assert !Code(s, k) && Stripped(s, Blank(s), k);
    }
  }

  lemma WipedFirst(ps: seq<Part>, all: string, tail: string)
    requires ps != [] && all == Wiped(ps[0]) + tail && tail == WipedAll(ps[1..])
    ensures all == WipedAll(ps)
  {
  }

  lemma {:induction false} FirstRegion(s: string, i: nat, ps: seq<Part>) returns (j: nat)
    requires i <= |s| && (i < |s| ==> ModeAt(s, i) == Normal) && ps != [] && Parts(s, i, ps)
    ensures i < j <= |s| && Blank(s)[i..] == Wiped(ps[0]) + Blank(s)[j..] && (j < |s| ==> ModeAt(s, j) == Normal)
    ensures Parts(s, j, ps[1..])
  {
    j := i + |Written(ps[0])|;
    PartRegion(s, i, ps[0]);
  }

  lemma {:induction false} PartsWiped(s: string, i: nat, ps: seq<Part>)
    requires i <= |s| && (i < |s| ==> ModeAt(s, i) == Normal) && Parts(s, i, ps)
    ensures Blank(s)[i..] == WipedAll(ps)
    decreases |ps|
  {
    if ps != [] {
      var j := FirstRegion(s, i, ps);
      PartsWiped(s, j, ps[1..]);
      WipedFirst(ps, Blank(s)[i..], Blank(s)[j..]);
    }
  }

  /** However a text is taken apart into parts that fit, the stripped text is these parts with comments and literals made
      spaces. */
  lemma {:induction false} StripsExactly(s: string, ps: seq<Part>)
    requires Parts(s, 0, ps)
    ensures Blank(s) == WipedAll(ps)
  {
    PartsWiped(s, 0, ps);
    assert Blank(s)[0..] == Blank(s);
  }

  // ----- every text can be taken apart -----

  lemma {:induction false} LineEnd(s: string, i: nat) returns (j: nat)
    requires i <= |s|
    ensures i <= j <= |s| && '\n' !in s[i..j] && (j < |s| ==> s[j] == '\n')
    decreases |s| - i
  {
    j := i;
    if i < |s| && s[i] != '\n' {
      j := LineEnd(s, i + 1);
      assert s[i..j] == [s[i]] + s[i + 1..j];
    }
  }

  lemma {:induction false} BlockEnds(s: string, i: nat) returns (j: nat)
    requires i <= |s|
    ensures i <= j <= |s| && (forall k: nat :: i <= k < j ==> !Pair(s, k, '*', '/')) && (j < |s| ==> Pair(s, j, '*', '/'))
    decreases |s| - i
  {
    j := i;
    if i < |s| && !Pair(s, i, '*', '/') {
      j := BlockEnds(s, i + 1);
    }
  }

  lemma {:induction false} LiteralEnds(s: string) returns (body: string)
    ensures QuotesDoubled(body) && body <= s
    ensures body == s || (s[|body|] == '\'' && !Starts(s[|body| + 1..], '\''))
    decreases |s|
  {
    if s == "" || (s[0] == '\'' && (|s| == 1 || s[1] != '\'')) {
      body := "";
    } else if s[0] != '\'' {
      var rest := LiteralEnds(s[1..]);
      body := [s[0]] + rest;
      assert body[1..] == rest && s == [s[0]] + s[1..];
      assert rest != s[1..] ==> s[|body|] == s[1..][|rest|] && s[|body| + 1..] == s[1..][|rest| + 1..];
    } else {
      var rest := LiteralEnds(s[2..]);
      body := s[..2] + rest;
      assert body[2..] == rest && body[1] == s[1] && s == s[..2] + s[2..];
      assert rest != s[2..] ==> s[|body|] == s[2..][|rest|] && s[|body| + 1..] == s[2..][|rest| + 1..];
    }
  }

  lemma {:induction false} FirstPart(s: string) returns (p: Part)
    requires s != ""
    ensures Written(p) <= s && Fits(p, s[|Written(p)|..])
  {
    if OpensLine(s, 0) {
      p := LinePart(s);
    } else if OpensBlock(s, 0) {
      p := BlockPart(s);
    } else if s[0] == '\'' {
      p := LiteralPart(s);
    } else {
      p := Plain(s[0]);
    }
  }

  lemma {:induction false} LinePart(s: string) returns (p: Part)
    requires s != "" && OpensLine(s, 0)
    ensures Written(p) <= s && Fits(p, s[|Written(p)|..])
  {
    var j := LineEnd(s, 2);
    p := Whole(if s[0] == '-' then Dashes(s[2..j]) else Slashes(s[2..j]));
    assert Written(p) == s[..j];
  }

  lemma NoPairBehind(s: string, j: nat, n: nat)
    requires 2 <= j <= n <= |s| && (j == n || j + 2 == n) && forall k: nat :: 2 <= k < j ==> !Pair(s, k, '*', '/')
    ensures forall k: nat :: k < j - 2 ==> !Pair(s[2..n], k, '*', '/')
  {
    forall k: nat | k < j - 2 ensures !Pair(s[2..n], k, '*', '/') {
      assert !Pair(s, k + 2, '*', '/');
    }
  }

  lemma {:induction false} BlockPart(s: string) returns (p: Part)
    requires s != "" && OpensBlock(s, 0)
    ensures Written(p) <= s && Fits(p, s[|Written(p)|..])
  {
    var j := BlockEnds(s, 2);
    if j == |s| {
      NoPairBehind(s, j, j);
      assert s[2..j] == s[2..];
      p := OpenBlock(s[2..]);
      assert Written(p) == s;
    } else {
      NoPairBehind(s, j, j + 2);
      p := Whole(Block(s[2..j]));
      assert Written(p) == s[..j + 2];
      assert s[2..j] + "*/" == s[2..j + 2];
    }
  }

  lemma {:induction false} LiteralPart(s: string) returns (p: Part)
    requires s != "" && s[0] == '\''
    ensures Written(p) <= s && Fits(p, s[|Written(p)|..])
  {
    var body := LiteralEnds(s[1..]);
    HeadTail(s);
    if body == s[1..] {
      p := OpenLiteral(body);
      assert Written(p) == s;
    } else {
      p := Whole(Quoted(body));
      assert s[1..][..|body| + 1] == body + "'";
      assert Written(p) == s[..|body| + 2];
      assert s[|body| + 2..] == s[1..][|body| + 1..];
    }
  }

  lemma {:induction false} PartsFrom(s: string, i: nat) returns (ps: seq<Part>)
    requires i <= |s|
    ensures Parts(s, i, ps)
    decreases |s| - i
  {
    if i == |s| {
      ps := [];
    } else {
      var p := FirstPart(s[i..]);
      var j := i + |Written(p)|;
      Behind(s, i, Written(p));
      var rest := PartsFrom(s, j);
      ps := [p] + rest;
      Consed(ps, p, rest);
      PartBegins(s, i, j, ps);
    }
  }

  lemma Consed(ps: seq<Part>, p: Part, rest: seq<Part>)
    requires ps == [p] + rest
    ensures ps != [] && ps[0] == p && ps[1..] == rest
  {
  }

  lemma {:induction false} PartBegins(s: string, i: nat, j: nat, ps: seq<Part>)
    requires ps != [] && i <= j <= |s| && s[i..j] == Written(ps[0]) && Fits(ps[0], s[j..]) && Parts(s, j, ps[1..])
    ensures Parts(s, i, ps)
  {
    assert j == i + |Written(ps[0])|;
  }

  lemma Behind(s: string, i: nat, w: string)
    requires i <= |s| && w <= s[i..]
    ensures i + |w| <= |s| && s[i..i + |w|] == w && s[i..][|w|..] == s[i + |w|..]
  {
    assert s[i..][..|w|] == w;
  }

  /** And every text can be taken apart so. */
  lemma {:induction false} EveryTextHasParts(s: string)
    ensures exists ps :: Parts(s, 0, ps)
  {
    var ps := PartsFrom(s, 0);
  }
}
