/** The tokenizer of the highlighter (web/src/components/cql-highlight.tsx). */
module Highlight {
  import opened Sequences
  import opened Texts

  datatype Tok = Newline | Spaces(v: string) | Comment(v: string) | Quoted(v: string) | Numeral(v: string)
    | Keyword(v: string) | TypeName(v: string) | Ident(v: string) | Punct(v: string)

  const KEYWORDS := {
    "SELECT", "FROM", "WHERE", "AND", "OR", "NOT", "IN", "LIMIT", "ORDER", "BY", "ASC", "DESC", "INSERT", "INTO", "VALUES",
    "UPDATE", "SET", "DELETE", "CREATE", "TABLE", "KEYSPACE", "TYPE", "INDEX", "MATERIALIZED", "VIEW", "DROP", "ALTER",
    "TRUNCATE", "USE", "WITH", "PRIMARY", "KEY", "IF", "EXISTS", "TTL", "USING", "TOKEN", "ALLOW", "FILTERING", "BATCH",
    "APPLY", "BEGIN", "GROUP", "CLUSTERING"}

  const TYPES := {
    "text", "uuid", "timeuuid", "bigint", "int", "float", "double", "boolean", "timestamp", "date", "blob", "inet",
    "decimal", "varchar", "varint", "counter", "ascii", "duration", "set", "list", "map", "tuple", "frozen"}

  // ----- classes of characters -----

  /** The space and the tab, which are all that a run of spaces takes. */
  predicate Blank(c: char) {
    c == ' ' || c == '\t'
  }

  /** White space of the regular expression `\s` other than those and the newline. */
  predicate Odd(c: char) {
    || c == '\r' || c == '\U{000B}' || c == '\U{000C}' || c == '\U{00A0}' || c == '\U{1680}'
    || '\U{2000}' <= c <= '\U{200A}' || c == '\U{2028}' || c == '\U{2029}' || c == '\U{202F}' || c == '\U{205F}'
    || c == '\U{3000}' || c == '\U{FEFF}'
  }

  predicate NumberChar(c: char) {
    Digit(c) || c == '.'
  }

  predicate WordStart(c: char) {
    'a' <= c <= 'z' || 'A' <= c <= 'Z' || c == '_'
  }

  predicate WordChar(c: char) {
    WordStart(c) || Digit(c)
  }

  predicate Punctuation(c: char) {
    c == '(' || c == ')' || c == '{' || c == '}' || c == ',' || c == ';' || c == '.' || c == '*' || c == '='
  }

  predicate QuoteMark(c: char) {
    c == '\'' || c == '"'
  }

  predicate InLine(c: char) {
    c != '\n'
  }

  predicate NotDouble(c: char) {
    c != '"'
  }

  predicate NotSingle(c: char) {
    c != '\''
  }

  function Not(q: char): char -> bool {
    if q == '"' then NotDouble else NotSingle
  }

  function WordToken(w: string): Tok {
    if Upper(w) in KEYWORDS then Keyword(w) else if Lower(w) in TYPES then TypeName(w) else Ident(w)
  }

  // ----- one round of the loop -----

  /** Where the run of such characters from `i` on ends. */
  function RunEnd(src: string, i: nat, p: char -> bool): (j: nat)
    requires i <= |src|
    ensures i <= j <= |src| && (forall k :: i <= k < j ==> p(src[k])) && (j < |src| ==> !p(src[j]))
    decreases |src| - i
  {
    if i < |src| && p(src[i]) then RunEnd(src, i + 1, p) else i
  }

  /** slice(i, j), which stops at the end of the source. */
  function Slice(src: string, i: nat, j: nat): string
    requires i <= |src| && i <= j
  {
    src[i..if j <= |src| then j else |src|]
  }

  predicate Dashes(src: string, i: nat) {
    i + 1 < |src| && src[i] == '-' && src[i + 1] == '-'
  }

  /** The token found at `i`, and where the next round starts. */
  function Round(src: string, i: nat): (r: (Tok, nat))
    requires i < |src|
    ensures i <= r.1 <= |src| + 1
  {
    var c := src[i];
    if c == '\n' then (Newline, i + 1)
    else if Blank(c) || Odd(c) then var j := RunEnd(src, i, Blank); (Spaces(src[i..j]), j)
    else if Dashes(src, i) then var j := RunEnd(src, i, InLine); (Comment(src[i..j]), j)
    else if QuoteMark(c) then var j := RunEnd(src, i + 1, Not(c)); (Quoted(Slice(src, i, j + 1)), j + 1)
    else if Digit(c) then var j := RunEnd(src, i, NumberChar); (Numeral(src[i..j]), j)
    else if WordStart(c) then var j := RunEnd(src, i, WordChar); (WordToken(src[i..j]), j)
    else if Punctuation(c) then (Punct([c]), i + 1)
    else (Ident([c]), i + 1)
  }

  /** The rounds from `i` on come to the end of the source. */
  predicate Stops(src: string, i: nat)
    decreases |src| - i
  {
    i >= |src| || (Round(src, i).1 > i && Stops(src, Round(src, i).1))
  }

  function Tokens(src: string, i: nat): seq<Tok>
    requires Stops(src, i)
    decreases |src| - i
  {
    if i >= |src| then [] else [Round(src, i).0] + Tokens(src, Round(src, i).1)
  }

  // ----- the code -----

  method FindEnd(src: string, from: nat, p: char -> bool) returns (j: nat)
    requires from <= |src|
    ensures j == RunEnd(src, from, p)
  {
    j := from;
    while j < |src| && p(src[j])
      invariant from <= j <= |src| && RunEnd(src, from, p) == RunEnd(src, j, p)
    {
      j := j + 1;
    }
  }

  method Tokenize(src: string) returns (out: seq<Tok>)
    requires Stops(src, 0)
    ensures out == Tokens(src, 0)
  {
    out := [];
    var i := 0;
    while i < |src|
      invariant Stops(src, i) && out + Tokens(src, i) == Tokens(src, 0)
      decreases |src| - i
    {
      var tok, next := OneRound(src, i);
      Assoc(out, [tok], Tokens(src, next));
      out, i := out + [tok], next;
    }
    assert out + [] == out;
  }

  // The body of the loop.
  method OneRound(src: string, i: nat) returns (tok: Tok, next: nat)
    requires i < |src|
    ensures (tok, next) == Round(src, i)
  {
    var c := src[i];
    if c == '\n' {
      return Newline, i + 1;
    }
    if Blank(c) || Odd(c) {
      var j := FindEnd(src, i, Blank);
      return Spaces(src[i..j]), j;
    }
    if c == '-' && i + 1 < |src| && src[i + 1] == '-' {
      var j := FindEnd(src, i, InLine);
      return Comment(src[i..j]), j;
    }
    if c == '\'' || c == '"' {
      var j := FindEnd(src, i + 1, Not(c));
      return Quoted(Slice(src, i, j + 1)), j + 1;
    }
    if Digit(c) {
      var j := FindEnd(src, i, NumberChar);
      return Numeral(src[i..j]), j;
    }
    if WordStart(c) {
      var j := FindEnd(src, i, WordChar);
      return WordToken(src[i..j]), j;
    }
    if Punctuation(c) {
      return Punct([c]), i + 1;
    }
    return Ident([c]), i + 1;
  }

  // ----- nothing is lost -----

  function TextOf(t: Tok): string {
    if t.Newline? then "\n" else t.v
  }

  function Concat(ts: seq<Tok>): string {
    if ts == [] then "" else TextOf(ts[0]) + Concat(ts[1..])
  }

  lemma {:induction false} RoundText(src: string, i: nat)
    requires i < |src|
    ensures TextOf(Round(src, i).0) == Slice(src, i, Round(src, i).1)
  {
  }

  /** The texts of the tokens, a newline token being a newline, put together are the source: also where a string is
      not terminated. */
  lemma {:induction false} Lossless(src: string, i: nat)
    requires i <= |src| && Stops(src, i)
    ensures Concat(Tokens(src, i)) == src[i..]
    decreases |src| - i
  {
    if i < |src| {
      var (t, j) := Round(src, i);
      RoundText(src, i);
      if j <= |src| {
        Lossless(src, j);
        assert src[i..] == src[i..j] + src[j..];
      } else {
        assert Tokens(src, j) == [];
      }
      assert Tokens(src, i)[1..] == Tokens(src, j);
    }
  }

  // ----- when the loop ends -----

  /** No odd white space from `i` on, but in a string or a comment. */
  predicate Clean(src: string, i: nat)
    decreases |src| - i
  {
    if i >= |src| then true
    else if Odd(src[i]) then false
    else if Dashes(src, i) then Clean(src, RunEnd(src, i + 2, InLine))
    else if QuoteMark(src[i]) then Clean(src, RunEnd(src, i + 1, Not(src[i])) + 1)
    else Clean(src, i + 1)
  }

  predicate Ordinary(c: char) {
    !Odd(c) && !QuoteMark(c) && c != '-'
  }

  lemma {:induction false} CleanRun(src: string, i: nat, j: nat)
    requires i <= j <= |src| && forall k :: i <= k < j ==> Ordinary(src[k])
    ensures Clean(src, i) == Clean(src, j)
    decreases j - i
  {
    if i < j {
      CleanRun(src, i + 1, j);
    }
  }

  lemma {:induction false} CommentEnd(src: string, i: nat)
    requires Dashes(src, i)
    ensures RunEnd(src, i, InLine) == RunEnd(src, i + 2, InLine)
  {
    assert RunEnd(src, i, InLine) == RunEnd(src, i + 1, InLine);
  }

  /** The loop ends exactly if there is no odd white space, such as a carriage return, outside strings and comments. */
  lemma {:induction false} StopsExactly(src: string, i: nat)
    ensures Stops(src, i) <==> Clean(src, i)
    decreases |src| - i
  {
    if i < |src| && !Odd(src[i]) {
      var c, j := src[i], Round(src, i).1;
      if c == '\n' || QuoteMark(c) {
      } else if Blank(c) {
        CleanRun(src, i, j);
      } else if Dashes(src, i) {
        CommentEnd(src, i);
      } else if Digit(c) || WordStart(c) {
        CleanRun(src, i, j);
      }
      StopsExactly(src, j);
    }
  }

  /** Where the loop is after `n` rounds. */
  function Position(src: string, n: nat): nat {
    if n == 0 then 0
    else
      var i := Position(src, n - 1);
      if i < |src| then Round(src, i).1 else i
  }

  lemma {:induction false} NextUnstopped(src: string, i: nat)
    requires !Stops(src, i)
    ensures i < |src| && !Stops(src, Round(src, i).1)
  {
    var j := Round(src, i).1;
    if j <= i {
      assert j == i;
    }
  }

  lemma NextPosition(src: string, n: nat)
    requires n > 0 && Position(src, n - 1) < |src|
    ensures Position(src, n) == Round(src, Position(src, n - 1)).1
  {
  }

  lemma {:induction false} StaysUnstopped(src: string, n: nat)
    requires !Stops(src, 0)
    ensures !Stops(src, Position(src, n))
  {
    if n > 0 {
      var i := Position(src, n - 1);
      StaysUnstopped(src, n - 1);
      NextUnstopped(src, i);
      NextPosition(src, n);
      assert Position(src, n) == Round(src, i).1;
    }
  }

  /** Otherwise it never ends: however many rounds have gone by, it is still before the end of the source. */
  lemma {:induction false} NeverEnds(src: string, n: nat)
    requires !Clean(src, 0)
    ensures Position(src, n) < |src|
  {
    StopsExactly(src, 0);
    StaysUnstopped(src, n);
  }

  /** A carriage return before a newline is enough. */
  lemma CarriageReturnHangs(n: nat)
    ensures Position("a\r\n", n) < 3
  {
    assert Odd("a\r\n"[1]) && !Clean("a\r\n", 1) && !Clean("a\r\n", 0);
    NeverEnds("a\r\n", n);
  }

  /** A source whose white space is spaces, tabs and newlines is tokenized, without loss. */
  lemma {:induction false} OrdinarySources(src: string)
    requires forall k :: 0 <= k < |src| ==> !Odd(src[k])
    ensures Stops(src, 0) && Concat(Tokens(src, 0)) == src
  {
    NoOddIsClean(src, 0);
    StopsExactly(src, 0);
    Lossless(src, 0);
  }

  lemma {:induction false} NoOddIsClean(src: string, i: nat)
    requires forall k :: 0 <= k < |src| ==> !Odd(src[k])
    ensures Clean(src, i)
    decreases |src| - i
  {
    if i < |src| {
      if Dashes(src, i) {
        NoOddIsClean(src, RunEnd(src, i + 2, InLine));
      } else if QuoteMark(src[i]) {
        NoOddIsClean(src, RunEnd(src, i + 1, Not(src[i])) + 1);
      } else {
        NoOddIsClean(src, i + 1);
      }
    }
  }
}
