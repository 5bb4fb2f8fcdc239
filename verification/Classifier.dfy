/** Statement classification: internal/query/classifier.go.  Total over all byte strings. */
module Classifier {
  import opened Options
  import opened StatementLexer
  import opened Texts

  datatype Kind =
    | NoKind | Select | Insert | Update | Delete | Truncate | Create | Alter | Drop | Use | Describe
    | Batch | Grant | Revoke | List | Unknown | Empty

  datatype Error = MultiStatement | Unsupported | EmptyStatement

  datatype Verdict = Accepted(kind: Kind) | Rejected(kind: Kind, error: Error)

  predicate IsReadOnly(k: Kind) {
    k == Select || k == Use || k == Describe
  }

  predicate IsDDL(k: Kind) {
    k == Create || k == Alter || k == Drop || k == Truncate
  }

  // ----- strings.TrimSpace, strings.TrimRight(_, ";"), strings.ToLower, unicode.IsLetter -----

  // The UTF-8 encodings of the code points that unicode.IsSpace accepts, by length.

  predicate Space1(a: char) {
    a == ' ' || '\t' <= a <= '\r'
  }

  predicate Space2(a: char, b: char) {
    a == '\U{C2}' && (b == '\U{85}' || b == '\U{A0}')
  }

  predicate Space3(a: char, b: char, c: char) {
    || (a == '\U{E1}' && b == '\U{9A}' && c == '\U{80}')
    || (a == '\U{E2}' && b == '\U{80}' &&
        ('\U{80}' <= c <= '\U{8A}' || c == '\U{A8}' || c == '\U{A9}' || c == '\U{AF}'))
    || (a == '\U{E2}' && b == '\U{81}' && c == '\U{9F}')
    || (a == '\U{E3}' && b == '\U{80}' && c == '\U{80}')
  }

  /** The length of the encoded space that starts at `i`, or 0. */
  function SpaceStart(t: string, i: nat): nat {
    if i + 1 <= |t| && Space1(t[i]) then 1
    else if i + 2 <= |t| && Space2(t[i], t[i + 1]) then 2
    else if i + 3 <= |t| && Space3(t[i], t[i + 1], t[i + 2]) then 3
    else 0
  }

  /** The length of the encoded space that ends at `n`, or 0. */
  function SpaceEnd(t: string, n: nat): nat {
    if 1 <= n <= |t| && Space1(t[n - 1]) then 1
    else if 2 <= n <= |t| && Space2(t[n - 2], t[n - 1]) then 2
    else if 3 <= n <= |t| && Space3(t[n - 3], t[n - 2], t[n - 1]) then 3
    else 0
  }

  function SemicolonEnd(t: string, n: nat): nat {
    if 1 <= n <= |t| && t[n - 1] == ';' then 1 else 0
  }

  /** How far a piece to cut off reaches from a position of a text; 0 if there is none. */
  type Piece = (string, nat) -> nat

  /** Where the text starts once the pieces from `i` on are cut off. */
  function Skip(piece: Piece, t: string, i: nat): (j: nat)
    requires i <= |t|
    ensures i <= j <= |t|
    decreases |t| - i
  {
    if 0 < piece(t, i) <= |t| - i then Skip(piece, t, i + piece(t, i)) else i
  }

  /** Where the text ends once the pieces before `n` are cut off. */
  function Keep(piece: Piece, t: string, n: nat): (m: nat)
    requires n <= |t|
    ensures m <= n
  {
    if 0 < piece(t, n) <= n then Keep(piece, t, n - piece(t, n)) else n
  }

  function TrimLeft(start: Piece, t: string): string {
    t[Skip(start, t, 0)..]
  }

  function TrimRight(end: Piece, t: string): string {
    t[..Keep(end, t, |t|)]
  }

  function Trim(start: Piece, end: Piece, t: string): string {
    TrimRight(end, TrimLeft(start, t))
  }

  /** unicode.IsLetter on a single byte read as a rune. */
  predicate IsLetter(c: char) {
    || 'a' <= c <= 'z' || 'A' <= c <= 'Z' || c == '\U{AA}' || c == '\U{B5}' || c == '\U{BA}'
    || '\U{C0}' <= c <= '\U{D6}' || '\U{D8}' <= c <= '\U{F6}' || '\U{F8}' <= c <= '\U{FF}'
  }

  function LetterRun(t: string): (n: nat)
    ensures n <= |t| && (forall i :: 0 <= i < n ==> IsLetter(t[i])) && (n < |t| ==> !IsLetter(t[n]))
  {
    if |t| == 0 || !IsLetter(t[0]) then 0 else 1 + LetterRun(t[1..])
  }

  // ----- classification -----

  function KindOf(keyword: string): Verdict {
    if keyword == "select" then Accepted(Select)
    else if keyword == "insert" then Accepted(Insert)
    else if keyword == "update" then Accepted(Update)
    else if keyword == "delete" then Accepted(Delete)
    else if keyword == "truncate" then Accepted(Truncate)
    else if keyword == "create" then Accepted(Create)
    else if keyword == "alter" then Accepted(Alter)
    else if keyword == "drop" then Accepted(Drop)
    else if keyword == "use" then Accepted(Use)
    else if keyword == "describe" || keyword == "desc" then Accepted(Describe)
    else if keyword == "begin" || keyword == "apply" then Accepted(Batch)
    else if keyword == "grant" then Rejected(Grant, Unsupported)
    else if keyword == "revoke" then Rejected(Revoke, Unsupported)
    else if keyword == "list" then Rejected(List, Unsupported)
    else Accepted(Unknown)
  }

  /** The lower-cased letters at the front of a text. */
  function LeadingWord(t: string): string {
    Lower(t[..LetterRun(t)])
  }

  /** The lower-cased word at the front of a text, once the spaces around it are cut off. */
  function Keyword(start: Piece, end: Piece, t: string): string {
    LeadingWord(Trim(start, end, t))
  }

  /** One round of firstKeyword: the word behind the prefix `attempt`, or None where the text does not start with it. */
  function Attempted(start: Piece, end: Piece, t: string, attempt: string): Option<string> {
    var candidate := Trim(start, end, t);
    if attempt == "" then Some(LeadingWord(candidate))
    else if attempt <= Lower(candidate) then Some(Keyword(start, end, candidate[|attempt|..]))
    else None
  }

  /** The word the first round with a result yields. */
  function FirstOf(start: Piece, end: Piece, t: string, attempts: seq<string>): string {
    if attempts == [] then ""
    else match Attempted(start, end, t, attempts[0])
      case Some(word) => word
      case None => FirstOf(start, end, t, attempts[1..])
  }

  const ATTEMPTS: seq<string> := ["", "explain "]

  /** A round without a prefix always returns: whatever prefixes are listed behind it are never looked through.  In
      the source's list it is the first. */
  lemma {:induction false} FirstRoundReturns(start: Piece, end: Piece, t: string, before: seq<string>, more: seq<string>)
    ensures FirstOf(start, end, t, before + [""] + more) == FirstOf(start, end, t, before + [""])
    ensures before == [] ==> FirstOf(start, end, t, before + [""] + more) == Keyword(start, end, t)
    decreases |before|
  {
    if before == [] {
      assert (before + [""] + more)[0] == "" && (before + [""])[0] == "";
    } else {
      FirstRoundReturns(start, end, t, before[1..], more);
      assert (before + [""] + more)[1..] == before[1..] + [""] + more;
      assert (before + [""])[1..] == before[1..] + [""];
    }
  }

  /** The statement without the spaces and semicolons around it. */
  function Trimmed(start: Piece, end: Piece, semicolon: Piece, stripped: string): string {
    Trim(start, end, TrimRight(semicolon, Trim(start, end, stripped)))
  }

  function VerdictOf(t: string): Verdict {
    if t == "" then Rejected(Empty, EmptyStatement) else KindOf(Keyword(SpaceStart, SpaceEnd, t))
  }

  ghost function Classified(cql: string): Verdict {
    if Extra(cql) then Rejected(NoKind, MultiStatement)
    else VerdictOf(Trimmed(SpaceStart, SpaceEnd, SemicolonEnd, Blank(cql)))
  }

  // The body of the loop over the attempts; None is its `continue`.
  method Attempt(t: string, attempt: string) returns (keyword: Option<string>)
    ensures keyword == Attempted(SpaceStart, SpaceEnd, t, attempt)
  {
    var candidate := Trim(SpaceStart, SpaceEnd, t);
    if attempt != "" {
      if !(attempt <= Lower(candidate)) {
        return None;
      }
      candidate := Trim(SpaceStart, SpaceEnd, candidate[|attempt|..]);
    }
    var i: nat := 0;
    while i < |candidate| && IsLetter(candidate[i])
      invariant i <= LetterRun(candidate)
    {
      i := i + 1;
    }
    if i == 0 {
      return Some("");
    }
    return Some(Lower(candidate[..i]));
  }

  method FirstKeyword(t: string, attempts: seq<string>) returns (keyword: string)
    ensures keyword == FirstOf(SpaceStart, SpaceEnd, t, attempts)
  {
    var n := 0;
    while n < |attempts|
      invariant 0 <= n <= |attempts|
      invariant FirstOf(SpaceStart, SpaceEnd, t, attempts) == FirstOf(SpaceStart, SpaceEnd, t, attempts[n..])
    {
      var word := Attempt(t, attempts[n]);
      if word.Some? {
        return word.value;
      }
      n := n + 1;
    }
    return "";
  }

  method Classify(cql: string) returns (v: Verdict)
    ensures v == Classified(cql)
  {
    var stripped, extra := StripInPlace(cql);
    if extra {
      return Rejected(NoKind, MultiStatement);
    }
    var trimmed := Trim(SpaceStart, SpaceEnd, stripped);
    trimmed := TrimRight(SemicolonEnd, trimmed);
    trimmed := Trim(SpaceStart, SpaceEnd, trimmed);
    if trimmed == "" {
      return Rejected(Empty, EmptyStatement);
    }
    FirstRoundReturns(SpaceStart, SpaceEnd, trimmed, [], ["explain "]);
    assert ATTEMPTS == [] + [""] + ["explain "];
    var keyword := FirstKeyword(trimmed, ATTEMPTS);
    return KindOf(keyword);
  }
}
