/** The read-only guard of internal/query/service.go, stated on the text of a statement. */
module ReadOnlyGuard {
  import opened StatementLexer
  import opened Classifier
  import opened Texts
  import opened Trimming

  const READ_WORDS: set<string> := {"select", "use", "describe", "desc"}

  /** What is left of a text when spaces, then semicolons, then spaces are cut off its end. */
  function Tail(end: Piece, semicolon: Piece, t: string): string {
    TrimRight(end, TrimRight(semicolon, TrimRight(end, t)))
  }

  predicate White(t: string) {
    TrimLeft(SpaceStart, t) == ""
  }

  predicate Ignorable(t: string) {
    Tail(SpaceEnd, SemicolonEnd, t) == ""
  }

  /** `t` is white space, a reading keyword, and a rest that does not lengthen the keyword. */
  predicate ReadShape(t: string, lead: string, word: string, rest: string) {
    && t == lead + word + rest && White(lead) && Lower(word) in READ_WORDS
    && (Ignorable(rest) || (rest != "" && !IsLetter(rest[0])))
  }

  /** Behind the first semicolon there is only white space and semicolons. */
  ghost predicate SingleStatement(t: string) {
    forall p: nat, q: nat :: p < q < |t| && t[p] == ';' ==> !ExtraByte(t[q])
  }

  /** The stripped text is a single statement that starts with a reading keyword. */
  ghost predicate Reads(cql: string) {
    SingleStatement(Blank(cql)) && exists lead, word, rest :: ReadShape(Blank(cql), lead, word, rest)
  }

  lemma SingleIsNoExtra(cql: string)
    ensures Extra(cql) <==> !SingleStatement(Blank(cql))
  {
    var t := Blank(cql);
    if Extra(cql) {
      var q: nat :| ExtraAt(t, q);
      var p: nat :| p < q && p < |t| && t[p] == ';';
      assert p < q < |t| && t[p] == ';' && ExtraByte(t[q]);
    }
    if !SingleStatement(t) {
      var p: nat, q: nat :| p < q < |t| && t[p] == ';' && ExtraByte(t[q]);
      assert ExtraAt(t, q);
    }
  }

  // ----- the cutters do not reach into an ASCII word -----

  predicate AsciiWord(word: string) {
    word != "" && forall i :: 0 <= i < |word| ==> 'a' <= word[i] <= 'z' || 'A' <= word[i] <= 'Z'
  }

  // The pieces that end in `word + rest` are those of `rest`.
  ghost predicate WordEnds(end: Piece, word: string, rest: string) {
    && end(word + rest, |word|) == 0
    && forall k: nat :: 0 < k <= |rest| ==> end(rest, k) <= k && end(word + rest, |word| + k) == end(rest, k)
  }

  lemma SpaceEndsBehind(t: string, word: string, rest: string, k: nat)
    requires AsciiWord(word) && t == word + rest && k <= |rest|
    ensures SpaceEnd(t, |word| + k) == if k == 0 then 0 else SpaceEnd(rest, k)
  {
    assert forall j :: 0 <= j < |rest| ==> t[|word| + j] == rest[j];
    assert t[|word| - 1] == word[|word| - 1];
  }

  lemma SpacesBehind(word: string, rest: string)
    requires AsciiWord(word)
    ensures WordEnds(SpaceEnd, word, rest) && WordEnds(SemicolonEnd, word, rest)
  {
    var t := word + rest;
    SpaceEndsBehind(t, word, rest, 0);
    forall k: nat | 0 < k <= |rest|
      ensures SpaceEnd(rest, k) <= k && SpaceEnd(t, |word| + k) == SpaceEnd(rest, k)
    {
      SpaceEndsBehind(t, word, rest, k);
    }
    assert t[|word| - 1] == word[|word| - 1];
    assert forall j :: 0 <= j < |rest| ==> t[|word| + j] == rest[j];
  }

  lemma {:induction false} TrimRightBehind(end: Piece, word: string, rest: string)
    requires WordEnds(end, word, rest)
    ensures TrimRight(end, word + rest) == word + TrimRight(end, rest)
  {
    var t := word + rest;
    SameKeep(end, t, |word|, rest, |rest|);
    KeepBehind(word, rest, Keep(end, rest, |rest|));
  }

  lemma KeepBehind(word: string, rest: string, k: nat)
    requires k <= |rest|
    ensures (word + rest)[..|word| + k] == word + rest[..k]
    ensures k == 0 ==> (word + rest)[..|word|] == word + rest[..k]
  {
  }

  lemma {:induction false} TailBehind(word: string, rest: string)
    requires AsciiWord(word)
    ensures Tail(SpaceEnd, SemicolonEnd, word + rest) == word + Tail(SpaceEnd, SemicolonEnd, rest)
  {
    var a := TrimRight(SpaceEnd, rest);
    var b := TrimRight(SemicolonEnd, a);
    SpacesBehind(word, rest);
    SpacesBehind(word, a);
    SpacesBehind(word, b);
    TrimRightBehind(SpaceEnd, word, rest);
    TrimRightBehind(SemicolonEnd, word, a);
    TrimRightBehind(SpaceEnd, word, b);
  }

  // ----- trimming both ends -----

  // A prefix of a text that starts with no space starts with no space.
  ghost predicate PrefixStart(start: Piece, t: string) {
    start(t, 0) == 0 ==> forall n: nat :: n <= |t| ==> start(t[..n], 0) == 0
  }

  lemma SpacePrefix(t: string)
    ensures PrefixStart(SpaceStart, t)
  {
  }

  lemma {:induction false} NoSkip(start: Piece, t: string)
    requires start(t, 0) == 0
    ensures TrimLeft(start, t) == t
  {
  }

  lemma {:induction false} TrimRightIsPrefix(end: Piece, t: string)
    ensures TrimRight(end, t) == t[..|TrimRight(end, t)|]
  {
  }

  // Once nothing is left to cut off the front, cutting the end leaves nothing to cut off the front.
  lemma {:induction false} TrimmedIsTail(start: Piece, end: Piece, semicolon: Piece, t: string, u: string)
    requires u == TrimLeft(start, t) && start(u, 0) == 0 && PrefixStart(start, u)
    ensures Trimmed(start, end, semicolon, t) == Tail(end, semicolon, u)
  {
    var a := TrimRight(end, u);
    var b := TrimRight(semicolon, a);
    TrimRightIsPrefix(end, u);
    TrimRightIsPrefix(semicolon, a);
    assert b == u[..|b|];
    NoSkip(start, b);
  }

  lemma {:induction false} TailStays(end: Piece, semicolon: Piece, t: string)
    requires forall u: string, n: nat :: n <= |u| ==> end(u[..n], n) == end(u, n)
    ensures TrimRight(end, Tail(end, semicolon, t)) == Tail(end, semicolon, t)
    ensures exists m: nat :: m <= |t| && Tail(end, semicolon, t) == t[..m]
  {
    var a := TrimRight(end, t);
    var b := TrimRight(semicolon, a);
    KeepStops(end, b, |b|);
    TrimRightIsPrefix(end, t);
    TrimRightIsPrefix(semicolon, a);
    TrimRightIsPrefix(end, b);
    var m := |TrimRight(end, b)|;
    assert Tail(end, semicolon, t) == t[..m];
  }

  lemma TrimLeftLeaves(t: string) returns (u: string)
    ensures u == TrimLeft(SpaceStart, t) == t[|t| - |u|..] && |u| <= |t| && SpaceStart(u, 0) == 0
    ensures White(t[..|t| - |u|])
  {
    var i := Skip(SpaceStart, t, 0);
    u := t[i..];
    SkipStops(SpaceStart, t, 0);
    SkipAll(t, i, 0);
  }

  lemma {:induction false} SkipAll(t: string, n: nat, i: nat)
    requires i <= n <= |t| && Skip(SpaceStart, t, i) == n
    ensures Skip(SpaceStart, t[..n], i) == n
    decreases n - i
  {
    var k := SpaceStart(t, i);
    if k > 0 {
      assert i + k <= n;
      assert SpaceStart(t[..n], i) == k;
      SkipAll(t, n, i + k);
    }
  }

  lemma {:induction false} WhiteLead(lead: string, u: string, i: nat)
    requires i <= |lead| && Skip(SpaceStart, lead, i) == |lead| && SpaceStart(u, 0) == 0
    ensures Skip(SpaceStart, lead + u, i) == |lead|
    decreases |lead| - i
  {
    var t := lead + u;
    if i == |lead| {
      assert forall j :: 0 <= j < |u| ==> t[i + j] == u[j];
    } else {
      var k := SpaceStart(lead, i);
      assert SpaceStart(t, i) == k > 0;
      WhiteLead(lead, u, i + k);
    }
  }

  lemma {:induction false} RunOfWord(word: string, t: string)
    requires (forall i :: 0 <= i < |word| ==> IsLetter(word[i])) && (t == "" || !IsLetter(t[0]))
    ensures LetterRun(word + t) == |word|
    decreases |word|
  {
    if word == "" {
      assert word + t == t;
    } else {
      assert (word + t)[1..] == word[1..] + t;
      RunOfWord(word[1..], t);
    }
  }

  // The keyword of a text that is trimmed already is its leading letters.
  lemma {:induction false} KeywordOfTrimmed(y: string)
    requires SpaceStart(y, 0) == 0 && TrimRight(SpaceEnd, y) == y
    ensures Keyword(SpaceStart, SpaceEnd, y) == Lower(y[..LetterRun(y)])
  {
    NoSkip(SpaceStart, y);
  }

  lemma ReadKinds(keyword: string)
    ensures keyword in READ_WORDS <==> KindOf(keyword).Accepted? && IsReadOnly(KindOf(keyword).kind)
  {
  }

  lemma LowerAscii(word: string)
    requires Lower(word) in READ_WORDS
    ensures AsciiWord(word)
  {
    var l := Lower(word);
    forall i | 0 <= i < |word|
      ensures 'a' <= word[i] <= 'z' || 'A' <= word[i] <= 'Z'
    {
      assert 'a' <= l[i] <= 'z';
    }
  }

  function ProgramTrim(t: string): string {
    Trimmed(SpaceStart, SpaceEnd, SemicolonEnd, t)
  }

  predicate ReadingVerdict(v: Verdict) {
    v.Accepted? && IsReadOnly(v.kind)
  }

  lemma {:induction false} ReadingWord(y: string)
    requires SpaceStart(y, 0) == 0 && TrimRight(SpaceEnd, y) == y
    ensures ReadingVerdict(VerdictOf(y)) <==> Lower(y[..LetterRun(y)]) in READ_WORDS
  {
    KeywordOfTrimmed(y);
    ReadKinds(Lower(y[..LetterRun(y)]));
  }

  lemma SpaceSteps(t: string)
    ensures forall u: string, n: nat :: n <= |u| ==> SpaceEnd(u[..n], n) == SpaceEnd(u, n)
  {
  }

  // The text that trimming leaves, split at the word: `u` has no space in front.
  lemma {:induction false} TrimmedText(t: string, u: string) returns (y: string)
    requires u == TrimLeft(SpaceStart, t) && SpaceStart(u, 0) == 0
    ensures y == ProgramTrim(t) == Tail(SpaceEnd, SemicolonEnd, u) && |y| <= |u| && y == u[..|y|]
    ensures SpaceStart(y, 0) == 0 && TrimRight(SpaceEnd, y) == y
  {
    SpacePrefix(u);
    TrimmedIsTail(SpaceStart, SpaceEnd, SemicolonEnd, t, u);
    y := Tail(SpaceEnd, SemicolonEnd, u);
    SpaceSteps(u);
    TailStays(SpaceEnd, SemicolonEnd, u);
    var m: nat :| m <= |u| && y == u[..m];
  }

  /** `t` is white space, a word of ASCII letters, and a rest that does not lengthen the word. */
  predicate Led(t: string, lead: string, word: string, rest: string) {
    && t == lead + word + rest && White(lead) && AsciiWord(word)
    && (Ignorable(rest) || (rest != "" && !IsLetter(rest[0])))
  }

  /** The first word decides: what follows it has no influence on the kind. */
  lemma {:induction false} FirstWordDecides(t: string, lead: string, word: string, rest: string)
    requires Led(t, lead, word, rest)
    ensures VerdictOf(ProgramTrim(t)) == KindOf(Lower(word))
  {
    var u := word + rest;
    assert t == lead + u;
    assert u[0] == word[0];
    WhiteLead(lead, u, 0);
    assert TrimLeft(SpaceStart, t) == u;
    var y := TrimmedText(t, u);
    TailBehind(word, rest);
    var tail := Tail(SpaceEnd, SemicolonEnd, rest);
    assert tail != "" ==> y[|word|] == tail[0] == u[|word|] == rest[0];
    RunOfWord(word, tail);
    assert y[..|word|] == word;
    KeywordOfTrimmed(y);
  }

  lemma {:induction false} ShapeReads(t: string, lead: string, word: string, rest: string)
    requires ReadShape(t, lead, word, rest)
    ensures ReadingVerdict(VerdictOf(ProgramTrim(t)))
  {
    LowerAscii(word);
    FirstWordDecides(t, lead, word, rest);
    ReadKinds(Lower(word));
  }

  lemma {:induction false} RestOfWord(u: string, y: string, word: string, rest: string)
    requires u == word + rest && y == Tail(SpaceEnd, SemicolonEnd, u) && LetterRun(y) == |word|
    requires AsciiWord(word)
    ensures Ignorable(rest) || (rest != "" && !IsLetter(rest[0]))
  {
    TailBehind(word, rest);
    var tail := Tail(SpaceEnd, SemicolonEnd, rest);
    if tail != "" {
      TailPrefix(rest);
      assert y[|word|] == tail[0] == rest[0];
    }
  }

  lemma TailPrefix(t: string)
    ensures Tail(SpaceEnd, SemicolonEnd, t) != "" ==> t != "" && Tail(SpaceEnd, SemicolonEnd, t)[0] == t[0]
  {
    SpaceSteps(t);
    TailStays(SpaceEnd, SemicolonEnd, t);
  }

  lemma {:induction false} ReadingText(t: string) returns (u: string, y: string)
    requires ReadingVerdict(VerdictOf(ProgramTrim(t)))
    ensures |u| <= |t| && u == t[|t| - |u|..] && White(t[..|t| - |u|])
    ensures y == Tail(SpaceEnd, SemicolonEnd, u) && |y| <= |u| && y == u[..|y|]
    ensures Lower(y[..LetterRun(y)]) in READ_WORDS
  {
    u := TrimLeftLeaves(t);
    y := TrimmedText(t, u);
    ReadingWord(y);
  }

  lemma {:induction false} ReadsShape(t: string) returns (lead: string, word: string, rest: string)
    requires ReadingVerdict(VerdictOf(ProgramTrim(t)))
    ensures ReadShape(t, lead, word, rest)
  {
    var u, y := ReadingText(t);
    LowerAscii(y[..LetterRun(y)]);
    lead, word, rest := SplitAtWord(t, u, y);
  }

  lemma {:induction false} SplitAtWord(t: string, u: string, y: string)
    returns (lead: string, word: string, rest: string)
    requires |u| <= |t| && u == t[|t| - |u|..] && White(t[..|t| - |u|])
    requires y == Tail(SpaceEnd, SemicolonEnd, u) && |y| <= |u| && y == u[..|y|]
    requires AsciiWord(y[..LetterRun(y)])
    ensures Led(t, lead, word, rest) && word == y[..LetterRun(y)]
  {
    var k := LetterRun(y);
    Reassembled(t, u, y, k);
    lead, word, rest := t[..|t| - |u|], u[..k], u[k..];
    RestOfWord(u, y, word, rest);
  }

  lemma Reassembled(t: string, u: string, y: string, k: nat)
    requires k <= |y| <= |u| <= |t| && u == t[|t| - |u|..] && y == u[..|y|]
    ensures t == t[..|t| - |u|] + u[..k] + u[k..] && u == u[..k] + u[k..] && y[..k] == u[..k]
  {
  }

  /** A statement is accepted as reading if and only if its stripped text is a single statement that
      starts with a reading keyword. */
  lemma {:induction false} ReadOnlyExactly(cql: string)
    ensures ReadingVerdict(Classified(cql)) <==> Reads(cql)
  {
    SingleIsNoExtra(cql);
    var t := Blank(cql);
    if Reads(cql) {
      var lead, word, rest :| ReadShape(t, lead, word, rest);
      ShapeReads(t, lead, word, rest);
    }
    if ReadingVerdict(Classified(cql)) {
      var lead, word, rest := ReadsShape(t);
    }
  }
}
