/** Which texts are classified as empty, and what the first word of the others decides. */
module EmptyStatements {
  import opened StatementLexer
  import opened Classifier
  import opened Texts
  import opened Trimming
  import opened ClassifierProperties
  import opened ReadOnlyGuard

  predicate AllSemicolons(t: string) {
    forall i :: 0 <= i < |t| ==> t[i] == ';'
  }

  /** White space around one contiguous run of semicolons. */
  predicate Bare(t: string, lead: string, semis: string, trail: string) {
    t == lead + semis + trail && White(lead) && AllSemicolons(semis) && White(trail)
  }

  // ----- what is cut off one end is cut off the other -----

  // A piece that ends at `n` is one that starts where it starts.
  ghost predicate EndsStart(start: Piece, end: Piece, t: string) {
    forall n: nat :: 0 < end(t, n) <= n <= |t| ==> start(t, n - end(t, n)) == end(t, n)
  }

  ghost predicate StartsEnd(start: Piece, end: Piece, t: string) {
    forall i: nat :: 0 < start(t, i) <= |t| - i ==> end(t, i + start(t, i)) == start(t, i)
  }

  lemma SpaceOfEnd(t: string, n: nat)
    requires 0 < SpaceEnd(t, n) <= n <= |t|
    ensures SpaceStart(t, n - SpaceEnd(t, n)) == SpaceEnd(t, n)
  {
  }

  lemma SpaceEndsStart(t: string)
    ensures EndsStart(SpaceStart, SpaceEnd, t)
  {
    forall n: nat | 0 < SpaceEnd(t, n) <= n <= |t| ensures SpaceStart(t, n - SpaceEnd(t, n)) == SpaceEnd(t, n) {
      SpaceOfEnd(t, n);
    }
  }

  lemma SpaceOfStart(t: string, i: nat)
    requires 0 < SpaceStart(t, i) <= |t| - i
    ensures SpaceEnd(t, i + SpaceStart(t, i)) == SpaceStart(t, i)
  {
  }

  lemma SpaceStartsEnd(t: string)
    ensures StartsEnd(SpaceStart, SpaceEnd, t)
  {
    forall i: nat | 0 < SpaceStart(t, i) <= |t| - i ensures SpaceEnd(t, i + SpaceStart(t, i)) == SpaceStart(t, i) {
      SpaceOfStart(t, i);
    }
  }

  // What is skipped from the left is cut off from the right.
  lemma {:induction false} SkippedIsCut(start: Piece, end: Piece, t: string, i: nat)
    requires StartsEnd(start, end, t) && i <= |t|
    ensures Keep(end, t, Skip(start, t, i)) == Keep(end, t, i)
    decreases |t| - i
  {
    if 0 < start(t, i) <= |t| - i {
      SkippedIsCut(start, end, t, i + start(t, i));
    }
  }

  // What is cut off from the right is skipped from the left.
  lemma {:induction false} CutIsSkipped(start: Piece, end: Piece, t: string, n: nat)
    requires EndsStart(start, end, t) && n <= |t|
    ensures Skip(start, t, Keep(end, t, n)) == Skip(start, t, n)
  {
    if 0 < end(t, n) <= n {
      CutIsSkipped(start, end, t, n - end(t, n));
    }
  }

  // A piece of a prefix is a piece of the text.
  ghost predicate PrefixPieces(start: Piece, v: string, t: string) {
    forall i: nat :: 0 < start(v, i) <= |v| - i ==> start(t, i) == start(v, i)
  }

  lemma {:induction false} SkipOnward(start: Piece, v: string, t: string, i: nat)
    requires i <= |v| <= |t| && PrefixPieces(start, v, t) && Skip(start, v, i) == |v|
    ensures Skip(start, t, i) == Skip(start, t, |v|)
    decreases |v| - i
  {
    if 0 < start(v, i) <= |v| - i {
      SkipOnward(start, v, t, i + start(v, i));
    }
  }

  lemma SpacePrefixPieces(v: string, t: string)
    requires |v| <= |t| && v == t[..|v|]
    ensures PrefixPieces(SpaceStart, v, t)
  {
  }

  lemma WhiteSuffix(t: string, m: nat)
    requires m <= |t| && Skip(SpaceStart, t, m) == |t|
    ensures White(t[m..])
  {
    SkipOfSuffix(SpaceStart, t, m, t[m..], 0);
  }

  lemma SpaceSuffixPieces(a: string, b: string, k: nat)
    requires k <= |b|
    ensures SpaceStart(a + b, |a| + k) == SpaceStart(b, k)
  {
    assert forall j :: 0 <= j < |b| ==> (a + b)[|a| + j] == b[j];
  }

  lemma {:induction false} SkipConcat(start: Piece, a: string, b: string)
    requires PrefixPieces(start, a, a + b) && forall k: nat :: k <= |b| ==> start(a + b, |a| + k) == start(b, k)
    requires TrimLeft(start, a) == "" && TrimLeft(start, b) == ""
    ensures TrimLeft(start, a + b) == ""
  {
    SkipOnward(start, a, a + b, 0);
    SkipOfSuffix(start, a + b, |a|, b, 0);
  }

  lemma {:induction false} WhiteConcat(a: string, b: string)
    requires White(a) && White(b)
    ensures White(a + b)
  {
    assert (a + b)[..|a|] == a;
    SpacePrefixPieces(a, a + b);
    forall k: nat | k <= |b| ensures SpaceStart(a + b, |a| + k) == SpaceStart(b, k) {
      SpaceSuffixPieces(a, b, k);
    }
    SkipConcat(SpaceStart, a, b);
  }

  lemma {:induction false} WhiteIsCut(t: string)
    requires White(t)
    ensures Keep(SpaceEnd, t, |t|) == 0
  {
    SpaceStartsEnd(t);
    SkippedIsCut(SpaceStart, SpaceEnd, t, 0);
  }

  lemma {:induction false} CutIsWhite(t: string)
    requires Keep(SpaceEnd, t, |t|) == 0
    ensures White(t)
  {
    SpaceEndsStart(t);
    CutIsSkipped(SpaceStart, SpaceEnd, t, |t|);
  }

  lemma {:induction false} WhiteEnd(t: string)
    ensures White(t[Keep(SpaceEnd, t, |t|)..])
  {
    var k := Keep(SpaceEnd, t, |t|);
    assert Skip(SpaceStart, t, k) == |t| by {
      SpaceEndsStart(t);
      CutIsSkipped(SpaceStart, SpaceEnd, t, |t|);
    }
    WhiteSuffix(t, k);
  }

  // ----- semicolons -----

  lemma {:induction false} SemicolonsCut(t: string, n: nat)
    requires n <= |t|
    ensures AllSemicolons(t[Keep(SemicolonEnd, t, n)..n])
    ensures AllSemicolons(t[..n]) ==> Keep(SemicolonEnd, t, n) == 0
  {
    if SemicolonEnd(t, n) > 0 {
      assert t[..n][n - 1] == ';';
      SemicolonsCut(t, n - 1);
      var m := Keep(SemicolonEnd, t, n - 1);
      assert t[m..n] == t[m..n - 1] + [t[n - 1]];
      assert t[..n - 1] == t[..n][..n - 1];
    } else if n > 0 {
      assert t[..n][n - 1] != ';';
    }
  }

  lemma SpaceEndsAfterSemicolon(t: string, semis: string, trail: string, k: nat)
    requires semis != "" && AllSemicolons(semis) && t == semis + trail && k <= |trail|
    ensures SpaceEnd(t, |semis| + k) == if k == 0 then 0 else SpaceEnd(trail, k)
  {
    assert forall j :: 0 <= j < |trail| ==> t[|semis| + j] == trail[j];
    assert t[|semis| - 1] == semis[|semis| - 1];
  }

  lemma TrailEnds(semis: string, trail: string)
    requires semis != "" && AllSemicolons(semis)
    ensures WordEnds(SpaceEnd, semis, trail)
  {
    SpaceEndsAfterSemicolon(semis + trail, semis, trail, 0);
    forall k: nat | 0 < k <= |trail|
      ensures SpaceEnd(trail, k) <= k && SpaceEnd(semis + trail, |semis| + k) == SpaceEnd(trail, k)
    {
      SpaceEndsAfterSemicolon(semis + trail, semis, trail, k);
    }
  }

  lemma {:induction false} WhiteGone(trail: string)
    requires White(trail)
    ensures TrimRight(SpaceEnd, trail) == ""
  {
    WhiteIsCut(trail);
  }

  lemma {:induction false} TrailCut(semis: string, trail: string)
    requires semis != "" && AllSemicolons(semis) && White(trail)
    ensures TrimRight(SpaceEnd, semis + trail) == semis
  {
    TrailEnds(semis, trail);
    TrimRightBehind(SpaceEnd, semis, trail);
    WhiteGone(trail);
    assert semis + "" == semis;
  }

  lemma {:induction false} SemicolonsGone(semis: string)
    requires AllSemicolons(semis)
    ensures TrimRight(SemicolonEnd, semis) == ""
  {
    assert semis[..|semis|] == semis;
    SemicolonsCut(semis, |semis|);
  }

  // ----- the empty texts -----

  lemma {:induction false} BareIsEmpty(t: string, lead: string, semis: string, trail: string)
    requires Bare(t, lead, semis, trail)
    ensures ProgramTrim(t) == ""
  {
    if semis == "" {
      WhiteConcat(lead, trail);
      assert t == lead + trail;
    } else {
      var u := semis + trail;
      assert u[0] == ';' && t == lead + u;
      WhiteLead(lead, u, 0);
      assert TrimLeft(SpaceStart, t) == u;
      var y := TrimmedText(t, u);
      TrailCut(semis, trail);
      SemicolonsGone(semis);
    }
  }

  // What is left in front of the semicolons starts with no space, so if it is cut off there was nothing.
  lemma {:induction false} NothingInFront(b: string)
    requires SpaceStart(b, 0) == 0 && TrimRight(SpaceEnd, b) == ""
    ensures b == ""
  {
    CutIsWhite(b);
  }

  lemma {:induction false} TailOfFront(end: Piece, semicolon: Piece, u: string, k: nat, m: nat)
    requires k == Keep(end, u, |u|) && m == Keep(semicolon, u[..k], k)
    ensures Tail(end, semicolon, u) == TrimRight(end, u[..m])
  {
    assert u[..k][..m] == u[..m];
  }

  lemma SlicesOfFront(u: string, k: nat, m: nat)
    requires m <= k <= |u|
    ensures u[..k][m..k] == u[m..k]
  {
  }

  // The text is a front, which ends where the cutting of semicolons ends, a run of semicolons, and white space.
  lemma {:induction false} TailCut(u: string) returns (m: nat, k: nat)
    ensures m <= k <= |u| && Tail(SpaceEnd, SemicolonEnd, u) == TrimRight(SpaceEnd, u[..m])
    ensures AllSemicolons(u[m..k]) && White(u[k..])
  {
    k := Keep(SpaceEnd, u, |u|);
    m := Keep(SemicolonEnd, u[..k], k);
    TailOfFront(SpaceEnd, SemicolonEnd, u, k, m);
    WhiteEnd(u);
    SemicolonsCut(u[..k], k);
    SlicesOfFront(u, k, m);
  }

  lemma {:induction false} TailParts(u: string) returns (semis: string, trail: string)
    requires SpaceStart(u, 0) == 0 && Tail(SpaceEnd, SemicolonEnd, u) == ""
    ensures u == semis + trail && AllSemicolons(semis) && White(trail)
  {
    var m, k := TailCut(u);
    assert SpaceStart(u[..m], 0) == 0 by {
      SpacePrefix(u);
    }
    NothingInFront(u[..m]);
    semis, trail := u[m..k], u[k..];
  }

  lemma {:induction false} EmptyIsBare(t: string) returns (lead: string, semis: string, trail: string)
    requires ProgramTrim(t) == ""
    ensures Bare(t, lead, semis, trail)
  {
    var u := TrimLeftLeaves(t);
    assert Tail(SpaceEnd, SemicolonEnd, u) == "" by {
      var y := TrimmedText(t, u);
    }
    semis, trail := TailParts(u);
    lead := t[..|t| - |u|];
    Joined(t, lead, u, semis, trail);
  }

  lemma Joined(t: string, lead: string, u: string, semis: string, trail: string)
    requires |u| <= |t| && lead == t[..|t| - |u|] && u == t[|t| - |u|..] && u == semis + trail
    ensures t == lead + semis + trail
  {
    assert t == lead + u;
    assert lead + (semis + trail) == lead + semis + trail;
  }

  lemma OnlyTheEmptyTextIsEmpty(y: string)
    ensures VerdictOf(y) == Rejected(Empty, EmptyStatement) <==> y == ""
  {
  }

  /** A statement is classified as empty exactly if its stripped text is white space around one contiguous run of
      semicolons, or around none. */
  lemma {:induction false} EmptyExactly(cql: string)
    ensures Classified(cql) == Rejected(Empty, EmptyStatement) <==>
      !Extra(cql) && exists lead, semis, trail :: Bare(Blank(cql), lead, semis, trail)
  {
    var t := Blank(cql);
    OnlyTheEmptyTextIsEmpty(ProgramTrim(t));
    if lead, semis, trail :| Bare(t, lead, semis, trail) {
      BareIsEmpty(t, lead, semis, trail);
    }
    if ProgramTrim(t) == "" {
      var lead, semis, trail := EmptyIsBare(t);
    }
  }

  // ----- texts of nothing but spaces and semicolons -----

  predicate SpacesAndSemicolons(t: string) {
    forall i :: 0 <= i < |t| ==> Space1(t[i]) || t[i] == ';'
  }

  /** A space stands between two semicolons. */
  predicate Gapped(t: string) {
    exists i, j, k :: 0 <= i < j < k < |t| && t[i] == ';' && Space1(t[j]) && t[k] == ';'
  }

  lemma {:induction false} AllSpacesWhite(t: string, i: nat)
    requires i <= |t| && forall j :: i <= j < |t| ==> Space1(t[j])
    ensures Skip(SpaceStart, t, i) == |t|
    decreases |t| - i
  {
    if i < |t| {
      AllSpacesWhite(t, i + 1);
    }
  }

  lemma {:induction false} FirstAt(t: string, i: nat) returns (a: nat)
    requires i <= |t| && SpacesAndSemicolons(t)
    ensures i <= a <= |t| && (forall j :: i <= j < a ==> Space1(t[j])) && (a < |t| ==> t[a] == ';')
    decreases |t| - i
  {
    a := i;
    if i < |t| && t[i] != ';' {
      a := FirstAt(t, i + 1);
    }
  }

  lemma {:induction false} RunFrom(t: string, i: nat) returns (b: nat)
    requires i <= |t| && SpacesAndSemicolons(t)
    ensures i <= b <= |t| && (forall j :: i <= j < b ==> t[j] == ';') && (b < |t| ==> Space1(t[b]))
    decreases |t| - i
  {
    b := i;
    if i < |t| && t[i] == ';' {
      b := RunFrom(t, i + 1);
    }
  }

  lemma {:induction false} UngappedIsBare(t: string) returns (lead: string, semis: string, trail: string)
    requires SpacesAndSemicolons(t)
    ensures Gapped(t) || Bare(t, lead, semis, trail)
  {
    var a := FirstAt(t, 0);
    var b := RunFrom(t, a);
    lead, semis, trail := t[..a], t[a..b], t[b..];
    if j :| b <= j < |t| && t[j] == ';' {
      assert t[a] == ';' && Space1(t[b]) && a < b < j;
    } else {
      AllSpacesWhite(lead, 0);
      AllSpacesWhite(trail, 0);
    }
  }

  lemma {:induction false} WhiteHasNoSemicolon(t: string, i: nat, j: nat)
    requires i <= |t| && Skip(SpaceStart, t, i) == |t| && i <= j < |t|
    ensures t[j] != ';'
    decreases |t| - i
  {
    var k := SpaceStart(t, i);
    if j >= i + k {
      WhiteHasNoSemicolon(t, i + k, j);
    }
  }

  lemma {:induction false} BareIsUngapped(t: string, lead: string, semis: string, trail: string)
    requires Bare(t, lead, semis, trail)
    ensures !Gapped(t)
  {
    var a, b := |lead|, |lead| + |semis|;
    forall j: nat | j < |t| && t[j] == ';' ensures a <= j < b {
      if j < a {
        WhiteHasNoSemicolon(lead, 0, j);
      } else if j >= b {
        WhiteHasNoSemicolon(trail, 0, j - b);
      }
    }
    forall j | a <= j < b ensures t[j] == ';' {
      assert t[j] == semis[j - a];
    }
  }

  lemma NoKeywordIsUnknown()
    ensures KindOf("") == Accepted(Unknown)
  {
  }

  lemma {:induction false} NoLetterIsUnknown(y: string)
    requires y != "" && !IsLetter(y[0]) && Keyword(SpaceStart, SpaceEnd, y) == Lower(y[..LetterRun(y)])
    ensures VerdictOf(y) == Accepted(Unknown)
  {
    assert LetterRun(y) == 0 && y[..0] == "";
    NoKeywordIsUnknown();
  }

  lemma {:induction false} TrimmedStart(t: string) returns (y: string)
    requires SpacesAndSemicolons(t) && ProgramTrim(t) != ""
    ensures y == ProgramTrim(t) && y[0] == ';' && Keyword(SpaceStart, SpaceEnd, y) == Lower(y[..LetterRun(y)])
  {
    var u := TrimLeftLeaves(t);
    y := TrimmedText(t, u);
    assert y[0] == u[0] == t[|t| - |u|];
    KeywordOfTrimmed(y);
  }

  lemma {:induction false} NoWordIsUnknown(t: string)
    requires SpacesAndSemicolons(t) && ProgramTrim(t) != ""
    ensures VerdictOf(ProgramTrim(t)) == Accepted(Unknown)
  {
    var y := TrimmedStart(t);
    NoLetterIsUnknown(y);
  }

  lemma NothingExtra(cql: string)
    requires SpacesAndSemicolons(Blank(cql))
    ensures !Extra(cql)
  {
  }

  /** A text of nothing but comments, literals, spaces and semicolons is empty exactly if no space stands between two
      semicolons once it is stripped; otherwise it is an unknown statement, which is accepted. */
  lemma {:induction false} SpacedSemicolons(cql: string)
    requires SpacesAndSemicolons(Blank(cql))
    ensures Classified(cql) == if Gapped(Blank(cql)) then Accepted(Unknown) else Rejected(Empty, EmptyStatement)
  {
    var t := Blank(cql);
    NothingExtra(cql);
    if Gapped(t) {
      if ProgramTrim(t) == "" {
        var lead, semis, trail := EmptyIsBare(t);
        BareIsUngapped(t, lead, semis, trail);
      }
      NoWordIsUnknown(t);
    } else {
      var lead, semis, trail := UngappedIsBare(t);
      BareIsEmpty(t, lead, semis, trail);
    }
  }

  lemma PairIsKept(t: string)
    requires t == "; ;"
    ensures Blank(t) == t
  {
    StripsNothing(t);
  }

  /** Two semicolons with a space between them. */
  lemma SpacedPair()
    ensures Classified("; ;") == Accepted(Unknown)
  {
    var t := "; ;";
    PairIsKept(t);
    assert t[0] == ';' && Space1(t[1]) && t[2] == ';';
    SpacedSemicolons(t);
  }

  /** A lone string literal is none of white space, comment and semicolon, yet it is empty. */
  lemma LoneLiteral()
    ensures Classified("'abc'") == Rejected(Empty, EmptyStatement)
  {
    var s := "'abc'";
    assert ModeAt(s, 1) == Literal && ModeAt(s, 2) == Literal && ModeAt(s, 3) == Literal && ModeAt(s, 4) == Literal;
    forall i: nat | i < 5 ensures Blank(s)[i] == ' ' {
      assert Stripped(s, Blank(s), i);
    }
    SpacedSemicolons(s);
  }

  // ----- explain -----

  lemma ExplainIsNoKeyword(word: string)
    requires word == "explain"
    ensures KindOf(word) == Accepted(Unknown)
  {
    assert word[0] == 'e';
  }

  /** Behind EXPLAIN nothing is looked at: a single statement that starts with it is of no known kind, whatever
      follows. */
  lemma {:induction false} ExplainIsUnknown(cql: string, lead: string, word: string, rest: string)
    requires !Extra(cql) && Led(Blank(cql), lead, word, rest) && Lower(word) == "explain"
    ensures Classified(cql) == Accepted(Unknown)
  {
    FirstWordDecides(Blank(cql), lead, word, rest);
    ExplainIsNoKeyword(Lower(word));
  }

  lemma ExplainLowered()
    ensures Lower("explain") == "explain" && AsciiWord("explain")
  {
  }

  lemma PlainLed(word: string, rest: string)
    requires AsciiWord(word) && rest != "" && !IsLetter(rest[0])
    ensures Led(word + rest, "", word, rest)
  {
    assert "" + word == word;
    assert White("");
  }

  lemma PlainText(word: string, rest: string)
    requires word == "explain" && rest == " select"
    ensures !Extra(word + rest) && Blank(word + rest) == word + rest
  {
    var s := word + rest;
    forall i: nat | i < |s| ensures !Opens(s, i) && s[i] != ';' {
      assert s[i] == if i < |word| then word[i] else rest[i - |word|];
    }
    StripsNothing(s);
  }

  /** A read that is explained is no read. */
  lemma ExplainedRead()
    ensures Classified("explain" + " select") == Accepted(Unknown)
  {
    var word, rest := "explain", " select";
    PlainText(word, rest);
    ExplainLowered();
    PlainLed(word, rest);
    ExplainIsUnknown(word + rest, "", word, rest);
  }
}
