/** White space, letters and separators by their code points: what the classifier cuts off and passes over
    (internal/query/classifier.go). */
module WhiteSpace {
  import opened Sequences
  import opened StatementLexer
  import opened Classifier
  import opened Trimming
  import opened ReadOnlyGuard
  import opened EmptyStatements

  /** The white space of Unicode. */
  predicate WhitePoint(n: int) {
    || 0x9 <= n <= 0xD || n == 0x20 || n == 0x85 || n == 0xA0 || n == 0x1680 || 0x2000 <= n <= 0x200A
    || n == 0x2028 || n == 0x2029 || n == 0x202F || n == 0x205F || n == 0x3000
  }

  predicate Continuation(c: char) {
    0x80 <= c as int < 0xC0
  }

  /** The code point that up to three bytes stand for in UTF-8 (section 3 of RFC 3629). */
  function Point(p: string): int {
    if |p| == 1 && p[0] as int < 0x80 then p[0] as int
    else if |p| == 2 && 0xC2 <= p[0] as int < 0xE0 && Continuation(p[1]) then 64 * (p[0] as int - 0xC0) + (p[1] as int - 0x80)
    else if |p| == 3 && (0xE0 < p[0] as int < 0xF0 || (p[0] as int == 0xE0 && p[1] as int >= 0xA0)) && Continuation(p[1])
      && Continuation(p[2]) then
      4096 * (p[0] as int - 0xE0) + 64 * (p[1] as int - 0x80) + (p[2] as int - 0x80)
    else -1
  }

  /** From `i` on the text is nothing but encoded white space. */
  ghost predicate AllWhite(t: string, i: nat)
    requires i <= |t|
    decreases |t| - i
  {
    i == |t| || exists j: nat :: i < j <= |t| && WhitePoint(Point(t[i..j])) && AllWhite(t, j)
  }

  lemma OneByte(t: string, i: nat)
    requires i + 1 <= |t|
    ensures WhitePoint(Point(t[i..i + 1])) <==> Space1(t[i])
  {
    assert t[i..i + 1][0] == t[i];
  }

  lemma TwoBytes(t: string, i: nat)
    requires i + 2 <= |t|
    ensures WhitePoint(Point(t[i..i + 2])) <==> Space2(t[i], t[i + 1])
  {
    assert t[i..i + 2][0] == t[i] && t[i..i + 2][1] == t[i + 1];
  }

  lemma ThreeBytes(t: string, i: nat)
    requires i + 3 <= |t|
    ensures WhitePoint(Point(t[i..i + 3])) <==> Space3(t[i], t[i + 1], t[i + 2])
  {
    assert t[i..i + 3][0] == t[i] && t[i..i + 3][1] == t[i + 1] && t[i..i + 3][2] == t[i + 2];
  }

  lemma NoMoreBytes(p: string)
    requires |p| > 3
    ensures !WhitePoint(Point(p))
  {
  }

  lemma {:induction false} StartIsWhite(t: string, i: nat, j: nat)
    requires i < j <= |t|
    ensures WhitePoint(Point(t[i..j])) <==> SpaceStart(t, i) == j - i
  {
    OneByte(t, i);
    if j - i >= 2 {
      TwoBytes(t, i);
    }
    if j - i == 3 {
      ThreeBytes(t, i);
    }
    if j - i > 3 {
      NoMoreBytes(t[i..j]);
    }
  }

  lemma FirstSkip(t: string, i: nat)
    requires i <= |t|
    ensures var k := SpaceStart(t, i); Skip(SpaceStart, t, i) == if 0 < k <= |t| - i then Skip(SpaceStart, t, i + k) else i
  {
  }

  lemma {:induction false} FirstWhite(t: string, i: nat)
    requires i < |t|
    ensures var k := SpaceStart(t, i); AllWhite(t, i) <==> 0 < k <= |t| - i && AllWhite(t, i + k)
  {
    var k := SpaceStart(t, i);
    if 0 < k <= |t| - i {
      StartIsWhite(t, i, i + k);
    }
    if AllWhite(t, i) {
      var j: nat :| i < j <= |t| && WhitePoint(Point(t[i..j])) && AllWhite(t, j);
      StartIsWhite(t, i, j);
    }
  }

  lemma {:induction false} WhiteFrom(t: string, i: nat)
    requires i <= |t|
    ensures Skip(SpaceStart, t, i) == |t| <==> AllWhite(t, i)
    decreases |t| - i
  {
    FirstSkip(t, i);
    if i < |t| {
      var k := SpaceStart(t, i);
      FirstWhite(t, i);
      if 0 < k <= |t| - i {
        WhiteFrom(t, i + k);
      }
    }
  }

  /** What is cut off the front as white space is white space in whole encoded characters, and nothing else. */
  lemma {:induction false} WhiteExactly(t: string)
    ensures White(t) <==> AllWhite(t, 0)
  {
    WhiteFrom(t, 0);
  }

  lemma EndsBehindSemicolon(t: string, word: string, rest: string, k: nat)
    requires word != "" && word[|word| - 1] == ';' && t == word + rest && k <= |rest|
    ensures SpaceEnd(t, |word| + k) == if k == 0 then 0 else SpaceEnd(rest, k)
  {
    assert t[|word| - 1] == ';' && forall j :: 0 <= j < |rest| ==> t[|word| + j] == rest[j];
  }

  lemma {:induction false} CutBehindSemicolon(word: string, rest: string)
    requires word != "" && word[|word| - 1] == ';' && White(rest)
    ensures TrimRight(SpaceEnd, word + rest) == word
  {
    EndsBehindSemicolon(word + rest, word, rest, 0);
    forall k: nat | 0 < k <= |rest|
      ensures SpaceEnd(rest, k) <= k && SpaceEnd(word + rest, |word| + k) == SpaceEnd(rest, k)
    {
      EndsBehindSemicolon(word + rest, word, rest, k);
    }
    TrimRightBehind(SpaceEnd, word, rest);
    WhiteGone(rest);
    assert word + "" == word;
  }

  lemma {:induction false} SemicolonsBehindWhite(lead: string, semis: string)
    requires White(lead) && AllSemicolons(semis)
    ensures TrimRight(SemicolonEnd, lead + semis) == lead
  {
    if lead != "" {
      WhiteHasNoSemicolon(lead, 0, |lead| - 1);
      assert (lead + semis)[|lead| - 1] == lead[|lead| - 1];
    }
    assert forall k :: 0 <= k < |semis| ==> (lead + semis)[|lead| + k] == semis[k];
    TrimRightBehind(SemicolonEnd, lead, semis);
    SemicolonsGone(semis);
    assert lead + "" == lead;
  }

  lemma {:induction false} BareIsIgnorable(t: string, lead: string, semis: string, trail: string)
    requires Bare(t, lead, semis, trail)
    ensures Ignorable(t)
  {
    if semis == "" {
      WhiteConcat(lead, trail);
      assert t == lead + trail;
      WhiteGone(t);
    } else {
      CutBehindSemicolon(lead + semis, trail);
      SemicolonsBehindWhite(lead, semis);
      WhiteGone(lead);
    }
  }

  /** What is ignored behind a word is white space around one contiguous run of semicolons. */
  lemma {:induction false} IgnorableExactly(t: string)
    ensures Ignorable(t) <==> exists lead, semis, trail :: Bare(t, lead, semis, trail)
  {
    if Ignorable(t) {
      var m, k := TailCut(t);
      CutIsWhite(t[..m]);
      assert t == t[..m] + t[m..k] + t[k..];
      assert Bare(t, t[..m], t[m..k], t[k..]);
    }
    if lead, semis, trail :| Bare(t, lead, semis, trail) {
      BareIsIgnorable(t, lead, semis, trail);
    }
  }

  // ----- single bytes -----

  /** The letters among the first 256 code points: those of ASCII, the two ordinals, the micro sign, and the accented
      ones, which are all from U+00C0 on but the multiplication and the division sign. */
  predicate Letter(n: int) {
    || 0x41 <= n <= 0x5A || 0x61 <= n <= 0x7A || n == 0xAA || n == 0xB5 || n == 0xBA
    || (0xC0 <= n <= 0xFF && n != 0xD7 && n != 0xF7)
  }

  /** A keyword goes on exactly at a byte that is a letter's code point, and a second statement begins exactly at one that
      is neither that of white space nor a semicolon. */
  lemma BytesExactly(c: char)
    requires c as int < 256
    ensures IsLetter(c) <==> Letter(c as int)
    ensures ExtraByte(c) <==> !WhitePoint(c as int) && c != ';'
  {
  }
}
