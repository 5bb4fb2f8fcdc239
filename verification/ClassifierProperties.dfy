/** What the stripper and the classifier guarantee for every statement text. */
module ClassifierProperties {
  import opened Sequences
  import opened StatementLexer
  import opened Classifier
  import opened Texts
  import opened Trimming

  // Byte `i` of `t` is a space, or a code byte of `s` that was kept.
  predicate KeptOrBlank(s: string, t: string, i: nat)
    requires i < |s| == |t|
  {
    t[i] == ' ' || (t[i] == s[i] && Code(s, i))
  }

  lemma NoOpening(s: string, t: string, i: nat)
    requires i < |s| == |t| && KeptOrBlank(s, t, i) && (i + 1 < |s| ==> KeptOrBlank(s, t, i + 1))
    ensures !OpensLine(t, i) && !OpensBlock(t, i) && t[i] != '\''
  {
  }

  // Stripped text holds no comment and no literal.
  lemma {:induction false} AllCode(s: string, t: string, i: nat)
    requires i < |s| == |t| && forall k: nat :: k < |s| ==> KeptOrBlank(s, t, k)
    ensures Code(t, i)
    decreases i
  {
    if i > 0 {
      AllCode(s, t, i - 1);
    }
    NoOpening(s, t, i);
  }

  /** Stripping twice is stripping once, and the stripped text is classified as the text was. */
  lemma StripIdempotent(s: string)
    ensures Blank(Blank(s)) == Blank(s)
    ensures Extra(Blank(s)) <==> Extra(s)
    ensures Classified(Blank(s)) == Classified(s)
  {
    forall k: nat | k < |s|
      ensures KeptOrBlank(s, Blank(s), k)
    {
      assert Stripped(s, Blank(s), k);
    }
    forall i: nat | i < |s|
      ensures Code(Blank(s), i)
    {
      AllCode(s, Blank(s), i);
    }
    assert Blank(Blank(s)) == Blank(s) by {
      forall i: nat | i < |s|
        ensures Blank(Blank(s))[i] == Blank(s)[i]
      {
        assert Stripped(Blank(s), Blank(Blank(s)), i);
      }
    }
  }

  // ----- what stripping leaves alone -----

  predicate Opens(s: string, i: nat)
    requires i < |s|
  {
    OpensLine(s, i) || OpensBlock(s, i) || s[i] == '\''
  }

  ghost predicate NothingOpens(s: string, i: nat, j: nat) {
    forall k: nat :: i <= k < j && k < |s| ==> !Opens(s, k)
  }

  lemma {:induction false} NormalUpTo(s: string, i: nat, j: nat)
    requires i <= j <= |s| && ModeAt(s, i) == Normal && NothingOpens(s, i, j)
    ensures ModeAt(s, j) == Normal
    decreases j
  {
    if i < j {
      NormalUpTo(s, i, j - 1);
      assert !Opens(s, j - 1);
    }
  }

  lemma {:induction false} FirstOpening(s: string, i: nat, j: nat) returns (k: nat)
    requires i <= j < |s| && Opens(s, j)
    ensures i <= k <= j && Opens(s, k) && NothingOpens(s, i, k)
    decreases j
  {
    if n: nat :| i <= n < j && Opens(s, n) {
      k := FirstOpening(s, i, n);
    } else {
      k := j;
    }
  }

  /** Where the scanner reads ordinary text, it leaves a piece of it as it is if and only if no comment or literal
      opens in the piece. */
  lemma {:induction false} SliceKept(s: string, i: nat, j: nat)
    requires i <= j <= |s| && ModeAt(s, i) == Normal
    ensures Blank(s)[i..j] == s[i..j] <==> NothingOpens(s, i, j)
  {
    var t := Blank(s);
    if n: nat :| i <= n < j && Opens(s, n) {
      var k := FirstOpening(s, i, n);
      NormalUpTo(s, i, k);
      assert Stripped(s, t, k) && t[k] == ' ' != s[k];
      assert t[i..j][k - i] == t[k] && s[i..j][k - i] == s[k];
    } else {
      forall k: nat | i <= k < j
        ensures t[k] == s[k]
      {
        NormalUpTo(s, i, k);
        assert !Opens(s, k) && Stripped(s, t, k);
      }
    }
  }

  /** So stripping leaves a whole text as it is if and only if no comment or literal delimiter occurs in it. */
  lemma {:induction false} StripsNothing(s: string)
    ensures Blank(s) == s <==> NothingOpens(s, 0, |s|)
  {
    SliceKept(s, 0, |s|);
    assert Blank(s)[0..|s|] == Blank(s) && s[0..|s|] == s;
  }

  // ----- comments and literals do not influence the verdict -----

  /** A comment or a string literal with its delimiters. */
  datatype Delimited = Block(body: string) | Dashes(body: string) | Slashes(body: string) | Quoted(body: string)

  function Text(d: Delimited): string {
    match d
    case Block(body) => "/*" + body + "*/"
    case Dashes(body) => "--" + body
    case Slashes(body) => "//" + body
    case Quoted(body) => "'" + body + "'"
  }

  function Opening(d: Delimited): string {
    match d
    case Block(_) => "/*"
    case Dashes(_) => "--"
    case Slashes(_) => "//"
    case Quoted(_) => "'"
  }

  predicate QuotesDoubled(body: string) {
    if body == "" then true
    else if body[0] != '\'' then QuotesDoubled(body[1..])
    else |body| >= 2 && body[1] == '\'' && QuotesDoubled(body[2..])
  }

  /** The delimiter that ends `d` is its last one when the text `after` follows it. */
  ghost predicate Closes(d: Delimited, after: string) {
    match d
    case Block(body) => forall k: nat :: k < |body| ==> !Pair(body + "*/", k, '*', '/')
    case Dashes(body) => '\n' !in body && (after == "" || after[0] == '\n')
    case Slashes(body) => '\n' !in body && (after == "" || after[0] == '\n')
    case Quoted(body) => QuotesDoubled(body) && (after == "" || after[0] != '\'')
  }

  // The region at `i` is no code, and the lexer is back in Normal mode behind it.
  ghost predicate BlankRegion(s: string, i: nat, j: nat) {
    i <= j <= |s| && (forall k: nat :: i <= k < j ==> !Code(s, k)) && (j < |s| ==> ModeAt(s, j) == Normal)
  }

  // The delimiters of a block comment are where they were written.
  lemma BlockMarks(s: string, i: nat, body: string)
    requires i + |body| + 4 <= |s| && s[i..i + |body| + 4] == Text(Block(body))
    ensures s[i] == '/' && s[i + 1] == '*' && s[i + 2 + |body|] == '*' && s[i + 3 + |body|] == '/'
  {
    var text := Text(Block(body));
    SliceAt(s, i, text, 0);
    SliceAt(s, i, text, 1);
    SliceAt(s, i, text, |body| + 2);
    SliceAt(s, i, text, |body| + 3);
  }

  lemma BlockInside(s: string, i: nat, body: string, k: nat)
    requires i + |body| + 4 <= |s| && s[i..i + |body| + 4] == Text(Block(body)) && k < |body|
    ensures Pair(s, i + 2 + k, '*', '/') <==> Pair(body + "*/", k, '*', '/')
  {
    var text, closed := Text(Block(body)), body + "*/";
    SliceAt(s, i, text, k + 2);
    SliceAt(s, i, text, k + 3);
    assert text[k + 2] == closed[k] && text[k + 3] == closed[k + 1];
  }

  lemma BlockRegion(s: string, i: nat, body: string)
    requires i + |body| + 4 <= |s| && s[i..i + |body| + 4] == Text(Block(body))
    requires forall k: nat :: k < |body| ==> !Pair(body + "*/", k, '*', '/')
    requires ModeAt(s, i) == Normal
    ensures BlankRegion(s, i, i + |body| + 4)
  {
    var j := i + 2 + |body|;
    BlockMarks(s, i, body);
    forall k: nat | i + 2 <= k < j
      ensures !Pair(s, k, '*', '/')
    {
      BlockInside(s, i, body, k - i - 2);
    }
    BlockBody(s, i, j);
    assert ModeAt(s, j + 1) == BlockEnd;
    assert ModeAt(s, j + 2) == Normal;
  }

  lemma LineRegion(s: string, i: nat, j: nat)
    requires i + 2 <= j <= |s| && ModeAt(s, i) == Normal && OpensLine(s, i)
    requires forall k :: i + 2 <= k < j ==> s[k] != '\n'
    ensures forall k: nat :: i <= k < j ==> !Code(s, k)
    ensures ModeAt(s, j) == if j < |s| && s[j] == '\n' then Normal else LineComment
  {
    if j == i + 2 {
      assert ModeAt(s, i + 1) == LineComment;
    } else {
      LineRegion(s, i, j - 1);
    }
  }

  lemma {:induction false} QuotedBody(s: string, i: nat, body: string)
    requires i + |body| < |s| && s[i..i + |body|] == body && s[i + |body|] == '\''
    requires ModeAt(s, i) == Literal && QuotesDoubled(body)
    ensures ModeAt(s, i + |body|) == Literal
    ensures forall k: nat :: i <= k < i + |body| ==> !Code(s, k)
    decreases |body|
  {
    if body != "" {
      assert forall k :: 0 <= k < |body| ==> s[i + k] == body[k];
      if body[0] != '\'' {
        assert s[i] == body[0];
        assert s[i + 1..i + 1 + |body[1..]|] == body[1..];
        QuotedBody(s, i + 1, body[1..]);
      } else {
        assert s[i + 1] == body[1];
        assert ModeAt(s, i + 1) == Escape;
        assert s[i + 2..i + 2 + |body[2..]|] == body[2..];
        QuotedBody(s, i + 2, body[2..]);
      }
    }
  }

  lemma QuotedRegion(s: string, i: nat, j: nat, body: string)
    requires j == i + 1 + |body| < |s| && s[i] == '\'' && s[i + 1..j] == body && s[j] == '\'' && QuotesDoubled(body)
    requires ModeAt(s, i) == Normal && (j + 1 < |s| ==> s[j + 1] != '\'')
    ensures BlankRegion(s, i, j + 1)
  {
    EnterLiteral(s, i);
    QuotedBody(s, i + 1, body);
    LeaveLiteral(s, j);
  }

  lemma CommentRegion(s: string, i: nat, j: nat, mark: char, body: string)
    requires j == i + 2 + |body| <= |s| && mark in "-/" && '\n' !in body
    requires s[i..j] == (if mark == '-' then "--" else "//") + body
    requires ModeAt(s, i) == Normal && (j < |s| ==> s[j] == '\n')
    ensures BlankRegion(s, i, j)
  {
    var text := (if mark == '-' then "--" else "//") + body;
    SliceAt(s, i, text, 0);
    SliceAt(s, i, text, 1);
    assert s[i] == text[0] == mark && s[i + 1] == text[1] == mark;
    forall k | i + 2 <= k < j ensures s[k] == body[k - i - 2] {
      SliceAt(s, i, text, k - i);
    }
    LineRegion(s, i, j);
  }

  lemma RegionIsBlank(s: string, i: nat, d: Delimited, b: string)
    requires i + |Text(d)| <= |s| && s[i..i + |Text(d)|] == Text(d) && s[i + |Text(d)|..] == b
    requires Closes(d, b) && ModeAt(s, i) == Normal
    ensures BlankRegion(s, i, i + |Text(d)|)
  {
    var j := i + |Text(d)|;
    assert j < |s| ==> s[j] == b[0];
    match d
    case Block(body) =>
      BlockRegion(s, i, body);
    case Dashes(body) =>
      CommentRegion(s, i, j, '-', body);
    case Slashes(body) =>
      CommentRegion(s, i, j, '/', body);
    case Quoted(body) =>
      QuotedEnds(s, i, j, body);
      QuotedRegion(s, i, j - 1, body);
  }

  lemma QuotedEnds(s: string, i: nat, j: nat, body: string)
    requires j == i + |body| + 2 <= |s| && s[i..j] == "'" + body + "'"
    ensures s[i] == '\'' && s[i + 1..j - 1] == body && s[j - 1] == '\''
  {
    var text := "'" + body + "'";
    assert s[i] == s[i..j][0] == text[0];
    assert s[j - 1] == s[i..j][|body| + 1] == text[|body| + 1];
    forall k | 0 <= k < |body|
      ensures s[i + 1 + k] == body[k]
    {
      assert s[i..j][k + 1] == text[k + 1];
    }
  }

  lemma {:induction false} SamePrefix(s: string, t: string, i: nat)
    requires i < |s| && i < |t| && s[..i + 1] == t[..i + 1]
    ensures ModeAt(s, i) == ModeAt(t, i)
    ensures forall k: nat :: k < i ==> Code(s, k) == Code(t, k)
  {
    if i > 0 {
      assert s[..i] == s[..i + 1][..i] == t[..i + 1][..i] == t[..i];
      SamePrefix(s, t, i - 1);
      assert s[i - 1] == s[..i + 1][i - 1] == t[i - 1] && s[i] == s[..i + 1][i] == t[i];
    }
  }

  lemma {:induction false} SameSuffix(s: string, i: nat, t: string, j: nat, n: nat)
    requires i + n < |s| && j + n < |t| && s[i..] == t[j..] && ModeAt(s, i) == ModeAt(t, j) == Normal
    ensures ModeAt(s, i + n) == ModeAt(t, j + n) && s[i + n] == t[j + n]
    ensures Code(s, i + n) == Code(t, j + n)
  {
    assert |s| - i == |t| - j;
    assert s[i + n] == s[i..][n] == t[j..][n] == t[j + n];
    if i + n + 1 < |s| {
      assert s[i + n + 1] == s[i..][n + 1] == t[j..][n + 1] == t[j + n + 1];
    }
    if n > 0 {
      SameSuffix(s, i, t, j, n - 1);
      assert s[i + n - 1] == s[i..][n - 1] == t[j..][n - 1] == t[j + n - 1];
    }
  }

  function Spaces(n: nat): string {
    seq(n, _ => ' ')
  }

  function Gap(a: string, n: nat, b: string): (t: string)
    ensures |t| == |a| + n + |b|
  {
    a + Spaces(n) + b
  }

  // What stripping makes of the text behind a region, when the region is followed by `b`.
  lemma BlankTail(s: string, i: nat, t: string, j: nat)
    requires i <= |s| && j <= |t| && s[i..] == t[j..]
    requires i < |s| ==> ModeAt(s, i) == ModeAt(t, j) == Normal
    ensures Blank(s)[i..] == Blank(t)[j..]
  {
    assert |s| - i == |t| - j;
    forall n: nat | n < |s| - i
      ensures Blank(s)[i..][n] == Blank(t)[j..][n]
    {
      SameSuffix(s, i, t, j, n);
      assert Stripped(s, Blank(s), i + n) && Stripped(t, Blank(t), j + n);
    }
  }

  lemma BlankHead(s: string, t: string, i: nat)
    requires i < |s| && i < |t| && s[..i + 1] == t[..i + 1]
    ensures Blank(s)[..i] == Blank(t)[..i]
  {
    SamePrefix(s, t, i);
    forall k: nat | k < i
      ensures Blank(s)[k] == Blank(t)[k]
    {
      assert s[k] == s[..i + 1][k] == t[..i + 1][k] == t[k];
      assert Stripped(s, Blank(s), k) && Stripped(t, Blank(t), k);
    }
  }

  lemma BlankAsGap(s: string, i: nat, j: nat)
    requires i <= j <= |s| && BlankRegion(s, i, j)
    ensures Blank(s) == Gap(Blank(s)[..i], j - i, Blank(s)[j..])
  {
    forall k: nat | i <= k < j
      ensures Blank(s)[k] == ' '
    {
      assert Stripped(s, Blank(s), k);
    }
  }

  // The stripped text around a region does not depend on the region's body.
  lemma BlankAround(s: string, i: nat, t: string, j: nat, n: nat)
    requires n <= i <= |s| && n <= j <= |t| && n < |s| && n < |t|
    requires s[..n + 1] == t[..n + 1] && s[i..] == t[j..]
    requires BlankRegion(s, n, i) && BlankRegion(t, n, j)
    ensures Blank(s) == Gap(Blank(s)[..n], i - n, Blank(s)[i..])
    ensures Blank(t) == Gap(Blank(s)[..n], j - n, Blank(s)[i..])
  {
    BlankHead(s, t, n);
    BlankTail(s, i, t, j);
    BlankAsGap(s, n, i);
    BlankAsGap(t, n, j);
  }

  lemma ExtraOfGap(a: string, n: nat, m: nat, b: string, q: nat)
    requires ExtraAt(Gap(a, n, b), q)
    ensures exists r: nat :: ExtraAt(Gap(a, m, b), r)
  {
    var s, t := Gap(a, n, b), Gap(a, m, b);
    var p: nat :| p < q && p < |s| && s[p] == ';';
    var p' := if p < |a| then p else p + m - n;
    var q' := if q < |a| then q else q + m - n;
    assert t[p'] == ';' && ExtraByte(t[q']) && p' < q';
    assert ExtraAt(t, q');
  }

  // ----- trimming around a run of spaces -----

  // A piece that ends at `k` lies in `a`, in the run of spaces, or in `b`.
  ghost predicate EndsIn(end: Piece, inRun: nat, a: string, n: nat, b: string) {
    var t, m := Gap(a, n, b), |a| + n;
    && (forall k: nat :: 0 < k <= |b| ==> end(b, k) <= k && end(t, m + k) == end(b, k))
    && (forall k: nat :: |a| < k <= m ==> end(t, k) == inRun)
    && (forall k: nat :: k <= |a| ==> end(t, k) == end(a, k))
  }

  ghost predicate StartsIn(start: Piece, a: string, n: nat, b: string) {
    var t, m := Gap(a, n, b), |a| + n;
    && (forall k: nat :: k < |a| ==> start(a, k) <= |a| - k && start(t, k) == start(a, k))
    && (forall k: nat :: |a| <= k < m ==> start(t, k) == 1)
    && (forall k: nat :: k <= |b| ==> start(t, m + k) == start(b, k))
  }

  // A piece of a prefix or suffix is a piece of the text.
  ghost predicate PrefixEnd(end: Piece, t: string, n: nat) {
    n <= |t| && end(t[..n], n) == end(t, n)
  }

  ghost predicate SuffixStart(start: Piece, t: string, i: nat) {
    i <= |t| && start(t[i..], 0) == start(t, i)
  }

  // What the proofs need to know about the three cutters of the program.
  ghost predicate Cutters(start: Piece, end: Piece, semicolon: Piece) {
    && (forall a: string, n: nat, b: string :: n > 0 ==> EndsIn(end, 1, a, n, b))
    && (forall a: string, n: nat, b: string :: n > 0 ==> EndsIn(semicolon, 0, a, n, b))
    && (forall a: string, n: nat, b: string :: n > 0 ==> StartsIn(start, a, n, b))
    && (forall t: string, n: nat :: n <= |t| ==> PrefixEnd(end, t, n))
    && (forall t: string, i: nat :: i <= |t| ==> SuffixStart(start, t, i))
  }

  lemma SpaceEndsIn(t: string, a: string, n: nat, b: string, k: nat)
    requires t == Gap(a, n, b) && n > 0 && k <= |t|
    ensures SpaceEnd(t, k) == if k > |a| + n then SpaceEnd(b, k - |a| - n) else if k > |a| then 1 else SpaceEnd(a, k)
  {
    assert t[|a| + n - 1] == ' ';
    assert k > |a| + n ==> forall j :: 0 <= j < |b| ==> t[|a| + n + j] == b[j];
  }

  lemma SpaceStartsIn(t: string, a: string, n: nat, b: string, k: nat)
    requires t == Gap(a, n, b) && n > 0 && k <= |t|
    ensures SpaceStart(t, k) == if k < |a| then SpaceStart(a, k) else if k < |a| + n then 1 else SpaceStart(b, k - |a| - n)
  {
    assert t[|a|] == ' ';
    assert k >= |a| + n ==> forall j :: 0 <= j < |b| ==> t[|a| + n + j] == b[j];
  }

  lemma SpaceEndsBehindGap(a: string, n: nat, b: string)
    requires n > 0
    ensures forall k: nat :: 0 < k <= |b| ==>
      SpaceEnd(b, k) <= k && SpaceEnd(Gap(a, n, b), |a| + n + k) == SpaceEnd(b, k)
  {
    forall k: nat | 0 < k <= |b|
      ensures SpaceEnd(b, k) <= k && SpaceEnd(Gap(a, n, b), |a| + n + k) == SpaceEnd(b, k)
    {
      SpaceEndsIn(Gap(a, n, b), a, n, b, |a| + n + k);
    }
  }

  lemma SpaceEndsAreLocal(a: string, n: nat, b: string)
    requires n > 0
    ensures EndsIn(SpaceEnd, 1, a, n, b)
  {
    var t, m := Gap(a, n, b), |a| + n;
    SpaceEndsBehindGap(a, n, b);
    forall k: nat | k <= m
      ensures SpaceEnd(t, k) == if k > |a| then 1 else SpaceEnd(a, k)
    {
      SpaceEndsIn(t, a, n, b, k);
    }
  }

  lemma SpaceStartsAreLocal(a: string, n: nat, b: string)
    requires n > 0
    ensures StartsIn(SpaceStart, a, n, b)
  {
    var t, m := Gap(a, n, b), |a| + n;
    forall k: nat | k < m
      ensures SpaceStart(t, k) == if k < |a| then SpaceStart(a, k) else 1
      ensures k < |a| ==> SpaceStart(a, k) <= |a| - k
    {
      SpaceStartsIn(t, a, n, b, k);
    }
    forall k: nat | k <= |b|
      ensures SpaceStart(t, m + k) == SpaceStart(b, k)
    {
      SpaceStartsIn(t, a, n, b, m + k);
    }
  }

  lemma ProgramCutters()
    ensures Cutters(SpaceStart, SpaceEnd, SemicolonEnd)
  {
    forall a: string, n: nat, b: string | n > 0
      ensures EndsIn(SpaceEnd, 1, a, n, b) && StartsIn(SpaceStart, a, n, b) && EndsIn(SemicolonEnd, 0, a, n, b)
    {
      SpaceEndsAreLocal(a, n, b);
      SpaceStartsAreLocal(a, n, b);
    }
    forall t: string, n: nat | n <= |t|
      ensures PrefixEnd(SpaceEnd, t, n) && SuffixStart(SpaceStart, t, n)
    {
    }
  }

  lemma {:induction false} KeepOfGap(end: Piece, inRun: nat, t: string, a: string, m: nat, b: string)
    requires |a| < m && m + |b| == |t| && inRun <= 1
    requires forall k: nat :: 0 < k <= |b| ==> end(b, k) <= k && end(t, m + k) == end(b, k)
    requires forall k: nat :: |a| < k <= m ==> end(t, k) == inRun
    requires forall k: nat :: k <= |a| ==> end(t, k) == end(a, k)
    ensures Keep(end, t, m + |b|) ==
      if Keep(end, b, |b|) > 0 then m + Keep(end, b, |b|)
      else if inRun == 1 then Keep(end, a, |a|) else m
  {
    SameKeep(end, t, m, b, |b|);
    if inRun == 1 {
      KeepOfRun(end, t, |a|, m - |a|);
      SamePrefixKeep(end, t, a, |a|);
    }
  }

  lemma {:induction false} TrimRightOfGap(end: Piece, inRun: nat, a: string, n: nat, b: string)
    requires n > 0 && EndsIn(end, inRun, a, n, b) && inRun <= 1
    ensures TrimRight(end, Gap(a, n, b)) ==
      if TrimRight(end, b) == "" then (if inRun == 1 then TrimRight(end, a) else Gap(a, n, ""))
      else Gap(a, n, TrimRight(end, b))
  {
    KeepOfGap(end, inRun, Gap(a, n, b), a, |a| + n, b);
    GapPrefix(a, n, b, Keep(end, b, |b|), Keep(end, a, |a|));
  }

  lemma GapPrefix(a: string, n: nat, b: string, k: nat, j: nat)
    requires k <= |b| && j <= |a|
    ensures Gap(a, n, b)[..|a| + n + k] == Gap(a, n, b[..k]) && Gap(a, n, b)[..j] == a[..j]
    ensures k == 0 ==> b[..k] == ""
  {
  }

  lemma {:induction false} SkipOfGap(start: Piece, t: string, a: string, m: nat, b: string)
    requires |a| < m && m + |b| == |t|
    requires forall k: nat :: k < |a| ==> start(a, k) <= |a| - k && start(t, k) == start(a, k)
    requires forall k: nat :: |a| <= k < m ==> start(t, k) == 1
    requires forall k: nat :: k <= |b| ==> start(t, m + k) == start(b, k)
    ensures Skip(start, t, 0) == if Skip(start, a, 0) < |a| then Skip(start, a, 0) else m + Skip(start, b, 0)
  {
    SameSkip(start, t, a, 0);
    SkipOfRun(start, t, |a|, m - |a|);
    SkipOfSuffix(start, t, m, b, 0);
  }

  lemma {:induction false} TrimLeftOfGap(start: Piece, a: string, n: nat, b: string)
    requires n > 0 && StartsIn(start, a, n, b)
    ensures TrimLeft(start, Gap(a, n, b)) ==
      if TrimLeft(start, a) == "" then TrimLeft(start, b) else Gap(TrimLeft(start, a), n, b)
  {
    SkipOfGap(start, Gap(a, n, b), a, |a| + n, b);
    GapSuffix(a, n, b, Skip(start, b, 0), Skip(start, a, 0));
  }

  lemma GapSuffix(a: string, n: nat, b: string, k: nat, j: nat)
    requires k <= |b| && j <= |a|
    ensures Gap(a, n, b)[j..] == Gap(a[j..], n, b) && Gap(a, n, b)[|a| + n + k..] == b[k..]
    ensures j == |a| ==> a[j..] == ""
  {
  }

  lemma {:induction false} TrimLeftTwice(start: Piece, t: string)
    requires SuffixStart(start, t, Skip(start, t, 0))
    ensures TrimLeft(start, TrimLeft(start, t)) == TrimLeft(start, t)
  {
    SkipStops(start, t, 0);
  }

  lemma {:induction false} TrimRightTwice(end: Piece, t: string)
    requires PrefixEnd(end, t, Keep(end, t, |t|))
    ensures TrimRight(end, TrimRight(end, t)) == TrimRight(end, t)
  {
    KeepStops(end, t, |t|);
  }

  // What is left of a trimmed text with a run of `n` spaces in it.
  function Core(start: Piece, end: Piece, semicolon: Piece, a: string, n: nat, b: string): string {
    var x := TrimLeft(start, a);
    if x == "" then Trimmed(start, end, semicolon, b)
    else if TrimRight(end, b) == "" then Trim(start, end, TrimRight(semicolon, TrimRight(end, x)))
    else
      var w := TrimRight(end, TrimRight(semicolon, TrimRight(end, b)));
      if w == "" then TrimRight(end, x) else Gap(x, n, w)
  }

  lemma {:induction false} TrimmedOfGap(start: Piece, end: Piece, semicolon: Piece, a: string, n: nat, b: string)
    requires Cutters(start, end, semicolon) && n > 0
    ensures Trimmed(start, end, semicolon, Gap(a, n, b)) == Core(start, end, semicolon, a, n, b)
  {
    var x, y := TrimLeft(start, a), TrimRight(end, b);
    assert SuffixStart(start, a, Skip(start, a, 0)) && StartsIn(start, a, n, b);
    TrimLeftTwice(start, a);
    TrimLeftOfGap(start, a, n, b);
    if x != "" {
      assert EndsIn(end, 1, x, n, b);
      TrimRightOfGap(end, 1, x, n, b);
      if y != "" {
        var z := TrimRight(semicolon, y);
        assert EndsIn(semicolon, 0, x, n, y) && StartsIn(start, x, n, z) && EndsIn(end, 1, x, n, z);
        TrimRightOfGap(semicolon, 0, x, n, y);
        TrimLeftOfGap(start, x, n, z);
        TrimRightOfGap(end, 1, x, n, z);
      }
    }
  }

  lemma {:induction false} RunOfGap(a: string, n: nat, b: string)
    requires n > 0
    ensures LetterRun(Gap(a, n, b)) == LetterRun(a)
    decreases |a|
  {
    if a != "" {
      assert Gap(a, n, b)[1..] == Gap(a[1..], n, b);
      RunOfGap(a[1..], n, b);
    }
  }

  lemma {:induction false} TrimOfGap(start: Piece, end: Piece, a: string, n: nat, b: string)
    requires n > 0 && StartsIn(start, a, n, b) && EndsIn(end, 1, a, n, b)
    requires TrimLeft(start, a) == a != "" && TrimRight(end, b) == b != ""
    ensures Trim(start, end, Gap(a, n, b)) == Gap(a, n, b)
  {
    TrimLeftOfGap(start, a, n, b);
    TrimRightOfGap(end, 1, a, n, b);
  }

  lemma {:induction false} KeywordOfGap(start: Piece, end: Piece, a: string, n: nat, b: string)
    requires n > 0 && Trim(start, end, Gap(a, n, b)) == Gap(a, n, b)
    ensures Keyword(start, end, Gap(a, n, b)) == Lower(a[..LetterRun(a)])
  {
    RunOfGap(a, n, b);
    assert Gap(a, n, b)[..LetterRun(a)] == a[..LetterRun(a)];
  }

  lemma {:induction false} CoreKeyword(start: Piece, end: Piece, semicolon: Piece, a: string, n: nat, m: nat, b: string)
    requires Cutters(start, end, semicolon) && n > 0 && m > 0
    ensures var s, t := Core(start, end, semicolon, a, n, b), Core(start, end, semicolon, a, m, b);
      (s == "" <==> t == "") && Keyword(start, end, s) == Keyword(start, end, t)
  {
    var x, w := TrimLeft(start, a), TrimRight(end, TrimRight(semicolon, TrimRight(end, b)));
    if x != "" && TrimRight(end, b) != "" && w != "" {
      var z := TrimRight(semicolon, TrimRight(end, b));
      assert SuffixStart(start, a, Skip(start, a, 0)) && PrefixEnd(end, z, Keep(end, z, |z|));
      TrimLeftTwice(start, a);
      TrimRightTwice(end, z);
      assert StartsIn(start, x, n, w) && EndsIn(end, 1, x, n, w);
      assert StartsIn(start, x, m, w) && EndsIn(end, 1, x, m, w);
      TrimOfGap(start, end, x, n, w);
      TrimOfGap(start, end, x, m, w);
      KeywordOfGap(start, end, x, n, w);
      KeywordOfGap(start, end, x, m, w);
    }
  }

  lemma {:induction false} VerdictOfGap(a: string, n: nat, m: nat, b: string)
    requires n > 0 && m > 0
    ensures VerdictOf(Trimmed(SpaceStart, SpaceEnd, SemicolonEnd, Gap(a, n, b)))
         == VerdictOf(Trimmed(SpaceStart, SpaceEnd, SemicolonEnd, Gap(a, m, b)))
  {
    ProgramCutters();
    TrimmedOfGap(SpaceStart, SpaceEnd, SemicolonEnd, a, n, b);
    TrimmedOfGap(SpaceStart, SpaceEnd, SemicolonEnd, a, m, b);
    CoreKeyword(SpaceStart, SpaceEnd, SemicolonEnd, a, n, m, b);
  }

  // Everything the verdict of two texts that differ only in blank regions depends on.
  lemma {:induction false} SameVerdict(s: string, t: string, x: string, n: nat, m: nat, y: string)
    requires n > 0 && m > 0 && Blank(s) == Gap(x, n, y) && Blank(t) == Gap(x, m, y)
    ensures Classified(s) == Classified(t)
  {
    if Extra(s) {
      var q: nat :| ExtraAt(Blank(s), q);
      ExtraOfGap(x, n, m, y, q);
    }
    if Extra(t) {
      var q: nat :| ExtraAt(Blank(t), q);
      ExtraOfGap(x, m, n, y, q);
    }
    VerdictOfGap(x, n, m, y);
  }

  lemma SameOutside(s: string, t: string, a: string, d: Delimited, e: Delimited, b: string)
    requires s == a + Text(d) + b && t == a + Text(e) + b && Opening(d) == Opening(e)
    ensures |a| < |a| + |Text(d)| <= |s| && |a| < |a| + |Text(e)| <= |t| && s[..|a| + 1] == t[..|a| + 1]
    ensures s[|a| + |Text(d)|..] == b == t[|a| + |Text(e)|..]
    ensures s[|a|..|a| + |Text(d)|] == Text(d) && t[|a|..|a| + |Text(e)|] == Text(e)
  {
    assert Text(d)[0] == Opening(d)[0] == Text(e)[0];
    OutsideOf(s, a, Text(d), b);
    OutsideOf(t, a, Text(e), b);
  }

  lemma OutsideOf(s: string, a: string, region: string, b: string)
    requires s == a + region + b && region != ""
    ensures s[..|a| + 1] == a + [region[0]] && s[|a|..|a| + |region|] == region && s[|a| + |region|..] == b
  {
  }

  /** Replacing the body of a comment or of a string literal changes neither the kind nor the error,
      whatever the two bodies are and however long. */
  lemma {:induction false} BodiesDoNotMatter(
    s: string, t: string, a: string, d: Delimited, e: Delimited, b: string)
    requires s == a + Text(d) + b && t == a + Text(e) + b && Opening(d) == Opening(e)
    requires Closes(d, b) && Closes(e, b) && ModeAt(s, |a|) == Normal
    ensures Classified(s) == Classified(t)
  {
    SameOutside(s, t, a, d, e, b);
    SamePrefix(s, t, |a|);
    BodiesAt(s, t, |a|, d, e, b);
  }

  lemma {:induction false} BodiesAt(s: string, t: string, n: nat, d: Delimited, e: Delimited, b: string)
    requires n + |Text(d)| <= |s| && n < |s| && s[n..n + |Text(d)|] == Text(d) && s[n + |Text(d)|..] == b
    requires n + |Text(e)| <= |t| && n < |t| && t[n..n + |Text(e)|] == Text(e) && t[n + |Text(e)|..] == b
    requires s[..n + 1] == t[..n + 1] && |Text(d)| > 0 && |Text(e)| > 0
    requires Closes(d, b) && Closes(e, b) && ModeAt(s, n) == ModeAt(t, n) == Normal
    ensures Classified(s) == Classified(t)
  {
    var i, j := n + |Text(d)|, n + |Text(e)|;
    RegionIsBlank(s, n, d, b);
    RegionIsBlank(t, n, e, b);
    BlankAround(s, i, t, j, n);
    SameVerdict(s, t, Blank(s)[..n], i - n, j - n, Blank(s)[i..]);
  }
}
