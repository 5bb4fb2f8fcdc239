/** Double-quoted identifiers.  The stripper does not track them: what that changes, and when it changes nothing. */
module QuotedNames {
  import opened StatementLexer
  import opened Classifier
  import opened Texts
  import opened ClassifierProperties
  import opened ReadOnlyGuard

  // ----- an identifier in a text -----

  predicate OpensIn(body: string, k: nat) {
    k < |body| && Opens(body, k)
  }

  lemma NameSlice(s: string, a: string, body: string, b: string, k: nat)
    requires s == a + "\"" + body + "\"" + b && k < |body|
    ensures Opens(s, |a| + 1 + k) <==> Opens(body, k)
  {
    var i := |a| + 1 + k;
    assert s[i] == body[k] && s[i + 1] == if k + 1 < |body| then body[k + 1] else '"';
  }

  lemma NameEnds(s: string, a: string, body: string, b: string)
    requires s == a + "\"" + body + "\"" + b
    ensures var j := |a| + |body| + 2;
      j <= |s| && s[|a|..j] == "\"" + body + "\"" && !Opens(s, |a|) && !Opens(s, j - 1)
  {
    assert s[|a|] == '"' && s[|a| + |body| + 1] == '"';
  }

  /** A quoted identifier in ordinary text is left intact if and only if no comment and no string literal opens
      inside it. */
  lemma {:induction false} NameKept(s: string, a: string, body: string, b: string)
    requires s == a + "\"" + body + "\"" + b && ModeAt(s, |a|) == Normal
    ensures Blank(s)[|a|..|a| + |body| + 2] == "\"" + body + "\"" <==> forall k: nat :: !OpensIn(body, k)
  {
    var i, j := |a|, |a| + |body| + 2;
    NameEnds(s, a, body, b);
    SliceKept(s, i, j);
    if k: nat :| OpensIn(body, k) {
      NameSlice(s, a, body, b, k);
      assert Opens(s, i + 1 + k);
    } else {
      forall n: nat | i <= n < j ensures !Opens(s, n) {
        if i < n < j - 1 {
          NameSlice(s, a, body, b, n - i - 1);
          assert !OpensIn(body, n - i - 1);
        }
      }
    }
  }

  /** An identifier that is not left intact. */
  lemma NameStripped()
    ensures Blank("\"a--b\"") == "\"a    "
  {
    var s := "\"a--b\"";
    assert ModeAt(s, 1) == Normal && ModeAt(s, 2) == Normal && ModeAt(s, 3) == LineComment;
    assert ModeAt(s, 4) == LineComment && ModeAt(s, 5) == LineComment;
    forall i: nat | i < 6
      ensures Blank(s)[i] == "\"a    "[i]
    {
      assert Stripped(s, Blank(s), i);
    }
  }

  // ----- a lexer that tracks them -----

  /** The modes of the stripper, and that inside a quoted identifier.  A doubled quote leaves it and enters it again. */
  datatype Tracked = Plain(m: Mode) | Name

  function TrackedNext(m: Tracked, s: string, i: nat): Tracked
    requires i < |s|
  {
    match m
    case Name => if s[i] == '"' then Plain(Normal) else Name
    case Plain(mode) => if mode == Normal && s[i] == '"' then Name else Plain(Next(mode, s, i))
  }

  function TrackedAt(s: string, i: nat): Tracked
    requires i <= |s|
  {
    if i == 0 then Plain(Normal) else TrackedNext(TrackedAt(s, i - 1), s, i - 1)
  }

  predicate InName(s: string, i: nat)
    requires i <= |s|
  {
    TrackedAt(s, i) == Name
  }

  /** What a byte is for the classifier: the end of a statement, part of one, or nothing. */
  datatype Role = Separator | Part | Nothing

  function RoleOf(c: char): Role {
    if c == ';' then Separator else Part
  }

  function ByteRole(s: string, i: nat): Role
    requires i < |s|
  {
    if Code(s, i) then RoleOf(s[i]) else Nothing
  }

  /** What it is when quoted identifiers are tracked. */
  function TrackedRole(s: string, i: nat): Role
    requires i < |s|
  {
    if InName(s, i) then Part
    else if TrackedAt(s, i) == Plain(Normal) && !Opens(s, i) then RoleOf(s[i])
    else Nothing
  }

  /** No comment or literal opens in an identifier before `i`. */
  ghost predicate NamesOpenNothing(s: string, i: nat) {
    forall k: nat :: k < i && k < |s| && InName(s, k) ==> !Opens(s, k)
  }

  ghost predicate NamesSeparateNothing(s: string, i: nat) {
    forall k: nat :: k < i && k < |s| && InName(s, k) ==> s[k] != ';'
  }

  predicate Agree(m: Mode, t: Tracked) {
    match t
    case Name => m == Normal
    case Plain(mode) => m == mode
  }

  lemma {:induction false} ModesAgree(s: string, i: nat)
    requires i <= |s| && NamesOpenNothing(s, i)
    ensures Agree(ModeAt(s, i), TrackedAt(s, i))
    decreases i
  {
    if i > 0 {
      ModesAgree(s, i - 1);
      assert InName(s, i - 1) ==> !Opens(s, i - 1);
    }
  }

  lemma {:induction false} RolesAgree(s: string, i: nat)
    requires i < |s| && NamesOpenNothing(s, i)
    ensures ByteRole(s, i) == TrackedRole(s, i) <==> !InName(s, i) || (!Opens(s, i) && s[i] != ';')
  {
    ModesAgree(s, i);
  }

  lemma {:induction false} FirstInName(s: string, i: nat) returns (k: nat)
    requires i < |s| && InName(s, i) && Opens(s, i)
    ensures k <= i && InName(s, k) && Opens(s, k) && NamesOpenNothing(s, k)
    decreases i
  {
    if n: nat :| n < i && InName(s, n) && Opens(s, n) {
      k := FirstInName(s, n);
    } else {
      k := i;
    }
  }

  /** The stripper sees every byte as a lexer that tracks quoted identifiers does if and only if there is neither the
      beginning of a comment or literal nor a semicolon inside one. */
  lemma {:induction false} TrackingMakesNoDifference(s: string)
    ensures (forall i: nat :: i < |s| ==> ByteRole(s, i) == TrackedRole(s, i))
      <==> NamesOpenNothing(s, |s|) && NamesSeparateNothing(s, |s|)
  {
    if i: nat :| i < |s| && InName(s, i) && Opens(s, i) {
      var k := FirstInName(s, i);
      RolesAgree(s, k);
    } else {
      forall i: nat | i < |s|
        ensures ByteRole(s, i) == TrackedRole(s, i) <==> !InName(s, i) || s[i] != ';'
      {
        RolesAgree(s, i);
      }
    }
  }

  // ----- the guard -----

  /** Behind a semicolon outside identifiers, comments and literals there is more of a statement. */
  ghost predicate TrackedExtra(s: string) {
    exists p: nat, q: nat :: Follows(s, p, q)
  }

  predicate Follows(s: string, p: nat, q: nat) {
    p < q < |s| && TrackedRole(s, p) == Separator && TrackedRole(s, q) == Part && ExtraByte(s[q])
  }

  lemma PartsOfBlank(s: string, q: nat)
    requires q < |s|
    ensures Blank(s)[q] == ';' <==> ByteRole(s, q) == Separator
    ensures ExtraByte(Blank(s)[q]) <==> ByteRole(s, q) == Part && ExtraByte(s[q])
  {
    assert Stripped(s, Blank(s), q);
  }

  /** Then the multi-statement flag is the one that tracking would give. */
  lemma {:induction false} FlagIsTracked(s: string)
    requires NamesOpenNothing(s, |s|) && NamesSeparateNothing(s, |s|)
    ensures Extra(s) <==> TrackedExtra(s)
  {
    TrackingMakesNoDifference(s);
    var t := Blank(s);
    if Extra(s) {
      var q: nat :| ExtraAt(t, q);
      var p: nat :| p < q && p < |t| && t[p] == ';';
      PartsOfBlank(s, p);
      PartsOfBlank(s, q);
      assert Follows(s, p, q);
    }
    if p: nat, q: nat :| Follows(s, p, q) {
      PartsOfBlank(s, p);
      PartsOfBlank(s, q);
      assert t[p] == ';';
      assert ExtraAt(t, q);
    }
  }

  /** So without delimiters and semicolons in quoted identifiers what passes the read-only guard is one statement. */
  lemma {:induction false} PassedIsOneStatement(s: string)
    requires NamesOpenNothing(s, |s|) && NamesSeparateNothing(s, |s|) && ReadingVerdict(Classified(s))
    ensures !TrackedExtra(s)
  {
    FlagIsTracked(s);
  }

  // ----- a text for which it makes a difference -----

  lemma {:induction false} StaysLiteral(s: string, i: nat, j: nat)
    requires i <= j <= |s| && ModeAt(s, i) == Literal && forall k :: i <= k < j ==> s[k] != '\''
    ensures ModeAt(s, j) == Literal
    decreases j
  {
    if i < j {
      StaysLiteral(s, i, j - 1);
    }
  }

  /** A read whose identifier holds a single quote, and a second statement behind it. */
  function Hidden(second: string): (s: string)
    ensures |s| == 8 + |second| && s[..3] == "use" && s[8..] == second
    ensures s[3] == ' ' && s[4] == '"' && s[5] == '\'' && s[6] == '"' && s[7] == ';'
  {
    "use" + [' ', '"', '\'', '"', ';'] + second
  }

  lemma UseIsPlain(second: string)
    ensures var s := Hidden(second);
      (forall k: nat :: k < 5 ==> !Opens(s, k)) && s[0] != '"' && s[1] != '"' && s[2] != '"' && '\'' !in s[..3]
  {
    var s, use := Hidden(second), "use";
    assert s[0] == s[..3][0] == use[0] && s[1] == s[..3][1] == use[1] && s[2] == s[..3][2] == use[2];
  }

  lemma HiddenIsWiped(s: string, second: string)
    requires s == Hidden(second) && '\'' !in second
    ensures var t := Blank(s); t[..3] == "use" && t[3] == ' ' && t[4] == '"' && forall k :: 5 <= k < |t| ==> t[k] == ' '
  {
    var t := Blank(s);
    UseIsPlain(second);
    SliceKept(s, 0, 5);
    assert t[0..5] == s[0..5];
    NormalUpTo(s, 0, 5);
    EnterLiteral(s, 5);
    assert t[..3] == t[0..5][..3] == s[0..5][..3] == s[..3];
    assert t[3] == t[0..5][3] == s[3] && t[4] == t[0..5][4] == s[4];
    forall k: nat | 5 <= k < |s| ensures t[k] == ' ' {
      assert Stripped(s, t, k);
      if k > 5 {
        forall j | 6 <= j < k ensures s[j] != '\'' {
          assert j >= 8 ==> s[j] == s[8..][j - 8];
        }
        StaysLiteral(s, 6, k);
      }
    }
  }

  lemma HiddenFollows(s: string, second: string)
    requires s == Hidden(second) && second != "" && 'a' <= second[0] <= 'z'
    ensures TrackedExtra(s)
  {
    UseIsPlain(second);
    assert s[8] == s[8..][0];
    assert TrackedAt(s, 1) == Plain(Normal);
    assert TrackedAt(s, 3) == Plain(Normal);
    assert TrackedAt(s, 5) == Name;
    assert TrackedAt(s, 7) == Plain(Normal);
    assert TrackedAt(s, 8) == Plain(Normal);
    assert Follows(s, 7, 8);
  }

  lemma UseReads(t: string, word: string)
    requires |t| > 3 && t[..3] == word == "use" && t[3] == ' '
    ensures ReadShape(t, "", word, t[3..])
  {
    assert White("") && Lower(word) == word;
    assert "" + word == word;
    assert t == t[..3] + t[3..];
  }

  lemma UseIsSingle(t: string, word: string)
    requires |t| > 4 && t[..3] == word == "use" && t[3] == ' ' && t[4] == '"' && forall k :: 5 <= k < |t| ==> t[k] == ' '
    ensures SingleStatement(t)
  {
    assert t[0] == t[..3][0] == word[0] && t[1] == t[..3][1] == word[1] && t[2] == t[..3][2] == word[2];
  }

  lemma {:induction false} ReadsFrom(s: string, lead: string, word: string, rest: string)
    requires SingleStatement(Blank(s)) && ReadShape(Blank(s), lead, word, rest)
    ensures ReadingVerdict(Classified(s))
  {
    ReadOnlyExactly(s);
  }

  lemma WipedReads(s: string, word: string)
    requires var t := Blank(s);
      |t| > 4 && t[..3] == word == "use" && t[3] == ' ' && t[4] == '"' && forall k :: 5 <= k < |t| ==> t[k] == ' '
    ensures ReadingVerdict(Classified(s))
  {
    UseReads(Blank(s), word);
    UseIsSingle(Blank(s), word);
    ReadsFrom(s, "", word, Blank(s)[3..]);
  }

  /** Where the condition fails a second statement can pass as part of a single read: the quote in the identifier
      makes a literal of all that follows. */
  lemma QuoteHidesStatement(s: string, second: string)
    requires s == Hidden(second) && second != "" && 'a' <= second[0] <= 'z' && '\'' !in second
    ensures ReadingVerdict(Classified(s)) && TrackedExtra(s)
  {
    HiddenFollows(s, second);
    HiddenIsWiped(s, second);
    WipedReads(s, "use");
  }
}
