/** The comment and string stripper of internal/query/classifier.go.

    Text is a sequence of bytes, written as characters below 256.  `ModeAt` is the
    functional lexer: it gives every byte the mode it is read in.  `StripInPlace` is the
    byte-array scanner of the program, and its contract says that it computes what the
    lexer says.
  */
module StatementLexer {

  /** The four modes of the lexer.  The three `...End`/`...Open`/`Escape` modes mark the second
      byte of a two-byte delimiter, so that every step of the lexer reads one byte. */
  datatype Mode =
    | Normal
    | LineComment
    | BlockOpen | BlockComment | BlockEnd
    | Literal | Escape

  /** unicode.IsSpace on a single byte read as a rune. */
  predicate IsSpace(c: char) {
    c == ' ' || ('\t' <= c <= '\r') || c == '\U{85}' || c == '\U{A0}'
  }

  predicate Pair(s: string, i: nat, a: char, b: char) {
    i + 1 < |s| && s[i] == a && s[i + 1] == b
  }

  predicate OpensLine(s: string, i: nat) {
    Pair(s, i, '-', '-') || Pair(s, i, '/', '/')
  }

  predicate OpensBlock(s: string, i: nat) {
    Pair(s, i, '/', '*')
  }

  function Next(m: Mode, s: string, i: nat): Mode
    requires i < |s|
  {
    match m
    case Normal =>
      if OpensLine(s, i) then LineComment
      else if OpensBlock(s, i) then BlockOpen
      else if s[i] == '\'' then Literal
      else Normal
    case LineComment => if i + 1 < |s| && s[i + 1] == '\n' then Normal else LineComment
    case BlockOpen => BlockComment
    case BlockComment => if Pair(s, i, '*', '/') then BlockEnd else BlockComment
    case BlockEnd => Normal
    case Literal =>
      if s[i] != '\'' then Literal
      else if i + 1 < |s| && s[i + 1] == '\'' then Escape
      else Normal
    case Escape => Literal
  }

  /** The mode in which byte `i` is read. */
  function ModeAt(s: string, i: nat): Mode
    requires i <= |s|
  {
    if i == 0 then Normal else Next(ModeAt(s, i - 1), s, i - 1)
  }

  /** Byte `i` belongs to the statement itself, not to a comment or a string literal. */
  predicate Code(s: string, i: nat)
    requires i < |s|
  {
    ModeAt(s, i) == Normal && !OpensLine(s, i) && !OpensBlock(s, i) && s[i] != '\''
  }

  /** Byte `i` of the stripped text `t`: code bytes are kept, all others become spaces. */
  predicate Stripped(s: string, t: string, i: nat)
    requires i < |s| == |t|
  {
    t[i] == if Code(s, i) then s[i] else ' '
  }

  /** The stripped text. */
  ghost function Blank(s: string): (t: string)
    ensures |t| == |s|
    ensures forall i: nat :: i < |s| ==> Stripped(s, t, i)
  {
    seq(|s|, i requires 0 <= i < |s| => if Code(s, i) then s[i] else ' ')
  }

  /** A byte that counts as part of a second statement. */
  predicate ExtraByte(c: char) {
    !IsSpace(c) && c != ';'
  }

  predicate SemicolonBefore(t: string, i: nat) {
    exists p: nat :: p < i && p < |t| && t[p] == ';'
  }

  predicate ExtraAt(t: string, q: nat) {
    q < |t| && ExtraByte(t[q]) && SemicolonBefore(t, q)
  }

  ghost predicate NoExtraBefore(t: string, i: nat) {
    forall q: nat :: q < i ==> !ExtraAt(t, q)
  }

  /** The multi-statement flag: in the stripped text, something follows a semicolon. */
  ghost predicate Extra(s: string) {
    exists q: nat :: ExtraAt(Blank(s), q)
  }

  // The array while the scanner is at `i`: stripped before, untouched behind.
  ghost predicate Scanned(out: array<char>, s: string, t: string, i: nat)
    reads out
  {
    out.Length == |s| == |t| && i <= |s| &&
    forall k :: 0 <= k < |s| ==> out[k] == if k < i then t[k] else s[k]
  }

  ghost predicate AllSpaces(t: string, i: nat, j: nat) {
    i <= j <= |t| && forall k :: i <= k < j ==> t[k] == ' '
  }

  // Between two regions the scanner is at `i`, in Normal mode.
  ghost predicate Between(out: array<char>, s: string, t: string, i: nat)
    reads out
  {
    Scanned(out, s, t, i) && (i < |s| ==> ModeAt(s, i) == Normal)
  }

  ghost predicate IsBlank(s: string, t: string) {
    |s| == |t| && forall i: nat :: i < |s| ==> Stripped(s, t, i)
  }

  method BlankLine(out: array<char>, s: string, ghost t: string, i: nat) returns (j: nat)
    requires IsBlank(s, t) && i < |s| && Between(out, s, t, i) && OpensLine(s, i)
    modifies out
    ensures i < j && Between(out, s, t, j) && AllSpaces(t, i, j)
  {
    j := i;
    while j < out.Length && out[j] != '\n'
      invariant i <= j && Scanned(out, s, t, j) && AllSpaces(t, i, j)
      invariant j < |s| ==> ModeAt(s, j) == if j == i || s[j] == '\n' then Normal else LineComment
    {
      assert Stripped(s, t, j);
      out[j] := ' ';
      j := j + 1;
    }
  }

  lemma BlockBody(s: string, i: nat, j: nat)
    requires i + 2 <= j <= |s| && ModeAt(s, i) == Normal && OpensBlock(s, i)
    requires forall k: nat :: i + 2 <= k < j ==> !Pair(s, k, '*', '/')
    ensures ModeAt(s, j) == BlockComment
    ensures forall k: nat :: i <= k < j ==> !Code(s, k)
  {
    if j == i + 2 {
      assert ModeAt(s, i + 1) == BlockOpen;
    } else {
      BlockBody(s, i, j - 1);
    }
  }

  // The array part: wipes from `i` to the end of the comment, writing two bytes behind the scan.
  method WipeBlock(out: array<char>, ghost s: string, i: nat) returns (j: nat)
    requires out.Length == |s| && i + 1 < |s| && (forall k :: i <= k < |s| ==> out[k] == s[k])
    modifies out
    ensures i + 2 <= j <= |s|
    ensures forall k :: 0 <= k < |s| ==> out[k] == if i <= k < j then ' ' else old(out[k])
    ensures if j >= i + 4 && Pair(s, j - 2, '*', '/')
            then forall k: nat :: i + 2 <= k < j - 2 ==> !Pair(s, k, '*', '/')
            else j == |s| && forall k: nat :: i + 2 <= k < j ==> !Pair(s, k, '*', '/')
  {
    j := i + 2;
    while j + 1 < out.Length && !(out[j] == '*' && out[j + 1] == '/')
      invariant i + 2 <= j <= |s|
      invariant forall k :: 0 <= k < |s| ==> out[k] == if i <= k < j - 2 then ' ' else old(out[k])
      invariant forall k: nat :: i + 2 <= k < j ==> !Pair(s, k, '*', '/')
    {
      out[j - 2] := ' ';
      j := j + 1;
    }
    out[i] := ' ';
    out[i + 1] := ' ';
    if j + 1 < out.Length {
      out[j - 2] := ' ';
      out[j - 1] := ' ';
      out[j] := ' ';
      out[j + 1] := ' ';
      j := j + 2;
    } else {
      var k := i;
      while k < out.Length
        invariant i <= k <= out.Length
        invariant forall n :: 0 <= n < i ==> out[n] == old(out[n])
        invariant forall n :: i <= n < k ==> out[n] == ' '
      {
        out[k] := ' ';
        k := k + 1;
      }
      j := out.Length;
    }
  }

  method BlankBlock(out: array<char>, s: string, ghost t: string, i: nat) returns (j: nat)
    requires IsBlank(s, t) && i < |s| && Between(out, s, t, i) && OpensBlock(s, i)
    modifies out
    ensures i < j && Between(out, s, t, j) && AllSpaces(t, i, j)
  {
    j := WipeBlock(out, s, i);
    if j >= i + 4 && Pair(s, j - 2, '*', '/') {
      BlockBody(s, i, j - 2);
      assert ModeAt(s, j - 1) == BlockEnd;
    } else {
      BlockBody(s, i, j);
    }
    forall k: nat | i <= k < j
      ensures t[k] == ' '
    {
      assert Stripped(s, t, k);
    }
  }

  lemma EnterLiteral(s: string, i: nat)
    requires i < |s| && ModeAt(s, i) == Normal && s[i] == '\''
    ensures ModeAt(s, i + 1) == Literal && !Code(s, i)
  {
  }

  lemma LeaveLiteral(s: string, i: nat)
    requires i < |s| && ModeAt(s, i) == Literal && s[i] == '\'' && (i + 1 < |s| ==> s[i + 1] != '\'')
    ensures ModeAt(s, i + 1) == Normal && !Code(s, i)
  {
  }

  lemma InLiteral(s: string, i: nat)
    requires i < |s| && ModeAt(s, i) == Literal && s[i] != '\''
    ensures ModeAt(s, i + 1) == Literal && !Code(s, i)
  {
  }

  lemma EscapedQuote(s: string, i: nat)
    requires i + 1 < |s| && ModeAt(s, i) == Literal && s[i] == s[i + 1] == '\''
    ensures ModeAt(s, i + 2) == Literal && !Code(s, i) && !Code(s, i + 1)
  {
    assert ModeAt(s, i + 1) == Escape;
  }

  // The loop over the body of a literal.  It ends behind the closing quote, or at the end of the text.
  method BlankBody(out: array<char>, s: string, ghost t: string, i: nat) returns (j: nat)
    requires IsBlank(s, t) && Scanned(out, s, t, i) && ModeAt(s, i) == Literal
    modifies out
    ensures i <= j && Between(out, s, t, j) && AllSpaces(t, i, j)
  {
    j := i;
    while j < out.Length
      invariant i <= j && Scanned(out, s, t, j) && AllSpaces(t, i, j) && ModeAt(s, j) == Literal
    {
      assert Stripped(s, t, j);
      if out[j] == '\'' {
        if j + 1 < out.Length && out[j + 1] == '\'' {
          EscapedQuote(s, j);
          assert Stripped(s, t, j + 1);
          out[j] := ' ';
          out[j + 1] := ' ';
          j := j + 2;
          continue;
        }
        LeaveLiteral(s, j);
        out[j] := ' ';
        j := j + 1;
        break;
      }
      InLiteral(s, j);
      out[j] := ' ';
      j := j + 1;
    }
  }

  method BlankLiteral(out: array<char>, s: string, ghost t: string, i: nat) returns (j: nat)
    requires IsBlank(s, t) && i < |s| && Between(out, s, t, i) && s[i] == '\''
    modifies out
    ensures i < j && Between(out, s, t, j) && AllSpaces(t, i, j)
  {
    EnterLiteral(s, i);
    assert Stripped(s, t, i);
    out[i] := ' ';
    j := BlankBody(out, s, t, i + 1);
  }

  // Wipes the comment or literal that starts at `i`, if one does.
  method BlankIfRegion(out: array<char>, s: string, ghost t: string, i: nat) returns (j: nat)
    requires IsBlank(s, t) && i < |s| && Between(out, s, t, i)
    modifies out
    ensures i <= j && Between(out, s, t, j) && AllSpaces(t, i, j)
    ensures j == i ==> Code(s, i)
  {
    var c := out[i];
    if c == '-' && i + 1 < out.Length && out[i + 1] == '-' {
      j := BlankLine(out, s, t, i);
    } else if c == '/' && i + 1 < out.Length && out[i + 1] == '/' {
      j := BlankLine(out, s, t, i);
    } else if c == '/' && i + 1 < out.Length && out[i + 1] == '*' {
      j := BlankBlock(out, s, t, i);
    } else if c == '\'' {
      j := BlankLiteral(out, s, t, i);
    } else {
      j := i;
    }
  }

  lemma SkipSpaces(t: string, i: nat, j: nat)
    requires AllSpaces(t, i, j)
    ensures SemicolonBefore(t, i) <==> SemicolonBefore(t, j)
    ensures NoExtraBefore(t, i) ==> NoExtraBefore(t, j)
  {
    if SemicolonBefore(t, i) {
      var p: nat :| p < i && p < |t| && t[p] == ';';
      assert p < j;
    }
  }

  lemma StepByte(t: string, i: nat)
    requires i < |t|
    ensures SemicolonBefore(t, i + 1) <==> SemicolonBefore(t, i) || t[i] == ';'
    ensures NoExtraBefore(t, i) && !ExtraAt(t, i) ==> NoExtraBefore(t, i + 1)
  {
    if SemicolonBefore(t, i) {
      var p: nat :| p < i && p < |t| && t[p] == ';';
      assert p < i + 1;
    }
  }

  /** What the scanner returns when the first extra byte is at `q`: stripped before, untouched behind. */
  ghost predicate StoppedAt(stripped: string, s: string, t: string, q: nat) {
    |s| == |t| && ExtraAt(t, q) && NoExtraBefore(t, q) && stripped == t[..q] + s[q..]
  }

  lemma Joined(stripped: string, t: string, s: string, i: nat)
    requires |stripped| == |t| == |s| && i <= |s|
    requires forall k :: 0 <= k < |s| ==> stripped[k] == if k < i then t[k] else s[k]
    ensures stripped == t[..i] + s[i..] && (i == |s| ==> stripped == t)
  {
  }

  // The loop of the scanner.
  method Scan(out: array<char>, cql: string, ghost t: string) returns (i: nat, extra: bool)
    requires IsBlank(cql, t) && Scanned(out, cql, t, 0)
    modifies out
    ensures Scanned(out, cql, t, i) && NoExtraBefore(t, i)
    ensures if extra then ExtraAt(t, i) else i == |cql|
  {
    var semiSeen := false;
    extra := false;
    i := 0;
    while i < out.Length
      invariant Between(out, cql, t, i)
      invariant !extra && (semiSeen <==> SemicolonBefore(t, i)) && NoExtraBefore(t, i)
      decreases out.Length - i
    {
      var c := out[i];
      var j := BlankIfRegion(out, cql, t, i);
      if j > i {
        SkipSpaces(t, i, j);
        i := j;
        continue;
      }
      assert Stripped(cql, t, i);
      StepByte(t, i);
      if c == ';' {
        semiSeen := true;
        i := i + 1;
        continue;
      }
      if semiSeen && !IsSpace(c) {
        extra := true;
        break;
      }
      i := i + 1;
    }
  }

  /** The scanner.  It stops at the first extra byte and leaves the rest of the text as it was. */
  method StripInPlace(cql: string) returns (stripped: string, extra: bool)
    ensures extra <==> Extra(cql)
    ensures !extra ==> stripped == Blank(cql)
    ensures extra ==> exists q: nat :: StoppedAt(stripped, cql, Blank(cql), q)
  {
    ghost var t := Blank(cql);
    var out := new char[|cql|](i requires 0 <= i < |cql| => cql[i]);
    var i;
    i, extra := Scan(out, cql, t);
    stripped := out[..];
    Joined(stripped, t, cql, i);
    if extra {
      assert StoppedAt(stripped, cql, t, i);
    }
  }
}
