/** A lexer of CQL with its comments, as a machine over characters, against which the printed statements are read. */
module CqlLexer {
  import opened Sequences
  import opened Options
  import opened Quoting
  import opened Texts

  /** A word or a number, a quoted identifier, a string, or a single character. */
  datatype Token = Word(text: string) | Quoted(text: string) | Str(text: string) | Mark(c: char) | Unclosed

  /** `Slash` stands behind a slash that may open a comment, and `star` tells whether a block comment's last character
      was a star. */
  datatype Mode = Between | InWord(w: string) | InNumber(w: string)
    | InIdent(t: string) | IdentEnd(t: string) | InString(t: string) | StringEnd(t: string)
    | Slash | LineComment | BlockComment(star: bool)

  datatype Scan = Scan(tokens: seq<Token>, mode: Mode)

  /** White space as unicode.IsSpace has it. */
  predicate Space(c: char) {
    || '\t' <= c <= '\r' || c == ' ' || c == '\U{0085}' || c == '\U{00A0}' || c == '\U{1680}'
    || '\U{2000}' <= c <= '\U{200A}' || c == '\U{2028}' || c == '\U{2029}' || c == '\U{202F}'
    || c == '\U{205F}' || c == '\U{3000}'
  }

  predicate Letter(c: char) {
    Lowercase(c) || 'A' <= c <= 'Z'
  }

  predicate WordChar(c: char) {
    Letter(c) || Digit(c) || c == '_'
  }

  predicate NumberStart(c: char) {
    Digit(c) || c == '+' || c == '-' || c == '.'
  }

  predicate NumberChar(c: char) {
    WordChar(c) || NumberStart(c)
  }

  /** The tokens with the one that ends here. */
  function Flush(s: Scan): seq<Token> {
    match s.mode
    case Between => s.tokens
    case InWord(w) => s.tokens + [Word(w)]
    case InNumber(w) => s.tokens + [Word(w)]
    case IdentEnd(t) => s.tokens + [Quoted(t)]
    case StringEnd(t) => s.tokens + [Str(t)]
    case InIdent(_) => s.tokens + [Unclosed]
    case InString(_) => s.tokens + [Unclosed]
    case Slash => s.tokens + [Mark('/')]
    case LineComment => s.tokens
    case BlockComment(_) => s.tokens + [Unclosed]
  }

  /** A character that does not continue a token. */
  function Start(tokens: seq<Token>, c: char): Scan {
    if Space(c) then Scan(tokens, Between)
    else if c == '"' then Scan(tokens, InIdent(""))
    else if c == '\'' then Scan(tokens, InString(""))
    else if Letter(c) || c == '_' then Scan(tokens, InWord([c]))
    else if NumberStart(c) then Scan(tokens, InNumber([c]))
    else if c == '/' then Scan(tokens, Slash)
    else Scan(tokens + [Mark(c)], Between)
  }

  /** What stands in front of the two dashes that open a comment. */
  function Cut(w: string): seq<Token> {
    if w == "" then [] else [Word(w)]
  }

  function Step(s: Scan, c: char): Scan {
    match s.mode
    case Between => Start(s.tokens, c)
    case InWord(w) =>
      if WordChar(c) then Scan(s.tokens, InWord(w + [c]))
      else if c == '.' then Scan(s.tokens + [Word(w), Mark('.')], Between)
      else Start(s.tokens + [Word(w)], c)
    case InNumber(w) =>
      if c == '-' && w != "" && w[|w| - 1] == '-' then Scan(s.tokens + Cut(w[..|w| - 1]), LineComment)
      else if NumberChar(c) then Scan(s.tokens, InNumber(w + [c])) else Start(s.tokens + [Word(w)], c)
    case InIdent(t) => if c == '"' then Scan(s.tokens, IdentEnd(t)) else Scan(s.tokens, InIdent(t + [c]))
    case IdentEnd(t) =>
      if c == '"' then Scan(s.tokens, InIdent(t + [c]))
      else if c == '.' then Scan(s.tokens + [Quoted(t), Mark('.')], Between)
      else Start(s.tokens + [Quoted(t)], c)
    case InString(t) => if c == '\'' then Scan(s.tokens, StringEnd(t)) else Scan(s.tokens, InString(t + [c]))
    case StringEnd(t) =>
      if c == '\'' then Scan(s.tokens, InString(t + [c])) else Start(s.tokens + [Str(t)], c)
    case Slash =>
      if c == '/' then Scan(s.tokens, LineComment)
      else if c == '*' then Scan(s.tokens, BlockComment(false))
      else Start(s.tokens + [Mark('/')], c)
    case LineComment => Scan(s.tokens, if c == '\n' then Between else LineComment)
    case BlockComment(star) => Scan(s.tokens, if star && c == '/' then Between else BlockComment(c == '*'))
  }

  function Run(s: Scan, text: string): Scan
    decreases |text|
  {
    if text == "" then s else Step(Run(s, text[..|text| - 1]), text[|text| - 1])
  }

  const START := Scan([], Between)

  function Lex(text: string): seq<Token> {
    Flush(Run(START, text))
  }

  // ----- composition -----

  lemma {:induction false} RunSnoc(s: Scan, text: string, c: char)
    ensures Run(s, text + [c]) == Step(Run(s, text), c)
  {
    assert (text + [c])[..|text|] == text;
  }

  lemma {:induction false} RunConcat(s: Scan, a: string, b: string)
    ensures Run(s, a + b) == Run(Run(s, a), b)
    decreases |b|
  {
    if b == "" {
      assert a + b == a;
    } else {
      var front, last := b[..|b| - 1], b[|b| - 1];
      assert a + b == (a + front) + [last];
      RunSnoc(s, a + front, last);
      RunConcat(s, a, front);
    }
  }

  function After(tokens: seq<Token>, s: Scan): Scan {
    Scan(tokens + s.tokens, s.mode)
  }

  lemma StartAfter(tokens: seq<Token>, more: seq<Token>, c: char)
    ensures Start(tokens + more, c) == After(tokens, Start(more, c))
  {
    Assoc(tokens, more, [Mark(c)]);
  }

  lemma StepAfter(tokens: seq<Token>, s: Scan, c: char)
    ensures Step(After(tokens, s), c) == After(tokens, Step(s, c))
  {
    StartAfter(tokens, s.tokens, c);
    match s.mode {
      case InWord(w) =>
        StartAfter(tokens, s.tokens + [Word(w)], c);
        Assoc(tokens, s.tokens, [Word(w)]);
        Assoc(tokens, s.tokens, [Word(w), Mark('.')]);
      case InNumber(w) =>
        StartAfter(tokens, s.tokens + [Word(w)], c);
        Assoc(tokens, s.tokens, [Word(w)]);
        if w != "" {
          Assoc(tokens, s.tokens, Cut(w[..|w| - 1]));
        }
      case IdentEnd(t) =>
        StartAfter(tokens, s.tokens + [Quoted(t)], c);
        Assoc(tokens, s.tokens, [Quoted(t)]);
        Assoc(tokens, s.tokens, [Quoted(t), Mark('.')]);
      case StringEnd(t) =>
        StartAfter(tokens, s.tokens + [Str(t)], c);
        Assoc(tokens, s.tokens, [Str(t)]);
      case Slash =>
        StartAfter(tokens, s.tokens + [Mark('/')], c);
        Assoc(tokens, s.tokens, [Mark('/')]);
      case _ =>
    }
  }

  // What came before the text does not change how it is read.
  lemma {:induction false} RunAfter(tokens: seq<Token>, s: Scan, text: string)
    ensures Run(After(tokens, s), text) == After(tokens, Run(s, text))
    decreases |text|
  {
    if text != "" {
      RunAfter(tokens, s, text[..|text| - 1]);
      StepAfter(tokens, Run(s, text[..|text| - 1]), text[|text| - 1]);
    }
  }

  /** The text is these tokens and ends between tokens. */
  predicate Lexes(text: string, tokens: seq<Token>) {
    Run(START, text) == Scan(tokens, Between)
  }

  /** A separator ends what is being read: it is neither quoted nor a comment. */
  predicate Ends(m: Mode) {
    !m.InIdent? && !m.InString? && !m.LineComment? && !m.BlockComment?
  }

  /** The text is these tokens, the last of which any separator closes. */
  predicate LexesOpen(text: string, tokens: seq<Token>) {
    Flush(Run(START, text)) == tokens && Ends(Run(START, text).mode)
  }

  predicate Separator(c: char) {
    Space(c) || c == ',' || c == ';' || c == '(' || c == ')' || c == '=' || c == '?'
  }

  function SeparatorToken(c: char): seq<Token> {
    if Space(c) then [] else [Mark(c)]
  }

  lemma {:induction false} LexesConcat(a: string, x: seq<Token>, b: string, y: seq<Token>)
    requires Lexes(a, x) && Lexes(b, y)
    ensures Lexes(a + b, x + y)
  {
    RunConcat(START, a, b);
    RunAfter(x, START, b);
    assert After(x, START) == Scan(x, Between);
  }

  lemma {:induction false} LexesThenOpen(a: string, x: seq<Token>, b: string, y: seq<Token>)
    requires Lexes(a, x) && LexesOpen(b, y)
    ensures LexesOpen(a + b, x + y)
  {
    RunConcat(START, a, b);
    RunAfter(x, START, b);
    assert After(x, START) == Scan(x, Between);
  }

  lemma SeparatorStarts(tokens: seq<Token>, c: char)
    requires Separator(c)
    ensures Start(tokens, c) == Scan(tokens + SeparatorToken(c), Between) && !WordChar(c) && !NumberChar(c)
  {
  }

  lemma SeparatorStep(s: Scan, c: char)
    requires Ends(s.mode) && Separator(c)
    ensures Step(s, c) == Scan(Flush(s) + SeparatorToken(c), Between)
  {
    SeparatorStarts(Flush(s), c);
  }

  lemma {:induction false} LexesClose(a: string, x: seq<Token>, c: char)
    requires LexesOpen(a, x) && Separator(c)
    ensures Lexes(a + [c], x + SeparatorToken(c))
  {
    RunSnoc(START, a, c);
    SeparatorStep(Run(START, a), c);
  }

  lemma LexesIsOpen(a: string, x: seq<Token>)
    requires Lexes(a, x)
    ensures LexesOpen(a, x)
  {
  }

  lemma LexesEmpty()
    ensures Lexes("", [])
  {
  }

  // ----- the pieces -----

  predicate AllWordChars(w: string) {
    w == "" || (AllWordChars(w[..|w| - 1]) && WordChar(w[|w| - 1]))
  }

  predicate IsWord(w: string) {
    w != "" && !Digit(w[0]) && AllWordChars(w)
  }

  lemma RunOne(c: char)
    ensures Run(START, [c]) == Start([], c)
  {
    RunSnoc(START, "", c);
    assert "" + [c] == [c];
  }

  lemma {:induction false} WordSnoc(w: string, c: char)
    requires Run(START, w) == Scan([], InWord(w)) && WordChar(c)
    ensures Run(START, w + [c]) == Scan([], InWord(w + [c]))
  {
    RunSnoc(START, w, c);
  }

  lemma {:induction false} WordRuns(w: string)
    requires IsWord(w)
    ensures Run(START, w) == Scan([], InWord(w))
    decreases |w|
  {
    var front, last := w[..|w| - 1], w[|w| - 1];
    assert AllWordChars(front) && WordChar(last);
    FrontLast(w);
    if front == "" {
      RunOne(last);
      assert w == [last] && last == w[0];
    } else {
      assert front[0] == w[0];
      WordRuns(front);
      WordSnoc(front, last);
    }
  }

  lemma {:induction false} BareIsWord(s: string)
    requires AllBare(s)
    ensures AllWordChars(s)
    decreases |s|
  {
    if s != "" {
      BareIsWord(s[..|s| - 1]);
    }
  }

  // Quoted text up to its closing quote.
  lemma {:induction false} InsideIdentStep(before: string, t: string, c: char)
    requires Run(Scan([], InIdent("")), before) == Scan([], InIdent(t))
    ensures Run(Scan([], InIdent("")), before + Twice(c, '"')) == Scan([], InIdent(t + [c]))
  {
    RunSnoc(Scan([], InIdent("")), before, c);
    if c == '"' {
      assert before + Twice(c, '"') == (before + [c]) + [c];
      RunSnoc(Scan([], InIdent("")), before + [c], c);
    }
  }

  lemma {:induction false} InsideIdentSnoc(front: string, last: char)
    requires Run(Scan([], InIdent("")), Doubled(front, '"')) == Scan([], InIdent(front))
    ensures Run(Scan([], InIdent("")), Doubled(front + [last], '"')) == Scan([], InIdent(front + [last]))
  {
    DoubledSnoc(front, last, '"');
    InsideIdentStep(Doubled(front, '"'), front, last);
  }

  lemma {:induction false} InsideIdent(s: string)
    ensures Run(Scan([], InIdent("")), Doubled(s, '"')) == Scan([], InIdent(s))
    decreases |s|
  {
    if s != "" {
      var front, last := s[..|s| - 1], s[|s| - 1];
      InsideIdent(front);
      InsideIdentSnoc(front, last);
      FrontLast(s);
    }
  }

  lemma {:induction false} InsideStringStep(before: string, t: string, c: char)
    requires Run(Scan([], InString("")), before) == Scan([], InString(t))
    ensures Run(Scan([], InString("")), before + Twice(c, '\'')) == Scan([], InString(t + [c]))
  {
    RunSnoc(Scan([], InString("")), before, c);
    if c == '\'' {
      assert before + Twice(c, '\'') == (before + [c]) + [c];
      RunSnoc(Scan([], InString("")), before + [c], c);
    }
  }

  lemma {:induction false} InsideStringSnoc(front: string, last: char)
    requires Run(Scan([], InString("")), Doubled(front, '\'')) == Scan([], InString(front))
    ensures Run(Scan([], InString("")), Doubled(front + [last], '\'')) == Scan([], InString(front + [last]))
  {
    DoubledSnoc(front, last, '\'');
    InsideStringStep(Doubled(front, '\''), front, last);
  }

  lemma {:induction false} InsideString(s: string)
    ensures Run(Scan([], InString("")), Doubled(s, '\'')) == Scan([], InString(s))
    decreases |s|
  {
    if s != "" {
      var front, last := s[..|s| - 1], s[|s| - 1];
      InsideString(front);
      InsideStringSnoc(front, last);
      FrontLast(s);
    }
  }

  function IdentToken(s: string): Token {
    if Bare(s) then Word(s) else Quoted(s)
  }

  lemma {:induction false} IdentLexes(s: string)
    ensures LexesOpen(QuotedIdent(s), [IdentToken(s)])
    ensures Lexes(QuotedIdent(s) + ".", [IdentToken(s), Mark('.')])
  {
    if Bare(s) {
      BareIsWord(s);
      WordRuns(s);
    } else {
      var d := Doubled(s, '"');
      InsideIdent(s);
      RunOne('"');
      RunConcat(START, "\"", d);
      RunSnoc(START, "\"" + d, '"');
    }
    RunSnoc(START, QuotedIdent(s), '.');
  }

  lemma {:induction false} StringLexes(s: string)
    ensures LexesOpen(QuotedString(s), [Str(s)])
  {
    var d := Doubled(s, '\'');
    InsideString(s);
    RunOne('\'');
    RunConcat(START, "'", d);
    RunSnoc(START, "'" + d, '\'');
  }

  lemma WordLexes(w: string)
    requires IsWord(w)
    ensures LexesOpen(w, [Word(w)])
  {
    WordRuns(w);
  }

  /** Characters of numbers, without the two dashes that would open a comment. */
  predicate AllNumberChars(w: string) {
    w == "" ||
    (AllNumberChars(w[..|w| - 1]) && NumberChar(w[|w| - 1])
     && (|w| > 1 && w[|w| - 1] == '-' ==> w[|w| - 2] != '-'))
  }

  predicate IsNumber(w: string) {
    w != "" && NumberStart(w[0]) && AllNumberChars(w)
  }

  lemma {:induction false} NumberCharsAll(w: string)
    requires forall i :: 0 <= i < |w| ==> NumberChar(w[i])
    requires forall i :: 0 < i < |w| && w[i] == '-' ==> w[i - 1] != '-'
    ensures AllNumberChars(w)
    decreases |w|
  {
    if w != "" {
      NumberCharsAll(w[..|w| - 1]);
    }
  }

  lemma {:induction false} NumberSnoc(w: string, c: char)
    requires Run(START, w) == Scan([], InNumber(w)) && NumberChar(c) && w != "" && (c == '-' ==> w[|w| - 1] != '-')
    ensures Run(START, w + [c]) == Scan([], InNumber(w + [c]))
  {
    RunSnoc(START, w, c);
  }

  lemma {:induction false} NumberRuns(w: string)
    requires IsNumber(w)
    ensures Run(START, w) == Scan([], InNumber(w))
    decreases |w|
  {
    var front, last := w[..|w| - 1], w[|w| - 1];
    assert AllNumberChars(front) && NumberChar(last);
    FrontLast(w);
    if front == "" {
      RunOne(last);
      assert w == [last] && last == w[0];
    } else {
      assert front[0] == w[0] && front[|front| - 1] == w[|w| - 2];
      NumberRuns(front);
      NumberSnoc(front, last);
    }
  }

  lemma NumberLexes(w: string)
    requires IsNumber(w)
    ensures LexesOpen(w, [Word(w)])
  {
    NumberRuns(w);
  }

  predicate AllSpace(s: string) {
    s == "" || (AllSpace(s[..|s| - 1]) && Space(s[|s| - 1]))
  }

  lemma {:induction false} SpacesLex(s: string)
    requires AllSpace(s)
    ensures Lexes(s, [])
    decreases |s|
  {
    if s != "" {
      SpacesLex(s[..|s| - 1]);
    }
  }

  // Spaces on either side are not part of the tokens.
  lemma {:induction false} PaddedLexes(before: string, a: string, x: seq<Token>, after: string)
    requires AllSpace(before) && LexesOpen(a, x) && AllSpace(after)
    ensures LexesOpen(before + a + after, x)
  {
    SpacesLex(before);
    LexesThenOpen(before, [], a, x);
    assert [] + x == x;
    SpacesFollow(before + a, x, after);
  }

  lemma {:induction false} SpacesFollow(a: string, x: seq<Token>, after: string)
    requires LexesOpen(a, x) && AllSpace(after)
    ensures LexesOpen(a + after, x)
    decreases |after|
  {
    if after == "" {
      assert a + after == a;
    } else {
      var front, last := after[..|after| - 1], after[|after| - 1];
      SpacesFollow(a, x, front);
      assert a + after == (a + front) + [last];
      LexesClose(a + front, x, last);
      assert x + SeparatorToken(last) == x;
    }
  }
}
