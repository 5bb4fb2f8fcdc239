/** What the highlighter's tokens are, without its loop: a source has at most one tokenization, and the loop finds it
    (web/src/components/cql-highlight.tsx). */
module TokenClasses {
  import opened Texts
  import opened Sequences
  import opened Highlight

  predicate All(v: string, p: char -> bool) {
    forall k :: 0 <= k < |v| ==> p(v[k])
  }

  /** No such character goes on at `j`. */
  predicate Over(src: string, j: nat, p: char -> bool) {
    j >= |src| || !p(src[j])
  }

  predicate IsWord(v: string) {
    v != "" && WordStart(v[0]) && All(v, WordChar)
  }

  /** Begins and ends with the same quote mark, which is not in between. */
  predicate Closed(v: string) {
    |v| >= 2 && QuoteMark(v[0]) && v[|v| - 1] == v[0] && forall k :: 1 <= k < |v| - 1 ==> v[k] != v[0]
  }

  predicate Unclosed(v: string) {
    |v| >= 1 && QuoteMark(v[0]) && forall k :: 1 <= k < |v| ==> v[k] != v[0]
  }

  /** A character that begins nothing longer. */
  predicate Lone(c: char) {
    c != '\n' && !Blank(c) && !Odd(c) && !QuoteMark(c) && !Digit(c) && !WordStart(c) && !Punctuation(c)
  }

  /** The token is of its class, and as long as it can be: it ends at `j`. */
  predicate Classed(src: string, j: nat, t: Tok) {
    match t
    case Newline => true
    case Spaces(v) => v != "" && All(v, Blank) && Over(src, j, Blank)
    case Comment(v) => |v| >= 2 && v[0] == v[1] == '-' && All(v, InLine) && Over(src, j, InLine)
    case Quoted(v) => Closed(v) || (Unclosed(v) && j == |src|)
    case Numeral(v) => v != "" && Digit(v[0]) && All(v, NumberChar) && Over(src, j, NumberChar)
    case Keyword(v) => IsWord(v) && Over(src, j, WordChar) && Upper(v) in KEYWORDS
    case TypeName(v) => IsWord(v) && Over(src, j, WordChar) && Upper(v) !in KEYWORDS && Lower(v) in TYPES
    case Ident(v) =>
      || (IsWord(v) && Over(src, j, WordChar) && Upper(v) !in KEYWORDS && Lower(v) !in TYPES)
      || (|v| == 1 && Lone(v[0]) && !(v[0] == '-' && j < |src| && src[j] == '-'))
    case Punct(v) => |v| == 1 && Punctuation(v[0])
  }

  /** From `i` on the source is the texts of these tokens, each of its class and as long as it can be. */
  predicate Tokenization(src: string, i: nat, ts: seq<Tok>)
    requires i <= |src|
    decreases |ts|
  {
    if ts == [] then i == |src|
    else
      var j := i + |TextOf(ts[0])|;
      j <= |src| && src[i..j] == TextOf(ts[0]) && Classed(src, j, ts[0]) && Tokenization(src, j, ts[1..])
  }

  // ----- the round finds the only token there is -----

  lemma {:induction false} RunEndsAt(src: string, i: nat, j: nat, p: char -> bool)
    requires i <= j <= |src| && (forall k :: i <= k < j ==> p(src[k])) && Over(src, j, p)
    ensures RunEnd(src, i, p) == j
    decreases j - i
  {
    if i < j {
      RunEndsAt(src, i + 1, j, p);
    }
  }

  lemma SliceAll(src: string, i: nat, j: nat, p: char -> bool)
    requires i <= j <= |src|
    ensures All(src[i..j], p) <==> forall k :: i <= k < j ==> p(src[k])
  {
    if All(src[i..j], p) {
      forall k | i <= k < j ensures p(src[k]) {
        assert src[i..j][k - i] == src[k];
      }
    }
  }

  function End(src: string, i: nat): nat
    requires i < |src|
  {
    if Round(src, i).1 <= |src| then Round(src, i).1 else |src|
  }

  lemma {:induction false} RoundIsClassed(src: string, i: nat)
    requires i < |src| && !Odd(src[i])
    ensures var t, j := Round(src, i).0, End(src, i); i < j && src[i..j] == TextOf(t) && Classed(src, j, t)
  {
    var c, j := src[i], End(src, i);
    if Blank(c) {
      SliceAll(src, i, j, Blank);
    } else if Dashes(src, i) {
      SliceAll(src, i, j, InLine);
    } else if QuoteMark(c) {
      QuotedIsClassed(src, i);
    } else if Digit(c) {
      SliceAll(src, i, j, NumberChar);
    } else if WordStart(c) {
      SliceAll(src, i, j, WordChar);
    }
  }

  lemma {:induction false} QuotedIsClassed(src: string, i: nat)
    requires i < |src| && QuoteMark(src[i])
    ensures var v := src[i..End(src, i)]; i < End(src, i) && (Closed(v) || (Unclosed(v) && End(src, i) == |src|))
  {
    var c, j := src[i], RunEnd(src, i + 1, Not(src[i]));
    var v := src[i..End(src, i)];
    assert v[0] == c;
    forall k | 1 <= k < |v| && i + k < j ensures v[k] != c {
      assert v[k] == src[i + k] && Not(c)(src[i + k]);
    }
    if j < |src| {
      assert v[|v| - 1] == src[j] && !Not(c)(src[j]);
    }
  }

  lemma {:induction false} RunOfClass(src: string, i: nat, j: nat, p: char -> bool)
    requires i <= j <= |src| && All(src[i..j], p) && Over(src, j, p)
    ensures RunEnd(src, i, p) == j
  {
    SliceAll(src, i, j, p);
    RunEndsAt(src, i, j, p);
  }

  lemma {:induction false} ClosedEnds(src: string, i: nat, j: nat)
    requires i < j <= |src| && (Closed(src[i..j]) || (Unclosed(src[i..j]) && j == |src|))
    ensures QuoteMark(src[i]) && RunEnd(src, i + 1, Not(src[i])) == if Closed(src[i..j]) then j - 1 else j
  {
    var v, c := src[i..j], src[i];
    assert forall k :: i <= k < j ==> src[k] == v[k - i];
    if Closed(v) {
      RunEndsAt(src, i + 1, j - 1, Not(c));
    } else {
      RunEndsAt(src, i + 1, j, Not(c));
    }
  }

  lemma {:induction false} OnlyRun(src: string, i: nat, j: nat, t: Tok)
    requires i <= j <= |src| && src[i..j] == TextOf(t) && Classed(src, j, t) && (t.Spaces? || t.Numeral?)
    ensures i < j && !Odd(src[i]) && Round(src, i).0 == t && End(src, i) == j
  {
    assert src[i..j][0] == src[i];
    RunOfClass(src, i, j, if t.Spaces? then Blank else NumberChar);
  }

  lemma {:induction false} OnlyComment(src: string, i: nat, j: nat, t: Tok)
    requires i <= j <= |src| && src[i..j] == TextOf(t) && Classed(src, j, t) && t.Comment?
    ensures i < j && !Odd(src[i]) && Round(src, i).0 == t && End(src, i) == j
  {
    assert src[i..j][0] == src[i] && src[i..j][1] == src[i + 1];
    RunOfClass(src, i, j, InLine);
  }

  lemma {:induction false} OnlyQuoted(src: string, i: nat, j: nat, t: Tok)
    requires i <= j <= |src| && src[i..j] == TextOf(t) && Classed(src, j, t) && t.Quoted?
    ensures i < j && !Odd(src[i]) && Round(src, i).0 == t && End(src, i) == j
  {
    ClosedEnds(src, i, j);
    RoundText(src, i);
  }

  lemma {:induction false} OnlyWord(src: string, i: nat, j: nat, t: Tok)
    requires i <= j <= |src| && src[i..j] == TextOf(t) && Classed(src, j, t) && IsWord(src[i..j])
    ensures i < j && !Odd(src[i]) && Round(src, i).0 == t && End(src, i) == j
  {
    assert src[i..j][0] == src[i];
    RunOfClass(src, i, j, WordChar);
    OnlyWordToken(src, j, t);
  }

  lemma OnlyWordToken(src: string, j: nat, t: Tok)
    requires Classed(src, j, t) && IsWord(TextOf(t))
    ensures t == WordToken(TextOf(t))
  {
  }

  lemma {:induction false} OnlySingle(src: string, i: nat, j: nat, t: Tok)
    requires i <= j <= |src| && src[i..j] == TextOf(t) && Classed(src, j, t)
    requires t.Newline? || t.Punct? || (t.Ident? && !IsWord(t.v))
    ensures i < j && !Odd(src[i]) && Round(src, i).0 == t && End(src, i) == j
  {
    assert |src[i..j]| == 1 && src[i..j][0] == src[i];
  }

  /** A token of its class that begins at `i` is the one the round finds. */
  lemma {:induction false} OnlyToken(src: string, i: nat, j: nat, t: Tok)
    requires i <= j <= |src| && src[i..j] == TextOf(t) && Classed(src, j, t)
    ensures i < j && !Odd(src[i]) && Round(src, i).0 == t && End(src, i) == j
  {
    match t {
      case Spaces(_) => OnlyRun(src, i, j, t);
      case Numeral(_) => OnlyRun(src, i, j, t);
      case Comment(_) => OnlyComment(src, i, j, t);
      case Quoted(_) => OnlyQuoted(src, i, j, t);
      case Keyword(_) => OnlyWord(src, i, j, t);
      case TypeName(_) => OnlyWord(src, i, j, t);
      case Ident(v) =>
        if IsWord(v) {
          OnlyWord(src, i, j, t);
        } else {
          OnlySingle(src, i, j, t);
        }
      case _ => OnlySingle(src, i, j, t);
    }
  }

  // ----- a whole source -----

  lemma {:induction false} FirstToken(src: string, i: nat, ts: seq<Tok>)
    requires i <= |src| && ts != [] && Tokenization(src, i, ts)
    ensures i < |src| && !Odd(src[i]) && ts[0] == Round(src, i).0 && Tokenization(src, End(src, i), ts[1..])
  {
    OnlyToken(src, i, i + |TextOf(ts[0])|, ts[0]);
  }

  lemma {:induction false} TokenBegins(src: string, i: nat, j: nat, ts: seq<Tok>)
    requires ts != [] && i <= j <= |src| && src[i..j] == TextOf(ts[0]) && Classed(src, j, ts[0]) && Tokenization(src, j, ts[1..])
    ensures Tokenization(src, i, ts)
  {
    assert j == i + |TextOf(ts[0])|;
  }

  lemma Consed(ts: seq<Tok>, t: Tok, rest: seq<Tok>)
    requires ts == [t] + rest
    ensures ts != [] && ts[0] == t && ts[1..] == rest
  {
  }

  lemma {:induction false} NextStops(src: string, i: nat)
    requires i < |src|
    ensures Stops(src, i) <==> !Odd(src[i]) && Stops(src, End(src, i))
    ensures Stops(src, i) ==> Tokens(src, i) == [Round(src, i).0] + Tokens(src, End(src, i))
  {
    if !Odd(src[i]) {
      RoundIsClassed(src, i);
    }
  }

  /** The source has a tokenization exactly if the loop ends, and then the loop's is the only one: every token is of its
      class, as long as it can be, and nothing is left out. */
  lemma {:induction false} OnlyTokenization(src: string, i: nat, ts: seq<Tok>)
    requires i <= |src|
    ensures Tokenization(src, i, ts) <==> Stops(src, i) && ts == Tokens(src, i)
    decreases |src| - i
  {
    if Tokenization(src, i, ts) && ts != [] {
      FirstToken(src, i, ts);
      NextStops(src, i);
      RoundIsClassed(src, i);
      OnlyTokenization(src, End(src, i), ts[1..]);
      HeadTail(ts);
    }
    if Stops(src, i) && ts == Tokens(src, i) && i < |src| {
      NextStops(src, i);
      RoundIsClassed(src, i);
      OnlyTokenization(src, End(src, i), Tokens(src, End(src, i)));
      Consed(ts, Round(src, i).0, Tokens(src, End(src, i)));
      TokenBegins(src, i, End(src, i), ts);
    }
  }
}
