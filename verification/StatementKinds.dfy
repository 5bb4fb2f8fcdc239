/** Each kind and each refusal of a statement, on its text: the words that lead to it (internal/query/classifier.go). */
module StatementKinds {
  import opened StatementLexer
  import opened Classifier
  import opened Texts
  import opened Trimming
  import opened ReadOnlyGuard
  import opened EmptyStatements

  /** The words that begin a statement of a kind. */
  function WordsOf(kind: Kind): set<string> {
    match kind
    case Select => {"select"}
    case Insert => {"insert"}
    case Update => {"update"}
    case Delete => {"delete"}
    case Truncate => {"truncate"}
    case Create => {"create"}
    case Alter => {"alter"}
    case Drop => {"drop"}
    case Use => {"use"}
    case Describe => {"describe", "desc"}
    case Batch => {"begin", "apply"}
    case Grant => {"grant"}
    case Revoke => {"revoke"}
    case List => {"list"}
    case _ => {}
  }

  /** The kind has words of its own. */
  predicate HasWords(kind: Kind) {
    !kind.NoKind? && !kind.Unknown? && !kind.Empty?
  }

  /** Of the kinds that are recognized these are refused. */
  predicate Refused(kind: Kind) {
    kind.Grant? || kind.Revoke? || kind.List?
  }

  /** A single statement that begins with one of the words, in any case. */
  ghost predicate BeginsWith(cql: string, words: set<string>) {
    SingleStatement(Blank(cql)) && exists lead, word, rest :: Led(Blank(cql), lead, word, rest) && Lower(word) in words
  }

  /** A single statement with nothing in it. */
  ghost predicate Nothing(cql: string) {
    SingleStatement(Blank(cql)) && exists lead, semis, trail :: Bare(Blank(cql), lead, semis, trail)
  }

  // ----- the words -----

  function VerdictFor(kind: Kind): Verdict {
    if Refused(kind) then Rejected(kind, Error.Unsupported) else Accepted(kind)
  }

  lemma ReadingKindWords(word: string, kind: Kind)
    requires kind.Select? || kind.Use? || kind.Describe? || kind.Insert? || kind.Update?
    ensures KindOf(word) == VerdictFor(kind) <==> word in WordsOf(kind)
  {
  }

  lemma SchemaKindWords(word: string, kind: Kind)
    requires kind.Create? || kind.Alter? || kind.Drop? || kind.Truncate? || kind.Delete?
    ensures KindOf(word) == VerdictFor(kind) <==> word in WordsOf(kind)
  {
  }

  lemma OtherKindWords(word: string, kind: Kind)
    requires kind.Batch? || kind.Grant? || kind.Revoke? || kind.List?
    ensures KindOf(word) == VerdictFor(kind) <==> word in WordsOf(kind)
  {
  }

  lemma KindWords(word: string, kind: Kind)
    requires HasWords(kind)
    ensures KindOf(word) == VerdictFor(kind) <==> word in WordsOf(kind)
  {
    match kind {
      case Select | Use | Describe | Insert | Update => ReadingKindWords(word, kind);
      case Create | Alter | Drop | Truncate | Delete => SchemaKindWords(word, kind);
      case _ => OtherKindWords(word, kind);
    }
  }

  predicate LowerCase(word: string) {
    word != "" && forall i :: 0 <= i < |word| ==> 'a' <= word[i] <= 'z'
  }

  lemma WordsAreLower(word: string, kind: Kind)
    requires word in WordsOf(kind)
    ensures LowerCase(word)
  {
  }

  lemma LoweredIsAscii(word: string)
    requires LowerCase(Lower(word))
    ensures AsciiWord(word)
  {
    forall i | 0 <= i < |word| ensures 'a' <= word[i] <= 'z' || 'A' <= word[i] <= 'Z' {
      assert 'a' <= Lower(word)[i] <= 'z';
    }
  }

  lemma EveryVerdict(word: string)
    ensures var v := KindOf(word); v == Accepted(Unknown) || (HasWords(v.kind) && v == VerdictFor(v.kind))
  {
  }

  lemma {:induction false} EveryCase(cql: string)
    ensures var v := Classified(cql);
      || v == Rejected(NoKind, MultiStatement) || v == Rejected(Empty, EmptyStatement) || v == Accepted(Unknown)
      || (HasWords(v.kind) && v == VerdictFor(v.kind))
    ensures Classified(cql) == Rejected(NoKind, MultiStatement) <==> Extra(cql)
  {
    EveryVerdict(Keyword(SpaceStart, SpaceEnd, ProgramTrim(Blank(cql))));
  }

  // ----- the texts -----

  lemma {:induction false} KeywordLeads(t: string, kind: Kind) returns (lead: string, word: string, rest: string)
    requires HasWords(kind) && VerdictOf(ProgramTrim(t)) == VerdictFor(kind)
    ensures Led(t, lead, word, rest) && Lower(word) in WordsOf(kind)
  {
    var u := TrimLeftLeaves(t);
    var y := TrimmedText(t, u);
    KeywordOfTrimmed(y);
    KindWords(LeadingWord(y), kind);
    WordsAreLower(LeadingWord(y), kind);
    LoweredIsAscii(y[..LetterRun(y)]);
    lead, word, rest := SplitAtWord(t, u, y);
  }

  /** A text is of a kind, and accepted or refused as such, exactly if stripped it is a single statement that begins with
      one of the kind's words. */
  lemma {:induction false} KindExactly(cql: string, kind: Kind)
    requires HasWords(kind)
    ensures Classified(cql) == (if Refused(kind) then Rejected(kind, Error.Unsupported) else Accepted(kind))
      <==> BeginsWith(cql, WordsOf(kind))
  {
    var t := Blank(cql);
    SingleIsNoExtra(cql);
    if BeginsWith(cql, WordsOf(kind)) {
      var lead, word, rest :| Led(t, lead, word, rest) && Lower(word) in WordsOf(kind);
      FirstWordDecides(t, lead, word, rest);
      KindWords(Lower(word), kind);
    }
    if Classified(cql) == VerdictFor(kind) {
      var lead, word, rest := KeywordLeads(t, kind);
    }
  }

  /** Whatever else is a single statement and not empty is accepted as unknown. */
  lemma {:induction false} UnknownExactly(cql: string)
    ensures Classified(cql) == Accepted(Unknown) <==>
      SingleStatement(Blank(cql)) && !Nothing(cql) && forall kind :: HasWords(kind) ==> !BeginsWith(cql, WordsOf(kind))
  {
    var v := Classified(cql);
    EveryCase(cql);
    SingleIsNoExtra(cql);
    EmptyExactly(cql);
    if v == Accepted(Unknown) {
      forall kind | HasWords(kind) ensures !BeginsWith(cql, WordsOf(kind)) {
        KindExactly(cql, kind);
      }
    } else if HasWords(v.kind) {
      KindExactly(cql, v.kind);
    }
  }

  /** Refused are exactly texts of several statements, empty ones, and those that begin with grant, revoke or list. */
  lemma {:induction false} RefusedExactly(cql: string)
    ensures Classified(cql) == Rejected(NoKind, MultiStatement) <==> !SingleStatement(Blank(cql))
    ensures Classified(cql) == Rejected(Empty, EmptyStatement) <==> Nothing(cql)
    ensures Classified(cql).Rejected? <==>
      !SingleStatement(Blank(cql)) || Nothing(cql) || exists kind :: Refused(kind) && BeginsWith(cql, WordsOf(kind))
  {
    var v := Classified(cql);
    EveryCase(cql);
    SingleIsNoExtra(cql);
    EmptyExactly(cql);
    if HasWords(v.kind) {
      KindExactly(cql, v.kind);
    }
    forall kind | Refused(kind) && BeginsWith(cql, WordsOf(kind)) ensures v.Rejected? {
      KindExactly(cql, kind);
    }
  }

  // ----- statements that change the schema -----

  const DDL_WORDS: set<string> := {"create", "alter", "drop", "truncate"}

  /** The kind of such a word. */
  function DdlKind(word: string): Kind {
    if word == "create" then Create else if word == "alter" then Alter else if word == "drop" then Drop else Truncate
  }

  lemma DdlWord(word: string)
    requires word in DDL_WORDS
    ensures IsDDL(DdlKind(word)) && !Refused(DdlKind(word)) && HasWords(DdlKind(word)) && word in WordsOf(DdlKind(word))
  {
  }

  lemma WordOfDdl(word: string, kind: Kind)
    requires IsDDL(kind) && word in WordsOf(kind)
    ensures word in DDL_WORDS
  {
  }

  /** A statement counts as one that changes the schema exactly if it begins with create, alter, drop or truncate. */
  lemma {:induction false} DdlExactly(cql: string)
    ensures Classified(cql).Accepted? && IsDDL(Classified(cql).kind) <==> BeginsWith(cql, DDL_WORDS)
  {
    var v := Classified(cql);
    if v.Accepted? && IsDDL(v.kind) {
      KindExactly(cql, v.kind);
      var lead, word, rest :| Led(Blank(cql), lead, word, rest) && Lower(word) in WordsOf(v.kind);
      WordOfDdl(Lower(word), v.kind);
    }
    if BeginsWith(cql, DDL_WORDS) {
      var lead, word, rest :| Led(Blank(cql), lead, word, rest) && Lower(word) in DDL_WORDS;
      DdlWord(Lower(word));
      KindExactly(cql, DdlKind(Lower(word)));
    }
  }
}
