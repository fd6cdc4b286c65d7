/**
 * Snake, kebab and dot case on the inputs of the library's tests
 * (SeparatorBasedModifiersTests.swift): each input is tokenized with the
 * default acronyms, traced step by step, then processed with one token
 * modifier and a constant separator. The modifier is a parameter described
 * by the fields the proof needs, so one proof serves all three cases.
 */
module SeparatorExamples {
  import opened Options
  import opened Characters
  import opened Casification
  import opened DefaultTokenizer
  import opened StandardAcronyms
  import opened Modifiers
  import opened ProgrammingCase
  import opened SeparatorCases
  import PT = ProcessingTokens
  import opened TokenizerTrace
  import opened TokenizerExamples
  import opened SequenceExt
  import TokenizerProperties

  /** A separator-based modifier over the default acronyms processes the default tokenization. */
  lemma TransformWithStandard(m: ProgrammingCaseModifier, input: string)
    requires m.reservedAcronyms == Standard()
    ensures Transform(m, input) == Concat(ProcessTokens(Processor(m), Tokenize(Std, input)))
  {
    PT.TransformConcatenatesProcessed(
      PT.ProcessingTokens(ts => ProcessTokens(Processor(m), ts), m.reservedAcronyms), Standard(), input);
  }

  // ----- "" -----

  /** "" stays "" under every separator-based modifier, snake, kebab and dot among them. */
  lemma EmptyInput(m: ProgrammingCaseModifier)
    ensures Transform(m, "") == ""
  {
    var inner := PT.ProcessingTokens(ts => ProcessTokens(Processor(m), ts), m.reservedAcronyms);
    TokenizerProperties.TokenizeEmpty(PT.TokenizerConfig(inner));
    NoNonSeparatorUnchanged(Processor(m), []);
  }

  // ----- "a" -----

  lemma LetterTokens(input: string)
    requires input == "a"
    ensures Tokenize(Std, input) == [Token("a", Word)]
  {
    InitialFree(input, 0);
    SingleWord(Std, input);
  }

  lemma LetterProcessed(p: ProgrammingCaseModifiers, tokens: seq<Token>)
    requires tokens == [Token("a", Word)] && p.firstModifier == Lower
    ensures ProcessTokens(p, tokens) == [Token("a", Word)]
  {
    assert FirstIndex(tokens, NonSeparator) == Some(0);
    assert tokens[0..] == tokens && tokens[..0] == [];
    assert BodyFrom(p, tokens, 1, true) == [];
    assert Apply(Lower, "a") == "a";
  }

  lemma LetterTransform(m: ProgrammingCaseModifier, input: string)
    requires input == "a" && m.reservedAcronyms == Standard() && m.firstModifier == Lower
    ensures Transform(m, input) == "a"
  {
    TransformWithStandard(m, input);
    LetterTokens(input);
    LetterProcessed(Processor(m), [Token("a", Word)]);
  }

  // ----- "Hello, World!" -----

  lemma HelloCommits(input: string)
    requires input == "Hello, World!"
    ensures Commit(CommitUpTo([], input, 0, 5), Token(input[5..7], Separator))
      == [Token("Hello", Word), Token(", ", Separator)]
    ensures Commit(CommitUpTo([Token("Hello", Word), Token(", ", Separator)], input, 7, 12), Token(input[12..13], Separator))
      == [Token("Hello", Word), Token(", ", Separator), Token("World", Word), Token("!", Separator)]
  {
    assert input == "Hello" + ", " + "World" + "!";
    assert input[0..5] == "Hello" && input[5..7] == ", " && input[7..12] == "World" && input[12..13] == "!";
    WordSpan("Hello");
    WordSpan("World");
  }

  lemma HelloFirstWord(config: Config, input: string)
    requires input == "Hello, World!" && NonEmptyAcronyms(config.acronyms)
    requires GetAcronym(input, config.acronyms, 0) == None
    ensures Tokenize(config, input) == Scan(config, input, Cursor(0, 5, []))
  {
    ScanWord(config, input, Cursor(0, 0, []), 5);
  }

  lemma HelloComma(config: Config, input: string)
    requires input == "Hello, World!" && NonEmptyAcronyms(config.acronyms)
    requires GetAcronym(input, config.acronyms, 5) == None
    ensures Scan(config, input, Cursor(0, 5, []))
      == Scan(config, input, Cursor(7, 7, [Token("Hello", Word), Token(", ", Separator)]))
  {
    ScanSeparator(config, input, Cursor(0, 5, []), 7);
    HelloCommits(input);
  }

  lemma HelloSecondWord(config: Config, input: string)
    requires input == "Hello, World!" && NonEmptyAcronyms(config.acronyms)
    requires GetAcronym(input, config.acronyms, 7) == None
    ensures Scan(config, input, Cursor(7, 7, [Token("Hello", Word), Token(", ", Separator)]))
      == Scan(config, input, Cursor(7, 12, [Token("Hello", Word), Token(", ", Separator)]))
  {
    ScanWord(config, input, Cursor(7, 7, [Token("Hello", Word), Token(", ", Separator)]), 12);
  }

  lemma HelloBang(config: Config, input: string)
    requires input == "Hello, World!" && NonEmptyAcronyms(config.acronyms)
    requires GetAcronym(input, config.acronyms, 12) == None
    ensures Scan(config, input, Cursor(7, 12, [Token("Hello", Word), Token(", ", Separator)]))
      == [Token("Hello", Word), Token(", ", Separator), Token("World", Word), Token("!", Separator)]
  {
    ScanSeparator(config, input, Cursor(7, 12, [Token("Hello", Word), Token(", ", Separator)]), 13);
    HelloCommits(input);
    ScanAtEnd(config, input, Cursor(13, 13,
      [Token("Hello", Word), Token(", ", Separator), Token("World", Word), Token("!", Separator)]));
  }

  lemma HelloTrace(config: Config, input: string)
    requires input == "Hello, World!" && NonEmptyAcronyms(config.acronyms)
    requires GetAcronym(input, config.acronyms, 0) == None
    requires GetAcronym(input, config.acronyms, 5) == None
    requires GetAcronym(input, config.acronyms, 7) == None
    requires GetAcronym(input, config.acronyms, 12) == None
    ensures Tokenize(config, input)
      == [Token("Hello", Word), Token(", ", Separator), Token("World", Word), Token("!", Separator)]
  {
    HelloFirstWord(config, input);
    HelloComma(config, input);
    HelloSecondWord(config, input);
    HelloBang(config, input);
  }

  lemma HelloFree(input: string)
    requires input == "Hello, World!"
    ensures GetAcronym(input, Standard(), 0) == None
    ensures GetAcronym(input, Standard(), 5) == None
    ensures GetAcronym(input, Standard(), 7) == None
    ensures GetAcronym(input, Standard(), 12) == None
  {
    InitialFree(input, 0);
    InitialFree(input, 5);
    InitialFree(input, 7);
    InitialFree(input, 12);
  }

  /** "Hello, World!": two words, each followed by a separator run. */
  lemma HelloTokens(input: string)
    requires input == "Hello, World!"
    ensures Tokenize(Std, input)
      == [Token("Hello", Word), Token(", ", Separator), Token("World", Word), Token("!", Separator)]
  {
    HelloFree(input);
    HelloTrace(Std, input);
  }

  /** Two words around a separator, with a trailing separator: the trailing one is dropped. */
  lemma HelloProcessed(p: ProgrammingCaseModifiers, m: ProgrammingCaseModifier, tokens: seq<Token>)
    requires p == Processor(m) && m.firstModifier == m.restModifier
    requires tokens == [Token("Hello", Word), Token(", ", Separator), Token("World", Word), Token("!", Separator)]
    ensures ProcessTokens(p, tokens)
      == [Token(Apply(m.firstModifier, "Hello"), Word), SeparatorAt(p, tokens[..3], 1), Token(Apply(m.firstModifier, "World"), Word)]
  {
    assert FirstIndex(tokens, NonSeparator) == Some(0);
    assert tokens[0..] == tokens && tokens[..0] == [];
    assert TrimTrailingSeparators(tokens) == tokens[..3];
    var b := tokens[..3];
    assert BodyFrom(p, b, 3, true) == [];
    assert BodyFrom(p, b, 2, true) == [Token(Apply(m.firstModifier, "World"), Word)];
    assert BodyFrom(p, b, 1, true) == [SeparatorAt(p, b, 1), Token(Apply(m.firstModifier, "World"), Word)];
    assert BodyFrom(p, b, 0, false)
      == [Token(Apply(m.firstModifier, "Hello"), Word), SeparatorAt(p, b, 1), Token(Apply(m.firstModifier, "World"), Word)];
  }

  // ----- "<<<$helloWorld" -----

  lemma PrefixOpenCommit(input: string)
    requires input == "<<<$helloWorld"
    ensures Commit(CommitUpTo([], input, 0, 0), Token(input[0..4], Separator)) == [Token("<<<$", Separator)]
  {
    assert input[0..4] == "<<<$";
  }

  lemma PrefixHelloCommit(input: string)
    requires input == "<<<$helloWorld"
    ensures CommitUpTo([Token("<<<$", Separator)], input, 4, 9) == [Token("<<<$", Separator), Token("hello", Word)]
  {
    assert input[4..9] == "hello";
    WordSpan("hello");
  }

  lemma PrefixWorldCommit(input: string)
    requires input == "<<<$helloWorld"
    ensures CommitUpTo([Token("<<<$", Separator), Token("hello", Word)], input, 9, 14)
      == [Token("<<<$", Separator), Token("hello", Word), Token("", Separator), Token("World", Word)]
  {
    assert input[9..14] == "World";
    WordSpan("World");
  }

  lemma PrefixRun(config: Config, input: string)
    requires input == "<<<$helloWorld" && NonEmptyAcronyms(config.acronyms)
    requires GetAcronym(input, config.acronyms, 0) == None
    ensures Tokenize(config, input) == Scan(config, input, Cursor(4, 4, [Token("<<<$", Separator)]))
  {
    ScanSeparator(config, input, Cursor(0, 0, []), 4);
    PrefixOpenCommit(input);
  }

  lemma PrefixFirstWord(config: Config, input: string)
    requires input == "<<<$helloWorld" && NonEmptyAcronyms(config.acronyms)
    requires GetAcronym(input, config.acronyms, 4) == None
    ensures Scan(config, input, Cursor(4, 4, [Token("<<<$", Separator)]))
      == Scan(config, input, Cursor(4, 8, [Token("<<<$", Separator)]))
  {
    ScanWord(config, input, Cursor(4, 4, [Token("<<<$", Separator)]), 8);
  }

  lemma PrefixTransition(config: Config, input: string)
    requires input == "<<<$helloWorld" && NonEmptyAcronyms(config.acronyms)
    ensures Scan(config, input, Cursor(4, 8, [Token("<<<$", Separator)]))
      == Scan(config, input, Cursor(9, 9, [Token("<<<$", Separator), Token("hello", Word)]))
  {
    ScanTransition(config, input, Cursor(4, 8, [Token("<<<$", Separator)]));
    PrefixHelloCommit(input);
  }

  lemma PrefixSecondWord(config: Config, input: string)
    requires input == "<<<$helloWorld" && NonEmptyAcronyms(config.acronyms)
    requires GetAcronym(input, config.acronyms, 9) == None
    ensures Scan(config, input, Cursor(9, 9, [Token("<<<$", Separator), Token("hello", Word)]))
      == Scan(config, input, Cursor(9, 14, [Token("<<<$", Separator), Token("hello", Word)]))
  {
    ScanWord(config, input, Cursor(9, 9, [Token("<<<$", Separator), Token("hello", Word)]), 14);
  }

  lemma PrefixEnd(config: Config, input: string)
    requires input == "<<<$helloWorld" && NonEmptyAcronyms(config.acronyms)
    ensures Scan(config, input, Cursor(9, 14, [Token("<<<$", Separator), Token("hello", Word)]))
      == [Token("<<<$", Separator), Token("hello", Word), Token("", Separator), Token("World", Word)]
  {
    ScanAtEnd(config, input, Cursor(9, 14, [Token("<<<$", Separator), Token("hello", Word)]));
    PrefixWorldCommit(input);
  }

  lemma PrefixTrace(config: Config, input: string)
    requires input == "<<<$helloWorld" && NonEmptyAcronyms(config.acronyms)
    requires GetAcronym(input, config.acronyms, 0) == None
    requires GetAcronym(input, config.acronyms, 4) == None
    requires GetAcronym(input, config.acronyms, 9) == None
    ensures Tokenize(config, input)
      == [Token("<<<$", Separator), Token("hello", Word), Token("", Separator), Token("World", Word)]
  {
    PrefixRun(config, input);
    PrefixFirstWord(config, input);
    PrefixTransition(config, input);
    PrefixSecondWord(config, input);
    PrefixEnd(config, input);
  }

  lemma PrefixFree(input: string)
    requires input == "<<<$helloWorld"
    ensures GetAcronym(input, Standard(), 0) == None
    ensures GetAcronym(input, Standard(), 4) == None
    ensures GetAcronym(input, Standard(), 9) == None
  {
    InitialFree(input, 0);
    InitialFree(input, 4);
    InitialFree(input, 9);
  }

  /** "<<<$helloWorld": the leading symbols are one separator, then a lower-to-upper split. */
  lemma PrefixTokensOf(input: string)
    requires input == "<<<$helloWorld"
    ensures Tokenize(Std, input)
      == [Token("<<<$", Separator), Token("hello", Word), Token("", Separator), Token("World", Word)]
  {
    PrefixFree(input);
    PrefixTrace(Std, input);
  }

  /** A leading separator is collapsed through the prefix predicate; the two words keep their separator. */
  lemma PrefixProcessed(p: ProgrammingCaseModifiers, m: ProgrammingCaseModifier, tokens: seq<Token>)
    requires p == Processor(m) && m.firstModifier == m.restModifier
    requires tokens == [Token("<<<$", Separator), Token("hello", Word), Token("", Separator), Token("World", Word)]
    ensures ProcessTokens(p, tokens)
      == PrefixTokens(CollectPrefix([Token("<<<$", Separator)], m.prefixPredicate))
        + [Token(Apply(m.firstModifier, "hello"), Word), SeparatorAt(p, tokens[1..], 1), Token(Apply(m.firstModifier, "World"), Word)]
  {
    assert FirstIndex(tokens, NonSeparator) == Some(1) by {
      assert !NonSeparator(tokens[0]);
      assert tokens[1..][0] == tokens[1];
    }
    assert tokens[..1] == [Token("<<<$", Separator)];
    var b := tokens[1..];
    assert TrimTrailingSeparators(b) == b;
    assert BodyFrom(p, b, 3, true) == [];
    assert BodyFrom(p, b, 2, true) == [Token(Apply(m.firstModifier, "World"), Word)];
    assert BodyFrom(p, b, 1, true) == [SeparatorAt(p, b, 1), Token(Apply(m.firstModifier, "World"), Word)];
    assert BodyFrom(p, b, 0, false)
      == [Token(Apply(m.firstModifier, "hello"), Word), SeparatorAt(p, b, 1), Token(Apply(m.firstModifier, "World"), Word)];
  }

  /** Three tokens concatenate to their three values. */
  lemma ConcatThree(a: Token, b: Token, c: Token)
    ensures Concat([a, b, c]) == a.value + b.value + c.value
  {
    assert [a, b, c][..2] == [a, b] && [a, b][..1] == [a] && [a][..0] == [];
    assert Concat([a]) == a.value;
    assert Concat([a, b]) == a.value + b.value;
  }

  /** The collapsed prefix comes out in front of the body. */
  lemma ConcatAfterPrefix(prefix: string, body: seq<Token>)
    ensures Concat(PrefixTokens(prefix) + body) == prefix + Concat(body)
  {
    ConcatAppend(PrefixTokens(prefix), body);
    if prefix != "" {
      assert [Token(prefix, Separator)][..0] == [];
    }
  }

  lemma HelloPipeline(m: ProgrammingCaseModifier, input: string)
    requires input == "Hello, World!" && m.reservedAcronyms == Standard()
    ensures Transform(m, input) == Concat(ProcessTokens(Processor(m),
      [Token("Hello", Word), Token(", ", Separator), Token("World", Word), Token("!", Separator)]))
  {
    TransformWithStandard(m, input);
    HelloTokens(input);
  }

  /** What the processed tokens of "Hello, World!" concatenate to. */
  lemma HelloJoined(m: ProgrammingCaseModifier, sep: string)
    requires m.mapSeparator == ConstantSeparator(sep) && m.firstModifier == m.restModifier
    ensures Concat(ProcessTokens(Processor(m),
      [Token("Hello", Word), Token(", ", Separator), Token("World", Word), Token("!", Separator)]))
      == Apply(m.firstModifier, "Hello") + sep + Apply(m.firstModifier, "World")
  {
    var tokens := [Token("Hello", Word), Token(", ", Separator), Token("World", Word), Token("!", Separator)];
    HelloProcessed(Processor(m), m, tokens);
    ConcatThree(Token(Apply(m.firstModifier, "Hello"), Word), SeparatorAt(Processor(m), tokens[..3], 1),
      Token(Apply(m.firstModifier, "World"), Word));
  }

  /** "Hello, World!" becomes its two words, each through the token modifier, joined by the separator. */
  lemma HelloTransform(m: ProgrammingCaseModifier, sep: string, input: string)
    requires input == "Hello, World!" && m.reservedAcronyms == Standard()
    requires m.mapSeparator == ConstantSeparator(sep) && m.firstModifier == m.restModifier
    ensures Transform(m, input) == Apply(m.firstModifier, "Hello") + sep + Apply(m.firstModifier, "World")
  {
    HelloPipeline(m, input);
    HelloJoined(m, sep);
  }

  lemma PrefixPipeline(m: ProgrammingCaseModifier, input: string)
    requires input == "<<<$helloWorld" && m.reservedAcronyms == Standard()
    ensures Transform(m, input) == Concat(ProcessTokens(Processor(m),
      [Token("<<<$", Separator), Token("hello", Word), Token("", Separator), Token("World", Word)]))
  {
    TransformWithStandard(m, input);
    PrefixTokensOf(input);
  }

  /** The prefix a single leading separator collapses to: its filtered value. */
  lemma OneSeparatorPrefix(v: string, p: PrefixPredicate)
    ensures CollectPrefix([Token(v, Separator)], p) == Filter(v, p)
  {
    CollectPrefixFiltersConcat([Token(v, Separator)], p);
    assert [Token(v, Separator)][..0] == [];
  }

  /** A single leading separator's filtered value, then two words around a separator. */
  lemma PrefixedJoin(pred: PrefixPredicate, v: string, ts: seq<Token>, a: string, s: Token, b: string)
    requires ts == PrefixTokens(CollectPrefix([Token(v, Separator)], pred)) + [Token(a, Word), s, Token(b, Word)]
    ensures Concat(ts) == Filter(v, pred) + a + s.value + b
  {
    OneSeparatorPrefix(v, pred);
    ConcatAfterPrefix(Filter(v, pred), [Token(a, Word), s, Token(b, Word)]);
    ConcatThree(Token(a, Word), s, Token(b, Word));
  }

  /** A constant separator map answers its constant at every position. */
  lemma SeparatorConstant(m: ProgrammingCaseModifier, sep: string, b: seq<Token>, k: nat)
    requires m.mapSeparator == ConstantSeparator(sep) && k < |b|
    ensures SeparatorAt(Processor(m), b, k).value == sep
  {
  }

  /** What the processed tokens of "<<<$helloWorld" concatenate to. */
  lemma PrefixJoined(m: ProgrammingCaseModifier, sep: string)
    requires m.mapSeparator == ConstantSeparator(sep) && m.firstModifier == m.restModifier
    ensures Concat(ProcessTokens(Processor(m),
      [Token("<<<$", Separator), Token("hello", Word), Token("", Separator), Token("World", Word)]))
      == Filter("<<<$", m.prefixPredicate) + Apply(m.firstModifier, "hello") + sep + Apply(m.firstModifier, "World")
  {
    var tokens := [Token("<<<$", Separator), Token("hello", Word), Token("", Separator), Token("World", Word)];
    PrefixProcessed(Processor(m), m, tokens);
    PrefixedJoin(m.prefixPredicate, "<<<$", ProcessTokens(Processor(m), tokens), Apply(m.firstModifier, "hello"),
      SeparatorAt(Processor(m), tokens[1..], 1), Apply(m.firstModifier, "World"));
    SeparatorConstant(m, sep, tokens[1..], 1);
  }

  /** "<<<$helloWorld" becomes the allowed prefix characters, then the two words joined by the separator. */
  lemma PrefixTransform(m: ProgrammingCaseModifier, sep: string, input: string)
    requires input == "<<<$helloWorld" && m.reservedAcronyms == Standard()
    requires m.mapSeparator == ConstantSeparator(sep) && m.firstModifier == m.restModifier
    ensures Transform(m, input)
      == Filter("<<<$", m.prefixPredicate) + Apply(m.firstModifier, "hello") + sep + Apply(m.firstModifier, "World")
  {
    PrefixPipeline(m, input);
    PrefixJoined(m, sep);
  }

  // ----- "$Hello, World!" -----

  lemma DollarOpenCommit(input: string)
    requires input == "$Hello, World!"
    ensures Commit(CommitUpTo([], input, 0, 0), Token(input[0..1], Separator)) == [Token("$", Separator)]
  {
    assert input[0..1] == "$";
  }

  lemma DollarHelloCommit(input: string)
    requires input == "$Hello, World!"
    ensures Commit(CommitUpTo([Token("$", Separator)], input, 1, 6), Token(input[6..8], Separator))
      == [Token("$", Separator), Token("Hello", Word), Token(", ", Separator)]
  {
    assert input[1..6] == "Hello" && input[6..8] == ", ";
    WordSpan("Hello");
  }

  lemma DollarWorldCommit(input: string)
    requires input == "$Hello, World!"
    ensures Commit(CommitUpTo([Token("$", Separator), Token("Hello", Word), Token(", ", Separator)], input, 8, 13),
                   Token(input[13..14], Separator))
      == [Token("$", Separator), Token("Hello", Word), Token(", ", Separator), Token("World", Word), Token("!", Separator)]
  {
    assert input[8..13] == "World" && input[13..14] == "!";
    WordSpan("World");
  }

  lemma DollarRun(config: Config, input: string)
    requires input == "$Hello, World!" && NonEmptyAcronyms(config.acronyms)
    requires GetAcronym(input, config.acronyms, 0) == None
    ensures Tokenize(config, input) == Scan(config, input, Cursor(1, 1, [Token("$", Separator)]))
  {
    ScanSeparator(config, input, Cursor(0, 0, []), 1);
    DollarOpenCommit(input);
  }

  lemma DollarFirstWord(config: Config, input: string)
    requires input == "$Hello, World!" && NonEmptyAcronyms(config.acronyms)
    requires GetAcronym(input, config.acronyms, 1) == None
    ensures Scan(config, input, Cursor(1, 1, [Token("$", Separator)]))
      == Scan(config, input, Cursor(1, 6, [Token("$", Separator)]))
  {
    ScanWord(config, input, Cursor(1, 1, [Token("$", Separator)]), 6);
  }

  lemma DollarComma(config: Config, input: string)
    requires input == "$Hello, World!" && NonEmptyAcronyms(config.acronyms)
    requires GetAcronym(input, config.acronyms, 6) == None
    ensures Scan(config, input, Cursor(1, 6, [Token("$", Separator)]))
      == Scan(config, input, Cursor(8, 8, [Token("$", Separator), Token("Hello", Word), Token(", ", Separator)]))
  {
    ScanSeparator(config, input, Cursor(1, 6, [Token("$", Separator)]), 8);
    DollarHelloCommit(input);
  }

  lemma DollarSecondWord(config: Config, input: string)
    requires input == "$Hello, World!" && NonEmptyAcronyms(config.acronyms)
    requires GetAcronym(input, config.acronyms, 8) == None
    ensures Scan(config, input, Cursor(8, 8, [Token("$", Separator), Token("Hello", Word), Token(", ", Separator)]))
      == Scan(config, input, Cursor(8, 13, [Token("$", Separator), Token("Hello", Word), Token(", ", Separator)]))
  {
    ScanWord(config, input, Cursor(8, 8, [Token("$", Separator), Token("Hello", Word), Token(", ", Separator)]), 13);
  }

  lemma DollarBang(config: Config, input: string)
    requires input == "$Hello, World!" && NonEmptyAcronyms(config.acronyms)
    requires GetAcronym(input, config.acronyms, 13) == None
    ensures Scan(config, input, Cursor(8, 13, [Token("$", Separator), Token("Hello", Word), Token(", ", Separator)]))
      == [Token("$", Separator), Token("Hello", Word), Token(", ", Separator), Token("World", Word), Token("!", Separator)]
  {
    ScanSeparator(config, input, Cursor(8, 13, [Token("$", Separator), Token("Hello", Word), Token(", ", Separator)]), 14);
    DollarWorldCommit(input);
    ScanAtEnd(config, input, Cursor(14, 14,
      [Token("$", Separator), Token("Hello", Word), Token(", ", Separator), Token("World", Word), Token("!", Separator)]));
  }

  lemma DollarTrace(config: Config, input: string)
    requires input == "$Hello, World!" && NonEmptyAcronyms(config.acronyms)
    requires GetAcronym(input, config.acronyms, 0) == None
    requires GetAcronym(input, config.acronyms, 1) == None
    requires GetAcronym(input, config.acronyms, 6) == None
    requires GetAcronym(input, config.acronyms, 8) == None
    requires GetAcronym(input, config.acronyms, 13) == None
    ensures Tokenize(config, input)
      == [Token("$", Separator), Token("Hello", Word), Token(", ", Separator), Token("World", Word), Token("!", Separator)]
  {
    DollarRun(config, input);
    DollarFirstWord(config, input);
    DollarComma(config, input);
    DollarSecondWord(config, input);
    DollarBang(config, input);
  }

  lemma DollarFree(input: string)
    requires input == "$Hello, World!"
    ensures GetAcronym(input, Standard(), 0) == None
    ensures GetAcronym(input, Standard(), 1) == None
    ensures GetAcronym(input, Standard(), 6) == None
    ensures GetAcronym(input, Standard(), 8) == None
    ensures GetAcronym(input, Standard(), 13) == None
  {
    InitialFree(input, 0);
    InitialFree(input, 1);
    InitialFree(input, 6);
    InitialFree(input, 8);
    InitialFree(input, 13);
  }

  /** "$Hello, World!": a one-symbol separator, then as "Hello, World!". */
  lemma DollarTokens(input: string)
    requires input == "$Hello, World!"
    ensures Tokenize(Std, input)
      == [Token("$", Separator), Token("Hello", Word), Token(", ", Separator), Token("World", Word), Token("!", Separator)]
  {
    DollarFree(input);
    DollarTrace(Std, input);
  }

  /** A leading separator goes through the prefix predicate; the trailing one is dropped. */
  lemma DollarProcessed(p: ProgrammingCaseModifiers, m: ProgrammingCaseModifier, tokens: seq<Token>)
    requires p == Processor(m) && m.firstModifier == m.restModifier
    requires tokens
      == [Token("$", Separator), Token("Hello", Word), Token(", ", Separator), Token("World", Word), Token("!", Separator)]
    ensures ProcessTokens(p, tokens)
      == PrefixTokens(CollectPrefix([Token("$", Separator)], m.prefixPredicate))
        + [Token(Apply(m.firstModifier, "Hello"), Word), SeparatorAt(p, tokens[1..4], 1), Token(Apply(m.firstModifier, "World"), Word)]
  {
    assert FirstIndex(tokens, NonSeparator) == Some(1) by {
      assert !NonSeparator(tokens[0]);
      assert tokens[1..][0] == tokens[1];
    }
    assert tokens[..1] == [Token("$", Separator)];
    assert TrimTrailingSeparators(tokens[1..]) == tokens[1..4];
    var b := tokens[1..4];
    assert BodyFrom(p, b, 3, true) == [];
    assert BodyFrom(p, b, 2, true) == [Token(Apply(m.firstModifier, "World"), Word)];
    assert BodyFrom(p, b, 1, true) == [SeparatorAt(p, b, 1), Token(Apply(m.firstModifier, "World"), Word)];
    assert BodyFrom(p, b, 0, false)
      == [Token(Apply(m.firstModifier, "Hello"), Word), SeparatorAt(p, b, 1), Token(Apply(m.firstModifier, "World"), Word)];
  }

  lemma DollarPipeline(m: ProgrammingCaseModifier, input: string)
    requires input == "$Hello, World!" && m.reservedAcronyms == Standard()
    ensures Transform(m, input) == Concat(ProcessTokens(Processor(m),
      [Token("$", Separator), Token("Hello", Word), Token(", ", Separator), Token("World", Word), Token("!", Separator)]))
  {
    TransformWithStandard(m, input);
    DollarTokens(input);
  }

  /** What the processed tokens of "$Hello, World!" concatenate to. */
  lemma DollarJoined(m: ProgrammingCaseModifier, sep: string)
    requires m.mapSeparator == ConstantSeparator(sep) && m.firstModifier == m.restModifier
    ensures Concat(ProcessTokens(Processor(m),
      [Token("$", Separator), Token("Hello", Word), Token(", ", Separator), Token("World", Word), Token("!", Separator)]))
      == Filter("$", m.prefixPredicate) + Apply(m.firstModifier, "Hello") + sep + Apply(m.firstModifier, "World")
  {
    var tokens := [Token("$", Separator), Token("Hello", Word), Token(", ", Separator), Token("World", Word), Token("!", Separator)];
    DollarProcessed(Processor(m), m, tokens);
    PrefixedJoin(m.prefixPredicate, "$", ProcessTokens(Processor(m), tokens), Apply(m.firstModifier, "Hello"),
      SeparatorAt(Processor(m), tokens[1..4], 1), Apply(m.firstModifier, "World"));
    SeparatorConstant(m, sep, tokens[1..4], 1);
  }

  /** "$Hello, World!" becomes the allowed prefix characters, then the two words joined by the separator. */
  lemma DollarTransform(m: ProgrammingCaseModifier, sep: string, input: string)
    requires input == "$Hello, World!" && m.reservedAcronyms == Standard()
    requires m.mapSeparator == ConstantSeparator(sep) && m.firstModifier == m.restModifier
    ensures Transform(m, input)
      == Filter("$", m.prefixPredicate) + Apply(m.firstModifier, "Hello") + sep + Apply(m.firstModifier, "World")
  {
    DollarPipeline(m, input);
    DollarJoined(m, sep);
  }

  // ----- the cases as configured by the tests -----

  /** Lower-casing the example words. */
  lemma LowerWords()
    ensures Apply(Lower, "hello") == "hello"
    ensures Apply(Lower, "Hello") == "hello"
    ensures Apply(Lower, "World") == "world"
  {
    assert Apply(Lower, "Hello") == [ToLower('H')] + "ello";
    assert Apply(Lower, "World") == [ToLower('W')] + "orld";
  }

  /** `swiftDeclarations` keeps only the `$` of "<<<$"; `const(false)` drops the `$` of "$". */
  lemma ExamplePrefixes()
    ensures Filter("<<<$", SwiftDeclarations()) == "$"
    ensures Filter("$", Const(false)) == ""
  {
    assert Filter("$", SwiftDeclarations()) == "$";
    assert Filter("<$", SwiftDeclarations()) == "$";
    assert Filter("<<$", SwiftDeclarations()) == "$";
  }

  /** A separator case with the default token modifier and prefix predicate, whatever its separator. */
  ghost predicate DefaultShape(m: ProgrammingCaseModifier, sep: string) {
    && m.reservedAcronyms == Standard() && m.mapSeparator == ConstantSeparator(sep)
    && m.firstModifier == Lower && m.restModifier == Lower && m.prefixPredicate == SwiftDeclarations()
  }

  /** A separator case with the empty token modifier and the `const(false)` prefix predicate. */
  ghost predicate VerbatimShape(m: ProgrammingCaseModifier, sep: string) {
    && m.reservedAcronyms == Standard() && m.mapSeparator == ConstantSeparator(sep)
    && m.firstModifier == Empty && m.restModifier == Empty && m.prefixPredicate == Const(false)
  }

  /** The kept `$` of "<<<$" in front of the lower-cased words. */
  lemma SwiftPrefixKept(p: PrefixPredicate, sep: string)
    requires p == SwiftDeclarations()
    ensures Filter("<<<$", p) + "hello" + sep + "world" == "$hello" + sep + "world"
  {
    SwiftDollar(Filter("<<<$", p));
    DollarHello(sep);
  }

  lemma SwiftDollar(f: string)
    requires f == Filter("<<<$", SwiftDeclarations())
    ensures f == "$"
  {
    ExamplePrefixes();
  }

  lemma DollarHello(sep: string)
    ensures "$" + "hello" + sep + "world" == "$hello" + sep + "world"
  {
    assert "$" + "hello" == "$hello";
  }

  /** "<<<$helloWorld" lower-cases both words behind what the predicate keeps of "<<<$". */
  lemma DefaultPrefixedWords(m: ProgrammingCaseModifier, sep: string, input: string)
    requires input == "<<<$helloWorld" && DefaultShape(m, sep)
    ensures Transform(m, input) == Filter("<<<$", m.prefixPredicate) + "hello" + sep + "world"
  {
    PrefixTransform(m, sep, input);
    LowerWords();
  }

  /** "<<<$helloWorld" keeps its `$` and lower-cases both words. */
  lemma DefaultPrefixed(m: ProgrammingCaseModifier, sep: string, input: string)
    requires input == "<<<$helloWorld" && DefaultShape(m, sep)
    ensures Transform(m, input) == "$hello" + sep + "world"
  {
    DefaultPrefixedWords(m, sep, input);
    SwiftPrefixKept(m.prefixPredicate, sep);
  }

  /** "Hello, World!" drops its punctuation and lower-cases both words. */
  lemma DefaultHello(m: ProgrammingCaseModifier, sep: string, input: string)
    requires input == "Hello, World!" && DefaultShape(m, sep)
    ensures Transform(m, input) == "hello" + sep + "world"
  {
    HelloTransform(m, sep, input);
    LowerWords();
  }

  /** Without a token modifier, "Hello, World!" keeps the case of both words. */
  lemma VerbatimHello(m: ProgrammingCaseModifier, sep: string, input: string)
    requires input == "Hello, World!" && VerbatimShape(m, sep)
    ensures Transform(m, input) == "Hello" + sep + "World"
  {
    HelloTransform(m, sep, input);
  }

  /** `const(false)` drops the `$` in front of the words. */
  lemma ConstPrefixDropped(p: PrefixPredicate, sep: string)
    requires p == Const(false)
    ensures Filter("$", p) + "Hello" + sep + "World" == "Hello" + sep + "World"
  {
    ExamplePrefixes();
  }

  /** "$Hello, World!" keeps the case of both words behind what the predicate keeps of "$". */
  lemma VerbatimDollarWords(m: ProgrammingCaseModifier, sep: string, input: string)
    requires input == "$Hello, World!" && VerbatimShape(m, sep)
    ensures Transform(m, input) == Filter("$", m.prefixPredicate) + "Hello" + sep + "World"
  {
    DollarTransform(m, sep, input);
  }

  /** A predicate that allows nothing drops the leading `$` of "$Hello, World!". */
  lemma VerbatimDollar(m: ProgrammingCaseModifier, sep: string, input: string)
    requires input == "$Hello, World!" && VerbatimShape(m, sep)
    ensures Transform(m, input) == "Hello" + sep + "World"
  {
    VerbatimDollarWords(m, sep, input);
    ConstPrefixDropped(m.prefixPredicate, sep);
  }

  /** The expected outputs spelled out as joins of their parts. */
  lemma Spellings()
    ensures "$hello" + "_" + "world" == "$hello_world" && "hello" + "_" + "world" == "hello_world"
    ensures "$hello" + "-" + "world" == "$hello-world" && "hello" + "-" + "world" == "hello-world"
    ensures "$hello" + "." + "world" == "$hello.world" && "hello" + "." + "world" == "hello.world"
    ensures "Hello" + "_" + "World" == "Hello_World" && "Hello" + "-" + "World" == "Hello-World"
    ensures "Hello" + "." + "World" == "Hello.World"
  {
  }

  // ----- `.snake` on the inputs of its tests -----

  /** `.snake` and `.snake(tokenModifier: .empty, prefixPredicate: .const(false))`. */
  lemma SnakeShapes(m: ProgrammingCaseModifier, verbatim: ProgrammingCaseModifier)
    requires m == DefaultSnake() && verbatim == Snake(Empty, Standard(), Const(false))
    ensures DefaultShape(m, "_") && VerbatimShape(verbatim, "_")
  {
  }

  lemma SnakeEmpty(m: ProgrammingCaseModifier)
    requires m == DefaultSnake()
    ensures Transform(m, "") == ""
  {
    EmptyInput(m);
  }

  lemma SnakeLetter(m: ProgrammingCaseModifier)
    requires m == DefaultSnake()
    ensures Transform(m, "a") == "a"
  {
    SnakeShapes(m, Snake(Empty, Standard(), Const(false)));
    LetterTransform(m, "a");
  }

  lemma SnakePrefixed(m: ProgrammingCaseModifier)
    requires m == DefaultSnake()
    ensures Transform(m, "<<<$helloWorld") == "$hello_world"
  {
    SnakeShapes(m, Snake(Empty, Standard(), Const(false)));
    DefaultPrefixed(m, "_", "<<<$helloWorld");
    Spellings();
  }

  lemma SnakeHello(m: ProgrammingCaseModifier)
    requires m == DefaultSnake()
    ensures Transform(m, "Hello, World!") == "hello_world"
  {
    SnakeShapes(m, Snake(Empty, Standard(), Const(false)));
    DefaultHello(m, "_", "Hello, World!");
    Spellings();
  }

  lemma SnakeVerbatim(verbatim: ProgrammingCaseModifier)
    requires verbatim == Snake(Empty, Standard(), Const(false))
    ensures Transform(verbatim, "Hello, World!") == "Hello_World"
  {
    SnakeShapes(DefaultSnake(), verbatim);
    VerbatimHello(verbatim, "_", "Hello, World!");
    Spellings();
  }

  // ----- `.kebab` on the inputs of its tests -----

  /** `.kebab` and `.kebab(tokenModifier: .empty, prefixPredicate: .const(false))`. */
  lemma KebabShapes(m: ProgrammingCaseModifier, verbatim: ProgrammingCaseModifier)
    requires m == DefaultKebab() && verbatim == Kebab(Empty, Standard(), Const(false))
    ensures DefaultShape(m, "-") && VerbatimShape(verbatim, "-")
  {
  }

  lemma KebabEmpty(m: ProgrammingCaseModifier)
    requires m == DefaultKebab()
    ensures Transform(m, "") == ""
  {
    EmptyInput(m);
  }

  lemma KebabLetter(m: ProgrammingCaseModifier)
    requires m == DefaultKebab()
    ensures Transform(m, "a") == "a"
  {
    KebabShapes(m, Kebab(Empty, Standard(), Const(false)));
    LetterTransform(m, "a");
  }

  lemma KebabPrefixed(m: ProgrammingCaseModifier)
    requires m == DefaultKebab()
    ensures Transform(m, "<<<$helloWorld") == "$hello-world"
  {
    KebabShapes(m, Kebab(Empty, Standard(), Const(false)));
    DefaultPrefixed(m, "-", "<<<$helloWorld");
    Spellings();
  }

  lemma KebabHello(m: ProgrammingCaseModifier)
    requires m == DefaultKebab()
    ensures Transform(m, "Hello, World!") == "hello-world"
  {
    KebabShapes(m, Kebab(Empty, Standard(), Const(false)));
    DefaultHello(m, "-", "Hello, World!");
    Spellings();
  }

  lemma KebabVerbatim(verbatim: ProgrammingCaseModifier)
    requires verbatim == Kebab(Empty, Standard(), Const(false))
    ensures Transform(verbatim, "$Hello, World!") == "Hello-World"
  {
    KebabShapes(DefaultKebab(), verbatim);
    VerbatimDollar(verbatim, "-", "$Hello, World!");
    Spellings();
  }

  // ----- `.dot` on the inputs of its tests -----

  /** `.dot` and `.dot(tokenModifier: .empty, prefixPredicate: .const(false))`. */
  lemma DotShapes(m: ProgrammingCaseModifier, verbatim: ProgrammingCaseModifier)
    requires m == DefaultDot() && verbatim == Dot(Empty, Standard(), Const(false))
    ensures DefaultShape(m, ".") && VerbatimShape(verbatim, ".")
  {
  }

  lemma DotEmpty(m: ProgrammingCaseModifier)
    requires m == DefaultDot()
    ensures Transform(m, "") == ""
  {
    EmptyInput(m);
  }

  lemma DotLetter(m: ProgrammingCaseModifier)
    requires m == DefaultDot()
    ensures Transform(m, "a") == "a"
  {
    DotShapes(m, Dot(Empty, Standard(), Const(false)));
    LetterTransform(m, "a");
  }

  lemma DotPrefixed(m: ProgrammingCaseModifier)
    requires m == DefaultDot()
    ensures Transform(m, "<<<$helloWorld") == "$hello.world"
  {
    DotShapes(m, Dot(Empty, Standard(), Const(false)));
    DefaultPrefixed(m, ".", "<<<$helloWorld");
    Spellings();
  }

  lemma DotHello(m: ProgrammingCaseModifier)
    requires m == DefaultDot()
    ensures Transform(m, "Hello, World!") == "hello.world"
  {
    DotShapes(m, Dot(Empty, Standard(), Const(false)));
    DefaultHello(m, ".", "Hello, World!");
    Spellings();
  }

  lemma DotVerbatim(verbatim: ProgrammingCaseModifier)
    requires verbatim == Dot(Empty, Standard(), Const(false))
    ensures Transform(verbatim, "$Hello, World!") == "Hello.World"
  {
    DotShapes(DefaultDot(), verbatim);
    VerbatimDollar(verbatim, ".", "$Hello, World!");
    Spellings();
  }
}
