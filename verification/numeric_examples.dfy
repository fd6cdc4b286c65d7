/**
 * Camel and pascal case on two more inputs of the library's tests
 * (CamelCaseModifierTests.swift): "NumericSeparator.1.0", where the
 * numeric-boundary separator map turns each dot next to a digit into the
 * numeric separator and drops the empty separator between the two words, and
 * "UPPERCASE", one word whose casing depends on the mode alone.
 */
module NumericExamples {
  import opened Options
  import opened Characters
  import opened Casification
  import opened DefaultTokenizer
  import opened StandardAcronyms
  import opened Modifiers
  import opened ProgrammingCase
  import opened CamelCase
  import opened TokenizerTrace
  import opened TokenizerExamples
  import opened SequenceExt
  import CamelExamples
  import SeparatorExamples

  /** The tokens of "NumericSeparator.1.0". */
  function NumericTokens(): seq<Token> {
    [Token("Numeric", Word), Token("", Separator), Token("Separator", Word), Token(".", Separator),
     Token("1", Number), Token(".", Separator), Token("0", Number)]
  }

  // ----- tokenization of "NumericSeparator.1.0" -----

  lemma NumericFirstCommit(input: string)
    requires input == "NumericSeparator.1.0"
    ensures CommitUpTo([], input, 0, 7) == [Token("Numeric", Word)]
  {
    assert input[0..7] == "Numeric";
    WordSpan("Numeric");
  }

  lemma NumericSlices(input: string)
    requires input == "NumericSeparator.1.0"
    ensures input[7..16] == "Separator" && input[16..17] == "."
  {
    assert input == "Numeric" + "Separator" + "." + "1.0";
  }

  lemma NumericSecondCommit(input: string)
    requires input == "NumericSeparator.1.0"
    ensures Commit(CommitUpTo([Token("Numeric", Word)], input, 7, 16), Token(input[16..17], Separator))
      == [Token("Numeric", Word), Token("", Separator), Token("Separator", Word), Token(".", Separator)]
  {
    NumericSlices(input);
    WordSpan("Separator");
  }

  lemma NumericOneCommit(input: string)
    requires input == "NumericSeparator.1.0"
    ensures Commit(CommitUpTo([Token("Numeric", Word), Token("", Separator), Token("Separator", Word),
                               Token(".", Separator)], input, 17, 18), Token(input[18..19], Separator))
      == [Token("Numeric", Word), Token("", Separator), Token("Separator", Word), Token(".", Separator),
          Token("1", Number), Token(".", Separator)]
  {
    assert input[17..18] == "1" && input[18..19] == ".";
    DigitSpan('1');
  }

  lemma NumericZeroCommit(input: string)
    requires input == "NumericSeparator.1.0"
    ensures CommitUpTo([Token("Numeric", Word), Token("", Separator), Token("Separator", Word), Token(".", Separator),
                        Token("1", Number), Token(".", Separator)], input, 19, 20)
      == NumericTokens()
  {
    assert input[19..20] == "0";
    DigitSpan('0');
  }

  lemma NumericFirstWord(config: Config, input: string)
    requires input == "NumericSeparator.1.0" && NonEmptyAcronyms(config.acronyms)
    requires GetAcronym(input, config.acronyms, 0) == None
    ensures Tokenize(config, input) == Scan(config, input, Cursor(0, 6, []))
  {
    ScanWord(config, input, Cursor(0, 0, []), 6);
  }

  /** The lower-to-upper step "cS" ends the first word. */
  lemma NumericCaseChange(config: Config, input: string)
    requires input == "NumericSeparator.1.0" && NonEmptyAcronyms(config.acronyms)
    ensures Scan(config, input, Cursor(0, 6, [])) == Scan(config, input, Cursor(7, 7, [Token("Numeric", Word)]))
  {
    ScanTransition(config, input, Cursor(0, 6, []));
    NumericFirstCommit(input);
  }

  lemma NumericSecondWord(config: Config, input: string)
    requires input == "NumericSeparator.1.0" && NonEmptyAcronyms(config.acronyms)
    requires GetAcronym(input, config.acronyms, 7) == None
    ensures Scan(config, input, Cursor(7, 7, [Token("Numeric", Word)]))
      == Scan(config, input, Cursor(7, 16, [Token("Numeric", Word)]))
  {
    ScanWord(config, input, Cursor(7, 7, [Token("Numeric", Word)]), 16);
  }

  lemma NumericFirstDot(config: Config, input: string)
    requires input == "NumericSeparator.1.0" && NonEmptyAcronyms(config.acronyms)
    requires GetAcronym(input, config.acronyms, 16) == None
    ensures Scan(config, input, Cursor(7, 16, [Token("Numeric", Word)]))
      == Scan(config, input, Cursor(17, 17, [Token("Numeric", Word), Token("", Separator), Token("Separator", Word),
                                             Token(".", Separator)]))
  {
    ScanSeparator(config, input, Cursor(7, 16, [Token("Numeric", Word)]), 17);
    NumericSecondCommit(input);
  }

  lemma NumericOne(config: Config, input: string)
    requires input == "NumericSeparator.1.0" && NonEmptyAcronyms(config.acronyms)
    requires GetAcronym(input, config.acronyms, 17) == None
    requires GetAcronym(input, config.acronyms, 18) == None
    ensures Scan(config, input, Cursor(17, 17, [Token("Numeric", Word), Token("", Separator), Token("Separator", Word),
                                                Token(".", Separator)]))
      == Scan(config, input, Cursor(19, 19, [Token("Numeric", Word), Token("", Separator), Token("Separator", Word),
                                             Token(".", Separator), Token("1", Number), Token(".", Separator)]))
  {
    var tokens := [Token("Numeric", Word), Token("", Separator), Token("Separator", Word), Token(".", Separator)];
    ScanExtend(config, input, Cursor(17, 17, tokens));
    ScanSeparator(config, input, Cursor(17, 18, tokens), 19);
    NumericOneCommit(input);
  }

  lemma NumericZero(config: Config, input: string)
    requires input == "NumericSeparator.1.0" && NonEmptyAcronyms(config.acronyms)
    requires GetAcronym(input, config.acronyms, 19) == None
    ensures Scan(config, input, Cursor(19, 19, [Token("Numeric", Word), Token("", Separator), Token("Separator", Word),
                                                Token(".", Separator), Token("1", Number), Token(".", Separator)]))
      == NumericTokens()
  {
    var tokens := [Token("Numeric", Word), Token("", Separator), Token("Separator", Word), Token(".", Separator),
                   Token("1", Number), Token(".", Separator)];
    ScanExtend(config, input, Cursor(19, 19, tokens));
    ScanAtEnd(config, input, Cursor(19, 20, tokens));
    NumericZeroCommit(input);
  }

  lemma NumericTrace(config: Config, input: string)
    requires input == "NumericSeparator.1.0" && NonEmptyAcronyms(config.acronyms)
    requires GetAcronym(input, config.acronyms, 0) == None
    requires GetAcronym(input, config.acronyms, 7) == None
    requires GetAcronym(input, config.acronyms, 16) == None
    requires GetAcronym(input, config.acronyms, 17) == None
    requires GetAcronym(input, config.acronyms, 18) == None
    requires GetAcronym(input, config.acronyms, 19) == None
    ensures Tokenize(config, input) == NumericTokens()
  {
    NumericFirstWord(config, input);
    NumericCaseChange(config, input);
    NumericSecondWord(config, input);
    NumericFirstDot(config, input);
    NumericOne(config, input);
    NumericZero(config, input);
  }

  lemma NumericFree(input: string)
    requires input == "NumericSeparator.1.0"
    ensures GetAcronym(input, Standard(), 0) == None
    ensures GetAcronym(input, Standard(), 7) == None
    ensures GetAcronym(input, Standard(), 16) == None
    ensures GetAcronym(input, Standard(), 17) == None
    ensures GetAcronym(input, Standard(), 18) == None
    ensures GetAcronym(input, Standard(), 19) == None
  {
    DefaultFree(input, 0);
    DefaultFree(input, 7);
    InitialFree(input, 16);
    InitialFree(input, 17);
    InitialFree(input, 18);
    InitialFree(input, 19);
  }

  /** "NumericSeparator.1.0": two words, then two numbers each after a dot. */
  lemma NumericTokenize(input: string)
    requires input == "NumericSeparator.1.0"
    ensures Tokenize(Std, input) == NumericTokens()
  {
    NumericFree(input);
    NumericTrace(Std, input);
  }

  // ----- processing -----

  /** The separators of "NumericSeparator.1.0" mapped from their neighbours. */
  predicate DotsMapped(p: ProgrammingCaseModifiers, sep: string) {
    && p.mapSeparator("", Some("Numeric"), Some("Separator")) == ""
    && p.mapSeparator(".", Some("Separator"), Some("1")) == sep
    && p.mapSeparator(".", Some("1"), Some("0")) == sep
  }

  /** The three separators of "NumericSeparator.1.0", each mapped from its neighbours. */
  lemma NumericSeparators(p: ProgrammingCaseModifiers, sep: string, tokens: seq<Token>)
    requires tokens == NumericTokens() && DotsMapped(p, sep)
    ensures SeparatorAt(p, tokens, 1) == Token("", Separator)
    ensures SeparatorAt(p, tokens, 3) == Token(sep, Separator)
    ensures SeparatorAt(p, tokens, 5) == Token(sep, Separator)
  {
    assert SafeGet(tokens, 0).Map(ValueOf) == Some("Numeric");
    assert SafeGet(tokens, 2).Map(ValueOf) == Some("Separator");
    assert SafeGet(tokens, 4).Map(ValueOf) == Some("1");
    assert SafeGet(tokens, 6).Map(ValueOf) == Some("0");
  }

  /** From the second word on, every non-separator goes through the rest modifier. */
  lemma NumericTail(p: ProgrammingCaseModifiers, sep: string, tokens: seq<Token>)
    requires tokens == NumericTokens() && DotsMapped(p, sep)
    ensures BodyFrom(p, tokens, 2, true)
      == [Token(Apply(p.restModifier, "Separator"), Word), Token(sep, Separator),
          Token(Apply(p.restModifier, "1"), Number), Token(sep, Separator),
          Token(Apply(p.restModifier, "0"), Number)]
  {
    NumericSeparators(p, sep, tokens);
    var zero := Token(Apply(p.restModifier, "0"), Number);
    var one := Token(Apply(p.restModifier, "1"), Number);
    var dot := Token(sep, Separator);
    assert BodyFrom(p, tokens, 7, true) == [];
    assert BodyFrom(p, tokens, 6, true) == [zero];
    assert BodyFrom(p, tokens, 5, true) == [dot, zero];
    assert BodyFrom(p, tokens, 4, true) == [one, dot, zero];
    assert BodyFrom(p, tokens, 3, true) == [dot, one, dot, zero];
  }

  /** The input starts with a word and ends with a number: nothing is trimmed. */
  lemma NumericBody(tokens: seq<Token>)
    requires tokens == NumericTokens()
    ensures FirstIndex(tokens, NonSeparator) == Some(0)
    ensures tokens[0..] == tokens && tokens[..0] == []
    ensures TrimTrailingSeparators(tokens) == tokens
  {
  }

  /**
   * The first word goes through the first modifier; the second word and both
   * numbers, which follow it, through the rest modifier.
   */
  lemma NumericProcessed(p: ProgrammingCaseModifiers, sep: string, tokens: seq<Token>)
    requires tokens == NumericTokens() && DotsMapped(p, sep)
    ensures ProcessTokens(p, tokens)
      == [Token(Apply(p.firstModifier, "Numeric"), Word), Token("", Separator),
          Token(Apply(p.restModifier, "Separator"), Word), Token(sep, Separator),
          Token(Apply(p.restModifier, "1"), Number), Token(sep, Separator),
          Token(Apply(p.restModifier, "0"), Number)]
  {
    NumericBody(tokens);
    NumericSeparators(p, sep, tokens);
    NumericTail(p, sep, tokens);
    assert BodyFrom(p, tokens, 1, true) == [Token("", Separator)] + BodyFrom(p, tokens, 2, true);
  }

  lemma ConcatSeven(ts: seq<Token>, a: string, b: string, c: string, d: string, e: string, f: string, g: string)
    requires |ts| == 7 && ts[0].value == a && ts[1].value == b && ts[2].value == c && ts[3].value == d
    requires ts[4].value == e && ts[5].value == f && ts[6].value == g
    ensures Concat(ts) == a + b + c + d + e + f + g
  {
    assert ts[..1][..0] == [];
    assert Concat(ts[..1]) == a;
    assert ts[..2][..1] == ts[..1];
    assert Concat(ts[..2]) == a + b;
    assert ts[..3][..2] == ts[..2];
    assert Concat(ts[..3]) == a + b + c;
    assert ts[..4][..3] == ts[..3];
    assert Concat(ts[..4]) == a + b + c + d;
    assert ts[..5][..4] == ts[..4];
    assert Concat(ts[..5]) == a + b + c + d + e;
    assert ts[..6][..5] == ts[..5];
    assert Concat(ts[..6]) == a + b + c + d + e + f;
    assert ts[..6] == ts[..|ts| - 1];
  }

  /** What the processed tokens concatenate to. */
  lemma NumericJoined(p: ProgrammingCaseModifiers, sep: string)
    requires DotsMapped(p, sep)
    ensures Concat(ProcessTokens(p, NumericTokens()))
      == Apply(p.firstModifier, "Numeric") + "" + Apply(p.restModifier, "Separator") + sep
        + Apply(p.restModifier, "1") + sep + Apply(p.restModifier, "0")
  {
    var ts := ProcessTokens(p, NumericTokens());
    NumericProcessed(p, sep, NumericTokens());
    ConcatSeven(ts, Apply(p.firstModifier, "Numeric"), "", Apply(p.restModifier, "Separator"), sep,
      Apply(p.restModifier, "1"), sep, Apply(p.restModifier, "0"));
  }

  /** A dot next to a digit becomes the numeric separator; the empty separator between two words vanishes. */
  lemma CamelDots(c: CamelModifier)
    ensures DotsMapped(Processor(c), c.numericSeparator)
  {
  }

  lemma NumericCamelJoined(c: CamelModifier)
    ensures Concat(ProcessTokens(Processor(c), NumericTokens()))
      == FirstToken(c.config, "Numeric") + "" + RestToken(c.config.acronyms, "Separator") + c.numericSeparator
        + RestToken(c.config.acronyms, "1") + c.numericSeparator + RestToken(c.config.acronyms, "0")
  {
    var p := Processor(c);
    CamelDots(c);
    NumericSpelled(c, p, Concat(ProcessTokens(p, NumericTokens())));
  }

  /** The processor's modifiers are the camel first-token and rest-token modifiers. */
  lemma NumericSpelled(c: CamelModifier, p: ProgrammingCaseModifiers, t: string)
    requires p == Processor(c) && DotsMapped(p, c.numericSeparator)
    requires t == Concat(ProcessTokens(p, NumericTokens()))
    ensures t == FirstToken(c.config, "Numeric") + "" + RestToken(c.config.acronyms, "Separator") + c.numericSeparator
      + RestToken(c.config.acronyms, "1") + c.numericSeparator + RestToken(c.config.acronyms, "0")
  {
    NumericJoined(p, c.numericSeparator);
    assert Apply(p.firstModifier, "Numeric") == FirstToken(c.config, "Numeric");
    assert Apply(p.restModifier, "Separator") == RestToken(c.config.acronyms, "Separator");
    assert Apply(p.restModifier, "1") == RestToken(c.config.acronyms, "1");
    assert Apply(p.restModifier, "0") == RestToken(c.config.acronyms, "0");
  }

  lemma NumericPipeline(c: CamelModifier, input: string)
    requires |input| > 0 && !IsNumber(input[0]) && Tokenize(Std, input) == NumericTokens()
    requires c.config.acronyms.reservedValues == Standard()
    ensures Transform(c, input) == Concat(ProcessTokens(Processor(c), NumericTokens()))
  {
    CamelExamples.CamelPipeline(c, input);
  }

  lemma NumericStart(input: string)
    requires input == "NumericSeparator.1.0"
    ensures |input| > 0 && !IsNumber(input[0])
  {
  }

  /** Camel case over the default acronyms on "NumericSeparator.1.0", whatever the mode and policy. */
  lemma NumericCamel(c: CamelModifier, input: string)
    requires input == "NumericSeparator.1.0" && c.config.acronyms.reservedValues == Standard()
    ensures Transform(c, input)
      == FirstToken(c.config, "Numeric") + "" + RestToken(c.config.acronyms, "Separator") + c.numericSeparator
        + RestToken(c.config.acronyms, "1") + c.numericSeparator + RestToken(c.config.acronyms, "0")
  {
    NumericStart(input);
    NumericTokenize(input);
    NumericPipeline(c, input);
    NumericCamelJoined(c);
  }

  // ----- casing -----

  /** None of the words and numbers of the input is a default acronym. */
  lemma NumericUnreserved()
    ensures "Numeric" !in Standard() && "Separator" !in Standard() && "1" !in Standard() && "0" !in Standard()
    ensures "UPPERCASE" !in Standard()
  {
    NotDefault("Numeric");
    NotDefault("Separator");
    NotDefault("1");
    NotDefault("0");
    NotDefault("UPPERCASE");
  }

  lemma RestUnchanged(acronyms: AcronymsConfig)
    requires acronyms.reservedValues == Standard()
    ensures RestToken(acronyms, "Separator") == "Separator"
    ensures RestToken(acronyms, "1") == "1" && RestToken(acronyms, "0") == "0"
  {
    NumericUnreserved();
    SeparatorCapitalized();
    DigitsCapitalized();
  }

  lemma SeparatorCapitalized()
    ensures Capitalize("Separator") == "Separator"
  {
    ShapeFixed("Separator");
  }

  lemma DigitsCapitalized()
    ensures Capitalize("1") == "1" && Capitalize("0") == "0"
  {
    ShapeFixed("1");
    ShapeFixed("0");
  }

  /** Camel case lower-cases the first word; pascal and automatic mode (on a capital) capitalize it. */
  lemma NumericFirst(acronyms: AcronymsConfig)
    requires acronyms.reservedValues == Standard()
    ensures FirstToken(CamelCaseConfig(Camel, acronyms), "Numeric") == "numeric"
    ensures FirstToken(CamelCaseConfig(Pascal, acronyms), "Numeric") == "Numeric"
    ensures FirstToken(CamelCaseConfig(Automatic, acronyms), "Numeric") == "Numeric"
  {
    NumericUnreserved();
    NumericLowered();
    NumericCapitalized();
  }

  lemma NumericLowered()
    ensures Apply(Lower, "Numeric") == "numeric"
  {
    assert Apply(Lower, "Numeric") == [ToLower('N')] + "umeric";
  }

  lemma NumericCapitalized()
    ensures Capitalize("Numeric") == "Numeric"
  {
    ShapeFixed("Numeric");
  }

  /** The rest tokens and the first token, as each mode spells them. */
  lemma NumericParts(config: CamelCaseConfig, t: string)
    requires config.acronyms.reservedValues == Standard()
    requires t == FirstToken(config, "Numeric") + "" + RestToken(config.acronyms, "Separator") + "_"
      + RestToken(config.acronyms, "1") + "_" + RestToken(config.acronyms, "0")
    ensures t == FirstToken(config, "Numeric") + "Separator" + "_" + "1" + "_" + "0"
  {
    RestUnchanged(config.acronyms);
  }

  lemma NumericLower(t: string)
    requires t == "numeric" + "Separator" + "_" + "1" + "_" + "0"
    ensures t == "numericSeparator_1_0"
  {
  }

  lemma NumericCapital(t: string)
    requires t == "Numeric" + "Separator" + "_" + "1" + "_" + "0"
    ensures t == "NumericSeparator_1_0"
  {
  }

  /** A modifier over the default acronyms with `_` as the numeric separator. */
  ghost predicate Underscored(c: CamelModifier) {
    c.config.acronyms.reservedValues == Standard() && c.numericSeparator == "_"
  }

  lemma NumericUnderscored(c: CamelModifier, input: string)
    requires Underscored(c) && input == "NumericSeparator.1.0"
    ensures Transform(c, input) == FirstToken(c.config, "Numeric") + "Separator" + "_" + "1" + "_" + "0"
  {
    NumericCamel(c, input);
    NumericParts(c.config, Transform(c, input));
  }

  // ----- "UPPERCASE" -----

  lemma UppercaseTokenize(input: string)
    requires input == "UPPERCASE"
    ensures Tokenize(Std, input) == [Token("UPPERCASE", Word)]
  {
    DefaultFree(input, 0);
    assert IsLetter(input[0]) && !IsTransition(input[0], input[1]);
    assert forall k :: 0 < k < |input| ==> Extends(input, k);
    SingleWord(Std, input);
  }

  /** One word is the first token, and nothing else is left. */
  lemma OneWordProcessed(p: ProgrammingCaseModifiers, w: string)
    ensures ProcessTokens(p, [Token(w, Word)]) == [Token(Apply(p.firstModifier, w), Word)]
  {
    var tokens := [Token(w, Word)];
    assert FirstIndex(tokens, NonSeparator) == Some(0);
    assert tokens[0..] == tokens && tokens[..0] == [];
    assert TrimTrailingSeparators(tokens) == tokens;
    assert BodyFrom(p, tokens, 1, true) == [];
  }

  lemma UppercasePipeline(c: CamelModifier, input: string)
    requires |input| > 0 && !IsNumber(input[0]) && Tokenize(Std, input) == [Token("UPPERCASE", Word)]
    requires c.config.acronyms.reservedValues == Standard()
    ensures Transform(c, input) == Concat(ProcessTokens(Processor(c), [Token("UPPERCASE", Word)]))
  {
    CamelExamples.CamelPipeline(c, input);
  }

  lemma UppercaseJoined(c: CamelModifier)
    ensures Concat(ProcessTokens(Processor(c), [Token("UPPERCASE", Word)])) == FirstToken(c.config, "UPPERCASE")
  {
    OneWordProcessed(Processor(c), "UPPERCASE");
    var ts := [Token(FirstToken(c.config, "UPPERCASE"), Word)];
    assert ts[..0] == [];
  }

  /** Camel case over the default acronyms on "UPPERCASE": the first-token modifier alone. */
  lemma UppercaseCamel(c: CamelModifier, input: string)
    requires input == "UPPERCASE" && c.config.acronyms.reservedValues == Standard()
    ensures Transform(c, input) == FirstToken(c.config, "UPPERCASE")
  {
    assert |input| > 0 && !IsNumber(input[0]);
    UppercaseTokenize(input);
    UppercasePipeline(c, input);
    UppercaseJoined(c);
  }

  /** Camel case lower-cases the word; pascal case, and automatic mode on its capital, capitalize it. */
  lemma UppercaseFirst(acronyms: AcronymsConfig)
    requires acronyms.reservedValues == Standard()
    ensures FirstToken(CamelCaseConfig(Camel, acronyms), "UPPERCASE") == "uppercase"
    ensures FirstToken(CamelCaseConfig(Pascal, acronyms), "UPPERCASE") == "Uppercase"
    ensures FirstToken(CamelCaseConfig(Automatic, acronyms), "UPPERCASE") == "Uppercase"
  {
    NumericUnreserved();
    UppercaseCapitalized();
  }

  lemma UppercaseCapitalized()
    ensures Apply(Lower, "UPPERCASE") == "uppercase"
    ensures Capitalize("UPPERCASE") == "Uppercase"
  {
    var lower := Apply(Lower, "UPPERCASE");
    assert lower == "uppercase";
    assert Apply(UpperFirst, lower) == "U" + lower[1..];
  }

  // ----- "1Numbered" -----

  /** "_1Numbered", the digit-led input with the numeric separator in front, as tokens. */
  function LeadingTokens(): seq<Token> {
    [Token("_", Separator), Token("1", Number), Token("", Separator), Token("Numbered", Word)]
  }

  lemma LeadingCommits(input: string)
    requires input == "_1Numbered"
    ensures Commit(CommitUpTo([], input, 0, 0), Token(input[0..1], Separator)) == [Token("_", Separator)]
    ensures CommitUpTo([Token("_", Separator)], input, 1, 2) == [Token("_", Separator), Token("1", Number)]
    ensures CommitUpTo([Token("_", Separator), Token("1", Number)], input, 2, 10) == LeadingTokens()
  {
    assert input[0..1] == "_" && input[1..2] == "1" && input[2..10] == "Numbered";
    DigitSpan('1');
    WordSpan("Numbered");
  }

  lemma LeadingSeparator(config: Config, input: string)
    requires input == "_1Numbered" && NonEmptyAcronyms(config.acronyms)
    requires GetAcronym(input, config.acronyms, 0) == None
    ensures Tokenize(config, input) == Scan(config, input, Cursor(1, 1, [Token("_", Separator)]))
  {
    ScanSeparator(config, input, Cursor(0, 0, []), 1);
    LeadingCommits(input);
  }

  /** The digit is followed by a letter: it is a number token of its own. */
  lemma LeadingNumber(config: Config, input: string)
    requires input == "_1Numbered" && NonEmptyAcronyms(config.acronyms)
    requires GetAcronym(input, config.acronyms, 1) == None
    ensures Scan(config, input, Cursor(1, 1, [Token("_", Separator)]))
      == Scan(config, input, Cursor(2, 2, [Token("_", Separator), Token("1", Number)]))
  {
    ScanTransition(config, input, Cursor(1, 1, [Token("_", Separator)]));
    LeadingCommits(input);
  }

  lemma LeadingWord(config: Config, input: string)
    requires input == "_1Numbered" && NonEmptyAcronyms(config.acronyms)
    requires GetAcronym(input, config.acronyms, 2) == None
    ensures Scan(config, input, Cursor(2, 2, [Token("_", Separator), Token("1", Number)]))
      == Scan(config, input, Cursor(2, 10, [Token("_", Separator), Token("1", Number)]))
  {
    assert forall k :: 2 < k < 10 ==> Extends(input, k);
    ScanWord(config, input, Cursor(2, 2, [Token("_", Separator), Token("1", Number)]), 10);
  }

  lemma LeadingEnd(config: Config, input: string)
    requires input == "_1Numbered" && NonEmptyAcronyms(config.acronyms)
    ensures Scan(config, input, Cursor(2, 10, [Token("_", Separator), Token("1", Number)])) == LeadingTokens()
  {
    ScanAtEnd(config, input, Cursor(2, 10, [Token("_", Separator), Token("1", Number)]));
    LeadingCommits(input);
  }

  lemma LeadingTrace(config: Config, input: string)
    requires input == "_1Numbered" && NonEmptyAcronyms(config.acronyms)
    requires GetAcronym(input, config.acronyms, 0) == None
    requires GetAcronym(input, config.acronyms, 1) == None
    requires GetAcronym(input, config.acronyms, 2) == None
    ensures Tokenize(config, input) == LeadingTokens()
  {
    LeadingSeparator(config, input);
    LeadingNumber(config, input);
    LeadingWord(config, input);
    LeadingEnd(config, input);
  }

  /** No default acronym starts at `_` or `1`, nor at `N` followed by `u`. */
  lemma LeadingFree(input: string)
    requires input == "_1Numbered"
    ensures GetAcronym(input, Standard(), 0) == None
    ensures GetAcronym(input, Standard(), 1) == None
    ensures GetAcronym(input, Standard(), 2) == None
  {
    InitialFree(input, 0);
    InitialFree(input, 1);
    DefaultFree(input, 2);
  }

  /** "_1Numbered": the separator, the number, an empty separator at the digit-letter change, the word. */
  lemma LeadingTokenize(input: string)
    requires input == "_1Numbered"
    ensures Tokenize(Std, input) == LeadingTokens()
  {
    LeadingFree(input);
    LeadingTrace(Std, input);
  }

  /** The token after the leading separator is a number and the last is a word: nothing is trimmed. */
  lemma LeadingShape(tokens: seq<Token>)
    requires tokens == LeadingTokens()
    ensures FirstIndex(tokens, NonSeparator) == Some(1)
    ensures tokens[..1] == [Token("_", Separator)]
    ensures tokens[1..] == [Token("1", Number), Token("", Separator), Token("Numbered", Word)]
    ensures TrimTrailingSeparators(tokens[1..]) == tokens[1..]
  {
    assert !NonSeparator(tokens[0]);
    assert tokens[1..][0] == tokens[1];
  }

  /** The number, before any word, goes through the numeric modifier; the word is the first token. */
  lemma LeadingBody(p: ProgrammingCaseModifiers, sep: string, body: seq<Token>)
    requires body == [Token("1", Number), Token("", Separator), Token("Numbered", Word)]
    requires p.mapSeparator("", Some("1"), Some("Numbered")) == sep
    ensures BodyFrom(p, body, 0, false)
      == [Token(Apply(p.numericModifier, "1"), Number), Token(sep, Separator), Token(Apply(p.firstModifier, "Numbered"), Word)]
  {
    assert SafeGet(body, 0).Map(ValueOf) == Some("1");
    assert SafeGet(body, 2).Map(ValueOf) == Some("Numbered");
    assert BodyFrom(p, body, 3, true) == [];
    assert BodyFrom(p, body, 2, false) == [Token(Apply(p.firstModifier, "Numbered"), Word)];
    assert BodyFrom(p, body, 1, false) == [Token(sep, Separator), Token(Apply(p.firstModifier, "Numbered"), Word)];
  }

  /** The leading `_` is the prefix, kept or dropped by the prefix predicate, in front of the body. */
  lemma LeadingProcessed(p: ProgrammingCaseModifiers, sep: string, tokens: seq<Token>)
    requires tokens == LeadingTokens() && p.mapSeparator("", Some("1"), Some("Numbered")) == sep
    ensures ProcessTokens(p, tokens)
      == PrefixTokens(CollectPrefix([Token("_", Separator)], p.prefixPredicate))
        + [Token(Apply(p.numericModifier, "1"), Number), Token(sep, Separator), Token(Apply(p.firstModifier, "Numbered"), Word)]
  {
    LeadingShape(tokens);
    LeadingBody(p, sep, tokens[1..]);
  }

  /** Swift declarations keep a leading `_`. */
  lemma UnderscoreKept()
    ensures CollectPrefix([Token("_", Separator)], SwiftDeclarations()) == "_"
  {
    assert [Token("_", Separator)][..0] == [];
    PrefixPredicateAnswers(false, SwiftDeclarations(), '_');
    assert Filter("_", SwiftDeclarations()) == "_";
  }

  /** Under a camel modifier: the `_` prefix, the untouched digit, the numeric separator, the first token. */
  lemma LeadingCamelTokens(c: CamelModifier, p: ProgrammingCaseModifiers, ts: seq<Token>)
    requires p == Processor(c) && c.prefixPredicate == SwiftDeclarations()
    requires ts == ProcessTokens(p, LeadingTokens())
    ensures ts == PrefixTokens("_")
      + [Token("1", Number), Token(c.numericSeparator, Separator), Token(FirstToken(c.config, "Numbered"), Word)]
  {
    assert p.mapSeparator("", Some("1"), Some("Numbered")) == c.numericSeparator;
    LeadingProcessed(p, c.numericSeparator, LeadingTokens());
    UnderscoreKept();
  }

  lemma LeadingJoined(ts: seq<Token>, sep: string, w: string)
    requires ts == PrefixTokens("_") + [Token("1", Number), Token(sep, Separator), Token(w, Word)]
    ensures Concat(ts) == "_" + "1" + sep + w
  {
    var body := [Token("1", Number), Token(sep, Separator), Token(w, Word)];
    SeparatorExamples.ConcatAfterPrefix("_", body);
    SeparatorExamples.ConcatThree(body[0], body[1], body[2]);
  }

  /**
   * An input that starts with a digit gets the numeric separator in front
   * before it is tokenized, so "1Numbered" is processed as "_1Numbered".
   */
  lemma LeadingPrefixed(c: CamelModifier, input: string)
    requires c.numericSeparator == "_" && input == "1Numbered"
    ensures TokenizableInput(c, input) == "_1Numbered"
  {
    assert IsNumber(input[0]);
  }

  lemma LeadingPipeline(c: CamelModifier, input: string, padded: string)
    requires c.config.acronyms.reservedValues == Standard()
    requires TokenizableInput(c, input) == padded && Tokenize(Std, padded) == LeadingTokens()
    ensures Transform(c, input) == Concat(ProcessTokens(Processor(c), LeadingTokens()))
  {
    CamelExamples.CamelInner(c, padded);
  }

  lemma LeadingSpelled(c: CamelModifier, t: string)
    requires c.prefixPredicate == SwiftDeclarations() && c.numericSeparator == "_"
    requires t == Concat(ProcessTokens(Processor(c), LeadingTokens()))
    ensures t == "_" + "1" + "_" + FirstToken(c.config, "Numbered")
  {
    var ts := ProcessTokens(Processor(c), LeadingTokens());
    LeadingCamelTokens(c, Processor(c), ts);
    LeadingJoined(ts, "_", FirstToken(c.config, "Numbered"));
  }

  lemma LeadingUnderscored(c: CamelModifier, input: string)
    requires Underscored(c) && c.prefixPredicate == SwiftDeclarations() && input == "1Numbered"
    ensures Transform(c, input) == "_" + "1" + "_" + FirstToken(c.config, "Numbered")
  {
    LeadingPrefixed(c, input);
    LeadingTokenize("_1Numbered");
    LeadingPipeline(c, input, "_1Numbered");
    LeadingSpelled(c, Transform(c, input));
  }

  lemma LeadingLower(t: string)
    requires t == "_" + "1" + "_" + "numbered"
    ensures t == "_1_numbered"
  {
  }

  lemma LeadingCapital(t: string)
    requires t == "_" + "1" + "_" + "Numbered"
    ensures t == "_1_Numbered"
  {
  }

  /** Camel case lower-cases "Numbered"; pascal case and automatic mode (on its capital) keep it. */
  lemma NumberedFirst(acronyms: AcronymsConfig)
    requires acronyms.reservedValues == Standard()
    ensures FirstToken(CamelCaseConfig(Camel, acronyms), "Numbered") == "numbered"
    ensures FirstToken(CamelCaseConfig(Pascal, acronyms), "Numbered") == "Numbered"
    ensures FirstToken(CamelCaseConfig(Automatic, acronyms), "Numbered") == "Numbered"
  {
    NotDefault("Numbered");
    NumberedLowered();
    NumberedCapitalized();
  }

  lemma NumberedLowered()
    ensures Apply(Lower, "Numbered") == "numbered"
  {
    assert Apply(Lower, "Numbered") == [ToLower('N')] + "umbered";
  }

  lemma NumberedCapitalized()
    ensures Capitalize("Numbered") == "Numbered"
  {
    ShapeFixed("Numbered");
  }

  // ----- the tests -----

  /** "NumericSeparator.1.0" in automatic mode: the capital first word is kept. */
  lemma AutomaticNumeric(c: CamelModifier, input: string)
    requires c == AutomaticDefault() && input == "NumericSeparator.1.0"
    ensures Transform(c, input) == "NumericSeparator_1_0"
  {
    NumericUnderscored(c, input);
    NumericFirst(c.config.acronyms);
    NumericCapital(Transform(c, input));
  }

  /** "NumericSeparator.1.0" in camel case: each dot before a digit becomes `_`. */
  lemma CamelNumeric(c: CamelModifier, input: string)
    requires c == CamelDefault() && input == "NumericSeparator.1.0"
    ensures Transform(c, input) == "numericSeparator_1_0"
  {
    NumericUnderscored(c, input);
    NumericFirst(c.config.acronyms);
    NumericLower(Transform(c, input));
  }

  /** "NumericSeparator.1.0" in pascal case. */
  lemma PascalNumeric(c: CamelModifier, input: string)
    requires c == PascalDefault() && input == "NumericSeparator.1.0"
    ensures Transform(c, input) == "NumericSeparator_1_0"
  {
    NumericUnderscored(c, input);
    NumericFirst(c.config.acronyms);
    NumericCapital(Transform(c, input));
  }

  /** "UPPERCASE" in automatic mode: a capital start selects pascal rules. */
  lemma AutomaticUppercase(c: CamelModifier, input: string)
    requires c == AutomaticDefault() && input == "UPPERCASE"
    ensures Transform(c, input) == "Uppercase"
  {
    UppercaseCamel(c, input);
    UppercaseFirst(c.config.acronyms);
  }

  lemma CamelUppercase(c: CamelModifier, input: string)
    requires c == CamelDefault() && input == "UPPERCASE"
    ensures Transform(c, input) == "uppercase"
  {
    UppercaseCamel(c, input);
    UppercaseFirst(c.config.acronyms);
  }

  lemma PascalUppercase(c: CamelModifier, input: string)
    requires c == PascalDefault() && input == "UPPERCASE"
    ensures Transform(c, input) == "Uppercase"
  {
    UppercaseCamel(c, input);
    UppercaseFirst(c.config.acronyms);
  }

  /** "1Numbered" in camel case: `_` before the leading digit and `_` after it. */
  lemma CamelLeadingDigit(c: CamelModifier, input: string)
    requires c == CamelDefault() && input == "1Numbered"
    ensures Transform(c, input) == "_1_numbered"
  {
    LeadingUnderscored(c, input);
    NumberedFirst(c.config.acronyms);
    LeadingLower(Transform(c, input));
  }

  lemma PascalLeadingDigit(c: CamelModifier, input: string)
    requires c == PascalDefault() && input == "1Numbered"
    ensures Transform(c, input) == "_1_Numbered"
  {
    LeadingUnderscored(c, input);
    NumberedFirst(c.config.acronyms);
    LeadingCapital(Transform(c, input));
  }

  /** Automatic mode decides on the first word's capital, not on the digit before it. */
  lemma AutomaticLeadingDigit(c: CamelModifier, input: string)
    requires c == AutomaticDefault() && input == "1Numbered"
    ensures Transform(c, input) == "_1_Numbered"
  {
    LeadingUnderscored(c, input);
    NumberedFirst(c.config.acronyms);
    LeadingCapital(Transform(c, input));
  }

  /**
   * "1Numbered": the leading digit takes the numeric separator in front, and
   * the separator between the digit and the word becomes `_` as well.
   */
  lemma LeadingDigit(camel: CamelModifier, pascal: CamelModifier, automatic: CamelModifier, input: string)
    requires camel == CamelDefault() && pascal == PascalDefault() && automatic == AutomaticDefault()
    requires input == "1Numbered"
    ensures Transform(camel, input) == "_1_numbered"
    ensures Transform(pascal, input) == "_1_Numbered"
    ensures Transform(automatic, input) == "_1_Numbered"
  {
    CamelLeadingDigit(camel, input);
    PascalLeadingDigit(pascal, input);
    AutomaticLeadingDigit(automatic, input);
  }
}
