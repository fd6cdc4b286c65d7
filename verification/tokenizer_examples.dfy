/**
 * Runs of the default tokenizer on inputs from the library's test suite
 * (TokenizationTests.swift, WithAcronymsTests.swift), traced step by step
 * with the lemmas of `TokenizerTrace`.
 *
 * Each trace holds for every acronym configuration that answers
 * `getAcronym(at:)` as stated at the positions where a token starts; the
 * example then shows that the configuration of the test answers so. A trace
 * takes its input as a parameter equal to the literal, so that the verifier
 * follows the steps given instead of evaluating the whole scan, and each
 * stage of it is a lemma of its own.
 */
module TokenizerExamples {
  import opened Options
  import opened Characters
  import opened Casification
  import opened DefaultTokenizer
  import opened AcronymOrder
  import opened StandardAcronyms
  import opened TokenizerTrace

  /** The tokenizer configuration of the default acronyms. */
  const Std := Config(Standard())

  // ----- "UUIDString" -----

  lemma UuidStringWord(config: Config, input: string)
    requires input == "UUIDString" && NonEmptyAcronyms(config.acronyms)
    requires GetAcronym(input, config.acronyms, 4) == None
    ensures Scan(config, input, Cursor(4, 4, [Token("UUID", Acronym)]))
      == Scan(config, input, Cursor(4, 10, [Token("UUID", Acronym)]))
  {
    ScanWord(config, input, Cursor(4, 4, [Token("UUID", Acronym)]), 10);
  }

  lemma UuidStringEnd(config: Config, input: string)
    requires input == "UUIDString" && NonEmptyAcronyms(config.acronyms)
    ensures Scan(config, input, Cursor(4, 10, [Token("UUID", Acronym)]))
      == [Token("UUID", Acronym), Token("", Separator), Token("String", Word)]
  {
    assert input[4..10] == "String";
    WordSpan("String");
  }

  lemma UuidStringTrace(config: Config, input: string)
    requires input == "UUIDString" && NonEmptyAcronyms(config.acronyms)
    requires GetAcronym(input, config.acronyms, 0) == Some("UUID")
    requires GetAcronym(input, config.acronyms, 4) == None
    ensures Tokenize(config, input) == [Token("UUID", Acronym), Token("", Separator), Token("String", Word)]
  {
    LeadingAcronym(config, input, "UUID");
    UuidStringWord(config, input);
    UuidStringEnd(config, input);
  }

  /** "UUID" is a default acronym. */
  lemma UuidDefault()
    ensures "UUID" in Standard() && ShortSorted(Standard())
  {
  }

  /** No default acronym starts at an 'S' followed by 't' or 'T', as after "UUID" in "UUIDString" and "UUIDSTRING". */
  lemma StringFree(input: string, i: nat)
    requires i + 1 < |input| && input[i] == 'S' && (input[i + 1] == 't' || input[i + 1] == 'T')
    ensures GetAcronym(input, Standard(), i) == None
  {
    DefaultFree(input, i);
  }

  lemma UuidStringLookup(input: string)
    requires input == "UUIDString"
    ensures GetAcronym(input, Standard(), 0) == Some("UUID")
  {
    UuidDefault();
    assert input[0..4] == "UUID" && input[4] == 'S' && input[5] == 't';
    assert Accepts(input, Standard(), 0, "UUID");
    LookupFour(input, Standard(), 0, "UUID");
  }

  /** "UUIDString": the acronym is accepted before an upper-then-lower pair. */
  lemma UuidString()
    ensures Tokenize(Std, "UUIDString") == [Token("UUID", Acronym), Token("", Separator), Token("String", Word)]
  {
    UuidStringLookup("UUIDString");
    StringFree("UUIDString", 4);
    UuidStringTrace(Std, "UUIDString");
  }

  // ----- Single words -----

  lemma SingleWordRun(config: Config, input: string)
    requires |input| > 0 && NonEmptyAcronyms(config.acronyms)
    requires GetAcronym(input, config.acronyms, 0) == None
    requires IsAlphanumeric(input[0]) && !(1 < |input| && IsTransition(input[0], input[1]))
    requires forall k :: 0 < k < |input| ==> Extends(input, k)
    ensures Tokenize(config, input) == Scan(config, input, Cursor(0, |input|, []))
  {
    ScanWord(config, input, Cursor(0, 0, []), |input|);
  }

  /**
   * A string that no acronym starts, whose every later character continues
   * the span before it, is one word.
   */
  lemma SingleWord(config: Config, input: string)
    requires |input| > 0 && NonEmptyAcronyms(config.acronyms)
    requires GetAcronym(input, config.acronyms, 0) == None
    requires IsLetter(input[0]) && !(1 < |input| && IsTransition(input[0], input[1]))
    requires forall k :: 0 < k < |input| ==> Extends(input, k)
    ensures Tokenize(config, input) == [Token(input, Word)]
  {
    SingleWordRun(config, input);
    assert input[0..|input|] == input;
    WordSpan(input);
  }

  /** "UUID" followed by capitals that start no acronym is not accepted. */
  lemma UuidUpperAt0(acronyms: seq<string>, input: string)
    requires input == "UUIDSTRING" && ShortSorted(acronyms)
    requires "UUI" !in acronyms && "UU" !in acronyms
    requires GetAcronym(input, acronyms, 4) == None
    ensures GetAcronym(input, acronyms, 0) == None
  {
    assert !Accepts(input, acronyms, 0, "UUID");
    assert input[0..3] == "UUI" && input[0..2] == "UU";
    LookupNone(input, acronyms, 0);
  }

  /** "UUI" and "UU" are not default acronyms. */
  lemma UuidPrefixesNotDefault()
    ensures "UUI" !in Standard() && "UU" !in Standard()
  {
    NotDefault("UUI");
    NotDefault("UU");
  }

  lemma UuidUpperLookup(input: string)
    requires input == "UUIDSTRING"
    ensures GetAcronym(input, Standard(), 0) == None
  {
    UuidDefault();
    StringFree(input, 4);
    UuidPrefixesNotDefault();
    UuidUpperAt0(Standard(), input);
  }

  lemma UuidUpperShape(input: string)
    requires input == "UUIDSTRING"
    ensures IsLetter(input[0]) && !IsTransition(input[0], input[1])
    ensures forall k :: 0 < k < |input| ==> Extends(input, k)
  {
  }

  /** "UUIDSTRING": an acronym glued to further capitals is not split off; the whole is one word. */
  lemma UuidUpper()
    ensures Tokenize(Std, "UUIDSTRING") == [Token("UUIDSTRING", Word)]
  {
    UuidUpperLookup("UUIDSTRING");
    UuidUpperShape("UUIDSTRING");
    SingleWord(Std, "UUIDSTRING");
  }

  lemma HiddenUuidShape(input: string)
    requires input == "hasuuidacronym"
    ensures IsLetter(input[0]) && !IsTransition(input[0], input[1])
    ensures forall k :: 0 < k < |input| ==> Extends(input, k)
  {
  }

  /** "hasuuidacronym": an acronym inside a lowercase word is not detected. */
  lemma HiddenUuid()
    ensures Tokenize(Std, "hasuuidacronym") == [Token("hasuuidacronym", Word)]
  {
    InitialFree("hasuuidacronym", 0);
    HiddenUuidShape("hasuuidacronym");
    SingleWord(Std, "hasuuidacronym");
  }

  lemma MidlaneShapes(a: string, b: string, c: string, d: string)
    requires a == "Midlane" && b == "MIDlane" && c == "MIDLane" && d == "MIDLANE"
    ensures IsLetter(a[0]) && !IsTransition(a[0], a[1]) && forall k :: 0 < k < |a| ==> Extends(a, k)
    ensures IsLetter(b[0]) && !IsTransition(b[0], b[1]) && forall k :: 0 < k < |b| ==> Extends(b, k)
    ensures IsLetter(c[0]) && !IsTransition(c[0], c[1]) && forall k :: 0 < k < |c| ==> Extends(c, k)
    ensures IsLetter(d[0]) && !IsTransition(d[0], d[1]) && forall k :: 0 < k < |d| ==> Extends(d, k)
  {
  }

  /**
   * "Midlane", "MIDlane", "MIDLane" and "MIDLANE": capitals that open the word, however
   * many, start no acronym and split nothing off; each is one word.
   */
  lemma Midlane()
    ensures Tokenize(Std, "Midlane") == [Token("Midlane", Word)]
    ensures Tokenize(Std, "MIDlane") == [Token("MIDlane", Word)]
    ensures Tokenize(Std, "MIDLane") == [Token("MIDLane", Word)]
    ensures Tokenize(Std, "MIDLANE") == [Token("MIDLANE", Word)]
  {
    MidlaneShapes("Midlane", "MIDlane", "MIDLane", "MIDLANE");
    InitialFree("Midlane", 0);
    InitialFree("MIDlane", 0);
    InitialFree("MIDLane", 0);
    InitialFree("MIDLANE", 0);
    SingleWord(Std, "Midlane");
    SingleWord(Std, "MIDlane");
    SingleWord(Std, "MIDLane");
    SingleWord(Std, "MIDLANE");
  }

  // ----- "hasUUIDacronym" -----

  lemma HasUuidFirstWord(config: Config, input: string)
    requires input == "hasUUIDacronym" && NonEmptyAcronyms(config.acronyms)
    requires GetAcronym(input, config.acronyms, 0) == None
    ensures Tokenize(config, input) == Scan(config, input, Cursor(0, 2, []))
  {
    ScanWord(config, input, Cursor(0, 0, []), 2);
  }

  lemma HasUuidCommits(input: string)
    requires input == "hasUUIDacronym"
    ensures CommitUpTo([], input, 0, 3) == [Token("has", Word)]
    ensures Commit(CommitUpTo([Token("has", Word)], input, 3, 3), Token("UUID", Acronym))
      == [Token("has", Word), Token("", Separator), Token("UUID", Acronym)]
  {
    assert input[0..3] == "has";
    WordSpan("has");
  }

  lemma HasUuidTransition(config: Config, input: string)
    requires input == "hasUUIDacronym" && NonEmptyAcronyms(config.acronyms)
    ensures Scan(config, input, Cursor(0, 2, [])) == Scan(config, input, Cursor(3, 3, [Token("has", Word)]))
  {
    ScanTransition(config, input, Cursor(0, 2, []));
    HasUuidCommits(input);
  }

  lemma HasUuidAcronym(config: Config, input: string)
    requires input == "hasUUIDacronym" && NonEmptyAcronyms(config.acronyms)
    requires GetAcronym(input, config.acronyms, 3) == Some("UUID")
    ensures Scan(config, input, Cursor(3, 3, [Token("has", Word)]))
      == Scan(config, input, Cursor(7, 7, [Token("has", Word), Token("", Separator), Token("UUID", Acronym)]))
  {
    ScanAcronym(config, input, Cursor(3, 3, [Token("has", Word)]), "UUID");
    HasUuidCommits(input);
  }

  lemma HasUuidLastWord(config: Config, input: string)
    requires input == "hasUUIDacronym" && NonEmptyAcronyms(config.acronyms)
    requires GetAcronym(input, config.acronyms, 7) == None
    ensures Scan(config, input, Cursor(7, 7, [Token("has", Word), Token("", Separator), Token("UUID", Acronym)]))
      == Scan(config, input, Cursor(7, 14, [Token("has", Word), Token("", Separator), Token("UUID", Acronym)]))
  {
    ScanWord(config, input, Cursor(7, 7, [Token("has", Word), Token("", Separator), Token("UUID", Acronym)]), 14);
  }

  lemma HasUuidEnd(config: Config, input: string)
    requires input == "hasUUIDacronym" && NonEmptyAcronyms(config.acronyms)
    ensures Scan(config, input, Cursor(7, 14, [Token("has", Word), Token("", Separator), Token("UUID", Acronym)]))
      == [Token("has", Word), Token("", Separator), Token("UUID", Acronym), Token("", Separator), Token("acronym", Word)]
  {
    assert input[7..14] == "acronym";
    WordSpan("acronym");
  }

  lemma HasUuidTrace(config: Config, input: string)
    requires input == "hasUUIDacronym" && NonEmptyAcronyms(config.acronyms)
    requires GetAcronym(input, config.acronyms, 0) == None
    requires GetAcronym(input, config.acronyms, 3) == Some("UUID")
    requires GetAcronym(input, config.acronyms, 7) == None
    ensures Tokenize(config, input)
      == [Token("has", Word), Token("", Separator), Token("UUID", Acronym), Token("", Separator), Token("acronym", Word)]
  {
    HasUuidFirstWord(config, input);
    HasUuidTransition(config, input);
    HasUuidAcronym(config, input);
    HasUuidLastWord(config, input);
    HasUuidEnd(config, input);
  }

  lemma HasUuidAt3(acronyms: seq<string>, input: string)
    requires input == "hasUUIDacronym" && ShortSorted(acronyms) && "UUID" in acronyms
    ensures GetAcronym(input, acronyms, 3) == Some("UUID")
  {
    assert input[3..7] == "UUID";
    LookupLongest(input, acronyms, 3, "UUID");
  }

  lemma HasUuidLookups(input: string)
    requires input == "hasUUIDacronym"
    ensures GetAcronym(input, Standard(), 3) == Some("UUID")
  {
    UuidDefault();
    HasUuidAt3(Standard(), input);
  }

  lemma HasUuidFree(input: string)
    requires input == "hasUUIDacronym"
    ensures GetAcronym(input, Standard(), 0) == None
    ensures GetAcronym(input, Standard(), 7) == None
  {
    InitialFree(input, 0);
    InitialFree(input, 7);
  }

  /** "hasUUIDacronym": an acronym after a lowercase letter starts a token of its own. */
  lemma HasUuid()
    ensures Tokenize(Std, "hasUUIDacronym")
      == [Token("has", Word), Token("", Separator), Token("UUID", Acronym), Token("", Separator), Token("acronym", Word)]
  {
    HasUuidLookups("hasUUIDacronym");
    HasUuidFree("hasUUIDacronym");
    HasUuidTrace(Std, "hasUUIDacronym");
  }

  // ----- "$_prefixedThing" -----

  lemma PrefixedCommits(input: string)
    requires input == "$_prefixedThing"
    ensures Commit(CommitUpTo([], input, 0, 0), Token(input[0..2], Separator)) == [Token("$_", Separator)]
    ensures CommitUpTo([Token("$_", Separator)], input, 2, 10) == [Token("$_", Separator), Token("prefixed", Word)]
  {
    assert input == "$_" + "prefixed" + "Thing";
    assert input[0..2] == "$_" && input[2..10] == "prefixed";
    WordSpan("prefixed");
  }

  lemma PrefixedSeparator(config: Config, input: string)
    requires input == "$_prefixedThing" && NonEmptyAcronyms(config.acronyms)
    requires GetAcronym(input, config.acronyms, 0) == None
    ensures Tokenize(config, input) == Scan(config, input, Cursor(2, 2, [Token("$_", Separator)]))
  {
    ScanSeparator(config, input, Cursor(0, 0, []), 2);
    PrefixedCommits(input);
  }

  lemma PrefixedFirstWord(config: Config, input: string)
    requires input == "$_prefixedThing" && NonEmptyAcronyms(config.acronyms)
    requires GetAcronym(input, config.acronyms, 2) == None
    ensures Scan(config, input, Cursor(2, 2, [Token("$_", Separator)]))
      == Scan(config, input, Cursor(2, 9, [Token("$_", Separator)]))
  {
    ScanWord(config, input, Cursor(2, 2, [Token("$_", Separator)]), 9);
  }

  lemma PrefixedTransition(config: Config, input: string)
    requires input == "$_prefixedThing" && NonEmptyAcronyms(config.acronyms)
    ensures Scan(config, input, Cursor(2, 9, [Token("$_", Separator)]))
      == Scan(config, input, Cursor(10, 10, [Token("$_", Separator), Token("prefixed", Word)]))
  {
    ScanTransition(config, input, Cursor(2, 9, [Token("$_", Separator)]));
    PrefixedCommits(input);
  }

  lemma PrefixedLastWord(config: Config, input: string)
    requires input == "$_prefixedThing" && NonEmptyAcronyms(config.acronyms)
    requires GetAcronym(input, config.acronyms, 10) == None
    ensures Scan(config, input, Cursor(10, 10, [Token("$_", Separator), Token("prefixed", Word)]))
      == Scan(config, input, Cursor(10, 15, [Token("$_", Separator), Token("prefixed", Word)]))
  {
    ScanWord(config, input, Cursor(10, 10, [Token("$_", Separator), Token("prefixed", Word)]), 15);
  }

  lemma PrefixedEnd(config: Config, input: string)
    requires input == "$_prefixedThing" && NonEmptyAcronyms(config.acronyms)
    ensures Scan(config, input, Cursor(10, 15, [Token("$_", Separator), Token("prefixed", Word)]))
      == [Token("$_", Separator), Token("prefixed", Word), Token("", Separator), Token("Thing", Word)]
  {
    assert input[10..15] == "Thing";
    WordSpan("Thing");
  }

  lemma PrefixedTrace(config: Config, input: string)
    requires input == "$_prefixedThing" && NonEmptyAcronyms(config.acronyms)
    requires GetAcronym(input, config.acronyms, 0) == None
    requires GetAcronym(input, config.acronyms, 2) == None
    requires GetAcronym(input, config.acronyms, 10) == None
    ensures Tokenize(config, input)
      == [Token("$_", Separator), Token("prefixed", Word), Token("", Separator), Token("Thing", Word)]
  {
    PrefixedSeparator(config, input);
    PrefixedFirstWord(config, input);
    PrefixedTransition(config, input);
    PrefixedLastWord(config, input);
    PrefixedEnd(config, input);
  }

  lemma PrefixedFree(input: string)
    requires input == "$_prefixedThing"
    ensures GetAcronym(input, Standard(), 0) == None
    ensures GetAcronym(input, Standard(), 2) == None
    ensures GetAcronym(input, Standard(), 10) == None
  {
    InitialFree(input, 0);
    InitialFree(input, 2);
    InitialFree(input, 10);
  }

  /** "$_prefixedThing": a leading run of symbols is one separator token. */
  lemma Prefixed()
    ensures Tokenize(Std, "$_prefixedThing")
      == [Token("$_", Separator), Token("prefixed", Word), Token("", Separator), Token("Thing", Word)]
  {
    PrefixedFree("$_prefixedThing");
    PrefixedTrace(Std, "$_prefixedThing");
  }

  // ----- "grid1x1" -----

  lemma GridWord(config: Config, input: string)
    requires input == "grid1x1" && NonEmptyAcronyms(config.acronyms)
    requires GetAcronym(input, config.acronyms, 0) == None
    ensures Tokenize(config, input) == Scan(config, input, Cursor(0, 3, []))
  {
    ScanWord(config, input, Cursor(0, 0, []), 3);
  }

  lemma GridCommits(input: string)
    requires input == "grid1x1"
    ensures CommitUpTo([], input, 0, 4) == [Token("grid", Word)]
    ensures CommitUpTo([Token("grid", Word)], input, 4, 5)
      == [Token("grid", Word), Token("", Separator), Token("1", Number)]
    ensures CommitUpTo([Token("grid", Word), Token("", Separator), Token("1", Number)], input, 5, 6)
      == [Token("grid", Word), Token("", Separator), Token("1", Number), Token("", Separator), Token("x", Word)]
  {
    assert input[0..4] == "grid" && input[4..5] == "1" && input[5..6] == "x";
    WordSpan("grid");
    DigitSpan('1');
    WordSpan("x");
  }

  lemma GridLetterDigit(config: Config, input: string)
    requires input == "grid1x1" && NonEmptyAcronyms(config.acronyms)
    ensures Scan(config, input, Cursor(0, 3, [])) == Scan(config, input, Cursor(4, 4, [Token("grid", Word)]))
  {
    ScanTransition(config, input, Cursor(0, 3, []));
    GridCommits(input);
  }

  lemma GridDigitLetter(config: Config, input: string)
    requires input == "grid1x1" && NonEmptyAcronyms(config.acronyms)
    requires GetAcronym(input, config.acronyms, 4) == None
    ensures Scan(config, input, Cursor(4, 4, [Token("grid", Word)]))
      == Scan(config, input, Cursor(5, 5, [Token("grid", Word), Token("", Separator), Token("1", Number)]))
  {
    ScanTransition(config, input, Cursor(4, 4, [Token("grid", Word)]));
    GridCommits(input);
  }

  lemma GridLetterDigitAgain(config: Config, input: string)
    requires input == "grid1x1" && NonEmptyAcronyms(config.acronyms)
    requires GetAcronym(input, config.acronyms, 5) == None
    ensures Scan(config, input, Cursor(5, 5, [Token("grid", Word), Token("", Separator), Token("1", Number)]))
      == Scan(config, input, Cursor(6, 6, [Token("grid", Word), Token("", Separator), Token("1", Number),
                                           Token("", Separator), Token("x", Word)]))
  {
    ScanTransition(config, input, Cursor(5, 5, [Token("grid", Word), Token("", Separator), Token("1", Number)]));
    GridCommits(input);
  }

  lemma GridEnd(config: Config, input: string)
    requires input == "grid1x1" && NonEmptyAcronyms(config.acronyms)
    requires GetAcronym(input, config.acronyms, 6) == None
    ensures Scan(config, input, Cursor(6, 6, [Token("grid", Word), Token("", Separator), Token("1", Number),
                                              Token("", Separator), Token("x", Word)]))
      == [Token("grid", Word), Token("", Separator), Token("1", Number),
          Token("", Separator), Token("x", Word), Token("", Separator), Token("1", Number)]
  {
    ScanExtend(config, input, Cursor(6, 6, [Token("grid", Word), Token("", Separator), Token("1", Number),
                                            Token("", Separator), Token("x", Word)]));
    assert input[6..7] == "1";
    DigitSpan('1');
  }

  lemma GridTrace(config: Config, input: string)
    requires input == "grid1x1" && NonEmptyAcronyms(config.acronyms)
    requires GetAcronym(input, config.acronyms, 0) == None
    requires GetAcronym(input, config.acronyms, 4) == None
    requires GetAcronym(input, config.acronyms, 5) == None
    requires GetAcronym(input, config.acronyms, 6) == None
    ensures Tokenize(config, input)
      == [Token("grid", Word), Token("", Separator), Token("1", Number),
          Token("", Separator), Token("x", Word), Token("", Separator), Token("1", Number)]
  {
    GridWord(config, input);
    GridLetterDigit(config, input);
    GridDigitLetter(config, input);
    GridLetterDigitAgain(config, input);
    GridEnd(config, input);
  }

  lemma GridFree(input: string)
    requires input == "grid1x1"
    ensures GetAcronym(input, Standard(), 0) == None
    ensures GetAcronym(input, Standard(), 4) == None
    ensures GetAcronym(input, Standard(), 5) == None
    ensures GetAcronym(input, Standard(), 6) == None
  {
    InitialFree(input, 0);
    InitialFree(input, 4);
    DefaultFree(input, 5);
    InitialFree(input, 6);
  }

  /** "grid1x1": letter-to-digit and digit-to-letter transitions split every part. */
  lemma Grid()
    ensures Tokenize(Std, "grid1x1")
      == [Token("grid", Word), Token("", Separator), Token("1", Number),
          Token("", Separator), Token("x", Word), Token("", Separator), Token("1", Number)]
  {
    GridFree("grid1x1");
    GridTrace(Std, "grid1x1");
  }

  // ----- "test_id" with other acronym sets -----

  lemma TestIdLast(config: Config, input: string, first: Token)
    requires input == "test_id" && NonEmptyAcronyms(config.acronyms)
    requires GetAcronym(input, config.acronyms, 5) == Some("id")
    ensures Scan(config, input, Cursor(5, 5, [first, Token("_", Separator)]))
      == [first, Token("_", Separator), Token("id", Acronym)]
  {
    ScanAcronym(config, input, Cursor(5, 5, [first, Token("_", Separator)]), "id");
  }

  lemma TestIdCommits(input: string)
    requires input == "test_id"
    ensures Commit(CommitUpTo([Token("test", Acronym)], input, 4, 4), Token(input[4..5], Separator))
      == [Token("test", Acronym), Token("_", Separator)]
    ensures Commit(CommitUpTo([], input, 0, 4), Token(input[4..5], Separator))
      == [Token("test", Word), Token("_", Separator)]
  {
    assert input[0..4] == "test" && input[4..5] == "_";
    WordSpan("test");
  }

  lemma TestIdAcronymSeparator(config: Config, input: string)
    requires input == "test_id" && NonEmptyAcronyms(config.acronyms)
    requires GetAcronym(input, config.acronyms, 4) == None
    ensures Scan(config, input, Cursor(4, 4, [Token("test", Acronym)]))
      == Scan(config, input, Cursor(5, 5, [Token("test", Acronym), Token("_", Separator)]))
  {
    ScanSeparator(config, input, Cursor(4, 4, [Token("test", Acronym)]), 5);
    TestIdCommits(input);
  }

  lemma TestIdWordFirst(config: Config, input: string)
    requires input == "test_id" && NonEmptyAcronyms(config.acronyms)
    requires GetAcronym(input, config.acronyms, 0) == None
    ensures Tokenize(config, input) == Scan(config, input, Cursor(0, 4, []))
  {
    ScanWord(config, input, Cursor(0, 0, []), 4);
  }

  lemma TestIdWordSeparator(config: Config, input: string)
    requires input == "test_id" && NonEmptyAcronyms(config.acronyms)
    requires GetAcronym(input, config.acronyms, 4) == None
    ensures Scan(config, input, Cursor(0, 4, []))
      == Scan(config, input, Cursor(5, 5, [Token("test", Word), Token("_", Separator)]))
  {
    ScanSeparator(config, input, Cursor(0, 4, []), 5);
    TestIdCommits(input);
  }

  /**
   * `withAcronyms { $0.formUnion(["test", "id"]) }` over a base set of short
   * acronyms none of which starts with an underscore, such as the default one.
   */
  predicate UnionBase(base: seq<string>) {
    && (forall k :: 0 <= k < |base| ==> 2 <= |base[k]| <= 4)
    && "_id" !in base && "_i" !in base
  }

  /** The union is short and sorted once configured; "test" and "id" are in it, "_id" and "_i" are not. */
  lemma UnionShape(base: seq<string>)
    requires UnionBase(base)
    ensures NonEmptyAcronyms(MakeConfig(base + ["test", "id"]).acronyms)
    ensures ShortSorted(MakeConfig(base + ["test", "id"]).acronyms)
    ensures "test" in MakeConfig(base + ["test", "id"]).acronyms && "id" in MakeConfig(base + ["test", "id"]).acronyms
    ensures "_id" !in MakeConfig(base + ["test", "id"]).acronyms && "_i" !in MakeConfig(base + ["test", "id"]).acronyms
  {
    var acronyms := base + ["test", "id"];
    forall k | 0 <= k < |acronyms| ensures 2 <= |acronyms[k]| <= 4 {
      if k >= |base| {
        assert acronyms[k] == ["test", "id"][k - |base|];
      }
    }
    ShortConfig(acronyms);
    assert acronyms[|base|] == "test" && acronyms[|base| + 1] == "id";
  }

  lemma UnionAt0(base: seq<string>, input: string)
    requires UnionBase(base) && input == "test_id"
    ensures GetAcronym(input, MakeConfig(base + ["test", "id"]).acronyms, 0) == Some("test")
  {
    UnionShape(base);
    assert input[0..4] == "test";
    LookupLongest(input, MakeConfig(base + ["test", "id"]).acronyms, 0, "test");
  }

  lemma UnionAt4(base: seq<string>, input: string)
    requires UnionBase(base) && input == "test_id"
    ensures GetAcronym(input, MakeConfig(base + ["test", "id"]).acronyms, 4) == None
  {
    UnionShape(base);
    assert input[4..7] == "_id" && input[4..6] == "_i";
    LookupMissing(input, MakeConfig(base + ["test", "id"]).acronyms, 4);
  }

  lemma UnionAt5(base: seq<string>, input: string)
    requires UnionBase(base) && input == "test_id"
    ensures GetAcronym(input, MakeConfig(base + ["test", "id"]).acronyms, 5) == Some("id")
  {
    UnionShape(base);
    assert input[5..7] == "id";
    LookupLongest(input, MakeConfig(base + ["test", "id"]).acronyms, 5, "id");
  }

  lemma UnionTrace(base: seq<string>, input: string)
    requires UnionBase(base) && input == "test_id"
    ensures NonEmptyAcronyms(MakeConfig(base + ["test", "id"]).acronyms)
    ensures Tokenize(MakeConfig(base + ["test", "id"]), input)
      == [Token("test", Acronym), Token("_", Separator), Token("id", Acronym)]
  {
    UnionShape(base);
    UnionAt0(base, input);
    UnionAt4(base, input);
    UnionAt5(base, input);
    var config := MakeConfig(base + ["test", "id"]);
    LeadingAcronym(config, input, "test");
    TestIdAcronymSeparator(config, input);
    TestIdLast(config, input, Token("test", Acronym));
  }

  /** The default acronyms are a base for the union. */
  lemma StandardUnionBase()
    ensures UnionBase(Standard())
  {
    NotOpening("_id");
    NotOpening("_i");
  }

  /** "test_id" with "test" and "id" added to the default acronyms: both ends are acronyms. */
  lemma UnionTestId()
    ensures NonEmptyAcronyms(MakeConfig(Standard() + ["test", "id"]).acronyms)
    ensures Tokenize(MakeConfig(Standard() + ["test", "id"]), "test_id")
      == [Token("test", Acronym), Token("_", Separator), Token("id", Acronym)]
  {
    StandardUnionBase();
    UnionTrace(Standard(), "test_id");
  }

  /** `withAcronyms(["id"])`: exactly one acronym. */
  const IdConfig := MakeConfig(["id"])

  lemma IdShape()
    ensures NonEmptyAcronyms(IdConfig.acronyms) && ShortSorted(IdConfig.acronyms)
    ensures forall a :: a in IdConfig.acronyms <==> a == "id"
  {
    ShortConfig(["id"]);
  }

  lemma IdAt0(input: string)
    requires input == "test_id"
    ensures GetAcronym(input, IdConfig.acronyms, 0) == None
  {
    IdShape();
    assert input[0..4] == "test" && input[0..3] == "tes" && input[0..2] == "te";
    LookupMissing(input, IdConfig.acronyms, 0);
  }

  lemma IdAt4(input: string)
    requires input == "test_id"
    ensures GetAcronym(input, IdConfig.acronyms, 4) == None
  {
    IdShape();
    assert input[4..7] == "_id" && input[4..6] == "_i";
    LookupMissing(input, IdConfig.acronyms, 4);
  }

  lemma IdAt5(input: string)
    requires input == "test_id"
    ensures GetAcronym(input, IdConfig.acronyms, 5) == Some("id")
  {
    IdShape();
    assert input[5..7] == "id";
    LookupLongest(input, IdConfig.acronyms, 5, "id");
  }

  /** "test_id" with "id" the only acronym: "test" is a word. */
  lemma IdTestId()
    ensures Tokenize(IdConfig, "test_id")
      == [Token("test", Word), Token("_", Separator), Token("id", Acronym)]
  {
    IdShape();
    IdAt0("test_id");
    IdAt4("test_id");
    IdAt5("test_id");
    TestIdWordFirst(IdConfig, "test_id");
    TestIdWordSeparator(IdConfig, "test_id");
    TestIdLast(IdConfig, "test_id", Token("test", Word));
  }
}
