/**
 * Camel and pascal case on an acronym glued to a word, from the library's
 * tests (CamelCaseModifierTests.swift): "URLAcronym" and "uuidAcronym". The
 * tokenizer splits each into the acronym, an empty separator and the word
 * "Acronym"; the first-token modifier then decides the acronym's casing and
 * the rest-token modifier capitalizes the word.
 */
module AcronymWordExamples {
  import opened Options
  import opened Characters
  import opened Casification
  import opened DefaultTokenizer
  import opened StandardAcronyms
  import opened Modifiers
  import opened ProgrammingCase
  import opened CamelCase
  import opened TokenizerTrace
  import opened TokenizerExamples
  import opened SequenceExt
  import CamelExamples

  /** The acronyms the tests glue to "Acronym". */
  predicate Glued(head: string) {
    head == "URL" || head == "uuid"
  }

  /** The tokens of `head + "Acronym"`. */
  function GluedTokens(head: string): seq<Token> {
    [Token(head, Acronym), Token("", Separator), Token("Acronym", Word)]
  }

  // ----- tokenization -----

  /** An acronym at the start, then the rest of the input as one word. */
  lemma AcronymOpen(config: Config, input: string, n: nat)
    requires NonEmptyAcronyms(config.acronyms) && 0 < n < |input|
    requires GetAcronym(input, config.acronyms, 0) == Some(input[..n])
    ensures Tokenize(config, input) == Scan(config, input, Cursor(n, n, [Token(input[..n], Acronym)]))
  {
    ScanAcronym(config, input, Cursor(0, 0, []), input[..n]);
    assert Commit([], Token(input[..n], Acronym)) == [Token(input[..n], Acronym)];
  }

  /** The word after the acronym, flushed at the end of the input. */
  lemma WordFlush(input: string, n: nat)
    requires 0 < n < |input| && !IsNumber(input[n])
    ensures CommitUpTo([Token(input[..n], Acronym)], input, n, |input|)
      == [Token(input[..n], Acronym), Token("", Separator), Token(input[n..], Word)]
  {
    assert input[n..|input|] == input[n..];
    WordSpan(input[n..]);
  }

  lemma WordClose(config: Config, input: string, n: nat)
    requires NonEmptyAcronyms(config.acronyms) && 0 < n < |input|
    requires GetAcronym(input, config.acronyms, n) == None
    requires IsAlphanumeric(input[n]) && !IsNumber(input[n])
    requires !(n + 1 < |input| && IsTransition(input[n], input[n + 1]))
    requires forall k :: n < k < |input| ==> Extends(input, k)
    ensures Scan(config, input, Cursor(n, n, [Token(input[..n], Acronym)]))
      == [Token(input[..n], Acronym), Token("", Separator), Token(input[n..], Word)]
  {
    var c := Cursor(n, n, [Token(input[..n], Acronym)]);
    ScanWord(config, input, c, |input|);
    ScanAtEnd(config, input, Cursor(n, |input|, c.tokens));
    WordFlush(input, n);
  }

  /**
   * An acronym the tokenizer accepts at the start, followed by a stretch that
   * starts no acronym and splits nowhere, gives the acronym, an empty
   * separator and one word.
   */
  lemma AcronymThenWord(config: Config, input: string, n: nat)
    requires NonEmptyAcronyms(config.acronyms) && 0 < n < |input|
    requires GetAcronym(input, config.acronyms, 0) == Some(input[..n])
    requires GetAcronym(input, config.acronyms, n) == None
    requires IsAlphanumeric(input[n]) && !IsNumber(input[n])
    requires !(n + 1 < |input| && IsTransition(input[n], input[n + 1]))
    requires forall k :: n < k < |input| ==> Extends(input, k)
    ensures Tokenize(config, input) == [Token(input[..n], Acronym), Token("", Separator), Token(input[n..], Word)]
  {
    AcronymOpen(config, input, n);
    WordClose(config, input, n);
  }

  lemma GluedLayout(head: string, input: string)
    requires Glued(head) && input == head + "Acronym"
    ensures 0 < |head| < |input| && input[..|head|] == head && input[|head|..] == "Acronym"
    ensures input[|head|] == 'A' && IsAlphanumeric(input[|head|]) && !IsNumber(input[|head|])
    ensures !IsTransition(input[|head|], input[|head| + 1])
    ensures forall k :: |head| < k < |input| ==> Extends(input, k)
  {
    assert input[|head|..] == "Acronym";
    forall k | |head| < k < |input|
      ensures Extends(input, k)
    {
      assert input[k] == "Acronym"[k - |head|];
      assert input[k - 1] == "Acronym"[k - 1 - |head|];
      assert k + 1 < |input| ==> input[k + 1] == "Acronym"[k + 1 - |head|];
    }
  }

  /** "URL" is accepted before an upper-then-lower pair, and no longer acronym starts there. */
  lemma UrlAt0(acronyms: seq<string>, input: string)
    requires input == "URLAcronym" && ShortSorted(acronyms) && "URL" in acronyms && "URLA" !in acronyms
    ensures GetAcronym(input, acronyms, 0) == Some("URL")
  {
    assert input[0..3] == "URL" && input[0..4] == "URLA";
    LookupLongest(input, acronyms, 0, "URL");
  }

  lemma UrlDefault()
    ensures "URL" in Standard() && "uuid" in Standard() && "URLA" !in Standard() && ShortSorted(Standard())
  {
    UuidDefault();
    NotDefault("URLA");
  }

  lemma UrlLookup(input: string)
    requires input == "URLAcronym"
    ensures GetAcronym(input, Standard(), 0) == Some("URL")
  {
    UrlDefault();
    UrlAt0(Standard(), input);
  }

  lemma UuidLookup(input: string)
    requires input == "uuidAcronym"
    ensures GetAcronym(input, Standard(), 0) == Some("uuid")
  {
    UrlDefault();
    assert input[0..4] == "uuid" && input[4] == 'A';
    assert Accepts(input, Standard(), 0, "uuid");
    LookupFour(input, Standard(), 0, "uuid");
  }

  lemma GluedAt0(head: string, input: string)
    requires Glued(head) && input == head + "Acronym"
    ensures GetAcronym(input, Standard(), 0) == Some(head)
  {
    if head == "URL" {
      assert input == "URLAcronym";
      UrlLookup(input);
    } else {
      assert input == "uuidAcronym";
      UuidLookup(input);
    }
  }

  lemma GluedFree(head: string, input: string)
    requires Glued(head) && input == head + "Acronym"
    ensures GetAcronym(input, Standard(), |head|) == None
  {
    GluedLayout(head, input);
    InitialFree(input, |head|);
  }

  /** "URLAcronym" and "uuidAcronym" under the default acronyms. */
  lemma GluedTokenize(head: string, input: string)
    requires Glued(head) && input == head + "Acronym"
    ensures Tokenize(Std, input) == GluedTokens(head)
  {
    GluedLayout(head, input);
    GluedAt0(head, input);
    GluedFree(head, input);
    AcronymThenWord(Std, input, |head|);
  }

  // ----- processing -----

  /**
   * Two non-separators around an empty separator: the first goes through the
   * first modifier, the second through the rest modifier, and the separator
   * is mapped from its neighbours.
   */
  lemma PairProcessed(p: ProgrammingCaseModifiers, a: Token, s: Token, b: Token)
    requires Leads(a) && s.IsSeparator() && !b.IsSeparator()
    ensures ProcessTokens(p, [a, s, b])
      == [Token(Apply(p.firstModifier, a.value), a.kind),
          Token(p.mapSeparator(s.value, Some(a.value), Some(b.value)), Separator),
          Token(Apply(p.restModifier, b.value), b.kind)]
  {
    var tokens := [a, s, b];
    assert FirstIndex(tokens, NonSeparator) == Some(0);
    assert tokens[0..] == tokens && tokens[..0] == [];
    assert TrimTrailingSeparators(tokens) == tokens;
    assert SafeGet(tokens, 0).Map(ValueOf) == Some(a.value) && SafeGet(tokens, 2).Map(ValueOf) == Some(b.value);
    var last := Token(Apply(p.restModifier, b.value), b.kind);
    var mid := Token(p.mapSeparator(s.value, Some(a.value), Some(b.value)), Separator);
    assert BodyFrom(p, tokens, 3, true) == [];
    assert BodyFrom(p, tokens, 2, true) == [last];
    assert SeparatorAt(p, tokens, 1) == mid;
    assert BodyFrom(p, tokens, 1, true) == [mid, last];
    assert a.WithValue(Apply(p.firstModifier, a.value)) == Token(Apply(p.firstModifier, a.value), a.kind);
  }

  lemma ConcatThree(ts: seq<Token>)
    requires |ts| == 3
    ensures Concat(ts) == ts[0].value + ts[1].value + ts[2].value
  {
    assert ts[..1][..0] == [];
    assert Concat(ts[..1]) == ts[0].value;
    assert ts[..2][..1] == ts[..1];
    assert Concat(ts[..2]) == ts[0].value + ts[1].value;
    assert ts[..2] == ts[..|ts| - 1];
  }

  /** No digit touches the empty separator, so camel case drops it. */
  lemma GluedBoundary(c: CamelModifier, head: string)
    requires Glued(head)
    ensures Processor(c).mapSeparator("", Some(head), Some("Acronym")) == ""
  {
    assert !IsNumber(head[|head| - 1]) && !IsNumber("Acronym"[0]);
  }

  /** The three processed tokens of a glued input, joined. */
  lemma GluedValues(p: ProgrammingCaseModifiers, head: string, ts: seq<Token>)
    requires Glued(head) && ts == ProcessTokens(p, GluedTokens(head))
    ensures Concat(ts) == Apply(p.firstModifier, head)
      + p.mapSeparator("", Some(head), Some("Acronym")) + Apply(p.restModifier, "Acronym")
  {
    PairProcessed(p, Token(head, Acronym), Token("", Separator), Token("Acronym", Word));
    ConcatThree(ts);
  }

  lemma GluedJoined(c: CamelModifier, head: string)
    requires Glued(head)
    ensures Concat(ProcessTokens(Processor(c), GluedTokens(head)))
      == FirstToken(c.config, head) + RestToken(c.config.acronyms, "Acronym")
  {
    var p := Processor(c);
    GluedValues(p, head, ProcessTokens(p, GluedTokens(head)));
    GluedBoundary(c, head);
  }

  /**
   * A camel modifier over the default acronyms on "URLAcronym" or
   * "uuidAcronym": the first-token modifier on the acronym, then the
   * rest-token modifier on "Acronym".
   */
  lemma GluedCamel(c: CamelModifier, head: string, input: string)
    requires Glued(head) && input == head + "Acronym"
    requires c.config.acronyms.reservedValues == Standard()
    ensures Transform(c, input) == FirstToken(c.config, head) + RestToken(c.config.acronyms, "Acronym")
  {
    GluedStart(head, input);
    GluedTokenize(head, input);
    GluedPipeline(c, head, input);
    GluedJoined(c, head);
  }

  lemma GluedPipeline(c: CamelModifier, head: string, input: string)
    requires |input| > 0 && !IsNumber(input[0]) && Tokenize(Std, input) == GluedTokens(head)
    requires c.config.acronyms.reservedValues == Standard()
    ensures Transform(c, input) == Concat(ProcessTokens(Processor(c), GluedTokens(head)))
  {
    CamelExamples.CamelPipeline(c, input);
  }

  lemma GluedStart(head: string, input: string)
    requires Glued(head) && input == head + "Acronym"
    ensures |input| > 0 && !IsNumber(input[0])
  {
    assert input[0] == head[0];
  }

  // ----- casing -----

  /** "Acronym" is not reserved, so the rest-token modifier capitalizes it, which leaves it as it is. */
  lemma AcronymWordRest(acronyms: AcronymsConfig)
    requires "Acronym" !in acronyms.reservedValues
    ensures RestToken(acronyms, "Acronym") == "Acronym"
  {
    assert Apply(Lower, "Acronym") == [ToLower('A')] + "cronym";
  }

  /** Under `alwaysMatchCase` a reserved first acronym is lower-cased in camel case and upper-cased in pascal case. */
  lemma GluedCasing()
    ensures Apply(Lower, "URL") == "url" && Apply(Lower, "uuid") == "uuid"
    ensures Apply(Upper, "URL") == "URL" && Apply(Upper, "uuid") == "UUID"
  {
    assert Apply(Lower, "URL") == [ToLower('U'), ToLower('R'), ToLower('L')];
    assert Apply(Upper, "uuid") == [ToUpper('u'), ToUpper('u'), ToUpper('i'), ToUpper('d')];
  }

  /** The default camel and pascal modifiers: `alwaysMatchCase` over the default acronyms. */
  ghost predicate DefaultShape(c: CamelModifier, mode: Mode) {
    c.config.mode == mode && c.config.acronyms == AcronymsConfig(Standard(), AlwaysMatchCase)
  }

  /** Camel case lower-cases the reserved acronym. */
  lemma CamelSpelled(config: CamelCaseConfig, head: string, t: string)
    requires config.mode == Camel && config.acronyms == AcronymsConfig(Standard(), AlwaysMatchCase) && Glued(head)
    requires t == FirstToken(config, head) + RestToken(config.acronyms, "Acronym")
    ensures t == Apply(Lower, head) + "Acronym"
  {
    UrlDefault();
    NotDefault("Acronym");
    AcronymWordRest(config.acronyms);
  }

  /** Pascal case upper-cases the reserved acronym. */
  lemma PascalSpelled(config: CamelCaseConfig, head: string, t: string)
    requires config.mode == Pascal && config.acronyms == AcronymsConfig(Standard(), AlwaysMatchCase) && Glued(head)
    requires t == FirstToken(config, head) + RestToken(config.acronyms, "Acronym")
    ensures t == Apply(Upper, head) + "Acronym"
  {
    UrlDefault();
    NotDefault("Acronym");
    AcronymWordRest(config.acronyms);
  }

  /** Automatic mode follows the acronym's own start: "URL" as in pascal case, "uuid" as in camel case. */
  lemma AutomaticSpelled(config: CamelCaseConfig, head: string, t: string)
    requires config.mode == Automatic && config.acronyms == AcronymsConfig(Standard(), AlwaysMatchCase) && Glued(head)
    requires t == FirstToken(config, head) + RestToken(config.acronyms, "Acronym")
    ensures t == head + "Acronym"
  {
    UrlDefault();
    NotDefault("Acronym");
    AcronymWordRest(config.acronyms);
    GluedCasing();
  }

  lemma GluedAutomaticDefault(c: CamelModifier, head: string, input: string)
    requires DefaultShape(c, Automatic) && Glued(head) && input == head + "Acronym"
    ensures Transform(c, input) == input
  {
    GluedCamel(c, head, input);
    AutomaticSpelled(c.config, head, Transform(c, input));
  }

  lemma GluedCamelDefault(c: CamelModifier, head: string, input: string)
    requires DefaultShape(c, Camel) && Glued(head) && input == head + "Acronym"
    ensures Transform(c, input) == Apply(Lower, head) + "Acronym"
  {
    GluedCamel(c, head, input);
    CamelSpelled(c.config, head, Transform(c, input));
  }

  lemma GluedPascalDefault(c: CamelModifier, head: string, input: string)
    requires DefaultShape(c, Pascal) && Glued(head) && input == head + "Acronym"
    ensures Transform(c, input) == Apply(Upper, head) + "Acronym"
  {
    GluedCamel(c, head, input);
    PascalSpelled(c.config, head, Transform(c, input));
  }

  /** The two inputs, and the four expected outputs, spelled out. */
  lemma GluedInputs(input: string)
    ensures input == "URLAcronym" ==> input == "URL" + "Acronym"
    ensures input == "uuidAcronym" ==> input == "uuid" + "Acronym"
  {
  }

  lemma LowerUrl(t: string)
    requires t == Apply(Lower, "URL") + "Acronym"
    ensures t == "urlAcronym"
  {
    GluedCasing();
  }

  lemma LowerUuid(t: string)
    requires t == Apply(Lower, "uuid") + "Acronym"
    ensures t == "uuidAcronym"
  {
    GluedCasing();
  }

  lemma UpperUrl(t: string)
    requires t == Apply(Upper, "URL") + "Acronym"
    ensures t == "URLAcronym"
  {
    GluedCasing();
  }

  lemma UpperUuid(t: string)
    requires t == Apply(Upper, "uuid") + "Acronym"
    ensures t == "UUIDAcronym"
  {
    GluedCasing();
  }

  // ----- the tests -----

  /** "URLAcronym" in camel case: the acronym is lower-cased. */
  lemma CamelUrl(c: CamelModifier, input: string)
    requires c == CamelDefault() && input == "URLAcronym"
    ensures Transform(c, input) == "urlAcronym"
  {
    GluedInputs(input);
    GluedCamelDefault(c, "URL", input);
    LowerUrl(Transform(c, input));
  }

  /** "uuidAcronym" in camel case: unchanged. */
  lemma CamelUuid(c: CamelModifier, input: string)
    requires c == CamelDefault() && input == "uuidAcronym"
    ensures Transform(c, input) == "uuidAcronym"
  {
    GluedInputs(input);
    GluedCamelDefault(c, "uuid", input);
    LowerUuid(Transform(c, input));
  }

  /** "URLAcronym" in pascal case: unchanged. */
  lemma PascalUrl(c: CamelModifier, input: string)
    requires c == PascalDefault() && input == "URLAcronym"
    ensures Transform(c, input) == "URLAcronym"
  {
    GluedInputs(input);
    GluedPascalDefault(c, "URL", input);
    UpperUrl(Transform(c, input));
  }

  /** "uuidAcronym" in pascal case: the acronym is upper-cased. */
  lemma PascalUuid(c: CamelModifier, input: string)
    requires c == PascalDefault() && input == "uuidAcronym"
    ensures Transform(c, input) == "UUIDAcronym"
  {
    GluedInputs(input);
    GluedPascalDefault(c, "uuid", input);
    UpperUuid(Transform(c, input));
  }

  /** "URLAcronym" with `.camel()`: the capital start picks pascal case, which keeps the acronym. */
  lemma AutomaticUrl(c: CamelModifier, input: string)
    requires c == AutomaticDefault() && input == "URLAcronym"
    ensures Transform(c, input) == "URLAcronym"
  {
    GluedInputs(input);
    GluedAutomaticDefault(c, "URL", input);
  }

  /** "uuidAcronym" with `.camel()`: the lowercase start picks camel case, which keeps the acronym. */
  lemma AutomaticUuid(c: CamelModifier, input: string)
    requires c == AutomaticDefault() && input == "uuidAcronym"
    ensures Transform(c, input) == "uuidAcronym"
  {
    GluedInputs(input);
    GluedAutomaticDefault(c, "uuid", input);
  }
}
