/**
 * Camel case under each acronym processing policy, on the inputs of the
 * library's tests (CamelCaseModifierTests.swift): "url-ID-Uri-uuid" and its
 * "URL" and "Url" variants are four acronyms between dashes. The tokenization
 * is traced once for the three first acronyms, the processing once for any
 * camel modifier, and each policy then decides the casing.
 */
module CamelExamples {
  import opened Options
  import opened Characters
  import opened Casification
  import opened DefaultTokenizer
  import opened StandardAcronyms
  import opened Modifiers
  import opened ProgrammingCase
  import opened CamelCase
  import PT = ProcessingTokens
  import opened TokenizerTrace
  import opened TokenizerExamples
  import opened SequenceExt

  /** The three spellings of the first acronym the tests use. */
  predicate Head(first: string) {
    first == "url" || first == "URL" || first == "Url"
  }

  /** The tokens of `first + "-ID-Uri-uuid"`: four acronyms, three dashes. */
  function DashedTokens(first: string): seq<Token> {
    [Token(first, Acronym), Token("-", Separator), Token("ID", Acronym), Token("-", Separator),
     Token("Uri", Acronym), Token("-", Separator), Token("uuid", Acronym)]
  }

  // ----- tokenization -----

  lemma DashedLayout(first: string, input: string)
    requires input == first + "-ID-Uri-uuid" && |first| == 3
    ensures |input| == 15 && input[..3] == first
    ensures input[3] == '-' && input[6] == '-' && input[10] == '-'
    ensures IsAlphanumeric(input[4]) && IsAlphanumeric(input[7]) && IsAlphanumeric(input[11])
    ensures SeparatorRun(input, 3, 4) && SeparatorRun(input, 6, 7) && SeparatorRun(input, 10, 11)
    ensures input[3..4] == "-" && input[6..7] == "-" && input[10..11] == "-"
  {
    var rest := input[3..];
    assert rest == "-ID-Uri-uuid";
    assert input[3] == rest[0] && input[6] == rest[3] && input[10] == rest[7];
    assert input[4] == rest[1] && input[7] == rest[4] && input[11] == rest[8];
  }

  lemma DashedCommits(first: string, input: string)
    requires input == first + "-ID-Uri-uuid" && |first| == 3
    ensures Commit(CommitUpTo([], input, 0, 0), Token(first, Acronym)) == [Token(first, Acronym)]
    ensures Commit(CommitUpTo([Token(first, Acronym)], input, 3, 3), Token(input[3..4], Separator)) == [Token(first, Acronym), Token("-", Separator)]
    ensures Commit(CommitUpTo([Token(first, Acronym), Token("-", Separator)], input, 4, 4), Token("ID", Acronym)) == [Token(first, Acronym), Token("-", Separator), Token("ID", Acronym)]
    ensures Commit(CommitUpTo([Token(first, Acronym), Token("-", Separator), Token("ID", Acronym)], input, 6, 6), Token(input[6..7], Separator)) == [Token(first, Acronym), Token("-", Separator), Token("ID", Acronym), Token("-", Separator)]
    ensures Commit(CommitUpTo([Token(first, Acronym), Token("-", Separator), Token("ID", Acronym), Token("-", Separator)], input, 7, 7), Token("Uri", Acronym)) == [Token(first, Acronym), Token("-", Separator), Token("ID", Acronym), Token("-", Separator), Token("Uri", Acronym)]
    ensures Commit(CommitUpTo([Token(first, Acronym), Token("-", Separator), Token("ID", Acronym), Token("-", Separator), Token("Uri", Acronym)], input, 10, 10), Token(input[10..11], Separator)) == [Token(first, Acronym), Token("-", Separator), Token("ID", Acronym), Token("-", Separator), Token("Uri", Acronym), Token("-", Separator)]
    ensures Commit(CommitUpTo([Token(first, Acronym), Token("-", Separator), Token("ID", Acronym), Token("-", Separator), Token("Uri", Acronym), Token("-", Separator)], input, 11, 11), Token("uuid", Acronym)) == [Token(first, Acronym), Token("-", Separator), Token("ID", Acronym), Token("-", Separator), Token("Uri", Acronym), Token("-", Separator), Token("uuid", Acronym)]
  {
    DashedLayout(first, input);
  }

  lemma DashedOpen(config: Config, first: string, input: string)
    requires input == first + "-ID-Uri-uuid" && |first| == 3 && NonEmptyAcronyms(config.acronyms)
    requires GetAcronym(input, config.acronyms, 0) == Some(first)
    ensures Tokenize(config, input)
      == Scan(config, input, Cursor(3, 3, [Token(first, Acronym)]))
  {
    ScanAcronym(config, input, Cursor(0, 0, []), first);
    DashedCommits(first, input);
  }

  lemma DashedDash1(config: Config, first: string, input: string)
    requires input == first + "-ID-Uri-uuid" && |first| == 3 && NonEmptyAcronyms(config.acronyms)
    requires GetAcronym(input, config.acronyms, 3) == None
    ensures Scan(config, input, Cursor(3, 3, [Token(first, Acronym)]))
      == Scan(config, input, Cursor(4, 4, [Token(first, Acronym), Token("-", Separator)]))
  {
    DashedLayout(first, input);
    ScanSeparator(config, input, Cursor(3, 3, [Token(first, Acronym)]), 4);
    DashedCommits(first, input);
  }

  lemma DashedId(config: Config, first: string, input: string)
    requires input == first + "-ID-Uri-uuid" && |first| == 3 && NonEmptyAcronyms(config.acronyms)
    requires GetAcronym(input, config.acronyms, 4) == Some("ID")
    ensures Scan(config, input, Cursor(4, 4, [Token(first, Acronym), Token("-", Separator)]))
      == Scan(config, input, Cursor(6, 6, [Token(first, Acronym), Token("-", Separator), Token("ID", Acronym)]))
  {
    ScanAcronym(config, input, Cursor(4, 4, [Token(first, Acronym), Token("-", Separator)]), "ID");
    DashedCommits(first, input);
  }

  lemma DashedDash2(config: Config, first: string, input: string)
    requires input == first + "-ID-Uri-uuid" && |first| == 3 && NonEmptyAcronyms(config.acronyms)
    requires GetAcronym(input, config.acronyms, 6) == None
    ensures Scan(config, input, Cursor(6, 6, [Token(first, Acronym), Token("-", Separator), Token("ID", Acronym)]))
      == Scan(config, input, Cursor(7, 7, [Token(first, Acronym), Token("-", Separator), Token("ID", Acronym), Token("-", Separator)]))
  {
    DashedLayout(first, input);
    ScanSeparator(config, input, Cursor(6, 6, [Token(first, Acronym), Token("-", Separator), Token("ID", Acronym)]), 7);
    DashedCommits(first, input);
  }

  lemma DashedUri(config: Config, first: string, input: string)
    requires input == first + "-ID-Uri-uuid" && |first| == 3 && NonEmptyAcronyms(config.acronyms)
    requires GetAcronym(input, config.acronyms, 7) == Some("Uri")
    ensures Scan(config, input, Cursor(7, 7, [Token(first, Acronym), Token("-", Separator), Token("ID", Acronym), Token("-", Separator)]))
      == Scan(config, input, Cursor(10, 10, [Token(first, Acronym), Token("-", Separator), Token("ID", Acronym), Token("-", Separator), Token("Uri", Acronym)]))
  {
    ScanAcronym(config, input, Cursor(7, 7, [Token(first, Acronym), Token("-", Separator), Token("ID", Acronym), Token("-", Separator)]), "Uri");
    DashedCommits(first, input);
  }

  lemma DashedDash3(config: Config, first: string, input: string)
    requires input == first + "-ID-Uri-uuid" && |first| == 3 && NonEmptyAcronyms(config.acronyms)
    requires GetAcronym(input, config.acronyms, 10) == None
    ensures Scan(config, input, Cursor(10, 10, [Token(first, Acronym), Token("-", Separator), Token("ID", Acronym), Token("-", Separator), Token("Uri", Acronym)]))
      == Scan(config, input, Cursor(11, 11, [Token(first, Acronym), Token("-", Separator), Token("ID", Acronym), Token("-", Separator), Token("Uri", Acronym), Token("-", Separator)]))
  {
    DashedLayout(first, input);
    ScanSeparator(config, input, Cursor(10, 10, [Token(first, Acronym), Token("-", Separator), Token("ID", Acronym), Token("-", Separator), Token("Uri", Acronym)]), 11);
    DashedCommits(first, input);
  }

  lemma DashedUuid(config: Config, first: string, input: string)
    requires input == first + "-ID-Uri-uuid" && |first| == 3 && NonEmptyAcronyms(config.acronyms)
    requires GetAcronym(input, config.acronyms, 11) == Some("uuid")
    ensures Scan(config, input, Cursor(11, 11, [Token(first, Acronym), Token("-", Separator), Token("ID", Acronym), Token("-", Separator), Token("Uri", Acronym), Token("-", Separator)]))
      == Scan(config, input, Cursor(15, 15, [Token(first, Acronym), Token("-", Separator), Token("ID", Acronym), Token("-", Separator), Token("Uri", Acronym), Token("-", Separator), Token("uuid", Acronym)]))
  {
    ScanAcronym(config, input, Cursor(11, 11, [Token(first, Acronym), Token("-", Separator), Token("ID", Acronym), Token("-", Separator), Token("Uri", Acronym), Token("-", Separator)]), "uuid");
    DashedCommits(first, input);
  }

  lemma DashedEnd(config: Config, first: string, input: string)
    requires input == first + "-ID-Uri-uuid" && |first| == 3 && NonEmptyAcronyms(config.acronyms)
    ensures Scan(config, input, Cursor(15, 15, [Token(first, Acronym), Token("-", Separator), Token("ID", Acronym), Token("-", Separator), Token("Uri", Acronym), Token("-", Separator), Token("uuid", Acronym)])) == DashedTokens(first)
  {
    ScanAtEnd(config, input, Cursor(15, 15, [Token(first, Acronym), Token("-", Separator), Token("ID", Acronym), Token("-", Separator), Token("Uri", Acronym), Token("-", Separator), Token("uuid", Acronym)]));
  }

  lemma DashedTrace(config: Config, first: string, input: string)
    requires input == first + "-ID-Uri-uuid" && |first| == 3 && NonEmptyAcronyms(config.acronyms)
    requires GetAcronym(input, config.acronyms, 0) == Some(first)
    requires GetAcronym(input, config.acronyms, 3) == None
    requires GetAcronym(input, config.acronyms, 4) == Some("ID")
    requires GetAcronym(input, config.acronyms, 6) == None
    requires GetAcronym(input, config.acronyms, 7) == Some("Uri")
    requires GetAcronym(input, config.acronyms, 10) == None
    requires GetAcronym(input, config.acronyms, 11) == Some("uuid")
    ensures Tokenize(config, input) == DashedTokens(first)
  {
    DashedOpen(config, first, input);
    DashedDash1(config, first, input);
    DashedId(config, first, input);
    DashedDash2(config, first, input);
    DashedUri(config, first, input);
    DashedDash3(config, first, input);
    DashedUuid(config, first, input);
    DashedEnd(config, first, input);
  }

  // ----- acronym lookups -----

  /** The acronyms of "url-ID-Uri-uuid" and no dashed string, as the default set has them. */
  predicate DashedAcronyms(acronyms: seq<string>, first: string) {
    && ShortSorted(acronyms)
    && first in acronyms && "ID" in acronyms && "Uri" in acronyms && "uuid" in acronyms
    && first + "-" !in acronyms && "ID-U" !in acronyms && "ID-" !in acronyms && "Uri-" !in acronyms
  }

  lemma DashedAt0(acronyms: seq<string>, first: string, input: string)
    requires input == first + "-ID-Uri-uuid" && |first| == 3 && DashedAcronyms(acronyms, first)
    ensures GetAcronym(input, acronyms, 0) == Some(first)
  {
    assert input[0..3] == first && input[0..4] == first + "-";
    LookupLongest(input, acronyms, 0, first);
  }

  lemma DashedAt4(acronyms: seq<string>, first: string, input: string)
    requires input == first + "-ID-Uri-uuid" && |first| == 3 && DashedAcronyms(acronyms, first)
    ensures GetAcronym(input, acronyms, 4) == Some("ID")
  {
    var rest := input[3..];
    assert rest == "-ID-Uri-uuid";
    assert input[4..6] == rest[1..3] == "ID" && input[4..7] == rest[1..4] == "ID-" && input[4..8] == rest[1..5] == "ID-U";
    LookupLongest(input, acronyms, 4, "ID");
  }

  lemma DashedAt7(acronyms: seq<string>, first: string, input: string)
    requires input == first + "-ID-Uri-uuid" && |first| == 3 && DashedAcronyms(acronyms, first)
    ensures GetAcronym(input, acronyms, 7) == Some("Uri")
  {
    var rest := input[3..];
    assert rest == "-ID-Uri-uuid";
    assert input[7..10] == rest[4..7] == "Uri" && input[7..11] == rest[4..8] == "Uri-";
    LookupLongest(input, acronyms, 7, "Uri");
  }

  lemma DashedAt11(acronyms: seq<string>, first: string, input: string)
    requires input == first + "-ID-Uri-uuid" && |first| == 3 && DashedAcronyms(acronyms, first)
    ensures GetAcronym(input, acronyms, 11) == Some("uuid")
  {
    var rest := input[3..];
    assert rest == "-ID-Uri-uuid";
    assert input[11..15] == rest[8..12] == "uuid";
    LookupLongest(input, acronyms, 11, "uuid");
  }

  /** The default acronyms have the ones of the dashed inputs and no dashed string. */
  lemma DashedDefault(first: string)
    requires Head(first)
    ensures DashedAcronyms(Standard(), first)
  {
    DashedMembers(first);
    DashedStrangers(first);
  }

  lemma DashedMembers(first: string)
    requires Head(first)
    ensures ShortSorted(Standard())
    ensures first in Standard() && "ID" in Standard() && "Uri" in Standard() && "uuid" in Standard()
  {
    UuidDefault();
  }

  lemma HeadDash(first: string)
    requires Head(first)
    ensures first + "-" == "url-" || first + "-" == "URL-" || first + "-" == "Url-"
  {
    if first == "url" {
      assert first + "-" == "url-";
    } else if first == "URL" {
      assert first + "-" == "URL-";
    } else {
      assert first + "-" == "Url-";
    }
  }

  lemma HeadStrangers()
    ensures "url-" !in Standard() && "URL-" !in Standard() && "Url-" !in Standard()
  {
    NotDefault("url-");
    NotDefault("URL-");
    NotDefault("Url-");
  }

  lemma TailStrangers()
    ensures "ID-U" !in Standard() && "Uri-" !in Standard()
  {
    NotDefault("ID-U");
    NotDefault("Uri-");
  }

  lemma IdDashStranger()
    ensures "ID-" !in Standard()
  {
    NotDefault("ID-");
  }

  lemma DashedStrangers(first: string)
    requires Head(first)
    ensures first + "-" !in Standard() && "ID-U" !in Standard() && "ID-" !in Standard() && "Uri-" !in Standard()
  {
    HeadDash(first);
    HeadStrangers();
    TailStrangers();
    IdDashStranger();
  }

  lemma DashedFree(first: string, input: string)
    requires input == first + "-ID-Uri-uuid" && |first| == 3
    ensures GetAcronym(input, Standard(), 3) == None
    ensures GetAcronym(input, Standard(), 6) == None
    ensures GetAcronym(input, Standard(), 10) == None
  {
    DashedLayout(first, input);
    InitialFree(input, 3);
    InitialFree(input, 6);
    InitialFree(input, 10);
  }

  /** "url-ID-Uri-uuid", "URL-ID-Uri-uuid" and "Url-ID-Uri-uuid" are four acronyms between dashes. */
  lemma DashedTokenize(first: string, input: string)
    requires input == first + "-ID-Uri-uuid" && |first| == 3 && Head(first)
    ensures Tokenize(Std, input) == DashedTokens(first)
  {
    DashedDefault(first);
    DashedAt0(Standard(), first, input);
    DashedAt4(Standard(), first, input);
    DashedAt7(Standard(), first, input);
    DashedAt11(Standard(), first, input);
    DashedFree(first, input);
    DashedTrace(Std, first, input);
  }

  // ----- processing -----

  /** The dashes of the dashed tokens are mapped to nothing. */
  predicate DashesVanish(p: ProgrammingCaseModifiers, first: string) {
    && p.mapSeparator("-", Some(first), Some("ID")) == ""
    && p.mapSeparator("-", Some("ID"), Some("Uri")) == ""
    && p.mapSeparator("-", Some("Uri"), Some("uuid")) == ""
  }

  /** Each dash is rewritten from its two neighbouring acronyms. */
  lemma DashedSeparators(p: ProgrammingCaseModifiers, first: string, tokens: seq<Token>)
    requires tokens == DashedTokens(first) && DashesVanish(p, first)
    ensures SeparatorAt(p, tokens, 1) == Token("", Separator)
    ensures SeparatorAt(p, tokens, 3) == Token("", Separator)
    ensures SeparatorAt(p, tokens, 5) == Token("", Separator)
  {
    assert SafeGet(tokens, 0).Map(ValueOf) == Some(first) && SafeGet(tokens, 2).Map(ValueOf) == Some("ID");
    assert SafeGet(tokens, 4).Map(ValueOf) == Some("Uri") && SafeGet(tokens, 6).Map(ValueOf) == Some("uuid");
  }

  /**
   * With no leading and no trailing separator, the first acronym goes through
   * the first modifier, the others through the rest modifier, and the dashes
   * vanish.
   */
  lemma DashedProcessed(p: ProgrammingCaseModifiers, first: string, tokens: seq<Token>)
    requires tokens == DashedTokens(first) && DashesVanish(p, first)
    ensures ProcessTokens(p, tokens)
      == [Token(Apply(p.firstModifier, first), Acronym), Token("", Separator),
          Token(Apply(p.restModifier, "ID"), Acronym), Token("", Separator),
          Token(Apply(p.restModifier, "Uri"), Acronym), Token("", Separator),
          Token(Apply(p.restModifier, "uuid"), Acronym)]
  {
    assert FirstIndex(tokens, NonSeparator) == Some(0);
    assert tokens[0..] == tokens && tokens[..0] == [];
    assert TrimTrailingSeparators(tokens) == tokens;
    DashedSeparators(p, first, tokens);
    var uuid := Token(Apply(p.restModifier, "uuid"), Acronym);
    var uri := Token(Apply(p.restModifier, "Uri"), Acronym);
    var id := Token(Apply(p.restModifier, "ID"), Acronym);
    var none := Token("", Separator);
    assert BodyFrom(p, tokens, 7, true) == [];
    assert BodyFrom(p, tokens, 6, true) == [uuid];
    assert BodyFrom(p, tokens, 5, true) == [none, uuid];
    assert BodyFrom(p, tokens, 4, true) == [uri, none, uuid];
    assert BodyFrom(p, tokens, 3, true) == [none, uri, none, uuid];
    assert BodyFrom(p, tokens, 2, true) == [id, none, uri, none, uuid];
    assert BodyFrom(p, tokens, 1, true) == [none, id, none, uri, none, uuid];
  }

  /** Four tokens with empty separators between them concatenate to their four values. */
  lemma ConcatSpaced(a: string, b: string, c: string, d: string, ts: seq<Token>)
    requires ts == [Token(a, Acronym), Token("", Separator), Token(b, Acronym), Token("", Separator),
                    Token(c, Acronym), Token("", Separator), Token(d, Acronym)]
    ensures Concat(ts) == a + b + c + d
  {
    assert ts[..1] == [Token(a, Acronym)];
    assert Concat(ts[..1]) == a;
    assert ts[..2][..1] == ts[..1];
    assert Concat(ts[..2]) == a;
    assert ts[..3][..2] == ts[..2];
    assert Concat(ts[..3]) == a + b;
    assert ts[..4][..3] == ts[..3];
    assert Concat(ts[..4]) == a + b;
    assert ts[..5][..4] == ts[..4];
    assert Concat(ts[..5]) == a + b + c;
    assert ts[..6][..5] == ts[..5];
    assert Concat(ts[..6]) == a + b + c;
    assert ts[..6] == ts[..|ts| - 1];
  }

  /** What the processed dashed tokens concatenate to. */
  lemma DashedJoined(p: ProgrammingCaseModifiers, first: string)
    requires DashesVanish(p, first)
    ensures Concat(ProcessTokens(p, DashedTokens(first)))
      == Apply(p.firstModifier, first) + Apply(p.restModifier, "ID") + Apply(p.restModifier, "Uri")
        + Apply(p.restModifier, "uuid")
  {
    DashedProcessed(p, first, DashedTokens(first));
    ConcatSpaced(Apply(p.firstModifier, first), Apply(p.restModifier, "ID"), Apply(p.restModifier, "Uri"),
      Apply(p.restModifier, "uuid"), ProcessTokens(p, DashedTokens(first)));
  }

  /** No digit touches a dash, so the numeric-boundary separator map drops all three. */
  lemma CamelDashesVanish(c: CamelModifier, first: string)
    requires Head(first)
    ensures DashesVanish(Processor(c), first)
  {
  }

  /** The dashed tokens under camel case, whatever the mode and policy. */
  lemma CamelJoined(c: CamelModifier, first: string)
    requires Head(first)
    ensures Concat(ProcessTokens(Processor(c), DashedTokens(first)))
      == FirstToken(c.config, first) + RestToken(c.config.acronyms, "ID") + RestToken(c.config.acronyms, "Uri")
        + RestToken(c.config.acronyms, "uuid")
  {
    CamelDashesVanish(c, first);
    DashedJoined(Processor(c), first);
  }

  /** An input that does not start with a digit is tokenized as it is. */
  lemma CamelUnprefixed(c: CamelModifier, input: string)
    requires !(|input| > 0 && IsNumber(input[0]))
    ensures Transform(c, input) == PT.Transform(Inner(c), input)
  {
    assert TokenizableInput(c, input) == input;
  }

  /** Camel case over the default acronyms processes the default tokenization. */
  lemma CamelInner(c: CamelModifier, input: string)
    requires c.config.acronyms.reservedValues == Standard()
    ensures PT.Transform(Inner(c), input) == Concat(ProcessTokens(Processor(c), Tokenize(Std, input)))
  {
    PT.TransformConcatenatesProcessed(Inner(c), Standard(), input);
  }

  /** A camel modifier over the default acronyms, on an input that does not start with a digit. */
  lemma CamelPipeline(c: CamelModifier, input: string)
    requires c.config.acronyms.reservedValues == Standard()
    requires !(|input| > 0 && IsNumber(input[0]))
    ensures Transform(c, input) == Concat(ProcessTokens(Processor(c), Tokenize(Std, input)))
  {
    CamelUnprefixed(c, input);
    CamelInner(c, input);
  }

  /**
   * Camel case on the dashed inputs: the first-token modifier on the first
   * acronym, then the rest-token modifier on each other acronym, with
   * nothing between them.
   */
  lemma DashedCamel(c: CamelModifier, first: string, input: string)
    requires input == first + "-ID-Uri-uuid" && Head(first)
    requires c.config.acronyms.reservedValues == Standard()
    ensures Transform(c, input)
      == FirstToken(c.config, first) + RestToken(c.config.acronyms, "ID") + RestToken(c.config.acronyms, "Uri")
        + RestToken(c.config.acronyms, "uuid")
  {
    DashedStart(first, input);
    DashedTokenize(first, input);
    DashedPipeline(c, first, input);
    CamelJoined(c, first);
  }

  lemma DashedPipeline(c: CamelModifier, first: string, input: string)
    requires |input| > 0 && !IsNumber(input[0]) && Tokenize(Std, input) == DashedTokens(first)
    requires c.config.acronyms.reservedValues == Standard()
    ensures Transform(c, input) == Concat(ProcessTokens(Processor(c), DashedTokens(first)))
  {
    CamelPipeline(c, input);
  }

  lemma DashedStart(first: string, input: string)
    requires input == first + "-ID-Uri-uuid" && Head(first)
    ensures |input| > 0 && !IsNumber(input[0])
  {
    assert input[0] == first[0];
  }

  // ----- casing under each policy -----

  /** The case maps on the acronyms of the dashed inputs. */
  lemma LowerHeads()
    ensures Apply(Lower, "url") == "url" && Apply(Lower, "URL") == "url" && Apply(Lower, "Url") == "url"
  {
    assert Apply(Lower, "URL") == [ToLower('U'), ToLower('R'), ToLower('L')];
    assert Apply(Lower, "Url") == [ToLower('U'), 'r', 'l'];
  }

  lemma UpperTails()
    ensures Apply(Upper, "ID") == "ID" && Apply(Upper, "Uri") == "URI" && Apply(Upper, "uuid") == "UUID"
  {
    assert Apply(Upper, "Uri") == ['U', ToUpper('r'), ToUpper('i')];
    assert Apply(Upper, "uuid") == [ToUpper('u'), ToUpper('u'), ToUpper('i'), ToUpper('d')];
  }

  lemma CapitalizeHeads()
    ensures Capitalize("url") == "Url" && Capitalize("URL") == "Url" && Capitalize("Url") == "Url"
  {
    LowerHeads();
    assert Apply(UpperFirst, "url") == [ToUpper('u')] + "rl";
  }

  lemma CapitalizeTails()
    ensures Capitalize("ID") == "Id" && Capitalize("Uri") == "Uri" && Capitalize("uuid") == "Uuid"
  {
    assert Apply(Lower, "ID") == [ToLower('I'), ToLower('D')] == "id";
    assert Apply(UpperFirst, "id") == [ToUpper('i')] + "d";
    assert Apply(Lower, "Uri") == [ToLower('U'), 'r', 'i'] == "uri";
    assert Apply(UpperFirst, "uri") == [ToUpper('u')] + "ri";
    assert Apply(UpperFirst, "uuid") == [ToUpper('u')] + "uid";
  }

  /** Every acronym of the dashed inputs is reserved. */
  predicate DashedReserved(acronyms: AcronymsConfig) {
    && "url" in acronyms.reservedValues && "URL" in acronyms.reservedValues && "Url" in acronyms.reservedValues
    && "ID" in acronyms.reservedValues && "Uri" in acronyms.reservedValues && "uuid" in acronyms.reservedValues
  }

  lemma StandardReserved(policy: ProcessingPolicy)
    ensures DashedReserved(AcronymsConfig(Standard(), policy))
  {
    UuidDefault();
  }

  /** A camel-mode modifier over the standard acronyms with the given policy. */
  ghost predicate CamelStandard(c: CamelModifier, policy: ProcessingPolicy) {
    c.config.mode == Camel && c.config.acronyms == AcronymsConfig(Standard(), policy)
  }

  /** `alwaysMatchCase`: the first acronym lower-cased, the others upper-cased. */
  lemma MatchCaseSpelled(config: CamelCaseConfig, first: string, t: string)
    requires config.mode == Camel && DashedReserved(config.acronyms) && config.acronyms.processingPolicy == AlwaysMatchCase
    requires Head(first)
    requires t == FirstToken(config, first) + RestToken(config.acronyms, "ID") + RestToken(config.acronyms, "Uri")
      + RestToken(config.acronyms, "uuid")
    ensures t == "urlIDURIUUID"
  {
    LowerHeads();
    UpperTails();
    assert CamelFirst(config.acronyms, first) == "url";
  }

  lemma MatchCaseDashed(c: CamelModifier, first: string, input: string)
    requires CamelStandard(c, AlwaysMatchCase) && Head(first) && input == first + "-ID-Uri-uuid"
    ensures Transform(c, input) == "urlIDURIUUID"
  {
    StandardReserved(AlwaysMatchCase);
    DashedCamel(c, first, input);
    MatchCaseSpelled(c.config, first, Transform(c, input));
  }

  /** `alwaysCapitalize`: every acronym capitalized, the first one too. */
  lemma CapitalizeSpelled(config: CamelCaseConfig, first: string, t: string)
    requires config.mode == Camel && DashedReserved(config.acronyms) && config.acronyms.processingPolicy == AlwaysCapitalize
    requires Head(first)
    requires t == FirstToken(config, first) + RestToken(config.acronyms, "ID") + RestToken(config.acronyms, "Uri")
      + RestToken(config.acronyms, "uuid")
    ensures t == "UrlIdUriUuid"
  {
    CapitalizeHeads();
    CapitalizeTails();
    assert CamelFirst(config.acronyms, first) == "Url";
  }

  lemma CapitalizeDashed(c: CamelModifier, first: string, input: string)
    requires CamelStandard(c, AlwaysCapitalize) && Head(first) && input == first + "-ID-Uri-uuid"
    ensures Transform(c, input) == "UrlIdUriUuid"
  {
    StandardReserved(AlwaysCapitalize);
    DashedCamel(c, first, input);
    CapitalizeSpelled(c.config, first, Transform(c, input));
  }

  /** `conditionalCapitalization`: the first acronym lower-cased, the others capitalized. */
  lemma ConditionalSpelled(config: CamelCaseConfig, first: string, t: string)
    requires config.mode == Camel && DashedReserved(config.acronyms) && config.acronyms.processingPolicy == ConditionalCapitalization
    requires Head(first)
    requires t == FirstToken(config, first) + RestToken(config.acronyms, "ID") + RestToken(config.acronyms, "Uri")
      + RestToken(config.acronyms, "uuid")
    ensures t == "urlIdUriUuid"
  {
    LowerHeads();
    CapitalizeTails();
    assert CamelFirst(config.acronyms, first) == "url";
  }

  lemma ConditionalDashed(c: CamelModifier, first: string, input: string)
    requires CamelStandard(c, ConditionalCapitalization) && Head(first) && input == first + "-ID-Uri-uuid"
    ensures Transform(c, input) == "urlIdUriUuid"
  {
    StandardReserved(ConditionalCapitalization);
    DashedCamel(c, first, input);
    ConditionalSpelled(c.config, first, Transform(c, input));
  }

  /** `preserve`: every acronym as it is written. */
  lemma PreserveSpelled(config: CamelCaseConfig, first: string, t: string)
    requires config.mode == Camel && DashedReserved(config.acronyms) && config.acronyms.processingPolicy == Preserve
    requires Head(first)
    requires t == FirstToken(config, first) + RestToken(config.acronyms, "ID") + RestToken(config.acronyms, "Uri")
      + RestToken(config.acronyms, "uuid")
    ensures t == first + "IDUriuuid"
  {
    assert CamelFirst(config.acronyms, first) == first;
  }

  lemma PreserveDashed(c: CamelModifier, first: string, input: string)
    requires CamelStandard(c, Preserve) && Head(first) && input == first + "-ID-Uri-uuid"
    ensures Transform(c, input) == first + "IDUriuuid"
  {
    StandardReserved(Preserve);
    DashedCamel(c, first, input);
    PreserveSpelled(c.config, first, Transform(c, input));
  }

  // ----- "url-ID-Uri-uuid", "URL-ID-Uri-uuid", "Url-ID-Uri-uuid" in camel case -----

  /** The default camel case on the three dashed inputs. */
  lemma DefaultCamelDashed(c: CamelModifier, first: string, input: string)
    requires c == CamelDefault()
    requires Head(first) && input == first + "-ID-Uri-uuid"
    ensures Transform(c, input) == "urlIDURIUUID"
  {
    MatchCaseDashed(c, first, input);
  }

  /** `alwaysMatchCase` on the three dashed inputs. */
  lemma MatchCaseCamelDashed(c: CamelModifier, first: string, input: string)
    requires c == CamelWith(Camel, AcronymsConfig(Standard(), AlwaysMatchCase), "_")
    requires Head(first) && input == first + "-ID-Uri-uuid"
    ensures Transform(c, input) == "urlIDURIUUID"
  {
    MatchCaseDashed(c, first, input);
  }

  /** `alwaysCapitalize` on the three dashed inputs. */
  lemma CapitalizeCamelDashed(c: CamelModifier, first: string, input: string)
    requires c == CamelWith(Camel, AcronymsConfig(Standard(), AlwaysCapitalize), "_")
    requires Head(first) && input == first + "-ID-Uri-uuid"
    ensures Transform(c, input) == "UrlIdUriUuid"
  {
    CapitalizeDashed(c, first, input);
  }

  /** `conditionalCapitalization` on the three dashed inputs. */
  lemma ConditionalCamelDashed(c: CamelModifier, first: string, input: string)
    requires c == CamelWith(Camel, AcronymsConfig(Standard(), ConditionalCapitalization), "_")
    requires Head(first) && input == first + "-ID-Uri-uuid"
    ensures Transform(c, input) == "urlIdUriUuid"
  {
    ConditionalDashed(c, first, input);
  }

  /** `preserve` on the three dashed inputs. */
  lemma PreserveCamelDashed(c: CamelModifier, first: string, input: string)
    requires c == CamelWith(Camel, AcronymsConfig(Standard(), Preserve), "_")
    requires Head(first) && input == first + "-ID-Uri-uuid"
    ensures Transform(c, input) == first + "IDUriuuid"
  {
    PreserveDashed(c, first, input);
  }
}
