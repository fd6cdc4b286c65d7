/**
 * `Modifiers._ProcessingTokensWithProgrammingCaseModifiers` and the
 * separator-based cases built on it
 * (_ProcessingTokensWithProgrammingCaseModifiers.swift): snake, kebab and
 * dot case use one modifier for every token and a constant separator.
 */
module SeparatorCases {
  import opened Options
  import opened Casification
  import opened DefaultTokenizer
  import opened Modifiers
  import opened ProgrammingCase
  import PT = ProcessingTokens
  import opened StandardAcronyms

  /** `_ProcessingTokensWithProgrammingCaseModifiers`' stored configuration. */
  datatype ProgrammingCaseModifier = ProgrammingCaseModifier(
    prefixPredicate: PrefixPredicate,
    mapSeparator: MapSeparator,
    firstModifier: Modifier,
    restModifier: Modifier,
    numericModifier: Modifier,
    reservedAcronyms: AcronymList)

  /** The tokens processor the modifier hands to `ProcessingTokens`. */
  function Processor(m: ProgrammingCaseModifier): ProgrammingCaseModifiers {
    ProgrammingCaseModifiers(m.prefixPredicate, m.mapSeparator, m.firstModifier, m.restModifier, m.numericModifier)
  }

  /** `transform(_:)`. */
  function Transform(m: ProgrammingCaseModifier, input: string): string {
    PT.Transform(PT.ProcessingTokens(ts => ProcessTokens(Processor(m), ts), m.reservedAcronyms), input)
  }

  /** `._programmingCaseModifiers(mapSeparator:tokenModifier:acronyms:prefixPredicate:)`. */
  function WithTokenModifier(mapSeparator: MapSeparator, tokenModifier: Modifier, acronyms: AcronymList,
                             prefixPredicate: PrefixPredicate): (r: ProgrammingCaseModifier)
    ensures r.firstModifier == r.restModifier == r.numericModifier == tokenModifier
  {
    ProgrammingCaseModifier(prefixPredicate, mapSeparator, tokenModifier, tokenModifier, tokenModifier, acronyms)
  }

  /** A separator map that answers `s` whatever it is given. */
  function ConstantSeparator(s: string): MapSeparator {
    (value: string, prev: Option<string>, next: Option<string>) => s
  }

  /** `.snake(tokenModifier:acronyms:prefixPredicate:)`. */
  function Snake(tokenModifier: Modifier, acronyms: AcronymList, prefixPredicate: PrefixPredicate): ProgrammingCaseModifier {
    WithTokenModifier(ConstantSeparator("_"), tokenModifier, acronyms, prefixPredicate)
  }

  /** `.kebab(tokenModifier:acronyms:prefixPredicate:)`. */
  function Kebab(tokenModifier: Modifier, acronyms: AcronymList, prefixPredicate: PrefixPredicate): ProgrammingCaseModifier {
    WithTokenModifier(ConstantSeparator("-"), tokenModifier, acronyms, prefixPredicate)
  }

  /** `.dot(tokenModifier:acronyms:prefixPredicate:)`. */
  function Dot(tokenModifier: Modifier, acronyms: AcronymList, prefixPredicate: PrefixPredicate): ProgrammingCaseModifier {
    WithTokenModifier(ConstantSeparator("."), tokenModifier, acronyms, prefixPredicate)
  }

  /** `.snake`, `.kebab` and `.dot`: lower-cased tokens, standard acronyms, swift-declaration prefixes. */
  function DefaultSnake(): ProgrammingCaseModifier { Snake(Lower, Standard(), SwiftDeclarations()) }

  function DefaultKebab(): ProgrammingCaseModifier { Kebab(Lower, Standard(), SwiftDeclarations()) }

  function DefaultDot(): ProgrammingCaseModifier { Dot(Lower, Standard(), SwiftDeclarations()) }

  /**
   * With one token modifier the roles collapse: every non-separator of the
   * body is that modifier applied to it, whatever its position.
   */
  lemma SingleModifierUniform(mapSeparator: MapSeparator, tokenModifier: Modifier, acronyms: AcronymList,
                              prefixPredicate: PrefixPredicate, body: seq<Token>, k: nat)
    requires k < |body| && !body[k].IsSeparator()
    ensures Expected(Processor(WithTokenModifier(mapSeparator, tokenModifier, acronyms, prefixPredicate)), body, k)
      == Token(Apply(tokenModifier, body[k].value), body[k].kind)
  {
  }

  /** Snake, kebab and dot replace every interior separator by `_`, `-` and `.`, whatever its neighbours. */
  lemma ConstantSeparators(tokenModifier: Modifier, acronyms: AcronymList, prefixPredicate: PrefixPredicate,
                           body: seq<Token>, k: nat)
    requires k < |body| && body[k].IsSeparator()
    ensures Expected(Processor(Snake(tokenModifier, acronyms, prefixPredicate)), body, k) == Token("_", Separator)
    ensures Expected(Processor(Kebab(tokenModifier, acronyms, prefixPredicate)), body, k) == Token("-", Separator)
    ensures Expected(Processor(Dot(tokenModifier, acronyms, prefixPredicate)), body, k) == Token(".", Separator)
  {
  }
}
