/**
 * Camel and pascal case (`Modifiers.Camel`, CaseModifiers+Camel.swift): the
 * programming-case processor with a mode-dependent first-token modifier, an
 * acronym-aware rest-token modifier, a separator that survives only at a
 * numeric boundary, and a separator prefixed to input that starts with a
 * digit.
 */
module CamelCase {
  import opened Options
  import opened Characters
  import opened Casification
  import opened DefaultTokenizer
  import opened Modifiers
  import opened ProgrammingCase
  import PT = ProcessingTokens
  import opened StandardAcronyms

  /** `CamelCaseConfig.Mode`. */
  datatype Mode = Automatic | Camel | Pascal

  /** `CamelCaseConfig.Acronyms.ProcessingPolicy`. */
  datatype ProcessingPolicy = Preserve | AlwaysMatchCase | AlwaysCapitalize | ConditionalCapitalization

  /** `ProcessingPolicy.default`. */
  const DefaultPolicy: ProcessingPolicy := AlwaysMatchCase

  /** `CamelCaseConfig.Acronyms`: the reserved values and how to case them. */
  datatype AcronymsConfig = AcronymsConfig(reservedValues: AcronymList, processingPolicy: ProcessingPolicy)

  /** `Acronyms.default`: the standard acronyms with the default policy. */
  function DefaultAcronyms(): AcronymsConfig {
    AcronymsConfig(Standard(), DefaultPolicy)
  }

  datatype CamelCaseConfig = CamelCaseConfig(mode: Mode, acronyms: AcronymsConfig)

  /** `.lower.combined(with: .upperFirst)`. */
  function Capitalize(s: string): string {
    Apply(Combined(Lower, UpperFirst), s)
  }

  /** The first token under `.pascal`. */
  function PascalFirst(acronyms: AcronymsConfig, input: string): string {
    if input !in acronyms.reservedValues then Capitalize(input)
    else match acronyms.processingPolicy
      case Preserve => input
      case AlwaysMatchCase => Apply(Upper, input)
      case ConditionalCapitalization => Apply(Upper, input)
      case AlwaysCapitalize => Capitalize(input)
  }

  /** The first token under `.camel`. */
  function CamelFirst(acronyms: AcronymsConfig, input: string): string {
    if input !in acronyms.reservedValues then Apply(Lower, input)
    else match acronyms.processingPolicy
      case Preserve => input
      case AlwaysMatchCase => Apply(Lower, input)
      case ConditionalCapitalization => Apply(Lower, input)
      case AlwaysCapitalize => Capitalize(input)
  }

  /** `FirstTokenModifier.transform(_:)`: `.automatic` picks camel for a lowercase start, pascal otherwise. */
  function FirstToken(config: CamelCaseConfig, input: string): string {
    match config.mode
    case Automatic =>
      if |input| == 0 then input
      else if IsLowercase(input[0]) then CamelFirst(config.acronyms, input)
      else PascalFirst(config.acronyms, input)
    case Pascal => PascalFirst(config.acronyms, input)
    case Camel => CamelFirst(config.acronyms, input)
  }

  /** `RestTokensModifier.transform(_:)`. */
  function RestToken(acronyms: AcronymsConfig, input: string): string {
    if input !in acronyms.reservedValues then Capitalize(input)
    else match acronyms.processingPolicy
      case Preserve => input
      case AlwaysMatchCase => Apply(Upper, input)
      case AlwaysCapitalize => Capitalize(input)
      case ConditionalCapitalization => Capitalize(input)
  }

  // ----- Case shapes, stated character by character -----

  predicate NoUppercase(s: string) { forall i :: 0 <= i < |s| ==> !IsUppercase(s[i]) }

  predicate NoLowercase(s: string) { forall i :: 0 <= i < |s| ==> !IsLowercase(s[i]) }

  /** Not lowercase at the start, no uppercase after it. */
  predicate Capitalized(s: string) {
    |s| == 0 || (!IsLowercase(s[0]) && forall i :: 1 <= i < |s| ==> !IsUppercase(s[i]))
  }

  /** The same text up to the case of its letters. */
  predicate SameLetters(a: string, b: string) {
    |a| == |b| && forall i :: 0 <= i < |a| ==> ToLower(a[i]) == ToLower(b[i])
  }

  /** Case maps only change the case of letters. */
  lemma CaseMapsKeepLetters(s: string)
    ensures SameLetters(Apply(Upper, s), s) && NoLowercase(Apply(Upper, s))
    ensures SameLetters(Apply(Lower, s), s) && NoUppercase(Apply(Lower, s))
    ensures SameLetters(Capitalize(s), s) && Capitalized(Capitalize(s))
  {
    var l := Apply(Lower, s);
    var c := Capitalize(s);
    forall i | 0 <= i < |s| ensures ToLower(Apply(Upper, s)[i]) == ToLower(s[i]) {
      CaseMapsInverse(s[i]);
    }
    if |s| > 0 {
      assert c == Apply(UpperFirst, l);
      assert c[0] == ToUpper(l[0]);
      CaseMapsInverse(l[0]);
      forall i | 1 <= i < |s| ensures c[i] == l[i] {
        assert c[1..][i - 1] == l[1..][i - 1];
      }
    }
  }

  /** Two strings with the same letters and the same case shape are equal. */
  lemma ShapeDetermines(a: string, b: string)
    requires SameLetters(a, b)
    requires (NoUppercase(a) && NoUppercase(b)) || (NoLowercase(a) && NoLowercase(b))
      || (Capitalized(a) && Capitalized(b))
    ensures a == b
  {
    forall i | 0 <= i < |a| ensures a[i] == b[i] {
      CaseMapsInverse(a[i]);
      CaseMapsInverse(b[i]);
    }
  }

  /** A string already in a case map's shape is left as it is. */
  lemma ShapeFixed(s: string)
    ensures NoUppercase(s) ==> Apply(Lower, s) == s
    ensures NoLowercase(s) ==> Apply(Upper, s) == s
    ensures Capitalized(s) ==> Capitalize(s) == s
  {
    CaseMapsKeepLetters(s);
    if NoUppercase(s) {
      ShapeDetermines(Apply(Lower, s), s);
    }
    if NoLowercase(s) {
      ShapeDetermines(Apply(Upper, s), s);
    }
    if Capitalized(s) {
      ShapeDetermines(Capitalize(s), s);
    }
  }

  /**
   * The first token under `.pascal`: a non-acronym is capitalized; an
   * acronym is kept under `preserve`, upper-cased under `alwaysMatchCase`
   * and `conditionalCapitalization`, capitalized under `alwaysCapitalize`.
   * Only the case of letters ever changes.
   */
  lemma PascalFirstShape(acronyms: AcronymsConfig, input: string)
    ensures var r := PascalFirst(acronyms, input);
      && SameLetters(r, input)
      && (input !in acronyms.reservedValues ==> Capitalized(r))
      && (input in acronyms.reservedValues ==> match acronyms.processingPolicy
            case Preserve => r == input
            case AlwaysMatchCase => NoLowercase(r)
            case ConditionalCapitalization => NoLowercase(r)
            case AlwaysCapitalize => Capitalized(r))
  {
    CaseMapsKeepLetters(input);
  }

  /**
   * The first token under `.camel`: a non-acronym is lower-cased; an acronym
   * is kept under `preserve`, lower-cased under `alwaysMatchCase` and
   * `conditionalCapitalization`, capitalized under `alwaysCapitalize`.
   */
  lemma CamelFirstShape(acronyms: AcronymsConfig, input: string)
    ensures var r := CamelFirst(acronyms, input);
      && SameLetters(r, input)
      && (input !in acronyms.reservedValues ==> NoUppercase(r))
      && (input in acronyms.reservedValues ==> match acronyms.processingPolicy
            case Preserve => r == input
            case AlwaysMatchCase => NoUppercase(r)
            case ConditionalCapitalization => NoUppercase(r)
            case AlwaysCapitalize => Capitalized(r))
  {
    CaseMapsKeepLetters(input);
  }

  /**
   * Every later token: a non-acronym is capitalized; an acronym is kept under
   * `preserve`, upper-cased under `alwaysMatchCase`, capitalized under
   * `alwaysCapitalize` and `conditionalCapitalization`. Whether a token is an
   * acronym is decided by its text alone.
   */
  lemma RestTokenShape(acronyms: AcronymsConfig, input: string)
    ensures var r := RestToken(acronyms, input);
      && SameLetters(r, input)
      && (input !in acronyms.reservedValues ==> Capitalized(r))
      && (input in acronyms.reservedValues ==> match acronyms.processingPolicy
            case Preserve => r == input
            case AlwaysMatchCase => NoLowercase(r)
            case AlwaysCapitalize => Capitalized(r)
            case ConditionalCapitalization => Capitalized(r))
  {
    CaseMapsKeepLetters(input);
  }

  /** `.automatic` leaves the empty token alone and otherwise follows the case of the first character. */
  lemma AutomaticMode(acronyms: AcronymsConfig, input: string)
    ensures |input| == 0 ==> FirstToken(CamelCaseConfig(Automatic, acronyms), input) == input
    ensures |input| > 0 && IsLowercase(input[0]) ==>
      FirstToken(CamelCaseConfig(Automatic, acronyms), input) == FirstToken(CamelCaseConfig(Camel, acronyms), input)
    ensures |input| > 0 && !IsLowercase(input[0]) ==>
      FirstToken(CamelCaseConfig(Automatic, acronyms), input) == FirstToken(CamelCaseConfig(Pascal, acronyms), input)
  {
  }

  /** The numeric-boundary `mapSeparator`: `prev?.last?.isNumber == true || next?.first?.isNumber == true`. */
  function NumericBoundary(prev: Option<string>, next: Option<string>): bool {
    || (prev.Some? && |prev.value| > 0 && IsNumber(prev.value[|prev.value| - 1]))
    || (next.Some? && |next.value| > 0 && IsNumber(next.value[0]))
  }

  function NumericSeparatorMap(numericSeparator: string): MapSeparator {
    (separator: string, prev: Option<string>, next: Option<string>) =>
      if NumericBoundary(prev, next) then numericSeparator else ""
  }

  /**
   * An interior separator becomes the numeric separator exactly when a digit
   * touches it, and disappears otherwise; its own text never matters.
   */
  lemma NumericSeparatorMapSpec(numericSeparator: string, separator: string, prev: string, next: string)
    ensures var r := NumericSeparatorMap(numericSeparator)(separator, Some(prev), Some(next));
      && (r == numericSeparator <== ((|prev| > 0 && IsNumber(prev[|prev| - 1])) || (|next| > 0 && IsNumber(next[0]))))
      && (!((|prev| > 0 && IsNumber(prev[|prev| - 1])) || (|next| > 0 && IsNumber(next[0]))) ==> r == "")
  {
  }

  /** `Modifiers.Camel`. */
  datatype CamelModifier = CamelModifier(config: CamelCaseConfig, prefixPredicate: PrefixPredicate, numericSeparator: string)

  /** The `_ProgrammingCaseModifiers` that `Camel.transform(_:)` builds. */
  function Processor(c: CamelModifier): ProgrammingCaseModifiers {
    ProgrammingCaseModifiers(
      c.prefixPredicate,
      NumericSeparatorMap(c.numericSeparator),
      AnyModifier(s => FirstToken(c.config, s)),
      AnyModifier(s => RestToken(c.config.acronyms, s)),
      Empty)
  }

  /** The input with the numeric separator in front when it starts with a digit. */
  function TokenizableInput(c: CamelModifier, input: string): (r: string)
    ensures |input| > 0 && IsNumber(input[0]) ==> r == c.numericSeparator + input
    ensures !(|input| > 0 && IsNumber(input[0])) ==> r == input
  {
    if |input| > 0 && IsNumber(input[0]) then c.numericSeparator + input else input
  }

  /** The tokens-processing modifier `Camel.transform(_:)` applies. */
  function Inner(c: CamelModifier): PT.ProcessingTokens {
    PT.ProcessingTokens(ts => ProcessTokens(Processor(c), ts), c.config.acronyms.reservedValues)
  }

  /** `Camel.transform(_:)`. */
  function Transform(c: CamelModifier, input: string): string {
    PT.Transform(Inner(c), TokenizableInput(c, input))
  }

  /**
   * In the camel processor, numbers before the first word keep their text,
   * the first word or acronym goes through the first-token modifier and
   * every later non-separator through the rest-token modifier.
   */
  lemma CamelRoles(c: CamelModifier, body: seq<Token>, k: nat)
    requires k < |body|
    ensures RoleAt(body, k) == NumericRole ==> Expected(Processor(c), body, k) == body[k]
    ensures RoleAt(body, k) == FirstRole ==>
      Expected(Processor(c), body, k) == Token(FirstToken(c.config, body[k].value), body[k].kind)
    ensures RoleAt(body, k) == RestRole ==>
      Expected(Processor(c), body, k) == Token(RestToken(c.config.acronyms, body[k].value), body[k].kind)
  {
  }

  /** `.camel(_:acronyms:numericPrefix:)`: swift-declaration prefixes kept. */
  function CamelWith(mode: Mode, acronyms: AcronymsConfig, numericPrefix: string): CamelModifier {
    CamelModifier(CamelCaseConfig(mode, acronyms), SwiftDeclarations(), numericPrefix)
  }

  /** `.camel` and `.pascal`: default acronyms, `_` as the numeric separator. */
  function CamelDefault(): CamelModifier { CamelWith(Camel, DefaultAcronyms(), "_") }

  function PascalDefault(): CamelModifier { CamelWith(Pascal, DefaultAcronyms(), "_") }

  /** `.camel()`: automatic mode, the default acronyms, `_` as the numeric separator. */
  function AutomaticDefault(): CamelModifier { CamelWith(Automatic, DefaultAcronyms(), "_") }

  /** `.camel(_:acronyms:prefixPredicate:numericPrefix:)`: a custom prefix predicate. */
  function CamelCustom(mode: Mode, acronyms: AcronymsConfig, prefixPredicate: PrefixPredicate, numericPrefix: string): Modifier {
    AnyModifier(s => Transform(CamelModifier(CamelCaseConfig(mode, acronyms), prefixPredicate, numericPrefix), s))
  }
}
