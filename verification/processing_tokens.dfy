/**
 * `Modifiers.ProcessingTokens` (CaseModifiers+ProcessingTokens.swift): a
 * modifier that tokenizes its input with the default tokenizer, runs a
 * tokens processor over the tokens and concatenates the result.
 */
module ProcessingTokens {
  import opened Casification
  import opened DefaultTokenizer
  import opened TokenizerProperties
  import opened AcronymOrder
  import opened Modifiers

  /** `TokensProcessor.processTokens(_:)`. */
  type TokensProcessor = seq<Token> -> seq<Token>

  /** The stored processor and `reservedAcronyms`. */
  datatype ProcessingTokens = ProcessingTokens(processor: TokensProcessor, reservedAcronyms: AcronymList)

  /** `init(using:acronyms:)`: the `$0[...]` re-slicing keeps every acronym as it is. */
  function NewProcessingTokens(processor: TokensProcessor, acronyms: AcronymList): (r: ProcessingTokens)
    ensures r.processor == processor
    ensures forall a :: a in r.reservedAcronyms <==> a in acronyms
  {
    ProcessingTokens(processor, acronyms)
  }

  /**
   * The modifier `init(using:acronyms:)` builds depends only on the set of
   * acronyms it is given: two lists of the same acronyms, in any order and
   * with any repetition, transform every input alike.
   */
  lemma InitDependsOnlyOnSet(processor: TokensProcessor, a: AcronymList, b: AcronymList, input: string)
    requires forall x :: x in a <==> x in b
    ensures Transform(NewProcessingTokens(processor, a), input) == Transform(NewProcessingTokens(processor, b), input)
  {
    var mb := NewProcessingTokens(processor, b);
    TransformConcatenatesProcessed(NewProcessingTokens(processor, a), TokenizerConfig(mb).acronyms, input);
  }

  /** The tokenizer `transform(_:)` configures: the reserved acronyms sorted longest first. */
  function TokenizerConfig(m: ProcessingTokens): (r: Config)
    ensures NonEmptyAcronyms(r.acronyms) && SortedByLength(r.acronyms)
    ensures forall a :: a in r.acronyms <==> a in m.reservedAcronyms
  {
    MakeConfig(m.reservedAcronyms)
  }

  /** `transform(_:)`. */
  function Transform(m: ProcessingTokens, input: string): string {
    Concat(m.processor(Tokenize(TokenizerConfig(m), input)))
  }

  /**
   * The output is the concatenation of what the processor makes of the
   * tokens of the input, under any length-sorted arrangement of exactly the
   * reserved acronyms.
   */
  lemma TransformConcatenatesProcessed(m: ProcessingTokens, arrangement: seq<string>, input: string)
    requires SortedByLength(arrangement)
    requires forall a :: a in arrangement <==> a in m.reservedAcronyms
    ensures NonEmptyAcronyms(arrangement)
    ensures Transform(m, input) == Concat(m.processor(Tokenize(Config(arrangement), input)))
  {
    TokenizeDependsOnlyOnSet(m.reservedAcronyms, arrangement, input);
  }

  /** With a processor that changes nothing, the modifier gives back its input. */
  lemma TransformIdentityProcessor(acronyms: AcronymList, input: string)
    ensures Transform(ProcessingTokens(ts => ts, acronyms), input) == input
  {
    TokenizeLossless(TokenizerConfig(ProcessingTokens(ts => ts, acronyms)), input);
  }

  /** `.processingTokens(with:acronyms:)`: the same modifier behind `AnyModifier`. */
  function ProcessingTokensModifier(processor: TokensProcessor, acronyms: AcronymList): Modifier {
    AnyModifier(s => Transform(NewProcessingTokens(processor, acronyms), s))
  }

  /** The factory behaves exactly as `ProcessingTokens` itself. */
  lemma FactoryAgrees(processor: TokensProcessor, acronyms: AcronymList, input: string)
    ensures Apply(ProcessingTokensModifier(processor, acronyms), input)
      == Transform(ProcessingTokens(processor, acronyms), input)
  {
  }
}
