/**
 * Single-token processors (TokenProcessor.swift): given an index and the
 * tokens, produce the tokens that replace the one at that index.
 */
module TokenProcessors {
  import opened Options
  import opened Casification
  import opened SequenceExt

  /** The closure `Inline` and the closure initializer of `AnyTokenProcessor` hold. */
  type ProcessFunction = (int, seq<Token>) -> seq<Token>

  datatype TokenProcessor =
    | Empty
    | Inline(process: ProcessFunction)
    | AnyTokenProcessor(underlying: TokenProcessor)

  /** `processToken(at:in:)`. */
  function ProcessToken(p: TokenProcessor, index: int, tokens: seq<Token>): (r: seq<Token>)
  {
    match p
    case Empty => SafeGet(tokens, index).Map(t => [t]).GetOr([])
    case Inline(process) => process(index, tokens)
    case AnyTokenProcessor(underlying) => ProcessToken(underlying, index, tokens)
  }

  /** `AnyTokenProcessor.init(_ process:)`: a type-erased inline processor. */
  function AnyOfClosure(process: ProcessFunction): TokenProcessor {
    AnyTokenProcessor(Inline(process))
  }

  /** `Empty` keeps the token at an index inside the tokens, alone, and yields nothing outside them. */
  lemma EmptyKeepsToken(index: int, tokens: seq<Token>)
    ensures 0 <= index < |tokens| ==> ProcessToken(Empty, index, tokens) == [tokens[index]]
    ensures !(0 <= index < |tokens|) ==> ProcessToken(Empty, index, tokens) == []
  {
  }

  /** `Inline` hands the index and the tokens to its closure. */
  lemma InlineCallsClosure(process: ProcessFunction, index: int, tokens: seq<Token>)
    ensures ProcessToken(Inline(process), index, tokens) == process(index, tokens)
  {
  }

  /** `AnyTokenProcessor` delegates, and its closure initializer behaves as `Inline`. */
  lemma AnyDelegates(p: TokenProcessor, process: ProcessFunction, index: int, tokens: seq<Token>)
    ensures ProcessToken(AnyTokenProcessor(p), index, tokens) == ProcessToken(p, index, tokens)
    ensures ProcessToken(AnyOfClosure(process), index, tokens) == ProcessToken(Inline(process), index, tokens)
  {
  }
}
