# swift-casification in Dafny

A model of the string pipeline of swift-casification: an input string is split
into word, number, acronym and separator tokens by the default tokenizer, the
tokens are re-cased by a tokens processor, and their values are concatenated
back into the output. On top of that pipeline sit the programming cases
(camel, pascal, snake, kebab, dot), the modifier algebra (`Combine`, `Empty`,
`Upper`, `Lower`, `UpperFirst`, `LowerFirst`, `Swap`, `AnyModifier`), the
single-token processors, the safe-subscript helpers and the typed
configuration store.

Modules, one per part of the library:

- `Characters`: ASCII character classes and one-to-one case maps.
- `Casification`: `Token`, `Token.Kind`, descriptions, `tokenize(using:)`.
- `DefaultTokenizer`: `Tokenizers.Default`. The `while` loop of `tokenize(_:)`
  is a recursive scan over a cursor (`currentStart`, `currentIndex`, tokens so
  far), one `Step` per iteration.
- `TokenizerProperties`: the tokenizer is lossless, and its output is well-formed.
  Kinds alternate, words and numbers are uniform spans, separator runs are maximal,
  and acronyms glued to words respect the suffix rule.
- `AcronymOrder`: `Default.Config.init(acronyms:)` sorts by descending length.
  Any length-sorted arrangement of the same acronym set tokenizes identically.
- `StandardAcronyms`: the default acronym set.
- `SequenceExt`: `isNotEmpty`, `subscript(safe:)`, and `firstIndex(where:)`.
- `Modifiers`: the basic modifiers and their algebra.
- `TokenProcessors`: `Empty`, `Inline`, `AnyTokenProcessor`.
- `ProgrammingCase`: `_ProgrammingCaseModifiers.processTokens` and the prefix
  predicates. An independent per-position description (`RoleAt`, `Expected`)
  is proved equal to the loop.
- `ProcessingTokens`: tokenize, process, concatenate.
- `CamelCase`: camel/pascal modes, acronym processing policies, the numeric
  separator and the leading-digit prefix.
- `SeparatorCases`: the single-token-modifier factory, snake, kebab, dot.
- `ConfigurationStore`: `_Storage` and `Configuration` with right-biased `merging`.
- `TokenizerTrace`: one lemma per branch of the tokenizer loop (acronym,
  separator run, transition, extension, end of input) and lookup facts about the
  default acronyms, so that a concrete input can be traced through the loop.
- `TokenizerExamples`: the tokenizer on inputs of its own tests.
- `SeparatorExamples`: snake, kebab and dot on the inputs of their tests.
- `CamelExamples`: camel case under every acronym processing policy on the dashed
  inputs "url-ID-Uri-uuid", "URL-ID-Uri-uuid" and "Url-ID-Uri-uuid".
- `AcronymWordExamples`: an acronym glued to a word ("URLAcronym", "uuidAcronym")
  in automatic, camel and pascal modes.
- `NumericExamples`: "NumericSeparator.1.0", "UPPERCASE" and "1Numbered" in
  automatic, camel and pascal modes.

Characters are modelled over ASCII: `isUppercase` is `A`-`Z`, `isLowercase`
is `a`-`z`, `isNumber` is `0`-`9`, `isLetter` is either case, and the case
maps are one character to one character. Swift `Set<Substring>` acronym sets
are sequences; only membership and (for the tokenizer) the descending-length
order matter, and `AcronymOrder.TokenizeDependsOnlyOnSet` proves the order
among equal-length acronyms is irrelevant. The tokenizer requires non-empty
acronyms (`DefaultTokenizer.AcronymList`); see "## Left out" for why.

## Model

| member | source | states |
|---|---|---|
| Casification.WithValueRoundTrip | Sources/Casification/Casification.swift:24-26 | `withValue(_:)` changes only the value: giving back the old value restores the token, the last of two replacements wins, the kind is kept |
| Casification.NewTokenNeutral | Sources/Casification/Casification.swift:18-21 | a token made with the default value contributes nothing to a concatenation on either side, and `withValue(v)` of it is the token of value `v` and the same kind |
| Casification.KindNameDetermines | Sources/Casification/Casification.swift:34-41 | the four kind names differ already in their first character |
| Casification.Description | Sources/Casification/Casification.swift:44-46 | `.kind("value")`: a dot, the kind name, `("`, the value, `")` |
| Casification.DescriptionInjective | Sources/Casification/Casification.swift:34-46 | two tokens with the same description are the same token |
| TokenizerProperties.TokenizeUsingDefault | Sources/Casification/Casification.swift:52-65 | `tokenize(using:)` with the default tokenizer yields well-formed tokens whose values concatenate back to the whole string |
| DefaultTokenizer.GetAcronymIndex | Sources/Casification/Tokenization/DefaultTokenizer.swift:62-95 | a found index lies in the list and its acronym occurs literally at the position |
| DefaultTokenizer.GetAcronym | Sources/Casification/Tokenization/DefaultTokenizer.swift:62-95 | a returned acronym is one of the configured ones and occurs literally at the position |
| DefaultTokenizer.GetAcronymIndexFirst | Sources/Casification/Tokenization/DefaultTokenizer.swift:63-94 | `first(where:)`: the found acronym is accepted, no earlier one is, and nil means none is |
| DefaultTokenizer.GetAcronymFirstAccepted | Sources/Casification/Tokenization/DefaultTokenizer.swift:62-95 | `getAcronym(at:)` answers the earliest accepted acronym, and nil exactly when no acronym is accepted |
| DefaultTokenizer.SeparatorRunEnd | Sources/Casification/Tokenization/DefaultTokenizer.swift:128-136 | the end of a separator run lies between the start and the end of the input |
| DefaultTokenizer.SeparatorRunEndSpec | Sources/Casification/Tokenization/DefaultTokenizer.swift:128-143 | a separator run holds only non-alphanumerics and stops at a letter, a digit or the end |
| DefaultTokenizer.Step | Sources/Casification/Tokenization/DefaultTokenizer.swift:97-166 | every loop iteration moves `currentIndex` forward and keeps `currentStart <= currentIndex <= end` |
| TokenizerProperties.SpanTokenWellFormed | Sources/Casification/Tokenization/DefaultTokenizer.swift:48-52 | a flushed span without transitions is a number exactly when all its characters are digits, and a word of letters otherwise |
| TokenizerProperties.CommitOk | Sources/Casification/Tokenization/DefaultTokenizer.swift:54-60 | `commitToken` keeps the output well-formed and inserts the empty separator between two non-separators |
| TokenizerProperties.StepOk | Sources/Casification/Tokenization/DefaultTokenizer.swift:97-166 | every branch of the loop body keeps the scan invariant: committed tokens concatenate to the consumed input and are well-formed |
| TokenizerProperties.ScanOk | Sources/Casification/Tokenization/DefaultTokenizer.swift:97-169 | the scan keeps its invariant to the end of the input, where the final flush completes it |
| TokenizerProperties.TokenizeLossless | Sources/Casification/Tokenization/DefaultTokenizer.swift:43-170 | concatenating the token values in order gives back the input |
| TokenizerProperties.TokenizeWellFormed | Sources/Casification/Tokenization/DefaultTokenizer.swift:43-170 | kinds alternate; empty separators only sit between two tokens; separator runs are maximal; words are letters without transitions, numbers are digits, acronyms are configured; an acronym glued to a word does not start lowercase and does not follow an uppercase letter unless it starts with a digit |
| TokenizerProperties.TokenizeEmpty | Sources/Casification/Tokenization/DefaultTokenizer.swift:168-169 | the empty input gives no tokens |
| AcronymOrder.InsertByLength | Sources/Casification/Tokenization/DefaultTokenizer.swift:23 | insertion adds exactly one occurrence of the element |
| AcronymOrder.InsertByLengthSorted | Sources/Casification/Tokenization/DefaultTokenizer.swift:23 | inserting into a descending-length list keeps it sorted |
| AcronymOrder.SortByLength | Sources/Casification/Tokenization/DefaultTokenizer.swift:23 | the sort is a permutation in descending length order |
| AcronymOrder.MakeConfig | Sources/Casification/Tokenization/DefaultTokenizer.swift:19-25 | the configuration holds exactly the given acronyms, longest first |
| AcronymOrder.SortByLengthKeepsSorted | Sources/Casification/Tokenization/DefaultTokenizer.swift:23 | an already sorted list is left as it is |
| AcronymOrder.SearchFindsAccepted | Sources/Casification/Tokenization/DefaultTokenizer.swift:91 | the recursive "another acronym follows" check succeeds exactly when some listed acronym is accepted there |
| AcronymOrder.AcceptsDependsOnSet | Sources/Casification/Tokenization/DefaultTokenizer.swift:65-94 | whether an acronym is accepted depends only on the set of acronyms |
| AcronymOrder.GetAcronymLongest | Sources/Casification/Tokenization/DefaultTokenizer.swift:23-95 | with longest-first order the acronym found is a longest accepted one |
| AcronymOrder.GetAcronymDependsOnSet | Sources/Casification/Tokenization/DefaultTokenizer.swift:62-95 | two length-sorted lists of the same acronyms find the same acronym |
| AcronymOrder.StepDependsOnSet | Sources/Casification/Tokenization/DefaultTokenizer.swift:116-124 | a loop iteration is the same for both lists |
| AcronymOrder.ScanDependsOnSet | Sources/Casification/Tokenization/DefaultTokenizer.swift:97-169 | the whole scan is the same for both lists |
| AcronymOrder.TokenizeDependsOnlyOnSet | Sources/Casification/Tokenization/DefaultTokenizer.swift:15-32 | any descending-length arrangement of the acronym set tokenizes every input as the configured sort does |
| StandardAcronyms.GroupLengths | Sources/Casification/Configuration/Common/Acronyms/AcronymsConfig.swift:3-22 | the default acronyms have four, three and two characters |
| StandardAcronyms.Standard | Sources/Casification/Configuration/Common/Acronyms/AcronymsConfig.swift:3-22 | the default set, longest first, of exactly the listed acronyms |
| StandardAcronyms.StandardConfig | Sources/Casification/Tokenization/DefaultTokenizer.swift:19-25 | the tokenizer configuration of the default set keeps the listed order |
| SequenceExt.IsNotEmptyIffNotEmpty | Sources/Casification/Internal/Sequence+.swift:3 | `isNotEmpty` is `!isEmpty` |
| SequenceExt.SafeGet | Sources/Casification/Internal/Sequence+.swift:48-56 | the element at an index inside the collection, nil outside |
| SequenceExt.SafeGetOptional | Sources/Casification/Internal/Sequence+.swift:38-46 | a nil index reads nil; otherwise as the plain safe get |
| SequenceExt.SafeSet | Sources/Casification/Internal/Sequence+.swift:28-34 | a non-nil value inside the bounds replaces only that position; anything else leaves the collection unchanged |
| SequenceExt.SafeOptionalRoundTrip | Sources/Casification/Internal/Sequence+.swift:9-17 | through an optional index, a write reads back as the written value when the index is present and inside the bounds and nil otherwise; writing back what was read changes nothing; other indices keep their values |
| SequenceExt.SafeGetAfterSet | Sources/Casification/Internal/Sequence+.swift:22-35 | reading back a safe write returns the value inside the bounds and nil outside |
| SequenceExt.SafeSetOtherIndex | Sources/Casification/Internal/Sequence+.swift:28-34 | a safe write leaves every other index's read unchanged |
| SequenceExt.SafeSetOfSafeGet | Sources/Casification/Internal/Sequence+.swift:22-35 | writing back what was read changes nothing |
| SequenceExt.FirstIndex | Sources/Casification/Tokenization/_ProgrammingCaseModifiers.swift:54 | the first position satisfying the predicate, nil when there is none |
| Modifiers.CaseCombined | Sources/Casification/CaseModifiers/CaseModifiers.swift:55-66 | casing with `a.combined(with: b)` cases with `a`, then with `b` |
| Modifiers.EraseDelegates | Sources/Casification/CaseModifiers/CaseModifiers+Basic.swift:11-26 | `AnyModifier` wrapping a modifier transforms exactly as that modifier |
| Modifiers.EmptyIsIdentity | Sources/Casification/CaseModifiers/CaseModifiers+Basic.swift:37-39 | `Empty` is the identity and neutral on both sides of `Combine` |
| Modifiers.CombineAssociative | Sources/Casification/CaseModifiers/CaseModifiers.swift:55-57 | `Combine` is associative |
| Modifiers.UpperShape | Sources/Casification/CaseModifiers/CaseModifiers+Basic.swift:55-57 | `Upper` leaves no lowercase letter and keeps every other character |
| Modifiers.UpperIdempotent | Sources/Casification/CaseModifiers/CaseModifiers+Basic.swift:55-57 | `Upper` is idempotent |
| Modifiers.LowerIdempotent | Sources/Casification/CaseModifiers/CaseModifiers+Basic.swift:73-75 | `Lower` is idempotent |
| Modifiers.UpperThenLower | Sources/Casification/CaseModifiers/CaseModifiers.swift:55-57 | `upper` combined with `lower` is `lower` |
| Modifiers.LowerThenUpper | Sources/Casification/CaseModifiers/CaseModifiers.swift:55-57 | `lower` combined with `upper` is `upper` |
| Modifiers.FirstCharOnly | Sources/Casification/CaseModifiers/CaseModifiers+Basic.swift:91-111 | `UpperFirst` and `LowerFirst` keep the length and every character after the first; "" stays "" |
| Modifiers.SwapInvolution | Sources/Casification/CaseModifiers/CaseModifiers+Basic.swift:145-153 | swapping twice restores the input |
| Modifiers.SwapAgreesWithCaseMaps | Sources/Casification/CaseModifiers/CaseModifiers+Basic.swift:146-152 | each lowercase character is upper-cased, every other one lower-cased, independently |
| Modifiers.LowerThenUpperFirstExample | Tests/CasificationTests/BasicCaseModifiersTests.swift:60 | "HELLO, WORLD!" under lower then upperFirst is "Hello, world!" |
| Modifiers.LowerFirstExample | Tests/CasificationTests/BasicCaseModifiersTests.swift:35 | "HELLO, WORLD!" under lowerFirst is "hELLO, WORLD!" |
| Modifiers.UpperExample | Tests/CasificationTests/BasicCaseModifiersTests.swift:11 | "HELLO, WORLD!" under upper is unchanged |
| TokenProcessors.EmptyKeepsToken | Sources/Casification/Tokenization/TokenProcessor.swift:85-91 | `Empty` yields exactly the token at an index inside the tokens and nothing outside |
| TokenProcessors.InlineCallsClosure | Sources/Casification/Tokenization/TokenProcessor.swift:57-63 | `Inline` returns its closure applied to the index and the tokens |
| TokenProcessors.AnyDelegates | Sources/Casification/Tokenization/TokenProcessor.swift:23-38 | `AnyTokenProcessor` delegates; its closure initializer behaves as `Inline` |
| ProgrammingCase.AllowedOf | Sources/Casification/Tokenization/_ProgrammingCaseModifiers.swift:164-167 | `allowedCharacters(_:)` allows exactly the given characters |
| ProgrammingCase.PrefixPredicateAnswers | Sources/Casification/Tokenization/_ProgrammingCaseModifiers.swift:117-197 | `swiftDeclarations` allows exactly `$` and `_`; `const(b)` answers `b`; `AnyPrefixPredicate` answers as the predicate it wraps |
| ProgrammingCase.Filter | Sources/Casification/Tokenization/_ProgrammingCaseModifiers.swift:61 | the filtered value is no longer than the original and holds only allowed characters |
| ProgrammingCase.FilterAppend | Sources/Casification/Tokenization/_ProgrammingCaseModifiers.swift:60-62 | filtering distributes over concatenation |
| ProgrammingCase.FilterKeepsAllowed | Sources/Casification/Tokenization/_ProgrammingCaseModifiers.swift:61 | all-allowed text is kept whole, all-disallowed text vanishes |
| ProgrammingCase.CollectPrefixFiltersConcat | Sources/Casification/Tokenization/_ProgrammingCaseModifiers.swift:60-62 | the collected prefix is the allowed characters of the leading separators, in order |
| ProgrammingCase.TrimTrailingSeparators | Sources/Casification/Tokenization/_ProgrammingCaseModifiers.swift:70-71 | the result is a prefix of the tokens, does not end with a separator, and only separators were removed |
| ProgrammingCase.PrefixTokens | Sources/Casification/Tokenization/_ProgrammingCaseModifiers.swift:64-66 | one separator holding the prefix when it is non-empty, nothing otherwise |
| ProgrammingCase.BodyFrom | Sources/Casification/Tokenization/_ProgrammingCaseModifiers.swift:76-107 | the loop emits one token per body token |
| ProgrammingCase.BodyFromSpec | Sources/Casification/Tokenization/_ProgrammingCaseModifiers.swift:74-107 | the loop emits at every position the token its role prescribes, with `caughtNonNumeric` tracking whether a word or acronym was passed |
| ProgrammingCase.ExpectedKeepsKind | Sources/Casification/Tokenization/_ProgrammingCaseModifiers.swift:76-107 | every body token keeps its kind |
| ProgrammingCase.FirstRoleUnique | Sources/Casification/Tokenization/_ProgrammingCaseModifiers.swift:89-106 | at most one token goes through the first modifier, and it is the first word or acronym |
| ProgrammingCase.NumericRoleIsNumber | Sources/Casification/Tokenization/_ProgrammingCaseModifiers.swift:94-99 | the numeric modifier only ever sees numbers |
| ProgrammingCase.NoNonSeparatorUnchanged | Sources/Casification/Tokenization/_ProgrammingCaseModifiers.swift:54-55 | tokens without a word, number or acronym, the empty sequence included, are returned unchanged |
| ProgrammingCase.ProcessTokensShape | Sources/Casification/Tokenization/_ProgrammingCaseModifiers.swift:51-111 | the output is the collapsed filtered prefix followed by the trimmed body, position by position as the roles prescribe |
| ProgrammingCase.ProcessTokensEndsWithNonSeparator | Sources/Casification/Tokenization/_ProgrammingCaseModifiers.swift:69-71 | when a non-separator exists the output ends with a non-separator: trailing separators are dropped |
| ProgrammingCase.InteriorSeparatorNeighbours | Sources/Casification/Tokenization/_ProgrammingCaseModifiers.swift:76-86 | an interior separator has both neighbours and becomes `mapSeparator(value, prev.value, next.value)` |
| ProcessingTokens.InitDependsOnlyOnSet | Sources/Casification/CaseModifiers/CaseModifiers+ProcessingTokens.swift:13-19 | two acronym lists with the same elements, in any order or repetition, give modifiers that transform every input alike |
| ProcessingTokens.TokenizerConfig | Sources/Casification/CaseModifiers/CaseModifiers+ProcessingTokens.swift:23-25 | the tokenizer is configured with exactly the reserved acronyms, longest first |
| ProcessingTokens.TransformConcatenatesProcessed | Sources/Casification/CaseModifiers/CaseModifiers+ProcessingTokens.swift:22-30 | the output concatenates the processed tokens of the input, whatever the arrangement of equal-length acronyms |
| ProcessingTokens.TransformIdentityProcessor | Sources/Casification/CaseModifiers/CaseModifiers+ProcessingTokens.swift:22-30 | with a processor that changes nothing the output is the input |
| ProcessingTokens.FactoryAgrees | Sources/Casification/CaseModifiers/CaseModifiers+ProcessingTokens.swift:37-45 | `processingTokens(with:acronyms:)` behaves as `ProcessingTokens` |
| CamelCase.CaseMapsKeepLetters | Sources/Casification/CaseModifiers/CaseModifiers+Camel.swift:137 | upper, lower and capitalize change only the case of letters, giving all-upper, all-lower and capitalized text |
| CamelCase.ShapeDetermines | Sources/Casification/CaseModifiers/CaseModifiers+Camel.swift:136-159 | the letters and the case shape determine a token |
| CamelCase.PascalFirstShape | Sources/Casification/CaseModifiers/CaseModifiers+Camel.swift:135-146 | pascal first token: non-acronyms capitalized; acronyms kept, upper-cased or capitalized by policy |
| CamelCase.CamelFirstShape | Sources/Casification/CaseModifiers/CaseModifiers+Camel.swift:148-159 | camel first token: non-acronyms lower-cased; acronyms kept, lower-cased or capitalized by policy |
| CamelCase.RestTokenShape | Sources/Casification/CaseModifiers/CaseModifiers+Camel.swift:177-189 | later tokens: non-acronyms capitalized; acronyms kept, upper-cased or capitalized by policy |
| CamelCase.AutomaticMode | Sources/Casification/CaseModifiers/CaseModifiers+Camel.swift:127-133 | automatic mode keeps empty input and follows camel for a lowercase start, pascal otherwise |
| CamelCase.NumericSeparatorMapSpec | Sources/Casification/CaseModifiers/CaseModifiers+Camel.swift:240-245 | an interior separator becomes the numeric separator exactly when a neighbouring digit touches it, and "" otherwise |
| NumericExamples.LeadingDigit | Sources/Casification/CaseModifiers/CaseModifiers+Camel.swift:233-235 | an input starting with a digit is tokenized with the numeric separator in front: "1Numbered" becomes "_1_numbered" in camel case and "_1_Numbered" in pascal and automatic mode |
| NumericExamples.LeadingTokenize | Sources/Casification/Tokenization/DefaultTokenizer.swift:97-169 | "_1Numbered" is the separator "_", the number "1", an empty separator at the digit-letter change and the word "Numbered" |
| CamelCase.CamelRoles | Sources/Casification/CaseModifiers/CaseModifiers+Camel.swift:237-255 | leading numbers keep their text, the first word or acronym gets the first-token rules, the rest the rest-token rules |
| SeparatorCases.WithTokenModifier | Sources/Casification/CaseModifiers/_ProcessingTokensWithProgrammingCaseModifiers.swift:96-118 | one modifier serves as first, rest and numeric modifier |
| SeparatorCases.SingleModifierUniform | Sources/Casification/CaseModifiers/_ProcessingTokensWithProgrammingCaseModifiers.swift:96-118 | with one modifier every non-separator is re-cased alike, whatever its position |
| SeparatorCases.ConstantSeparators | Sources/Casification/CaseModifiers/_ProcessingTokensWithProgrammingCaseModifiers.swift:120-226 | snake, kebab and dot turn every interior separator into `_`, `-` and `.` whatever its neighbours |
| ConfigurationStore.EmptyStorage | Sources/Casification/Configuration/Configuration+Storage.swift:8-22 | a new storage reads every key's default |
| ConfigurationStore.Get | Sources/Casification/Configuration/Configuration+Storage.swift:19-22 | the stored value of a set key, the key's default otherwise |
| ConfigurationStore.Set | Sources/Casification/Configuration/Configuration+Storage.swift:23-25 | a write adds exactly the written key |
| ConfigurationStore.NewConfiguration | Sources/Casification/Configuration/Configuration.swift:13-34 | a new configuration reads every key's default, and merging it into a configuration changes no read |
| ConfigurationStore.Merging | Sources/Casification/Configuration/Configuration.swift:23-27 | the merged keys are the keys of both configurations |
| ConfigurationStore.FreshReadsDefault | Sources/Casification/Configuration/Configuration+Storage.swift:8-22 | a fresh configuration reads every key's default |
| ConfigurationStore.ReadAfterWrite | Sources/Casification/Configuration/Configuration.swift:29-34 | reading a key after writing it returns the written value |
| ConfigurationStore.WriteOtherKey | Sources/Casification/Configuration/Configuration+Storage.swift:23-25 | writing one key leaves every other key's value unchanged |
| ConfigurationStore.MergingReads | Sources/Casification/Configuration/Configuration.swift:23-27 | after `a.merging(b)` a key set in `b` reads `b`'s value and any other key reads `a`'s |
| ConfigurationStore.MergingFresh | Sources/Casification/Configuration/Configuration.swift:23-27 | merging with a fresh configuration on either side changes nothing |
| CamelCase.ShapeFixed | Sources/Casification/CaseModifiers/CaseModifiers+Camel.swift:136-159 | lower-casing all-lowercase text, upper-casing all-uppercase text and capitalizing capitalized text change nothing |
| TokenizerProperties.ScanEndOk | Sources/Casification/Tokenization/DefaultTokenizer.swift:168-169 | the final flush leaves well-formed tokens that concatenate to the whole input |
| TokenizerTrace.LookupLongest | Sources/Casification/Tokenization/DefaultTokenizer.swift:62-95 | `getAcronym(at:)` answers an accepted acronym when no longer one is accepted there |
| TokenizerTrace.LookupNone | Sources/Casification/Tokenization/DefaultTokenizer.swift:62-95 | `getAcronym(at:)` answers nil when no acronym is accepted there |
| TokenizerTrace.InitialFree | Sources/Casification/Tokenization/DefaultTokenizer.swift:62-95 | no default acronym is found at a character that none of them starts with |
| TokenizerTrace.DefaultFree | Sources/Casification/Tokenization/DefaultTokenizer.swift:62-95 | no default acronym is found where the next two characters open none of them |
| TokenizerTrace.ShortConfig | Sources/Casification/Tokenization/DefaultTokenizer.swift:19-25 | a configuration of two- to four-character acronyms is sorted and has no empty acronym |
| TokenizerTrace.ScanAcronym | Sources/Casification/Tokenization/DefaultTokenizer.swift:99-124 | an acronym that is not the tail of the pending span flushes the span and is committed as an acronym |
| TokenizerTrace.ScanSeparator | Sources/Casification/Tokenization/DefaultTokenizer.swift:128-143 | a maximal run of non-alphanumerics flushes the span and is committed as one separator |
| TokenizerTrace.ScanTransition | Sources/Casification/Tokenization/DefaultTokenizer.swift:146-161 | a lower-to-upper or letter-digit transition after the cursor closes the pending span there |
| TokenizerTrace.ScanExtend | Sources/Casification/Tokenization/DefaultTokenizer.swift:165 | any other character joins the pending span |
| TokenizerTrace.ScanWord | Sources/Casification/Tokenization/DefaultTokenizer.swift:97-166 | the pending span grows over a stretch of characters that neither start a token nor end the span |
| TokenizerTrace.ScanAtEnd | Sources/Casification/Tokenization/DefaultTokenizer.swift:168-169 | at the end of the input the pending span is flushed |
| TokenizerExamples.Prefixed | Tests/CasificationTests/TokenizationTests.swift:51-56 | "$_prefixedThing" is a separator "$_", the word "prefixed", the empty separator and the word "Thing" |
| TokenizerExamples.Midlane | Tests/CasificationTests/TokenizationTests.swift:61-75 | "Midlane", "MIDlane", "MIDLane" and "MIDLANE" are each one word |
| TokenizerExamples.UuidString | Tests/CasificationTests/TokenizationTests.swift:91-95 | "UUIDString" is the acronym "UUID", the empty separator and the word "String" |
| TokenizerExamples.UuidUpper | Tests/CasificationTests/TokenizationTests.swift:97-99 | "UUIDSTRING" is one word |
| TokenizerExamples.HiddenUuid | Tests/CasificationTests/TokenizationTests.swift:168-171 | an acronym inside a lowercase word is not detected: "hasuuidacronym" is one word |
| TokenizerExamples.HasUuid | Tests/CasificationTests/TokenizationTests.swift:173-179 | "hasUUIDacronym" is the word "has", the acronym "UUID" and the word "acronym", joined by empty separators |
| TokenizerExamples.Grid | Tests/CasificationTests/TokenizationTests.swift:230-240 | "grid1x1" alternates words and numbers at every letter-digit transition |
| TokenizerExamples.UnionTestId | Tests/CasificationTests/WithAcronymsTests.swift:20-27 | with "test" and "id" added to the default acronyms, "test_id" is two acronyms around the separator "_" |
| TokenizerExamples.IdTestId | Tests/CasificationTests/WithAcronymsTests.swift:29-34 | with "id" the only acronym, "test_id" is the word "test", the separator "_" and the acronym "id" |
| SeparatorExamples.SnakeEmpty | Tests/CasificationTests/SeparatorBasedModifiersTests.swift:8 | snake case keeps "" |
| SeparatorExamples.SnakeLetter | Tests/CasificationTests/SeparatorBasedModifiersTests.swift:9 | snake case keeps "a" |
| SeparatorExamples.SnakePrefixed | Tests/CasificationTests/SeparatorBasedModifiersTests.swift:10 | "<<<$helloWorld" in snake case is "$hello_world": only `$` survives of the prefix |
| SeparatorExamples.SnakeHello | Tests/CasificationTests/SeparatorBasedModifiersTests.swift:11 | "Hello, World!" in snake case is "hello_world" |
| SeparatorExamples.SnakeVerbatim | Tests/CasificationTests/SeparatorBasedModifiersTests.swift:12 | with the empty token modifier and no prefix, "Hello, World!" is "Hello_World" |
| SeparatorExamples.KebabEmpty | Tests/CasificationTests/SeparatorBasedModifiersTests.swift:17 | kebab case keeps "" |
| SeparatorExamples.KebabLetter | Tests/CasificationTests/SeparatorBasedModifiersTests.swift:18 | kebab case keeps "a" |
| SeparatorExamples.KebabPrefixed | Tests/CasificationTests/SeparatorBasedModifiersTests.swift:19 | "<<<$helloWorld" in kebab case is "$hello-world" |
| SeparatorExamples.KebabHello | Tests/CasificationTests/SeparatorBasedModifiersTests.swift:20 | "Hello, World!" in kebab case is "hello-world" |
| SeparatorExamples.KebabVerbatim | Tests/CasificationTests/SeparatorBasedModifiersTests.swift:21 | with the empty token modifier and `const(false)`, "$Hello, World!" is "Hello-World": the `$` is dropped |
| SeparatorExamples.DotEmpty | Tests/CasificationTests/SeparatorBasedModifiersTests.swift:26 | dot case keeps "" |
| SeparatorExamples.DotLetter | Tests/CasificationTests/SeparatorBasedModifiersTests.swift:27 | dot case keeps "a" |
| SeparatorExamples.DotPrefixed | Tests/CasificationTests/SeparatorBasedModifiersTests.swift:28 | "<<<$helloWorld" in dot case is "$hello.world" |
| SeparatorExamples.DotHello | Tests/CasificationTests/SeparatorBasedModifiersTests.swift:29 | "Hello, World!" in dot case is "hello.world" |
| SeparatorExamples.DotVerbatim | Tests/CasificationTests/SeparatorBasedModifiersTests.swift:30 | with the empty token modifier and `const(false)`, "$Hello, World!" is "Hello.World" |
| CamelExamples.DefaultCamelDashed | Tests/CasificationTests/CamelCaseModifierTests.swift:102-106 | with the default policy the three dashed inputs become "urlIDURIUUID" |
| CamelExamples.MatchCaseCamelDashed | Tests/CasificationTests/CamelCaseModifierTests.swift:109-113 | `alwaysMatchCase` lower-cases the first acronym and upper-cases the rest: "urlIDURIUUID" |
| CamelExamples.CapitalizeCamelDashed | Tests/CasificationTests/CamelCaseModifierTests.swift:116-120 | `alwaysCapitalize` capitalizes every acronym, the first included: "UrlIdUriUuid" |
| CamelExamples.ConditionalCamelDashed | Tests/CasificationTests/CamelCaseModifierTests.swift:123-127 | `conditionalCapitalization` lower-cases the first acronym and capitalizes the rest: "urlIdUriUuid" |
| CamelExamples.PreserveCamelDashed | Tests/CasificationTests/CamelCaseModifierTests.swift:130-134 | `preserve` keeps every acronym as written: the first spelling followed by "IDUriuuid" |
| AcronymWordExamples.AutomaticUrl | Tests/CasificationTests/CamelCaseModifierTests.swift:17 | "URLAcronym" with `.camel()` is unchanged |
| AcronymWordExamples.AutomaticUuid | Tests/CasificationTests/CamelCaseModifierTests.swift:18 | "uuidAcronym" with `.camel()` is unchanged |
| AcronymWordExamples.CamelUrl | Tests/CasificationTests/CamelCaseModifierTests.swift:51 | "URLAcronym" in camel case is "urlAcronym" |
| AcronymWordExamples.CamelUuid | Tests/CasificationTests/CamelCaseModifierTests.swift:52 | "uuidAcronym" in camel case is unchanged |
| AcronymWordExamples.PascalUrl | Tests/CasificationTests/CamelCaseModifierTests.swift:83 | "URLAcronym" in pascal case is unchanged |
| AcronymWordExamples.PascalUuid | Tests/CasificationTests/CamelCaseModifierTests.swift:84 | "uuidAcronym" in pascal case is "UUIDAcronym" |
| NumericExamples.AutomaticUppercase | Tests/CasificationTests/CamelCaseModifierTests.swift:11 | "UPPERCASE" with `.camel()` is "Uppercase" |
| NumericExamples.AutomaticNumeric | Tests/CasificationTests/CamelCaseModifierTests.swift:16 | "NumericSeparator.1.0" with `.camel()` is "NumericSeparator_1_0": a dot next to a digit becomes `_` |
| NumericExamples.CamelUppercase | Tests/CasificationTests/CamelCaseModifierTests.swift:45 | "UPPERCASE" in camel case is "uppercase" |
| NumericExamples.CamelNumeric | Tests/CasificationTests/CamelCaseModifierTests.swift:50 | "NumericSeparator.1.0" in camel case is "numericSeparator_1_0" |
| NumericExamples.PascalUppercase | Tests/CasificationTests/CamelCaseModifierTests.swift:77 | "UPPERCASE" in pascal case is "Uppercase" |
| NumericExamples.PascalNumeric | Tests/CasificationTests/CamelCaseModifierTests.swift:82 | "NumericSeparator.1.0" in pascal case is "NumericSeparator_1_0" |

## Left out

- `Capital`: it relies on Foundation's `capitalized`, whose word-boundary rules are not part of this model.
- Unicode: character classes and case maps are ASCII only. Case maps that change length, such as `ß`, are not modelled.
- `String` and `Substring` are both `seq<char>`. The `[...]` re-slicing and the `String` lift of `transform` are identities here.
- Swift `Set<Substring>` is a sequence. Only membership is used, except by the tokenizer configuration, which sorts it, and `AcronymOrder.TokenizeDependsOnlyOnSet` shows the arrangement of equal-length acronyms does not matter.
- The deprecated initializers and factories are not modelled. They only forward to the modelled ones with the default policy.
- The mode-only `camel` factories that take a raw acronym set are not modelled; they build the same `Camel` value.
- The ambient task-local configuration, `withAcronyms`, the configuration reader and the declarative configuration types are not modelled. They scope and read global state. Only the default acronym list is kept, as `StandardAcronyms`.
- Concurrency (`Sendable`, locks) is left out: the modelled code is sequential.
- ConfigurationStore.Get: the `as? T.Value` cast is not modelled. All values share one type, so the cast always succeeds here.
- ConfigurationStore.Merging: that `merging` leaves both operands unchanged is not stated. It holds by construction, because configurations are immutable values.
- The map-separator closure of `_ProcessingTokensWithProgrammingCaseModifiers` is declared with token-typed neighbours. `_ProgrammingCaseModifiers` calls it with string neighbours. The model uses the string signature for both. Snake, kebab and dot ignore all three arguments, so nothing depends on the difference.
- Token equality and hashing are structural by construction of the datatype.
- DefaultTokenizer.Tokenize: an empty acronym is not modelled; every acronym must be non-empty. Before a letter the source rejects an empty acronym, because `acronym.last` is nil (DefaultTokenizer.swift:76), so an input of letters only still terminates. Before a digit or a non-letter character it is accepted (line 74). When no longer acronym matches there and the position does not continue a pending span, the loop commits it and continues without advancing (lines 116-123), and `tokenize(_:)` does not terminate. "a1" and "a-b" are such inputs.
- TokenProcessors.EmptyKeepsToken: the source hands each processor an `ArraySlice`, whose indices are re-based on the original array (TokenProcessor.swift:86-90, Sequence+.swift:50-55). The model's sequences are indexed from zero, so model index `k` stands for the slice's `startIndex + k`. `processTokens` reads neighbours only relative to its own indices (_ProgrammingCaseModifiers.swift:76-82), so it is not affected.
- Tests whose numeric-boundary expectations disagree with the code are not stated: `CamelCaseModifierTests.swift` lines 23-24, 26-29, 31-37, 57-58, 60-69 and 89-90. The code does not consult `boundaryOptions`. By the code, "1Numbered" becomes "_1_numbered" under camel and "_1_Numbered" under pascal and automatic mode, as `NumericExamples.LeadingDigit` proves. "grid1x1" becomes "grid_1_x_1" under snake and "grid_1_X_1" under camel.
- The other examples of the camel tests (`CamelCaseModifierTests.swift` lines 8-10, 12-15, 19-22, 25, 42-44, 46-49, 53-56, 59, 74-81, 85-88 and 91-95) are not traced input by input. The general lemmas `CamelCase.AutomaticMode`, `CamelCase.CamelRoles` and `ProgrammingCase.ProcessTokensShape` state the rules they exercise.
- The other tokenizer examples (`TokenizationTests.swift` outside the cited lines) are not traced input by input. `TokenizerProperties.TokenizeLossless` and `TokenizerProperties.TokenizeWellFormed` hold for them.
