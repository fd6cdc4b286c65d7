/**
 * The default tokenizer (`Tokenizers.Default`, DefaultTokenizer.swift): a
 * single left-to-right scan that splits a string into word, number, acronym
 * and separator tokens.
 */
module DefaultTokenizer {
  import opened Options
  import opened Characters
  import opened Casification

  /** The scanner demands non-empty acronyms: an empty one would be matched without advancing. */
  predicate NonEmptyAcronyms(acronyms: seq<string>) {
    forall k :: 0 <= k < |acronyms| ==> |acronyms[k]| > 0
  }

  /** An acronym list the scanner can run with. */
  type AcronymList = a: seq<string> | NonEmptyAcronyms(a) witness []

  /** Descending length order, the order `Config.init(acronyms:)` establishes. */
  predicate SortedByLength(acronyms: seq<string>) {
    forall j, k :: 0 <= j < k < |acronyms| ==> |acronyms[j]| >= |acronyms[k]|
  }

  /** `Default.Config`: the acronyms in the order they are tried. */
  datatype Config = Config(acronyms: seq<string>)

  /** `a` occurs literally in `input` starting at `i`. */
  predicate LiteralAt(input: string, i: nat, a: string) {
    i + |a| <= |input| && input[i..i + |a|] == a
  }

  /**
   * The closure given to `acronyms.first` in `getAcronym(at:)`: `a` matches at
   * `i` and what follows it is a boundary — the end of input, a non-letter, a
   * case change, an upper-then-lower pair, or another acronym.
   */
  predicate Accepts(input: string, acronyms: seq<string>, i: nat, a: string)
    requires i < |input|
    decreases |input| - i, 0, 0
  {
    if !LiteralAt(input, i, a) then false
    else
      var end := i + |a|;
      if end == |input| then true
      else
        var next := input[end];
        if !IsLetter(next) then true
        else if |a| == 0 then false   // `acronym.last` is nil
        else
          var last := a[|a| - 1];
          if IsUppercase(last) != IsUppercase(next) then true
          else if IsUppercase(next) && end + 1 < |input| && IsLowercase(input[end + 1]) then true
          else GetAcronymIndex(input, acronyms, end, 0).Some?
  }

  /** The first index, from `k` on, whose acronym `Accepts` at `i`. */
  function GetAcronymIndex(input: string, acronyms: seq<string>, i: nat, k: nat): (r: Option<nat>)
    requires i < |input| && k <= |acronyms|
    ensures r.Some? ==> k <= r.value < |acronyms| && LiteralAt(input, i, acronyms[r.value])
    decreases |input| - i, 1, |acronyms| - k
  {
    if k == |acronyms| then None
    else if Accepts(input, acronyms, i, acronyms[k]) then Some(k)
    else GetAcronymIndex(input, acronyms, i, k + 1)
  }

  /** `getAcronym(at:)`: the first configured acronym accepted at `i`, as the matched slice. */
  function GetAcronym(input: string, acronyms: seq<string>, i: nat): (r: Option<string>)
    requires i < |input|
    ensures r.Some? ==> r.value in acronyms && LiteralAt(input, i, r.value)
  {
    match GetAcronymIndex(input, acronyms, i, 0)
    case None => None
    case Some(k) => Some(acronyms[k])
  }

  /** `isSuffixOfOtherToken`: an acronym inside the pending span is rejected after an uppercase letter or when it starts lowercase. */
  predicate IsSuffixOfOtherToken(input: string, start: nat, i: nat)
    requires start <= i < |input|
  {
    // `start < i` makes the previous index exist, so `index(before:limitedBy:)` is never nil here.
    if start == i then false else IsUppercase(input[i - 1]) || IsLowercase(input[i])
  }

  /** The split rule between two adjacent characters: lower→upper, letter→digit, digit→letter. */
  predicate IsTransition(curr: char, next: char) {
    || (IsLowercase(curr) && IsUppercase(next))
    || (IsLetter(curr) && IsNumber(next))
    || (IsNumber(curr) && IsLetter(next))
  }

  /** Position `k` of `s` holds a letter or a digit. */
  predicate AlphanumericAt(s: string, k: nat) {
    k < |s| && IsAlphanumeric(s[k])
  }

  /** The end of the maximal run of non-alphanumeric characters starting at `i`. */
  function SeparatorRunEnd(input: string, i: nat): (j: nat)
    requires i <= |input|
    ensures i <= j <= |input|
    decreases |input| - i
  {
    if i < |input| && !IsAlphanumeric(input[i]) then SeparatorRunEnd(input, i + 1) else i
  }

  /** The kind of a flushed span: `.number` when every character is a digit, else `.word`. */
  function SpanKind(v: string): Kind {
    if All(v, IsNumber) then Number else Word
  }

  /** `commitToken(_:kind:)`: append, inserting an empty separator between two non-separators. */
  function Commit(tokens: seq<Token>, t: Token): (r: seq<Token>)
  {
    if |tokens| > 0 && !tokens[|tokens| - 1].IsSeparator() && !t.IsSeparator()
    then tokens + [Token("", Separator), t]
    else tokens + [t]
  }

  /** `commitToken(upTo:)`: flush the pending span `input[start..end]` when it is non-empty. */
  function CommitUpTo(tokens: seq<Token>, input: string, start: nat, end: nat): (r: seq<Token>)
    requires start <= end <= |input|
  {
    if start < end then Commit(tokens, Token(input[start..end], SpanKind(input[start..end]))) else tokens
  }

  /**
   * The state of the `while` loop of `tokenize(_:)`: `start` is
   * `currentStart`, `index` is `currentIndex`, `tokens` what has been
   * committed so far.
   */
  datatype Cursor = Cursor(start: nat, index: nat, tokens: seq<Token>)

  /** A cursor inside the input, its pending span not past the index. */
  predicate ValidCursor(input: string, c: Cursor) {
    c.start <= c.index <= |input|
  }

  /**
   * One iteration of the loop: an acronym that is not the tail of the
   * pending span, else a separator run, else a transition, else one more
   * character of the pending span. Every iteration consumes input.
   */
  function Step(config: Config, input: string, c: Cursor): (r: Cursor)
    requires NonEmptyAcronyms(config.acronyms)
    requires ValidCursor(input, c) && c.index < |input|
    ensures ValidCursor(input, r) && c.index < r.index
  {
    var start, i, tokens := c.start, c.index, c.tokens;
    var acronym := GetAcronym(input, config.acronyms, i);
    if acronym.Some? && !IsSuffixOfOtherToken(input, start, i) then
      var end := i + |acronym.value|;
      Cursor(end, end, Commit(CommitUpTo(tokens, input, start, i), Token(input[i..end], Acronym)))
    else if !IsAlphanumeric(input[i]) then
      var end := SeparatorRunEnd(input, i);
      Cursor(end, end, Commit(CommitUpTo(tokens, input, start, i), Token(input[i..end], Separator)))
    else if i + 1 < |input| && IsTransition(input[i], input[i + 1]) then
      Cursor(i + 1, i + 1, CommitUpTo(tokens, input, start, i + 1))
    else
      Cursor(start, i + 1, tokens)
  }

  /** The loop to the end of the input, then the final `commitToken(upTo:)`. */
  function Scan(config: Config, input: string, c: Cursor): seq<Token>
    requires NonEmptyAcronyms(config.acronyms)
    requires ValidCursor(input, c)
    decreases |input| - c.index
  {
    if c.index == |input| then CommitUpTo(c.tokens, input, c.start, c.index)
    else Scan(config, input, Step(config, input, c))
  }

  /** `Default.tokenize(_:)`. */
  function Tokenize(config: Config, input: string): seq<Token>
    requires NonEmptyAcronyms(config.acronyms)
  {
    Scan(config, input, Cursor(0, 0, []))
  }

  /**
   * The search of `acronyms.first(where:)` from index `k`: the index found is
   * accepted and every earlier one from `k` is not; nil means none from `k` is.
   */
  lemma {:induction false} GetAcronymIndexFirst(input: string, acronyms: seq<string>, i: nat, k: nat)
    requires i < |input| && k <= |acronyms|
    ensures var r := GetAcronymIndex(input, acronyms, i, k);
      && (r.Some? ==> Accepts(input, acronyms, i, acronyms[r.value]))
      && (r.Some? ==> forall m :: k <= m < r.value ==> !Accepts(input, acronyms, i, acronyms[m]))
      && (r.None? ==> forall m :: k <= m < |acronyms| ==> !Accepts(input, acronyms, i, acronyms[m]))
    decreases |acronyms| - k
  {
    if k < |acronyms| && !Accepts(input, acronyms, i, acronyms[k]) {
      GetAcronymIndexFirst(input, acronyms, i, k + 1);
    }
  }

  /**
   * `getAcronym(at:)` returns an accepted acronym, the earliest in the list,
   * and returns nil exactly when no acronym of the list is accepted.
   */
  lemma GetAcronymFirstAccepted(input: string, acronyms: seq<string>, i: nat)
    requires i < |input|
    ensures var r := GetAcronym(input, acronyms, i);
      && (r.Some? ==> Accepts(input, acronyms, i, r.value))
      && (r.Some? ==> exists k :: 0 <= k < |acronyms| && acronyms[k] == r.value
                        && forall m :: 0 <= m < k ==> !Accepts(input, acronyms, i, acronyms[m]))
      && (r.None? <==> forall m :: 0 <= m < |acronyms| ==> !Accepts(input, acronyms, i, acronyms[m]))
  {
    GetAcronymIndexFirst(input, acronyms, i, 0);
    var x := GetAcronymIndex(input, acronyms, i, 0);
    if x.Some? {
      var k := x.value;
      assert acronyms[k] == GetAcronym(input, acronyms, i).value;
    }
  }

  /** The run `separatorEnd(from:)` measures: non-alphanumeric, then a letter, a digit or the end. */
  lemma {:induction false} SeparatorRunEndSpec(input: string, i: nat)
    requires i <= |input|
    ensures var j := SeparatorRunEnd(input, i);
      && (forall k: nat :: i <= k < j ==> !AlphanumericAt(input, k))
      && (j == |input| || IsAlphanumeric(input[j]))
    decreases |input| - i
  {
    if i < |input| && !IsAlphanumeric(input[i]) {
      SeparatorRunEndSpec(input, i + 1);
    }
  }
}
