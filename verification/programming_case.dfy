/**
 * The tokens processor behind every programming case
 * (`TokensProcessors._ProgrammingCaseModifiers`, _ProgrammingCaseModifiers.swift)
 * and its prefix predicates.
 *
 * `processTokens` leaves a token sequence without any word, number or
 * acronym alone. Otherwise it
 *   - folds the leading separators into one separator holding their allowed
 *     characters (none if there are no such characters),
 *   - drops the trailing separators,
 *   - re-cases the tokens in between: numbers before the first word or
 *     acronym with the numeric modifier, that first word or acronym with the
 *     first modifier, every later non-separator with the rest modifier,
 *   - and replaces every separator in between by what `mapSeparator` makes of
 *     it and its two neighbours.
 */
module ProgrammingCase {
  import opened Options
  import opened Characters
  import opened Casification
  import opened Modifiers
  import opened SequenceExt

  /** `PrefixPredicates.Const`, `AllowedCharacters` and `AnyPrefixPredicate`. */
  datatype PrefixPredicate =
    | Const(value: bool)
    | AllowedCharacters(allowed: set<char>)
    | AnyPrefixPredicate(allows: char -> bool)

  /** `isCharacterAllowed(_:)`. */
  function IsCharacterAllowed(p: PrefixPredicate, c: char): bool {
    match p
    case Const(value) => value
    case AllowedCharacters(allowed) => c in allowed
    case AnyPrefixPredicate(allows) => allows(c)
  }

  /** `.allowedCharacters(_:)`: the set of the given characters. */
  function AllowedOf(characters: string): (r: PrefixPredicate)
    ensures forall c :: IsCharacterAllowed(r, c) <==> c in characters
  {
    AllowedCharacters(set c | c in characters)
  }

  /** `.swiftDeclarations`. */
  function SwiftDeclarations(): PrefixPredicate {
    AllowedOf("$_")
  }

  /** `AnyPrefixPredicate.init(_ predicate:)` wrapping another predicate. */
  function ErasePredicate(p: PrefixPredicate): PrefixPredicate {
    AnyPrefixPredicate(c => IsCharacterAllowed(p, c))
  }

  /** `swiftDeclarations` allows exactly `$` and `_`; `const(b)` answers `b`; an erased predicate answers as the original. */
  lemma PrefixPredicateAnswers(b: bool, p: PrefixPredicate, c: char)
    ensures IsCharacterAllowed(SwiftDeclarations(), c) <==> c == '$' || c == '_'
    ensures IsCharacterAllowed(Const(b), c) == b
    ensures IsCharacterAllowed(ErasePredicate(p), c) == IsCharacterAllowed(p, c)
  {
  }

  /** `(value, previousValue?, nextValue?) -> value`: how an interior separator is rewritten. */
  type MapSeparator = (string, Option<string>, Option<string>) -> string

  /** `_ProgrammingCaseModifiers`' stored configuration. */
  datatype ProgrammingCaseModifiers = ProgrammingCaseModifiers(
    prefixPredicate: PrefixPredicate,
    mapSeparator: MapSeparator,
    firstModifier: Modifier,
    restModifier: Modifier,
    numericModifier: Modifier)

  /** `filter(prefixPredicate.isCharacterAllowed)`. */
  function Filter(s: string, p: PrefixPredicate): (r: string)
    ensures |r| <= |s|
    ensures forall i :: 0 <= i < |r| ==> IsCharacterAllowed(p, r[i])
  {
    if |s| == 0 then ""
    else (if IsCharacterAllowed(p, s[0]) then [s[0]] else []) + Filter(s[1..], p)
  }

  /** Filtering a concatenation filters each part. */
  lemma {:induction false} FilterAppend(a: string, b: string, p: PrefixPredicate)
    ensures Filter(a + b, p) == Filter(a, p) + Filter(b, p)
  {
    if |a| > 0 {
      assert (a + b)[1..] == a[1..] + b;
      FilterAppend(a[1..], b, p);
    } else {
      assert a + b == b;
    }
  }

  /** Filtering keeps every allowed character and only those. */
  lemma {:induction false} FilterKeepsAllowed(s: string, p: PrefixPredicate)
    ensures (forall i :: 0 <= i < |s| ==> IsCharacterAllowed(p, s[i])) ==> Filter(s, p) == s
    ensures (forall i :: 0 <= i < |s| ==> !IsCharacterAllowed(p, s[i])) ==> Filter(s, p) == ""
  {
    if |s| > 0 {
      FilterKeepsAllowed(s[1..], p);
      assert forall i :: 1 <= i < |s| ==> s[1..][i - 1] == s[i];
      assert s == [s[0]] + s[1..];
    }
  }

  /** The `reduce("")` over the leading separators: their filtered values, appended in order. */
  function CollectPrefix(ts: seq<Token>, p: PrefixPredicate): string
  {
    if |ts| == 0 then "" else CollectPrefix(ts[..|ts| - 1], p) + Filter(ts[|ts| - 1].value, p)
  }

  /** The collected prefix is the filtered concatenation of the tokens' values. */
  lemma {:induction false} CollectPrefixFiltersConcat(ts: seq<Token>, p: PrefixPredicate)
    ensures CollectPrefix(ts, p) == Filter(Concat(ts), p)
  {
    if |ts| > 0 {
      CollectPrefixFiltersConcat(ts[..|ts| - 1], p);
      FilterAppend(Concat(ts[..|ts| - 1]), ts[|ts| - 1].value, p);
    }
  }

  /** `while restOfTokens.last?.kind == .separator { restOfTokens.removeLast() }`. */
  function TrimTrailingSeparators(ts: seq<Token>): (r: seq<Token>)
    ensures |r| <= |ts| && r == ts[..|r|]
    ensures |r| == 0 || !r[|r| - 1].IsSeparator()
    ensures forall k :: |r| <= k < |ts| ==> ts[k].IsSeparator()
  {
    if |ts| > 0 && ts[|ts| - 1].IsSeparator() then TrimTrailingSeparators(ts[..|ts| - 1]) else ts
  }

  function ValueOf(t: Token): string { t.value }

  /** The separator the loop emits at `k`: `mapSeparator(value, previous?.value, next?.value)`. */
  function SeparatorAt(p: ProgrammingCaseModifiers, body: seq<Token>, k: nat): Token
    requires k < |body|
  {
    Token(p.mapSeparator(body[k].value, SafeGet(body, k - 1).Map(ValueOf), SafeGet(body, k + 1).Map(ValueOf)), Separator)
  }

  /**
   * The `for` loop over the trimmed tokens from position `k`, with
   * `caught` the value of `caughtNonNumeric` on entry.
   */
  function BodyFrom(p: ProgrammingCaseModifiers, body: seq<Token>, k: nat, caught: bool): (r: seq<Token>)
    requires k <= |body|
    ensures |r| == |body| - k
    decreases |body| - k
  {
    if k == |body| then []
    else
      var t := body[k];
      if t.IsSeparator() then [SeparatorAt(p, body, k)] + BodyFrom(p, body, k + 1, caught)
      else if caught then [Token(Apply(p.restModifier, t.value), t.kind)] + BodyFrom(p, body, k + 1, true)
      else if t.kind == Number then [Token(Apply(p.numericModifier, t.value), t.kind)] + BodyFrom(p, body, k + 1, false)
      else [t.WithValue(Apply(p.firstModifier, t.value))] + BodyFrom(p, body, k + 1, true)
  }

  predicate NonSeparator(t: Token) { !t.IsSeparator() }

  /** The separator `processTokens` puts in front: the collected prefix, if it is not empty. */
  function PrefixTokens(prefix: string): (r: seq<Token>)
    ensures |r| <= 1
    ensures |r| == 1 <==> prefix != ""
    ensures |r| == 1 ==> r[0] == Token(prefix, Separator)
  {
    if IsNotEmpty(prefix) then [Token(prefix, Separator)] else []
  }

  /** `processTokens(_:)`. */
  function ProcessTokens(p: ProgrammingCaseModifiers, tokens: seq<Token>): seq<Token>
  {
    match FirstIndex(tokens, NonSeparator)
    case None => tokens
    case Some(f) =>
      PrefixTokens(CollectPrefix(tokens[..f], p.prefixPredicate))
        + BodyFrom(p, TrimTrailingSeparators(tokens[f..]), 0, false)
  }

  // ----- An independent description of what each body token becomes -----

  /** A word or an acronym: a token that ends the leading numbers. */
  predicate Leads(t: Token) { t.kind == Word || t.kind == Acronym }

  datatype Role = SeparatorRole | NumericRole | FirstRole | RestRole

  /**
   * The role of body position `k`: a separator; a number before the first
   * word or acronym; that first word or acronym; or anything after it.
   */
  function RoleAt(body: seq<Token>, k: nat): Role
    requires k < |body|
  {
    if body[k].IsSeparator() then SeparatorRole
    else match FirstIndex(body, Leads)
      case None => NumericRole
      case Some(f) => if k < f then NumericRole else if k == f then FirstRole else RestRole
  }

  /** The token body position `k` becomes, by role. */
  function Expected(p: ProgrammingCaseModifiers, body: seq<Token>, k: nat): Token
    requires k < |body|
  {
    match RoleAt(body, k)
    case SeparatorRole => SeparatorAt(p, body, k)
    case NumericRole => Token(Apply(p.numericModifier, body[k].value), body[k].kind)
    case FirstRole => Token(Apply(p.firstModifier, body[k].value), body[k].kind)
    case RestRole => Token(Apply(p.restModifier, body[k].value), body[k].kind)
  }

  /**
   * The loop emits, at every position, the token `Expected` describes, as
   * long as `caught` says whether a word or acronym was passed.
   */
  lemma {:induction false} BodyFromSpec(p: ProgrammingCaseModifiers, body: seq<Token>, k: nat, caught: bool)
    requires k <= |body|
    requires caught <==> FirstIndex(body, Leads).Some? && FirstIndex(body, Leads).value < k
    ensures forall j :: k <= j < |body| ==> BodyFrom(p, body, k, caught)[j - k] == Expected(p, body, j)
    decreases |body| - k
  {
    if k < |body| {
      var t := body[k];
      var caught' := caught || (!t.IsSeparator() && t.kind != Number);
      BodyFromHead(p, body, k, caught);
      BodyFromSpec(p, body, k + 1, caught');
      var r := BodyFrom(p, body, k, caught);
      var rest := BodyFrom(p, body, k + 1, caught');
      assert r == [r[0]] + rest;
      forall j | k < j < |body| ensures r[j - k] == Expected(p, body, j) {
        assert r[j - k] == rest[j - (k + 1)];
      }
    }
  }

  /** One step of the loop: the token at `k` is the expected one, and `caught` is updated as the role says. */
  lemma BodyFromHead(p: ProgrammingCaseModifiers, body: seq<Token>, k: nat, caught: bool)
    requires k < |body|
    requires caught <==> FirstIndex(body, Leads).Some? && FirstIndex(body, Leads).value < k
    ensures BodyFrom(p, body, k, caught)[0] == Expected(p, body, k)
    ensures var caught' := caught || (!body[k].IsSeparator() && body[k].kind != Number);
      caught' <==> FirstIndex(body, Leads).Some? && FirstIndex(body, Leads).value < k + 1
  {
  }

  /** Every kind of body token but a separator is kept; a separator stays a separator. */
  lemma ExpectedKeepsKind(p: ProgrammingCaseModifiers, body: seq<Token>, k: nat)
    requires k < |body|
    ensures Expected(p, body, k).kind == body[k].kind
  {
  }

  /** At most one token goes through the first modifier, and it is the first word or acronym. */
  lemma FirstRoleUnique(body: seq<Token>, j: nat, k: nat)
    requires j < |body| && k < |body|
    requires RoleAt(body, j) == FirstRole && RoleAt(body, k) == FirstRole
    ensures j == k && Leads(body[k])
    ensures forall i :: 0 <= i < k ==> !Leads(body[i])
  {
  }

  /** A token before the first word or acronym that is not a separator is a number. */
  lemma NumericRoleIsNumber(body: seq<Token>, k: nat)
    requires k < |body| && RoleAt(body, k) == NumericRole
    ensures body[k].kind == Number
  {
  }

  /** Tokens without any word, number or acronym come back unchanged, the empty sequence included. */
  lemma NoNonSeparatorUnchanged(p: ProgrammingCaseModifiers, tokens: seq<Token>)
    requires forall k :: 0 <= k < |tokens| ==> tokens[k].IsSeparator()
    ensures ProcessTokens(p, tokens) == tokens
  {
  }

  /** With a first non-separator at `f`, the output is the collapsed prefix followed by the loop over the trimmed body. */
  lemma ProcessTokensSplit(p: ProgrammingCaseModifiers, tokens: seq<Token>, f: nat)
    requires f < |tokens| && !tokens[f].IsSeparator()
    requires forall k :: 0 <= k < f ==> tokens[k].IsSeparator()
    ensures var body := TrimTrailingSeparators(tokens[f..]);
      && |body| > 0 && !body[0].IsSeparator() && !body[|body| - 1].IsSeparator()
      && ProcessTokens(p, tokens)
        == PrefixTokens(Filter(Concat(tokens[..f]), p.prefixPredicate)) + BodyFrom(p, body, 0, false)
  {
    var first := FirstIndex(tokens, NonSeparator);
    assert first == Some(f) by {
      if first.None? || first.value != f {
        assert NonSeparator(tokens[f]);
        assert false;
      }
    }
    CollectPrefixFiltersConcat(tokens[..f], p.prefixPredicate);
    assert tokens[f..][0] == tokens[f];
  }

  /**
   * The shape of `processTokens`' output when there is a non-separator, first
   * at `f`: the collapsed prefix, then the trimmed body token by token, with
   * no separator at either end of the body.
   */
  lemma ProcessTokensShape(p: ProgrammingCaseModifiers, tokens: seq<Token>, f: nat)
    requires f < |tokens| && !tokens[f].IsSeparator()
    requires forall k :: 0 <= k < f ==> tokens[k].IsSeparator()
    ensures var prefix := PrefixTokens(Filter(Concat(tokens[..f]), p.prefixPredicate));
      var body := TrimTrailingSeparators(tokens[f..]);
      var r := ProcessTokens(p, tokens);
      && |body| > 0 && !body[0].IsSeparator() && !body[|body| - 1].IsSeparator()
      && |r| == |prefix| + |body|
      && r[..|prefix|] == prefix
      && (forall k :: 0 <= k < |body| ==> r[|prefix| + k] == Expected(p, body, k))
  {
    var prefix := PrefixTokens(Filter(Concat(tokens[..f]), p.prefixPredicate));
    var body := TrimTrailingSeparators(tokens[f..]);
    ProcessTokensSplit(p, tokens, f);
    PrefixedBody(p, prefix, body, ProcessTokens(p, tokens));
  }

  /** The loop's output behind a prefix, position by position. */
  lemma PrefixedBody(p: ProgrammingCaseModifiers, prefix: seq<Token>, body: seq<Token>, r: seq<Token>)
    requires r == prefix + BodyFrom(p, body, 0, false)
    ensures |r| == |prefix| + |body| && r[..|prefix|] == prefix
    ensures forall k :: 0 <= k < |body| ==> r[|prefix| + k] == Expected(p, body, k)
  {
    var b := BodyFrom(p, body, 0, false);
    BodyFromSpec(p, body, 0, false);
    forall k | 0 <= k < |body| ensures r[|prefix| + k] == Expected(p, body, k) {
      assert b[k - 0] == Expected(p, body, k);
      assert r[|prefix| + k] == b[k];
    }
  }

  /** After the prefix, the output neither starts nor ends with a separator: trailing separators are dropped. */
  lemma ProcessTokensEndsWithNonSeparator(p: ProgrammingCaseModifiers, tokens: seq<Token>, f: nat)
    requires f < |tokens| && !tokens[f].IsSeparator()
    requires forall k :: 0 <= k < f ==> tokens[k].IsSeparator()
    ensures var r := ProcessTokens(p, tokens);
      |r| > 0 && !r[|r| - 1].IsSeparator()
  {
    var prefix := PrefixTokens(Filter(Concat(tokens[..f]), p.prefixPredicate));
    var body := TrimTrailingSeparators(tokens[f..]);
    ProcessTokensSplit(p, tokens, f);
    LastOfPrefixed(p, prefix, body, ProcessTokens(p, tokens));
  }

  /** The loop over a body that ends with a non-separator ends with one too. */
  lemma LastOfPrefixed(p: ProgrammingCaseModifiers, prefix: seq<Token>, body: seq<Token>, r: seq<Token>)
    requires |body| > 0 && !body[|body| - 1].IsSeparator()
    requires r == prefix + BodyFrom(p, body, 0, false)
    ensures |r| > 0 && !r[|r| - 1].IsSeparator()
  {
    BodyFromSpec(p, body, 0, false);
    var k := |body| - 1;
    assert r[|r| - 1] == BodyFrom(p, body, 0, false)[k];
    ExpectedKeepsKind(p, body, k);
  }

  /**
   * A separator inside the body has a neighbour on each side, so
   * `mapSeparator` always receives both neighbouring values.
   */
  lemma InteriorSeparatorNeighbours(p: ProgrammingCaseModifiers, body: seq<Token>, k: nat)
    requires |body| > 0 && !body[0].IsSeparator() && !body[|body| - 1].IsSeparator()
    requires k < |body| && body[k].IsSeparator()
    ensures 0 < k < |body| - 1
    ensures Expected(p, body, k)
      == Token(p.mapSeparator(body[k].value, Some(body[k - 1].value), Some(body[k + 1].value)), Separator)
  {
  }
}
