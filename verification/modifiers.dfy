/**
 * The case-modifier algebra (CaseModifiers.swift, CaseModifiers+Basic.swift):
 * a modifier transforms a string; `Combine` chains two of them and
 * `AnyModifier` wraps an arbitrary transform. Swift's `String`/`Substring`
 * distinction disappears: both are `string` here.
 */
module Modifiers {
  import opened Characters

  /** `uppercased()` over the ASCII alphabet. */
  function UpperString(s: string): (r: string)
    ensures |r| == |s|
    ensures forall i :: 0 <= i < |s| ==> r[i] == ToUpper(s[i])
  {
    seq(|s|, i requires 0 <= i < |s| => ToUpper(s[i]))
  }

  /** `lowercased()` over the ASCII alphabet. */
  function LowerString(s: string): (r: string)
    ensures |r| == |s|
    ensures forall i :: 0 <= i < |s| ==> r[i] == ToLower(s[i])
  {
    seq(|s|, i requires 0 <= i < |s| => ToLower(s[i]))
  }

  /** `Swap`'s per-character rule: upper to lower, lower to upper, anything else kept. */
  function SwapChar(c: char): (r: char)
    ensures IsUppercase(c) ==> IsLowercase(r) && ToUpper(r) == c
    ensures IsLowercase(c) ==> IsUppercase(r) && ToLower(r) == c
    ensures !IsLetter(c) ==> r == c
  {
    if IsUppercase(c) then ToLower(c) else if IsLowercase(c) then ToUpper(c) else c
  }

  function SwapString(s: string): (r: string)
    ensures |r| == |s|
    ensures forall i :: 0 <= i < |s| ==> r[i] == SwapChar(s[i])
  {
    seq(|s|, i requires 0 <= i < |s| => SwapChar(s[i]))
  }

  /** `prefix(1).uppercased() + dropFirst()`. */
  function UpperFirstString(s: string): (r: string)
    ensures |r| == |s|
    ensures |s| > 0 ==> r[0] == ToUpper(s[0])
    ensures |s| > 0 ==> r[1..] == s[1..]
  {
    if |s| == 0 then s else UpperString(s[..1]) + s[1..]
  }

  /** `prefix(1).lowercased() + dropFirst()`. */
  function LowerFirstString(s: string): (r: string)
    ensures |r| == |s|
    ensures |s| > 0 ==> r[0] == ToLower(s[0])
    ensures |s| > 0 ==> r[1..] == s[1..]
  {
    if |s| == 0 then s else LowerString(s[..1]) + s[1..]
  }

  /** The modifiers of `String.Casification.Modifiers` (without `Capital`). */
  datatype Modifier =
    | Empty
    | Upper
    | Lower
    | UpperFirst
    | LowerFirst
    | Swap
    | Combine(first: Modifier, second: Modifier)
    | AnyModifier(transform: string -> string)

  /** `transform(_:)` of each modifier. */
  function Apply(m: Modifier, s: string): string
  {
    match m
    case Empty => s
    case Upper => UpperString(s)
    case Lower => LowerString(s)
    case UpperFirst => UpperFirstString(s)
    case LowerFirst => LowerFirstString(s)
    case Swap => SwapString(s)
    case Combine(first, second) => Apply(second, Apply(first, s))
    case AnyModifier(f) => f(s)
  }

  /** `String.case(_:)` and `Substring.case(_:)`. */
  function Case(s: string, m: Modifier): string {
    Apply(m, s)
  }

  /** `combined(with:)`. */
  function Combined(m: Modifier, other: Modifier): Modifier {
    Combine(m, other)
  }

  /** `AnyModifier.init(_ modifier:)`: wraps another modifier's transform. */
  function Erase(m: Modifier): Modifier {
    AnyModifier(s => Apply(m, s))
  }

  /** Casing with a combined modifier cases with the first and then with the second. */
  lemma CaseCombined(s: string, m: Modifier, other: Modifier)
    ensures Case(s, Combined(m, other)) == Case(Case(s, m), other)
  {
  }

  /** An erased modifier transforms exactly as the one it wraps. */
  lemma EraseDelegates(m: Modifier, s: string)
    ensures Apply(Erase(m), s) == Apply(m, s)
  {
  }

  /** `Empty` is the identity and a neutral element of `Combine` on both sides. */
  lemma EmptyIsIdentity(m: Modifier, s: string)
    ensures Apply(Empty, s) == s
    ensures Apply(Combine(Empty, m), s) == Apply(m, s)
    ensures Apply(Combine(m, Empty), s) == Apply(m, s)
  {
  }

  /** `Combine` is associative. */
  lemma CombineAssociative(a: Modifier, b: Modifier, c: Modifier, s: string)
    ensures Apply(Combine(Combine(a, b), c), s) == Apply(Combine(a, Combine(b, c)), s)
  {
  }

  /** `uppercased()` leaves no lowercase letter, and changes nothing else than letters. */
  lemma UpperShape(s: string)
    ensures forall i :: 0 <= i < |s| ==> !IsLowercase(Apply(Upper, s)[i])
    ensures forall i :: 0 <= i < |s| && !IsLowercase(s[i]) ==> Apply(Upper, s)[i] == s[i]
  {
  }

  /** `Upper` is idempotent. */
  lemma UpperIdempotent(s: string)
    ensures Apply(Upper, Apply(Upper, s)) == Apply(Upper, s)
  {
  }

  /** `Lower` is idempotent. */
  lemma LowerIdempotent(s: string)
    ensures Apply(Lower, Apply(Lower, s)) == Apply(Lower, s)
  {
  }

  /** Upper then lower is just lower: both forget the original case. */
  lemma UpperThenLower(s: string)
    ensures Apply(Combine(Upper, Lower), s) == Apply(Lower, s)
  {
  }

  /** Lower then upper is just upper. */
  lemma LowerThenUpper(s: string)
    ensures Apply(Combine(Lower, Upper), s) == Apply(Upper, s)
  {
  }

  /** `UpperFirst` and `LowerFirst` only touch the first character; the empty string stays empty. */
  lemma FirstCharOnly(s: string, m: Modifier)
    requires m == UpperFirst || m == LowerFirst
    ensures |Apply(m, s)| == |s|
    ensures forall i :: 1 <= i < |s| ==> Apply(m, s)[i] == s[i]
    ensures s == "" ==> Apply(m, s) == ""
  {
    if |s| > 0 {
      var r := Apply(m, s);
      forall i | 1 <= i < |s| ensures r[i] == s[i] {
        assert r[i] == r[1..][i - 1];
      }
    }
  }

  /** `Swap` flips each letter's case independently, so applying it twice restores the input. */
  lemma SwapInvolution(s: string)
    ensures Apply(Swap, Apply(Swap, s)) == s
  {
    var r := Apply(Swap, Apply(Swap, s));
    assert |r| == |s|;
    forall i | 0 <= i < |s| ensures r[i] == s[i] {
      CaseMapsInverse(s[i]);
    }
  }

  /** Swapping is upper-casing the lowercase letters and lower-casing the uppercase ones. */
  lemma SwapAgreesWithCaseMaps(s: string)
    ensures forall i :: 0 <= i < |s| && IsLowercase(s[i]) ==> Apply(Swap, s)[i] == Apply(Upper, s)[i]
    ensures forall i :: 0 <= i < |s| && !IsLowercase(s[i]) ==> Apply(Swap, s)[i] == Apply(Lower, s)[i]
  {
  }

  /** "Hello, world!" is what lower-then-upper-first makes of "HELLO, WORLD!". */
  lemma LowerThenUpperFirstExample()
    ensures Apply(Combine(Lower, UpperFirst), "HELLO, WORLD!") == "Hello, world!"
  {
    var l := Apply(Lower, "HELLO, WORLD!");
    assert l == "hello, world!";
  }

  /** `LowerFirst` of "HELLO, WORLD!" is "hELLO, WORLD!". */
  lemma LowerFirstExample()
    ensures Apply(LowerFirst, "HELLO, WORLD!") == "hELLO, WORLD!"
  {
  }

  /** `Upper` leaves "HELLO, WORLD!" unchanged. */
  lemma UpperExample()
    ensures Apply(Upper, "HELLO, WORLD!") == "HELLO, WORLD!"
  {
  }
}
