/**
 * The collection helpers of Sequence+.swift: `isNotEmpty` and the
 * `subscript(safe:)` accessors that answer nil instead of trapping, plus the
 * standard library's `firstIndex(where:)` the tokens processor relies on.
 * Indices are zero-based offsets into the sequence.
 */
module SequenceExt {
  import opened Options

  /** `isNotEmpty`. */
  predicate IsNotEmpty<T>(s: seq<T>) {
    |s| > 0
  }

  /** `isNotEmpty` is the negation of `isEmpty`, and holds exactly when there is a first element. */
  lemma IsNotEmptyIffNotEmpty<T>(s: seq<T>)
    ensures IsNotEmpty(s) <==> s != []
    ensures IsNotEmpty(s) <==> exists x :: x in s
  {
    if IsNotEmpty(s) {
      assert s[0] in s;
    }
  }

  /** The getter of `subscript(safe index: Index)`. */
  function SafeGet<T>(s: seq<T>, index: int): (r: Option<T>)
    ensures r.Some? <==> 0 <= index < |s|
    ensures r.Some? ==> r.value == s[index]
  {
    if 0 <= index < |s| then Some(s[index]) else None
  }

  /** The getter of `subscript(safe index: Index?)`: nil for a nil index. */
  function SafeGetOptional<T>(s: seq<T>, index: Option<int>): (r: Option<T>)
    ensures index.None? ==> r.None?
    ensures r.Some? <==> index.Some? && 0 <= index.value < |s|
    ensures r.Some? ==> r.value == s[index.value]
  {
    match index
    case None => None
    case Some(i) => SafeGet(s, i)
  }

  /**
   * The setter of `subscript(safe index: Index)`: writes a non-nil value at
   * an index inside the collection and does nothing otherwise.
   */
  function SafeSet<T>(s: seq<T>, index: int, value: Option<T>): (r: seq<T>)
    ensures |r| == |s|
    ensures 0 <= index < |s| && value.Some? ==> r[index] == value.value
    ensures forall j :: 0 <= j < |s| && j != index ==> r[j] == s[j]
    ensures !(0 <= index < |s|) || value.None? ==> r == s
  {
    if 0 <= index < |s| && value.Some? then s[index := value.value] else s
  }

  /** The setter of `subscript(safe index: Index?)`: a nil index changes nothing. */
  function SafeSetOptional<T>(s: seq<T>, index: Option<int>, value: Option<T>): (r: seq<T>)
    ensures index.None? ==> r == s
    ensures index.Some? ==> r == SafeSet(s, index.value, value)
  {
    match index
    case None => s
    case Some(i) => SafeSet(s, i, value)
  }

  /**
   * Through an optional index: reading back a write yields the written value
   * when the index is present and inside the bounds, nil otherwise; writing
   * back what was read changes nothing; other indices keep their values.
   */
  lemma SafeOptionalRoundTrip<T>(s: seq<T>, index: Option<int>, v: T, other: int)
    ensures SafeGetOptional(SafeSetOptional(s, index, Some(v)), index)
      == if index.Some? && 0 <= index.value < |s| then Some(v) else None
    ensures SafeSetOptional(s, index, SafeGetOptional(s, index)) == s
    ensures index != Some(other) ==> SafeGet(SafeSetOptional(s, index, Some(v)), other) == SafeGet(s, other)
  {
  }

  /** Reading back a safe write yields the written value inside the bounds and nil outside. */
  lemma SafeGetAfterSet<T>(s: seq<T>, index: int, v: T)
    ensures SafeGet(SafeSet(s, index, Some(v)), index) == if 0 <= index < |s| then Some(v) else None
  {
  }

  /** A safe write at one index leaves the safe read at every other index unchanged. */
  lemma SafeSetOtherIndex<T>(s: seq<T>, index: int, other: int, value: Option<T>)
    requires other != index
    ensures SafeGet(SafeSet(s, index, value), other) == SafeGet(s, other)
  {
  }

  /** Writing back what a safe read returned is a no-op. */
  lemma SafeSetOfSafeGet<T>(s: seq<T>, index: int)
    ensures SafeSet(s, index, SafeGet(s, index)) == s
  {
  }

  /** `firstIndex(where:)`: the first position whose element satisfies `p`. */
  function FirstIndex<T>(s: seq<T>, p: T -> bool): (r: Option<nat>)
    ensures r.Some? ==> r.value < |s| && p(s[r.value])
    ensures r.Some? ==> forall j :: 0 <= j < r.value ==> !p(s[j])
    ensures r.None? ==> forall j :: 0 <= j < |s| ==> !p(s[j])
  {
    if |s| == 0 then None
    else if p(s[0]) then Some(0)
    else
      var r := FirstIndex(s[1..], p);
      assert forall j :: 1 <= j < |s| ==> s[j] == s[1..][j - 1];
      if r.Some? then Some(r.value + 1) else None
  }
}
