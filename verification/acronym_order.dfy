/**
 * `Default.Config.init(acronyms:)` (DefaultTokenizer.swift): the acronym set
 * sorted by descending length. Swift's `Set` has no order and `sorted(by:)`
 * leaves equal-length acronyms in an unspecified order, so this module also
 * proves that the tokenizer only ever sees the set: any length-sorted
 * arrangement of the same acronyms tokenizes every input identically.
 */
module AcronymOrder {
  import opened Options
  import opened Casification
  import opened DefaultTokenizer

  /** Insert `a` in front of the first element that is not longer than it. */
  function InsertByLength(a: string, s: seq<string>): (r: seq<string>)
    ensures multiset(r) == multiset(s) + multiset{a}
  {
    if |s| == 0 || |s[0]| <= |a| then [a] + s
    else
      assert s == [s[0]] + s[1..];
      [s[0]] + InsertByLength(a, s[1..])
  }

  /** Inserting into a length-sorted list keeps it sorted. */
  lemma {:induction false} InsertByLengthSorted(a: string, s: seq<string>)
    requires SortedByLength(s)
    ensures SortedByLength(InsertByLength(a, s))
  {
    if |s| > 0 && |s[0]| > |a| {
      var rest := InsertByLength(a, s[1..]);
      InsertByLengthSorted(a, s[1..]);
      forall k | 0 <= k < |rest| ensures |rest[k]| <= |s[0]| {
        assert rest[k] in multiset(rest);
        if rest[k] != a {
          assert rest[k] in multiset(s[1..]);
          var j :| 0 <= j < |s[1..]| && s[1..][j] == rest[k];
          assert s[j + 1] == rest[k];
        }
      }
    }
  }

  /** `acronyms.sorted(by: { $0.count > $1.count })`. */
  function SortByLength(s: seq<string>): (r: seq<string>)
    ensures multiset(r) == multiset(s)
    ensures SortedByLength(r)
  {
    if |s| == 0 then []
    else
      assert s == [s[0]] + s[1..];
      var rest := SortByLength(s[1..]);
      InsertByLengthSorted(s[0], rest);
      InsertByLength(s[0], rest)
  }

  /** `Default.Config.init(acronyms:)`. */
  function MakeConfig(acronyms: seq<string>): (r: Config)
    ensures SortedByLength(r.acronyms)
    ensures forall a :: a in r.acronyms <==> a in acronyms
    ensures NonEmptyAcronyms(acronyms) ==> NonEmptyAcronyms(r.acronyms)
  {
    var sorted := SortByLength(acronyms);
    assert forall a :: a in sorted <==> a in multiset(acronyms);
    forall k | 0 <= k < |sorted| ensures sorted[k] in acronyms {
      assert sorted[k] in multiset(sorted);
    }
    Config(sorted)
  }

  /** A list that is already in descending length order is left exactly as it is. */
  lemma {:induction false} SortByLengthKeepsSorted(s: seq<string>)
    requires SortedByLength(s)
    ensures SortByLength(s) == s
  {
    if |s| > 0 {
      assert SortedByLength(s[1..]);
      SortByLengthKeepsSorted(s[1..]);
      assert s == [s[0]] + s[1..];
    }
  }

  /** Some acronym of the list is accepted at `i`. */
  predicate SomeAccepted(input: string, acronyms: seq<string>, i: nat)
    requires i < |input|
  {
    exists a :: a in acronyms && Accepts(input, acronyms, i, a)
  }

  /** The search from the start of the list succeeds exactly when some acronym is accepted. */
  lemma SearchFindsAccepted(input: string, acronyms: seq<string>, i: nat)
    requires i < |input|
    ensures GetAcronymIndex(input, acronyms, i, 0).Some? <==> SomeAccepted(input, acronyms, i)
  {
    GetAcronymIndexFirst(input, acronyms, i, 0);
    var r := GetAcronymIndex(input, acronyms, i, 0);
    if r.Some? {
      assert acronyms[r.value] in acronyms;
    }
    if SomeAccepted(input, acronyms, i) {
      var a :| a in acronyms && Accepts(input, acronyms, i, a);
      var k :| 0 <= k < |acronyms| && acronyms[k] == a;
    }
  }

  /** Whether an acronym is accepted depends on the list only through its set of elements. */
  lemma {:induction false} AcceptsDependsOnSet(input: string, xs: seq<string>, ys: seq<string>, i: nat, a: string)
    requires i < |input|
    requires forall x :: x in xs <==> x in ys
    ensures Accepts(input, xs, i, a) == Accepts(input, ys, i, a)
    decreases |input| - i
  {
    var end := i + |a|;
    if LiteralAt(input, i, a) && |a| > 0 && end < |input| {
      forall x ensures Accepts(input, xs, end, x) == Accepts(input, ys, end, x) {
        AcceptsDependsOnSet(input, xs, ys, end, x);
      }
      SearchFindsAccepted(input, xs, end);
      SearchFindsAccepted(input, ys, end);
      assert SomeAccepted(input, xs, end) == SomeAccepted(input, ys, end);
    }
  }

  /**
   * In a length-sorted list the acronym `getAcronym(at:)` returns is a
   * longest accepted one: the longest match wins.
   */
  lemma GetAcronymLongest(input: string, acronyms: seq<string>, i: nat, a: string)
    requires i < |input| && SortedByLength(acronyms)
    requires a in acronyms && Accepts(input, acronyms, i, a)
    ensures GetAcronym(input, acronyms, i).Some?
    ensures |a| <= |GetAcronym(input, acronyms, i).value|
  {
    GetAcronymIndexFirst(input, acronyms, i, 0);
    var m :| 0 <= m < |acronyms| && acronyms[m] == a;
    var k := GetAcronymIndex(input, acronyms, i, 0).value;
    assert k <= m;
  }

  /** Two length-sorted lists of the same acronyms find the same acronym everywhere. */
  lemma GetAcronymDependsOnSet(input: string, xs: seq<string>, ys: seq<string>, i: nat)
    requires i < |input|
    requires SortedByLength(xs) && SortedByLength(ys)
    requires forall x :: x in xs <==> x in ys
    ensures GetAcronym(input, xs, i) == GetAcronym(input, ys, i)
  {
    var rx, ry := GetAcronym(input, xs, i), GetAcronym(input, ys, i);
    GetAcronymFirstAccepted(input, xs, i);
    GetAcronymFirstAccepted(input, ys, i);
    if rx.Some? {
      AcceptsDependsOnSet(input, xs, ys, i, rx.value);
      GetAcronymLongest(input, ys, i, rx.value);
    }
    if ry.Some? {
      AcceptsDependsOnSet(input, xs, ys, i, ry.value);
      GetAcronymLongest(input, xs, i, ry.value);
    }
    if rx.Some? && ry.Some? {
      assert rx.value == input[i..i + |rx.value|];
      assert ry.value == input[i..i + |ry.value|];
    }
  }

  /** One step of the scan is the same for both lists. */
  lemma StepDependsOnSet(xs: seq<string>, ys: seq<string>, input: string, c: Cursor)
    requires NonEmptyAcronyms(xs) && NonEmptyAcronyms(ys)
    requires SortedByLength(xs) && SortedByLength(ys)
    requires forall x :: x in xs <==> x in ys
    requires ValidCursor(input, c) && c.index < |input|
    ensures Step(Config(xs), input, c) == Step(Config(ys), input, c)
  {
    GetAcronymDependsOnSet(input, xs, ys, c.index);
  }

  lemma {:induction false} ScanDependsOnSet(xs: seq<string>, ys: seq<string>, input: string, c: Cursor)
    requires NonEmptyAcronyms(xs) && NonEmptyAcronyms(ys)
    requires SortedByLength(xs) && SortedByLength(ys)
    requires forall x :: x in xs <==> x in ys
    requires ValidCursor(input, c)
    ensures Scan(Config(xs), input, c) == Scan(Config(ys), input, c)
    decreases |input| - c.index
  {
    if c.index < |input| {
      StepDependsOnSet(xs, ys, input, c);
      ScanDependsOnSet(xs, ys, input, Step(Config(xs), input, c));
    }
  }

  /**
   * The tokenizer a set of acronyms configures is independent of how the
   * sort arranges equal-length acronyms: every length-sorted arrangement of
   * the same acronyms tokenizes alike.
   */
  lemma TokenizeDependsOnlyOnSet(acronyms: seq<string>, arrangement: seq<string>, input: string)
    requires NonEmptyAcronyms(acronyms)
    requires SortedByLength(arrangement)
    requires forall x :: x in arrangement <==> x in acronyms
    ensures NonEmptyAcronyms(arrangement) && NonEmptyAcronyms(MakeConfig(acronyms).acronyms)
    ensures Tokenize(Config(arrangement), input) == Tokenize(MakeConfig(acronyms), input)
  {
    forall k | 0 <= k < |arrangement| ensures |arrangement[k]| > 0 {
      assert arrangement[k] in acronyms;
    }
    ScanDependsOnSet(arrangement, MakeConfig(acronyms).acronyms, input, Cursor(0, 0, []));
  }
}
