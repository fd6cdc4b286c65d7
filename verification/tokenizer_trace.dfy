/**
 * General facts for tracing the default tokenizer by hand: how
 * `getAcronym(at:)` answers for a length-sorted acronym list, and what one
 * iteration of the loop of `tokenize(_:)` (DefaultTokenizer.swift) does to
 * the rest of the scan in each of its branches.
 */
module TokenizerTrace {
  import opened Options
  import opened Characters
  import opened Casification
  import opened DefaultTokenizer
  import opened AcronymOrder
  import opened StandardAcronyms

  // ----- `getAcronym(at:)` -----

  /** Acronyms of two to four characters, longest first, as the default set is. */
  predicate ShortSorted(acronyms: seq<string>) {
    && SortedByLength(acronyms)
    && forall k :: 0 <= k < |acronyms| ==> 2 <= |acronyms[k]| <= 4
  }

  /** The `n` characters at `i` are not an acronym. */
  predicate Missing(input: string, acronyms: seq<string>, i: nat, n: nat) {
    i + n > |input| || input[i..i + n] !in acronyms
  }

  /** The `n` characters at `i` are not an acronym `getAcronym(at:)` would accept there. */
  predicate Rejected(input: string, acronyms: seq<string>, i: nat, n: nat)
    requires i < |input|
  {
    Missing(input, acronyms, i, n) || !Accepts(input, acronyms, i, input[i..i + n])
  }

  /** No accepted acronym longer than `m`, and at most four long, occurs at `i`. */
  predicate NoLongerAt(input: string, acronyms: seq<string>, i: nat, m: nat)
    requires i < |input|
  {
    && (m < 4 ==> Rejected(input, acronyms, i, 4))
    && (m < 3 ==> Rejected(input, acronyms, i, 3))
    && (m < 2 ==> Rejected(input, acronyms, i, 2))
  }

  /**
   * `getAcronym(at:)` answers an accepted acronym when no longer one is
   * accepted at that position: the longest match wins.
   */
  lemma LookupLongest(input: string, acronyms: seq<string>, i: nat, a: string)
    requires i < |input| && ShortSorted(acronyms)
    requires a in acronyms && Accepts(input, acronyms, i, a)
    requires NoLongerAt(input, acronyms, i, |a|)
    ensures GetAcronym(input, acronyms, i) == Some(a)
  {
    GetAcronymLongest(input, acronyms, i, a);
    GetAcronymFirstAccepted(input, acronyms, i);
    var r := GetAcronym(input, acronyms, i).value;
    assert r == input[i..i + |r|];
    assert a == input[i..i + |a|];
  }

  /** A listed four-character acronym accepted at the position is found there: none is longer. */
  lemma LookupFour(input: string, acronyms: seq<string>, i: nat, a: string)
    requires ShortSorted(acronyms) && a in acronyms && |a| == 4
    requires i + 4 <= |input| && input[i..i + 4] == a && Accepts(input, acronyms, i, a)
    ensures GetAcronym(input, acronyms, i) == Some(a)
  {
    LookupLongest(input, acronyms, i, a);
  }

  /** `getAcronym(at:)` answers nil when no acronym is accepted at the position. */
  lemma LookupNone(input: string, acronyms: seq<string>, i: nat)
    requires i < |input| && ShortSorted(acronyms)
    requires NoLongerAt(input, acronyms, i, 1)
    ensures GetAcronym(input, acronyms, i) == None
  {
    GetAcronymFirstAccepted(input, acronyms, i);
  }

  /** `getAcronym(at:)` answers nil when no acronym occurs at the position at all. */
  lemma LookupMissing(input: string, acronyms: seq<string>, i: nat)
    requires i < |input| && ShortSorted(acronyms)
    requires Missing(input, acronyms, i, 4) && Missing(input, acronyms, i, 3) && Missing(input, acronyms, i, 2)
    ensures GetAcronym(input, acronyms, i) == None
  {
    LookupNone(input, acronyms, i);
  }

  /** The default acronyms of length `n`. */
  function Group(n: nat): seq<string> {
    if n == 4 then Length4 else if n == 3 then Length3 else Length2
  }

  /** A string is a default acronym only if it is in the group of its length. */
  lemma NotDefault(s: string)
    requires 2 <= |s| <= 4 ==> s !in Group(|s|)
    ensures s !in Standard()
  {
    GroupLengths();
  }

  /** The first two characters of the default acronyms. */
  const Openings: set<(char, char)> := {
    ('u', 'u'), ('U', 'u'), ('U', 'U'), ('u', 'l'), ('U', 'l'), ('U', 'L'), ('u', 's'), ('U', 's'), ('U', 'S'),
    ('i', 'd'), ('I', 'd'), ('I', 'D'), ('v', 'o'), ('V', 'o'), ('V', 'O'), ('j', 's'), ('J', 's'), ('J', 'S'),
    ('y', 'a'), ('Y', 'a'), ('Y', 'A'), ('u', 'r'), ('U', 'r'), ('U', 'R'), ('s', 'p'), ('S', 'p'), ('S', 'P'),
    ('n', 'p'), ('N', 'p'), ('N', 'P'), ('x', 'm'), ('X', 'm'), ('X', 'M'), ('s', 'f'), ('S', 'F'),
    ('n', 's'), ('N', 'S'), ('u', 'i'), ('U', 'I'), ('u', 'x'), ('U', 'X'), ('s', 'k'), ('S', 'K')}

  /** Every string of `s` opens with one of the `Openings`. */
  predicate Opens(s: seq<string>) {
    forall k :: 0 <= k < |s| ==> |s[k]| >= 2 && (s[k][0], s[k][1]) in Openings
  }

  lemma OpensLength4()
    ensures Opens(Length4)
  {
  }

  lemma OpensLength3()
    ensures Opens(Length3)
  {
  }

  lemma OpensLength2()
    ensures Opens(Length2)
  {
  }

  /** Every default acronym opens with one of the `Openings`. */
  lemma StandardOpening(a: string)
    requires a in Standard()
    ensures |a| >= 2 && (a[0], a[1]) in Openings
  {
    OpensLength4();
    OpensLength3();
    OpensLength2();
    if a in Length4 {
      var k :| 0 <= k < |Length4| && Length4[k] == a;
    } else if a in Length3 {
      var k :| 0 <= k < |Length3| && Length3[k] == a;
    } else {
      var k :| 0 <= k < |Length2| && Length2[k] == a;
    }
  }

  /** A string that opens otherwise is no default acronym. */
  lemma NotOpening(s: string)
    requires |s| >= 2 ==> (s[0], s[1]) !in Openings
    ensures s !in Standard()
  {
    if s in Standard() {
      StandardOpening(s);
    }
  }

  /** The characters the default acronyms start with. */
  const Initials: set<char> := {'u', 'U', 'i', 'I', 'v', 'V', 'j', 'J', 'y', 'Y', 's', 'S', 'n', 'N', 'x', 'X'}

  lemma NoOpeningPair(c: char, d: char)
    requires c !in Initials
    ensures (c, d) !in Openings
  {
  }

  /** `getAcronym(at:)` finds no default acronym at a character none of them starts with. */
  lemma InitialFree(input: string, i: nat)
    requires i < |input| && input[i] !in Initials
    ensures GetAcronym(input, Standard(), i) == None
  {
    if i + 1 < |input| {
      NoOpeningPair(input[i], input[i + 1]);
    }
    DefaultFree(input, i);
  }

  /** `getAcronym(at:)` finds no default acronym where the next two characters open none. */
  lemma DefaultFree(input: string, i: nat)
    requires i < |input|
    requires i + 1 < |input| ==> (input[i], input[i + 1]) !in Openings
    ensures GetAcronym(input, Standard(), i) == None
  {
    var r := GetAcronym(input, Standard(), i);
    if r.Some? {
      StandardOpening(r.value);
    }
  }

  /** A configuration built from acronyms of two to four characters is short and sorted. */
  lemma ShortConfig(acronyms: seq<string>)
    requires forall k :: 0 <= k < |acronyms| ==> 2 <= |acronyms[k]| <= 4
    ensures NonEmptyAcronyms(MakeConfig(acronyms).acronyms)
    ensures ShortSorted(MakeConfig(acronyms).acronyms)
  {
    var r := MakeConfig(acronyms).acronyms;
    forall k | 0 <= k < |r|
      ensures 2 <= |r[k]| <= 4
    {
      assert r[k] in acronyms;
    }
  }

  // ----- One iteration of the loop -----

  /** The loop can take one more iteration from `c`. */
  predicate Running(config: Config, input: string, c: Cursor) {
    NonEmptyAcronyms(config.acronyms) && ValidCursor(input, c) && c.index < |input|
  }

  /** No acronym is taken at the cursor: none is found, or it would be the tail of the pending span. */
  predicate NoAcronymTaken(config: Config, input: string, c: Cursor)
    requires Running(config, input, c)
  {
    GetAcronym(input, config.acronyms, c.index).None? || IsSuffixOfOtherToken(input, c.start, c.index)
  }

  /** Away from the end, the scan goes on from the cursor one iteration yields. */
  lemma ScanUnfold(config: Config, input: string, c: Cursor)
    requires Running(config, input, c)
    ensures Scan(config, input, c) == Scan(config, input, Step(config, input, c))
  {
  }

  /** The iteration at an acronym that is not the tail of the pending span. */
  lemma StepAtAcronym(config: Config, input: string, c: Cursor, a: string)
    requires Running(config, input, c)
    requires GetAcronym(input, config.acronyms, c.index) == Some(a)
    requires !IsSuffixOfOtherToken(input, c.start, c.index)
    ensures c.index + |a| <= |input|
    ensures Step(config, input, c) == Cursor(c.index + |a|, c.index + |a|,
              Commit(CommitUpTo(c.tokens, input, c.start, c.index), Token(a, Acronym)))
  {
  }

  /** An acronym found at the cursor is committed after the pending span. */
  lemma ScanAcronym(config: Config, input: string, c: Cursor, a: string)
    requires Running(config, input, c)
    requires GetAcronym(input, config.acronyms, c.index) == Some(a)
    requires !IsSuffixOfOtherToken(input, c.start, c.index)
    ensures c.index + |a| <= |input|
    ensures Scan(config, input, c) == Scan(config, input, Cursor(c.index + |a|, c.index + |a|,
              Commit(CommitUpTo(c.tokens, input, c.start, c.index), Token(a, Acronym))))
  {
    StepAtAcronym(config, input, c, a);
    ScanUnfold(config, input, c);
  }

  /** An acronym found at the start of the input is the first token committed. */
  lemma LeadingAcronym(config: Config, input: string, a: string)
    requires NonEmptyAcronyms(config.acronyms) && |input| > 0
    requires GetAcronym(input, config.acronyms, 0) == Some(a)
    ensures |a| <= |input|
    ensures Tokenize(config, input) == Scan(config, input, Cursor(|a|, |a|, [Token(a, Acronym)]))
  {
    ScanAcronym(config, input, Cursor(0, 0, []), a);
    assert Commit([], Token(a, Acronym)) == [Token(a, Acronym)];
  }

  /** `input[i..j]` is a maximal run of non-alphanumeric characters. */
  predicate SeparatorRun(input: string, i: nat, j: nat) {
    && i < j <= |input|
    && (forall k :: i <= k < j ==> !IsAlphanumeric(input[k]))
    && (j == |input| || IsAlphanumeric(input[j]))
  }

  lemma {:induction false} SeparatorRunEndAt(input: string, i: nat, j: nat)
    requires i <= j <= |input|
    requires forall k :: i <= k < j ==> !IsAlphanumeric(input[k])
    requires j == |input| || IsAlphanumeric(input[j])
    ensures SeparatorRunEnd(input, i) == j
    decreases j - i
  {
    if i < j {
      SeparatorRunEndAt(input, i + 1, j);
    }
  }

  /** A run of separators at the cursor is committed as one separator token. */
  lemma ScanSeparator(config: Config, input: string, c: Cursor, j: nat)
    requires Running(config, input, c) && NoAcronymTaken(config, input, c)
    requires SeparatorRun(input, c.index, j)
    ensures Scan(config, input, c) == Scan(config, input, Cursor(j, j,
              Commit(CommitUpTo(c.tokens, input, c.start, c.index), Token(input[c.index..j], Separator))))
  {
    SeparatorRunEndAt(input, c.index, j);
  }

  /** The iteration at a transition. */
  lemma StepAtTransition(config: Config, input: string, c: Cursor)
    requires Running(config, input, c) && NoAcronymTaken(config, input, c)
    requires IsAlphanumeric(input[c.index])
    requires c.index + 1 < |input| && IsTransition(input[c.index], input[c.index + 1])
    ensures Step(config, input, c) == Cursor(c.index + 1, c.index + 1, CommitUpTo(c.tokens, input, c.start, c.index + 1))
  {
  }

  /** A transition after the cursor's character closes the pending span there. */
  lemma ScanTransition(config: Config, input: string, c: Cursor)
    requires Running(config, input, c) && NoAcronymTaken(config, input, c)
    requires IsAlphanumeric(input[c.index])
    requires c.index + 1 < |input| && IsTransition(input[c.index], input[c.index + 1])
    ensures Scan(config, input, c)
      == Scan(config, input, Cursor(c.index + 1, c.index + 1, CommitUpTo(c.tokens, input, c.start, c.index + 1)))
  {
    StepAtTransition(config, input, c);
    ScanUnfold(config, input, c);
  }

  /** Otherwise the character joins the pending span. */
  lemma ScanExtend(config: Config, input: string, c: Cursor)
    requires Running(config, input, c) && NoAcronymTaken(config, input, c)
    requires IsAlphanumeric(input[c.index])
    requires !(c.index + 1 < |input| && IsTransition(input[c.index], input[c.index + 1]))
    ensures Scan(config, input, c) == Scan(config, input, Cursor(c.start, c.index + 1, c.tokens))
  {
    assert Step(config, input, c) == Cursor(c.start, c.index + 1, c.tokens);
    ScanUnfold(config, input, c);
  }

  /**
   * Position `k` extends the pending span begun before it: an acronym there
   * would be the tail of that span, and it is neither a separator nor a
   * transition.
   */
  predicate Extends(input: string, k: nat)
    requires 0 < k < |input|
  {
    && IsAlphanumeric(input[k])
    && (IsUppercase(input[k - 1]) || IsLowercase(input[k]))
    && !(k + 1 < |input| && IsTransition(input[k], input[k + 1]))
  }

  /** The loop runs over a stretch of extending characters without committing anything. */
  lemma {:induction false} ScanExtends(config: Config, input: string, c: Cursor, j: nat)
    requires NonEmptyAcronyms(config.acronyms)
    requires c.start < c.index <= j <= |input|
    requires forall k :: c.index <= k < j ==> Extends(input, k)
    ensures Scan(config, input, c) == Scan(config, input, Cursor(c.start, j, c.tokens))
    decreases j - c.index
  {
    if c.index < j {
      assert Extends(input, c.index);
      ScanExtend(config, input, c);
      ScanExtends(config, input, Cursor(c.start, c.index + 1, c.tokens), j);
    }
  }

  /**
   * From its first character on, the pending span grows over a stretch of
   * characters that neither start a token nor end the span.
   */
  lemma ScanWord(config: Config, input: string, c: Cursor, j: nat)
    requires Running(config, input, c) && NoAcronymTaken(config, input, c)
    requires c.index < j <= |input|
    requires IsAlphanumeric(input[c.index])
    requires !(c.index + 1 < |input| && IsTransition(input[c.index], input[c.index + 1]))
    requires forall k :: c.index < k < j ==> Extends(input, k)
    ensures Scan(config, input, c) == Scan(config, input, Cursor(c.start, j, c.tokens))
  {
    ScanExtend(config, input, c);
    ScanExtends(config, input, Cursor(c.start, c.index + 1, c.tokens), j);
  }

  /** At the end of the input the pending span is flushed. */
  lemma ScanAtEnd(config: Config, input: string, c: Cursor)
    requires NonEmptyAcronyms(config.acronyms) && c.start <= c.index == |input|
    ensures Scan(config, input, c) == CommitUpTo(c.tokens, input, c.start, c.index)
  {
  }

  /** A single digit is a number. */
  lemma DigitSpan(c: char)
    requires IsNumber(c)
    ensures SpanKind([c]) == Number
  {
  }

  /** A span starting with a non-digit is a word. */
  lemma WordSpan(v: string)
    requires |v| > 0 && !IsNumber(v[0])
    ensures SpanKind(v) == Word
  {
  }

}
