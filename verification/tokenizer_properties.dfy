/**
 * What the default tokenizer guarantees about its output: it is lossless,
 * separators and non-separators alternate, every token has the shape its
 * kind promises, separator runs are maximal and an acronym is never split
 * off the lowercase tail of a word.
 */
module TokenizerProperties {
  import opened Characters
  import opened Casification
  import opened DefaultTokenizer

  function Last<T>(s: seq<T>): T
    requires |s| > 0
  {
    s[|s| - 1]
  }

  predicate NotAlphanumeric(c: char) { !IsAlphanumeric(c) }

  /** The scanner splits `s` between positions `k` and `k + 1`. */
  predicate TransitionAt(s: string, k: nat) {
    k + 1 < |s| && IsTransition(s[k], s[k + 1])
  }

  /** No lower→upper, letter→digit or digit→letter pair of neighbours. */
  predicate NoTransitions(v: string) {
    forall j: nat :: j < |v| ==> !TransitionAt(v, j)
  }

  /** The shape each kind promises. */
  predicate TokenWellFormed(t: Token, acronyms: seq<string>) {
    match t.kind
    case Separator => All(t.value, NotAlphanumeric)
    case Number => |t.value| > 0 && All(t.value, IsNumber)
    case Word => |t.value| > 0 && All(t.value, IsLetter) && NoTransitions(t.value)
    case Acronym => |t.value| > 0 && t.value in acronyms
  }

  /** Separators and non-separators alternate. */
  predicate Alternating(ts: seq<Token>) {
    forall k :: 0 <= k < |ts| - 1 ==> ts[k].IsSeparator() != ts[k + 1].IsSeparator()
  }

  /** An empty separator only ever sits between two other tokens. */
  predicate EmptySeparatorsInterior(ts: seq<Token>) {
    forall k :: 0 <= k < |ts| && ts[k].IsSeparator() && ts[k].value == "" ==> 0 < k < |ts| - 1
  }

  /** A non-empty separator is followed by a token starting with a letter or digit. */
  predicate SeparatorsMaximal(ts: seq<Token>) {
    forall k :: 0 <= k < |ts| - 1 && ts[k].IsSeparator() && ts[k].value != "" ==>
      |ts[k + 1].value| > 0 && IsAlphanumeric(ts[k + 1].value[0])
  }

  /**
   * An acronym glued to a preceding word `w` starts with a non-lowercase
   * character, and `w` does not end in an uppercase letter unless the
   * acronym starts with a digit.
   */
  predicate GluedOk(w: string, a: string) {
    && |w| > 0 && |a| > 0
    && !IsLowercase(a[0])
    && (!IsUppercase(w[|w| - 1]) || IsNumber(a[0]))
  }

  /** Every acronym glued to a word (only an empty separator between them) is `GluedOk`. */
  predicate AcronymsAfterWordsOk(ts: seq<Token>) {
    forall k :: 2 <= k < |ts| && ts[k].kind == Acronym && ts[k - 2].kind == Word && ts[k - 1].value == "" ==>
      GluedOk(ts[k - 2].value, ts[k].value)
  }

  predicate TokensOk(ts: seq<Token>, acronyms: seq<string>) {
    && (forall k :: 0 <= k < |ts| ==> TokenWellFormed(ts[k], acronyms))
    && Alternating(ts)
    && EmptySeparatorsInterior(ts)
    && SeparatorsMaximal(ts)
    && AcronymsAfterWordsOk(ts)
  }

  lemma {:induction false} ConcatSnoc(ts: seq<Token>, t: Token)
    ensures Concat(ts + [t]) == Concat(ts) + t.value
  {
    assert (ts + [t])[..|ts + [t]| - 1] == ts;
  }

  /** The last token's value is the tail of the concatenation. */
  lemma LastValueIsSuffix(ts: seq<Token>)
    requires |ts| > 0
    ensures |Last(ts).value| <= |Concat(ts)|
    ensures Concat(ts)[|Concat(ts)| - |Last(ts).value|..] == Last(ts).value
  {
    assert ts == ts[..|ts| - 1] + [Last(ts)];
    ConcatSnoc(ts[..|ts| - 1], Last(ts));
  }

  /** Letters and digits with no letter/digit transition between neighbours are all of one class. */
  lemma {:induction false} SpanUniform(v: string)
    requires |v| > 0 && All(v, IsAlphanumeric) && NoTransitions(v)
    ensures All(v, IsLetter) || All(v, IsNumber)
    ensures IsLetter(v[0]) ==> All(v, IsLetter)
    decreases |v|
  {
    if |v| > 1 {
      var w := v[..|v| - 1];
      forall j: nat | j < |w| ensures !TransitionAt(w, j) {
        assert !TransitionAt(v, j);
      }
      assert All(w, IsAlphanumeric);
      SpanUniform(w);
      assert !TransitionAt(v, |v| - 2);
    }
  }

  /** The two shapes `commitToken(_:kind:)` can produce. */
  lemma CommitShape(ts: seq<Token>, t: Token)
    ensures var r := Commit(ts, t);
      || (r == ts + [t] && (|ts| == 0 || Last(ts).IsSeparator() || t.IsSeparator()))
      || (r == ts + [Token("", Separator), t] && |ts| > 0 && !Last(ts).IsSeparator() && !t.IsSeparator())
  {
  }

  lemma CommitConcat(ts: seq<Token>, t: Token)
    ensures Concat(Commit(ts, t)) == Concat(ts) + t.value
    ensures |Commit(ts, t)| > 0 && Last(Commit(ts, t)) == t
  {
    var e := Token("", Separator);
    if |ts| > 0 && !Last(ts).IsSeparator() && !t.IsSeparator() {
      assert Commit(ts, t) == (ts + [e]) + [t];
      ConcatSnoc(ts, e);
      ConcatSnoc(ts + [e], t);
    } else {
      ConcatSnoc(ts, t);
    }
  }

  lemma CommitKinds(ts: seq<Token>, t: Token, acronyms: seq<string>)
    requires forall k :: 0 <= k < |ts| ==> TokenWellFormed(ts[k], acronyms)
    requires TokenWellFormed(t, acronyms)
    ensures var r := Commit(ts, t); forall k :: 0 <= k < |r| ==> TokenWellFormed(r[k], acronyms)
  {
    var r := Commit(ts, t);
    CommitShape(ts, t);
    assert All("", NotAlphanumeric);
    forall k | 0 <= k < |r| ensures TokenWellFormed(r[k], acronyms) {
      if k < |ts| { assert r[k] == ts[k]; }
    }
  }

  lemma CommitAlternating(ts: seq<Token>, t: Token)
    requires Alternating(ts)
    requires t.IsSeparator() && |ts| > 0 ==> !Last(ts).IsSeparator()
    ensures Alternating(Commit(ts, t))
  {
    CommitShape(ts, t);
  }

  lemma CommitEmptyInterior(ts: seq<Token>, t: Token)
    requires EmptySeparatorsInterior(ts)
    requires |t.value| > 0
    ensures EmptySeparatorsInterior(Commit(ts, t))
  {
    CommitShape(ts, t);
  }

  lemma CommitMaximal(ts: seq<Token>, t: Token)
    requires SeparatorsMaximal(ts)
    requires |t.value| > 0
    requires |ts| > 0 && Last(ts).IsSeparator() ==> IsAlphanumeric(t.value[0])
    ensures SeparatorsMaximal(Commit(ts, t))
  {
    CommitShape(ts, t);
  }

  lemma CommitAcronymsAfterWords(ts: seq<Token>, t: Token)
    requires AcronymsAfterWordsOk(ts)
    requires EmptySeparatorsInterior(ts)
    requires |t.value| > 0
    requires t.kind == Acronym && |ts| > 0 && Last(ts).kind == Word ==> GluedOk(Last(ts).value, t.value)
    ensures AcronymsAfterWordsOk(Commit(ts, t))
  {
    var r := Commit(ts, t);
    CommitShape(ts, t);
    forall k | 2 <= k < |r| && r[k].kind == Acronym && r[k - 2].kind == Word && r[k - 1].value == ""
      ensures GluedOk(r[k - 2].value, r[k].value)
    {
      if k < |ts| {
        assert r[k] == ts[k] && r[k - 1] == ts[k - 1] && r[k - 2] == ts[k - 2];
      } else if r == ts + [t] {
        assert false;
      } else {
        assert k == |ts| + 1 && r[k - 2] == Last(ts) && r[k] == t;
      }
    }
  }

  /** `commitToken(_:kind:)` keeps the output well formed and extends the concatenation by the value. */
  lemma CommitOk(ts: seq<Token>, t: Token, acronyms: seq<string>)
    requires TokensOk(ts, acronyms)
    requires TokenWellFormed(t, acronyms) && |t.value| > 0
    requires t.IsSeparator() && |ts| > 0 ==> !Last(ts).IsSeparator()
    requires |ts| > 0 && Last(ts).IsSeparator() ==> IsAlphanumeric(t.value[0])
    requires t.kind == Acronym && |ts| > 0 && Last(ts).kind == Word ==> GluedOk(Last(ts).value, t.value)
    ensures TokensOk(Commit(ts, t), acronyms)
    ensures Concat(Commit(ts, t)) == Concat(ts) + t.value
    ensures |Commit(ts, t)| > 0 && Last(Commit(ts, t)) == t
  {
    CommitConcat(ts, t);
    CommitKinds(ts, t, acronyms);
    CommitAlternating(ts, t);
    CommitEmptyInterior(ts, t);
    CommitMaximal(ts, t);
    CommitAcronymsAfterWords(ts, t);
  }

  /** The scanner's loop invariant. */
  predicate ScanInvariant(config: Config, input: string, start: nat, i: nat, ts: seq<Token>) {
    && start <= i <= |input|
    && Concat(ts) == input[..start]
    && TokensOk(ts, config.acronyms)
    && (forall k: nat :: start <= k < i ==> AlphanumericAt(input, k))
    && (forall k: nat :: start <= k < i ==> !TransitionAt(input, k))
    && (|ts| > 0 && Last(ts).IsSeparator() && start < |input| ==> IsAlphanumeric(input[start]))
    && (|ts| > 0 && Last(ts).kind == Word ==>
          0 < start && (start < |input| ==>
            (IsLowercase(input[start - 1]) && IsUppercase(input[start])) || IsNumber(input[start])))
  }

  /** The loop invariant of a cursor. */
  predicate CursorInvariant(config: Config, input: string, c: Cursor) {
    ScanInvariant(config, input, c.start, c.index, c.tokens)
  }

  /** A pending span of letters and digits with no transition inside is a well-formed word or number. */
  lemma SpanTokenWellFormed(input: string, start: nat, end: nat, acronyms: seq<string>)
    requires start < end <= |input|
    requires forall k: nat :: start <= k < end ==> AlphanumericAt(input, k)
    requires forall k: nat :: start <= k && k + 1 < end ==> !TransitionAt(input, k)
    ensures TokenWellFormed(Token(input[start..end], SpanKind(input[start..end])), acronyms)
  {
    var v := input[start..end];
    assert All(v, IsAlphanumeric) by {
      forall j | 0 <= j < |v| ensures IsAlphanumeric(v[j]) {
        assert v[j] == input[start + j] && AlphanumericAt(input, start + j);
      }
    }
    assert NoTransitions(v) by {
      forall j: nat | j < |v| ensures !TransitionAt(v, j) {
        if j + 1 < |v| {
          assert v[j] == input[start + j] && v[j + 1] == input[start + j + 1];
          assert !TransitionAt(input, start + j);
        }
      }
    }
    SpanUniform(v);
  }

  lemma SliceJoin(s: string, i: nat, j: nat)
    requires i <= j <= |s|
    ensures s[..i] + s[i..j] == s[..j]
  {
  }

  /** A non-empty pending span, committed as one token. */
  lemma SpanCommitOk(config: Config, input: string, start: nat, end: nat, ts: seq<Token>)
    requires start < end <= |input|
    requires Concat(ts) == input[..start]
    requires TokensOk(ts, config.acronyms)
    requires forall k: nat :: start <= k < end ==> AlphanumericAt(input, k)
    requires forall k: nat :: start <= k && k + 1 < end ==> !TransitionAt(input, k)
    ensures var t := Token(input[start..end], SpanKind(input[start..end]));
      && TokensOk(Commit(ts, t), config.acronyms)
      && Concat(Commit(ts, t)) == input[..end]
      && |Commit(ts, t)| > 0 && Last(Commit(ts, t)) == t
  {
    var v := input[start..end];
    var t := Token(v, SpanKind(v));
    SpanTokenWellFormed(input, start, end, config.acronyms);
    assert t.value[0] == input[start] && AlphanumericAt(input, start);
    CommitOk(ts, t, config.acronyms);
    SliceJoin(input, start, end);
  }

  /** `commitToken(upTo:)` flushes the pending span as one well-formed word or number. */
  lemma CommitUpToOk(config: Config, input: string, start: nat, end: nat, ts: seq<Token>)
    requires start <= end <= |input|
    requires Concat(ts) == input[..start]
    requires TokensOk(ts, config.acronyms)
    requires forall k: nat :: start <= k < end ==> AlphanumericAt(input, k)
    requires forall k: nat :: start <= k && k + 1 < end ==> !TransitionAt(input, k)
    ensures var r := CommitUpTo(ts, input, start, end);
      && TokensOk(r, config.acronyms)
      && Concat(r) == input[..end]
      && (start == end ==> r == ts)
      && (start < end ==> |r| > 0 && Last(r).value == input[start..end]
                          && Last(Last(r).value) == input[end - 1]
                          && (Last(r).kind == Word || Last(r).kind == Number))
  {
    if start < end {
      var v := input[start..end];
      SpanCommitOk(config, input, start, end, ts);
      assert v[|v| - 1] == input[end - 1];
      assert CommitUpTo(ts, input, start, end) == Commit(ts, Token(v, SpanKind(v)));
    }
  }

  /** At a token boundary (no pending span) the invariant needs only the committed tokens. */
  lemma BoundaryInvariant(config: Config, input: string, p: nat, ts: seq<Token>)
    requires p <= |input|
    requires Concat(ts) == input[..p]
    requires TokensOk(ts, config.acronyms)
    requires |ts| > 0 && Last(ts).IsSeparator() && p < |input| ==> IsAlphanumeric(input[p])
    requires |ts| > 0 && Last(ts).kind == Word ==>
      0 < p && (p < |input| ==> (IsLowercase(input[p - 1]) && IsUppercase(input[p])) || IsNumber(input[p]))
    ensures ScanInvariant(config, input, p, p, ts)
  {
  }

  /**
   * Committing an acronym or a separator token `t` right after the flushed
   * tokens `ts` leaves the scanner at a token boundary.
   */
  lemma CommitAtBoundary(config: Config, input: string, ts: seq<Token>, t: Token)
    requires |Concat(ts)| + |t.value| <= |input|
    requires Concat(ts) + t.value == input[..|Concat(ts)| + |t.value|]
    requires TokensOk(ts, config.acronyms)
    requires TokenWellFormed(t, config.acronyms) && |t.value| > 0 && t.kind != Word
    requires t.IsSeparator() && |ts| > 0 ==> !Last(ts).IsSeparator()
    requires |ts| > 0 && Last(ts).IsSeparator() ==> IsAlphanumeric(t.value[0])
    requires t.kind == Acronym && |ts| > 0 && Last(ts).kind == Word ==> GluedOk(Last(ts).value, t.value)
    requires t.IsSeparator() && |Concat(ts)| + |t.value| < |input| ==> IsAlphanumeric(input[|Concat(ts)| + |t.value|])
    ensures ScanInvariant(config, input, |Concat(ts)| + |t.value|, |Concat(ts)| + |t.value|, Commit(ts, t))
  {
    CommitOk(ts, t, config.acronyms);
    BoundaryInvariant(config, input, |Concat(ts)| + |t.value|, Commit(ts, t));
  }

  /** An acronym the scanner accepts after a word is glued to it correctly. */
  lemma AcronymGlue(input: string, start: nat, i: nat, ts: seq<Token>, acronym: string)
    requires start <= i < |input|
    requires Concat(ts) == input[..start]
    requires |ts| > 0 && Last(ts).kind == Word ==> |Last(ts).value| > 0
    requires |ts| > 0 && Last(ts).kind == Word ==>
      0 < start && ((IsLowercase(input[start - 1]) && IsUppercase(input[start])) || IsNumber(input[start]))
    requires |acronym| > 0 && LiteralAt(input, i, acronym)
    requires !IsSuffixOfOtherToken(input, start, i)
    requires start < i ==> Last(Last(CommitUpTo(ts, input, start, i)).value) == input[i - 1]
    ensures var ts' := CommitUpTo(ts, input, start, i);
      |ts'| > 0 && Last(ts').kind == Word ==> GluedOk(Last(ts').value, acronym)
  {
    assert acronym[0] == input[i];
    if start == i && |ts| > 0 && Last(ts).kind == Word {
      var w := Last(ts).value;
      LastValueIsSuffix(ts);
      assert w[|w| - 1] == Concat(ts)[|Concat(ts)| - 1] == input[start - 1];
    }
  }

  /**
   * The tokens flushed at position `i`: they spell `input[..i]`, are well
   * formed, and a trailing separator is followed by an alphanumeric.
   */
  predicate Flushed(config: Config, input: string, i: nat, u: seq<Token>) {
    && i <= |input|
    && Concat(u) == input[..i]
    && TokensOk(u, config.acronyms)
    && (|u| > 0 && Last(u).IsSeparator() && i < |input| ==> IsAlphanumeric(input[i]))
  }

  /** Flushing the pending span at `i` leaves the scanner at a token boundary. */
  lemma FlushOk(config: Config, input: string, start: nat, i: nat, ts: seq<Token>)
    requires ScanInvariant(config, input, start, i, ts)
    ensures Flushed(config, input, i, CommitUpTo(ts, input, start, i))
  {
    CommitUpToOk(config, input, start, i, ts);
  }

  /** Flushing before an accepted acronym keeps a preceding word glued correctly. */
  lemma FlushGlue(config: Config, input: string, start: nat, i: nat, ts: seq<Token>, acronym: string)
    requires ScanInvariant(config, input, start, i, ts) && i < |input|
    requires |acronym| > 0 && LiteralAt(input, i, acronym)
    requires !IsSuffixOfOtherToken(input, start, i)
    ensures var u := CommitUpTo(ts, input, start, i);
      |u| > 0 && Last(u).kind == Word ==> GluedOk(Last(u).value, acronym)
  {
    CommitUpToOk(config, input, start, i, ts);
    assert |ts| > 0 ==> TokenWellFormed(ts[|ts| - 1], config.acronyms);
    AcronymGlue(input, start, i, ts, acronym);
  }

  /** Committing an accepted acronym after flushed tokens reaches a boundary. */
  lemma AcronymAfterFlush(config: Config, input: string, i: nat, u: seq<Token>, acronym: string)
    requires Flushed(config, input, i, u) && i < |input|
    requires |acronym| > 0 && acronym in config.acronyms && LiteralAt(input, i, acronym)
    requires |u| > 0 && Last(u).kind == Word ==> GluedOk(Last(u).value, acronym)
    ensures i + |acronym| <= |input|
    ensures ScanInvariant(config, input, i + |acronym|, i + |acronym|,
              Commit(u, Token(input[i..i + |acronym|], Acronym)))
  {
    assert input[i..i + |acronym|] == acronym;
    SliceJoin(input, i, i + |acronym|);
    CommitAtBoundary(config, input, u, Token(input[i..i + |acronym|], Acronym));
  }

  /** The acronym branch of the loop keeps the invariant. */
  lemma AcronymStep(config: Config, input: string, start: nat, i: nat, ts: seq<Token>, acronym: string)
    requires ScanInvariant(config, input, start, i, ts) && i < |input|
    requires |acronym| > 0 && acronym in config.acronyms && LiteralAt(input, i, acronym)
    requires !IsSuffixOfOtherToken(input, start, i)
    ensures i + |acronym| <= |input|
    ensures ScanInvariant(config, input, i + |acronym|, i + |acronym|,
              Commit(CommitUpTo(ts, input, start, i), Token(input[i..i + |acronym|], Acronym)))
  {
    FlushOk(config, input, start, i, ts);
    FlushGlue(config, input, start, i, ts, acronym);
    AcronymAfterFlush(config, input, i, CommitUpTo(ts, input, start, i), acronym);
  }

  /** The run `separatorEnd(from:)` measures is a well-formed separator followed by a letter, a digit or the end. */
  lemma SeparatorRunToken(input: string, i: nat)
    requires i < |input| && !IsAlphanumeric(input[i])
    ensures var end := SeparatorRunEnd(input, i);
      && i < end
      && All(input[i..end], NotAlphanumeric)
      && (end < |input| ==> IsAlphanumeric(input[end]))
  {
    var end := SeparatorRunEnd(input, i);
    SeparatorRunEndSpec(input, i);
    var v := input[i..end];
    forall j | 0 <= j < |v| ensures NotAlphanumeric(v[j]) {
      assert v[j] == input[i + j] && !AlphanumericAt(input, i + j);
    }
  }

  /** Committing a separator run after flushed tokens reaches a boundary. */
  lemma SeparatorAfterFlush(config: Config, input: string, i: nat, end: nat, u: seq<Token>)
    requires Flushed(config, input, i, u)
    requires i < end <= |input| && All(input[i..end], NotAlphanumeric)
    requires end < |input| ==> IsAlphanumeric(input[end])
    ensures ScanInvariant(config, input, end, end, Commit(u, Token(input[i..end], Separator)))
  {
    assert input[i..end][0] == input[i];
    SliceJoin(input, i, end);
    CommitAtBoundary(config, input, u, Token(input[i..end], Separator));
  }

  /** The separator branch of the loop keeps the invariant. */
  lemma SeparatorStep(config: Config, input: string, start: nat, i: nat, end: nat, ts: seq<Token>)
    requires ScanInvariant(config, input, start, i, ts)
    requires i < end <= |input| && All(input[i..end], NotAlphanumeric)
    requires end < |input| ==> IsAlphanumeric(input[end])
    ensures ScanInvariant(config, input, end, end,
              Commit(CommitUpTo(ts, input, start, i), Token(input[i..end], Separator)))
  {
    FlushOk(config, input, start, i, ts);
    SeparatorAfterFlush(config, input, i, end, CommitUpTo(ts, input, start, i));
  }

  /** After a letter, a transition is a lower→upper pair or a letter→digit pair. */
  lemma LetterTransition(c: char, d: char)
    requires IsLetter(c) && IsTransition(c, d)
    ensures (IsLowercase(c) && IsUppercase(d)) || IsNumber(d)
  {
  }

  /** Flushing a span at a transition leaves the scanner at a token boundary. */
  lemma TransitionBoundary(config: Config, input: string, i: nat, ts: seq<Token>)
    requires i + 1 < |input| && IsTransition(input[i], input[i + 1])
    requires Concat(ts) == input[..i + 1]
    requires TokensOk(ts, config.acronyms)
    requires |ts| > 0 && !Last(ts).IsSeparator() && Last(Last(ts).value) == input[i]
    ensures ScanInvariant(config, input, i + 1, i + 1, ts)
  {
    if Last(ts).kind == Word {
      assert TokenWellFormed(ts[|ts| - 1], config.acronyms);
      LetterTransition(input[i], input[i + 1]);
    }
    BoundaryInvariant(config, input, i + 1, ts);
  }

  /** Flushing through a letter or digit ends the tokens with a non-separator holding it. */
  lemma TransitionFlush(config: Config, input: string, start: nat, i: nat, ts: seq<Token>)
    requires ScanInvariant(config, input, start, i, ts) && i < |input| && IsAlphanumeric(input[i])
    ensures var u := CommitUpTo(ts, input, start, i + 1);
      && Concat(u) == input[..i + 1]
      && TokensOk(u, config.acronyms)
      && |u| > 0 && !Last(u).IsSeparator() && Last(Last(u).value) == input[i]
  {
    assert AlphanumericAt(input, i);
    CommitUpToOk(config, input, start, i + 1, ts);
  }

  /** The transition branch of the loop keeps the invariant. */
  lemma TransitionStep(config: Config, input: string, start: nat, i: nat, ts: seq<Token>)
    requires ScanInvariant(config, input, start, i, ts) && i + 1 < |input|
    requires IsAlphanumeric(input[i]) && IsTransition(input[i], input[i + 1])
    ensures ScanInvariant(config, input, i + 1, i + 1, CommitUpTo(ts, input, start, i + 1))
  {
    TransitionFlush(config, input, start, i, ts);
    TransitionBoundary(config, input, i, CommitUpTo(ts, input, start, i + 1));
  }

  /** Extending the pending span by a letter or digit that is not followed by a transition keeps the invariant. */
  lemma ExtendStep(config: Config, input: string, start: nat, i: nat, ts: seq<Token>)
    requires ScanInvariant(config, input, start, i, ts) && i < |input|
    requires IsAlphanumeric(input[i]) && !TransitionAt(input, i)
    ensures ScanInvariant(config, input, start, i + 1, ts)
  {
    assert AlphanumericAt(input, i);
  }

  lemma CursorInvariantOf(config: Config, input: string, c: Cursor, start: nat, i: nat, ts: seq<Token>)
    requires c == Cursor(start, i, ts) && ScanInvariant(config, input, start, i, ts)
    ensures CursorInvariant(config, input, c)
  {
  }

  /** The acronym branch of `Step`. */
  lemma StepAtAcronym(config: Config, input: string, c: Cursor)
    requires NonEmptyAcronyms(config.acronyms)
    requires ValidCursor(input, c) && c.index < |input|
    requires GetAcronym(input, config.acronyms, c.index).Some? && !IsSuffixOfOtherToken(input, c.start, c.index)
    ensures Step(config, input, c) ==
      Cursor(c.index + |GetAcronym(input, config.acronyms, c.index).value|,
             c.index + |GetAcronym(input, config.acronyms, c.index).value|,
             Commit(CommitUpTo(c.tokens, input, c.start, c.index),
                    Token(input[c.index..c.index + |GetAcronym(input, config.acronyms, c.index).value|], Acronym)))
  {
  }

  lemma StepAcronymCase(config: Config, input: string, c: Cursor)
    requires NonEmptyAcronyms(config.acronyms)
    requires CursorInvariant(config, input, c) && c.index < |input|
    requires GetAcronym(input, config.acronyms, c.index).Some? && !IsSuffixOfOtherToken(input, c.start, c.index)
    ensures CursorInvariant(config, input, Step(config, input, c))
  {
    StepAtAcronym(config, input, c);
    AcronymStep(config, input, c.start, c.index, c.tokens, GetAcronym(input, config.acronyms, c.index).value);
    CursorInvariantOf(config, input, Step(config, input, c),
      c.index + |GetAcronym(input, config.acronyms, c.index).value|,
      c.index + |GetAcronym(input, config.acronyms, c.index).value|,
      Commit(CommitUpTo(c.tokens, input, c.start, c.index),
             Token(input[c.index..c.index + |GetAcronym(input, config.acronyms, c.index).value|], Acronym)));
  }

  lemma StepSeparatorCase(config: Config, input: string, c: Cursor)
    requires NonEmptyAcronyms(config.acronyms)
    requires CursorInvariant(config, input, c) && c.index < |input|
    requires !(GetAcronym(input, config.acronyms, c.index).Some? && !IsSuffixOfOtherToken(input, c.start, c.index))
    requires !IsAlphanumeric(input[c.index])
    ensures CursorInvariant(config, input, Step(config, input, c))
  {
    SeparatorRunToken(input, c.index);
    SeparatorStep(config, input, c.start, c.index, SeparatorRunEnd(input, c.index), c.tokens);
    CursorInvariantOf(config, input, Step(config, input, c),
      SeparatorRunEnd(input, c.index), SeparatorRunEnd(input, c.index),
      Commit(CommitUpTo(c.tokens, input, c.start, c.index),
             Token(input[c.index..SeparatorRunEnd(input, c.index)], Separator)));
  }

  /** The transition branch of `Step`. */
  lemma StepAtTransition(config: Config, input: string, c: Cursor)
    requires NonEmptyAcronyms(config.acronyms)
    requires ValidCursor(input, c) && c.index < |input|
    requires !(GetAcronym(input, config.acronyms, c.index).Some? && !IsSuffixOfOtherToken(input, c.start, c.index))
    requires IsAlphanumeric(input[c.index])
    requires c.index + 1 < |input| && IsTransition(input[c.index], input[c.index + 1])
    ensures Step(config, input, c) == Cursor(c.index + 1, c.index + 1, CommitUpTo(c.tokens, input, c.start, c.index + 1))
  {
  }

  lemma StepTransitionCase(config: Config, input: string, c: Cursor)
    requires NonEmptyAcronyms(config.acronyms)
    requires CursorInvariant(config, input, c) && c.index < |input|
    requires !(GetAcronym(input, config.acronyms, c.index).Some? && !IsSuffixOfOtherToken(input, c.start, c.index))
    requires IsAlphanumeric(input[c.index])
    requires c.index + 1 < |input| && IsTransition(input[c.index], input[c.index + 1])
    ensures CursorInvariant(config, input, Step(config, input, c))
  {
    StepAtTransition(config, input, c);
    TransitionNext(config, input, c);
  }

  /** The cursor after a transition: the span up to and including the current character flushed. */
  lemma TransitionNext(config: Config, input: string, c: Cursor)
    requires CursorInvariant(config, input, c) && c.index + 1 < |input|
    requires IsAlphanumeric(input[c.index]) && IsTransition(input[c.index], input[c.index + 1])
    ensures CursorInvariant(config, input,
      Cursor(c.index + 1, c.index + 1, CommitUpTo(c.tokens, input, c.start, c.index + 1)))
  {
    TransitionStep(config, input, c.start, c.index, c.tokens);
    CursorInvariantOf(config, input, Cursor(c.index + 1, c.index + 1, CommitUpTo(c.tokens, input, c.start, c.index + 1)),
      c.index + 1, c.index + 1, CommitUpTo(c.tokens, input, c.start, c.index + 1));
  }

  lemma StepExtendCase(config: Config, input: string, c: Cursor)
    requires NonEmptyAcronyms(config.acronyms)
    requires CursorInvariant(config, input, c) && c.index < |input|
    requires !(GetAcronym(input, config.acronyms, c.index).Some? && !IsSuffixOfOtherToken(input, c.start, c.index))
    requires IsAlphanumeric(input[c.index])
    requires !(c.index + 1 < |input| && IsTransition(input[c.index], input[c.index + 1]))
    ensures CursorInvariant(config, input, Step(config, input, c))
  {
    ExtendStep(config, input, c.start, c.index, c.tokens);
    CursorInvariantOf(config, input, Step(config, input, c), c.start, c.index + 1, c.tokens);
  }

  /** One iteration of the loop keeps the invariant. */
  lemma StepOk(config: Config, input: string, c: Cursor)
    requires NonEmptyAcronyms(config.acronyms)
    requires CursorInvariant(config, input, c) && c.index < |input|
    ensures CursorInvariant(config, input, Step(config, input, c))
  {
    if GetAcronym(input, config.acronyms, c.index).Some? && !IsSuffixOfOtherToken(input, c.start, c.index) {
      StepAcronymCase(config, input, c);
    } else if !IsAlphanumeric(input[c.index]) {
      StepSeparatorCase(config, input, c);
    } else if c.index + 1 < |input| && IsTransition(input[c.index], input[c.index + 1]) {
      StepTransitionCase(config, input, c);
    } else {
      StepExtendCase(config, input, c);
    }
  }

  /** At the end of the input the final `commitToken(upTo:)` completes the invariant. */
  lemma ScanEndOk(config: Config, input: string, c: Cursor)
    requires CursorInvariant(config, input, c) && c.index == |input|
    ensures TokensOk(CommitUpTo(c.tokens, input, c.start, |input|), config.acronyms)
    ensures Concat(CommitUpTo(c.tokens, input, c.start, |input|)) == input
  {
    CommitUpToOk(config, input, c.start, c.index, c.tokens);
    assert input[..|input|] == input;
  }

  /** The scan keeps its invariant to the end, where it holds of the result. */
  lemma {:induction false} ScanOk(config: Config, input: string, c: Cursor)
    requires NonEmptyAcronyms(config.acronyms)
    requires CursorInvariant(config, input, c)
    ensures TokensOk(Scan(config, input, c), config.acronyms)
    ensures Concat(Scan(config, input, c)) == input
    decreases |input| - c.index
  {
    if c.index == |input| {
      ScanEndOk(config, input, c);
    } else {
      StepOk(config, input, c);
      ScanOk(config, input, Step(config, input, c));
    }
  }

  /** Lossless: concatenating the token values in order gives back the input. */
  lemma TokenizeLossless(config: Config, input: string)
    requires NonEmptyAcronyms(config.acronyms)
    ensures Concat(Tokenize(config, input)) == input
  {
    ScanOk(config, input, Cursor(0, 0, []));
  }

  /**
   * The shape of the output: kinds alternate between separator and
   * non-separator, empty separators are interior, separator runs are
   * maximal, words and numbers are uniform spans, acronyms come from the
   * configuration.
   */
  lemma TokenizeWellFormed(config: Config, input: string)
    requires NonEmptyAcronyms(config.acronyms)
    ensures TokensOk(Tokenize(config, input), config.acronyms)
  {
    ScanOk(config, input, Cursor(0, 0, []));
  }

  /**
   * `tokenize(using:)` with the default tokenizer gives back the whole string
   * when its tokens are concatenated, and the tokens are well-formed.
   */
  lemma TokenizeUsingDefault(config: Config, tokenizer: Tokenizer, s: string)
    requires NonEmptyAcronyms(config.acronyms)
    requires forall x :: tokenizer(x) == Tokenize(config, x)
    ensures Concat(TokenizeUsing(s, tokenizer)) == s
    ensures TokensOk(TokenizeUsing(s, tokenizer), config.acronyms)
  {
    TokenizeLossless(config, s);
    TokenizeWellFormed(config, s);
  }

  /** The empty input gives no tokens. */
  lemma TokenizeEmpty(config: Config)
    requires NonEmptyAcronyms(config.acronyms)
    ensures Tokenize(config, "") == []
  {
  }
}
