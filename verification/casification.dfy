/**
 * The token model: `String.Casification.Token` and its `Kind`, with the
 * helpers every other component uses (Casification.swift).
 */
module Casification {

  datatype Kind = Word | Number | Acronym | Separator

  /** A classified slice of the input; equality is structural on (value, kind). */
  datatype Token = Token(value: string, kind: Kind) {

    predicate IsSeparator() { kind == Separator }

    /** `withValue(_:)`: the same kind with a replacement value. */
    function WithValue(v: string): (r: Token)
      ensures r.value == v && r.kind == kind
    {
      Token(v, kind)
    }
  }

  /** `Token.init(_:kind:)` with the value left at its default. */
  function NewToken(kind: Kind): (r: Token)
    ensures r.value == "" && r.kind == kind
  {
    Token("", kind)
  }

  /** `Kind.description`. */
  function KindName(k: Kind): (r: string)
    ensures |r| > 0
    ensures r[0] == match k
      case Word => 'w'
      case Number => 'n'
      case Acronym => 'a'
      case Separator => 's'
  {
    match k
    case Word => "word"
    case Number => "number"
    case Acronym => "acronym"
    case Separator => "separator"
  }

  /** `Token.description`: `.kind("value")`. */
  function Description(t: Token): (r: string)
    ensures |r| == |KindName(t.kind)| + |t.value| + 5
    ensures r[0] == '.' && r[1..1 + |KindName(t.kind)|] == KindName(t.kind)
    ensures r[|r| - |t.value| - 2 .. |r| - 2] == t.value
    ensures r[1 + |KindName(t.kind)|..3 + |KindName(t.kind)|] == "(\""
    ensures r[|r| - 2..] == "\")"
  {
    "." + KindName(t.kind) + "(\"" + t.value + "\")"
  }

  /** The kind name is recovered from the character right after the dot. */
  lemma KindNameDetermines(k1: Kind, k2: Kind)
    requires KindName(k1)[0] == KindName(k2)[0]
    ensures k1 == k2
  {
  }

  /** Different tokens never share a description. */
  lemma DescriptionInjective(t1: Token, t2: Token)
    requires Description(t1) == Description(t2)
    ensures t1 == t2
  {
    var d := Description(t1);
    assert d[1] == KindName(t1.kind)[0] && d[1] == KindName(t2.kind)[0];
    KindNameDetermines(t1.kind, t2.kind);
    assert t1.value == d[|d| - |t1.value| - 2 .. |d| - 2];
  }

  /** The concatenation, in order, of the tokens' values. */
  function Concat(tokens: seq<Token>): (r: string)
    ensures |tokens| == 0 ==> r == ""
  {
    if |tokens| == 0 then "" else Concat(tokens[..|tokens| - 1]) + tokens[|tokens| - 1].value
  }

  lemma {:induction false} ConcatAppend(a: seq<Token>, b: seq<Token>)
    ensures Concat(a + b) == Concat(a) + Concat(b)
    decreases |b|
  {
    if |b| == 0 {
      assert a + b == a;
    } else {
      var b' := b[..|b| - 1];
      assert (a + b)[..|a + b| - 1] == a + b';
      ConcatAppend(a, b');
    }
  }

  /**
   * `withValue(_:)` changes the value and nothing else: giving back the old
   * value restores the token, and only the last of two replacements counts.
   */
  lemma WithValueRoundTrip(t: Token, v: string, w: string)
    ensures t.WithValue(t.value) == t
    ensures t.WithValue(v).WithValue(t.value) == t
    ensures t.WithValue(v).WithValue(w) == t.WithValue(w)
    ensures t.WithValue(v).IsSeparator() == t.IsSeparator()
  {
  }

  /**
   * A token made with the default value adds nothing to a concatenation, and
   * giving it a value yields the token of that value and kind.
   */
  lemma NewTokenNeutral(tokens: seq<Token>, kind: Kind, v: string)
    ensures Concat(tokens + [NewToken(kind)]) == Concat(tokens)
    ensures Concat([NewToken(kind)] + tokens) == Concat(tokens)
    ensures NewToken(kind).WithValue(v) == Token(v, kind)
  {
    ConcatAppend(tokens, [NewToken(kind)]);
    ConcatAppend([NewToken(kind)], tokens);
    assert [NewToken(kind)][..0] == [];
  }

  /** A tokenizer: `String.Casification.Tokenizer.tokenize(_:)`. */
  type Tokenizer = string -> seq<Token>

  /** `String.tokenize(using:)` and `Substring.tokenize(using:)`: the tokenizer applied to the whole string. */
  function TokenizeUsing(s: string, tokenizer: Tokenizer): (r: seq<Token>)
    ensures r == tokenizer(s[..])
  {
    tokenizer(s)
  }
}
