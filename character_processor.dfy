/** CharacterProcessor: tokenises strings and integers into one token per
    character, detokenises by concatenation and keys a window by the
    concatenation, optionally restricted to its last `order` characters. */
module CharacterProcessor {
  import opened JsBuiltins

  /** The inputs this model admits: strings, and integers of magnitude at most
      2^53, alone or in an array. */
  predicate AdmitsValue(v: Value)
  {
    v.Number? ==> -SafeLimit <= v.n <= SafeLimit
  }

  predicate Admits(data: Input)
  {
    match data
    case Single(v) => AdmitsValue(v)
    case Array(items) => forall i | 0 <= i < |items| :: AdmitsValue(items[i])
  }

  /** The characters of one datum: a number is first converted to its decimal
      string. */
  function ValueTokens(v: Value): seq<string>
    requires AdmitsValue(v)
  {
    match v
    case Number(n) => SplitChars(NumberToString(n))
    case Text(s) => SplitChars(s)
  }

  /** A string datum gives one token per character, a number one token per
      character of its decimal string; every token is one character long. */
  lemma ValueTokensShape(v: Value)
    requires AdmitsValue(v)
    ensures var ts := ValueTokens(v);
      && (forall i | 0 <= i < |ts| :: |ts[i]| == 1)
      && (v.Text? ==> |ts| == |v.s| && forall i | 0 <= i < |ts| :: ts[i] == [v.s[i]])
      && (v.Number? ==>
            |ts| == |NumberToString(v.n)| && forall i | 0 <= i < |ts| :: ts[i] == [NumberToString(v.n)[i]])
  {
    match v
    case Number(n) => SplitCharsSingletons(NumberToString(n));
    case Text(s) => SplitCharsSingletons(s);
  }

  /** The tokens of an array: each element's characters, in order. */
  function ValuesTokens(items: seq<Value>): seq<string>
    requires forall i | 0 <= i < |items| :: AdmitsValue(items[i])
  {
    if |items| == 0 then [] else ValueTokens(items[0]) + ValuesTokens(items[1..])
  }

  /** What `tokenise(data)` returns. */
  function Tokens(data: Input): seq<string>
    requires Admits(data)
  {
    match data
    case Single(v) => ValueTokens(v)
    case Array(items) => ValuesTokens(items)
  }

  /** `tokenise(data)`: a number or a string is split directly; an array is
      split element by element, the characters pushed onto one list. */
  method Tokenise(data: Input) returns (tokens: seq<string>)
    requires Admits(data)
    ensures tokens == Tokens(data)
  {
    if data.Single? {
      var v := data.v;
      if v.Number? {
        return SplitChars(NumberToString(v.n));
      }
      return SplitChars(v.s);
    }
    var items := data.items;
    tokens := [];
    var i := 0;
    while i < |items|
      invariant 0 <= i <= |items|
      invariant tokens + ValuesTokens(items[i..]) == ValuesTokens(items)
    {
      var datum := items[i];
      var piece;
      if datum.Number? {
        piece := SplitChars(NumberToString(datum.n));
      } else {
        piece := SplitChars(datum.s);
      }
      ValuesTokensStep(items, i, tokens, piece);
      tokens := tokens + piece;
      i := i + 1;
    }
    assert tokens + [] == tokens;
  }

  /** One step of the array loop: the tokens of the remaining elements are those
      of the next element followed by those of the rest. */
  lemma ValuesTokensStep(items: seq<Value>, i: nat, done: seq<string>, piece: seq<string>)
    requires forall j | 0 <= j < |items| :: AdmitsValue(items[j])
    requires i < |items| && piece == ValueTokens(items[i])
    ensures done + ValuesTokens(items[i..]) == (done + piece) + ValuesTokens(items[i + 1..])
  {
    assert items[i..][1..] == items[i + 1..];
  }

  /** `detokenise(tokens)`: the tokens concatenated, so the result holds
      exactly the tokens' characters and begins with the first token. */
  function Detokenise(ts: seq<string>): (s: string)
    ensures |s| == TotalLength(ts)
    ensures |ts| > 0 ==> ts[0] <= s
  {
    JoinLength(ts, "");
    Join(ts, "")
  }

  /** `combineTokens(tokens, order?)`: without an order (or with order 0) the key
      is the detokenised window; with an order k between 1 and the length of the
      concatenation it is exactly the last k characters of it. */
  function CombineTokens(ts: seq<string>, order: Option<int>): (key: string)
    ensures order.None? || order.value == 0 ==> key == Detokenise(ts)
    ensures order.Some? && 1 <= order.value <= |Detokenise(ts)| ==>
              |key| == order.value && Detokenise(ts) == Detokenise(ts)[..|Detokenise(ts)| - order.value] + key
  {
    if order.None? || order.value == 0 then Join(ts, "")
    else
      var joined := Join(ts, "");
      SliceFrom(joined, |joined| - order.value)
  }

  /** Every token is one character long. */
  lemma {:induction false} TokensAreSingleChars(data: Input)
    requires Admits(data)
    ensures forall i | 0 <= i < |Tokens(data)| :: |Tokens(data)[i]| == 1
  {
    if data.Array? {
      ValuesTokensSingleChars(data.items);
    } else {
      ValueTokensShape(data.v);
    }
  }

  lemma {:induction false} ValuesTokensSingleChars(items: seq<Value>)
    requires forall i | 0 <= i < |items| :: AdmitsValue(items[i])
    ensures forall i | 0 <= i < |ValuesTokens(items)| :: |ValuesTokens(items)[i]| == 1
  {
    if |items| > 0 {
      ValuesTokensSingleChars(items[1..]);
      ValueTokensShape(items[0]);
    }
  }

  lemma {:induction false} ValuesTokensConcat(xs: seq<Value>, ys: seq<Value>)
    requires forall i | 0 <= i < |xs| :: AdmitsValue(xs[i])
    requires forall i | 0 <= i < |ys| :: AdmitsValue(ys[i])
    ensures forall i | 0 <= i < |xs + ys| :: AdmitsValue((xs + ys)[i])
    ensures ValuesTokens(xs + ys) == ValuesTokens(xs) + ValuesTokens(ys)
  {
    var zs := xs + ys;
    if |xs| == 0 {
      assert zs == ys;
    } else {
      assert zs[1..] == xs[1..] + ys;
      ValuesTokensConcat(xs[1..], ys);
      var h := ValueTokens(xs[0]);
      var a, b := ValuesTokens(xs[1..]), ValuesTokens(ys);
      assert ValuesTokens(zs) == h + (a + b);
      assert (h + a) + b == h + (a + b);
    }
  }

  /** Tokenising an array is the in-order concatenation of tokenising its parts. */
  lemma TokensOfArrayConcat(xs: seq<Value>, ys: seq<Value>)
    requires Admits(Array(xs)) && Admits(Array(ys))
    ensures Admits(Array(xs + ys))
    ensures Tokens(Array(xs + ys)) == Tokens(Array(xs)) + Tokens(Array(ys))
  {
    ValuesTokensConcat(xs, ys);
  }

  /** A one-element array is tokenised like its element. */
  lemma TokensOfArraySingleton(v: Value)
    requires AdmitsValue(v)
    ensures Tokens(Array([v])) == Tokens(Single(v))
  {
    var items := [v];
    assert items[1..] == [];
    assert ValuesTokens(items) == ValueTokens(v) + [];
  }

  /** Detokenising the tokens of a string gives the string back. */
  lemma TextRoundTrip(s: string)
    ensures Detokenise(Tokens(Single(Text(s)))) == s
  {
    JoinSplitChars(s);
  }

  /** Tokenising the detokenisation of one-character tokens gives them back. */
  lemma TokensRoundTrip(ts: seq<string>)
    requires forall i | 0 <= i < |ts| :: |ts[i]| == 1
    ensures Tokens(Single(Text(Detokenise(ts)))) == ts
  {
    SplitJoinChars(ts);
  }

  /** An integer is tokenised as the characters of its decimal string, which
      reads back as the integer. */
  lemma NumberTokensSpellDecimal(n: int)
    requires -SafeLimit <= n <= SafeLimit
    ensures Detokenise(Tokens(Single(Number(n)))) == NumberToString(n)
    ensures ParseDecimal(Detokenise(Tokens(Single(Number(n))))) == n
  {
    JoinSplitChars(NumberToString(n));
    NumberToStringRoundTrip(n);
  }

  /** When every token is one character, keying with an order k is keying the
      window of the last k tokens without an order. */
  lemma TrailingWindowKey(ts: seq<string>, k: int)
    requires forall i | 0 <= i < |ts| :: |ts[i]| == 1
    requires 1 <= k <= |ts|
    ensures CombineTokens(ts, Some(k)) == CombineTokens(ts[|ts| - k..], None)
  {
    var w := ts[|ts| - k..];
    var joined := Join(ts, "");
    JoinSingleChars(ts);
    JoinSingleChars(w);
    var key := CombineTokens(ts, Some(k));
    assert key == joined[|ts| - k..];
    assert |key| == |Join(w, "")|;
    forall i | 0 <= i < k
      ensures key[i] == Join(w, "")[i]
    {
      assert key[i] == joined[|ts| - k + i] == ts[|ts| - k + i][0];
    }
  }
}
