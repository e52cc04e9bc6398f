/** WordProcessor: tokenises strings into words with a configurable splitter,
    detokenises by joining with a single space and keys a window by the same
    join, optionally restricted to its last `order` tokens. */
module WordProcessor {
  import opened JsBuiltins

  /** The `splitExpression`: the default regular expression /\s+/ or a literal
      string. Other regular expressions are not part of this model. */
  datatype Splitter = WhitespaceRuns | Literal(sep: string)

  datatype WordProcessor = WordProcessor(splitExpression: Splitter)

  /** `new WordProcessor(splitExpression?)`: an omitted splitter defaults to
      /\s+/, a given one is kept. */
  function Create(splitExpression: Option<Splitter>): (wp: WordProcessor)
    ensures splitExpression.None? ==> wp.splitExpression == WhitespaceRuns
    ensures splitExpression.Some? ==> wp.splitExpression == splitExpression.value
  {
    match splitExpression
    case None => WordProcessor(WhitespaceRuns)
    case Some(e) => WordProcessor(e)
  }

  /** `s.split(this.splitExpression)`. */
  function Split(wp: WordProcessor, s: string): seq<string>
  {
    match wp.splitExpression
    case WhitespaceRuns => SplitWhitespace(s)
    case Literal(sep) => if sep == "" then SplitChars(s) else SplitOn(s, sep)
  }

  /** The inputs the processor's signature admits: a string or an array of strings. */
  predicate Admits(data: Input)
  {
    match data
    case Single(v) => v.Text?
    case Array(items) => AllText(items)
  }

  predicate AllText(items: seq<Value>)
  {
    forall i | 0 <= i < |items| :: items[i].Text?
  }

  /** The tokens of an array of strings: each element split, in order. */
  function SplitAll(wp: WordProcessor, items: seq<Value>): seq<string>
    requires AllText(items)
  {
    if |items| == 0 then [] else Split(wp, items[0].s) + SplitAll(wp, items[1..])
  }

  /** What `tokenise(data)` returns. */
  function Tokens(wp: WordProcessor, data: Input): seq<string>
    requires Admits(data)
  {
    match data
    case Single(v) => Split(wp, v.s)
    case Array(items) => SplitAll(wp, items)
  }

  /** `tokenise(data)`: a string is split directly; an array is split element by
      element, the pieces pushed onto one list. */
  method Tokenise(wp: WordProcessor, data: Input) returns (tokens: seq<string>)
    requires Admits(data)
    ensures tokens == Tokens(wp, data)
  {
    if data.Single? {
      return Split(wp, data.v.s);
    }
    var items := data.items;
    tokens := [];
    var i := 0;
    while i < |items|
      invariant 0 <= i <= |items|
      invariant tokens + SplitAll(wp, items[i..]) == SplitAll(wp, items)
    {
      assert items[i..][1..] == items[i + 1..];
      tokens := tokens + Split(wp, items[i].s);
      i := i + 1;
    }
    assert tokens + [] == tokens;
  }

  /** `detokenise(tokens)`: the tokens joined with a single space, so no tokens
      give "", and otherwise the result begins with the first token and holds
      every token's characters plus one space between each neighbouring pair. */
  function Detokenise(ts: seq<string>): (s: string)
    ensures |ts| == 0 ==> s == ""
    ensures |ts| > 0 ==> |s| == TotalLength(ts) + |ts| - 1 && ts[0] <= s
  {
    JoinLength(ts, " ");
    Join(ts, " ")
  }

  /** `combineTokens(tokens, order?)`: without an order (or with order 0) the key
      is the detokenised window; with an order k between 1 and the number of
      tokens it is the detokenisation of exactly the last k tokens. */
  function CombineTokens(ts: seq<string>, order: Option<int>): (key: string)
    ensures order.None? || order.value == 0 ==> key == Detokenise(ts)
    ensures order.Some? && 1 <= order.value <= |ts| ==>
              key == Detokenise(ts[|ts| - order.value..])
  {
    if order.None? || order.value == 0 then Join(ts, " ")
    else Join(SliceFrom(ts, |ts| - order.value), " ")
  }

  lemma {:induction false} SplitAllConcat(wp: WordProcessor, xs: seq<Value>, ys: seq<Value>)
    requires AllText(xs) && AllText(ys)
    ensures AllText(xs + ys)
    ensures SplitAll(wp, xs + ys) == SplitAll(wp, xs) + SplitAll(wp, ys)
  {
    var zs := xs + ys;
    assert AllText(zs);
    if |xs| == 0 {
      assert zs == ys;
    } else {
      assert zs[1..] == xs[1..] + ys;
      SplitAllConcat(wp, xs[1..], ys);
      var h := Split(wp, xs[0].s);
      var a, b := SplitAll(wp, xs[1..]), SplitAll(wp, ys);
      assert SplitAll(wp, zs) == h + (a + b);
      assert (h + a) + b == h + (a + b);
    }
  }

  /** Tokenising an array is the in-order concatenation of tokenising its parts. */
  lemma TokensOfArrayConcat(wp: WordProcessor, xs: seq<Value>, ys: seq<Value>)
    requires Admits(Array(xs)) && Admits(Array(ys))
    ensures Admits(Array(xs + ys))
    ensures Tokens(wp, Array(xs + ys)) == Tokens(wp, Array(xs)) + Tokens(wp, Array(ys))
  {
    SplitAllConcat(wp, xs, ys);
  }

  /** A one-element array is tokenised like its element. */
  lemma TokensOfArraySingleton(wp: WordProcessor, s: string)
    ensures Tokens(wp, Array([Text(s)])) == Tokens(wp, Single(Text(s)))
  {
    var items := [Text(s)];
    assert items[1..] == [];
    assert SplitAll(wp, items) == Split(wp, s) + [];
  }

  /** With the default splitter a string yields at least one token and no token
      contains whitespace. */
  lemma DefaultTokens(s: string)
    ensures var ts := Tokens(Create(None), Single(Text(s)));
      |ts| >= 1 && forall i | 0 <= i < |ts| :: HasNoWhitespace(ts[i])
  {
    SplitWhitespaceNoWhitespace(s);
  }

  /** With a non-empty literal separator a string yields at least one token, and
      joining the tokens with the separator restores the string. */
  lemma LiteralTokensRejoin(sep: string, s: string)
    requires |sep| > 0
    ensures var ts := Tokens(WordProcessor(Literal(sep)), Single(Text(s)));
      |ts| >= 1 && Join(ts, sep) == s
  {
    JoinSplitOn(s, sep);
  }

  /** With the default splitter, detokenising non-empty whitespace-free tokens
      and tokenising the result gives the tokens back. */
  lemma DefaultRoundTrip(ts: seq<string>)
    requires |ts| > 0
    requires forall i | 0 <= i < |ts| :: |ts[i]| > 0 && HasNoWhitespace(ts[i])
    ensures Tokens(Create(None), Single(Text(Detokenise(ts)))) == ts
  {
    SplitWhitespaceJoin(ts);
  }

  /** With the literal separator " ", detokenise undoes tokenise exactly. */
  lemma SpaceLiteralRoundTrip(s: string)
    ensures Detokenise(Tokens(WordProcessor(Literal(" ")), Single(Text(s)))) == s
  {
    JoinSplitOn(s, " ");
  }
}
