/** The meaning of the engine's state and operations as values: the transition
    table, the windows a source contributes, training as a fold over the
    sources, the weighted choice of a continuation and the generation walk.
    The class in module Markov is proved against these definitions. */
module Chain {
  import opened JsBuiltins
  import opened SourceProcessor

  /** What follows a window: a token, or `None` (undefined) after the last
      window of a source. */
  type Continuation = Option<string>

  /** `_ngrams`: key -> the continuations recorded under it, duplicates kept. */
  type Table = map<string, seq<Continuation>>

  /** The trained state: the table and the starter windows. */
  datatype Model = Model(ngrams: Table, starters: seq<seq<string>>)

  function Entry(t: Table, key: string): seq<Continuation>
  {
    if key in t then t[key] else []
  }

  /** `this._ngrams[current]`: the entry, or undefined when the key is absent. */
  function Lookup(t: Table, key: string): Option<seq<Continuation>>
  {
    if key in t then Some(t[key]) else None
  }

  /** Creates the entry if absent and pushes `c` onto it. */
  function Record(t: Table, key: string, c: Continuation): Table
  {
    t[key := Entry(t, key) + [c]]
  }

  /** Records the pairs in order. */
  function RecordAll(t: Table, ws: seq<(string, Continuation)>): Table
  {
    if |ws| == 0 then t else Record(RecordAll(t, ws[..|ws| - 1]), ws[|ws| - 1].0, ws[|ws| - 1].1)
  }

  /** `tokens[j]`, which is undefined one past the end. */
  function After(tokens: seq<string>, j: nat): Continuation
  {
    if j < |tokens| then Some(tokens[j]) else None
  }

  /** Creating an absent entry as empty and then pushing onto it records. */
  lemma RecordCreatesThenPushes(t: Table, key: string, c: Continuation)
    ensures var t' := if key in t then t else t[key := []];
      t'[key := t'[key] + [c]] == Record(t, key, c)
  {
    if key !in t {
      var t' := t[key := []];
      var a, b := t'[key := t'[key] + [c]], t[key := [c]];
      assert t'[key] + [c] == [c];
      assert a.Keys == b.Keys;
      assert forall k2 | k2 in a :: a[k2] == b[k2];
    }
  }

  /** Recording one more pair of a list. */
  lemma RecordAllStep(t: Table, ws: seq<(string, Continuation)>, i: nat)
    requires i < |ws|
    ensures RecordAll(t, ws[..i + 1]) == Record(RecordAll(t, ws[..i]), ws[i].0, ws[i].1)
  {
    assert ws[..i + 1][..i] == ws[..i];
  }

  /** The (key, continuation) pair training records for each window of width k:
      windows start at 0 .. |tokens| - k, and the last one is followed by None. */
  function Windows(p: Processor, k: nat, tokens: seq<string>): (ws: seq<(string, Continuation)>)
    requires k <= |tokens|
    ensures |ws| == |tokens| - k + 1
  {
    seq(|tokens| - k + 1, i requires 0 <= i <= |tokens| - k =>
      (CombineTokens(p, tokens[i..i + k], None), After(tokens, i + k)))
  }

  /** Window i is keyed by its k tokens and followed by the token after it,
      undefined for the last window. */
  lemma WindowAt(p: Processor, k: nat, tokens: seq<string>, i: nat)
    requires k <= |tokens| && i <= |tokens| - k
    ensures Windows(p, k, tokens)[i].0 == CombineTokens(p, tokens[i..i + k], None)
    ensures Windows(p, k, tokens)[i].1 == if i < |tokens| - k then Some(tokens[i + k]) else None
  {
    assert Windows(p, k, tokens)[i].1 == After(tokens, i + k);
  }

  /** What `process` does to the model for one source's tokens: a source too
      short for one window leaves it alone; otherwise its windows are recorded
      and its first window is appended to the starters. */
  function Absorb(p: Processor, k: nat, tokens: seq<string>, m: Model): (m': Model)
    ensures |tokens| < k ==> m' == m
    ensures |tokens| >= k ==>
      && |m'.starters| == |m.starters| + 1
      && m'.starters[..|m.starters|] == m.starters
      && m'.starters[|m.starters|] == tokens[..k]
  {
    if |tokens| < k then m
    else
      Model(RecordAll(m.ngrams, Windows(p, k, tokens)), m.starters + [tokens[..k]])
  }

  predicate AllAccepted(p: Processor, srcs: seq<Input>)
  {
    forall j | 0 <= j < |srcs| :: Accepts(p, srcs[j])
  }

  /** The tokens of each source, in source order. */
  function TokenLists(p: Processor, srcs: seq<Input>): (tl: seq<seq<string>>)
    requires AllAccepted(p, srcs)
    ensures |tl| == |srcs|
  {
    if |srcs| == 0 then [] else [Tokens(p, srcs[0])] + TokenLists(p, srcs[1..])
  }

  lemma {:induction false} TokenListsAt(p: Processor, srcs: seq<Input>, j: nat)
    requires AllAccepted(p, srcs) && j < |srcs|
    ensures TokenLists(p, srcs)[j] == Tokens(p, srcs[j])
  {
    if j > 0 {
      TokenListsAt(p, srcs[1..], j - 1);
    }
  }

  /** Token lists every token of which is well formed for the processor. */
  predicate ListsWellFormed(p: Processor, tl: seq<seq<string>>)
  {
    forall j | 0 <= j < |tl| :: AllWellFormed(p, tl[j])
  }

  lemma TokenListsWellFormed(p: Processor, srcs: seq<Input>)
    requires AllAccepted(p, srcs)
    ensures ListsWellFormed(p, TokenLists(p, srcs))
  {
    forall j | 0 <= j < |srcs|
      ensures AllWellFormed(p, TokenLists(p, srcs)[j])
    {
      TokenListsAt(p, srcs, j);
      TokensWellFormed(p, srcs[j]);
    }
  }

  /** The model once `train` has processed the token lists |tl|-1 down to i,
      starting from an empty model: each list adds at most one starter. */
  function Trained(p: Processor, k: nat, tl: seq<seq<string>>, i: nat): (m: Model)
    requires i <= |tl|
    ensures |m.starters| <= |tl| - i
    decreases |tl| - i
  {
    if i == |tl| then Model(map[], [])
    else Absorb(p, k, tl[i], Trained(p, k, tl, i + 1))
  }

  // ---------------------------------------------------------------------------
  // Weighted choice (getNext)

  /** The sum, over positions j.., of how often the token at that position
      occurs in the whole list. */
  function Weight(ts: seq<Continuation>, j: nat): nat
    requires j <= |ts|
    decreases |ts| - j
  {
    if j == |ts| then 0 else multiset(ts)[ts[j]] + Weight(ts, j + 1)
  }

  /** The scan threshold: `test <= cumulative / total` is `r * total <= cumulative`. */
  function Threshold(ts: seq<Continuation>, r: real): real
  {
    r * (|ts| as real)
  }

  /** Scanning positions i-1 down to 0: the first (largest) position whose
      weight reaches the threshold t, or -1 when none does. */
  function ScanFrom(ts: seq<Continuation>, t: real, i: nat): (j: int)
    requires i <= |ts|
    ensures -1 <= j < i
    ensures j >= 0 ==> t <= Weight(ts, j) as real
  {
    if i == 0 then -1
    else if t <= Weight(ts, i - 1) as real then i - 1
    else ScanFrom(ts, t, i - 1)
  }

  /** The continuation `getNext` returns for an entry and a draw `r`: undefined
      for a missing entry, the element of a one-element entry, and otherwise
      undefined or one of the entry's elements. */
  function Choose(entry: Option<seq<Continuation>>, r: real): (c: Continuation)
    ensures entry.None? ==> c.None?
    ensures entry.Some? && |entry.value| == 1 ==> c == entry.value[0]
    ensures c.Some? ==> entry.Some? && c in entry.value
  {
    match entry
    case None => None
    case Some(ts) =>
      if |ts| == 1 then ts[0]
      else
        var j := ScanFrom(ts, Threshold(ts, r), |ts|);
        if j < 0 then None else ts[j]
  }

  lemma {:induction false} WeightAtLeastCount(ts: seq<Continuation>, j: nat)
    requires j <= |ts|
    ensures Weight(ts, j) >= |ts| - j
    decreases |ts| - j
  {
    if j < |ts| {
      assert ts[j] in multiset(ts);
      WeightAtLeastCount(ts, j + 1);
    }
  }

  /** One step of the scan, as the loop of `getNext` takes it. */
  lemma ScanStep(ts: seq<Continuation>, t: real, i: nat, reached: bool)
    requires i < |ts|
    requires reached == (t <= Weight(ts, i) as real)
    ensures ScanFrom(ts, t, i + 1) == if reached then i else ScanFrom(ts, t, i)
  {
  }

  /** No position the scan passed over reaches the threshold. */
  lemma {:induction false} ScanFromLargest(ts: seq<Continuation>, t: real, i: nat)
    requires i <= |ts|
    ensures forall m | ScanFrom(ts, t, i) < m < i :: Weight(ts, m) as real < t
  {
    if i > 0 && Weight(ts, i - 1) as real < t {
      ScanFromLargest(ts, t, i - 1);
    }
  }

  /** The scan stops somewhere once the weight of position 0 reaches the threshold. */
  lemma {:induction false} ScanFromReaches(ts: seq<Continuation>, t: real, i: nat)
    requires 0 < i <= |ts|
    requires t <= Weight(ts, 0) as real
    ensures ScanFrom(ts, t, i) >= 0
  {
    if i > 1 {
      ScanFromReaches(ts, t, i - 1);
    }
  }

  /** For a draw in [0, 1) the threshold is below the entry's length. */
  lemma ThresholdBelowLength(ts: seq<Continuation>, r: real)
    requires |ts| > 0 && 0.0 <= r < 1.0
    ensures Threshold(ts, r) < |ts| as real
  {
    var n := |ts| as real;
    assert n - r * n == (1.0 - r) * n;
  }

  /** Scanning the whole of a non-empty list always stops at some position. */
  lemma ScanFindsPosition(ts: seq<Continuation>, r: real)
    requires |ts| > 0 && 0.0 <= r < 1.0
    ensures ScanFrom(ts, Threshold(ts, r), |ts|) >= 0
  {
    WeightAtLeastCount(ts, 0);
    ThresholdBelowLength(ts, r);
    ScanFromReaches(ts, Threshold(ts, r), |ts|);
  }

  /** For a non-empty entry and a draw in [0, 1) the choice is the token at the
      largest position whose weight reaches r times the entry's length; the
      single-entry fast path agrees with this. */
  lemma ChooseIsLargestReaching(ts: seq<Continuation>, r: real)
    requires |ts| > 0 && 0.0 <= r < 1.0
    ensures exists j | 0 <= j < |ts| ::
      && Choose(Some(ts), r) == ts[j]
      && r * (|ts| as real) <= Weight(ts, j) as real
      && forall m | j < m < |ts| :: Weight(ts, m) as real < r * (|ts| as real)
  {
    var t := Threshold(ts, r);
    ScanFindsPosition(ts, r);
    ScanFromLargest(ts, t, |ts|);
    var j := ScanFrom(ts, t, |ts|);
    if |ts| == 1 {
      assert j == 0;
    }
    assert Choose(Some(ts), r) == ts[j];
  }

  /** For a non-empty entry and a draw in [0, 1) the choice is one of the
      entry's continuations. */
  lemma ChooseIsMember(ts: seq<Continuation>, r: real)
    requires |ts| > 0 && 0.0 <= r < 1.0
    ensures Choose(Some(ts), r) in ts
  {
    ScanFindsPosition(ts, r);
  }

  /** Whatever the draw, a token that is chosen is recorded in the entry. */
  lemma ChooseFromEntry(t: Table, key: string, r: real)
    requires Choose(Lookup(t, key), r).Some?
    ensures key in t && Choose(Lookup(t, key), r) in t[key]
  {
  }

  /** An entry whose continuations are all `c` always yields `c`. */
  lemma ChooseUniform(ts: seq<Continuation>, c: Continuation, r: real)
    requires |ts| > 0 && 0.0 <= r < 1.0
    requires forall i | 0 <= i < |ts| :: ts[i] == c
    ensures Choose(Some(ts), r) == c
  {
    ChooseIsMember(ts, r);
  }

  /** The choice is not proportional to frequency: in [b, a, c, a] the token b
      at position 0 is never chosen, whatever the draw. */
  lemma FirstOfFourNeverChosen(a: Continuation, b: Continuation, c: Continuation, r: real)
    requires a != b && b != c && a != c
    requires 0.0 <= r < 1.0
    ensures Choose(Some([b, a, c, a]), r) != b
  {
    var ts := [b, a, c, a];
    assert multiset(ts)[a] == 2 && multiset(ts)[c] == 1 && multiset(ts)[b] == 1;
    assert Weight(ts, 4) == 0;
    assert Weight(ts, 3) == 2;
    assert Weight(ts, 2) == 3;
    assert Weight(ts, 1) == 5;
    var t := Threshold(ts, r);
    ThresholdBelowLength(ts, r);
    var j := ScanFrom(ts, t, 4);
    ScanFromLargest(ts, t, 4);
    assert j >= 1;
  }

  // ---------------------------------------------------------------------------
  // Generation

  /** The generation loop from `output` with lookup key `key`, one draw per
      iteration: it stops when the draws run out or the choice is None; each
      appended token re-keys the lookup with the trained order. */
  function Extend(t: Table, p: Processor, k: nat, output: seq<string>, key: string,
                  draws: seq<real>): (out: seq<string>)
    ensures |output| <= |out| <= |output| + |draws| && out[..|output|] == output
    decreases |draws|
  {
    if |draws| == 0 then output
    else match Choose(Lookup(t, key), draws[0])
      case None => output
      case Some(x) =>
        Extend(t, p, k, output + [x], CombineTokens(p, output + [x], Some(k)), draws[1..])
  }

  /** `generate` from a starter: the first lookup keys the starter without an
      order; the starter is kept as a prefix and grows by at most one token per
      draw. */
  function Walk(t: Table, p: Processor, k: nat, starter: seq<string>, draws: seq<real>): (out: seq<string>)
    ensures |starter| <= |out| <= |starter| + |draws| && out[..|starter|] == starter
  {
    Extend(t, p, k, starter, CombineTokens(p, starter, None), draws)
  }

  /** The number of loop iterations `generate(max)` allows: a positive max caps
      them, a negative max forbids them, and an omitted or zero max leaves them
      unbounded, here bounded by the draws supplied. */
  function Steps(max: Option<int>, supplied: nat): nat
  {
    if max.None? || max.value == 0 then supplied
    else if max.value < 0 then 0
    else max.value
  }

  /** How often `while (!max || i++ < max)` runs from counter i when no
      iteration breaks, cut off after `fuel` iterations. */
  function LoopRuns(max: Option<int>, i: int, fuel: nat): nat
    decreases fuel
  {
    if fuel == 0 then 0
    else if max.None? || max.value == 0 || i < max.value then 1 + LoopRuns(max, i + 1, fuel - 1)
    else 0
  }

  /** `Steps` is the number of times the loop condition of `generate` lets the
      loop run from a counter of 0, given at least `max` draws when `max` is
      positive. */
  lemma StepsCountsLoopRuns(max: Option<int>, supplied: nat)
    requires max.Some? && max.value > 0 ==> max.value <= supplied
    ensures Steps(max, supplied) == LoopRuns(max, 0, supplied)
  {
    if max.None? || max.value == 0 {
      LoopRunsUnbounded(max, 0, supplied);
    } else if max.value > 0 {
      LoopRunsBounded(max.value, 0, supplied);
    }
  }

  lemma {:induction false} LoopRunsUnbounded(max: Option<int>, i: int, fuel: nat)
    requires max.None? || max.value == 0
    ensures LoopRuns(max, i, fuel) == fuel
    decreases fuel
  {
    if fuel > 0 {
      LoopRunsUnbounded(max, i + 1, fuel - 1);
    }
  }

  lemma {:induction false} LoopRunsBounded(max: int, i: int, fuel: nat)
    requires 0 < max && 0 <= i <= max <= i + fuel
    ensures LoopRuns(Some(max), i, fuel) == max - i
    decreases fuel
  {
    if fuel > 0 && i < max {
      LoopRunsBounded(max, i + 1, fuel - 1);
    }
  }

  /** A token recorded as a continuation somewhere in the table. */
  ghost predicate Continues(t: Table, x: string)
  {
    exists key | key in t :: Some(x) in t[key]
  }

  /** Generation only appends, at most one token per draw, and every appended
      token is a continuation recorded in the table. */
  lemma {:induction false} ExtendAppendsContinuations(t: Table, p: Processor, k: nat,
      output: seq<string>, key: string, draws: seq<real>)
    ensures var out := Extend(t, p, k, output, key, draws);
      && |output| <= |out| <= |output| + |draws|
      && out[..|output|] == output
      && forall i | |output| <= i < |out| :: Continues(t, out[i])
    decreases |draws|
  {
    if |draws| > 0 {
      var c := Choose(Lookup(t, key), draws[0]);
      if c.Some? {
        var x := c.value;
        ChooseFromEntry(t, key, draws[0]);
        assert Continues(t, x);
        var output' := output + [x];
        ExtendAppendsContinuations(t, p, k, output', CombineTokens(p, output', Some(k)), draws[1..]);
        var out := Extend(t, p, k, output, key, draws);
        assert out[..|output'|] == output';
        assert out[..|output|] == output' [..|output|] == output;
        forall i | |output| <= i < |out|
          ensures Continues(t, out[i])
        {
          if i == |output| {
            assert out[i] == output'[i] == x;
          }
        }
      }
    }
  }

  /** The generation loop keyed directly by the trailing window of `order`
      tokens, as training keys windows. */
  function ExtendByWindow(t: Table, p: Processor, k: nat, output: seq<string>,
                          draws: seq<real>): seq<string>
    requires k <= |output|
    decreases |draws|
  {
    if |draws| == 0 then output
    else match Choose(Lookup(t, CombineTokens(p, output[|output| - k..], None)), draws[0])
      case None => output
      case Some(x) => ExtendByWindow(t, p, k, output + [x], draws[1..])
  }

  /** Every continuation recorded in the table is a well-formed token. */
  ghost predicate TableWellFormed(t: Table, p: Processor)
  {
    forall key, c | key in t && c in t[key] :: c.Some? ==> WellFormed(p, c.value)
  }

  /** One iteration of the generation loop, keyed from the whole output, and
      of the loop keyed by the trailing window: when the two keys agree, both
      choose from the same entry, so they stop together or append the same
      token. */
  lemma ExtendStep(t: Table, p: Processor, k: nat, output: seq<string>, draws: seq<real>)
    requires 1 <= k <= |output| && |draws| > 0
    requires CombineTokens(p, output, Some(k)) == CombineTokens(p, output[|output| - k..], None)
    ensures var c := Choose(Lookup(t, CombineTokens(p, output, Some(k))), draws[0]);
      && (c.None? ==>
            Extend(t, p, k, output, CombineTokens(p, output, Some(k)), draws) == output
            == ExtendByWindow(t, p, k, output, draws))
      && (c.Some? ==>
            && Extend(t, p, k, output, CombineTokens(p, output, Some(k)), draws)
               == Extend(t, p, k, output + [c.value], CombineTokens(p, output + [c.value], Some(k)), draws[1..])
            && ExtendByWindow(t, p, k, output, draws)
               == ExtendByWindow(t, p, k, output + [c.value], draws[1..]))
  {
  }

  /** A token chosen from a well-formed table keeps the output well formed. */
  lemma ChosenWellFormed(t: Table, p: Processor, key: string, r: real, output: seq<string>)
    requires TableWellFormed(t, p) && AllWellFormed(p, output)
    requires Choose(Lookup(t, key), r).Some?
    ensures AllWellFormed(p, output + [Choose(Lookup(t, key), r).value])
  {
    var c := Choose(Lookup(t, key), r);
    assert key in t && c in t[key];
    var output' := output + [c.value];
    forall i | 0 <= i < |output'|
      ensures WellFormed(p, output'[i])
    {
      if i < |output| {
        assert output'[i] == output[i];
      }
    }
  }

  /** When tokens are well formed, the key generation computes after each step
      from the whole output is the training key of the trailing window. */
  lemma {:induction false} ExtendFollowsTrailingWindow(t: Table, p: Processor, k: nat,
      output: seq<string>, draws: seq<real>)
    requires 1 <= k <= |output|
    requires AllWellFormed(p, output)
    requires TableWellFormed(t, p)
    ensures Extend(t, p, k, output, CombineTokens(p, output, Some(k)), draws)
         == ExtendByWindow(t, p, k, output, draws)
    decreases |draws|
  {
    if |draws| > 0 {
      var key := CombineTokens(p, output, Some(k));
      TrailingWindowKey(p, output, k);
      ExtendStep(t, p, k, output, draws);
      var c := Choose(Lookup(t, key), draws[0]);
      if c.Some? {
        ChosenWellFormed(t, p, key, draws[0], output);
        ExtendFollowsTrailingWindow(t, p, k, output + [c.value], draws[1..]);
      }
    }
  }

  /** From a starter of exactly `order` tokens, every lookup of the walk is the
      training key of the current trailing window. */
  lemma WalkFollowsTrailingWindows(t: Table, p: Processor, k: nat, starter: seq<string>,
      draws: seq<real>)
    requires 1 <= k == |starter|
    requires AllWellFormed(p, starter)
    requires TableWellFormed(t, p)
    ensures Walk(t, p, k, starter, draws) == ExtendByWindow(t, p, k, starter, draws)
  {
    TrailingWindowKey(p, starter, k);
    assert starter[|starter| - k..] == starter;
    ExtendFollowsTrailingWindow(t, p, k, starter, draws);
  }

  // ---------------------------------------------------------------------------
  // The table after recording

  /** The continuations recorded under `key`, in order. */
  function ContinuationsFor(ws: seq<(string, Continuation)>, key: string): seq<Continuation>
  {
    if |ws| == 0 then []
    else ContinuationsFor(ws[..|ws| - 1], key) + (if ws[|ws| - 1].0 == key then [ws[|ws| - 1].1] else [])
  }

  /** Recording appends each pair's continuation to its key's entry, in order,
      and creates entries only for recorded keys. */
  lemma {:induction false} RecordAllEntry(t: Table, ws: seq<(string, Continuation)>, key: string)
    ensures key in RecordAll(t, ws) <==> key in t || |ContinuationsFor(ws, key)| > 0
    ensures Entry(RecordAll(t, ws), key) == Entry(t, key) + ContinuationsFor(ws, key)
  {
    if |ws| > 0 {
      RecordAllEntry(t, ws[..|ws| - 1], key);
    }
  }

  lemma {:induction false} ContinuationsForMembers(ws: seq<(string, Continuation)>, key: string, c: Continuation)
    requires c in ContinuationsFor(ws, key)
    ensures exists j | 0 <= j < |ws| :: ws[j] == (key, c)
  {
    var n := |ws|;
    var front := ContinuationsFor(ws[..n - 1], key);
    if c in front {
      ContinuationsForMembers(ws[..n - 1], key, c);
      var j :| 0 <= j < n - 1 && ws[..n - 1][j] == (key, c);
      assert ws[j] == (key, c);
    } else {
      assert ws[n - 1] == (key, c);
    }
  }

  /** A training table's entries are never empty. */
  ghost predicate EntriesNonEmpty(t: Table)
  {
    forall key | key in t :: |t[key]| > 0
  }

  lemma RecordAllKeepsEntriesNonEmpty(t: Table, ws: seq<(string, Continuation)>)
    requires EntriesNonEmpty(t)
    ensures EntriesNonEmpty(RecordAll(t, ws))
  {
    forall key | key in RecordAll(t, ws)
      ensures |RecordAll(t, ws)[key]| > 0
    {
      RecordAllEntry(t, ws, key);
    }
  }

  // ---------------------------------------------------------------------------
  // Counting recorded continuations

  ghost function SomeKey(t: Table): string
    requires |t| > 0
  {
    var key :| key in t; key
  }

  /** The number of continuations recorded in the whole table. */
  ghost function TotalEntries(t: Table): nat
    decreases |t|
  {
    if |t| == 0 then 0
    else
      var key := SomeKey(t);
      assert key in t;
      |t[key]| + TotalEntries(t - {key})
  }

  lemma {:induction false} TotalEntriesRemove(t: Table, key: string)
    requires key in t
    ensures TotalEntries(t) == |t[key]| + TotalEntries(t - {key})
    decreases |t|
  {
    var k0 := SomeKey(t);
    if k0 != key {
      var t0 := t - {k0};
      var t1 := t - {key};
      assert key in t0 && k0 in t1;
      TotalEntriesRemove(t0, key);
      TotalEntriesRemove(t1, k0);
      assert t0 - {key} == t1 - {k0};
    }
  }

  /** Removing a key just updated leaves the rest of the table. */
  lemma RemoveUpdated(t: Table, key: string, e: seq<Continuation>)
    ensures t[key := e] - {key} == t - {key}
    ensures key !in t ==> t - {key} == t
  {
    var a, b := t[key := e] - {key}, t - {key};
    assert a.Keys == b.Keys;
    assert forall x | x in a :: a[x] == b[x];
    if key !in t {
      assert b.Keys == t.Keys;
    }
  }

  lemma RecordAddsOne(t: Table, key: string, c: Continuation)
    ensures TotalEntries(Record(t, key, c)) == TotalEntries(t) + 1
  {
    var t' := Record(t, key, c);
    TotalEntriesRemove(t', key);
    RemoveUpdated(t, key, Entry(t, key) + [c]);
    if key in t {
      TotalEntriesRemove(t, key);
    }
  }

  lemma {:induction false} RecordAllAdds(t: Table, ws: seq<(string, Continuation)>)
    ensures TotalEntries(RecordAll(t, ws)) == TotalEntries(t) + |ws|
  {
    if |ws| > 0 {
      RecordAllAdds(t, ws[..|ws| - 1]);
      RecordAddsOne(RecordAll(t, ws[..|ws| - 1]), ws[|ws| - 1].0, ws[|ws| - 1].1);
    }
  }

  /** Processing a source of n tokens with order k: when n >= k it records
      exactly n - k + 1 continuations and adds exactly one starter, the first
      k tokens; when n < k it changes nothing. */
  lemma AbsorbCounts(p: Processor, k: nat, tokens: seq<string>, m: Model)
    ensures var m' := Absorb(p, k, tokens, m);
      && (|tokens| >= k ==>
            && TotalEntries(m'.ngrams) == TotalEntries(m.ngrams) + |tokens| - k + 1
            && m'.starters == m.starters + [tokens[..k]])
      && (|tokens| < k ==> m' == m)
  {
    if |tokens| >= k {
      RecordAllAdds(m.ngrams, Windows(p, k, tokens));
    }
  }

  // ---------------------------------------------------------------------------
  // Properties of the trained model

  /** Every entry of a trained table is non-empty. */
  lemma {:induction false} TrainedEntriesNonEmpty(p: Processor, k: nat, tl: seq<seq<string>>, i: nat)
    requires i <= |tl|
    ensures EntriesNonEmpty(Trained(p, k, tl, i).ngrams)
    decreases |tl| - i
  {
    if i < |tl| {
      TrainedEntriesNonEmpty(p, k, tl, i + 1);
      if |tl[i]| >= k {
        RecordAllKeepsEntriesNonEmpty(Trained(p, k, tl, i + 1).ngrams, Windows(p, k, tl[i]));
      }
    }
  }

  /** A token of one of the lists i.. . */
  ghost predicate InVocabulary(tl: seq<seq<string>>, i: nat, x: string)
  {
    exists j | i <= j < |tl| :: x in tl[j]
  }

  /** Every continuation other than the end marker is a token of some source. */
  lemma {:induction false} TrainedContinuationsFromSources(p: Processor, k: nat, tl: seq<seq<string>>,
      i: nat, key: string, c: Continuation)
    requires i <= |tl|
    requires key in Trained(p, k, tl, i).ngrams && c in Trained(p, k, tl, i).ngrams[key]
    requires c.Some?
    ensures InVocabulary(tl, i, c.value)
    decreases |tl| - i
  {
    var tokens := tl[i];
    var prev := Trained(p, k, tl, i + 1).ngrams;
    if |tokens| < k {
      TrainedContinuationsFromSources(p, k, tl, i + 1, key, c);
    } else {
      var ws := Windows(p, k, tokens);
      RecordAllEntry(prev, ws, key);
      if c in Entry(prev, key) {
        TrainedContinuationsFromSources(p, k, tl, i + 1, key, c);
      } else {
        ContinuationsForMembers(ws, key, c);
        var j :| 0 <= j < |ws| && ws[j] == (key, c);
        WindowAt(p, k, tokens, j);
        assert c.value == tokens[j + k];
      }
    }
  }

  /** Every continuation a trained table records is well formed for its processor. */
  lemma TrainedTableWellFormed(p: Processor, k: nat, tl: seq<seq<string>>)
    requires ListsWellFormed(p, tl)
    ensures TableWellFormed(Trained(p, k, tl, 0).ngrams, p)
  {
    var t := Trained(p, k, tl, 0).ngrams;
    forall key: string, c: Continuation | key in t && c in t[key] && c.Some?
      ensures WellFormed(p, c.value)
    {
      TrainedContinuationsFromSources(p, k, tl, 0, key, c);
      var j :| 0 <= j < |tl| && c.value in tl[j];
      assert AllWellFormed(p, tl[j]);
    }
  }

  function Reverse<T>(s: seq<T>): seq<T>
  {
    if |s| == 0 then [] else Reverse(s[1..]) + [s[0]]
  }

  /** The first window of each token list long enough to have one, in source order. */
  function FirstWindows(k: nat, tl: seq<seq<string>>): seq<seq<string>>
  {
    if |tl| == 0 then []
    else (if |tl[0]| >= k then [tl[0][..k]] else []) + FirstWindows(k, tl[1..])
  }

  /** Training stores exactly one starter per long-enough source, its first
      window, and in reverse source order because sources are processed last to
      first. */
  lemma {:induction false} TrainedStartersReversed(p: Processor, k: nat, tl: seq<seq<string>>, i: nat)
    requires i <= |tl|
    ensures Trained(p, k, tl, i).starters == Reverse(FirstWindows(k, tl[i..]))
    decreases |tl| - i
  {
    if i < |tl| {
      TrainedStartersReversed(p, k, tl, i + 1);
      assert tl[i..][1..] == tl[i + 1..];
      var tokens := tl[i];
      var rest := FirstWindows(k, tl[i + 1..]);
      if |tokens| >= k {
        assert FirstWindows(k, tl[i..]) == [tokens[..k]] + rest;
        assert ([tokens[..k]] + rest)[1..] == rest;
      } else {
        assert FirstWindows(k, tl[i..]) == rest;
      }
    } else {
      assert tl[i..] == [];
    }
  }

  /** A window of `order` well-formed tokens that begins one of the lists i.. . */
  ghost predicate FirstWindowOf(p: Processor, k: nat, tl: seq<seq<string>>, i: nat, w: seq<string>)
  {
    && |w| == k
    && AllWellFormed(p, w)
    && exists j | i <= j < |tl| :: k <= |tl[j]| && w == tl[j][..k]
  }

  /** Every trained starter has exactly `order` well-formed tokens, the first
      ones of some source. */
  lemma {:induction false} TrainedStartersAreFirstWindows(p: Processor, k: nat, tl: seq<seq<string>>, i: nat)
    requires ListsWellFormed(p, tl) && i <= |tl|
    ensures forall s | 0 <= s < |Trained(p, k, tl, i).starters| ::
      FirstWindowOf(p, k, tl, i, Trained(p, k, tl, i).starters[s])
    decreases |tl| - i
  {
    if i < |tl| {
      TrainedStartersAreFirstWindows(p, k, tl, i + 1);
      var tokens := tl[i];
      var prev := Trained(p, k, tl, i + 1).starters;
      var st := Trained(p, k, tl, i).starters;
      forall s | 0 <= s < |prev|
        ensures FirstWindowOf(p, k, tl, i, prev[s])
      {
        assert FirstWindowOf(p, k, tl, i + 1, prev[s]);
      }
      if |tokens| >= k {
        assert AllWellFormed(p, tokens);
        assert FirstWindowOf(p, k, tl, i, tokens[..k]);
        assert st == prev + [tokens[..k]];
      }
    }
  }

  /** A walk over a model trained on the sources, from one of its starters,
      only produces tokens of the sources, and (for order >= 1) looks up
      exactly the keys training computed for the trailing windows. */
  lemma TrainedWalk(p: Processor, k: nat, srcs: seq<Input>, s: nat, draws: seq<real>)
    requires AllAccepted(p, srcs)
    requires s < |Trained(p, k, TokenLists(p, srcs), 0).starters|
    ensures var tl := TokenLists(p, srcs);
      var m := Trained(p, k, tl, 0);
      var out := Walk(m.ngrams, p, k, m.starters[s], draws);
      && k <= |out| && out[..k] == m.starters[s]
      && (forall i | 0 <= i < |out| :: exists j | 0 <= j < |srcs| :: out[i] in Tokens(p, srcs[j]))
      && (k >= 1 ==> out == ExtendByWindow(m.ngrams, p, k, m.starters[s], draws))
  {
    var tl := TokenLists(p, srcs);
    TokenListsWellFormed(p, srcs);
    var m := Trained(p, k, tl, 0);
    var st := m.starters[s];
    TrainedStartersAreFirstWindows(p, k, tl, 0);
    var out := Walk(m.ngrams, p, k, st, draws);
    ExtendAppendsContinuations(m.ngrams, p, k, st, CombineTokens(p, st, None), draws);
    assert FirstWindowOf(p, k, tl, 0, st);
    var j0 :| 0 <= j0 < |tl| && k <= |tl[j0]| && st == tl[j0][..k];
    forall i | 0 <= i < |out|
      ensures exists j | 0 <= j < |srcs| :: out[i] in Tokens(p, srcs[j])
    {
      if i < k {
        assert out[i] == st[i] == tl[j0][i];
        TokenListsAt(p, srcs, j0);
      } else {
        var key :| key in m.ngrams && Some(out[i]) in m.ngrams[key];
        TrainedContinuationsFromSources(p, k, tl, 0, key, Some(out[i]));
        var j :| 0 <= j < |tl| && out[i] in tl[j];
        TokenListsAt(p, srcs, j);
      }
    }
    if k >= 1 {
      TrainedTableWellFormed(p, k, tl);
      WalkFollowsTrailingWindows(m.ngrams, p, k, st, draws);
    }
  }
}
