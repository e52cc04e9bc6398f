/** The `MarkovModel` class: sources are added, `train` rebuilds the transition
    table and the starters from them, and `generate` extends one starter in
    place by repeated weighted choices. Each method is proved against the
    definitions of module Chain. */
module Markov {
  import opened JsBuiltins
  import opened SourceProcessor
  import opened Chain

  /** A starter: the token array `generate` extends in place, so it is an object. */
  class Window {
    var tokens: seq<string>

    constructor (tokens: seq<string>)
      ensures this.tokens == tokens
    {
      this.tokens := tokens;
    }
  }

  /** The token lists held by a sequence of windows. */
  ghost function Contents(ws: seq<Window>): (c: seq<seq<string>>)
    reads ws
    ensures |c| == |ws| && forall i | 0 <= i < |ws| :: c[i] == ws[i].tokens
  {
    if |ws| == 0 then [] else Contents(ws[..|ws| - 1]) + [ws[|ws| - 1].tokens]
  }

  /** No window occurs twice. */
  predicate Distinct(ws: seq<Window>)
  {
    |ws| == 0 || (Distinct(ws[..|ws| - 1]) && ws[|ws| - 1] !in ws[..|ws| - 1])
  }

  lemma {:induction false} DistinctAt(ws: seq<Window>, i: nat, j: nat)
    requires Distinct(ws) && i < j < |ws|
    ensures ws[i] != ws[j]
  {
    var n := |ws| - 1;
    if j < n {
      DistinctAt(ws[..n], i, j);
    } else {
      assert ws[i] == ws[..n][i];
    }
  }

  lemma DistinctAppend(ws: seq<Window>, w: Window)
    requires Distinct(ws) && w !in ws
    ensures Distinct(ws + [w])
  {
    assert (ws + [w])[..|ws|] == ws;
  }

  lemma ContentsAppend(ws: seq<Window>, w: Window)
    ensures Contents(ws + [w]) == Contents(ws) + [w.tokens]
  {
    assert (ws + [w])[..|ws|] == ws;
  }

  class MarkovModel {
    var sources: seq<Input>
    var ngrams: Table
    var starters: seq<Window>
    /** Both None until `train` sets them. */
    var processor: Option<Processor>
    var order: Option<nat>

    ghost predicate Valid()
      reads this
    {
      && (|starters| > 0 ==> processor.Some? && order.Some?)
      && Distinct(starters)
      && EntriesNonEmpty(ngrams)
    }

    /** The trained state as a value. */
    ghost function State(): Model
      reads this, starters
    {
      Model(ngrams, Contents(starters))
    }

    /** A model with no sources, not yet trained. */
    constructor ()
      ensures Valid()
      ensures sources == [] && ngrams == map[] && starters == []
      ensures processor == None && order == None
    {
      sources := [];
      ngrams := map[];
      starters := [];
      processor := None;
      order := None;
    }

    /** `add(source)`: appends the source; the trained state is untouched until
        the next `train`. */
    method Add(source: Input)
      requires Valid()
      modifies this`sources
      ensures Valid()
      ensures sources == old(sources) + [source]
    {
      sources := sources + [source];
    }

    /** `train(processor, order?)`: the order defaults to 3 when omitted or
        negative; the table and starters are rebuilt from scratch by processing
        the sources from last to first. */
    method Train(p: Processor, order: Option<int>)
      requires |sources| > 0
      requires AllAccepted(p, sources)
      modifies this
      ensures Valid()
      ensures sources == old(sources)
      ensures processor == Some(p)
      ensures this.order.Some?
      ensures this.order.value == if order.None? || order.value < 0 then 3 else order.value
      ensures State() == Trained(p, this.order.value, TokenLists(p, sources), 0)
      ensures forall w | w in starters :: fresh(w)
    {
      processor := Some(p);
      var k: nat := if order.None? || order.value < 0 then 3 else order.value;
      this.order := Some(k);
      ngrams := map[];
      starters := [];
      ghost var tl := TokenLists(p, sources);
      var i := |sources|;
      while i > 0
        modifies this`ngrams, this`starters
        invariant 0 <= i <= |sources|
        invariant Valid()
        invariant State() == Trained(p, k, tl, i)
        invariant forall w | w in starters :: fresh(w)
      {
        i := i - 1;
        TokenListsAt(p, sources, i);
        Process(sources[i], p, k);
      }
    }

    /** `process(source, processor, order)`: tokenises the source with the
        given processor and records its windows. */
    method Process(source: Input, p: Processor, k: nat)
      requires Valid() && processor.Some? && order.Some?
      requires Accepts(p, source)
      modifies this`ngrams, this`starters
      ensures Valid()
      ensures State() == Absorb(processor.value, k, Tokens(p, source), old(State()))
      ensures |old(starters)| <= |starters| && starters[..|old(starters)|] == old(starters)
      ensures forall w | w in starters :: w in old(starters) || fresh(w)
    {
      var tokens := Tokenise(p, source);
      RecordWindows(tokens, k);
      if |tokens| >= k {
        ContentsAppend(old(starters), starters[|old(starters)|]);
      }
    }

    /** The loop of `process`: for every window of `order` consecutive tokens,
        its continuation (undefined after the last window) is recorded under
        the window's key, and the first window is stored as a starter. Keys use
        the model's own processor, as the source does. */
    method RecordWindows(tokens: seq<string>, k: nat)
      requires Valid() && processor.Some? && order.Some?
      modifies this`ngrams, this`starters
      ensures Valid()
      ensures if |tokens| < k then ngrams == old(ngrams) && starters == old(starters)
        else
          && ngrams == RecordAll(old(ngrams), Windows(processor.value, k, tokens))
          && |starters| == |old(starters)| + 1
          && starters == old(starters) + [starters[|old(starters)|]]
          && fresh(starters[|old(starters)|])
          && starters[|old(starters)|].tokens == tokens[..k]
    {
      var cp := processor.value;
      var i := 0;
      var l := |tokens| - k + 1;
      ghost var ws := if l > 0 then Windows(cp, k, tokens) else [];
      while i < l
        invariant 0 <= i && (i > 0 ==> i <= l)
        invariant EntriesNonEmpty(ngrams)
        invariant i == 0 ==> starters == old(starters) && ngrams == old(ngrams)
        invariant i > 0 ==>
          && |starters| == |old(starters)| + 1
          && starters == old(starters) + [starters[|old(starters)|]]
          && fresh(starters[|old(starters)|])
          && starters[|old(starters)|].tokens == tokens[..k]
          && ngrams == RecordAll(old(ngrams), ws[..i])
      {
        var current := tokens[i..i + k];
        if i == 0 {
          var w := new Window(current);
          DistinctAppend(starters, w);
          starters := starters + [w];
        }
        var key := CombineTokens(cp, current, None);
        var c := if i + k < |tokens| then Some(tokens[i + k]) else None;
        Push(key, c);
        WindowAt(cp, k, tokens, i);
        assert ws[i] == (key, c);
        RecordAllStep(old(ngrams), ws, i);
        i := i + 1;
      }
      if l > 0 {
        assert ws[..i] == ws;
      }
    }

    /** The table update of `process`: an absent entry is created empty, then
        the continuation is pushed onto it. */
    method Push(key: string, c: Continuation)
      modifies this`ngrams
      ensures ngrams == Record(old(ngrams), key, c)
      ensures EntriesNonEmpty(old(ngrams)) ==> EntriesNonEmpty(ngrams)
    {
      ghost var before := ngrams;
      if key !in ngrams {
        ngrams := ngrams[key := []];
      }
      ngrams := ngrams[key := ngrams[key] + [c]];
      RecordCreatesThenPushes(before, key, c);
    }

    /** `getNext(tokens)`: undefined for a missing entry, the only element of a
        one-element entry, otherwise a scan from the last position to the first
        that accumulates, per position, the number of occurrences of that
        position's value and stops at the first position where the draw is at
        most the accumulated total divided by the entry's length. */
    static method GetNext(tokens: Option<seq<Continuation>>, r: real) returns (next: Continuation)
      ensures next == Choose(tokens, r)
      ensures tokens.Some? && |tokens.value| > 0 && 0.0 <= r < 1.0 ==> next in tokens.value
    {
      if tokens.Some? && |tokens.value| > 0 && 0.0 <= r < 1.0 {
        ChooseIsMember(tokens.value, r);
      }
      if tokens.None? {
        return None;
      }
      var ts := tokens.value;
      if |ts| == 1 {
        return ts[0];
      }
      var counts := CountOccurrences(ts);
      var total := |ts|;
      var threshold := Threshold(ts, r);
      var cumulative := 0;
      var i := total;
      while i > 0
        invariant 0 <= i <= total
        invariant cumulative == Weight(ts, i)
        invariant ScanFrom(ts, threshold, i) == ScanFrom(ts, threshold, total)
      {
        i := i - 1;
        var value := ts[i];
        assert value in multiset(ts);
        cumulative := cumulative + counts[value];
        var reached := threshold <= cumulative as real;
        ScanStep(ts, threshold, i, reached);
        if reached {
          return value;
        }
      }
      return None;
    }

    /** The list of counts `getNext` builds: for each value of the entry, the
        number of positions holding it. */
    static method CountOccurrences(ts: seq<Continuation>) returns (counts: map<Continuation, nat>)
      ensures forall v :: v in counts <==> v in multiset(ts)
      ensures forall v | v in counts :: counts[v] == multiset(ts)[v]
    {
      counts := map[];
      var i := |ts|;
      while i > 0
        invariant 0 <= i <= |ts|
        invariant forall v :: v in counts <==> v in multiset(ts[i..])
        invariant forall v | v in counts :: counts[v] == multiset(ts[i..])[v]
      {
        i := i - 1;
        var value := ts[i];
        assert ts[i..] == [value] + ts[i + 1..];
        if value in counts {
          counts := counts[value := counts[value] + 1];
        } else {
          counts := counts[value := 1];
        }
      }
      assert ts[0..] == ts;
    }

    /** `generate(max?)` from starter `s`: the starter is extended in place by
        the walk over the table, one draw per iteration, for at most the number
        of iterations `max` allows; the result is the detokenised starter. */
    method Generate(s: nat, max: Option<int>, draws: seq<real>) returns (result: string)
      requires Valid()
      requires s < |starters|
      requires max.Some? && max.value > 0 ==> max.value <= |draws|
      modifies starters[s]
      ensures Valid()
      ensures starters[s].tokens
           == Walk(ngrams, processor.value, order.value, old(starters[s].tokens), draws[..Steps(max, |draws|)])
      ensures result == Detokenise(processor.value, starters[s].tokens)
      ensures |old(starters[s].tokens)| <= |starters[s].tokens| <= |old(starters[s].tokens)| + Steps(max, |draws|)
      ensures starters[s].tokens[..|old(starters[s].tokens)|] == old(starters[s].tokens)
      ensures forall i | |old(starters[s].tokens)| <= i < |starters[s].tokens| ::
                Continues(ngrams, starters[s].tokens[i])
      ensures forall i | 0 <= i < |starters| && i != s :: starters[i].tokens == old(starters[i].tokens)
    {
      forall i | 0 <= i < |starters| && i != s
        ensures starters[i] != starters[s]
      {
        if i < s {
          DistinctAt(starters, i, s);
        } else {
          DistinctAt(starters, s, i);
        }
      }
      var p := processor.value;
      var k := order.value;
      var output := starters[s];
      var steps := Steps(max, |draws|);
      ghost var final := Walk(ngrams, p, k, output.tokens, draws[..steps]);
      ExtendAppendsContinuations(ngrams, p, k, output.tokens, CombineTokens(p, output.tokens, None), draws[..steps]);
      var current := CombineTokens(p, output.tokens, None);
      var i := 0;
      while i < steps
        invariant 0 <= i <= steps
        invariant output == starters[s]
        invariant Extend(ngrams, p, k, output.tokens, current, draws[i..steps]) == final
      {
        var next := GetNext(Lookup(ngrams, current), draws[i]);
        if next.None? {
          break;
        }
        output.tokens := output.tokens + [next.value];
        current := CombineTokens(p, output.tokens, Some(k));
        i := i + 1;
      }
      result := Detokenise(p, output.tokens);
    }
  }
}
