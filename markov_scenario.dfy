/** A worked example: the default word processor, order 1 and a source that
    alternates two distinct words, "a b a b a b". Training records
    a -> [b, b, b] and b -> [a, a, undefined] with the one starter [a];
    generation from it alternates the words until a draw picks the end marker. */
module Scenario {
  import opened JsBuiltins
  import opened SourceProcessor
  import opened Chain
  import WordProcessor

  const Words: Processor := Word(WordProcessor.Create(None))

  function AlternatingWords(a: string, b: string): seq<string>
  {
    [a, b, a, b, a, b]
  }

  function AlternatingWindows(a: string, b: string): seq<(string, Continuation)>
  {
    [(a, Some(b)), (b, Some(a)), (a, Some(b)), (b, Some(a)), (a, Some(b)), (b, None)]
  }

  function AlternatingTable(a: string, b: string): Table
  {
    map[a := [Some(b), Some(b), Some(b)], b := [Some(a), Some(a), None]]
  }

  /** The source text splits into the six one-letter words. */
  lemma ExampleTokens()
    ensures Tokens(Words, Single(Text("a b a b a b"))) == AlternatingWords("a", "b")
  {
    var ts := AlternatingWords("a", "b");
    assert WordProcessor.Detokenise(ts) == "a b a b a b" by {
      assert ts[5..] == ["b"];
      assert Join(ts[5..], " ") == "b";
      assert Join(ts[4..], " ") == "a b" by { assert ts[4..][1..] == ts[5..]; }
      assert Join(ts[3..], " ") == "b a b" by { assert ts[3..][1..] == ts[4..]; }
      assert Join(ts[2..], " ") == "a b a b" by { assert ts[2..][1..] == ts[3..]; }
      assert Join(ts[1..], " ") == "b a b a b" by { assert ts[1..][1..] == ts[2..]; }
    }
    forall i | 0 <= i < |ts|
      ensures |ts[i]| > 0 && HasNoWhitespace(ts[i])
    {
      assert ts[i] == "a" || ts[i] == "b";
    }
    WordProcessor.DefaultRoundTrip(ts);
  }

  /** The windows of width 1: each word keyed by itself and followed by the
      next word, the last one by undefined. */
  lemma AlternatingWindowsOf(a: string, b: string)
    ensures Windows(Words, 1, AlternatingWords(a, b)) == AlternatingWindows(a, b)
  {
    var ts := AlternatingWords(a, b);
    var ws := Windows(Words, 1, ts);
    forall i | 0 <= i < 6
      ensures ws[i] == (ts[i], if i < 5 then Some(ts[i + 1]) else None)
    {
      WindowAt(Words, 1, ts, i);
      assert ts[i..i + 1] == [ts[i]];
    }
  }

  /** Recording those windows into an empty table gives the alternating table. */
  lemma AlternatingRecorded(a: string, b: string)
    requires a != b
    ensures RecordAll(map[], AlternatingWindows(a, b)) == AlternatingTable(a, b)
  {
    var w0 := [(a, Some(b))];
    var w1 := w0 + [(b, Some(a))];
    var w2 := w1 + [(a, Some(b))];
    var w3 := w2 + [(b, Some(a))];
    var w4 := w3 + [(a, Some(b))];
    var w5 := w4 + [(b, None)];
    assert w5 == AlternatingWindows(a, b);
    RecordAllSnoc(map[], [], (a, Some(b)));
    assert [] + [(a, Some(b))] == w0;
    RecordAllSnoc(map[], w0, (b, Some(a)));
    RecordAllSnoc(map[], w1, (a, Some(b)));
    RecordAllSnoc(map[], w2, (b, Some(a)));
    RecordAllSnoc(map[], w3, (a, Some(b)));
    RecordAllSnoc(map[], w4, (b, None));
    AlternatingRecords(a, b);
  }

  /** Recording one more pair at the end. */
  lemma RecordAllSnoc(t: Table, ws: seq<(string, Continuation)>, w: (string, Continuation))
    ensures RecordAll(t, ws + [w]) == Record(RecordAll(t, ws), w.0, w.1)
  {
    assert (ws + [w])[..|ws|] == ws;
  }

  /** The six records, in order, of two distinct keys. */
  lemma AlternatingRecords(a: string, b: string)
    requires a != b
    ensures Record(Record(Record(Record(Record(Record(map[], a, Some(b)), b, Some(a)), a, Some(b)), b, Some(a)),
                          a, Some(b)), b, None)
         == AlternatingTable(a, b)
  {
    var x1, y1 := [Some(b)], [Some(a)];
    var x2, y2 := x1 + [Some(b)], y1 + [Some(a)];
    var x3, y3 := x2 + [Some(b)], y2 + [None];
    var t1 := Record(map[], a, Some(b));
    assert t1 == map[a := x1] by { assert Entry(map[], a) + [Some(b)] == x1; }
    var t2 := Record(t1, b, Some(a));
    assert t2 == map[a := x1, b := y1] by { assert Entry(t1, b) + [Some(a)] == y1; }
    var t3 := Record(t2, a, Some(b));
    assert t3 == map[a := x2, b := y1];
    var t4 := Record(t3, b, Some(a));
    assert t4 == map[a := x2, b := y2];
    var t5 := Record(t4, a, Some(b));
    assert t5 == map[a := x3, b := y2];
    var t6 := Record(t5, b, None);
    assert t6 == map[a := x3, b := y3];
    assert x3 == [Some(b), Some(b), Some(b)] && y3 == [Some(a), Some(a), None];
  }

  /** Training with order 1 on the alternating words of two distinct words
      gives the alternating table and the one starter [a]. */
  lemma AlternatingTrained(a: string, b: string)
    requires a != b
    ensures Trained(Words, 1, [AlternatingWords(a, b)], 0) == Model(AlternatingTable(a, b), [[a]])
  {
    AlternatingWindowsOf(a, b);
    AlternatingRecorded(a, b);
    assert AlternatingWords(a, b)[..1] == [a];
  }

  /** `train` on the source "a b a b a b" with order 1, as the model's state. */
  lemma ExampleTrained()
    ensures Trained(Words, 1, TokenLists(Words, [Single(Text("a b a b a b"))]), 0)
         == Model(AlternatingTable("a", "b"), [["a"]])
  {
    var srcs := [Single(Text("a b a b a b"))];
    assert TokenLists(Words, srcs) == [Tokens(Words, srcs[0])] by {
      assert srcs[1..] == [];
    }
    ExampleTokens();
    assert "a" != "b" by { assert "a"[0] != "b"[0]; }
    AlternatingTrained("a", "b");
  }

  /** On the entry [a, a, undefined] a draw r picks the end marker exactly when
      r <= 1/3, and otherwise picks a. */
  lemma EndEntryChoice(a: string, r: real)
    requires 0.0 <= r < 1.0
    ensures Choose(Some([Some(a), Some(a), None]), r) == if 3.0 * r <= 1.0 then None else Some(a)
  {
    var ts: seq<Continuation> := [Some(a), Some(a), None];
    assert multiset(ts)[Some(a)] == 2 && multiset(ts)[None] == 1;
    assert Weight(ts, 3) == 0;
    assert Weight(ts, 2) == 1;
    assert Weight(ts, 1) == 3;
    var t := Threshold(ts, r);
    assert t == 3.0 * r;
    assert ScanFrom(ts, t, 1) == 0;
    assert ScanFrom(ts, t, 2) == 1;
  }

  /** Generating from the starter [a] with three draws of 0.5 alternates the words. */
  lemma AlternatingWalk(a: string, b: string)
    requires a != b
    ensures Walk(AlternatingTable(a, b), Words, 1, [a], [0.5, 0.5, 0.5]) == [a, b, a, b]
  {
    var bs: seq<Continuation> := [Some(b), Some(b), Some(b)];
    assert multiset(bs)[Some(b)] == 3;
    assert Weight(bs, 2) == 3;
    assert Choose(Some(bs), 0.5) == Some(b);
    EndEntryChoice(a, 0.5);
    assert CombineTokens(Words, [a], None) == a;
    assert CombineTokens(Words, [a, b], Some(1)) == b by {
      assert [a, b][1..] == [b];
    }
    assert CombineTokens(Words, [a, b, a], Some(1)) == a by {
      assert [a, b, a][2..] == [a];
    }
  }

  /** A draw of at most 1/3 after b picks the end marker and generation stops. */
  lemma AlternatingStops(a: string, b: string)
    requires a != b
    ensures Walk(AlternatingTable(a, b), Words, 1, [b], [0.25, 0.5]) == [b]
  {
    EndEntryChoice(a, 0.25);
    assert CombineTokens(Words, [b], None) == b;
  }
}
