/** The processor interface the engine is written against: `tokenise`,
    `detokenise` and `combineTokens`, dispatched over the two processors of the
    library. */
module SourceProcessor {
  import opened JsBuiltins
  import WordProcessor
  import CharacterProcessor

  datatype Processor = Word(wp: WordProcessor.WordProcessor) | Character

  /** The inputs the processor's signature admits. */
  predicate Accepts(p: Processor, data: Input)
  {
    match p
    case Word(_) => WordProcessor.Admits(data)
    case Character => CharacterProcessor.Admits(data)
  }

  /** What `tokenise(data)` returns. */
  function Tokens(p: Processor, data: Input): seq<string>
    requires Accepts(p, data)
  {
    match p
    case Word(wp) => WordProcessor.Tokens(wp, data)
    case Character => CharacterProcessor.Tokens(data)
  }

  method Tokenise(p: Processor, data: Input) returns (tokens: seq<string>)
    requires Accepts(p, data)
    ensures tokens == Tokens(p, data)
  {
    match p
    case Word(wp) => tokens := WordProcessor.Tokenise(wp, data);
    case Character => tokens := CharacterProcessor.Tokenise(data);
  }

  function Detokenise(p: Processor, ts: seq<string>): string
  {
    match p
    case Word(_) => WordProcessor.Detokenise(ts)
    case Character => CharacterProcessor.Detokenise(ts)
  }

  function CombineTokens(p: Processor, ts: seq<string>, order: Option<int>): string
  {
    match p
    case Word(_) => WordProcessor.CombineTokens(ts, order)
    case Character => CharacterProcessor.CombineTokens(ts, order)
  }

  /** The shape a token of this processor has: one character for the character
      processor, anything for the word processor. */
  predicate WellFormed(p: Processor, t: string)
  {
    p.Character? ==> |t| == 1
  }

  predicate AllWellFormed(p: Processor, ts: seq<string>)
  {
    forall i | 0 <= i < |ts| :: WellFormed(p, ts[i])
  }

  /** Every token a processor produces is well formed for it. */
  lemma TokensWellFormed(p: Processor, data: Input)
    requires Accepts(p, data)
    ensures AllWellFormed(p, Tokens(p, data))
  {
    if p.Character? {
      CharacterProcessor.TokensAreSingleChars(data);
    }
  }

  /** The key the engine computes during generation from the whole output and the
      order is the key training computed for the trailing window of that many
      tokens. */
  lemma TrailingWindowKey(p: Processor, ts: seq<string>, k: int)
    requires AllWellFormed(p, ts)
    requires 1 <= k <= |ts|
    ensures CombineTokens(p, ts, Some(k)) == CombineTokens(p, ts[|ts| - k..], None)
  {
    if p.Character? {
      CharacterProcessor.TrailingWindowKey(ts, k);
    }
  }
}
