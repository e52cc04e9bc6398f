# markov-chain in Dafny

A model of the core of `markov-chain`, a small TypeScript library that trains an
n-gram Markov model on sources and generates new output from it.

- **`MarkovModel`** keeps the sources added to it, the transition table
  `_ngrams` and the starter windows `_starters`.
  - `train` rebuilds the table and the starters from the sources, last source
    first.
  - `process` tokenises one source. For every window of `order` consecutive
    tokens it records the token that follows the window, or `undefined` after
    the last window. It stores the first window as a starter.
  - `getNext` picks a continuation from a table entry with a scan weighted by
    occurrence counts.
  - `generate` extends a starter in place, one choice at a time. It stops at
    `undefined` or after `max` iterations, then detokenises the starter.
- **`WordProcessor`** splits strings into words with `/\s+/` or a literal
  separator. It detokenises with a single space and keys a window by its last
  `order` tokens.
- **`CharacterProcessor`** splits strings and integers into characters. It
  detokenises by concatenation and keys a window by its last `order`
  characters.

## Modules

| file | module | contents |
|---|---|---|
| `js_builtins.dfy` | `JsBuiltins` | `undefined` as `Option`, sources as `Input`, and the JavaScript built-ins the code calls: `join`, `slice`, `split` (with `""`, a literal string or `/\s+/`) and integer `toString` |
| `word_processor.dfy` | `WordProcessor` | the word processor |
| `character_processor.dfy` | `CharacterProcessor` | the character processor |
| `source_processor.dfy` | `SourceProcessor` | the `ISourceProcessor` interface as a datatype over the two processors, dispatching each operation |
| `markov_chain.dfy` | `Chain` | the meaning of the engine as values |
| `markov_model.dfy` | `Markov` | the `MarkovModel` class, proved against `Chain` |
| `markov_scenario.dfy` | `Scenario` | one training run and two generation runs worked out end to end |

What `Chain` defines:
- the table as `map<string, seq<Option<string>>>`;
- the windows one source contributes (`Windows`);
- `process` as a function of the model (`Absorb`);
- `train` as a fold of `Absorb` over the token lists (`Trained`);
- the weighted choice of `getNext` (`Choose`);
- the generation loop (`Extend`, `Walk`).

`MarkovModel` is a class with the source's fields:
- Its methods modify those fields.
- Starters are `Window` objects, because `generate` pushes onto the stored
  starter array itself.
- `Train`, `Process`, `GetNext` and `Generate` are each proved to compute
  exactly the `Chain` function of their inputs and old state.
- The lemmas of `Chain` then state what training and generation guarantee.

Randomness enters as parameters:
- `Math.random()` in `getNext` becomes a draw `r`.
- `generate` takes a sequence of draws, one per iteration.
- `generate` also takes the index `s` of the starter that
  `Math.floor(Math.random() * length)` would pick.

The comparison `test <= cumulative / total` is written
`r * total <= cumulative`, which is the same comparison for a positive `total`.

### Where the code and its description differ (the model follows the code)

- **The end marker is stored.** The continuation after the last window of a
  source is `tokens[i + order]`, which is `undefined`. It is stored in the table
  like any token, and generation stops when `getNext` picks it.
- **The choice is not proportional to frequency.** The scan runs from the last
  position to the first. At each position it adds the total count of that
  position's value, so a value that occurs m times is counted m times per
  occurrence. It returns the first position whose running sum reaches
  `test * total`. `Chain.FirstOfFourNeverChosen` shows an entry whose first
  token can never be chosen.
- **Generation mutates the model.** `generate` extends the stored starter
  array in place, so later calls start from the longer starter.
- **Sources are processed last to first.** Starters therefore end up in
  reverse source order.

## Model

| member | source | states |
|---|---|---|
| Markov.Window.constructor | src/MarkovModel.ts:100-103 | a starter is a new array object holding the sliced window, so later pushes onto it change the stored starter |
| Markov.MarkovModel.constructor | src/MarkovModel.ts:11-16 | a new model has no sources, an empty table, no starters and no processor or order |
| Markov.MarkovModel.Add | src/MarkovModel.ts:25-33 | the source is appended to the sources; the table and starters are unchanged until the next train |
| Markov.MarkovModel.Train | src/MarkovModel.ts:43-57 | the processor is stored; the order is 3 when omitted or negative, otherwise the given order; the sources are unchanged; the new table and starters are exactly `Trained` over the sources' token lists, processed from the last source to the first from an empty state; every starter is a fresh array |
| Markov.MarkovModel.Process | src/MarkovModel.ts:96-114 | the model after processing one source is `Absorb` of its tokens applied to the model before; earlier starters are kept and new ones are fresh |
| Markov.MarkovModel.RecordWindows | src/MarkovModel.ts:99-113 | fewer tokens than the order change nothing; otherwise the table records every window's (key, continuation) pair in order, and exactly one new starter holding the first `order` tokens is appended |
| Markov.MarkovModel.Push | src/MarkovModel.ts:108-112 | an absent entry is created empty and the continuation pushed onto it, which is `Record`; entries stay non-empty |
| Markov.MarkovModel.CountOccurrences | src/MarkovModel.ts:132-146 | the counts map has a key exactly for each value of the entry, and the value's number of occurrences under it |
| Markov.MarkovModel.GetNext | src/MarkovModel.ts:123-164 | the result is `Choose`: undefined for a missing entry, the element of a one-element entry, otherwise the scan from last to first; for a non-empty entry and a draw in [0, 1) it is an element of the entry |
| Markov.MarkovModel.Generate | src/MarkovModel.ts:66-85 | the chosen starter becomes `Walk` over the table for the iterations `max` allows, and the result is its detokenisation; the starter only grows, by at most one token per iteration; every added token is a continuation recorded in the table; no other starter changes |
| Chain.Absorb | src/MarkovModel.ts:96-114 | a source shorter than the order leaves the model unchanged; otherwise exactly one starter is appended, the source's first `order` tokens, and the earlier starters are kept |
| Chain.Trained | src/MarkovModel.ts:50-54 | training from an empty model adds at most one starter per source |
| Chain.Choose | src/MarkovModel.ts:123-164 | undefined for a missing entry; the element of a one-element entry; otherwise undefined or an element of the entry |
| Chain.Extend | src/MarkovModel.ts:72-82 | the generation loop keeps the output as a prefix and appends at most one token per draw |
| Chain.Walk | src/MarkovModel.ts:66-85 | generation from a starter keeps the starter as a prefix and appends at most one token per draw |
| Chain.StepsCountsLoopRuns | src/MarkovModel.ts:72 | `Steps` is the number of times `!max \|\| i++ < max` lets the loop run from a counter of 0: `max` iterations for a positive `max`, none for a negative one, and unbounded (here, one per draw) for an omitted or zero `max` |
| Chain.Windows | src/MarkovModel.ts:99-112 | a source of n tokens contributes n - order + 1 windows |
| Chain.WindowAt | src/MarkovModel.ts:100-112 | window i is keyed by tokens i .. i + order - 1 and followed by token i + order, or undefined for the last window |
| Chain.RecordCreatesThenPushes | src/MarkovModel.ts:108-112 | creating an absent entry and then pushing onto it is `Record` |
| Chain.RecordAllEntry | src/MarkovModel.ts:106-112 | after recording, a key has an entry iff it had one or some pair was recorded under it, and its entry is the old entry followed by that key's continuations in order |
| Chain.RecordAllKeepsEntriesNonEmpty | src/MarkovModel.ts:108-112 | recording never leaves an empty entry |
| Chain.AbsorbCounts | src/MarkovModel.ts:96-114 | processing n >= order tokens records exactly n - order + 1 continuations and adds exactly one starter, the first `order` tokens; fewer tokens change nothing |
| Chain.TokenListsAt | src/MarkovModel.ts:50-54 | position j of the token lists is the tokenisation of source j |
| Chain.TokenListsWellFormed | src/MarkovModel.ts:50-54 | every token of every source is well formed for the processor |
| Chain.TrainedEntriesNonEmpty | src/MarkovModel.ts:47-54 | every entry of a trained table is non-empty |
| Chain.TrainedContinuationsFromSources | src/MarkovModel.ts:99-112 | every continuation in a trained table other than undefined is a token of one of the sources |
| Chain.TrainedTableWellFormed | src/MarkovModel.ts:43-57 | every continuation of a trained table is a well-formed token |
| Chain.TrainedStartersReversed | src/MarkovModel.ts:50-54 | the trained starters are the first windows of the sources long enough to have one, in reverse source order |
| Chain.TrainedStartersAreFirstWindows | src/MarkovModel.ts:102-104 | every trained starter has exactly `order` well-formed tokens, the first ones of some source |
| Chain.ScanFrom | src/MarkovModel.ts:153-163 | the scan returns -1 or a position below its start whose weight reaches the threshold |
| Chain.WeightAtLeastCount | src/MarkovModel.ts:155-158 | the accumulated weight from position j is at least the number of positions from j |
| Chain.ScanFromLargest | src/MarkovModel.ts:155-163 | no position the scan passed over reaches the threshold |
| Chain.ScanFindsPosition | src/MarkovModel.ts:153-163 | for a non-empty entry and a draw in [0, 1) the scan always stops at some position, so the final fall-through to undefined is never taken |
| Chain.ChooseIsLargestReaching | src/MarkovModel.ts:123-164 | the choice is the token at the largest position whose accumulated weight reaches draw times length, and the one-element fast path agrees with this |
| Chain.ChooseIsMember | src/MarkovModel.ts:123-164 | for a non-empty entry and a draw in [0, 1) the choice is an element of the entry |
| Chain.ChooseFromEntry | src/MarkovModel.ts:73-79 | a token generation picks is recorded under the key it looked up |
| Chain.ChooseUniform | src/MarkovModel.ts:123-164 | an entry whose elements are all equal always yields that element |
| Chain.FirstOfFourNeverChosen | src/MarkovModel.ts:153-163 | in the entry [b, a, c, a] the token b at position 0 is never chosen, whatever the draw |
| Chain.ExtendAppendsContinuations | src/MarkovModel.ts:72-82 | the generation loop only appends, at most one token per draw, and every appended token is a continuation recorded in the table |
| Chain.ExtendStep | src/MarkovModel.ts:73-81 | when the whole-output key and the trailing-window key agree, one iteration of both loops stops together or appends the same token |
| Chain.ChosenWellFormed | src/MarkovModel.ts:73-79 | a token chosen from a well-formed table keeps the output well formed |
| Chain.ExtendFollowsTrailingWindow | src/MarkovModel.ts:81 | with well-formed tokens, re-keying the whole output with the order is keying its trailing window of `order` tokens, step after step |
| Chain.WalkFollowsTrailingWindows | src/MarkovModel.ts:69-81 | from a starter of exactly `order` tokens, every lookup of generation is the training key of the current trailing window |
| Chain.RecordAddsOne | src/MarkovModel.ts:108-112 | recording one pair adds exactly one continuation to the table |
| Chain.RecordAllAdds | src/MarkovModel.ts:99-113 | recording a list of pairs adds exactly that many continuations |
| Chain.TrainedWalk | src/MarkovModel.ts:66-85 | generating from a starter of a trained model keeps the starter as a prefix, produces only tokens of the sources, and for order >= 1 looks up exactly the keys training computed for the trailing windows |
| SourceProcessor.Tokenise | dist/processor/ISourceProcessor.d.ts:17 | dispatching `tokenise` gives the chosen processor's tokens |
| SourceProcessor.TokensWellFormed | dist/processor/ISourceProcessor.d.ts:17 | every token the character processor produces is one character long |
| SourceProcessor.TrailingWindowKey | dist/processor/ISourceProcessor.d.ts:34 | for both processors, keying a whole token list with order k is keying its last k tokens without an order |
| WordProcessor.Create | src/processor/WordProcessor.ts:27-29 | an omitted splitter defaults to `/\s+/`, a given one is kept |
| WordProcessor.Detokenise | src/processor/WordProcessor.ts:59-61 | no tokens give ""; otherwise the result begins with the first token and has the tokens' total length plus one space between each neighbouring pair |
| WordProcessor.Tokenise | src/processor/WordProcessor.ts:38-50 | a string is split directly; an array is the in-order concatenation of its elements' splits |
| WordProcessor.CombineTokens | src/processor/WordProcessor.ts:71-77 | without an order or with order 0 the key is the detokenisation; with 1 <= k <= length it is the detokenisation of exactly the last k tokens |
| WordProcessor.TokensOfArrayConcat | src/processor/WordProcessor.ts:43-49 | tokenising the concatenation of two arrays is the concatenation of their tokens |
| WordProcessor.TokensOfArraySingleton | src/processor/WordProcessor.ts:38-50 | a one-element array is tokenised like its element |
| WordProcessor.DefaultTokens | src/processor/WordProcessor.ts:27-41 | with the default `/\s+/` a string yields at least one token and no token contains whitespace |
| WordProcessor.LiteralTokensRejoin | src/processor/WordProcessor.ts:39-41 | with a non-empty literal separator a string yields at least one token, and joining them with the separator restores it |
| WordProcessor.DefaultRoundTrip | src/processor/WordProcessor.ts:59-61 | with the default splitter, tokenising the detokenisation of non-empty whitespace-free tokens gives them back |
| WordProcessor.SpaceLiteralRoundTrip | src/processor/WordProcessor.ts:38-61 | with the literal separator " ", detokenising the tokens of a string gives the string back |
| CharacterProcessor.Tokenise | src/processor/CharacterProcessor.ts:20-42 | numbers and strings are split directly; an array is the in-order concatenation of its elements' characters |
| CharacterProcessor.ValueTokensShape | src/processor/CharacterProcessor.ts:20-27 | a string gives one one-character token per character, in order; a number gives one per character of its decimal string |
| CharacterProcessor.Detokenise | src/processor/CharacterProcessor.ts:51-53 | the result has exactly the tokens' total length and begins with the first token |
| CharacterProcessor.CombineTokens | src/processor/CharacterProcessor.ts:63-71 | without an order or with order 0 the key is the detokenisation; with 1 <= k <= its length it is exactly its last k characters |
| CharacterProcessor.TokensAreSingleChars | src/processor/CharacterProcessor.ts:20-42 | every token is one character long |
| CharacterProcessor.ValuesTokensConcat | src/processor/CharacterProcessor.ts:29-41 | the characters of a concatenation of data are the concatenation of their characters |
| CharacterProcessor.TokensOfArrayConcat | src/processor/CharacterProcessor.ts:29-41 | tokenising the concatenation of two arrays is the concatenation of their tokens |
| CharacterProcessor.TokensOfArraySingleton | src/processor/CharacterProcessor.ts:20-42 | a one-element array is tokenised like its element |
| CharacterProcessor.TextRoundTrip | src/processor/CharacterProcessor.ts:25-53 | detokenising the tokens of a string gives the string back |
| CharacterProcessor.TokensRoundTrip | src/processor/CharacterProcessor.ts:25-53 | tokenising the detokenisation of one-character tokens gives them back |
| CharacterProcessor.NumberTokensSpellDecimal | src/processor/CharacterProcessor.ts:21-23 | the tokens of an integer spell its decimal string, which reads back as the integer |
| CharacterProcessor.TrailingWindowKey | src/processor/CharacterProcessor.ts:63-71 | for one-character tokens, keying with order k is keying the last k tokens without an order |
| JsBuiltins.SliceFrom | src/processor/WordProcessor.ts:76 | `slice(start)` is a suffix: of `|s| - start` elements for a start in range, of `-start` elements for a negative start down to `-|s|`, the whole sequence below that and empty beyond the end |
| JsBuiltins.SplitChars | src/processor/CharacterProcessor.ts:25-27 | `split("")` gives as many pieces as characters |
| JsBuiltins.SplitCharsSingletons | src/processor/CharacterProcessor.ts:25-27 | piece i of `split("")` is character i |
| JsBuiltins.JoinSplitChars | src/processor/CharacterProcessor.ts:51-53 | joining the pieces of `split("")` with "" restores the string |
| JsBuiltins.SplitJoinChars | src/processor/CharacterProcessor.ts:51-53 | splitting the concatenation of one-character strings gives them back |
| JsBuiltins.SplitOn | src/processor/WordProcessor.ts:39-41 | a split on a non-empty literal separator has at least one piece |
| JsBuiltins.JoinSplitOn | src/processor/WordProcessor.ts:39-41 | joining the pieces of a literal split with the separator restores the string |
| JsBuiltins.SplitWhitespace | src/processor/WordProcessor.ts:27-41 | a split on `/\s+/` has at least one piece |
| JsBuiltins.SplitWhitespaceNoWhitespace | src/processor/WordProcessor.ts:27-41 | no piece of a split on `/\s+/` contains whitespace |
| JsBuiltins.SplitWhitespaceJoin | src/processor/WordProcessor.ts:59-61 | splitting on `/\s+/` the space-join of non-empty whitespace-free words gives the words back |
| JsBuiltins.JoinAppend | src/processor/WordProcessor.ts:59-61 | joining a concatenation is joining the parts with the separator between them |
| JsBuiltins.JoinSingleChars | src/processor/CharacterProcessor.ts:51-53 | joining one-character strings with "" gives a string of that length whose characters are theirs |
| JsBuiltins.JoinLength | src/processor/WordProcessor.ts:60 | a join has the elements' total length plus one separator per neighbouring pair, begins with the first element, and is "" for no elements |
| JsBuiltins.NumberToString | src/processor/CharacterProcessor.ts:22 | the decimal string of a safe integer is non-empty and begins with a minus sign exactly when the integer is negative |
| JsBuiltins.NumberToStringShape | src/processor/CharacterProcessor.ts:22 | the decimal string is an optional minus sign followed by digits only |
| JsBuiltins.Digits | src/processor/CharacterProcessor.ts:21-23 | the decimal digits of a natural number form a non-empty string of digit characters |
| JsBuiltins.NumberToStringRoundTrip | src/processor/CharacterProcessor.ts:21-23 | the decimal string of an integer is an optional minus followed by digits, and reads back as the integer |
| Scenario.ExampleTokens | src/processor/WordProcessor.ts:38-41 | the default word processor splits "a b a b a b" into its six words |
| Scenario.ExampleTrained | src/MarkovModel.ts:43-114 | training with order 1 on "a b a b a b" gives a -> [b, b, b], b -> [a, a, undefined] and the single starter [a] |
| Scenario.AlternatingTrained | src/MarkovModel.ts:43-114 | the same holds for any two distinct words |
| Scenario.EndEntryChoice | src/MarkovModel.ts:123-164 | on the entry [a, a, undefined] a draw r picks undefined exactly when 3r <= 1, and a otherwise |
| Scenario.AlternatingWalk | src/MarkovModel.ts:66-85 | from the starter [a], three draws of 0.5 generate [a, b, a, b] |
| Scenario.AlternatingStops | src/MarkovModel.ts:72-77 | from the starter [b], a draw of 0.25 picks undefined and generation stops with [b] |

## Left out

- Regular expressions other than `/\s+/` as `splitExpression` are not modelled. The default and literal string separators are.
- The character processor's number input is modelled only for integers of magnitude at most 2^53 (9007199254740992). Every such integer is a JavaScript number, and `toString` prints its exact digits. Larger integers are not modelled: most of them are not JavaScript numbers at all, and `toString` prints the rounded double's shortest digits padded with zeros (2^64 prints as 18446744073709552000). Non-integral numbers, `NaN` and infinities are not modelled either.
- Strings are sequences of Unicode scalar values, one `char` each, and JavaScript strings are sequences of UTF-16 code units. For text outside the Basic Multilingual Plane, the source tokenises, keys and counts windows by UTF-16 code unit, and the model does not. For example, `"😀".split("")` gives two tokens in the source and one in the model.
- JavaScript object keys are not modelled. `_ngrams` and `counts` are plain objects:
  - `counts[undefined]` and `counts["undefined"]` share one slot;
  - keys such as `constructor` or `__proto__` resolve to prototype members.
  
  The model uses maps keyed by the token itself, as the code intends.
- The distribution of `Math.random()` is not modelled. Draws and the starter index are parameters, and a draw is taken in [0, 1) where it matters.
- Floating-point division is not modelled. `test <= cumulative / total` is compared exactly as `test * total <= cumulative`.
- Markov.MarkovModel.Generate: with `max` omitted or 0 the source loops until `undefined` is picked. The model runs at most one iteration per draw supplied, so such a run is modelled up to the number of draws.
- Markov.MarkovModel.Train: requires at least one added source. With none, `_sources` is still `undefined` and the source throws.
- Markov.MarkovModel.Generate: requires a trained model with at least one starter. Without one, the source reads an undefined starter and throws.
- A non-integral `order` is not modelled. The order is a natural number once `train` has replaced omitted and negative values by 3.
- Custom `ISourceProcessor` implementations are not modelled. The model covers the two processors of the library.
- `src/index.ts` is a convenience wrapper, and it is not part of this model. It builds a `MarkovModel`, adds the given strings in reverse order, trains with a default `WordProcessor` and calls `generate()` without a maximum. Each step it takes is modelled on its own: `Add`, `Train`, `WordProcessor.Create` and `Generate`.
- `src/processor/index.ts` only re-exports the processors. The compiled files under `dist/` repeat the sources. Neither is part of this model.
