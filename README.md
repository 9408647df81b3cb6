# Variable-order character Markov chain, modelled in Dafny

This project models the chain engine of `markov_chain.py`. The engine has two halves:

- A trainer (`MarkovChainBuilder`) counts, for every context of up to `seq_len` characters, which character follows it in a corpus of short strings:
  - the context starts at a start sentinel and rolls forward one character at a time;
  - every string ends with an end-sentinel transition;
  - with `nested_seq` set, each transition is also counted for every shorter suffix of its context.
- A compiled chain (`MarkovChain`) is produced by `compile`, which turns each context's counts into a probability distribution. It then generates new strings, at most 30 characters long, by walking from the start context until it draws the end sentinel.

Files and modules:

- `basics.dfy` (`Basics`): the error cases, `Result`, and Python's negative slice `s[-k:]`.
- `dicts.dfy` (`Dicts`): Python's insertion-ordered `dict` and the dict comprehension over a list of pairs. Key order matters:
  - the order of `transitions.items()` fixes the order of a compiled state's transitions and probabilities;
  - the order of `states.values()` fixes the order of the records `to_json` writes.
- `counts.dfy` (`Counts`): the counts as values.
  - One increment is `get_state(k).increment_transision(c)`.
  - `Increments(cfg, s)` lists, in order, every increment `process_string(s)` performs.
  - `Ingested` and `IngestedAll` give the resulting tables.
  - `CompileState` and `CompileTable` give the compiled distributions.
  - The properties of training and compiling are proved here.
- `builder.dfy` (`Builder`): the classes `MarkovChainBuilderState` and `MarkovChainBuilder`. Their fields are updated in place, and every method is proved to leave the counts equal to the `Counts` function of the old counts. This file also holds the builder's record form (`to_json`/`from_json`).
- `chain.dfy` (`Chain`): `MarkovChainState` and `MarkovChain`, plus the generation loop:
  - the random choice is an oracle `draw`;
  - the unbounded retry of `generate_string` is an explicit retry budget;
  - the chain's record form and its round trips live here too.
- `char_sequences.dfy` (`CharSequences`): `get_char_sequences`.
- `scenarios.dfy` (`Scenarios`): two worked examples.
  - Training on "ab" and "ac" with order 2, then compiling the trained table: the state "a" lists b then c, with probability 1/2 each.
  - A nested string shorter than the order.

## Model

| member | source | states |
|---|---|---|
| `Basics.Tail` | markov_chain.py:64 | `s[-k:]` is the last min(k, len) elements for k > 0, and the whole sequence for k = 0; the result is always a suffix of s |
| `CharSequences.CharSequences` | markov_chain.py:8-19 | fails exactly when `seq_len < 1`; returns the characters unchanged for `seq_len == 1` |
| `CharSequences.ExtendedLength` | markov_chain.py:14-18 | the comprehension `[s + c for s in out for c in cs]` has len(out)·len(cs) elements |
| `CharSequences.CharSequencesPrefix` | markov_chain.py:13-14 | the result for a smaller length is a prefix of the result for any larger length |
| `CharSequences.CharSequencesCount` | markov_chain.py:8-19 | the result has exactly len(cs)·(len(cs)+1)^(n-1) elements |
| `CharSequences.CharSequencesLengths` | markov_chain.py:8-19 | given single characters, every element has between 1 and n characters |
| `CharSequences.CharSequencesDuplicate` | markov_chain.py:13-18 | from n = 3 on, the result holds the same string at two different positions |
| `Chain.MarkovChainState.GetNext` | markov_chain.py:29-30 | the choice fails on an empty list of transitions, and otherwise exactly when `p` is mis-sized, holds a negative number or does not sum to 1; a successful choice is a transition whose probability is positive |
| `Chain.MarkovChainState.GetNextReaches` | markov_chain.py:29-30 | every transition of positive probability is chosen by some draw |
| `Chain.MarkovChainState.GetNextAt` | markov_chain.py:29-30 | draw j chooses the j-th transition of positive probability |
| `Chain.Pick` | markov_chain.py:30 | the chosen position exists and has a positive probability |
| `Chain.SomePositive` | markov_chain.py:30 | non-negative probabilities summing to 1 include a positive one |
| `Chain.PositiveIndicesComplete` | markov_chain.py:30 | every position of positive probability is among those the choice can pick |
| `Chain.MarkovChainState.ToJson` | markov_chain.py:32-45 | `from_json(to_json())` gives back the same state |
| `Chain.MarkovChain.ExtendFollows` | markov_chain.py:60-65 | appending a drawn transition other than the end sentinel keeps the output a path through the chain |
| `Chain.MarkovChain.WalkSound` | markov_chain.py:56-66 | a finished walk has at most `MAX_LENGTH` characters, never contains the end sentinel, and each character is a transition of the context of the last `seq_len` characters before it |
| `Chain.MarkovChain.Turn` | markov_chain.py:60-65 | one iteration either stops with the outcome of the walk, or moves on to the next context with the transition appended, leaving the walk's outcome unchanged |
| `Chain.MarkovChain.WalkNext` | markov_chain.py:60-65 | a drawn transition other than the end sentinel whose next context exists continues the walk from that context |
| `Chain.MarkovChain.WalkStops` | markov_chain.py:60-65 | the walk stops with the choice's error, with the output on the end sentinel, or with `KeyError` on a missing next context |
| `Chain.MarkovChain.GenerateOnce` | markov_chain.py:56-66 | the loop's result is the outcome of the walk for the given draws: at most 30 characters, no end sentinel, a path through the chain; a missing context or a failed choice is an error |
| `Chain.MarkovChain.GeneratedSound` | markov_chain.py:56-66 | any string a generation attempt returns has at most 30 characters, no end sentinel, and follows the chain |
| `Chain.MarkovChain.GenerateString` | markov_chain.py:68-72 | a returned string is at least `min_len` long, at most 30 long, and a path through the chain; a `min_len` over 30 can never be met |
| `Chain.MarkovChain.ToJson` | markov_chain.py:74-80 | the record keeps `seq_len`, `start` and `end`, and lists the states in the dict's order |
| `Chain.MarkovChain.FromJson` | markov_chain.py:82-89 | every record's context is present, listed where it first occurs; the last record for a context gives its state; each state comes from one of the records |
| `Chain.LoadedStates` | markov_chain.py:85 | the comprehension lists each context where it first occurs, and holds the state of its last record |
| `Chain.ChainRoundTrip` | markov_chain.py:74-89 | `from_json(to_json(c))` equals c, the order of the contexts included |
| `Chain.ChainRecordRoundTrip` | markov_chain.py:74-89 | a record whose contexts are distinct survives `from_json` then `to_json` unchanged |
| `Dicts.Dict.Put` | markov_chain.py:99-102 | storing a key updates its value; an existing key keeps its place, and a new key goes last |
| `Dicts.FromItems` | markov_chain.py:191-194 | the dict comprehension holds every key of the pairs, and each value comes from a pair with that key |
| `Dicts.FromItemsKeys` | markov_chain.py:191-194 | the comprehension lists each key at the position of its first pair |
| `Dicts.FromItemsLast` | markov_chain.py:191-194 | the comprehension holds, for each key, the value of its last pair |
| `Dicts.FirstOccurrences` | markov_chain.py:99-102 | each element once, every element of the input present, nothing else |
| `Dicts.FirstOccurrencesDistinct` | markov_chain.py:99-102 | a list without repeats keeps its order |
| `Dicts.FromItemsOfItems` | markov_chain.py:85 | rebuilding a dict from its own items gives the same dict |
| `Dicts.ItemsOfFromItems` | markov_chain.py:85 | with distinct keys, the items of the comprehension are the pairs, in order |
| `Builder.ConfigCheck` | markov_chain.py:128-132 | the configuration passes exactly when both sentinels have length 1, they differ, and `seq_len > 0`; the first failing assertion names the error |
| `Builder.MarkovChainBuilder.Create` | markov_chain.py:128-138 | construction fails exactly when a constructor assertion fails; otherwise it gives an empty builder with the given settings |
| `Builder.MarkovChainBuilder.constructor` | markov_chain.py:134-138 | the builder starts with no states and the given settings |
| `Builder.MarkovChainBuilderState.constructor` | markov_chain.py:94-96 | a new state has no transitions |
| `Builder.MarkovChainBuilderState.IncrementTransition` | markov_chain.py:98-102 | the counter becomes `Incremented` of the old one |
| `Builder.MarkovChainBuilderState.FromJson` | markov_chain.py:113-123 | a fresh state with the record's context and counts, whose `to_json` gives the record back |
| `Builder.MarkovChainBuilderState.Reloaded` | markov_chain.py:113-123 | `from_json(to_json())` gives a new state with the same context and counts |
| `Builder.MarkovChainBuilder.GetState` | markov_chain.py:140-145 | the context is created empty when missing; nothing else changes; the returned counts are the context's |
| `Builder.MarkovChainBuilder.Record` | markov_chain.py:155 | one `get_state(k).increment_transision(c)` is the increment `Inc` of the table |
| `Builder.MarkovChainBuilder.RecordSuffixes` | markov_chain.py:157-158 | the nested loop performs the suffix increments from length `hi` down to 1, in that order |
| `Builder.MarkovChainBuilder.Step` | markov_chain.py:160-164 | one loop body increments the context on its character, then (nested) its suffixes |
| `Builder.MarkovChainBuilder.Advance` | markov_chain.py:153-165 | one loop iteration performs the increments for position i, and rolls the context to the window ending at i + 1 |
| `Builder.MarkovChainBuilder.GrowContexts` | markov_chain.py:153-159 | the first loop leaves the context at the first min(`seq_len`, n) characters, with every increment up to that position done |
| `Builder.MarkovChainBuilder.SlideContexts` | markov_chain.py:160-165 | the second loop leaves the context at the last `seq_len` characters, with every increment before the end transition done |
| `Builder.MarkovChainBuilder.ProcessString` | markov_chain.py:147-169 | the outcome is the sentinel checks or the empty-string failure; the new counts are `Ingested` of the old counts; the builder stays valid |
| `Builder.MarkovChainBuilder.ProcessStrings` | markov_chain.py:171-173 | the strings are processed in order, stopping at the first failure; the counts and the outcome are `IngestedAll` of the old counts |
| `Builder.IngestedAllStops` | markov_chain.py:171-173 | after a failure the later strings change nothing |
| `Builder.MarkovChainBuilder.Compile` | markov_chain.py:175-177 | compilation fails exactly when some context has no transitions; otherwise the chain has the builder's contexts in the builder's order, each compiled by `CompileState`, with the builder's sentinels and order; the builder is only read |
| `Builder.MarkovChainBuilder.ToJson` | markov_chain.py:179-186 | the record keeps the settings, and its states rebuild exactly the builder's table |
| `Builder.MarkovChainBuilder.FromJson` | markov_chain.py:188-195 | the constructor's checks on the record; on success the states are the records' table and the settings are the record's |
| `Builder.StateRecords` | markov_chain.py:185 | one record per context, in the table's order |
| `Builder.RecordsTable` | markov_chain.py:191-194 | every record's context is present, listed where it first occurs; the last record for a context gives its counts; each context's counts come from a record for it |
| `Builder.RecordsTableValid` | markov_chain.py:191-194 | records whose transitions are dicts rebuild a well-formed table |
| `Builder.TableRoundTrip` | markov_chain.py:179-195 | a builder's states survive `to_json` then `from_json`: the same contexts, order and counts |
| `Builder.RecordsRoundTrip` | markov_chain.py:179-195 | records with distinct contexts survive `from_json` then `to_json` unchanged |
| `Counts.Incremented` | markov_chain.py:98-102 | a new character starts at 1, and a known one goes up by 1 |
| `Counts.IncrementedOthers` | markov_chain.py:98-102 | incrementing keeps the counter a dict and leaves every other character's count alone |
| `Counts.Touch` | markov_chain.py:140-145 | `get_state` adds the context with no transitions when missing, and otherwise changes nothing |
| `Counts.TouchOthers` | markov_chain.py:140-145 | `get_state` adds only its own context and keeps every other state |
| `Counts.IncValid` | markov_chain.py:98-102 | an increment keeps the table well formed |
| `Counts.IncEffect` | markov_chain.py:98-102 | an increment adds 1 to its own pair, creating it when absent, and changes no other count |
| `Counts.IncTouched` | markov_chain.py:151 | `get_state` before an increment changes nothing more |
| `Counts.ApplyAllValid` | markov_chain.py:151-169 | any sequence of increments keeps the table well formed |
| `Counts.ApplyAllCount` | markov_chain.py:151-169 | after a sequence of increments, each count is its old value plus the number of times its pair occurs |
| `Counts.ApplyAllKey` | markov_chain.py:140-145 | a context is present afterwards exactly when it was before or was incremented |
| `Counts.ApplyAllHas` | markov_chain.py:98-102 | a context has a character afterwards exactly when it had it before or was incremented on it |
| `Counts.OrderIrrelevant` | markov_chain.py:98-102 | two rearrangements of the same increments give the same counts |
| `Counts.IngestOutcome` | markov_chain.py:147-151 | `process_string` succeeds exactly on a non-empty string holding neither sentinel |
| `Counts.WindowSlides` | markov_chain.py:159 | `(state + t)[-seq_len:]` is the window of the last `seq_len` characters ending at the next position |
| `Counts.WindowBounds` | markov_chain.py:153-159 | the context before position i has min(i, `seq_len`) characters, and is the whole prefix while i ≤ `seq_len` |
| `Counts.PrefixStart` | markov_chain.py:151 | before the loops only the start context has been counted, on the first character |
| `Counts.PrefixStep` | markov_chain.py:153-165 | one iteration of either loop extends the increments done so far by those for position i |
| `Counts.PrefixEnd` | markov_chain.py:166-169 | the end transition (nested: with its suffixes) completes the increments of the string |
| `Counts.PlainIncrements` | markov_chain.py:151-166 | without nesting, the increments are exactly: start on s[0], then the window before each s[i] on s[i], then the last window on the end sentinel |
| `Counts.PlainIngestCount` | markov_chain.py:151-166 | without nesting, each count after processing s is its old value plus the number of those positions that produce its pair; every other count is unchanged |
| `Counts.TailsEqual` | markov_chain.py:169 | two suffixes `key[-i:]` and `key[-j:]` are equal exactly when their lengths clamped to the key agree |
| `Counts.SuffixesCountProper` | markov_chain.py:167-169 | a proper suffix of the last context occurs once among the end suffixes when its length is in range, and otherwise not at all |
| `Counts.SuffixesCountWhole` | markov_chain.py:167-169 | the whole context occurs among the end suffixes once for each length from its own length to `seq_len - 1` |
| `Counts.EndTally` | markov_chain.py:166-169 | the end-sentinel counts come only from the end transition and its suffixes |
| `Counts.NestedEndCounts` | markov_chain.py:166-169 | with nesting, the last context w (min(n, `seq_len`) characters) gets 1 + `seq_len` - len(w) end counts, and each proper suffix of w gets one |
| `Counts.ApplyAllWellFormed` | markov_chain.py:151-169 | increments on allowed contexts, none on the start sentinel, keep the table's invariants |
| `Counts.WindowOk` | markov_chain.py:153-165 | every context read from a valid string is 1 to `seq_len` sentinel-free characters |
| `Counts.SuffixesOk` | markov_chain.py:157-169 | every suffix increment of an allowed context is itself allowed |
| `Counts.IncrementsOk` | markov_chain.py:151-169 | every increment of a valid string is on an allowed context, and never on the start sentinel |
| `Counts.IngestedWellFormed` | markov_chain.py:147-169 | processing any string keeps the invariants: each context is the start sentinel or 1 to `seq_len` sentinel-free characters, and no transition is the start sentinel |
| `Counts.IngestedAllWellFormed` | markov_chain.py:171-173 | processing any list of strings keeps the same invariants |
| `Counts.IngestOrderIrrelevant` | markov_chain.py:171-173 | processing two valid strings in either order gives the same counts |
| `Counts.IngestedAllAccepted` | markov_chain.py:171-173 | when every string is accepted, `process_strings` performs their increments in order |
| `Counts.AllIncrementsAppend` | markov_chain.py:171-173 | the increments of two lists of strings are those of the first, then those of the second |
| `Counts.AllIncrementsPermuted` | markov_chain.py:171-173 | reordering the strings reorders their increments |
| `Counts.IngestedAllOrderIrrelevant` | markov_chain.py:171-173 | `process_strings` on any reordering of a list of accepted strings accepts them all and gives the same counts |
| `Counts.CharsOfAppend` | markov_chain.py:98-102 | the characters counted in a context by two runs of increments are those of the first, then those of the second |
| `Counts.ApplyAllOrder` | markov_chain.py:98-102 | a state lists its characters in the order they were first counted, after those it already had |
| `Counts.ApplyAllPositive` | markov_chain.py:98-102 | increments keep every count positive |
| `Counts.IngestedPositive` | markov_chain.py:147-169 | processing a string keeps every count positive |
| `Counts.SumScaled` | markov_chain.py:110 | the fractions count/total sum to the sum of the counts over the total |
| `Counts.SumUniform` | markov_chain.py:108 | n equal values v sum to n·v |
| `Counts.UniformProbs` | markov_chain.py:108 | n probabilities of 1/n each, summing to 1 |
| `Counts.ScaledProbs` | markov_chain.py:109-110 | each probability is its count over the total, and they sum to 1 |
| `Counts.CompileState` | markov_chain.py:104-111 | compiling fails exactly on an empty counter; otherwise the transitions are the counter's characters in first-seen order, `probs` has the same length, sums to 1, and each is count/sum (or 1/n when the sum is 0) |
| `Counts.Compiled` | markov_chain.py:104-111 | a compiled state keeps its context and its transitions |
| `Counts.CompiledProbsBounded` | markov_chain.py:104-111 | with positive counts every probability lies in (0, 1] |
| `Counts.CompileTable` | markov_chain.py:176 | the comprehension fails exactly when some state has no transitions; otherwise it keeps the table's contexts and order and compiles each state |
| `Counts.CompiledStates` | markov_chain.py:176 | with every state non-empty, the comprehension has the table's contexts in the table's order, each compiled |
| `Counts.CompiledChainValid` | markov_chain.py:175-177 | the compiled chain files each state under its own context, keeps its transitions, and its probabilities sum to 1 |
| `Counts.CompiledOutputAvoidsStart` | markov_chain.py:56-66 | a string generated along a chain compiled from trained counts never contains the start sentinel |
| `Counts.CompiledProbsValid` | markov_chain.py:104-111 | every state compiled from positive counts passes the checks of `np.random.choice` |
| `Counts.ApplyAllNoEmpty` | markov_chain.py:98-102 | increments never leave a state without transitions |
| `Counts.TrainedCompiles` | markov_chain.py:171-177 | a builder trained only on accepted strings, from a table with no empty state, can always be compiled |
| `Counts.EmptyStringBlocksCompile` | markov_chain.py:147-151 | on a fresh start context, `process_string("")` fails, but leaves an empty start state behind, and `compile` then fails |
| `Counts.IngestedChecked` | markov_chain.py:147-169 | with the empty-string test first, a rejected string leaves the counts unchanged, and any non-empty string is processed as before |
| `Counts.CheckedKeepsCompilable` | markov_chain.py:147-177 | with the empty-string test first, no string, accepted or rejected, makes a compilable table uncompilable |
| `Scenarios.TwoStrings` | markov_chain.py:147-173 | training on "ab" and "ac" with order 2 counts '^'→a twice, a→b, a→c, ab→'$' and ac→'$' once each, and nothing else |
| `Scenarios.TwoStringsSteps` | markov_chain.py:147-173 | training on "ab" and "ac" performs the three increments of "ab", then the three of "ac" |
| `Scenarios.TwoStringsChars` | markov_chain.py:147-173 | the characters each context counts in that training, in order |
| `Scenarios.TwoStringsOrderA` | markov_chain.py:98-102 | after "ab" and "ac", the state "a" lists b then c |
| `Scenarios.TwoStringsOrderStart` | markov_chain.py:98-102 | after "ab" and "ac", the start state lists a once |
| `Scenarios.TwoStringsCompiled` | markov_chain.py:104-111 | compiling that training succeeds; "a" goes to b or c with probability 1/2 each, in that order, and the start state goes to a with probability 1 |
| `Scenarios.CompiledHalves` | markov_chain.py:104-111 | a state with counts 1 and 1 compiles to probabilities 1/2 and 1/2 |
| `Scenarios.CompiledCertain` | markov_chain.py:104-111 | a state with a single transition compiles to probability 1 |
| `Scenarios.NestedShort` | markov_chain.py:166-169 | with nesting and order 3, "ab" gives its last context two end counts and "b" one |

## Left out

- The randomness of `np.random.choice` (markov_chain.py:30). The draw is an oracle function. It picks among the positions of positive probability, round again past the last. Every such position can be picked, and no other, but no claim is made about the distribution of generated strings.
- Float rounding in `counts / np.sum(counts)` and `1 / counts.size`. The probabilities are exact `real` fractions.
- Chain.MarkovChainState.GetNext: numpy accepts probabilities whose sum lies within a small tolerance of 1. With exact reals the model demands a sum of exactly 1, and it does not model NaN entries.
- Builder.MarkovChainBuilderState.ToJson / Builder.MarkovChainBuilderState.FromJson: the source's `to_json` returns the live `transitions` dict, and `from_json` adopts the record's dict, so the record and the state share one dict. The model copies values, so a later change to one is not seen by the other.
- JSON text encoding and decoding, including `tolist()` and `np.array`. The model works on the record level: a state record, a chain record and a builder record, with fields in the source's dicts.
- Chain.MarkovChain.GenerateString: the source retries without bound. The model retries at most `retries` times, then returns `RetriesExhausted`. It proves the source's postcondition, a result at least `min_len` long, for every run that returns a string.
- Exceptions are modelled as error values:
  - `assert` failures, `IndexError` on an empty string and `KeyError` on a missing context;
  - the `ValueError` that `zip(*…)` unpacking raises for a state with no transitions, modelled as `NoTransitions`.
  Python's `-O` flag, which removes `assert` statements, is not modelled.
- Builder.MarkovChainBuilder: `self.states` maps contexts to `MarkovChainBuilderState` objects. The model stores each state's counter by value, in the builder's table. `get_state`'s returned object is written back after its increment, so the counts agree. Sharing of one state object between two builders, which the source would permit, is not modelled.
- Builder.MarkovChainBuilder.FromJson: the record's `transitions` objects are taken to be dicts from characters to integers (`RecordsValid`). Malformed records are not modelled.
- Dynamic typing: the model types `seq_len` as an integer, the sentinels as strings (the builder stores characters once the length-1 checks pass), and `nested_seq` as a boolean.
- build_markov_chains.py and markov_chain_analysis.py are not part of this model. They read and write files and print statistics.
- Generation stops only on the end sentinel or the 30-step cap; there is no other stopping policy.
- With `nested_seq`, the end transition increments `state[-i:]` for i = `seq_len - 1` down to 1 (markov_chain.py:167-169). For a string shorter than `seq_len` these slices are the whole context, so the final context w gets 1 + `seq_len` - len(w) end counts (`Counts.NestedEndCounts`, `Scenarios.NestedShort`).

## Findings

| source | as written | input that shows it | evidently intended | confidence | as-written member | corrected member |
|---|---|---|---|---|---|---|
| markov_chain.py:151 | `get_state(self.start)` runs before `string[0]` raises `IndexError`, so a rejected empty string leaves an empty start state, and `compile` (markov_chain.py:105) then raises `ValueError` | a fresh builder, `process_string("")`, then `compile()` | a rejected string leaves the builder as it was, so it stays compilable | not executed | `Counts.EmptyStringBlocksCompile` | `Counts.IngestedChecked`, `Counts.CheckedKeepsCompilable` |

The builder's methods (`Builder.MarkovChainBuilder.ProcessString`) keep modelling the code as written.
