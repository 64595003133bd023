# markov_chains in Dafny

A model of the core of a word-level Markov chain text generator. The modelled pieces are:

- the chain state (the last *k* tokens of a slice);
- the append-only state registry that gives each distinct state a dense id;
- training, which slides a window of width *k* over the tokens and counts transitions in a sparse matrix;
- prediction from a state;
- the character-level tokenizer;
- the output formatter;
- the three-byte magic prefix that marks a saved model.

Modules follow the structure of `src/main.rs`:

| module | file | models |
|---|---|---|
| `Options` | options.dfy | `Option` |
| `Text` | text.dfy | `char::is_whitespace`, `is_ascii_punctuation`, `to_ascii_lowercase`, ASCII upper-casing, string concatenation |
| `States` | states.dfy | `State`, `State::from_slice`, `impl StateIndex for Vec<State>` (class `StateIndex` over a `seq` field) |
| `Training` | training.dfy | `MarkovGeneratorBase::from_tokens` (method `FromTokens`, a `while` loop over a `StateIndex` object and a map), its specification `Trained`, and what training produces |
| `Prediction` | prediction.dfy | `random_state_index`, `random_state`, `predict` |
| `Tokenizer` | tokenizer.dfy | `tokenize_input` and `finish_token` (method `TokenizeInput` against the state machine `Run`) |
| `Formatter` | formatter.dfy | `format_output` and `capitalize` (method `FormatOutput` against `Formatted`) |
| `RoundTrip` | roundtrip.dfy | how formatting and tokenizing fit together |
| `ModelFile` | model_file.dfy | `MAGIC_FILE_BYTES` and the save / load framing in `main` |

## Modelling choices

- **The sparse matrix.** `sprs::CsMat<u16>` is a `map<(nat, nat), nat>` from (row, column) to count. A key is present exactly when the count is non-zero. `dim` is the side the matrix was allocated with, `|tokens| - (k - 1)`.
- **Matrix orientation.** As in the code, a transition is counted at row = id of the newer window and column = id of the older one (`src/main.rs:142-147`). `predict` reads the row of the current state, so it returns a state that *preceded* the current one in the training text, not one that followed it. `PredictYieldsPredecessor` proves this. The model keeps that orientation.
- **Transitions of an alternating text.** For the tokens `a b a b a b` with order 1, the code records 5 transitions, because the first window has no predecessor. The states are `[a]` (id 0) and `[b]` (id 1), and the matrix stores (1,0) = 3 and (0,1) = 2. `Training.AlternatingCorpus` states this exactly.
- **Randomness.** Each random draw is an argument supplied by the caller:
  - `rowPick` and `statePick` in `[0, n)` for `random_range(0..n)`;
  - a `ticket` in `[0, row weight)` for `WeightedIndex`.

  Under the cumulative-interval reading (`PickWeighted`), a uniform ticket selects entry *i* for exactly `count_i` of the possible ticket values (`PickWeightedExactly`).
- **Integers.** Counts are unbounded `nat`, not `u16`. `TrainedCounts` proves every count is at most `|tokens| - k`, so for any input with fewer than 65 536 tokens the `u16` counter cannot overflow.
- **Characters.** Whitespace is Unicode White_Space, which is what `char::is_whitespace` tests. Punctuation is the 32 ASCII punctuation characters. Lower-casing is ASCII only, as `to_ascii_lowercase` is. Bytes are a `byte` newtype.
- **Preconditions.** The code panics on some inputs. Those become preconditions:
  - `from_tokens` needs `k >= 1` and `|tokens| >= k - 1`, otherwise `tokens.len() - (state_size - 1)` underflows;
  - random states need a non-empty registry, otherwise `random_range(0..0)` panics;
  - the magic test needs at least 3 bytes, otherwise `file_preview[..3]` panics;
  - `StateIndex.Insert` needs `index <= len`, otherwise `Vec::insert` panics; its only caller passes the length.

## Model

| member | source | states |
|---|---|---|
| States.FromSlice | src/main.rs:52-57 | the state is exactly the last min(\|tokens\|, size) tokens, in their original order (tokens = the dropped prefix ++ the state) |
| States.Position | src/main.rs:91-93 | None exactly when the element is absent; otherwise an in-range index holding it with no earlier occurrence (first match of the linear scan) |
| States.PositionOfPrefix | src/main.rs:95-97 | appending to the registry never changes the id of an already registered state |
| States.StateIndex.constructor | src/main.rs:123 | the registry starts empty |
| States.StateIndex.GetState | src/main.rs:87-89 | Some exactly when index < len, and then the state stored at that index |
| States.StateIndex.GetIndex | src/main.rs:91-93 | the first position holding the state, or None exactly when it is not registered |
| States.StateIndex.Insert | src/main.rs:95-97 | `Vec::insert`: the state goes in at `index` and later entries shift up; at index = len it is appended and earlier entries are unchanged |
| States.StateIndex.Len | src/main.rs:99-101 | len is the first index without a state, and every smaller index has one |
| Training.DistinctMembers | src/main.rs:129-140 | a state is registered exactly when it is one of the windows |
| Training.DistinctUnique | src/main.rs:132-140 | registered states are pairwise distinct |
| Training.DistinctLength | src/main.rs:122-140 | no more states get registered than there are windows |
| Training.DistinctFirstAppearance | src/main.rs:132-140 | id order is order of first appearance: state i first occurs before state j whenever i < j |
| Training.OccurrencesPositive | src/main.rs:142-147 | an element has a non-zero count exactly when it occurs |
| Training.CountMatrixSnoc | src/main.rs:143-146 | one more transition adds one to its entry, inserting it with count 1 when absent, and leaves every other entry unchanged |
| Training.TotalBump | src/main.rs:143-146 | each recorded transition raises the sum of all counts by exactly one |
| Training.TotalCountMatrix | src/main.rs:142-150 | the stored counts sum to the number of recorded transitions |
| Training.CountMatrixEntries | src/main.rs:142-147 | exact sparsity (an entry is stored iff its transition occurred) and each stored count equals the number of occurrences of that transition |
| Training.CountMatrixBounds | src/main.rs:142-147 | every stored count is at least 1 and at most the number of transitions |
| Training.TransitionsExtendRegistry | src/main.rs:132-147 | registering new states later does not change the (row, column) of transitions already recorded |
| Training.TransitionsShape | src/main.rs:142-150 | one transition per window after the first; every row and column is a registered id |
| Training.RegisterStep | src/main.rs:132-140 | registering window i grows the registry by that window exactly when it is new |
| Training.CountStep | src/main.rs:142-150 | window i adds exactly the transition (id of window i, id of window i - 1) |
| Training.TrainedRegistry | src/main.rs:121-140 | after training the states are pairwise distinct, are exactly the windows, appear in order of first appearance, number at most `tokens.len() - (k - 1)`, and number at least one when k <= \|tokens\| |
| Training.TrainedCounts | src/main.rs:121-151 | after training the matrix is exactly sparse; each entry is the number of positions i >= 1 with (id(window i), id(window i - 1)) = (row, column); every key is a pair of registered ids; each count is between 1 and \|tokens\| - k; the counts sum to \|tokens\| - k |
| Training.TrainedWellFormed | src/main.rs:121-158 | training produces a model whose stored keys are in range and whose counts are at least 1, which is what prediction relies on |
| Training.ExactlyOneWindow | src/main.rs:121-158 | input of exactly k tokens yields one state and an empty matrix |
| Training.AlternatingCorpus | src/main.rs:121-158 | `a b a b a b` with order 1 gives states [a], [b], a dimension of 6, and the entries (1,0) = 3 and (0,1) = 2 |
| Training.AddOne | src/main.rs:143-146 | the `get_mut` / `insert` update is one `Bump` of the entry |
| Training.Register | src/main.rs:132-140 | lookup-or-insert: a known state keeps its id; a new state is appended under id `current_rows`, which then grows by one; the returned row is the state's id |
| Training.TrainStep | src/main.rs:129-151 | after window i the registry is the distinct windows so far and the transitions gain one entry for this window |
| Training.TrainWindow | src/main.rs:130-150 | one loop iteration carries the training invariant from i windows to i + 1 |
| Training.FromTokens | src/main.rs:121-158 | the imperative loop produces exactly the model `Trained(tokens, k)` whose properties are proved above |
| Prediction.RowEntries | src/main.rs:173-180 | the stored (column, count) entries of a row: each is stored, every stored entry of the row is listed, and columns are strictly increasing |
| Prediction.PickWeighted | src/main.rs:180-182 | the selected entry is the one whose cumulative-count interval holds the ticket |
| Prediction.WeightPrefixMonotone | src/main.rs:181 | cumulative weights never decrease along the row |
| Prediction.PickWeightedExactly | src/main.rs:180-182 | entry i is selected by exactly the tickets in its interval, which has length equal to its count, so selection is proportional to count |
| Prediction.RandomState | src/main.rs:160-166 | a uniformly drawn id always yields a registered state |
| Prediction.ResolveRow | src/main.rs:169-172 | a registered state resolves to its own id; an unknown state resolves to the random row instead of failing |
| Prediction.Predict | src/main.rs:168-184 | always a registered state; a dead-end row gives the random state; otherwise a state at a column the row stores a count for |
| Prediction.DeadEndRow | src/main.rs:176-178 | a row has no entries exactly when the matrix stores nothing in that row |
| Prediction.StoredEntryOrigin | src/main.rs:142-147 | every stored entry (r, c) of a trained matrix comes from some position i where window i has id r and window i - 1 has id c |
| Prediction.PredictYieldsPredecessor | src/main.rs:168-184 | from a registered state with a non-empty row, the prediction is a window that occurred immediately before that state in training |
| Prediction.PredictedEntry | src/main.rs:180-183 | the predicted state is the one at a stored column of the current state's row |
| Tokenizer.FinishToken | src/main.rs:190-195 | pushes the current token only when it is non-empty, then clears it |
| Tokenizer.FinishKeepsGood | src/main.rs:190-195 | finishing never adds an empty token and loses no characters |
| Tokenizer.StepKeepsGood | src/main.rs:199-209 | one character keeps every token well-shaped and adds exactly its lower-cased self to the text, or nothing if it is whitespace |
| Tokenizer.StepShaped | src/main.rs:199-208 | after any character (a space finishing the token, punctuation finishing it unless it ends in punctuation, anything else appended), finished tokens stay non-empty and well-shaped and the current one stays shaped |
| Tokenizer.StepConcat | src/main.rs:199-209 | the characters the machine holds grow by exactly the lower-cased non-whitespace character |
| Tokenizer.RunKeepsGood | src/main.rs:197-210 | after any prefix of the input, the machine's tokens are well-shaped and hold exactly the normalized prefix |
| Tokenizer.TokensProperties | src/main.rs:187-213 | every token is non-empty, free of whitespace and ASCII upper case, and is a run of ASCII punctuation followed by non-punctuation; the tokens concatenate to the input lower-cased with whitespace removed |
| Tokenizer.TokenizeInput | src/main.rs:187-213 | the imperative loop returns exactly `Tokens(input)`, with the properties above |
| Text.ToLower | src/main.rs:206-208 | the result is never an ASCII upper-case letter; punctuation and whitespace classes are kept; characters other than 'A'..'Z' are unchanged |
| Text.ToUpper | src/main.rs:221 | the result is never an ASCII lower-case letter; the punctuation class is kept; ASCII lower-casing gives back any character that was not 'A'..'Z' |
| Formatter.Capitalize | src/main.rs:217-223 | same length; the first character is upper-cased and the rest is kept |
| Formatter.FormattedLength | src/main.rs:225-244 | output length = total token length + number of inserted spaces, so nothing else is added |
| Formatter.FormattedSnoc | src/main.rs:227-243 | each token appends its piece; the capitalize flag after a token is whether it starts with `.`, `;`, `!` or `?` |
| Formatter.AnyNonEmptyWitness | src/main.rs:230 | "output so far is non-empty" means some token so far is non-empty |
| Formatter.FormattedEmpty | src/main.rs:230 | the output is empty exactly when every token so far is empty |
| Formatter.FormattedPrefix | src/main.rs:227-244 | formatting more tokens only appends to the output |
| Formatter.FormattedStartsCapitalized | src/main.rs:226-236 | the output starts with the first token, capitalized |
| Formatter.PieceAt | src/main.rs:229-243 | token i adds a space exactly when earlier output is non-empty and it starts with a non-punctuation character; it is capitalized exactly when it is first or follows a sentence-ending token |
| Formatter.TokenInOutput | src/main.rs:227-243 | token i appears in the output right after the earlier text, with exactly that space and capitalization |
| Formatter.FormatOutput | src/main.rs:216-247 | the imperative loop returns exactly `Formatted(tokens)` |
| RoundTrip.FormatThenTokenize | src/main.rs:187-247 | tokenizing the formatted output gives back the tokens, for tokens the tokenizer can produce when no punctuation-led token follows one ending in punctuation, with the ASCII-only upper-casing of `Text.ToUpper` |
| RoundTrip.RunFormatted | src/main.rs:197-244 | after reading the formatted text, the tokenizer holds every token but the last and is building the last |
| RoundTrip.RunWord | src/main.rs:201-208 | reading a (possibly capitalized) spelling of a token, when nothing is being built or a punctuation-led token follows a non-punctuation character, finishes the previous token and builds this one |
| RoundTrip.PunctuationMerges | src/main.rs:201-204 | without that condition the round trip fails: formatting `["!", "!"]` gives `!!`, which tokenizes to `["!!"]` |
| ModelFile.Save | src/main.rs:274-282 | a saved file is the 3 magic bytes followed by the payload |
| ModelFile.Classify | src/main.rs:262-283 | the input is loaded as a model exactly when its first 3 bytes are the magic prefix, and then the payload is the rest; otherwise all of it is training text |
| ModelFile.SavedFileLoadsBack | src/main.rs:262-283 | a saved file is classified as a model whose payload is the saved bytes |
| ModelFile.LoadedExactlyWhenSaved | src/main.rs:262 | an input is loaded as a model if and only if it is some saved file |

## Left out

- Argument parsing (`Args`, clap), opening files and stdin, `println!`, and the generation loop of `main` (`src/main.rs:286-300`). These are I/O and glue.
- The postcard encoding of the model. The payload of a saved file is an opaque byte sequence, and the model does not state that decoding inverts encoding.
- The inner workings of `sprs::CsMat`: compressed storage and `outer_view`.
- The `rand` generator and the `WeightedIndex` distribution. Draws are arguments, and probabilities are stated only as counts of ticket values.
- `WeightedIndex::new` fails when the row's total weight overflows `u16`. This is not modelled, because weights are `nat`.
- `Training.FromTokens` does not model the `u16` wrap of `*count += 1`. Counts are `nat`, and the bound `|tokens| - k` on every count is proved instead.
- I/O errors from the reader in `tokenize_input`. The input is a character sequence that has already been decoded.
- `Text.ToUpper` upper-cases ASCII only. `char::to_uppercase` of a non-ASCII letter, which can produce several characters, is not modelled.
- `RoundTrip.FormatThenTokenize` depends on that ASCII-only upper-casing. In the program the round trip fails for a capitalized token that starts with a non-ASCII letter with an upper-case form. For example, `["é"]` formats to `É`, which `to_ascii_lowercase` keeps, so it tokenizes to `["É"]`.
- The `StateIndex` trait as an abstraction. Only its `Vec<State>` implementation is modelled.
- `State`'s `Deref` and `Display` implementations, which are formatting plumbing.
- The loop body of `from_tokens` is stated as the method `Training.TrainWindow`, called from the loop of `Training.FromTokens`. The registry lookup is the method `Training.Register`. The statements are those of the source.
- `Prediction.Predict` is modelled on values. The registry is read through the model's `states` sequence rather than the `StateIndex` object, because `predict` only reads it.
