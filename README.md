# EnergyPulse core in Dafny

EnergyPulse forecasts hourly electricity prices for the next day and turns
the forecast into advice: the cheapest and the most expensive three-hour
window, and a rough monthly savings figure. A chat assistant answers
questions from a small knowledge base, which is cut into titled text chunks
and searched by TF-IDF similarity.

This project models three pieces of that system and proves properties of
them.

- `formatter.dfy` (module `Formatter`): the window analysis behind the daily
  forecast message. `FindBestWindow` is the sliding-window scan, kept as a
  loop over a running best total with an "infinite" sentinel. It is proved
  against `BestWindow`, a scan seeded with window 0, and that scan is proved
  to find the first optimal window. `FormatPriceForecast` computes the figures
  the message shows: minimum, maximum and mean price, the cheap and peak
  windows as clock hours, and the savings estimate. The message text itself
  is not modelled.
- `predictor.dfy` (module `Predictor`): the `PricePredictor` class with its
  in-place state: the model, the scaler, the `is_trained` flag, the network's
  training/evaluation mode, and a log of the epochs that printed a loss line.
  The checkpoint at the model path is a `CheckpointFile` object holding an
  optional checkpoint. The network, the optimizer and the min-max scaler
  arithmetic are given functions in a `Numerics` value. So the model states
  what is passed to them and what is kept of their results, not how they
  compute.
- `knowledge.dfy` (module `Knowledge`): `_chunk_text`, which works in three
  steps. First it splits the text at each whitespace run after `.`, `!` or
  `?`. Then it packs the sentences greedily into chunks. Finally it strips the
  chunks and falls back to the text itself. Also `KnowledgeBase`, whose
  `_build_index` and `rebuild` refill the chunk list in place, and the
  top-k/threshold selection of `search` over given similarity scores.
- `wrappers.dfy` (module `Wrappers`): `Option` and `Result`. A `Result`
  failure stands for each exception the program raises.

The configuration values `SEQUENCE_LENGTH` (L), `PREDICTION_HOURS` (H),
`CHUNK_SIZE` and `TOP_K` are parameters. The knowledge entries that
`db.get_all_knowledge()` returns are passed in.

### Behaviour worth knowing

- Training pairs: the loop is `range(N - L - H)`, so it cuts `max(0, N - L - H)`
  pairs, one fewer than the `N - L - H + 1` windows of length L + H that a
  series of N prices holds. The last window that would still fit (start
  `N - L - H`) is never used. With exactly `N = L + H` prices, `train` fails
  with the not-enough-data error (`Predictor.PricePredictor.Train`,
  `Predictor.BuildSequences`).
- `_find_best_window` raises no error for any width. When the width exceeds the
  number of values, the loop runs zero times and the result is 0
  (`Formatter.FindBestWindow`).
- `predict` does no length check of its own. A history shorter than L is fed
  whole, and with L = 0 the slice `[-0:]` keeps the whole history
  (`Predictor.InferenceWindow`).
- An empty forecast makes `predictions.min()` raise. The model returns
  `Failure(EmptyForecast)` (`Formatter.FormatPriceForecast`).
- A `train` that fails for lack of data has already refit the scaler on the
  new series, since the fit comes before the size check. The model, the flag
  and the checkpoint are left as they were.

## Model

| member | source | states |
|---|---|---|
| Formatter.FindBestWindow | src/formatter.py:5-14 | With no window of the given width, the result is 0. Otherwise it starts a window: no other window has a strictly better sum (smaller when minimizing, larger when maximizing), and every earlier start is strictly worse. It equals the sentinel-free reference scan `BestWindow`. |
| Formatter.BestWindow | src/formatter.py:5-14 | The index `_find_best_window` returns, defined as a scan seeded with window 0. It is 0 when no window fits, and otherwise starts a window that fits; `BestWindowIsFirstBest` proves it is the first optimal one. |
| Formatter.ScanIsFirstBest | src/formatter.py:7-13 | A scan that holds the first-best start among the windows seen so far, and replaces it only on strict improvement, ends on the first-best window. |
| Formatter.BestWindowIsFirstBest | src/formatter.py:7-11 | Seeding the scan with window 0 (what the infinite sentinel amounts to) yields the first optimal window whenever one fits. |
| Formatter.FirstBestIsUnique | src/formatter.py:11-13 | The strict-improvement tie-break picks one window: two first-best starts are equal. |
| Formatter.Min | src/formatter.py:23 | The minimum is a forecast price and no price is below it. |
| Formatter.Max | src/formatter.py:24 | The maximum is a forecast price and no price is above it. |
| Formatter.ClockHour | src/formatter.py:29-30 | A start or end hour taken modulo 24 lies in 0..23. |
| Formatter.Mean | src/formatter.py:25 | `predictions.mean()`: the total over the number of hours. `MeanIsMean` states its defining property. |
| Formatter.ForecastOf | src/formatter.py:23-38 | The figures of a non-empty forecast. All four hours lie in 0..23 and the minimum is at most the maximum. The lemmas below characterise each figure. |
| Formatter.FormatPriceForecast | src/formatter.py:17-38 | Fails exactly when the forecast is empty. Otherwise it returns the figures `ForecastOf` defines, which the lemmas below characterise. |
| Formatter.ForecastPriceRange | src/formatter.py:23-24 | The reported minimum and maximum are forecast prices, and every price lies between them. |
| Formatter.MeanIsMean | src/formatter.py:25 | The mean of the forecast times the number of hours is the total price. |
| Formatter.ForecastAverage | src/formatter.py:25 | The reported average is the mean forecast price. |
| Formatter.ForecastWindows | src/formatter.py:27-35 | The cheap start is `(start_hour + c) % 24` and the peak start `(start_hour + p) % 24`, where c is the first minimal 3-hour window and p the first maximal one. A forecast shorter than 3 hours reports `start_hour % 24` for both. Each end is `(start + 3) % 24`, and all four hours lie in 0..23. |
| Formatter.ForecastSavingsNonNegative | src/formatter.py:38 | The monthly savings figure is never negative. |
| Formatter.SumBounds | src/formatter.py:10 | A total of n prices, each between lo and hi, lies between n·lo and n·hi. |
| Formatter.WindowSumBounds | src/formatter.py:10 | Every 3-hour window total lies between 3·min and 3·max of the forecast. |
| Formatter.SavingsCoverWindowGap | src/formatter.py:38 | The savings figure uses single-hour extremes. So it is never below 30 times the difference between any two 3-hour window totals, in particular between the peak and the cheapest window. |
| Predictor.CheckpointRoundTrip | src/predictor.py:54-76 | `_save_model` writes exactly the keys `_load_model` reads. Loading a saved checkpoint restores the same model state and the same five scaler fields (min_, scale_, data_min_, data_max_, data_range_), and saving what was loaded rewrites the same checkpoint. |
| Predictor.ToCheckpoint | src/predictor.py:67-75 | The dictionary `_save_model` writes keeps the model state, and loading it gives back exactly the five scaler fields saved. |
| Predictor.RestoredParams | src/predictor.py:55-60 | The five scaler fields `_load_model` reads from a checkpoint, key by key. Its round trip with `ToCheckpoint` is `CheckpointRoundTrip`. |
| Predictor.InferenceWindow | src/predictor.py:127-129 | The window fed to the network is a suffix of the history holding its last min(N, L) values, or all of it when L = 0. |
| Predictor.BuildSequences | src/predictor.py:86-93 | Cuts exactly max(0, N − L − H) pairs, none exactly when N ≤ L + H. Pair i has input `scaled[i..i+L)` and target `scaled[i+L..i+L+H)`, in increasing i. The start N − L − H is never used. |
| Predictor.LoggedEpochsAreTens | src/predictor.py:115-116 | The loss is logged at epochs 10, 20, 30, ..., so ⌊epochs/10⌋ times. |
| Predictor.Optimize | src/predictor.py:108-113 | The model after n full-batch optimizer steps on the same pairs at the same learning rate, each step applied to the previous result. `Train` is proved to end in `Optimize` with max(0, epochs) steps. |
| Predictor.Forecast | src/predictor.py:130-137 | The value `predict` returns: the window scaled value by value, one forward pass, the output unscaled value by value. `Predict` is proved to return it. |
| Predictor.PricePredictor.constructor | src/predictor.py:43-47 | Without a checkpoint file: untrained, the fresh model, an unfitted scaler. With one: trained, and the model and the five scaler fields are restored from it. The file is not touched. |
| Predictor.PricePredictor.LoadModel | src/predictor.py:49-62 | A missing file changes nothing. Otherwise the model state, the five scaler fields and `is_trained = True` are taken from the checkpoint. |
| Predictor.PricePredictor.SaveModel | src/predictor.py:64-78 | The file afterwards holds the current model state and the current scaler's five fields. |
| Predictor.PricePredictor.Train | src/predictor.py:80-120 | For a non-empty series, the scaler is refit on the whole series whether or not training goes ahead. Train fails with NotEnoughData(L + H, N) exactly when N ≤ L + H; the model, the flag, the mode, the log and the file are then unchanged. On success it runs max(0, epochs) optimizer steps on the built pairs and logs at every tenth epoch. It then sets the flag and saves exactly the new model and scaler. Trained implies fitted scaler is kept. |
| Predictor.PricePredictor.Predict | src/predictor.py:122-137 | Untrained: fails with NotTrained and changes nothing. Trained: switches to evaluation mode and returns the unscaled network output for the scaled last min(N, L) prices. The trained flag never changes. |
| Predictor.TrainThenReload | src/predictor.py:49-78 | After a successful `train`, a predictor constructed afresh from the same checkpoint file forecasts exactly what the trained one does. Training succeeds exactly when N > L + H. |
| Knowledge.TrimStartDropsLeadingSpace | src/knowledge_base.py:21 | Trimming the front removes a whitespace prefix and leaves no leading whitespace. |
| Knowledge.TrimEndDropsTrailingSpace | src/knowledge_base.py:21 | Trimming the back removes a whitespace suffix and leaves no trailing whitespace. |
| Knowledge.StripCharacterised | src/knowledge_base.py:25-26 | `strip()` leaves no leading or trailing whitespace and never lengthens. It yields "" exactly when the text is all whitespace. |
| Knowledge.Strip | src/knowledge_base.py:21 | `str.strip()` over the modelled whitespace, defined as trimming both ends. `StripCharacterised` states what it yields. |
| Knowledge.RunEnd | src/knowledge_base.py:16 | The `\s+` match extends over the whole whitespace run and stops at the first non-space. |
| Knowledge.Sentences | src/knowledge_base.py:16 | The pieces `re.split(r'(?<=[.!?])\s+', text)` returns. `SentencesSplitText` characterises them. |
| Knowledge.SplitFromIsSentenceSplit | src/knowledge_base.py:16 | The split from any position is a sentence split of the rest of the text. |
| Knowledge.SentencesSplitText | src/knowledge_base.py:16 | `re.split(r'(?<=[.!?])\s+', text)` is characterised in five parts. Putting the removed runs back between the pieces gives the text. Every removed run is non-empty whitespace. Every piece but the last is non-empty and ends in `.`, `!` or `?`. No later piece starts with whitespace. No piece contains a whitespace character right after a terminator, so every cut was made. |
| Knowledge.AddSentenceAppends | src/knowledge_base.py:20-24 | One loop step either opens a new chunk or appends to the current one. Either way the sentence sequence grows by exactly that sentence. |
| Knowledge.AddSentence | src/knowledge_base.py:20-24 | One iteration of the packing loop on the sentence groups: open a new group when the size test trips on a non-empty current chunk, otherwise append to the last group. `AddSentenceAppends` and `AddSentenceKeepsGreedy` state its effect. |
| Knowledge.GroupsOf | src/knowledge_base.py:19-24 | The sentences grouped as the packing loop groups them, one group per chunk. `GroupsOfPartition` and `GroupsOfIsGreedy` characterise it. |
| Knowledge.GroupsOfPartition | src/knowledge_base.py:19-24 | The packing keeps every sentence exactly once, in order. Every chunk gets at least one sentence, and there are no more chunks than sentences. |
| Knowledge.GroupsOfIsGreedy | src/knowledge_base.py:20-24 | The packing is the greedy one. A sentence joins the current chunk exactly when the current text is empty or current plus sentence length does not exceed `chunk_size`. |
| Knowledge.AddSentenceKeepsGreedy | src/knowledge_base.py:20-24 | One loop step keeps the grouping greedy: every group grew by appending under the size test, and every later group was opened on overflow. |
| Knowledge.GroupTextBound | src/knowledge_base.py:20-24 | A chunk that packed two or more sentences is at most `chunk_size + 1` characters long, since the size test ignores the joining space. |
| Knowledge.MultiSentenceGroupsStartClosed | src/knowledge_base.py:16-24 | A chunk with two or more sentences starts with a sentence that ends in a terminator. |
| Knowledge.ChunkText | src/knowledge_base.py:14-27 | The loop returns `ChunksOf(text, chunk_size)`. Its invariant ties `current` to the text of the group being built and the chunk list to the stripped closed groups. |
| Knowledge.ChunksOf | src/knowledge_base.py:25-27 | The chunk list is never empty. |
| Knowledge.ChunksAreStripped | src/knowledge_base.py:21-27 | Every chunk is stripped. The only exception is the fallback, which returns the text itself and happens only for an all-whitespace text. |
| Knowledge.ChunkOfGroup | src/knowledge_base.py:19-26 | Chunk k is the stripped text of the k-th group of sentences, for every closed group and for a last group that is not blank. |
| Knowledge.MultiSentenceChunkBound | src/knowledge_base.py:20-26 | A chunk packed from two or more sentences is really returned, as the stripped text of its group, and is at most `chunk_size + 1` characters long. |
| Knowledge.EntryChunks | src/knowledge_base.py:43-45 | Every entry contributes at least one titled chunk. |
| Knowledge.Titled | src/knowledge_base.py:45 | One `title: chunk` string per chunk. |
| Knowledge.IndexChunks | src/knowledge_base.py:41-45 | The chunk list `_build_index` builds: the entries' titled chunks, entry after entry. `IndexCoversEntries` and `IndexChunksStep` state its properties. |
| Knowledge.IndexCoversEntries | src/knowledge_base.py:41-47 | The index has at least as many chunks as there are entries, and is empty exactly when there are no entries. |
| Knowledge.IndexChunksStep | src/knowledge_base.py:42-45 | Indexing one more entry appends exactly its titled chunks. |
| Knowledge.KnowledgeBase.constructor | src/knowledge_base.py:33-37 | The new index holds the entries' titled chunks, entry after entry. The matrix is present exactly when there are entries, and was fitted on the chunks. |
| Knowledge.KnowledgeBase.BuildIndex | src/knowledge_base.py:39-52 | Resets the chunk list and refills it with the entries' titled chunks in order. The matrix is fitted on them when there are any, else dropped. |
| Knowledge.KnowledgeBase.AppendEntryChunks | src/knowledge_base.py:42-45 | The inner loop appends one entry's titled chunks to the list and leaves the matrix alone. |
| Knowledge.KnowledgeBase.Rebuild | src/knowledge_base.py:54-56 | The index afterwards depends only on the current entries. The matrix is present exactly when there are entries. |
| Knowledge.KnowledgeBase.Search | src/knowledge_base.py:58-65 | Returns [] when there are no chunks or no matrix. Otherwise it returns the chunks at the selected indices, in selection order, each one of the indexed chunks, and at most `top_k` of them when `top_k ≥ 1`. |
| Knowledge.TailStart | src/knowledge_base.py:64 | `a[-k:]` keeps the last min(k, n) entries for k ≥ 1, and everything for k = 0. |
| Knowledge.Reverse | src/knowledge_base.py:64 | `[::-1]` puts entry n−1−k at position k. |
| Knowledge.AboveThreshold | src/knowledge_base.py:65 | Keeps only indices scoring above 0.05, taken from the candidates. |
| Knowledge.AboveThresholdKeepsAll | src/knowledge_base.py:65 | Every candidate scoring above 0.05 is kept. |
| Knowledge.AboveThresholdKeepsOrder | src/knowledge_base.py:64-65 | Filtering keeps a best-first, repetition-free candidate list best-first and repetition-free. |
| Knowledge.Selected | src/knowledge_base.py:64-65 | Every selected index scores above 0.05, and at most `top_k` are selected when `top_k ≥ 1`. |
| Knowledge.SelectedIsDescending | src/knowledge_base.py:64-65 | The selection is in non-increasing score order and repeats no chunk, for any valid argsort (ties in any order). |
| Knowledge.TailMemberSelected | src/knowledge_base.py:64-65 | Every chunk ranked in the kept top slice and scoring above 0.05 is returned. |
| Knowledge.LeftOutScoresNoHigher | src/knowledge_base.py:64-65 | A chunk above the threshold that was not returned scores no higher than any returned chunk. |
| Knowledge.WholeRankingSelectsAll | src/knowledge_base.py:64-65 | With `top_k` 0 or at least the number of chunks, every chunk above the threshold is returned. |

## Left out

- `PriceLSTM`, the Adam optimizer, the MSE loss and the torch tensors (src/predictor.py:15-37, 101-113): floating-point numerics in a foreign library. They are the given `step` and `forward` functions.
- The `MinMaxScaler` arithmetic: `fit`, `scale` and `unscale` are given functions, and no round trip between scaling and unscaling is claimed.
- Predictor.PricePredictor.Train: an empty series is not modelled as the scaler's error. In the program, `fit_transform` raises before the size check and the scaler's fitted attributes have been reset. A predictor trained before is then left with `is_trained` true and no fitted scaler. The model instead returns NotEnoughData(L + H, 0) with the scaler fitted by the given `fit`. The scaler library's own state is also not modelled beyond the five checkpoint fields. That library may require attributes `_load_model` does not restore, which could make retraining a loaded predictor fail, and that is not captured either.
- Predictor.PricePredictor.Train: the optimizer is idealised as a `step` function of the model state alone. Adam's moment estimates, created once per `train` call and carried from step to step, and dropout's randomness in training mode are not modelled.
- Predictor.PricePredictor.Predict: an empty history is not an error in the model. In the program the scaler's `transform` raises on an empty array, while the model returns the forecast the given functions compute for an empty window.
- float32 conversion, NaN and infinity: prices are mathematical reals.
- `torch.load` of a corrupt or unreadable checkpoint, a failing `torch.save`, and the directory creation before saving: file I/O outside the program. A checkpoint is either absent or well formed.
- Log message text: only which epochs log a loss line is modelled (`lossLog`). The other log lines carry no state.
- The regular-expression engine: `\s` is modelled as six ASCII whitespace characters (space, tab, line feed, carriage return, vertical tab, form feed). The ASCII separators `\x1c` to `\x1f`, which Python's `\s` and `str.strip()` also treat as whitespace, are not whitespace in the model. Neither are Unicode whitespace characters such as a no-break space.
- TF-IDF vectorisation and cosine similarity: `search` takes the similarity scores and their argsort as inputs. The argsort is any permutation with non-decreasing scores, because numpy's order among tied scores is not pinned down. The vectorizer itself is not modelled, so it is not modelled either that an emptied index keeps its previously fitted vectorizer.
- `Formatter.FindBestWindow`: the width is a natural number. A negative width uses Python's negative slicing and is not modelled.
- `format_current_prices` (src/formatter.py:59-80): it reads the wall clock and renders bar charts. Also left out is the message text of `format_price_forecast` (lines 40-56): currency, emoji and number formatting.
- The bot, the database, the AI engine, the price fetcher, the scheduler and the configuration module: transport, SQL, network calls and wiring around this core.
- Concurrency: the core has none.
- `Knowledge.KnowledgeBase.AppendEntryChunks`: the inner loop of `_build_index` is a method of its own rather than inline, with the same effect on the chunk list.
