# KG-RAG multiple-choice evaluation driver, modelled in Dafny

This project models the decision logic of the script that runs a language
model over a table of multiple-choice questions with knowledge-graph context
(`kg_rag/rag_based_generation/GPT/run_mcq_qa.py`). Three pieces are modelled:

- **Start-up configuration.** The prior knowledge is resolved, and a non-empty
  `--prior_knowledge_path` overrides the literal `--prior_knowledge`. The
  output file name is built from the model id, the mode and the start
  timestamp. Modes 2 and 3 without prior knowledge are refused first; then any
  mode outside "0".."4" is refused, and that includes a missing `--mode`.
- **Per-mode dispatch.** Each mode selects a retrieval shape: flat, with the
  `mode_4` gene-filter flag, or JSON. Each mode also selects a prompt
  template, with or without the "IMPORTANT NOTES" block.
- **The batch loop.** This is a fold over the question table. Each index is
  skipped (a "Skipped" row), stops the loop, or is attempted. An attempt
  appends the model's answer on success and nothing on failure, and then
  rewrites the whole output file. A run leaves behind a `Trace` with four
  parts: the rows, the index each row came from, the attempted indices, and
  the successive contents of the output file.

Modules:

- `Text`: Python's `split`/`join` on one character, and the decimal
  rendering of the timestamp.
- `Config`: modes, arguments, validation and the save name.
- `Prompt`: retrieval shape and prompt text.
- `Batch`: the loop as a fold, plus an independent closed-form `Reference`
  proved equal to it.
- `BatchLoop`: the loop written as the script's `for`/`continue`/`break`.
- `BatchLaws`: the properties of a run.
- `Driver`: the pipeline of one attempt, the whole script, and facts about
  the script's own window `start_index - 1 <= index <= end_index`.

Retrieval and the model call are parameters of the model (`Driver.Env`).
Retrieval is a function from question text and retrieval shape to a context,
or to a failure. The model is a function from (index, prompt) to an answer,
or to a failure. The index is there because the model is not deterministic.
Any exception in either call is the per-item failure path.

Points where the loop's behaviour is easy to misread, stated against the
code of `run_mcq_qa.py`:

- The `--end_index` help text (line 81) calls the index exclusive, with
  default 306. The loop stops only on `index > end_index` (line 120), so
  index `end_index` is attempted (`Driver.EndIndexInclusive`). The default
  run therefore attempts 307 indices when the table has that many rows.
- The skip test is `index < start_index - 1` (line 117), so index
  `start_index - 1` is attempted. Take three questions with
  `start_index = 2` and `end_index = 2`. Only row 0 is skipped, and indices
  1 and 2 are attempted (`Driver.StartTwoEndTwo`).
- The `continue` of a skip and the `break` of a stop bypass the save at
  lines 193-197. Only attempted iterations write, whether they succeed or
  fail. A run that attempts nothing writes no file at all, even when it has
  produced skipped rows (`Driver.SkipRowsPastEnd`).
- The output holds at most `end_index + 1` rows when
  `start_index <= end_index + 2` and `end_index >= -1` (`Driver.RowBound`).
  Outside those conditions the skip rows can run beyond `end_index`:
  `Driver.SkipRowsPastEnd` has 4 rows with `end_index = 1`.

## Model

| member | source | states |
|---|---|---|
| Text.Split | kg_rag/rag_based_generation/GPT/run_mcq_qa.py:99 | Like Python's `split` on one character: at least one piece, no piece contains the separator, and there is one more piece than separators. |
| Text.JoinSplitIsReplace | kg_rag/rag_based_generation/GPT/run_mcq_qa.py:99 | Joining the pieces of `split("-")` with "_" is exactly replacing every "-" by "_", position by position. |
| Text.SplitJoinRoundTrip | kg_rag/rag_based_generation/GPT/run_mcq_qa.py:99 | Splitting on a character and joining with the same character gives the model id back, so the split loses nothing. |
| Text.DecimalRoundTrip | kg_rag/rag_based_generation/GPT/run_mcq_qa.py:99 | The decimal digits of the timestamp read back as the same number. |
| Text.DecimalInjective | kg_rag/rag_based_generation/GPT/run_mcq_qa.py:99 | Different timestamps render as different digit strings. |
| Config.ParseMode | kg_rag/rag_based_generation/GPT/run_mcq_qa.py:102-107 | A mode is accepted exactly when the option is present and is one of "0".."4". |
| Config.ModeNameRoundTrip | kg_rag/rag_based_generation/GPT/run_mcq_qa.py:102 | Naming a mode and parsing the name are inverse to each other. |
| Config.DefaultArgs | kg_rag/rag_based_generation/GPT/run_mcq_qa.py:63-82 | Without flags, `start_index` is 0 and `end_index` is 306, and there is no prior knowledge. |
| Config.ResolvePriorKnowledge | kg_rag/rag_based_generation/GPT/run_mcq_qa.py:89-95 | A non-empty path overrides the literal with the file's contents. An unreadable path is an error. Without a path, the literal (possibly absent) is kept. |
| Config.SaveNameShape | kg_rag/rag_based_generation/GPT/run_mcq_qa.py:98-100 | The save name is the model id with "-" replaced by "_", then "_kg_rag_based_mcq_", the mode (or "None"), "_", the timestamp digits and ".csv". Its length adds up, and the id part has no "-". |
| Config.SaveNameDistinguishesRuns | kg_rag/rag_based_generation/GPT/run_mcq_qa.py:98-100 | Two runs of one model and mode at different timestamps never share an output file name. |
| Config.Validate | kg_rag/rag_based_generation/GPT/run_mcq_qa.py:89-107 | Success exactly when the prior knowledge resolves, the mode is valid, and modes 2/3 have prior knowledge. A success carries the parsed mode, the resolved prior knowledge, the indices and the save name. An unreadable path gives `UnreadablePriorKnowledge(path)` whatever the mode, because the file is opened first. A missing-knowledge error comes exactly for modes "2"/"3" without knowledge, even before the mode check. Otherwise an invalid or missing mode gives `InvalidMode` carrying the given option. |
| Config.EmptyStringsAsTheScriptTreatsThem | kg_rag/rag_based_generation/GPT/run_mcq_qa.py:89-104 | An empty path is ignored like an absent one. An empty literal still counts as prior knowledge for modes 2/3, because the test is `is None`. |
| Config.PathOverridesLiteral | kg_rag/rag_based_generation/GPT/run_mcq_qa.py:93-95 | With a readable path and a valid mode, the validated prior knowledge is the file's contents, whatever the literal was. |
| Prompt.RetrievalFor | kg_rag/rag_based_generation/GPT/run_mcq_qa.py:126-151 | Modes 0, 2 and 4 use flat retrieval, with the `mode_4` flag exactly for mode 4. Modes 1 and 3 use JSON retrieval. |
| Prompt.BuildPrompt | kg_rag/rag_based_generation/GPT/run_mcq_qa.py:157-175 | The prompt starts with "Context: " + context + newline and ends with "Question: " + question. Its length includes the notes block exactly in modes 2 and 3. The notes block needs prior knowledge in those modes. |
| Prompt.PlainModesShareTemplate | kg_rag/rag_based_generation/GPT/run_mcq_qa.py:157-158 | Modes 0, 1 and 4 build the same prompt and ignore prior knowledge. |
| Prompt.NotesInsertedAfterContext | kg_rag/rag_based_generation/GPT/run_mcq_qa.py:160-175 | A mode 2/3 prompt is the plain prompt with "IMPORTANT NOTES:" + newline + knowledge + newline inserted after the context line. |
| Prompt.NotesModesShareTemplate | kg_rag/rag_based_generation/GPT/run_mcq_qa.py:126-175 | Modes 2 and 3 build the same prompt and differ only in the retrieval they ask for. |
| Batch.Classify | kg_rag/rag_based_generation/GPT/run_mcq_qa.py:117-121 | An index is skipped exactly when below the skip bound. It stops the loop exactly when it is not skipped and lies past the last index. |
| Batch.RunFrom | kg_rag/rag_based_generation/GPT/run_mcq_qa.py:115-197 | Every trace the loop reaches has one origin per row and one write per attempt, and it mentions only indices of the question table. |
| Batch.Answered | kg_rag/rag_based_generation/GPT/run_mcq_qa.py:181-191 | The attempts in an index range contribute one answer row per successful attempt and none per failed one, in increasing index order, each row from its own question. |
| Batch.RunMatchesReference | kg_rag/rag_based_generation/GPT/run_mcq_qa.py:115-197 | The loop equals the closed form. The first `min(n, max(0, skipBelow))` rows are skip rows. Then come the answers of the successful attempts in the window. Attempts are the consecutive window indices, and write `j` holds the skipped prefix plus the answers up to the `j`-th attempt. |
| BatchLoop.RunLoop | kg_rag/rag_based_generation/GPT/run_mcq_qa.py:110-199 | The loop with `continue`, `break` and the trailing save leaves behind the fold's trace, and hence the closed form. |
| BatchLaws.SkippedPrefix | kg_rag/rag_based_generation/GPT/run_mcq_qa.py:117-119 | An index below the skip bound gets the row (text, correct answer, "Skipped") at its own position, and its pipeline is never invoked. |
| BatchLaws.AttemptedWindow | kg_rag/rag_based_generation/GPT/run_mcq_qa.py:117-121 | An index is attempted exactly when it exists and `skipBelow <= i <= lastIndex`. Attempts happen in increasing order. |
| BatchLaws.RowsInOrder | kg_rag/rag_based_generation/GPT/run_mcq_qa.py:115-183 | Rows appear in strictly increasing order of the question index they come from. |
| BatchLaws.RowProvenance | kg_rag/rag_based_generation/GPT/run_mcq_qa.py:117-183 | Every row is either the skip row of an index below the skip bound, or the answer of a successful attempt at an index in the window. |
| BatchLaws.FailedAttemptLeavesNoRow | kg_rag/rag_based_generation/GPT/run_mcq_qa.py:181-191 | An attempted index has a row exactly when its attempt succeeded, so a failure leaves its row missing. |
| BatchLaws.RowCount | kg_rag/rag_based_generation/GPT/run_mcq_qa.py:115-121 | There are never more rows than questions. If the skip bound does not pass `lastIndex + 1`, there are at most `lastIndex + 1` rows. Otherwise nothing is attempted and the rows are exactly the skipped prefix. |
| BatchLaws.WriteContents | kg_rag/rag_based_generation/GPT/run_mcq_qa.py:193-197 | Write `j` comes from the `j`-th attempted index and holds the skipped prefix plus the answers up to that index. |
| BatchLaws.WriteIsPrefix | kg_rag/rag_based_generation/GPT/run_mcq_qa.py:193-197 | Each write is a prefix of the final answer list, so a later write never contradicts an earlier one. |
| BatchLaws.WriteCut | kg_rag/rag_based_generation/GPT/run_mcq_qa.py:183-197 | Write `j` holds exactly the rows from indices up to the `j`-th attempted index. The saved table is the whole answer list as it stood after that attempt. |
| BatchLaws.WriteAfterAttempt | kg_rag/rag_based_generation/GPT/run_mcq_qa.py:183-197 | After a failed attempt, the file is rewritten with the previous contents unchanged. After a success, it gains exactly that answer row. |
| BatchLaws.FinalWrite | kg_rag/rag_based_generation/GPT/run_mcq_qa.py:115-197 | There is one write per attempted index and none for skips or the stop. No attempt means no write. Otherwise the last write holds the final answer list. |
| Driver.AttemptQuestion | kg_rag/rag_based_generation/GPT/run_mcq_qa.py:123-183 | An attempt fails when retrieval with the mode's shape fails. Otherwise it is the model's outcome on the mode's prompt over the retrieved context. |
| Driver.PlainModesIgnorePriorKnowledge | kg_rag/rag_based_generation/GPT/run_mcq_qa.py:157-158 | In modes 0, 1 and 4, an attempt has the same outcome whatever the prior knowledge. |
| Driver.Evaluate | kg_rag/rag_based_generation/GPT/run_mcq_qa.py:85-199 | A configuration error stops the run before any question, with the validation error. Otherwise the attempted indices are exactly the existing indices with `start_index - 1 <= i <= end_index`. |
| Driver.SkipBelowStartMinusOne | kg_rag/rag_based_generation/GPT/run_mcq_qa.py:117-119 | Each index below `start_index - 1` gets a "Skipped" row at its own position and is never attempted. |
| Driver.StartMinusOneAttempted | kg_rag/rag_based_generation/GPT/run_mcq_qa.py:117-121 | Index `start_index - 1` is attempted, not skipped, when it exists and does not pass `end_index`. |
| Driver.EndIndexInclusive | kg_rag/rag_based_generation/GPT/run_mcq_qa.py:120-121 | `end_index` itself is attempted when it exists and is not skipped. No attempted index exceeds `end_index`. |
| Driver.AnswersInsideWindow | kg_rag/rag_based_generation/GPT/run_mcq_qa.py:117-183 | Every row that does not come from below `start_index - 1` is a successful answer from an index in `[start_index - 1, end_index]`. |
| Driver.RowBound | kg_rag/rag_based_generation/GPT/run_mcq_qa.py:115-121 | With `start_index <= end_index + 2` and `end_index >= -1`, the output has at most `min(questions, end_index + 1)` rows. |
| Driver.StartTwoEndTwo | kg_rag/rag_based_generation/GPT/run_mcq_qa.py:117-121 | For three questions with start 2 and end 2: row 0 is skipped, indices 1 and 2 are attempted, and the two writes are the list after each attempt. |
| Driver.SkipRowsPastEnd | kg_rag/rag_based_generation/GPT/run_mcq_qa.py:117-121 | For six questions with start 5 and end 1: four skip rows, more than `end_index + 1`, with no attempt and no write. |
| Driver.AllFailuresKeepOnlySkips | kg_rag/rag_based_generation/GPT/run_mcq_qa.py:188-197 | When every attempt fails, the output holds only skip rows, and every write repeats the final list. |

## Left out

- The retrieval utilities (`retrieve_context`, `retrieve_context_json`): similarity scoring, percentile thresholding and the context budget live in `kg_rag.utility`, which is not part of this model. They appear only as the `retrieve` parameter, with no property assumed. Their JSON result is taken to be a string. If it were not, the concatenation would raise, and that falls under the same failure path.
- `get_Gemini_response`, the system prompt and the temperature: this is a remote call, modelled as the `generate` parameter of `Driver.Env`.
- Loading Chroma, the sentence transformer, the node-context table, the configuration and the system prompts at import time: file and library I/O.
- pandas reads and writes, `os.path.join` and the output directory: a write is modelled as the snapshot of the answer list it stores.
- argparse mechanics: the parsed arguments are the `Config.Args` value. `time.time_ns` is an input timestamp. `time.time`, `time.sleep(10)`, prints, logging and tqdm's fixed total of 306 affect timing and display only.
- Config.Validate: treats the mode-membership `assert` at line 107 as always active. Under `python -O` that assert is removed, so an invalid mode passes start-up. Every attempted index would then raise the `ValueError` at line 155, inside the `try`. The result would be one write per attempted index and no answer rows. The model does not cover running without assertions.
- The `else: raise ValueError` branches inside the loop (lines 153-155 and 178-179): these are unreachable once the mode is validated, so `Config.Mode` has exactly five cases and dispatch is total.
- The model id and the `edge_evidence = False` flag passed to retrieval are fixed for a run, so they are part of the `retrieve` parameter.
- The question table's index: rows are numbered 0.. in order, as `iterrows` does on the default index of a table read from CSV.
- A missing prior-knowledge file: `open` raises an uncaught error, which `Config.ConfigError.UnreadablePriorKnowledge` represents. Other I/O errors at start-up are not modelled.
