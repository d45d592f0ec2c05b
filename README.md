# LLM benchmark harness: a Dafny model of its bookkeeping core

The harness benchmarks local GGUF model files. `run_benchmark` finds the model
files. It opens one session in a SQLite store and then handles each file in
turn:

- It registers the file in the Models table. The key is the file's basename,
  and a quantization label is guessed from the name.
- It loads the file through the `ModelLoader` context manager.
- It runs every active prompt on the loaded model and writes one Result row per
  prompt. A load failure instead writes one error row with no prompt.
- It releases the model before moving on.

At the end the session is closed as completed. `import_prompts_from_file` fills
the Prompts table from a text file. Each non-blank line is `category | text`, or
just `text`, which goes under "General".

The model has eight modules, one file each:

| file | module | models |
|---|---|---|
| `wrappers.dfy` | `Wrappers` | `Option`: Python's `None` and SQL NULL |
| `pytext.dfy` | `PyText` | the Python string operations the scripts use: `str.strip()`, `sep in s`, `str.split(sep)`, `str.split(sep, 1)`, POSIX `os.path.basename` |
| `registry.dfy` | `Registry` | `register_model`, the quantization guess, and the Models table's integrity (rowid = position + 1, unique filenames) |
| `sessions.dfy` | `Sessions` | `register_session`, the progress update and `update_session_status` on the Sessions table |
| `throughput.dfy` | `Throughput` | the tokens-per-second rule |
| `loader.dfy` | `Loader` | the `ModelLoader` class with its `__enter__`/`__exit__` state |
| `benchmark.dfy` | `Benchmark` | the store as a class, `run_benchmark` as methods with loops, and a functional specification `RunSpec` of a whole run with lemmas about it |
| `import_prompts.dfy` | `PromptImport` | the per-line parse as pure functions, and the import loop as a method on a `PromptTable` class |

## How the specification is built

Pure parts of the source are pure functions: the quantization guess,
`register_model`'s effect on the table, the tps rule, and the per-line split of
the import.

The mutating parts are imperative Dafny:

- The store is a class `Store` with one `seq` field per table.
- Each SQL statement is one method on `Store`, except `RegisterModel`. That
  method is all of `register_model`: the lookup at `llm_benchmark.py:57-58` and,
  for a new name, the insert at `llm_benchmark.py:72-76`.
- `run_benchmark`'s main loop is split into two methods. `BenchmarkModel` is one
  turn of the loop, with an inner loop over the prompts. `BenchmarkModels` is
  the loop over the files.
- The import is `PromptTable.ImportFromFile`, with a `for` loop.

Each method is proved against a function. `RunBenchmark` ends in exactly the
state `RunSpec` describes. `ImportFromFile` appends exactly `ParseLines(lines)`.
The properties are then proved as lemmas about those functions.

Everything outside the process is an input:

- An `Oracle` gives, for the `i`-th file visited:
  - the file size;
  - whether `Llama(...)` accepts the file;
  - what `create_completion` returns for the `j`-th prompt. That is the text,
    the completion-token count and the elapsed seconds, or the message of the
    exception raised.
- The clock reading stored as `end_time` is a parameter `now`.
- The globbed file list and the active prompts are parameters.
- For the import, whether the file exists and its lines are parameters.

### `models_completed` counts only models that loaded

A load failure reaches the `continue` at `llm_benchmark.py:145`. That skips the
progress update at `llm_benchmark.py:186-188`, so a model that fails to load is
never counted. With one valid and one corrupt file, the counter ends at 1 of 2.

The model states this:

- The closing counter is `LoadedCount`, the number of files that loaded (`RunSession`).
- The counter equals the declared total exactly when every file loaded (`CompletedIffAllLoaded`).
- With one valid and one corrupt file and three prompts, the counter is 1 (`ValidAndCorruptScenario`).

## Model

| member | source | states |
|---|---|---|
| `Registry.GuessQuantization` | llm_benchmark.py:63-70 | Computes the guess: "Unknown" without a `.Q`, otherwise `"Q"` and the first `.`-separated field of the second `.Q`-separated piece (`GuessShape` and `GuessAfterMarker` characterise it). |
| `Registry.FindModel` | llm_benchmark.py:57-58 | Computes the position of the first row with the filename, or `None` (`FindModelFirst` characterises it). |
| `Registry.Register` | llm_benchmark.py:51-77 | Computes the Models table after `register_model`, and the id it returns: the stored row's id for a known basename, otherwise the table with one new row with the next rowid (`RegisterFacts`, `RegisterExisting` and `RegisterNew` characterise it). |
| `Registry.GuessShape` | llm_benchmark.py:63-70 | The guess is "Unknown" exactly when the file name has no `.Q`. Otherwise it is a label that starts with `Q` and contains no `.`. |
| `Registry.GuessAfterMarker` | llm_benchmark.py:65-68 | With a `.Q` in the name, the guess is `Q` followed by the text after the first `.Q`, up to the next `.` or the end of the name. |
| `Registry.MarkerAfterBase` | llm_benchmark.py:65-67 | When the base has no `.Q`, the first `.Q` in `base + ".Q" + rest` is the one right after the base, whatever `rest` holds. |
| `Registry.GuessOfMarked` | llm_benchmark.py:65-68 | When the base has no `.Q`, the guess for `base + ".Q" + rest` is `Q` followed by the text of `rest` before its first `.`. |
| `Registry.GuessOfLabelledName` | llm_benchmark.py:63-68 | For any name `<base>.Q<quant>.<extension>` whose base has no `.Q` and whose label has no `.`, the guess is `Q<quant>`. The rest of the name is arbitrary. |
| `Registry.GuessExample` | llm_benchmark.py:63 | The example in the source's comment, `llama-2-7b.Q4_K_M.gguf`, is labelled `Q4_K_M`. |
| `Registry.FindFromFirst` | llm_benchmark.py:57-58 | The lookup from position `i` returns the first row at or after `i` with that filename, or nothing when no such row exists. |
| `Registry.FindModelFirst` | llm_benchmark.py:57-58 | `SELECT ... WHERE filename = ?` with `fetchone()` returns the first row with that filename, or nothing when no row has it. |
| `Registry.IdOfExtended` | llm_benchmark.py:57-61 | Rows added later never change the id found for a name the table already holds. |
| `Registry.AppendedFound` | llm_benchmark.py:72-77 | A row inserted under a new filename is the row found for that filename afterwards. Earlier rows are untouched. |
| `Registry.RegisterFacts` | llm_benchmark.py:51-77 | Registration only appends. It adds a row exactly when the basename is new. Afterwards the table holds the returned id for the basename. |
| `Registry.RegisterExisting` | llm_benchmark.py:57-61 | A file whose basename is already stored gets that row's id back, and the table is left unchanged. |
| `Registry.RegisterNew` | llm_benchmark.py:51-77 | A file with a new basename adds exactly one row: the basename, the full path, the guessed quantization, the size, and the next rowid, which is what the call returns. |
| `Registry.RegisterWellFormed` | llm_benchmark.py:51-77 | Registration keeps rowids positional and filenames unique. |
| `Registry.RegisterIdempotent` | llm_benchmark.py:51-77 | Registering a second path with the same basename adds no row and returns the first registration's id. This covers registering the same file twice. |
| `Registry.IdsIdentifyModels` | llm_benchmark.py:57-61 | In a well-formed table, one id belongs to one filename. |
| `Sessions.Open` | llm_benchmark.py:31-39 | Opening a session appends one row and returns its id. The row is `running`, with the given description and totals, a counter of 0 and no end time. Earlier rows are unchanged, and positional ids are kept. |
| `Sessions.Advance` | llm_benchmark.py:186-188 | Every row with the given id gains exactly one completed model. No other field and no other row changes. |
| `Sessions.Close` | llm_benchmark.py:41-49 | Rows with the given id take the new status and the end time `now`. Every other field and row stays as it was. |
| `Sessions.AdvanceTimesCounter` | llm_benchmark.py:186-188 | In a well-formed table, `n` progress updates raise that one session's counter by `n` and change nothing else. |
| `Sessions.AdvanceOnlyThatSession` | llm_benchmark.py:186-188 | In a well-formed table, one progress update changes exactly the row at that id's position. |
| `Sessions.CloseOnlyThatSession` | llm_benchmark.py:44-48 | In a well-formed table, closing a session changes exactly the row at that id's position. |
| `Throughput.TokensPerSecond` | llm_benchmark.py:165 | For a positive duration, tps × duration = tokens. For any other duration the rate is 0, so nothing is divided by zero. The rate is never negative when the token count is not. |
| `Loader.ModelLoader.constructor` | llm_benchmark.py:81-83 | A new loader holds its path and no model. |
| `Loader.ModelLoader.Enter` | llm_benchmark.py:85-97 | A successful load holds the model for the loader's path and returns it. A failed load returns `None` and loads nothing. |
| `Loader.ModelLoader.Exit` | llm_benchmark.py:99-104 | A model is released exactly when one is held. Afterwards nothing is held. |
| `Benchmark.LoadFailureRow` | llm_benchmark.py:137-145 | The row written when a file does not load: session, model, NULL prompt, NULL measurement, and the message "Failed to load model file". |
| `Benchmark.PromptResults` | llm_benchmark.py:148-183 | Computes the rows of a loaded model: `PromptResult` for each active prompt, in prompt order. |
| `Benchmark.ModelResults` | llm_benchmark.py:137-183 | Computes the rows one file contributes: the load-failure row, or `PromptResults` (`ModelResultsLength` and `ModelResultsShape` characterise it). |
| `Benchmark.ModelsAfter` | llm_benchmark.py:130-131 | Computes the Models table after the first `n` files are registered in visiting order. |
| `Benchmark.RunRows` | llm_benchmark.py:130-183 | Computes the Result rows of the first `n` files in visiting order, file `i` under model id `ids[i]`. |
| `Benchmark.LoadedCount` | llm_benchmark.py:130-188 | Computes how many of the first `n` files load, which is how many progress updates run. |
| `Benchmark.PromptResult` | llm_benchmark.py:148-183 | Each row carries the session, the model and the prompt. A completion gives its text, duration, tokens and tps, with no error. An exception gives its message, with every measurement NULL. |
| `Benchmark.ModelResultsLength` | llm_benchmark.py:136-183 | A file that fails to load contributes one row. A file that loads contributes one row per active prompt. |
| `Benchmark.ModelResultsShape` | llm_benchmark.py:136-183 | Every row of a file carries its session and model, and holds either a measurement or an error. A load failure gives the single NULL-prompt "Failed to load model file" row. Otherwise row `j` is the row of prompt `j`. |
| `Benchmark.RunSpec` | llm_benchmark.py:114-123 | A run opens a session exactly when there is at least one file and one active prompt. Without one, the store is unchanged. |
| `Benchmark.LoadedCountAtMost` | llm_benchmark.py:137-188 | The progress counter never exceeds the number of files. It equals that number exactly when every file loaded. |
| `Benchmark.ModelsAfterWellFormed` | llm_benchmark.py:130-131 | Registering the visited files keeps the Models table well formed. |
| `Benchmark.ModelsAfterGrows` | llm_benchmark.py:130-131 | Registering the visited files only appends to the Models table. |
| `Benchmark.ModelsAfterFound` | llm_benchmark.py:130-131 | After the first `n` turns, every file visited so far is found by its basename. |
| `Benchmark.RunRowsAgree` | llm_benchmark.py:130-183 | The rows of the first `n` files depend only on those files' model ids. |
| `Benchmark.FileIdsStable` | llm_benchmark.py:130-131 | Registering later files never changes the id of a file registered earlier. |
| `Benchmark.RunRowsStep` | llm_benchmark.py:130-183 | Writing a file's rows under the id that registration returned agrees with reading the ids back from the final Models table. |
| `Benchmark.RunRowsCount` | llm_benchmark.py:136-183 | The first `n` files produce `|prompts|` rows for each file that loads and one row for each that does not. |
| `Benchmark.RunRowsPrefix` | llm_benchmark.py:130-183 | Rows written in earlier turns are never rewritten. They stay a prefix of the Results written later. |
| `Benchmark.RunRowsBlock` | llm_benchmark.py:130-183 | The `i`-th file's rows form one contiguous block. The block sits right after the rows of the files before it, so each file is visited exactly once, in order. |
| `Benchmark.LoopStep` | llm_benchmark.py:130-188 | One turn takes the store after `i` turns to the store after `i + 1` turns: register the file, append its rows, and advance the session exactly when the file loaded. |
| `Benchmark.RunSession` | llm_benchmark.py:126-190 | A run with files and prompts adds exactly one session, with the next id: description "Benchmark Run", the run's totals, a counter equal to the number of loaded models, status `completed` and end time `now`. Older sessions are unchanged. |
| `Benchmark.RunResults` | llm_benchmark.py:130-183 | A run appends only the files' rows, in visiting order, under the new session and each file's stored model id. It appends `|prompts|` rows per loaded file and one per failed file. |
| `Benchmark.RunModels` | llm_benchmark.py:130-131 | A run only appends to the Models table and keeps it well formed. A run with prompts leaves every visited file registered. |
| `Benchmark.CompletedIffAllLoaded` | llm_benchmark.py:130-190 | The closed session's counter is at most its declared number of models. It equals that number exactly when every model loaded. |
| `Benchmark.ValidAndCorruptScenario` | llm_benchmark.py:106-192 | Two files, a valid one and then a corrupt one, with three prompts: four new Result rows, the last a NULL-prompt load-failure row. The session is completed, with a counter of 1 out of 2. |
| `Benchmark.Store.RegisterSession` | llm_benchmark.py:31-39 | `register_session` on the store: its Sessions table becomes `Open`'s result, and the new id is returned. The other tables are untouched. |
| `Benchmark.Store.UpdateSessionStatus` | llm_benchmark.py:41-49 | `update_session_status` on the store closes the session, as `Close` describes. The other tables are untouched. |
| `Benchmark.Store.AdvanceSession` | llm_benchmark.py:186-188 | The progress update on the store, as `Advance` describes. The other tables are untouched. |
| `Benchmark.Store.RegisterModel` | llm_benchmark.py:51-77 | `register_model` on the store: after the lookup, and the insert when the name is new, its Models table and returned id are `Register`'s. |
| `Benchmark.Store.InsertResult` | llm_benchmark.py:140-143 | One insert appends exactly one Result row and touches nothing else. |
| `Benchmark.BenchmarkModel` | llm_benchmark.py:130-188 | One loop turn: register the file; write the load-failure row, or one row per prompt in order; advance the session only when the file loaded. The turn's loader is fresh and released when the turn ends. |
| `Benchmark.BenchmarkModels` | llm_benchmark.py:130-188 | The main loop over the files leaves the store exactly as the specification of the first `|files|` turns describes. |
| `Benchmark.RunBenchmark` | llm_benchmark.py:106-192 | `run_benchmark` leaves the store exactly as `RunSpec` describes. The method also hands back the id of the session it opened, which the source only prints (see "## Left out"). The lemmas above are about `RunSpec`. |
| `PyText.Strip` | import_prompts.py:18 | Computes `str.strip()`: the string without leading and trailing whitespace (`StripSpec` characterises it). |
| `PyText.Basename` | llm_benchmark.py:53 | Computes POSIX `os.path.basename`: the text after the last `/` (`BasenameIsLastComponent` characterises it). |
| `PyText.StripSpec` | import_prompts.py:18 | `strip()` keeps the span between a run of leading whitespace and a run of trailing whitespace. The kept text neither starts nor ends with whitespace. |
| `PyText.StripEmptyIffBlank` | import_prompts.py:19 | A line strips to the empty string exactly when it is all whitespace. |
| `PyText.StripIdempotent` | import_prompts.py:24-25 | Stripping twice is the same as stripping once. |
| `PyText.StripUntrimmed` | import_prompts.py:18 | A string with no whitespace at either end is its own `strip()`. |
| `PyText.StripKeepsAbsent` | import_prompts.py:18 | `strip()` never introduces a character. |
| `PyText.ContainsChar` | import_prompts.py:22 | `"|" in line` holds exactly when the character occurs in the line. |
| `PyText.NoDotNoMarker` | llm_benchmark.py:65 | A name with no `.` contains no `.Q`. |
| `PyText.IndexOf` | llm_benchmark.py:65 | The position found is the first occurrence of the separator. Finding none means there is no occurrence. |
| `PyText.Split` | llm_benchmark.py:67 | Splitting gives at least one piece. It gives exactly one piece when the separator does not occur. |
| `PyText.SplitPiecesLackSeparator` | llm_benchmark.py:67 | No piece of a split contains the separator. |
| `PyText.JoinSplit` | llm_benchmark.py:67 | Joining the pieces of a split with the separator gives back the original string. |
| `PyText.SplitHeadChar` | llm_benchmark.py:67 | The first piece of a split on one character is the text before that character's first occurrence. |
| `PyText.SplitOnce` | import_prompts.py:23 | `split(sep, 1)` gives one piece, or exactly two when the separator occurs. The first piece does not contain the separator, and joining the pieces gives back the line. |
| `PyText.BasenameIsLastComponent` | llm_benchmark.py:53 | The basename is the `/`-free tail of the path. A `/` precedes it unless it is the whole path. |
| `PromptImport.SplitEntry` | import_prompts.py:22-28 | Computes the entry of a stripped, non-blank line: the parts of `split("|", 1)`, stripped, or the line under "General". |
| `PromptImport.ParseLine` | import_prompts.py:18-28 | Computes one line's entry: none for a blank line, otherwise `SplitEntry` of the stripped line. |
| `PromptImport.ParseLines` | import_prompts.py:16-31 | Computes the entries of a file's lines, in file order. |
| `PromptImport.CountNonBlank` | import_prompts.py:16-31 | Counts the lines that are not all whitespace: the independent count that `ParseLinesCount` compares with. |
| `PromptImport.BlankLineSkipped` | import_prompts.py:18-19 | A line yields no prompt exactly when it is blank. |
| `PromptImport.SplitAtFirstBar` | import_prompts.py:22-25 | For a stripped line `category|text` with no `|` in the category, the category is the part before the first `|`, stripped. The text is everything after it, stripped, and may itself contain `|`. |
| `PromptImport.NoBarIsGeneral` | import_prompts.py:26-28 | A non-blank line with no `|` becomes its stripped text under the category "General". |
| `PromptImport.EntryClean` | import_prompts.py:18-28 | Every imported entry has no whitespace around either column, and its category contains no `|`. |
| `PromptImport.ParseFormatted` | import_prompts.py:21-28 | Reading back a clean entry written as `category|text` gives the same entry (round trip). |
| `PromptImport.ParseLinesStep` | import_prompts.py:17-30 | One more line of the file appends that line's entry, if any, after the entries of the lines before it. |
| `PromptImport.ParseLinesAppend` | import_prompts.py:17-30 | The import preserves order: the entries of two consecutive parts of a file are the first part's entries followed by the second's. |
| `PromptImport.ParseLinesCount` | import_prompts.py:16-31 | The file yields exactly one prompt per non-blank line. |
| `PromptImport.ParseLinesClean` | import_prompts.py:17-30 | Every row the import writes is clean. |
| `PromptImport.PromptTable.ImportFromFile` | import_prompts.py:5-35 | A missing file inserts nothing and reports no count. Otherwise the table gains every line's entry, in file order, and the reported count is the number of non-blank lines. |

## Left out

- SQL itself is not modelled: the connection, `commit`, the schema script and `init_db`. The tables are sequences of rows.
- Rowids are not taken from SQLite. `lastrowid` is modelled as the table's length plus one, which holds because nothing deletes rows.
- A failing SQL statement or commit is not modelled: every statement is assumed to succeed.
  - If the success-row INSERT or its commit (`llm_benchmark.py:169-174`) failed, the `except` at `:176` would write an error row with `str(e)` and the run would go on.
  - A failure at `:57`, `:72-76`, `:140-144`, `:179-183` or `:187-188` would end the run and leave its session `running`.
- `start_time` is not in the session row, because a schema default fills it.
- Sessions.Open: the counter of a new session starts at 0. That relies on the schema's DEFAULT for `models_completed`, since the INSERT at `llm_benchmark.py:34-37` does not set the column. The schema file is not part of this model.
- Throughput.TokensPerSecond: durations and rates are real numbers, not Python floats. So `tps * duration == tokens` is exact only in the model; floating-point rounding is not modelled.
- `get_active_prompts` is not modelled. The active prompts are an input, in the order the query returns them.
- The model-file discovery (`glob` under `MODELS_DIR`) is not modelled. The files are an input, in the order found.
- The MB conversion of `os.path.getsize(filepath) / (1024 * 1024)` is not modelled, because it is floating point. The size is an oracle input.
- The inference library (`Llama`, `create_completion`) and `time.time()` are not modelled. The `Oracle` stands in for them: whether each file loads, and the completion or exception for each prompt, with its token count and elapsed seconds.
- The engine settings are not modelled, because they only go to the engine: `N_CTX`, `MAX_TOKENS`, `N_GPU_LAYERS`, `TEMPERATURE`.
- `gc.collect()` and `del self.llm` are not modelled. Releasing is only `llm := None`.
- The load failure is raised and caught inside `__enter__` (`llm_benchmark.py:87-97`), which then returns `None`. `Loader.ModelLoader.Enter` takes the outcome as its input `loadSucceeds`.
- Inside the `with` body, the model covers only exceptions raised at `llm_benchmark.py:154-164`, by `create_completion` or by reading its output. The `except` at `:176` turns those into an error row: the `Raised` outcome of the `Oracle`.
- The INSERTs at `:140-144` and `:179-183` are outside any `try`. An exception from them would leave the `with` body and end the run; that is not modelled.
- `register_model`'s `except` branch has no separate model. `filename.split(".Q")[1]` always exists once `".Q" in filename`, so the branch cannot be taken.
- Benchmark.RunBenchmark: the session id it returns, `RunSpec`'s `session`, has no counterpart in the return value of the source. `run_benchmark` returns `None` on every path (`llm_benchmark.py:117`, `:123`, and the end after `:192`); the id is only printed, at `llm_benchmark.py:127` and `:191`. The model returns it so that the lemmas can name the session the run opened.
- Every `print` of both scripts is not modelled. The count that `PromptImport.PromptTable.ImportFromFile` returns is, in the source, only printed (`import_prompts.py:35`).
- The `__main__` blocks of both scripts are not modelled, including the argument check of `import_prompts.py`.
- File reading in `import_prompts` is not modelled. The file's existence and its lines are inputs.
- The import is not modelled as one transaction. It commits once, at the end, which the model does not distinguish.
- `export_results.py` is not part of this model.
- `Basename` is POSIX `os.path.basename`, which splits on `/` only.
- Strings are sequences of Unicode scalar values. `IsSpace` is Python's `str.isspace` set, written out.
- `Benchmark.BenchmarkModels`: "at most one model is loaded at any time" is not a single invariant over all loaders. The model states it per turn: each turn's loader is fresh and holds nothing once the turn ends.
