/**
 * The benchmark bookkeeping of `llm_benchmark.py`: the store (Models,
 * Sessions and Results tables), the operations on it, and `run_benchmark`,
 * which loads each model file in turn, runs every active prompt on it and
 * records one Result row per unit of work.
 *
 * What the outside world decides is an input: the `Oracle` says, for the
 * `i`-th model file visited, its size, whether it loads, and what generating
 * the `j`-th prompt produces (text, token count and elapsed seconds, or an
 * exception message).
 */
module Benchmark {
  import opened Wrappers
  import opened PyText
  import opened Registry
  import opened Sessions
  import opened Throughput
  import opened Loader

  /** A row of `get_active_prompts`: `(id, prompt_text)` of an active prompt. */
  datatype ActivePrompt = ActivePrompt(id: nat, text: string)

  /** What one `create_completion` call yields: a completion or an exception. */
  datatype Generation =
    | Completion(text: string, tokens: int, seconds: real)
    | Raised(message: string)

  /** The inference engine, the file system and the clock, per visit `i` and prompt position `j`. */
  datatype Oracle = Oracle(fileSizeMb: nat -> real, loads: nat -> bool, generate: (nat, nat) -> Generation)

  /** One row of the Results table; `None` is SQL NULL. */
  datatype ResultRow = ResultRow(
    sessionId: nat,
    modelId: nat,
    promptId: Option<nat>,
    outputText: Option<string>,
    seconds: Option<real>,
    tokens: Option<int>,
    tokensPerSecond: Option<real>,
    errorMessage: Option<string>)

  /** The three tables the benchmark writes. */
  datatype Db = Db(models: seq<ModelRow>, sessions: seq<SessionRow>, results: seq<ResultRow>)

  const DESCRIPTION := "Benchmark Run"
  const LOAD_FAILURE := "Failed to load model file"

  /** A row carries either a full measurement and no error, or an error and no measurement. */
  predicate OutcomeShaped(row: ResultRow)
  {
    (row.errorMessage.None? && row.outputText.Some? && row.seconds.Some? &&
     row.tokens.Some? && row.tokensPerSecond.Some?) ||
    (row.errorMessage.Some? && row.outputText.None? && row.seconds.None? &&
     row.tokens.None? && row.tokensPerSecond.None?)
  }

  /** The row written when a model file does not load. */
  function LoadFailureRow(sessionId: nat, modelId: nat): ResultRow
  {
    ResultRow(sessionId, modelId, None, None, None, None, None, Some(LOAD_FAILURE))
  }

  /** The row written for one prompt on a loaded model. */
  function PromptResult(sessionId: nat, modelId: nat, prompt: ActivePrompt, g: Generation): (row: ResultRow)
    ensures row.sessionId == sessionId && row.modelId == modelId && row.promptId == Some(prompt.id)
    ensures OutcomeShaped(row)
    ensures row.errorMessage.None? <==> g.Completion?
    ensures g.Completion? ==>
      row.outputText == Some(g.text) && row.seconds == Some(g.seconds) && row.tokens == Some(g.tokens) &&
      row.tokensPerSecond == Some(TokensPerSecond(g.tokens, g.seconds))
    ensures g.Raised? ==> row.errorMessage == Some(g.message)
  {
    match g
    case Completion(text, tokens, seconds) =>
      ResultRow(sessionId, modelId, Some(prompt.id), Some(text), Some(seconds), Some(tokens),
                Some(TokensPerSecond(tokens, seconds)), None)
    case Raised(message) =>
      ResultRow(sessionId, modelId, Some(prompt.id), None, None, None, None, Some(message))
  }

  /** The rows of a loaded model: one per active prompt, in prompt order. */
  function PromptResults(sessionId: nat, modelId: nat, visit: nat, prompts: seq<ActivePrompt>, oracle: Oracle): seq<ResultRow>
  {
    seq(|prompts|, j requires 0 <= j < |prompts| =>
      PromptResult(sessionId, modelId, prompts[j], oracle.generate(visit, j)))
  }

  /**
   * The rows one model file contributes: a single load-failure row with no
   * prompt, or one row per prompt.
   */
  function ModelResults(sessionId: nat, modelId: nat, visit: nat, prompts: seq<ActivePrompt>, oracle: Oracle): seq<ResultRow>
  {
    if oracle.loads(visit) then PromptResults(sessionId, modelId, visit, prompts, oracle)
    else [LoadFailureRow(sessionId, modelId)]
  }

  /** The number of rows a model file contributes. */
  lemma ModelResultsLength(sessionId: nat, modelId: nat, visit: nat, prompts: seq<ActivePrompt>, oracle: Oracle)
    ensures |ModelResults(sessionId, modelId, visit, prompts, oracle)| == if oracle.loads(visit) then |prompts| else 1
  {
  }

  /**
   * Every row of a model file is tagged with the session and the model and
   * has the outcome shape; a file that does not load yields the null-prompt
   * load-failure row, one that loads yields the `j`-th prompt's row at `j`.
   */
  lemma ModelResultsShape(sessionId: nat, modelId: nat, visit: nat, prompts: seq<ActivePrompt>, oracle: Oracle)
    ensures var rows := ModelResults(sessionId, modelId, visit, prompts, oracle);
      (forall k :: 0 <= k < |rows| ==>
        rows[k].sessionId == sessionId && rows[k].modelId == modelId && OutcomeShaped(rows[k])) &&
      (!oracle.loads(visit) ==> rows == [LoadFailureRow(sessionId, modelId)]) &&
      (oracle.loads(visit) ==> |rows| == |prompts| && forall j :: 0 <= j < |rows| ==>
        rows[j] == PromptResult(sessionId, modelId, prompts[j], oracle.generate(visit, j)))
  {
    var rows := ModelResults(sessionId, modelId, visit, prompts, oracle);
    forall k | 0 <= k < |rows|
      ensures rows[k].sessionId == sessionId && rows[k].modelId == modelId && OutcomeShaped(rows[k])
    {
      if oracle.loads(visit) {
        var _ := PromptResult(sessionId, modelId, prompts[k], oracle.generate(visit, k));
      }
    }
  }

  /** The Models table after registering the first `n` model files in visiting order. */
  function ModelsAfter(models: seq<ModelRow>, files: seq<string>, oracle: Oracle, n: nat): seq<ModelRow>
    requires n <= |files|
  {
    if n == 0 then models
    else Register(ModelsAfter(models, files, oracle, n - 1), files[n - 1], oracle.fileSizeMb(n - 1)).models
  }

  /** The store after `run_benchmark`, and the session it opened, if any. */
  datatype Run = Run(db: Db, session: Option<nat>)

  /**
   * `run_benchmark` on the store `db`, with the discovered model files, the
   * active prompts, the oracle and the clock reading `now` at the close: no
   * change at all without files or prompts; otherwise a new session that is
   * advanced once per loaded model and then closed, every file registered,
   * and each file's rows appended in visiting order.
   */
  function RunSpec(db: Db, files: seq<string>, prompts: seq<ActivePrompt>, oracle: Oracle, now: nat): (r: Run)
    ensures r.session.None? <==> |files| == 0 || |prompts| == 0
    ensures r.session.None? ==> r.db == db
  {
    if |files| == 0 || |prompts| == 0 then Run(db, None)
    else
      var begun := Open(db.sessions, DESCRIPTION, |files|, |prompts|);
      var models := ModelsAfter(db.models, files, oracle, |files|);
      var sessions := AdvanceTimes(begun.sessions, begun.id, LoadedCount(oracle, |files|));
      Run(Db(models,
             Close(sessions, begun.id, COMPLETED, now),
             db.results + RunRows(begun.id, FileIds(models, files), prompts, oracle, |files|)),
          Some(begun.id))
  }

  /** How many of the first `n` model files load. */
  function LoadedCount(oracle: Oracle, n: nat): nat
  {
    if n == 0 then 0 else LoadedCount(oracle, n - 1) + (if oracle.loads(n - 1) then 1 else 0)
  }

  /** How many Result rows the first `n` model files produce with `p` active prompts. */
  function ExpectedRows(oracle: Oracle, p: nat, n: nat): nat
  {
    if n == 0 then 0 else ExpectedRows(oracle, p, n - 1) + (if oracle.loads(n - 1) then p else 1)
  }

  /**
   * The id the table `models` holds for `filename`, or 0 when it holds none.
   * `RunModels` proves that every visited file is registered, so a run never
   * falls back to 0.
   */
  function ModelIdIn(models: seq<ModelRow>, filename: string): nat
  {
    match IdOf(models, filename)
    case Some(id) => id
    case None => 0
  }

  /** For each model file, the id the table `models` holds for its basename. */
  function FileIds(models: seq<ModelRow>, files: seq<string>): (ids: seq<nat>)
    ensures |ids| == |files|
  {
    seq(|files|, i requires 0 <= i < |files| => ModelIdIn(models, Basename(files[i])))
  }

  /** The rows of the first `n` model files in visiting order, the `i`-th under the model id `ids[i]`. */
  function RunRows(sessionId: nat, ids: seq<nat>, prompts: seq<ActivePrompt>, oracle: Oracle, n: nat): seq<ResultRow>
    requires n <= |ids|
  {
    if n == 0 then []
    else RunRows(sessionId, ids, prompts, oracle, n - 1) + ModelResults(sessionId, ids[n - 1], n - 1, prompts, oracle)
  }

  /** One more visit advances the session exactly when that visit's model loads. */
  lemma AdvanceTimesStep(sessions: seq<SessionRow>, id: nat, oracle: Oracle, i: nat)
    ensures var now := AdvanceTimes(sessions, id, LoadedCount(oracle, i));
      AdvanceTimes(sessions, id, LoadedCount(oracle, i + 1)) == if oracle.loads(i) then Advance(now, id) else now
  {
  }

  /** `models_completed` counts the loaded models, because a load failure skips the update. */
  lemma {:induction false} LoadedCountAtMost(oracle: Oracle, n: nat)
    ensures LoadedCount(oracle, n) <= n
    ensures LoadedCount(oracle, n) == n <==> forall i :: 0 <= i < n ==> oracle.loads(i)
  {
    if n > 0 {
      LoadedCountAtMost(oracle, n - 1);
      if LoadedCount(oracle, n) == n {
        forall i | 0 <= i < n ensures oracle.loads(i) {
          if i < n - 1 {}
        }
      }
    }
  }

  /** Registering the first `n` files keeps the Models table well formed. */
  lemma {:induction false} ModelsAfterWellFormed(models: seq<ModelRow>, files: seq<string>, oracle: Oracle, n: nat)
    requires n <= |files|
    requires Registry.WellFormed(models)
    ensures Registry.WellFormed(ModelsAfter(models, files, oracle, n))
  {
    if n > 0 {
      ModelsAfterWellFormed(models, files, oracle, n - 1);
      RegisterWellFormed(ModelsAfter(models, files, oracle, n - 1), files[n - 1], oracle.fileSizeMb(n - 1));
    }
  }

  /** Registering only ever appends to the Models table. */
  lemma {:induction false} ModelsAfterGrows(models: seq<ModelRow>, files: seq<string>, oracle: Oracle, n: nat)
    requires n <= |files|
    ensures var m := ModelsAfter(models, files, oracle, n);
      |models| <= |m| && m[..|models|] == models
  {
    if n > 0 {
      ModelsAfterGrows(models, files, oracle, n - 1);
      var before := ModelsAfter(models, files, oracle, n - 1);
      RegisterFacts(before, files[n - 1], oracle.fileSizeMb(n - 1));
      var after := ModelsAfter(models, files, oracle, n);
      assert after[..|models|] == after[..|before|][..|models|];
    }
  }

  /** The rows of the first `n` files depend on the ids of those files only. */
  lemma {:induction false} RunRowsAgree(sessionId: nat, ids: seq<nat>, others: seq<nat>, prompts: seq<ActivePrompt>, oracle: Oracle, n: nat)
    requires n <= |ids| && n <= |others| && ids[..n] == others[..n]
    ensures RunRows(sessionId, ids, prompts, oracle, n) == RunRows(sessionId, others, prompts, oracle, n)
  {
    if n > 0 {
      assert ids[n - 1] == ids[..n][n - 1] == others[n - 1];
      assert ids[..n - 1] == ids[..n][..n - 1];
      assert others[..n - 1] == others[..n][..n - 1];
      RunRowsAgree(sessionId, ids, others, prompts, oracle, n - 1);
    }
  }

  /**
   * Rows added to the Models table after the first `n` files were registered
   * do not change the ids of those files.
   */
  lemma FileIdsStable(models: seq<ModelRow>, more: seq<ModelRow>, files: seq<string>, n: nat)
    requires n <= |files|
    requires forall i :: 0 <= i < n ==> FindModel(models, Basename(files[i])).Some?
    ensures FileIds(models + more, files)[..n] == FileIds(models, files)[..n]
  {
    forall i | 0 <= i < n ensures FileIds(models + more, files)[i] == FileIds(models, files)[i] {
      IdOfExtended(models, more, Basename(files[i]));
    }
  }

  /**
   * One more turn of the main loop: registering the next file and writing its
   * rows under the id registration returned extends the rows of the turns
   * before, read against the grown Models table.
   */
  lemma RunRowsStep(sessionId: nat, models: seq<ModelRow>, files: seq<string>, prompts: seq<ActivePrompt>, oracle: Oracle, n: nat)
    requires n < |files|
    ensures var before := ModelsAfter(models, files, oracle, n);
      var reg := Register(before, files[n], oracle.fileSizeMb(n));
      RunRows(sessionId, FileIds(before, files), prompts, oracle, n) + ModelResults(sessionId, reg.id, n, prompts, oracle) ==
        RunRows(sessionId, FileIds(reg.models, files), prompts, oracle, n + 1)
  {
    var before := ModelsAfter(models, files, oracle, n);
    var reg := Register(before, files[n], oracle.fileSizeMb(n));
    RegisterFacts(before, files[n], oracle.fileSizeMb(n));
    ModelsAfterFound(models, files, oracle, n);
    assert reg.models == before + reg.models[|before|..];
    FileIdsStable(before, reg.models[|before|..], files, n);
    RunRowsAgree(sessionId, FileIds(reg.models, files), FileIds(before, files), prompts, oracle, n);
    assert FileIds(reg.models, files)[n] == reg.id;
  }

  /** After the first `n` files are registered, each of their basenames is found. */
  lemma {:induction false} ModelsAfterFound(models: seq<ModelRow>, files: seq<string>, oracle: Oracle, n: nat)
    requires n <= |files|
    ensures forall i :: 0 <= i < n ==> FindModel(ModelsAfter(models, files, oracle, n), Basename(files[i])).Some?
  {
    if n > 0 {
      ModelsAfterFound(models, files, oracle, n - 1);
      var before := ModelsAfter(models, files, oracle, n - 1);
      var reg := Register(before, files[n - 1], oracle.fileSizeMb(n - 1));
      RegisterFacts(before, files[n - 1], oracle.fileSizeMb(n - 1));
      assert reg.models == before + reg.models[|before|..];
      forall i | 0 <= i < n ensures FindModel(reg.models, Basename(files[i])).Some? {
        if i < n - 1 {
          IdOfExtended(before, reg.models[|before|..], Basename(files[i]));
        }
        assert IdOf(reg.models, Basename(files[i])).Some?;
      }
    }
  }

  /** The number of rows of the first `n` files: `|prompts|` for a file that loads, 1 for one that does not. */
  lemma {:induction false} RunRowsCount(sessionId: nat, ids: seq<nat>, prompts: seq<ActivePrompt>, oracle: Oracle, n: nat)
    requires n <= |ids|
    ensures |RunRows(sessionId, ids, prompts, oracle, n)| == ExpectedRows(oracle, |prompts|, n)
  {
    if n > 0 {
      RunRowsCount(sessionId, ids, prompts, oracle, n - 1);
      ModelResultsLength(sessionId, ids[n - 1], n - 1, prompts, oracle);
    }
  }

  /**
   * Appending rows in two steps is appending them at once. Dafny knows this;
   * the lemma hands it over as one fact, which keeps `LoopStep` from
   * expanding the three row sequences.
   */
  lemma AppendAssociates(a: seq<ResultRow>, b: seq<ResultRow>, c: seq<ResultRow>)
    ensures (a + b) + c == a + (b + c)
  {
  }

  /** The store after the first `n` turns of the main loop, started from `start`. */
  function AfterVisits(start: Db, sessionId: nat, files: seq<string>, prompts: seq<ActivePrompt>, oracle: Oracle, n: nat): Db
    requires n <= |files|
  {
    var models := ModelsAfter(start.models, files, oracle, n);
    Db(models,
       AdvanceTimes(start.sessions, sessionId, LoadedCount(oracle, n)),
       start.results + RunRows(sessionId, FileIds(models, files), prompts, oracle, n))
  }

  /**
   * One turn of the main loop: registering the `i`-th file, advancing the
   * session if it loaded and appending its rows takes the store after `i`
   * turns to the store after `i + 1`.
   */
  lemma LoopStep(start: Db, sessionId: nat, files: seq<string>, prompts: seq<ActivePrompt>, oracle: Oracle, i: nat, next: Db)
    requires i < |files|
    requires var now := AfterVisits(start, sessionId, files, prompts, oracle, i);
      var reg := Register(now.models, files[i], oracle.fileSizeMb(i));
      next.models == reg.models &&
      next.sessions == (if oracle.loads(i) then Advance(now.sessions, sessionId) else now.sessions) &&
      next.results == now.results + ModelResults(sessionId, reg.id, i, prompts, oracle)
    ensures next == AfterVisits(start, sessionId, files, prompts, oracle, i + 1)
  {
    var now := AfterVisits(start, sessionId, files, prompts, oracle, i);
    var reg := Register(now.models, files[i], oracle.fileSizeMb(i));
    RunRowsStep(sessionId, start.models, files, prompts, oracle, i);
    AdvanceTimesStep(start.sessions, sessionId, oracle, i);
    AppendAssociates(start.results, RunRows(sessionId, FileIds(now.models, files), prompts, oracle, i),
      ModelResults(sessionId, reg.id, i, prompts, oracle));
  }

  /** A prefix of `mid` is a prefix of `mid` with anything appended. */
  lemma PrefixOfAppended(short: seq<ResultRow>, mid: seq<ResultRow>, tail: seq<ResultRow>)
    requires |short| <= |mid| && mid[..|short|] == short
    ensures (mid + tail)[..|short|] == short
  {
    assert (mid + tail)[..|short|] == mid[..|short|];
  }

  /** The rows of the first `i` files are a prefix of the rows of the first `n`. */
  lemma {:induction false} RunRowsPrefix(sessionId: nat, ids: seq<nat>, prompts: seq<ActivePrompt>, oracle: Oracle, i: nat, n: nat)
    requires i <= n <= |ids|
    ensures var short := RunRows(sessionId, ids, prompts, oracle, i);
      var long := RunRows(sessionId, ids, prompts, oracle, n);
      |short| <= |long| && long[..|short|] == short
  {
    var short := RunRows(sessionId, ids, prompts, oracle, i);
    if i == n {
      assert short[..|short|] == short;
    } else {
      RunRowsPrefix(sessionId, ids, prompts, oracle, i, n - 1);
      PrefixOfAppended(short, RunRows(sessionId, ids, prompts, oracle, n - 1),
        ModelResults(sessionId, ids[n - 1], n - 1, prompts, oracle));
    }
  }

  /** A block appended to `pre` sits right after `pre` in anything that extends `pre + block`. */
  lemma BlockOfPrefix(pre: seq<ResultRow>, block: seq<ResultRow>, long: seq<ResultRow>)
    requires |pre + block| <= |long| && long[..|pre + block|] == pre + block
    ensures long[|pre|..|pre| + |block|] == block
  {
    assert long[|pre|..|pre| + |block|] == (pre + block)[|pre|..];
  }

  /** Each file visited owns one contiguous block of rows, in visiting order: every file is visited exactly once. */
  lemma RunRowsBlock(sessionId: nat, ids: seq<nat>, prompts: seq<ActivePrompt>, oracle: Oracle, n: nat, i: nat)
    requires i < n <= |ids|
    ensures var rows := RunRows(sessionId, ids, prompts, oracle, n);
      ExpectedRows(oracle, |prompts|, i) <= ExpectedRows(oracle, |prompts|, i + 1) <= |rows| &&
      rows[ExpectedRows(oracle, |prompts|, i)..ExpectedRows(oracle, |prompts|, i + 1)] ==
        ModelResults(sessionId, ids[i], i, prompts, oracle)
  {
    var pre := RunRows(sessionId, ids, prompts, oracle, i);
    var block := ModelResults(sessionId, ids[i], i, prompts, oracle);
    var rows := RunRows(sessionId, ids, prompts, oracle, n);
    assert RunRows(sessionId, ids, prompts, oracle, i + 1) == pre + block;
    RunRowsPrefix(sessionId, ids, prompts, oracle, i + 1, n);
    RunRowsCount(sessionId, ids, prompts, oracle, i);
    ModelResultsLength(sessionId, ids[i], i, prompts, oracle);
    assert |pre| == ExpectedRows(oracle, |prompts|, i);
    assert |pre| + |block| == ExpectedRows(oracle, |prompts|, i + 1);
    BlockOfPrefix(pre, block, rows);
  }

  /**
   * A run over at least one file and one prompt opens exactly one session,
   * with the run's totals, and closes it as completed at `now`; its counter
   * is the number of models that loaded. Older sessions are untouched.
   */
  lemma RunSession(db: Db, files: seq<string>, prompts: seq<ActivePrompt>, oracle: Oracle, now: nat)
    requires Sessions.WellFormed(db.sessions)
    requires |files| > 0 && |prompts| > 0
    ensures var r := RunSpec(db, files, prompts, oracle, now);
      var id := |db.sessions| + 1;
      r.session == Some(id) &&
      r.db.sessions == db.sessions +
        [SessionRow(id, DESCRIPTION, |files|, |prompts|, LoadedCount(oracle, |files|), COMPLETED, Some(now))]
  {
    var begun := Open(db.sessions, DESCRIPTION, |files|, |prompts|);
    var n := LoadedCount(oracle, |files|);
    AdvanceTimesCounter(begun.sessions, begun.id, n);
    var advanced := AdvanceTimes(begun.sessions, begun.id, n);
    CloseOnlyThatSession(advanced, begun.id, COMPLETED, now);
    assert begun.sessions == db.sessions + [begun.sessions[|db.sessions|]];
  }

  /**
   * A run appends, for each file in visiting order, the rows of that file
   * under the session it opened and the id the Models table holds for the
   * file's basename: `|prompts|` rows for a file that loads, one row for a
   * file that does not. Nothing else is written to the Results table.
   */
  lemma RunResults(db: Db, files: seq<string>, prompts: seq<ActivePrompt>, oracle: Oracle, now: nat)
    requires |files| > 0 && |prompts| > 0
    ensures var r := RunSpec(db, files, prompts, oracle, now);
      r.session.Some? &&
      r.db.results == db.results + RunRows(r.session.value, FileIds(r.db.models, files), prompts, oracle, |files|) &&
      |r.db.results| == |db.results| + ExpectedRows(oracle, |prompts|, |files|)
  {
    var r := RunSpec(db, files, prompts, oracle, now);
    RunRowsCount(r.session.value, FileIds(r.db.models, files), prompts, oracle, |files|);
  }

  /** A run only appends to the Models table, keeps it free of duplicate names, and registers every file it visits. */
  lemma RunModels(db: Db, files: seq<string>, prompts: seq<ActivePrompt>, oracle: Oracle, now: nat)
    requires Registry.WellFormed(db.models)
    ensures var m := RunSpec(db, files, prompts, oracle, now).db.models;
      Registry.WellFormed(m) && |db.models| <= |m| && m[..|db.models|] == db.models &&
      (|prompts| > 0 ==> forall i :: 0 <= i < |files| ==> IdOf(m, Basename(files[i])).Some?)
  {
    if |files| > 0 && |prompts| > 0 {
      ModelsAfterWellFormed(db.models, files, oracle, |files|);
      ModelsAfterGrows(db.models, files, oracle, |files|);
      ModelsAfterFound(db.models, files, oracle, |files|);
    }
  }

  /**
   * The closing counter equals the declared number of models exactly when
   * every model loaded: a load failure is never counted.
   */
  lemma CompletedIffAllLoaded(db: Db, files: seq<string>, prompts: seq<ActivePrompt>, oracle: Oracle, now: nat)
    requires Sessions.WellFormed(db.sessions)
    requires |files| > 0 && |prompts| > 0
    ensures var sessions := RunSpec(db, files, prompts, oracle, now).db.sessions;
      |sessions| == |db.sessions| + 1 &&
      var s := sessions[|db.sessions|];
      s.modelsCompleted <= s.totalModels &&
      (s.modelsCompleted == s.totalModels <==> forall i :: 0 <= i < |files| ==> oracle.loads(i))
  {
    RunSession(db, files, prompts, oracle, now);
    LoadedCountAtMost(oracle, |files|);
  }

  /**
   * Two model files, the first valid and the second corrupt, and three active
   * prompts: four Result rows (three for the first model, one null-prompt
   * error row for the second) and a completed session counting one model.
   */
  lemma ValidAndCorruptScenario(db: Db, files: seq<string>, prompts: seq<ActivePrompt>, oracle: Oracle, now: nat)
    requires Sessions.WellFormed(db.sessions)
    requires |files| == 2 && |prompts| == 3 && oracle.loads(0) && !oracle.loads(1)
    ensures var r := RunSpec(db, files, prompts, oracle, now);
      |r.db.results| == |db.results| + 4 &&
      r.db.results[|db.results| + 3].promptId.None? &&
      r.db.results[|db.results| + 3].errorMessage == Some(LOAD_FAILURE) &&
      |r.db.sessions| == |db.sessions| + 1 &&
      var s := r.db.sessions[|db.sessions|];
      s.status == COMPLETED && s.modelsCompleted == 1 && s.totalModels == 2
  {
    var r := RunSpec(db, files, prompts, oracle, now);
    RunSession(db, files, prompts, oracle, now);
    assert LoadedCount(oracle, 1) == 1;
    assert LoadedCount(oracle, 2) == 1;
    var id := r.session.value;
    var ids := FileIds(r.db.models, files);
    var rows := RunRows(id, ids, prompts, oracle, 2);
    RunRowsCount(id, ids, prompts, oracle, 2);
    assert ExpectedRows(oracle, 3, 1) == 3;
    assert ExpectedRows(oracle, 3, 2) == 4;
    var first := RunRows(id, ids, prompts, oracle, 1);
    RunRowsCount(id, ids, prompts, oracle, 1);
    var last := ModelResults(id, ids[1], 1, prompts, oracle);
    assert rows == first + last && |first| == 3;
    assert r.db.results[|db.results| + 3] == last[0];
  }

  /** The benchmark store: the Models, Sessions and Results tables. */
  class Store {
    var models: seq<ModelRow>
    var sessions: seq<SessionRow>
    var results: seq<ResultRow>

    function State(): Db
      reads this
    {
      Db(models, sessions, results)
    }

    constructor (db: Db)
      ensures State() == db
    {
      models, sessions, results := db.models, db.sessions, db.results;
    }

    /** `register_session`: insert a running session and return its id. */
    method RegisterSession(description: string, totalModels: nat, totalPrompts: nat) returns (id: nat)
      modifies this
      ensures var begun := Open(old(sessions), description, totalModels, totalPrompts);
        sessions == begun.sessions && id == begun.id
      ensures models == old(models) && results == old(results)
    {
      id := |sessions| + 1;
      sessions := sessions + [SessionRow(id, description, totalModels, totalPrompts, 0, RUNNING, None)];
    }

    /** `update_session_status`: set the status and the end time of the session `id`. */
    method UpdateSessionStatus(id: nat, status: string, now: nat)
      modifies this
      ensures sessions == Close(old(sessions), id, status, now)
      ensures models == old(models) && results == old(results)
    {
      sessions := Close(sessions, id, status, now);
    }

    /** The progress update: one more completed model for the session `id`. */
    method AdvanceSession(id: nat)
      modifies this
      ensures sessions == Advance(old(sessions), id)
      ensures models == old(models) && results == old(results)
    {
      sessions := Advance(sessions, id);
    }

    /** `register_model`: look the basename up, and insert a row with the guessed quantization if it is new. */
    method RegisterModel(filepath: string, fileSizeMb: real) returns (id: nat)
      modifies this
      ensures var reg := Register(old(models), filepath, fileSizeMb);
        models == reg.models && id == reg.id
      ensures sessions == old(sessions) && results == old(results)
    {
      var filename := Basename(filepath);
      var row := FindModel(models, filename);
      FindModelFirst(models, filename);
      if row.Some? {
        return models[row.value].id;
      }
      var quant := GuessQuantization(filename);
      id := |models| + 1;
      models := models + [ModelRow(id, filename, filepath, quant, fileSizeMb)];
    }

    /** One `INSERT INTO Results`. */
    method InsertResult(row: ResultRow)
      modifies this
      ensures results == old(results) + [row]
      ensures models == old(models) && sessions == old(sessions)
    {
      results := results + [row];
    }
  }

  /**
   * One turn of the main loop of `run_benchmark`, for the `visit`-th model
   * file: register it, load it in a fresh `ModelLoader`, and either write the
   * load-failure row or run every prompt and count the model as completed.
   * The loader is released before the turn ends.
   */
  method BenchmarkModel(db: Store, sessionId: nat, file: string, visit: nat, prompts: seq<ActivePrompt>, oracle: Oracle)
    returns (loader: ModelLoader)
    modifies db
    ensures var reg := Register(old(db.models), file, oracle.fileSizeMb(visit));
      db.models == reg.models &&
      db.sessions == (if oracle.loads(visit) then Advance(old(db.sessions), sessionId) else old(db.sessions)) &&
      db.results == old(db.results) + ModelResults(sessionId, reg.id, visit, prompts, oracle)
    ensures fresh(loader) && loader.llm.None?
  {
    var modelId := db.RegisterModel(file, oracle.fileSizeMb(visit));
    loader := new ModelLoader(file);
    var llm := loader.Enter(oracle.loads(visit));
    if llm.None? {
      db.InsertResult(LoadFailureRow(sessionId, modelId));
      var _ := loader.Exit();
      return;
    }
    ghost var registered := db.results;
    ghost var rows := PromptResults(sessionId, modelId, visit, prompts, oracle);
    for j := 0 to |prompts|
      invariant db.models == Register(old(db.models), file, oracle.fileSizeMb(visit)).models
      invariant db.sessions == old(db.sessions)
      invariant db.results == registered + rows[..j]
      invariant loader.llm.Some?
    {
      db.InsertResult(PromptResult(sessionId, modelId, prompts[j], oracle.generate(visit, j)));
      assert rows[..j + 1] == rows[..j] + [rows[j]];
    }
    assert rows[..|prompts|] == rows;
    var _ := loader.Exit();
    db.AdvanceSession(sessionId);
  }

  /**
   * The main loop of `run_benchmark` over the model files, in order, for the
   * session `sessionId`. Each model is held by its own `ModelLoader`, and
   * every loader is released before the next one is created, so at most one
   * model is loaded at any time.
   */
  method BenchmarkModels(db: Store, sessionId: nat, files: seq<string>, prompts: seq<ActivePrompt>, oracle: Oracle)
    modifies db
    ensures db.State() == AfterVisits(old(db.State()), sessionId, files, prompts, oracle, |files|)
  {
    for i := 0 to |files|
      invariant db.State() == AfterVisits(old(db.State()), sessionId, files, prompts, oracle, i)
    {
      var _ := BenchmarkModel(db, sessionId, files[i], i, prompts, oracle);
      LoopStep(old(db.State()), sessionId, files, prompts, oracle, i, db.State());
    }
  }

  /**
   * `run_benchmark`: nothing happens without model files or without active
   * prompts; otherwise one session is opened, every file is benchmarked, and
   * the session is closed as completed. The source returns nothing and only
   * prints the session id; the method returns it so callers can name it.
   */
  method RunBenchmark(db: Store, files: seq<string>, prompts: seq<ActivePrompt>, oracle: Oracle, now: nat)
    returns (session: Option<nat>)
    modifies db
    ensures var r := RunSpec(old(db.State()), files, prompts, oracle, now);
      db.State() == r.db && session == r.session
  {
    if |files| == 0 {
      return None;
    }
    if |prompts| == 0 {
      return None;
    }
    var sessionId := db.RegisterSession(DESCRIPTION, |files|, |prompts|);
    BenchmarkModels(db, sessionId, files, prompts, oracle);
    db.UpdateSessionStatus(sessionId, COMPLETED, now);
    session := Some(sessionId);
  }
}
