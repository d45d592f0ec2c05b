/**
 * The Sessions table: `register_session` opens a row, the progress update
 * of `run_benchmark` bumps its `models_completed`, and
 * `update_session_status` closes it.
 */
module Sessions {
  import opened Wrappers

  /**
   * One row of the Sessions table. `endTime` is the `CURRENT_TIMESTAMP`
   * written when the session is closed, as a clock reading.
   */
  datatype SessionRow = SessionRow(
    id: nat,
    description: string,
    totalModels: nat,
    totalPrompts: nat,
    modelsCompleted: nat,
    status: string,
    endTime: Option<nat>)

  const RUNNING := "running"
  const COMPLETED := "completed"

  /** Every session's rowid is its position plus one. */
  predicate WellFormed(sessions: seq<SessionRow>)
  {
    forall k :: 0 <= k < |sessions| ==> sessions[k].id == k + 1
  }

  /** The Sessions table after `register_session`, and the id it returns. */
  datatype Opened = Opened(sessions: seq<SessionRow>, id: nat)

  /**
   * `register_session`: insert a running session with the given totals; the
   * counter starts at the schema default 0 and there is no end time yet.
   */
  function Open(sessions: seq<SessionRow>, description: string, totalModels: nat, totalPrompts: nat): (r: Opened)
    ensures |r.sessions| == |sessions| + 1 && r.sessions[..|sessions|] == sessions
    ensures var row := r.sessions[|sessions|];
      row.id == r.id && row.description == description &&
      row.totalModels == totalModels && row.totalPrompts == totalPrompts &&
      row.modelsCompleted == 0 && row.status == RUNNING && row.endTime.None?
    ensures WellFormed(sessions) ==> WellFormed(r.sessions)
  {
    var id := |sessions| + 1;
    var table := sessions + [SessionRow(id, description, totalModels, totalPrompts, 0, RUNNING, None)];
    assert table[..|sessions|] == sessions;
    Opened(table, id)
  }

  /**
   * `UPDATE Sessions SET models_completed = models_completed + 1 WHERE id = ?`:
   * every row with that id gains one completed model; no other field and no
   * other row changes.
   */
  function Advance(sessions: seq<SessionRow>, id: nat): (r: seq<SessionRow>)
    ensures |r| == |sessions|
    ensures forall k :: 0 <= k < |r| ==>
      r[k].modelsCompleted == sessions[k].modelsCompleted + (if sessions[k].id == id then 1 else 0) &&
      r[k].(modelsCompleted := 0) == sessions[k].(modelsCompleted := 0)
  {
    seq(|sessions|, k requires 0 <= k < |sessions| =>
      if sessions[k].id == id then sessions[k].(modelsCompleted := sessions[k].modelsCompleted + 1)
      else sessions[k])
  }

  /**
   * `update_session_status`: every row with that id takes the new status and
   * the end time `now`; the counters and the other rows do not change.
   */
  function Close(sessions: seq<SessionRow>, id: nat, status: string, now: nat): (r: seq<SessionRow>)
    ensures |r| == |sessions|
    ensures forall k :: 0 <= k < |r| ==>
      if sessions[k].id == id then r[k] == sessions[k].(status := status, endTime := Some(now))
      else r[k] == sessions[k]
  {
    seq(|sessions|, k requires 0 <= k < |sessions| =>
      if sessions[k].id == id then sessions[k].(status := status, endTime := Some(now))
      else sessions[k])
  }

  /** `n` progress updates of the session `id`, one after the other. */
  function AdvanceTimes(sessions: seq<SessionRow>, id: nat, n: nat): seq<SessionRow>
  {
    if n == 0 then sessions else Advance(AdvanceTimes(sessions, id, n - 1), id)
  }

  /** `n` progress updates of one session of a well-formed table raise its counter by `n` and change nothing else. */
  lemma {:induction false} AdvanceTimesCounter(sessions: seq<SessionRow>, id: nat, n: nat)
    requires WellFormed(sessions) && 1 <= id <= |sessions|
    ensures var r := AdvanceTimes(sessions, id, n);
      WellFormed(r) &&
      r == sessions[id - 1 := sessions[id - 1].(modelsCompleted := sessions[id - 1].modelsCompleted + n)]
  {
    if n > 0 {
      AdvanceTimesCounter(sessions, id, n - 1);
      AdvanceOnlyThatSession(AdvanceTimes(sessions, id, n - 1), id);
    }
  }

  /** In a well-formed table, advancing the session `id` touches its row alone. */
  lemma AdvanceOnlyThatSession(sessions: seq<SessionRow>, id: nat)
    requires WellFormed(sessions) && 1 <= id <= |sessions|
    ensures var r := Advance(sessions, id);
      WellFormed(r) &&
      r == sessions[id - 1 := sessions[id - 1].(modelsCompleted := sessions[id - 1].modelsCompleted + 1)]
  {
  }

  /** Closing the session `id` of a well-formed table ends that row alone. */
  lemma CloseOnlyThatSession(sessions: seq<SessionRow>, id: nat, status: string, now: nat)
    requires WellFormed(sessions) && 1 <= id <= |sessions|
    ensures var r := Close(sessions, id, status, now);
      WellFormed(r) && r == sessions[id - 1 := sessions[id - 1].(status := status, endTime := Some(now))]
  {
  }
}
