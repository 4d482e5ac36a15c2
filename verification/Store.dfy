/** The persistent state of the automation engine (src/cortex/store.ts): the `units`, `runs` and
    `run_steps` tables, the Redis sorted set `runs:waiting`, and the event dedupe keys.
    `Db` is its value; the functions on it specify the methods of `HybridStore`. */
module Store {
  import opened Wrappers
  import opened Json
  import opened Automation

  /** A row of `runs`; `payload` is the column original_event_payload. */
  datatype Row = Row(run: Run, payload: Option<Json>)

  datatype StepStatus = StepSuccess | StepFailed

  /** A row of `run_steps`, keyed by run and step index. */
  datatype StepRow = StepRow(action: Action, status: StepStatus, result: Option<Json>, error: Option<string>)

  type StepLog = map<nat, StepRow>

  datatype Db = Db(units: map<string, Unit>, runs: map<string, Row>, waiting: map<string, nat>,
                   steps: map<string, StepLog>)

  /** `text || null` */
  function NonEmpty(text: Option<string>): Option<string> {
    if text == Some("") then None else text
  }

  /** `value ? JSON.stringify(value) : null` */
  function IfTruthy(v: Option<Json>): Option<Json> {
    if v.Some? && Truthy(v.value) then v else None
  }

  /** The row after an upsert: on conflict only the progress columns are overwritten. */
  function UpsertedRow(db: Db, run: Run, payload: Option<Json>): Row {
    var saved := run.(error := NonEmpty(run.error));
    if run.id in db.runs then
      var row := db.runs[run.id];
      row.(run := row.run.(status := saved.status, step := saved.step, context := saved.context,
                             completedAt := saved.completedAt, resumeAt := saved.resumeAt, error := saved.error))
    else Row(saved, IfTruthy(payload))
  }

  /** saveRun: the row, then the waiting index. */
  function Saved(db: Db, run: Run, payload: Option<Json>): Db {
    db.(runs := db.runs[run.id := UpsertedRow(db, run, payload)],
        waiting := if run.status == Waiting && run.resumeAt.Some?
                   then db.waiting[run.id := run.resumeAt.value]
                   else db.waiting - {run.id})
  }

  function StepsOf(db: Db, id: string): StepLog {
    if id in db.steps then db.steps[id] else map[]
  }

  /** logRunStep: on conflict the action columns are kept. */
  function Logged(db: Db, id: string, k: nat, action: Action, status: StepStatus,
                      result: Option<Json>, error: Option<string>): Db {
    var log := StepsOf(db, id);
    var row := StepRow(if k in log then log[k].action else action, status, IfTruthy(result), NonEmpty(error));
    db.(steps := db.steps[id := log[k := row]])
  }

  /** A row is waiting until `s` exactly if the index holds the run with score `s`. */
  ghost predicate IndexAgrees(db: Db) {
    && (forall id <- db.waiting :: id in db.runs)
    && (forall id <- db.runs ::
          var run := db.runs[id].run;
          run.id == id && (run.status == Waiting <==> id in db.waiting) &&
          (id in db.waiting ==> run.resumeAt == Some(db.waiting[id])))
  }

  /** `rs` are the rows of the index members with score at most `now`, each once, in any order. */
  ghost predicate IsDue(db: Db, now: nat, rs: seq<Run>) {
    && (forall i :: 0 <= i < |rs| ==>
          rs[i].id in db.waiting && db.waiting[rs[i].id] <= now && rs[i].id in db.runs && db.runs[rs[i].id].run == rs[i])
    && (forall i, j :: 0 <= i < j < |rs| ==> rs[i].id != rs[j].id)
    && (forall id <- db.waiting :: db.waiting[id] <= now && id in db.runs ==> exists i :: 0 <= i < |rs| && rs[i].id == id)
  }

  /** When the index agrees with the table, what getWaitingRuns returns are exactly the rows that
      say `waiting` and whose `resume_at` has come. */
  lemma DueMeansDue(db: Db, now: nat, rs: seq<Run>)
    requires IndexAgrees(db) && IsDue(db, now, rs)
    ensures forall run :: run in rs <==>
              run.id in db.runs && db.runs[run.id].run == run && run.status == Waiting &&
              run.resumeAt.Some? && run.resumeAt.value <= now
  {
    forall run: Run | run.id in db.runs && db.runs[run.id].run == run && run.status == Waiting &&
                 run.resumeAt.Some? && run.resumeAt.value <= now
      ensures run in rs
    {
      assert run.id in db.waiting;
      var i :| 0 <= i < |rs| && rs[i].id == run.id;
      assert rs[i] == run;
    }
  }

  /** Every save keeps the index in step with the table, provided a waiting run says until when. */
  lemma SavedAgrees(db: Db, run: Run, payload: Option<Json>)
    requires IndexAgrees(db)
    requires run.status == Waiting ==> run.resumeAt.Some?
    ensures IndexAgrees(Saved(db, run, payload))
  {
  }

  /** Saving never touches another run's row or index entry, nor any run's payload column. */
  lemma SavedFrame(db: Db, run: Run, payload: Option<Json>, id: string)
    requires id in db.runs
    ensures
      var db' := Saved(db, run, payload);
      id in db'.runs && db'.runs[id].payload == db.runs[id].payload &&
      (id != run.id ==> db'.runs[id] == db.runs[id] && (id in db'.waiting <==> id in db.waiting)
                        && (id in db.waiting ==> db'.waiting[id] == db.waiting[id]))
  {
  }

  /** What a save writes. A new row is the run as it is; an existing row takes over status, step, context
      and times, and keeps unit, event, user, start and payload. An empty error text counts as none. */
  lemma SavedMeans(db: Db, run: Run, payload: Option<Json>)
    ensures
      var db' := Saved(db, run, payload);
      var error := if run.error == Some("") then None else run.error;
      run.id in db'.runs && db'.units == db.units && db'.steps == db.steps &&
      var row := db'.runs[run.id];
      row.run.status == run.status && row.run.step == run.step && row.run.context == run.context && row.run.error == error &&
      row.run.completedAt == run.completedAt && row.run.resumeAt == run.resumeAt &&
      (if run.id in db.runs then
         var was := db.runs[run.id];
         row.payload == was.payload && row.run.id == was.run.id && row.run.unitId == was.run.unitId &&
         row.run.eventId == was.run.eventId && row.run.userId == was.run.userId && row.run.startedAt == was.run.startedAt
       else
         row.run == run.(error := error) &&
         row.payload == if payload.Some? && payload.value !in [Null, Bool(false), Num(0.0), Str("")] then payload else None)
  {
  }

  datatype Event = Event(id: string, source: string, event: string, userId: string, payload: Json,
                         dedupeKey: Option<string>)

  const DEDUPE_MS: nat := 7 * 24 * 60 * MINUTE

  /** A Redis key with an expiry exists until that instant. */
  predicate KeyLive(keys: map<string, nat>, key: string, now: nat) {
    key in keys && now < keys[key]
  }

  class HybridStore {
    var units: map<string, Unit>
    var runs: map<string, Row>
    var waiting: map<string, nat>
    var steps: map<string, StepLog>
    var dedupe: map<string, nat>
    var published: seq<Event>

    constructor (units: map<string, Unit>)
      ensures View() == Db(units, map[], map[], map[])
      ensures dedupe == map[] && published == []
    {
      this.units := units;
      runs, waiting, steps, dedupe, published := map[], map[], map[], map[], [];
    }

    ghost function View(): Db
      reads this
    {
      Db(units, runs, waiting, steps)
    }

    /** writeEvent at time `now`: false if the event's key was seen in the last seven days. */
    method WriteEvent(event: Event, now: nat) returns (written: bool)
      modifies `dedupe, `published
      ensures
        var isNew := event.dedupeKey.None? || event.dedupeKey == Some("") || !KeyLive(old(dedupe), event.dedupeKey.value, now);
        && written == isNew
        && published == (if isNew then old(published) + [event] else old(published))
        && dedupe == (if isNew && event.dedupeKey.Some? && event.dedupeKey.value != ""
                      then old(dedupe)[event.dedupeKey.value := now + DEDUPE_MS] else old(dedupe))
    {
      if event.dedupeKey.Some? && event.dedupeKey.value != "" {
        if KeyLive(dedupe, event.dedupeKey.value, now) { return false; }
        dedupe := dedupe[event.dedupeKey.value := now + DEDUPE_MS];
      }
      published := published + [event];
      written := true;
    }

    method GetUnit(id: string) returns (unit: Option<Unit>)
      ensures unit == if id in units then Some(units[id]) else None
    {
      unit := if id in units then Some(units[id]) else None;
    }

    method SaveRun(run: Run, payload: Option<Json>)
      modifies `runs, `waiting
      ensures View() == Saved(old(View()), run, payload)
    {
      var error := if run.error == Some("") then None else run.error;
      if run.id in runs {
        var row := runs[run.id];
        runs := runs[run.id := row.(run := row.run.(status := run.status, step := run.step, context := run.context,
                                                    completedAt := run.completedAt, resumeAt := run.resumeAt, error := error))];
      } else {
        runs := runs[run.id := Row(run.(error := error), IfTruthy(payload))];
      }
      if run.status == Waiting && run.resumeAt.Some? {
        waiting := waiting[run.id := run.resumeAt.value];
      } else {
        waiting := waiting - {run.id};
      }
    }

    method LogRunStep(id: string, k: nat, action: Action, status: StepStatus, result: Option<Json>, error: Option<string>)
      modifies `steps
      ensures View() == Logged(old(View()), id, k, action, status, result, error)
    {
      var log := if id in steps then steps[id] else map[];
      var kept := if k in log then log[k].action else action;
      steps := steps[id := log[k := StepRow(kept, status, IfTruthy(result), NonEmpty(error))]];
    }

    method GetWaitingRuns(now: nat) returns (rs: seq<Run>)
      requires forall id <- runs :: runs[id].run.id == id
      ensures IsDue(View(), now, rs)
    {
      rs := [];
      var ids := set id | id in waiting && waiting[id] <= now && id in runs;
      ghost var all := ids;
      while ids != {}
        invariant ids <= all
        invariant forall i :: 0 <= i < |rs| ==> rs[i].id in all && rs[i].id !in ids && runs[rs[i].id].run == rs[i]
        invariant forall i, j :: 0 <= i < j < |rs| ==> rs[i].id != rs[j].id
        invariant forall id <- all :: id in ids || exists i :: 0 <= i < |rs| && rs[i].id == id
        decreases |ids|
      {
        var id :| id in ids;
        ghost var before := rs;
        rs := rs + [runs[id].run];
        ids := ids - {id};
        assert rs[|rs| - 1].id == id;
        assert forall i :: 0 <= i < |before| ==> rs[i] == before[i];
      }
      forall id | id in waiting && waiting[id] <= now && id in runs
        ensures exists i :: 0 <= i < |rs| && rs[i].id == id
      {
        assert id in all;
      }
    }

    method GetRunForRerun(id: string) returns (row: Option<Row>)
      ensures row == if id in runs then Some(runs[id]) else None
    {
      row := if id in runs then Some(runs[id]) else None;
    }
  }
}
