/** Execution of runs (src/cortex/runtime.ts). The functions say what each atomic piece of
    `execute` does to the persistent state; the class composes them as the source does. */
module Runs {
  import opened Wrappers
  import opened Json
  import opened Automation
  import opened Store

  /** A call that reached the outside world, with the index of the action that made it. */
  datatype Invocation = Invocation(step: nat, call: Call)

  /** Persistent state, the time, and what the outside world has been asked by each run. */
  datatype Sys = Sys(db: Db, clock: nat, trace: map<string, seq<Invocation>>)

  function TraceOf(s: Sys, id: string): seq<Invocation> {
    if id in s.trace then s.trace[id] else []
  }

  function Calls(t: seq<Invocation>): seq<Call> {
    seq(|t|, i requires 0 <= i < |t| => t[i].call)
  }

  function Save(s: Sys, run: Run): Sys {
    s.(db := Saved(s.db, run, None))
  }

  // ---- Atomic pieces of execute ------------------------------------------------------------

  /** Lines 33-37: no step log and no completion time. */
  function NotFound(run: Run): Run {
    run.(status := Failed, error := Some("Unit not found"))
  }

  /** Line 52: the outside world hears the request, if the action makes one; time passes. */
  function Invoked(w: World, s: Sys, run: Run, work: Work): Sys {
    var heard := Calls(TraceOf(s, run.id));
    var call := Request(w, work, run.userId, run.context);
    if call.None? then s
    else s.(trace := s.trace[run.id := TraceOf(s, run.id) + [Invocation(run.step, call.value)]],
            clock := s.clock + Answer(w, work, run.userId, run.context, heard).took)
  }

  /** Lines 64-69: store the value, log the step. */
  function NotedRun(run: Run, work: Work, v: Option<Json>): Run {
    run.(context := Stored(work, run.context, v))
  }

  function NotedSuccess(s: Sys, run: Run, work: Work, v: Option<Json>): Sys {
    s.(db := Logged(s.db, run.id, run.step, Do(work), StepSuccess, v, None))
  }

  /** Lines 80-84: mark the run failed, log the step. */
  function FailedRun(s: Sys, run: Run, e: string): Run {
    run.(status := Failed, error := Some(e), completedAt := Some(s.clock))
  }

  function NotedFailure(s: Sys, run: Run, action: Action, e: string): Sys {
    s.(db := Logged(s.db, run.id, run.step, action, StepFailed, None, Some(e)))
  }

  /** Lines 56-58. */
  function ParkedRun(run: Run, until: nat): Run {
    run.(status := Waiting, resumeAt := Some(until))
  }

  /** Lines 75-76. */
  function FinishedRun(s: Sys, run: Run): Run {
    run.(status := Success, completedAt := Some(s.clock))
  }

  /** Lines 63-72: the step succeeded. */
  function Advanced(s: Sys, run: Run, work: Work, v: Option<Json>): (Sys, Run) {
    var next := NotedRun(run, work, v).(step := run.step + 1);
    (Save(NotedSuccess(s, run, work, v), next), next)
  }

  /** Lines 79-88: the step raised an error. */
  function Aborted(s: Sys, run: Run, action: Action, e: string): (Sys, Run) {
    var failed := FailedRun(s, run, e);
    (Save(NotedFailure(s, run, action, e), failed), failed)
  }

  // ---- Whole executions ---------------------------------------------------------------------

  /** The loop of execute, from its head. */
  function Loop(w: World, actions: seq<Action>, s: Sys, run: Run): (Sys, Run)
    decreases |actions| - run.step
  {
    if run.step >= |actions| then
      var done := FinishedRun(s, run);
      (Save(s, done), done)
    else
      match actions[run.step]
      case Wait(d) =>
        (match ResumeTime(s.clock, d)
         case Some(t) => (Save(s, ParkedRun(run, t)), ParkedRun(run, t))
         case None => Aborted(s, run, Wait(d), INVALID_TIME))
      case Do(work) =>
        var heard := Calls(TraceOf(s, run.id));
        var s1 := Invoked(w, s, run, work);
        match Answer(w, work, run.userId, run.context, heard)
        case Raised(e, _) => Aborted(s1, run, Do(work), e)
        case Returned(v, _) =>
          var (s2, next) := Advanced(s1, run, work, v);
          Loop(w, actions, s2, next)
  }

  function Executed(w: World, s: Sys, run: Run): (Sys, Run) {
    if run.unitId !in s.db.units then (Save(s, NotFound(run)), NotFound(run))
    else
      var started := run.(status := Running);
      Loop(w, s.db.units[run.unitId].actions, Save(s, started), started)
  }

  /** What the scheduler does with one due run. */
  function Resumed(run: Run): Run {
    run.(status := Running, step := run.step + 1)
  }

  /** One scheduler tick over the rows it read. */
  function ResumeAll(w: World, s: Sys, rs: seq<Run>): Sys
    decreases rs
  {
    if rs == [] then s else ResumeAll(w, Executed(w, s, Resumed(rs[0])).0, rs[1..])
  }

  /** The run that `rerun` starts, if the row kept a payload. */
  function RerunOf(s: Sys, row: Row, newId: string): Option<Run> {
    if row.payload.None? || !Truthy(row.payload.value) then None
    else Some(Run(newId, row.run.unitId, "rerun_" + row.run.eventId, row.run.userId, Pending, 0,
                  map["payload" := row.payload.value], s.clock, None, None, None))
  }

  lemma SaveKeepsIndex(s: Sys, s': Sys, run: Run)
    requires IndexAgrees(s.db) && s'.db.runs == s.db.runs && s'.db.waiting == s.db.waiting
    requires run.status == Waiting ==> run.resumeAt.Some?
    ensures IndexAgrees(Save(s', run).db)
  {
    assert IndexAgrees(s'.db);
    SavedAgrees(s'.db, run, None);
  }

  lemma {:induction false} LoopKeepsIndex(w: World, actions: seq<Action>, s: Sys, run: Run)
    requires IndexAgrees(s.db) && run.status == Running
    ensures IndexAgrees(Loop(w, actions, s, run).0.db)
    decreases |actions| - run.step
  {
    if run.step >= |actions| {
      SaveKeepsIndex(s, s, FinishedRun(s, run));
    } else {
      match actions[run.step]
      case Wait(d) =>
        var t := ResumeTime(s.clock, d);
        if t.Some? {
          SaveKeepsIndex(s, s, ParkedRun(run, t.value));
        } else {
          SaveKeepsIndex(s, NotedFailure(s, run, Wait(d), INVALID_TIME), FailedRun(s, run, INVALID_TIME));
        }
      case Do(work) =>
        var s1 := Invoked(w, s, run, work);
        match Answer(w, work, run.userId, run.context, Calls(TraceOf(s, run.id)))
        case Raised(e, _) => SaveKeepsIndex(s, NotedFailure(s1, run, Do(work), e), FailedRun(s1, run, e));
        case Returned(v, _) =>
          var (s2, next) := Advanced(s1, run, work, v);
          SaveKeepsIndex(s, NotedSuccess(s1, run, work, v), next);
          LoopKeepsIndex(w, actions, s2, next);
    }
  }

  /** Executing any run keeps the waiting index in step with the table. */
  lemma ExecuteKeepsIndex(w: World, s: Sys, run: Run)
    requires IndexAgrees(s.db)
    ensures IndexAgrees(Executed(w, s, run).0.db)
  {
    if run.unitId !in s.db.units {
      SaveKeepsIndex(s, s, NotFound(run));
    } else {
      var started := run.(status := Running);
      SaveKeepsIndex(s, s, started);
      LoopKeepsIndex(w, s.db.units[run.unitId].actions, Save(s, started), started);
    }
  }

  lemma {:induction false} ResumeAllKeepsIndex(w: World, s: Sys, rs: seq<Run>)
    requires IndexAgrees(s.db)
    ensures IndexAgrees(ResumeAll(w, s, rs).db)
    decreases rs
  {
    if rs == [] {
    } else {
      ExecuteKeepsIndex(w, s, Resumed(rs[0]));
      ResumeAllKeepsIndex(w, Executed(w, s, Resumed(rs[0])).0, rs[1..]);
    }
  }

  lemma {:induction false} ResumeAllSnoc(w: World, s: Sys, rs: seq<Run>, r: Run)
    ensures ResumeAll(w, s, rs + [r]) == Executed(w, ResumeAll(w, s, rs), Resumed(r)).0
    decreases rs
  {
    if rs == [] {
      assert [r][1..] == [];
      assert rs + [r] == [r];
    } else {
      assert (rs + [r])[1..] == rs[1..] + [r];
      ResumeAllSnoc(w, Executed(w, s, Resumed(rs[0])).0, rs[1..], r);
    }
  }

  // ---- The services ---------------------------------------------------------------------------

  /** The clock and everything the engine talks to. */
  class Outside {
    const world: World
    var clock: nat
    var trace: map<string, seq<Invocation>>

    constructor (world: World)
      ensures this.world == world && clock == 0 && trace == map[]
    {
      this.world := world;
      clock, trace := 0, map[];
    }

    /** Performs the request of an action and waits for the reply. */
    method Perform(run: Run, work: Work, ghost db: Db) returns (reply: Reply)
      modifies this
      ensures reply == Answer(world, work, run.userId, run.context, Calls(TraceOf(Sys(db, old(clock), old(trace)), run.id)))
      ensures Sys(db, clock, trace) == Invoked(world, Sys(db, old(clock), old(trace)), run, work)
    {
      var sofar := if run.id in trace then trace[run.id] else [];
      reply := Answer(world, work, run.userId, run.context, Calls(sofar));
      var call := Request(world, work, run.userId, run.context);
      if call.Some? {
        trace := trace[run.id := sofar + [Invocation(run.step, call.value)]];
        clock := clock + reply.took;
      }
    }
  }

  class Runtime {
    const store: HybridStore
    const outside: Outside

    constructor (store: HybridStore, outside: Outside)
      ensures this.store == store && this.outside == outside
    {
      this.store, this.outside := store, outside;
    }

    ghost function Now(): Sys
      reads this, store, outside
    {
      Sys(store.View(), outside.clock, outside.trace)
    }

    method Advance(run: Run, work: Work, v: Option<Json>) returns (next: Run)
      modifies store
      ensures (Now(), next) == Advanced(old(Now()), run, work, v)
      ensures store.units == old(store.units)
    {
      next := run.(context := Stored(work, run.context, v));
      store.LogRunStep(run.id, run.step, Do(work), StepSuccess, v, None);
      next := next.(step := next.step + 1);
      store.SaveRun(next, None);
    }

    method Abort(run: Run, action: Action, error: string) returns (failed: Run)
      modifies store
      ensures (Now(), failed) == Aborted(old(Now()), run, action, error)
    {
      failed := run.(status := Failed, error := Some(error), completedAt := Some(outside.clock));
      store.LogRunStep(run.id, run.step, action, StepFailed, None, Some(error));
      store.SaveRun(failed, None);
    }

    method Execute(start: Run) returns (run: Run)
      modifies store, outside
      ensures (Now(), run) == Executed(outside.world, old(Now()), start)
      ensures store.units == old(store.units)
    {
      run := start;
      var unit := store.GetUnit(run.unitId);
      if unit.None? {
        run := NotFound(run);
        store.SaveRun(run, None);
        return;
      }
      var actions := unit.value.actions;
      run := run.(status := Running);
      store.SaveRun(run, None);
      ghost var w := outside.world;
      while run.step < |actions|
        invariant store.units == old(store.units)
        invariant Loop(w, actions, Now(), run) == Executed(w, old(Now()), start)
        decreases |actions| - run.step
      {
        match actions[run.step]
        case Wait(d) =>
          var until := ResumeTime(outside.clock, d);
          if until.Some? {
            run := run.(status := Waiting, resumeAt := Some(until.value));
            store.SaveRun(run, None);
          } else {
            run := Abort(run, Wait(d), INVALID_TIME);
          }
          return;
        case Do(work) =>
          var reply := outside.Perform(run, work, store.View());
          if reply.Raised? {
            run := Abort(run, Do(work), reply.error);
            return;
          }
          run := Advance(run, work, reply.value);
      }
      run := run.(status := Success, completedAt := Some(outside.clock));
      store.SaveRun(run, None);
    }

    /** The scheduler tick: reads the due rows once, then executes them one after another. */
    method ResumeWaitingRuns() returns (ghost due: seq<Run>)
      requires IndexAgrees(store.View())
      modifies store, outside
      ensures IsDue(old(store.View()), old(outside.clock), due)
      ensures Now() == ResumeAll(outside.world, old(Now()), due)
      ensures IndexAgrees(store.View())
    {
      hide Executed;
      var rs := store.GetWaitingRuns(outside.clock);
      due := rs;
      ghost var w := outside.world;
      for i := 0 to |rs|
        invariant Now() == ResumeAll(w, old(Now()), rs[..i])
      {
        var _ := Execute(Resumed(rs[i]));
        assert rs[..i + 1] == rs[..i] + [rs[i]];
        ResumeAllSnoc(w, old(Now()), rs[..i], rs[i]);
      }
      assert rs[..|rs|] == rs;
      ResumeAllKeepsIndex(w, old(Now()), rs);
    }

    method Rerun(id: string, newId: string) returns (run: Option<Run>)
      modifies store, outside
      ensures
        var row := if id in old(store.runs) then RerunOf(old(Now()), old(store.runs)[id], newId) else None;
        if row.None? then run == None && Now() == old(Now())
        else run.Some? && (Now(), run.value) == Executed(outside.world, old(Now()), row.value)
    {
      var row := store.GetRunForRerun(id);
      if row.None? || row.value.payload.None? || !Truthy(row.value.payload.value) { return None; }
      var data := row.value.run;
      var again := Run(newId, data.unitId, "rerun_" + data.eventId, data.userId, Pending, 0,
                       map["payload" := row.value.payload.value], outside.clock, None, None, None);
      var r := Execute(again);
      run := Some(r);
    }
  }
}
