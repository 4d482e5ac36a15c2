/** What the automation engine guarantees after every list of happenings. */
module Guarantees {
  import opened Wrappers
  import opened Json
  import opened Automation
  import opened Store
  import opened Runs
  import opened Engine
  import X = Exchange

  ghost function Reach(w: World, units: map<string, Unit>, hs: seq<Happening>): State {
    After(w, Initial(units), hs)
  }

  function Start(o: Origin): Fields {
    map["payload" := o.payload]
  }

  predicate Terminal(run: Run) {
    run.status == Success || run.status == Failed
  }

  // ---- Wait erasure -----------------------------------------------------------------------------

  lemma CallsAppend(t: seq<Invocation>, i: Invocation)
    ensures Calls(t + [i]) == Calls(t) + [i.call]
  {
  }

  /** One more action at the end of a straight line. */
  lemma StraightSnoc(w: World, userId: string, works: seq<Work>, work: Work, ctx: Fields)
    requires Straight(w, userId, works, ctx, []).error.None?
    ensures
      var f := Straight(w, userId, works, ctx, []);
      var heard := Heard(w, work, userId, f.ctx, f.heard);
      Straight(w, userId, works + [work], ctx, []) ==
        match Answer(w, work, userId, f.ctx, f.heard)
        case Raised(e, _) => Final(|works|, Some(e), f.ctx, heard)
        case Returned(v, _) => Final(|works| + 1, None, Stored(work, f.ctx, v), heard)
  {
    var f := Straight(w, userId, works, ctx, []);
    StraightAppend(w, userId, works, [work], ctx, []);
    assert [work][1..] == [];
  }

  /** Up to step `k` a run has done what the straight line over the actions below `k` does. */
  lemma {:induction false} IdealIsStraight(w: World, actions: seq<Action>, o: Origin, k: nat)
    requires k <= |actions| && IdealAt(w, actions, o, k).ok
    ensures
      var i, works := IdealAt(w, actions, o, k), WithoutWaits(actions[..k]);
      Straight(w, o.userId, works, Start(o), []) == Final(|works|, None, i.ctx, Calls(i.trace))
  {
    if k == 0 {
    } else {
      IdealIsStraight(w, actions, o, k - 1);
      assert actions[..k] == actions[..k - 1] + [actions[k - 1]];
      WithoutWaitsAppend(actions[..k - 1], [actions[k - 1]]);
      var i, before := IdealAt(w, actions, o, k - 1), WithoutWaits(actions[..k - 1]);
      if actions[k - 1].Wait? {
        assert WithoutWaits([actions[k - 1]]) == [];
        assert before + [] == before;
      } else {
        var work := actions[k - 1].work;
        assert WithoutWaits([actions[k - 1]]) == [work];
        StraightSnoc(w, o.userId, before, work, Start(o));
        AskedIsHeard(w, actions, o, k - 1);
      }
    }
  }

  lemma AskedIsHeard(w: World, actions: seq<Action>, o: Origin, k: nat)
    requires k < |actions| && actions[k].Do?
    ensures
      var i := IdealAt(w, actions, o, k);
      Calls(Asked(w, actions, o, k)) == Heard(w, actions[k].work, o.userId, i.ctx, Calls(i.trace))
  {
    var i := IdealAt(w, actions, o, k);
    var call := Request(w, actions[k].work, o.userId, i.ctx);
    if call.Some? { CallsAppend(i.trace, Invocation(k, call.value)); }
  }

  /** If the action at `k` raises an error, so does the straight line over the whole list, there. */
  lemma RaiseIsStraight(w: World, actions: seq<Action>, o: Origin, k: nat, e: string)
    requires k < |actions| && actions[k].Do? && IdealAt(w, actions, o, k).ok && RaisesAt(w, actions, o, k, e)
    ensures
      Straight(w, o.userId, WithoutWaits(actions), Start(o), []) ==
        Final(|WithoutWaits(actions[..k])|, Some(e), IdealAt(w, actions, o, k).ctx, Calls(Asked(w, actions, o, k)))
  {
    var below, work := WithoutWaits(actions[..k]), actions[k].work;
    IdealIsStraight(w, actions, o, k);
    AskedIsHeard(w, actions, o, k);
    StraightSnoc(w, o.userId, below, work, Start(o));
    assert actions == (actions[..k] + [actions[k]]) + actions[k + 1..];
    WithoutWaitsAppend(actions[..k] + [actions[k]], actions[k + 1..]);
    WithoutWaitsAppend(actions[..k], [actions[k]]);
    assert WithoutWaits([actions[k]]) == [work];
    StraightAppend(w, o.userId, below + [work], WithoutWaits(actions[k + 1..]), Start(o), []);
  }

  /** The run `run` ended as the straight line over `actions` without its waits does: the same
      outcome and error, the same first failing action, the same context, the same calls in the
      same order. */
  ghost predicate EndsLikeStraight(w: World, actions: seq<Action>, o: Origin, run: Run, trace: seq<Invocation>) {
    var f := Straight(w, o.userId, WithoutWaits(actions), Start(o), []);
    && run.step <= |actions|
    && run.context == f.ctx && Calls(trace) == f.heard
    && (run.status == Success <==> f.error.None?)
    && run.error == NonEmpty(f.error)
    && f.done == |WithoutWaits(actions[..run.step])|
    && (f.error.None? ==> run.step == |actions|)
  }

  /** The run stopped at a wait that would end after the last instant a Date can hold. */
  ghost predicate StoppedAtWait(actions: seq<Action>, clock: nat, run: Run) {
    run.status == Failed && run.step < |actions| && actions[run.step].Wait? &&
    ResumeTime(clock, actions[run.step].duration).None?
  }

  /** Wait erasure. However its execution was cut up by waits, ticks, other runs and crashes, a run
      of an existing unit that is over ended as the straight line without waits exactly if it did
      not stop at a wait beyond the end of time. */
  lemma WaitErasure(w: World, units: map<string, Unit>, hs: seq<Happening>, id: string)
    requires
      var st := Reach(w, units, hs);
      id in st.sys.db.runs && Terminal(st.sys.db.runs[id].run) && st.sys.db.runs[id].run.unitId in units
    ensures
      var st := Reach(w, units, hs);
      var run := st.sys.db.runs[id].run;
      var actions := units[run.unitId].actions;
      id in st.born &&
      (EndsLikeStraight(w, actions, st.born[id], run, TraceOf(st.sys, id)) <==> !StoppedAtWait(actions, st.sys.clock, run))
  {
    hide IdealAt, After, Straight, WaitSum, WaitCount;
    var st := Reach(w, units, hs);
    Known(w, units, hs, id);
    var run, o, sl := st.sys.db.runs[id].run, st.born[id], SliceOf(st, id);
    var actions := units[run.unitId].actions;
    assert actions[..|actions|] == actions;
    if run.status == Success {
      IdealIsStraight(w, actions, o, |actions|);
    } else if actions[run.step].Do? {
      var e :| FailedAt(w, actions, o, run.step, sl, e) && run.error == NonEmpty(Some(e));
      RaiseIsStraight(w, actions, o, run.step, e);
    } else {
      IdealIsStraight(w, actions, o, run.step);
      assert actions == actions[..run.step] + actions[run.step..];
      WithoutWaitsAppend(actions[..run.step], actions[run.step..]);
      StraightAppend(w, o.userId, WithoutWaits(actions[..run.step]), WithoutWaits(actions[run.step..]), Start(o), []);
      ErrorsAreHeard(w, o.userId, WithoutWaits(actions[run.step..]), run.context, Calls(TraceOf(st.sys, id)));
    }
  }

  /** An error is always preceded by the call that raised it. */
  lemma {:induction false} ErrorsAreHeard(w: World, userId: string, works: seq<Work>, ctx: Fields, heard: seq<Call>)
    ensures
      var f := Straight(w, userId, works, ctx, heard);
      |heard| <= |f.heard| && (f.error.Some? ==> |heard| < |f.heard|)
  {
    if works == [] || Answer(w, works[0], userId, ctx, heard).Raised? {
    } else {
      ErrorsAreHeard(w, userId, works[1..], Stored(works[0], ctx, Answer(w, works[0], userId, ctx, heard).value),
                     Heard(w, works[0], userId, ctx, heard));
    }
  }

  /** If every wait of the unit still fits before the end of time now, there is no exception. */
  lemma WaitErasureWithinTime(w: World, units: map<string, Unit>, hs: seq<Happening>, id: string)
    requires
      var st := Reach(w, units, hs);
      id in st.sys.db.runs && Terminal(st.sys.db.runs[id].run) && st.sys.db.runs[id].run.unitId in units &&
      forall a <- units[st.sys.db.runs[id].run.unitId].actions :: a.Wait? ==> ResumeTime(st.sys.clock, a.duration).Some?
    ensures
      var st := Reach(w, units, hs);
      var run := st.sys.db.runs[id].run;
      id in st.born && EndsLikeStraight(w, units[run.unitId].actions, st.born[id], run, TraceOf(st.sys, id))
  {
    WaitErasure(w, units, hs, id);
  }

  lemma {:induction false} IdealOkBefore(w: World, actions: seq<Action>, o: Origin, j: nat, k: nat)
    requires j <= k <= |actions| && IdealAt(w, actions, o, k).ok
    ensures IdealAt(w, actions, o, j).ok
    decreases k
  {
    if j == k {
    } else {
      IdealOkBefore(w, actions, o, j, k - 1);
    }
  }

  /** A run can get to step `k` exactly if the straight line over the actions below raises nothing. */
  lemma {:induction false} IdealOkExactly(w: World, actions: seq<Action>, o: Origin, k: nat)
    requires k <= |actions|
    ensures IdealAt(w, actions, o, k).ok <==> Straight(w, o.userId, WithoutWaits(actions[..k]), Start(o), []).error.None?
  {
    if IdealAt(w, actions, o, k).ok {
      IdealIsStraight(w, actions, o, k);
    } else {
      IdealOkExactly(w, actions, o, k - 1);
      var before, last := actions[..k - 1], actions[k - 1];
      assert actions[..k] == before + [last];
      WithoutWaitsAppend(before, [last]);
      if last.Wait? {
        assert WithoutWaits([last]) == [] && WithoutWaits(before) + [] == WithoutWaits(before);
      } else {
        assert WithoutWaits([last]) == [last.work];
        if IdealAt(w, actions, o, k - 1).ok {
          IdealIsStraight(w, actions, o, k - 1);
          StraightSnoc(w, o.userId, WithoutWaits(before), last.work, Start(o));
        } else {
          StraightAppend(w, o.userId, WithoutWaits(before), [last.work], Start(o), []);
        }
      }
    }
  }

  /** A wait longer than all time is never passed: no run of the list gets beyond it, and if the
      actions before it raise nothing on their own, no run of the list that is over ended as the
      straight line, each having stopped at a wait. */
  lemma HopelessWait(w: World, units: map<string, Unit>, hs: seq<Happening>, id: string, k: nat)
    requires
      var st := Reach(w, units, hs);
      id in st.sys.db.runs && st.sys.db.runs[id].run.unitId in units && id in st.born &&
      var actions := units[st.sys.db.runs[id].run.unitId].actions;
      k < |actions| && actions[k].Wait? && ParseDuration(actions[k].duration) > MAX_TIME
    ensures
      var st := Reach(w, units, hs);
      var run, o := st.sys.db.runs[id].run, st.born[id];
      var actions := units[run.unitId].actions;
      run.step <= k &&
      (Terminal(run) && Straight(w, o.userId, WithoutWaits(actions[..k]), Start(o), []).error.None? ==>
         StoppedAtWait(actions, st.sys.clock, run) && !EndsLikeStraight(w, actions, o, run, TraceOf(st.sys, id)))
  {
    hide IdealAt, After, Straight, WaitSum, WaitCount;
    var st := Reach(w, units, hs);
    Known(w, units, hs, id);
    var run, o, sl := st.sys.db.runs[id].run, st.born[id], SliceOf(st, id);
    var actions := units[run.unitId].actions;
    NotPast(actions, run, k);
    if Terminal(run) && Straight(w, o.userId, WithoutWaits(actions[..k]), Start(o), []).error.None? {
      IdealOkExactly(w, actions, o, k);
      if actions[run.step].Do? {
        IdealOkBefore(w, actions, o, run.step + 1, k);
        RaisedIsNotOk(w, actions, o, run.step);
      }
      WaitErasure(w, units, hs, id);
    }
  }

  lemma NotPast(actions: seq<Action>, run: Run, k: nat)
    requires k < |actions| && actions[k].Wait? && ParseDuration(actions[k].duration) > MAX_TIME
    requires WaitsFitted(actions, run)
    ensures run.step <= k
  {
  }

  lemma RaisedIsNotOk(w: World, actions: seq<Action>, o: Origin, k: nat)
    requires k < |actions| && actions[k].Do? && IdealAt(w, actions, o, k).ok
    ensures ReplyAt(w, actions, o, k).Raised? <==> !IdealAt(w, actions, o, k + 1).ok
  {
  }

  /** The invariant, read for one run. */
  lemma Known(w: World, units: map<string, Unit>, hs: seq<Happening>, id: string)
    ensures
      var st := Reach(w, units, hs);
      st.sys.db.units == units && RunOk(w, units, st.sys.clock, st.crashes, id, SliceOf(st, id)) &&
      (id in st.sys.db.runs ==> id in st.born && st.sys.db.runs[id].run.unitId == st.born[id].unitId)
  {
    AlwaysOk(w, units, hs);
    UnitsFixed(w, Initial(units), hs);
    var st := Reach(w, units, hs);
    assert RunOk(w, st.sys.db.units, st.sys.clock, st.crashes, id, SliceOf(st, id));
  }

  lemma {:induction false} UnitsFixed(w: World, st: State, hs: seq<Happening>)
    ensures After(w, st, hs).sys.db.units == st.sys.db.units
    decreases hs
  {
    hide Apply;
    if hs == [] {
    } else {
      UnitsFixed(w, st, hs[..|hs| - 1]);
      ApplyKeepsUnits(w, After(w, st, hs[..|hs| - 1]), hs[|hs| - 1]);
    }
  }

  lemma ApplyKeepsUnits(w: World, st: State, h: Happening)
    ensures Apply(w, st, h).sys.db.units == st.sys.db.units
  {
    hide StepRun, IsDue;
    if h.Step? && h.id in st.mem && st.mem[h.id].alive && st.mem[h.id].run.id == h.id {
      StepRest(w, st, st.mem[h.id].run, st.mem[h.id].phase);
    }
  }

  // ---- Exactly once -----------------------------------------------------------------------------

  /** The action sends a request when it is reached. */
  predicate CallsOut(a: Action) {
    a.Do? && !a.work.Other?
  }

  ghost predicate InOrder(t: seq<Invocation>) {
    forall i, j :: 0 <= i < j < |t| ==> t[i].step < t[j].step
  }

  ghost predicate CalledAt(t: seq<Invocation>, j: nat) {
    exists i :: 0 <= i < |t| && t[i].step == j
  }

  lemma CalledSnoc(t: seq<Invocation>, last: Invocation, j: nat)
    ensures CalledAt(t + [last], j) <==> CalledAt(t, j) || last.step == j
  {
    var t' := t + [last];
    if CalledAt(t, j) {
      var i :| 0 <= i < |t| && t[i].step == j;
      assert t'[i].step == j;
    }
    if last.step == j { assert t'[|t|].step == j; }
  }

  /** Up to step `k`, the calls were made by exactly the calling actions below `k`, in order. */
  lemma {:induction false} IdealTrace(w: World, actions: seq<Action>, o: Origin, k: nat)
    requires k <= |actions| && IdealAt(w, actions, o, k).ok
    ensures
      var t := IdealAt(w, actions, o, k).trace;
      InOrder(t) && forall j: nat :: CalledAt(t, j) <==> j < k && CallsOut(actions[j])
  {
    if k == 0 {
    } else {
      IdealTrace(w, actions, o, k - 1);
      if actions[k - 1].Do? { AskedTrace(w, actions, o, k - 1); }
    }
  }

  /** With the request of step `k` out, also that one. */
  lemma AskedTrace(w: World, actions: seq<Action>, o: Origin, k: nat)
    requires k < |actions|
    requires
      var t := IdealAt(w, actions, o, k).trace;
      InOrder(t) && forall j: nat :: CalledAt(t, j) <==> j < k && CallsOut(actions[j])
    ensures
      var t := Asked(w, actions, o, k);
      InOrder(t) && forall j: nat :: CalledAt(t, j) <==> j <= k && CallsOut(actions[j])
  {
    hide IdealAt;
    var t, t' := IdealAt(w, actions, o, k).trace, Asked(w, actions, o, k);
    if CallsOut(actions[k]) {
      var last := t'[|t|];
      assert t' == t + [last] && last.step == k;
      forall i | 0 <= i < |t| ensures t[i].step < k { assert CalledAt(t, t[i].step); }
      forall j: nat ensures CalledAt(t', j) <==> CalledAt(t, j) || j == k { CalledSnoc(t, last, j); }
    }
  }

  /** The execution of the run is, or was at a crash, past the request of the current step. */
  predicate PastRequest(run: Run, m: Option<Mem>) {
    run.status == Failed ||
    (m.Some? && (m.value.phase.Answered? || m.value.phase.Noted? || m.value.phase.Erred? || m.value.phase.NotedError?))
  }

  lemma TraceNow(w: World, units: map<string, Unit>, hs: seq<Happening>, id: string)
    requires
      var st := Reach(w, units, hs);
      id in st.sys.db.runs && st.sys.db.runs[id].run.unitId in units
    ensures
      var st := Reach(w, units, hs);
      var run := st.sys.db.runs[id].run;
      var actions, past := units[run.unitId].actions, PastRequest(run, Get(st.mem, id));
      id in st.born && run.step <= |actions| && (past ==> run.step < |actions|) &&
      IdealAt(w, actions, st.born[id], run.step).ok &&
      TraceOf(st.sys, id) ==
        if past then Asked(w, actions, st.born[id], run.step) else IdealAt(w, actions, st.born[id], run.step).trace
  {
    hide After, WaitSum, WaitCount;
    Known(w, units, hs, id);
  }

  /** Exactly once. In every state, the calls a run of an existing unit has made come from its
      calling actions, each at most once and in increasing order; they are all those below the
      current step, and the current one exactly if its request is already out. */
  lemma ExactlyOnce(w: World, units: map<string, Unit>, hs: seq<Happening>, id: string)
    requires
      var st := Reach(w, units, hs);
      id in st.sys.db.runs && st.sys.db.runs[id].run.unitId in units
    ensures
      var st := Reach(w, units, hs);
      var run, t := st.sys.db.runs[id].run, TraceOf(st.sys, id);
      var actions := units[run.unitId].actions;
      InOrder(t) &&
      forall j: nat :: CalledAt(t, j) <==>
        j < |actions| && CallsOut(actions[j]) &&
        (j < run.step || (j == run.step && PastRequest(run, Get(st.mem, id))))
  {
    hide After, RunOk, PastRequest, IdealAt, Asked, CalledAt, InOrder;
    TraceNow(w, units, hs, id);
    var st := Reach(w, units, hs);
    var run, o := st.sys.db.runs[id].run, st.born[id];
    var actions := units[run.unitId].actions;
    IdealTrace(w, actions, o, run.step);
    if PastRequest(run, Get(st.mem, id)) { AskedTrace(w, actions, o, run.step); }
  }

  /** The current step is logged as a success although the row does not say so yet. */
  predicate LoggedAhead(m: Option<Mem>) {
    m.Some? && m.value.phase.Noted?
  }

  ghost predicate Marked(log: StepLog, j: nat, status: StepStatus) {
    j in log && log[j].status == status
  }

  /** The step log. The steps logged as successes are exactly the actions other than waits below
      the current step, and the current one between its log entry and the save that follows; a
      failure is logged exactly at the step where the run failed, or is about to be marked failed. */
  lemma LogAgrees(w: World, units: map<string, Unit>, hs: seq<Happening>, id: string)
    requires
      var st := Reach(w, units, hs);
      id in st.sys.db.runs && st.sys.db.runs[id].run.unitId in units
    ensures
      var st := Reach(w, units, hs);
      var run, log, m := st.sys.db.runs[id].run, StepsOf(st.sys.db, id), Get(st.mem, id);
      var actions := units[run.unitId].actions;
      forall j: nat ::
        (Marked(log, j, StepSuccess) <==>
          j < |actions| && actions[j].Do? && (j < run.step || (j == run.step && LoggedAhead(m)))) &&
        (Marked(log, j, StepFailed) <==>
          j == run.step && (run.status == Failed || (m.Some? && m.value.phase.NotedError?)))
  {
    hide IdealAt, Asked, ReplyAt, After, WaitSum, WaitCount;
    var st := Reach(w, units, hs);
    Known(w, units, hs, id);
    var run, o, sl := st.sys.db.runs[id].run, st.born[id], SliceOf(st, id);
    var actions, k := units[run.unitId].actions, run.step;
    IdealLog(w, actions, o, k);
    if LoggedAhead(sl.mem) { IdealLog(w, actions, o, k + 1); }
  }

  /** The gap is real: whenever an action has answered, a crash right after its log entry leaves a
      step logged as a success that the row has not passed; and so it stays, whatever happens next. */
  lemma CrashLeavesLogAhead(w: World, units: map<string, Unit>, hs: seq<Happening>, id: string, more: seq<Happening>)
    requires
      var st := Reach(w, units, hs);
      id in st.mem && st.mem[id].alive && st.mem[id].phase.Answered? && st.mem[id].run.unitId in units
    ensures
      var st, st' := Reach(w, units, hs), Reach(w, units, hs + [Step(id), Crash] + more);
      id in st.sys.db.runs && id in st'.sys.db.runs && st'.sys.db.runs[id].run == st.sys.db.runs[id].run &&
      st'.sys.db.runs[id].run.status == Running &&
      Marked(StepsOf(st'.sys.db, id), st'.sys.db.runs[id].run.step, StepSuccess)
  {
    var st := Reach(w, units, hs);
    AlwaysOk(w, units, hs);
    MemRunId(w, st, id);
    UnitsFixed(w, Initial(units), hs);
    AnsweredKnown(w, st, id);
    AfterTwo(w, Initial(units), hs, Step(id), Crash);
    NotedThenCrashed(w, st, id);
    hide Apply, After, Ok, Marked;
    StuckForGood(w, units, hs + [Step(id), Crash], more, id);
    SamePart(Reach(w, units, hs + [Step(id), Crash]), Reach(w, units, hs + [Step(id), Crash] + more), id);
  }

  lemma SamePart(a: State, b: State, id: string)
    requires PartOf(a.sys, id) == PartOf(b.sys, id)
    ensures Get(a.sys.db.runs, id) == Get(b.sys.db.runs, id) && StepsOf(a.sys.db, id) == StepsOf(b.sys.db, id)
  {
  }

  lemma AnsweredKnown(w: World, st: State, id: string)
    requires Ok(w, st) && id in st.mem && st.mem[id].alive && st.mem[id].phase.Answered? && st.mem[id].run.unitId in st.sys.db.units
    ensures
      var run := st.mem[id].run;
      id in st.sys.db.runs && st.sys.db.runs[id].run == run && run.status == Running && run.id == id &&
      run.step < |ActionsOf(st, run.unitId)| && ActionsOf(st, run.unitId)[run.step].Do?
  {
    hide IdealAt, Asked, ReplyAt, OnTime, Counted;
    assert RunOk(w, st.sys.db.units, st.sys.clock, st.crashes, id, SliceOf(st, id));
  }

  lemma NotedThenCrashed(w: World, st: State, id: string)
    requires id in st.mem && st.mem[id].alive && st.mem[id].phase.Answered? && st.mem[id].run.id == id
    requires
      var run := st.mem[id].run;
      id in st.sys.db.runs && st.sys.db.runs[id].run == run && run.status == Running &&
      run.step < |ActionsOf(st, run.unitId)| && ActionsOf(st, run.unitId)[run.step].Do?
    ensures
      var st' := Apply(w, Apply(w, st, Step(id)), Crash);
      id in st'.sys.db.runs && Stuck(st', id) && st'.sys.db.runs[id] == st.sys.db.runs[id] &&
      Marked(StepsOf(st'.sys.db, id), st.mem[id].run.step, StepSuccess)
  {
    var noted := OwnStep(w, st, st.mem[id].run, st.mem[id].phase);
  }

  lemma AfterTwo(w: World, st: State, hs: seq<Happening>, a: Happening, b: Happening)
    ensures After(w, st, hs + [a, b]) == Apply(w, Apply(w, After(w, st, hs), a), b)
  {
    hide Apply;
    assert (hs + [a, b])[..|hs| + 1] == hs + [a] && (hs + [a])[..|hs|] == hs;
  }

  lemma {:induction false} AfterAppend(w: World, st: State, a: seq<Happening>, b: seq<Happening>)
    ensures After(w, st, a + b) == After(w, After(w, st, a), b)
    decreases b
  {
    hide Apply;
    if b == [] {
      assert a + b == a;
    } else {
      assert (a + b)[..|a + b| - 1] == a + b[..|b| - 1];
      AfterAppend(w, st, a, b[..|b| - 1]);
    }
  }

  /** What nothing works on stays as it is: a row that is not waiting and has no live execution (one
      that a crash interrupted, say) is never read by a tick, so row, index entry, log and calls
      never change again. */
  lemma {:induction false} StuckForGood(w: World, units: map<string, Unit>, hs: seq<Happening>, more: seq<Happening>, id: string)
    requires
      var st := Reach(w, units, hs);
      id in st.sys.db.runs && Stuck(st, id)
    ensures
      var st, st' := Reach(w, units, hs), Reach(w, units, hs + more);
      PartOf(st'.sys, id) == PartOf(st.sys, id) && id in st'.sys.db.runs && Stuck(st', id)
    decreases more
  {
    hide After, Apply, Stuck;
    if more == [] {
      assert hs + more == hs;
    } else {
      var front, h := more[..|more| - 1], more[|more| - 1];
      StuckForGood(w, units, hs, front, id);
      AlwaysOk(w, units, hs + front);
      StuckStep(w, Reach(w, units, hs + front), h, id);
      assert hs + more == (hs + front) + [h];
      AfterOne(w, Initial(units), hs + front, h);
    }
  }

  /** The row is not waiting, and no execution works on it. */
  ghost predicate Stuck(st: State, id: string)
    requires id in st.sys.db.runs
  {
    st.sys.db.runs[id].run.status != Waiting && (id in st.mem ==> !st.mem[id].alive)
  }

  /** A run that is over never changes again, whatever happens. */
  lemma OverForGood(w: World, units: map<string, Unit>, hs: seq<Happening>, more: seq<Happening>, id: string)
    requires
      var st := Reach(w, units, hs);
      id in st.sys.db.runs && Terminal(st.sys.db.runs[id].run)
    ensures PartOf(Reach(w, units, hs + more).sys, id) == PartOf(Reach(w, units, hs).sys, id)
  {
    hide After;
    AlwaysOk(w, units, hs);
    NobodyWorksOn(w, Reach(w, units, hs), id);
    StuckForGood(w, units, hs, more, id);
  }

  lemma NobodyWorksOn(w: World, st: State, id: string)
    requires Ok(w, st) && id in st.sys.db.runs && Terminal(st.sys.db.runs[id].run)
    ensures Stuck(st, id)
  {
    hide IdealAt, Asked, ReplyAt, OnTime, Counted;
    assert RunOk(w, st.sys.db.units, st.sys.clock, st.crashes, id, SliceOf(st, id));
  }

  lemma AfterOne(w: World, st: State, hs: seq<Happening>, h: Happening)
    ensures After(w, st, hs + [h]) == Apply(w, After(w, st, hs), h)
  {
    assert (hs + [h])[..|hs|] == hs;
  }

  lemma StuckStep(w: World, st: State, h: Happening, id: string)
    requires Ok(w, st) && id in st.sys.db.runs && Stuck(st, id)
    ensures
      var st' := Apply(w, st, h);
      PartOf(st'.sys, id) == PartOf(st.sys, id) && id in st'.sys.db.runs && Stuck(st', id)
  {
    hide Ok, QueueOk, Apply, Stuck;
    assert id in st.born by { if id !in st.born { Unborn(w, st, id); assert false; } }
    match h
    case Step(stepping) => StuckWhileStepping(w, st, stepping, id);
    case ResumeNext => StuckWhileResuming(w, st, id);
    case _ => StuckOtherwise(w, st, h, id);
  }

  lemma StuckWhileResuming(w: World, st: State, id: string)
    requires Ok(w, st) && id in st.sys.db.runs && Stuck(st, id)
    ensures
      var st' := Apply(w, st, ResumeNext);
      PartOf(st'.sys, id) == PartOf(st.sys, id) && id in st'.sys.db.runs && Stuck(st', id)
  {
    hide RunOk;
  }

  lemma StuckOtherwise(w: World, st: State, h: Happening, id: string)
    requires id in st.sys.db.runs && Stuck(st, id) && id in st.born && !h.Step? && !h.ResumeNext?
    ensures
      var st' := Apply(w, st, h);
      PartOf(st'.sys, id) == PartOf(st.sys, id) && id in st'.sys.db.runs && Stuck(st', id)
  {
    hide StepRun, IsDue;
  }

  lemma StuckWhileStepping(w: World, st: State, stepping: string, id: string)
    requires id in st.sys.db.runs && Stuck(st, id)
    ensures
      var st' := Apply(w, st, Step(stepping));
      PartOf(st'.sys, id) == PartOf(st.sys, id) && id in st'.sys.db.runs && Stuck(st', id)
  {
    hide StepRun;
    if stepping in st.mem && st.mem[stepping].alive && st.mem[stepping].run.id == stepping {
      StepSlices(w, st, st.mem[stepping].run, st.mem[stepping].phase, id);
      var st' := StepRun(w, st, st.mem[stepping].run, st.mem[stepping].phase);
      assert PartOf(st'.sys, id).row == PartOf(st.sys, id).row && Get(st'.mem, id) == Get(st.mem, id);
    }
  }

  /** Such a crash can happen: a no-op action is enough. */
  lemma LogAheadExample(w: World, units: map<string, Unit>, unitId: string)
    requires unitId in units && units[unitId].actions == [Do(Other("notify", Null))]
    ensures
      var st := Reach(w, units, [Arrive("r", unitId, "e", "u", Null), Step("r"), Step("r"), Step("r"), Crash]);
      "r" in st.sys.db.runs && Marked(StepsOf(st.sys.db, "r"), st.sys.db.runs["r"].run.step, StepSuccess)
  {
    hide Apply, After;
    var h0, step := Arrive("r", unitId, "e", "u", Null), Step("r");
    var s1, r0 := FirstArrival(w, units, unitId);
    var r := r0.(status := Running);
    AfterTwo(w, Initial(units), [h0], step, step);
    var s2 := OwnStep(w, s1, r0, Fresh);
    assert s2.mem["r"] == Mem(r, Head, true);
    var s3 := OwnStep(w, s2, r, Head);
    assert s3.mem["r"] == Mem(r, Answered(None), true);
    assert [h0] + [step, step] + [step, Crash] == [h0, step, step, step, Crash];
    CrashLeavesLogAhead(w, units, [h0] + [step, step], "r", []);
    assert [h0, step, step, step, Crash] + [] == [h0, step, step, step, Crash];
  }

  /** And a run can stop at a wait: some fourteen million weeks are enough. */
  lemma FarWaitExample(w: World, units: map<string, Unit>, unitId: string, n: nat)
    requires unitId in units && units[unitId].actions == [Wait(Decimal(n) + "w")] && n >= 14_285_715
    ensures
      var st := Reach(w, units, [Arrive("r", unitId, "e", "u", Null), Step("r"), Step("r"), Step("r"), Step("r")]);
      "r" in st.sys.db.runs && "r" in st.born && st.sys.db.runs["r"].run.unitId == unitId &&
      var run := st.sys.db.runs["r"].run;
      Terminal(run) && StoppedAtWait(units[unitId].actions, st.sys.clock, run) &&
      !EndsLikeStraight(w, units[unitId].actions, st.born["r"], run, TraceOf(st.sys, "r"))
  {
    hide Apply, ParseDuration, Decimal, EndsLikeStraight, StoppedAtWait, After, RunOk;
    var h0, step := Arrive("r", unitId, "e", "u", Null), Step("r");
    var s1, r0 := FirstArrival(w, units, unitId);
    TooFar(n);
    AfterTwo(w, Initial(units), [h0], step, step);
    AfterTwo(w, Initial(units), [h0] + [step, step], step, step);
    var all := [h0, step, step, step, step];
    assert [h0] + [step, step] + [step, step] == all;
    var s3, r := FarWaitRaises(w, s1, r0);
    var s5 := ErrorFails(w, s3, r, INVALID_TIME);
    Known(w, units, all, "r");
    assert WithoutWaits(units[unitId].actions[..0]) == [];
    HopelessWait(w, units, all, "r", 0);
  }

  predicate RowFor(st: State, id: string, unitId: string) {
    id in st.sys.db.runs && st.sys.db.runs[id].run.unitId == unitId
  }

  lemma FirstArrival(w: World, units: map<string, Unit>, unitId: string) returns (s1: State, r0: Run)
    ensures s1 == Reach(w, units, [Arrive("r", unitId, "e", "u", Null)]) && s1.sys.db.units == units
    ensures r0 == Run("r", unitId, "e", "u", Pending, 0, map["payload" := Null], 0, None, None, None)
    ensures "r" in s1.mem && s1.mem["r"] == Mem(r0, Fresh, true) && RowFor(s1, "r", unitId)
  {
    var h0 := Arrive("r", unitId, "e", "u", Null);
    r0 := Run("r", unitId, "e", "u", Pending, 0, map["payload" := Null], 0, None, None, None);
    assert [h0][..0] == [];
    s1 := Apply(w, Initial(units), h0);
    assert After(w, Initial(units), []) == Initial(units);
  }

  /** From the start to the error at a first action that waits too long. */
  lemma FarWaitRaises(w: World, st: State, run: Run) returns (st': State, run': Run)
    requires run.id in st.mem && st.mem[run.id] == Mem(run, Fresh, true) && run.step == 0 && run.unitId in st.sys.db.units
    requires RowFor(st, run.id, run.unitId)
    requires
      var actions := st.sys.db.units[run.unitId].actions;
      actions != [] && actions[0].Wait? && ParseDuration(actions[0].duration) > MAX_TIME
    ensures st' == Apply(w, Apply(w, st, Step(run.id)), Step(run.id)) && st'.sys.db.units == st.sys.db.units
    ensures run' == run.(status := Running) && run.id in st'.mem && st'.mem[run.id] == Mem(run', Erred(INVALID_TIME), true)
    ensures RowFor(st', run.id, run.unitId)
  {
    hide Apply, ParseDuration;
    run' := run.(status := Running);
    var st1 := OwnStep(w, st, run, Fresh);
    st' := OwnStep(w, st1, run', Head);
  }

  /** From an error to the failed row. */
  lemma ErrorFails(w: World, st: State, run: Run, e: string) returns (st': State)
    requires run.id in st.mem && st.mem[run.id] == Mem(run, Erred(e), true) && RowFor(st, run.id, run.unitId)
    requires run.unitId in st.sys.db.units && run.step < |st.sys.db.units[run.unitId].actions|
    ensures st' == Apply(w, Apply(w, st, Step(run.id)), Step(run.id))
    ensures RowFor(st', run.id, run.unitId) && st'.sys.db.runs[run.id].run.status == Failed
  {
    hide Apply;
    var failed := run.(status := Failed, error := Some(e), completedAt := Some(st.sys.clock));
    var st1 := OwnStep(w, st, run, Erred(e));
    st' := OwnStep(w, st1, failed, NotedError);
  }

  lemma TooFar(n: nat)
    requires n >= 14_285_715
    ensures ParseDuration(Decimal(n) + "w") > MAX_TIME
  {
    DurationRoundTrip(n, 'w');
    hide ParseDuration, Decimal;
    assert Decimal(n) + "w" == Decimal(n) + ['w'];
    assert UnitMs('w').value == 604_800_000;
    assert n * 604_800_000 >= 14_285_715 * 604_800_000;
  }

  lemma OwnStep(w: World, st: State, run: Run, phase: Phase) returns (st': State)
    requires run.id in st.mem && st.mem[run.id] == Mem(run, phase, true)
    ensures
      var sl := StepSlice(w, st.sys.db.units, st.sys.clock, SliceOf(st, run.id), run, phase);
      st' == Apply(w, st, Step(run.id)) && st'.sys.db.units == st.sys.db.units && SliceOf(st', run.id) == sl &&
      (sl.mem.Some? ==> run.id in st'.mem && st'.mem[run.id] == sl.mem.value) &&
      (sl.p.row.Some? ==> run.id in st'.sys.db.runs && st'.sys.db.runs[run.id] == sl.p.row.value)
  {
    st' := Apply(w, st, Step(run.id));
    StepSlices(w, st, run, phase, run.id);
    StepRest(w, st, run, phase);
  }

  // ---- The waiting index ------------------------------------------------------------------------

  /** After every list of happenings the sorted set and the table agree, so a tick reads exactly
      the rows that are waiting and due. */
  lemma IndexAlwaysAgrees(w: World, units: map<string, Unit>, hs: seq<Happening>)
    ensures IndexAgrees(Reach(w, units, hs).sys.db)
  {
    var st := Reach(w, units, hs);
    forall id | id in st.sys.db.waiting ensures id in st.sys.db.runs {
      Known(w, units, hs, id);
      assert SliceOf(st, id).p.score.Some?;
    }
    forall id | id in st.sys.db.runs
      ensures
        var run := st.sys.db.runs[id].run;
        run.id == id && (run.status == Waiting <==> id in st.sys.db.waiting) &&
        (id in st.sys.db.waiting ==> run.resumeAt == Some(st.sys.db.waiting[id]))
    {
      Known(w, units, hs, id);
      assert SliceOf(st, id).p.row.Some?;
    }
  }

  // ---- Replay -----------------------------------------------------------------------------------

  /** The payload column never changes after the first save: a matched run keeps its event's
      payload (if it is truthy), a rerun has none. */
  lemma PayloadKept(w: World, units: map<string, Unit>, hs: seq<Happening>, id: string)
    requires id in Reach(w, units, hs).sys.db.runs
    ensures
      var st := Reach(w, units, hs);
      id in st.born && st.sys.db.runs[id].payload == KeptPayload(st.born[id])
  {
    Known(w, units, hs, id);
  }

  /** A rerun of a rerun starts nothing. */
  lemma RerunOfRerun(w: World, units: map<string, Unit>, hs: seq<Happening>, id: string, newId: string)
    requires
      var st := Reach(w, units, hs);
      id in st.sys.db.runs && id in st.born && st.born[id].rerun
    ensures
      var st := Reach(w, units, hs);
      RerunOf(st.sys, st.sys.db.runs[id], newId) == None && Apply(w, st, Rerun(id, newId)) == st
  {
    PayloadKept(w, units, hs, id);
  }

  /** A rerun of a matched run with a truthy payload starts from the context the original started
      from, for the same unit and user. */
  lemma RerunStartsAlike(w: World, units: map<string, Unit>, hs: seq<Happening>, id: string, newId: string)
    requires
      var st := Reach(w, units, hs);
      id in st.sys.db.runs && id in st.born && !st.born[id].rerun && Truthy(st.born[id].payload) && newId !in st.born
    ensures
      var st := Reach(w, units, hs);
      var st' := Apply(w, st, Rerun(id, newId));
      newId in st'.born && st'.born[newId] == st.born[id].(rerun := true) &&
      newId in st'.mem && st'.mem[newId].alive &&
      var again := st'.mem[newId].run;
      again.context == Start(st.born[id]) && again.status == Pending && again.step == 0 && again.startedAt == st.sys.clock &&
      again.eventId == "rerun_" + st.sys.db.runs[id].run.eventId
  {
    PayloadKept(w, units, hs, id);
    Known(w, units, hs, id);
  }

  /** Replay: two runs of an existing unit for the same user and payload, both over, neither
      stopped at a wait, agree on status, step, error, context and calls. */
  lemma ReplayAgrees(w: World, units: map<string, Unit>, hs: seq<Happening>, a: string, b: string)
    requires
      var st := Reach(w, units, hs);
      a in st.sys.db.runs && b in st.sys.db.runs && a in st.born && b in st.born &&
      st.born[b].(rerun := false) == st.born[a].(rerun := false) && st.born[a].unitId in units &&
      var ra, rb := st.sys.db.runs[a].run, st.sys.db.runs[b].run;
      var actions := units[st.born[a].unitId].actions;
      Terminal(ra) && Terminal(rb) && !StoppedAtWait(actions, st.sys.clock, ra) && !StoppedAtWait(actions, st.sys.clock, rb)
    ensures
      var st := Reach(w, units, hs);
      var ra, rb := st.sys.db.runs[a].run, st.sys.db.runs[b].run;
      ra.status == rb.status && ra.step == rb.step && ra.error == rb.error && ra.context == rb.context &&
      Calls(TraceOf(st.sys, a)) == Calls(TraceOf(st.sys, b))
  {
    var st := Reach(w, units, hs);
    Known(w, units, hs, a);
    Known(w, units, hs, b);
    WaitErasure(w, units, hs, a);
    WaitErasure(w, units, hs, b);
    var actions := units[st.born[a].unitId].actions;
    var ra, rb := st.sys.db.runs[a].run, st.sys.db.runs[b].run;
    if ra.status == Failed {
      if ra.step < rb.step { DoneGrows(actions, ra.step, rb.step); }
      if rb.step < ra.step { DoneGrows(actions, rb.step, ra.step); }
    }
  }

  /** Exchanging neighbours, for runs of lists with waits. Take two systems, and in each a run for the
      same user and payload that is over and did not stop at a wait. If, waits aside, their lists
      differ only in the order of two neighbours that do not fail where they stand and do not touch
      each other's names, the runs got equally far and agree on status, error and context, and they
      made the same calls. */
  lemma ExchangedRunsAgree(w: World, units: map<string, Unit>, hs: seq<Happening>, a: string,
                           units': map<string, Unit>, hs': seq<Happening>, b: string,
                           pre: seq<Work>, x: Work, y: Work, post: seq<Work>)
    requires OverNotAtWait(w, units, hs, a) && OverNotAtWait(w, units', hs', b)
    requires
      var o, o' := Reach(w, units, hs).born[a], Reach(w, units', hs').born[b];
      o.userId == o'.userId && o.payload == o'.payload &&
      WithoutWaits(units[o.unitId].actions) == pre + [x, y] + post &&
      WithoutWaits(units'[o'.unitId].actions) == pre + [y, x] + post &&
      var f := Straight(w, o.userId, pre, Start(o), []);
      (f.error.None? ==> Answer(w, x, o.userId, f.ctx, f.heard).Returned? && Answer(w, y, o.userId, f.ctx, f.heard).Returned?)
    requires X.Forgetful(w) && X.Independent(x, y)
    ensures
      var st, st' := Reach(w, units, hs), Reach(w, units', hs');
      var run, run' := st.sys.db.runs[a].run, st'.sys.db.runs[b].run;
      run.status == run'.status && run.error == run'.error && run.context == run'.context &&
      multiset(Calls(TraceOf(st.sys, a))) == multiset(Calls(TraceOf(st'.sys, b))) &&
      run.step <= |units[run.unitId].actions| && run'.step <= |units'[run'.unitId].actions| &&
      |WithoutWaits(units[run.unitId].actions[..run.step])| == |WithoutWaits(units'[run'.unitId].actions[..run'.step])|
  {
    hide After, Straight, WithoutWaits;
    var o := Reach(w, units, hs).born[a];
    Known(w, units, hs, a);
    Known(w, units', hs', b);
    WaitErasure(w, units, hs, a);
    WaitErasure(w, units', hs', b);
    X.SwapNeighbours(w, o.userId, pre, x, y, post, Start(o));
  }

  /** The run of an existing unit is over, and did not stop at a wait. */
  ghost predicate OverNotAtWait(w: World, units: map<string, Unit>, hs: seq<Happening>, id: string) {
    var st := Reach(w, units, hs);
    id in st.sys.db.runs && id in st.born && Terminal(st.sys.db.runs[id].run) && st.sys.db.runs[id].run.unitId in units &&
    st.born[id].unitId == st.sys.db.runs[id].run.unitId &&
    !StoppedAtWait(units[st.born[id].unitId].actions, st.sys.clock, st.sys.db.runs[id].run)
  }

  /** Passing an action that is not a wait makes the erased list below longer. */
  lemma DoneGrows(actions: seq<Action>, i: nat, j: nat)
    requires i < j <= |actions| && actions[i].Do?
    ensures |WithoutWaits(actions[..i])| < |WithoutWaits(actions[..j])|
  {
    assert actions[..j] == actions[..i] + actions[i..j];
    WithoutWaitsAppend(actions[..i], actions[i..j]);
  }

  // ---- Waiting times ----------------------------------------------------------------------------

  /** A run stands at step `k` only after at least all the waiting asked for below `k` has passed
      since it first executed; a parked run is due only after the wait it stands at, too. It has
      been resumed at most once per wait below, not counting resumptions a crash wasted. */
  lemma WaitsAreKept(w: World, units: map<string, Unit>, hs: seq<Happening>, id: string)
    requires
      var st := Reach(w, units, hs);
      id in st.sys.db.runs && st.sys.db.runs[id].run.unitId in units && st.sys.db.runs[id].run.status != Pending
    ensures
      var st := Reach(w, units, hs);
      var run := st.sys.db.runs[id].run;
      var actions := units[run.unitId].actions;
      && run.step <= |actions| && id in st.begun
      && (run.status == Waiting ==>
            run.step < |actions| && run.resumeAt.Some? &&
            st.begun[id] + WaitSum(actions, run.step + 1) <= run.resumeAt.value)
      && (run.status != Waiting ==> st.begun[id] + WaitSum(actions, run.step) <= st.sys.clock)
      && (id in st.resumed ==> st.resumed[id] <= WaitCount(actions, |actions|) + st.crashes)
  {
    hide IdealAt, After, WaitSum;
    Known(w, units, hs, id);
    var st := Reach(w, units, hs);
    var run := st.sys.db.runs[id].run;
    var actions := units[run.unitId].actions;
    WaitCountGrows(actions, run.step, |actions|);
    if run.step < |actions| { WaitCountGrows(actions, run.step + 1, |actions|); }
  }

  lemma {:induction false} WaitCountGrows(actions: seq<Action>, i: nat, j: nat)
    requires i <= j <= |actions|
    ensures WaitCount(actions, i) <= WaitCount(actions, j)
    decreases j
  {
    if i == j {
    } else {
      WaitCountGrows(actions, i, j - 1);
    }
  }
}
