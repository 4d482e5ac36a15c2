/** Execution of an action plan (src/services/PlanExecutorService.ts, executePlan; the follow-up's
    choice of result from src/services/FollowUpService.ts). Tools, the language model, argument
    validation and the rendering of values as text are an `Env`. */
module Plan {
  import opened Wrappers
  import opened Json
  import P = Placeholders

  /** `Else` is any status text the executor does not know. */
  datatype Status = Pending | Ready | Running | Completed | Failed | Else(text: string)

  datatype StepResult = StepResult(ok: bool, data: Option<Json>, error: Option<string>)

  datatype Step = Step(stepId: string, toolId: string, tool: string, args: Fields,
                       status: Status, result: Option<StepResult>)

  datatype RunStatus = RunPending | RunCompleted | RunFailed

  datatype Call = Call(stepId: string, toolId: string, tool: string, args: Fields)

  /** How executeAction ends: with a finished action, or by throwing. */
  datatype Reply = Succeeded(data: Option<Json>) | Refused(data: Option<Json>, error: Option<string>) | Threw(message: string)

  /** `reply` may depend on all earlier calls. `fix` is the argument correction by the model, given
      the previous step's data; `followUp` proposes arguments for the next tool from the data of the
      last completed step. Either may come back with nothing. */
  datatype Env = Env(valid: (string, Fields) -> bool, fixEnabled: bool,
                     fix: (Option<Json>, string, Fields) -> Option<Fields>,
                     reply: (seq<Call>, Call) -> Reply,
                     followUp: (Option<Json>, string) -> Option<Fields>,
                     text: Json -> string)

  predicate Open(s: Step) { s.status == Pending || s.status == Ready }

  /** First step with this id. */
  function Find(plan: seq<Step>, id: string): Option<nat> {
    FindFrom(plan, id, 0)
  }

  function FindFrom(plan: seq<Step>, id: string, i: nat): (r: Option<nat>)
    requires i <= |plan|
    ensures r.Some? ==> i <= r.value < |plan| && plan[r.value].stepId == id
    decreases |plan| - i
  {
    if i == |plan| then None else if plan[i].stepId == id then Some(i) else FindFrom(plan, id, i + 1)
  }

  /** Result data by step id, as placeholders see it. */
  function ResultsOf(plan: seq<Step>): P.Results {
    id =>
      var i := Find(plan, id);
      if i.Some? && plan[i.value].result.Some? then Some(plan[i.value].result.value.data) else None
  }

  /** The data shown to the argument correction: that of the step before the one with this id. */
  function PreviousData(plan: seq<Step>, id: string): Option<Json> {
    var i := Find(plan, id);
    if i.Some? && i.value > 0 && plan[i.value - 1].status == Completed && plan[i.value - 1].result.Some?
    then plan[i.value - 1].result.value.data else None
  }

  /** The arguments a step is executed with. */
  function FinalArgs(env: Env, plan: seq<Step>, i: nat): Fields
    requires i < |plan|
  {
    var step := plan[i];
    var resolved := P.ResolveArgs(ResultsOf(plan), env.text, step.args);
    if env.valid(step.tool, resolved) || !env.fixEnabled then resolved
    else
      match env.fix(PreviousData(plan, step.stepId), step.tool, resolved)
      case Some(fixed) => if env.valid(step.tool, fixed) then fixed else resolved
      case None => resolved
  }

  function CallOf(env: Env, plan: seq<Step>, i: nat): Call
    requires i < |plan|
  {
    Call(plan[i].stepId, plan[i].toolId, plan[i].tool, FinalArgs(env, plan, i))
  }

  /** The step after its action came back. A thrown error leaves it running, with no new result. */
  function Settled(step: Step, args: Fields, reply: Reply): Step {
    match reply
    case Succeeded(data) => step.(args := args, status := Completed, result := Some(StepResult(true, data, None)))
    case Refused(data, e) => step.(args := args, status := Failed, result := Some(StepResult(false, data, e)))
    case Threw(_) => step.(args := args, status := Running)
  }

  /** The plan goes on only after a success with data: announcing a success without data throws. */
  predicate GoesOn(reply: Reply) {
    reply.Succeeded? && reply.data.Some?
  }

  function LastCompleted(plan: seq<Step>): (r: Option<nat>)
    ensures r.Some? ==> r.value < |plan| && plan[r.value].status == Completed
  {
    if plan == [] then None
    else if plan[|plan| - 1].status == Completed then Some(|plan| - 1)
    else LastCompleted(plan[..|plan| - 1])
  }

  /** The follow-up after step `i`: it may replace the arguments of step `i + 1`, finished or not. */
  function FollowedUp(env: Env, plan: seq<Step>, i: nat): (plan': seq<Step>)
    requires i < |plan|
    ensures |plan'| == |plan|
  {
    if plan[i].status != Completed || i + 1 == |plan| then plan
    else
      var last := LastCompleted(plan);
      if last.None? || plan[last.value].result.None? then plan
      else
        match env.followUp(plan[last.value].result.value.data, plan[i + 1].tool)
        case None => plan
        case Some(args) => plan[i + 1 := plan[i + 1].(args := args)]
  }

  /** Plan, calls, and whether the loop goes on. */
  datatype Progress = Progress(plan: seq<Step>, trace: seq<Call>, goesOn: bool)

  /** What the loop does with step `i` itself: an open step is executed, any other left alone. */
  function Attempted(env: Env, plan: seq<Step>, i: nat, trace: seq<Call>): (r: Progress)
    requires i < |plan|
    ensures |r.plan| == |plan|
  {
    if !Open(plan[i]) then Progress(plan, trace, true)
    else
      var call := CallOf(env, plan, i);
      var reply := env.reply(trace, call);
      Progress(plan[i := Settled(plan[i], call.args, reply)], trace + [call], GoesOn(reply))
  }

  /** Where an execution ended: at step `stop`, or past the last one. */
  datatype Outcome = Outcome(plan: seq<Step>, trace: seq<Call>, status: RunStatus, stop: nat)

  /** The loop of executePlan from step `i`. */
  function Exec(env: Env, plan: seq<Step>, i: nat, trace: seq<Call>): (o: Outcome)
    requires i <= |plan|
    ensures |o.plan| == |plan| && i <= o.stop <= |plan|
    ensures o.status == (if o.stop == |plan| then RunCompleted else RunFailed)
    decreases |plan| - i
  {
    if i == |plan| then Outcome(plan, trace, RunCompleted, i)
    else
      var a := Attempted(env, plan, i, trace);
      if !a.goesOn then Outcome(a.plan, a.trace, RunFailed, i)
      else Exec(env, FollowedUp(env, a.plan, i), i + 1, a.trace)
  }

  // ---- The executor -----------------------------------------------------------------------------

  class PlanRun {
    var plan: seq<Step>
    var status: RunStatus
    var finished: bool

    constructor (plan: seq<Step>)
      ensures this.plan == plan && status == RunPending && !finished
    {
      this.plan, status, finished := plan, RunPending, false;
    }
  }

  class PlanExecutor {
    const env: Env
    /** What the tools have been asked. */
    var trace: seq<Call>

    constructor (env: Env)
      ensures this.env == env && trace == []
    {
      this.env, trace := env, [];
    }

    /** `finished` stands for a set completedAt. */
    method ExecutePlan(run: PlanRun)
      modifies run, this`trace
      ensures
        var o := Exec(env, old(run.plan), 0, old(trace));
        run.plan == o.plan && run.status == o.status && trace == o.trace &&
        run.finished == (old(run.finished) || o.status == RunCompleted)
    {
      hide Attempted, FollowedUp;
      var n := |run.plan|;
      for i := 0 to n
        invariant |run.plan| == n
        invariant Exec(env, run.plan, i, trace) == Exec(env, old(run.plan), 0, old(trace))
        invariant run.finished == old(run.finished)
      {
        var goesOn := AttemptStep(run, i);
        if !goesOn {
          run.status := RunFailed;
          return;
        }
        FollowUp(run, i);
      }
      run.status := RunCompleted;
      run.finished := true;
    }

    method AttemptStep(run: PlanRun, i: nat) returns (goesOn: bool)
      requires i < |run.plan|
      modifies run`plan, this`trace
      ensures Progress(run.plan, trace, goesOn) == Attempted(env, old(run.plan), i, old(trace))
    {
      goesOn := true;
      if Open(run.plan[i]) {
        goesOn := ExecuteStep(run, i);
      }
    }

    method ExecuteStep(run: PlanRun, i: nat) returns (goesOn: bool)
      requires i < |run.plan|
      modifies run`plan, this`trace
      ensures
        var call := CallOf(env, old(run.plan), i);
        var reply := env.reply(old(trace), call);
        trace == old(trace) + [call] && goesOn == GoesOn(reply) &&
        run.plan == old(run.plan)[i := Settled(old(run.plan)[i], call.args, reply)]
    {
      var step := run.plan[i];
      step := step.(status := Running);
      var resolvedArgs := P.ResolveArgs(ResultsOf(run.plan), env.text, step.args);
      step := step.(args := resolvedArgs);
      if !env.valid(step.tool, resolvedArgs) && env.fixEnabled {
        var fixed := env.fix(PreviousData(run.plan, step.stepId), step.tool, resolvedArgs);
        if fixed.Some? && env.valid(step.tool, fixed.value) {
          step := step.(args := fixed.value);
        }
      }
      var call := Call(step.stepId, step.toolId, step.tool, step.args);
      var reply := env.reply(trace, call);
      trace := trace + [call];
      goesOn := false;
      match reply
      case Threw(_) =>
        run.plan := run.plan[i := step];
      case Refused(data, e) =>
        run.plan := run.plan[i := step.(status := Failed, result := Some(StepResult(false, data, e)))];
      case Succeeded(data) =>
        run.plan := run.plan[i := step.(status := Completed, result := Some(StepResult(true, data, None)))];
        goesOn := data.Some?;
    }

    method FollowUp(run: PlanRun, i: nat)
      requires i < |run.plan|
      modifies run`plan
      ensures run.plan == FollowedUp(env, old(run.plan), i)
    {
      if run.plan[i].status == Completed && i + 1 != |run.plan| {
        var last := LastCompleted(run.plan);
        if last.Some? && run.plan[last.value].result.Some? {
          var args := env.followUp(run.plan[last.value].result.value.data, run.plan[i + 1].tool);
          if args.Some? {
            run.plan := run.plan[i + 1 := run.plan[i + 1].(args := args.value)];
          }
        }
      }
    }
  }

  /** A step is still to be executed exactly if it is pending or ready. */
  lemma OpenMeans(s: Step)
    ensures Open(s) <==> s.status == Pending || s.status == Ready
  {
  }

  // ---- Fail-stop --------------------------------------------------------------------------------

  /** The steps an execution may start from. */
  ghost predicate Startable(plan: seq<Step>) {
    forall s <- plan :: Open(s) || s.status == Completed
  }

  /** Ids of the open steps from `i` up to, not including, `n`, in plan order. */
  function OpenIds(plan: seq<Step>, i: nat, n: nat): seq<string>
    requires i <= n <= |plan|
    decreases n - i
  {
    if i == n then [] else (if Open(plan[i]) then [plan[i].stepId] else []) + OpenIds(plan, i + 1, n)
  }

  function CalledIds(calls: seq<Call>): seq<string> {
    seq(|calls|, i requires 0 <= i < |calls| => calls[i].stepId)
  }

  /** Same steps but for arguments. */
  ghost predicate Like(s: Step, t: Step) {
    s.stepId == t.stepId && s.toolId == t.toolId && s.tool == t.tool && s.status == t.status && s.result == t.result
  }

  lemma FollowedUpLike(env: Env, plan: seq<Step>, i: nat)
    requires i < |plan|
    ensures forall j :: 0 <= j < |plan| ==> Like(FollowedUp(env, plan, i)[j], plan[j])
    ensures forall j :: 0 <= j < |plan| && j != i + 1 ==> FollowedUp(env, plan, i)[j] == plan[j]
  {
  }

  lemma {:induction false} OpenIdsLike(p: seq<Step>, q: seq<Step>, i: nat, n: nat)
    requires i <= n <= |p| == |q| && forall j :: i <= j < n ==> Like(p[j], q[j])
    ensures OpenIds(p, i, n) == OpenIds(q, i, n)
    decreases n - i
  {
    if i == n {
    } else {
      assert Like(p[i], q[i]);
      OpenIdsLike(p, q, i + 1, n);
    }
  }

  /** What an execution from step `i` that ended as `o` did, `made` being its calls: the tools were
      called exactly for the open steps up to and including the one it stopped at, once each and in
      plan order; steps before `i` and after the stop are untouched; every open step before the stop
      is completed with data; every step that was not open kept its status and result; the stop, if
      any, was open and failed, threw, or came back without data. */
  ghost predicate Report(plan: seq<Step>, i: nat, trace: seq<Call>, o: Outcome, made: seq<Call>) {
    && |o.plan| == |plan| && i <= o.stop <= |plan|
    && o.trace == trace + made
    && CalledIds(made) == OpenIds(plan, i, End(o))
    && (forall j :: 0 <= j < i ==> o.plan[j] == plan[j])
    && (forall j :: o.stop < j < |plan| ==> o.plan[j] == plan[j])
    && (forall j :: i <= j < o.stop && Open(plan[j]) ==>
          o.plan[j].status == Completed && o.plan[j].result.Some? && o.plan[j].result.value.data.Some?)
    && (forall j :: i <= j < |plan| && !Open(plan[j]) ==> Like(o.plan[j], plan[j]))
    && (o.stop < |plan| ==> Open(plan[o.stop]) && Broken(o.plan[o.stop]))
  }

  predicate Broken(s: Step) {
    s.status == Failed || s.status == Running || (s.status == Completed && s.result.Some? && s.result.value.data.None?)
  }

  /** The step after the last one looked at. */
  function End(o: Outcome): (e: nat)
    requires o.stop <= |o.plan|
    ensures e <= |o.plan|
  {
    if o.stop < |o.plan| then o.stop + 1 else o.stop
  }

  /** Fail-stop, for any plan. */
  lemma {:induction false} FailStop(env: Env, plan: seq<Step>, i: nat, trace: seq<Call>) returns (made: seq<Call>)
    requires i <= |plan|
    ensures Report(plan, i, trace, Exec(env, plan, i, trace), made)
    decreases |plan| - i
  {
    hide Attempted, FollowedUp;
    if i == |plan| {
      made := [];
      assert trace + [] == trace;
    } else {
      var a := Attempted(env, plan, i, trace);
      var mine := AttemptedCalls(env, plan, i, trace);
      if !a.goesOn {
        made := mine;
        assert OpenIds(plan, i + 1, i + 1) == [];
      } else {
        var next := FollowedUp(env, a.plan, i);
        FollowedUpLike(env, a.plan, i);
        var rest := FailStop(env, next, i + 1, a.trace);
        made := mine + rest;
        ReportCons(plan, i, trace, a, next, Exec(env, next, i + 1, a.trace), mine, rest);
      }
    }
  }

  /** What one step did to the plan and the calls. */
  ghost predicate OneStep(plan: seq<Step>, i: nat, trace: seq<Call>, a: Progress, made: seq<Call>)
    requires i < |plan|
  {
    && |a.plan| == |plan| && a.trace == trace + made
    && CalledIds(made) == (if Open(plan[i]) then [plan[i].stepId] else [])
    && (forall j :: 0 <= j < |plan| && j != i ==> a.plan[j] == plan[j])
    && (!Open(plan[i]) ==> a.plan[i] == plan[i] && a.goesOn)
    && (Open(plan[i]) && a.goesOn ==>
          a.plan[i].status == Completed && a.plan[i].result.Some? && a.plan[i].result.value.data.Some?)
    && (!a.goesOn ==> Broken(a.plan[i]))
  }

  /** A step and a follow-up in front of an execution. */
  lemma ReportCons(plan: seq<Step>, i: nat, trace: seq<Call>, a: Progress, next: seq<Step>, o: Outcome,
                   mine: seq<Call>, rest: seq<Call>)
    requires i < |plan| == |next| && OneStep(plan, i, trace, a, mine) && a.goesOn
    requires forall j :: 0 <= j < |plan| ==> Like(next[j], a.plan[j])
    requires forall j :: 0 <= j < |plan| && j != i + 1 ==> next[j] == a.plan[j]
    requires Report(next, i + 1, a.trace, o, rest)
    ensures Report(plan, i, trace, o, mine + rest)
  {
    assert (trace + mine) + rest == trace + (mine + rest);
    assert CalledIds(mine + rest) == CalledIds(mine) + CalledIds(rest);
    OpenIdsLike(next, plan, i + 1, End(o));
  }

  /** One step: at most one call, made exactly if the step is open. */
  lemma AttemptedCalls(env: Env, plan: seq<Step>, i: nat, trace: seq<Call>) returns (made: seq<Call>)
    requires i < |plan|
    ensures OneStep(plan, i, trace, Attempted(env, plan, i, trace), made)
  {
    made := if Open(plan[i]) then [CallOf(env, plan, i)] else [];
  }

  /** From a startable plan the run ends completed exactly if every step is completed and each step
      it executed brought data. */
  lemma CompletedExactly(env: Env, plan: seq<Step>, trace: seq<Call>)
    requires Startable(plan)
    ensures
      var o := Exec(env, plan, 0, trace);
      o.status == RunCompleted <==>
        forall j :: 0 <= j < |plan| ==>
          o.plan[j].status == Completed && (Open(plan[j]) ==> o.plan[j].result.Some? && o.plan[j].result.value.data.Some?)
  {
    var made := FailStop(env, plan, 0, trace);
  }

  /** Without the start condition: a completed run has completed every open step and left every
      other step's status alone, so all steps are completed exactly if it was startable. */
  lemma CompletedRunFromAnyPlan(env: Env, plan: seq<Step>, trace: seq<Call>)
    requires Exec(env, plan, 0, trace).status == RunCompleted
    ensures
      var o := Exec(env, plan, 0, trace);
      (forall s <- o.plan :: s.status == Completed) <==> Startable(plan)
  {
    var made := FailStop(env, plan, 0, trace);
    var o := Exec(env, plan, 0, trace);
    if forall s <- o.plan :: s.status == Completed {
      forall s | s in plan ensures Open(s) || s.status == Completed {
        var j :| 0 <= j < |plan| && plan[j] == s;
        assert o.plan[j] in o.plan;
      }
    }
    if Startable(plan) {
      forall s | s in o.plan ensures s.status == Completed {
        var j :| 0 <= j < |plan| && o.plan[j] == s;
        assert plan[j] in plan;
      }
    }
  }

  /** On re-entry a failed step is skipped and the run is marked completed all the same. */
  lemma FailedStepIsSkipped(env: Env, step: Step, trace: seq<Call>)
    requires step.status == Failed
    ensures Exec(env, [step], 0, trace) == Outcome([step], trace, RunCompleted, 1)
  {
    assert FollowedUp(env, [step], 0) == [step];
  }

  // ---- Resumption -------------------------------------------------------------------------------

  /** Below `k` the plans hold the same steps but for arguments. */
  ghost predicate LikeBelow(p: seq<Step>, q: seq<Step>, k: nat) {
    k <= |p| == |q| && forall j :: 0 <= j < k ==> Like(p[j], q[j])
  }

  /** From `k` on the plans hold the same steps. */
  ghost predicate SameFrom(p: seq<Step>, q: seq<Step>, k: nat) {
    |p| == |q| && forall j :: k <= j < |p| ==> p[j] == q[j]
  }

  /** `p` and `q` agree on everything but the arguments of the steps below `k`. */
  ghost predicate Alike(p: seq<Step>, q: seq<Step>, k: nat) {
    LikeBelow(p, q, k) && SameFrom(p, q, k)
  }

  lemma {:induction false} FindAlike(p: seq<Step>, q: seq<Step>, id: string, i: nat)
    requires |p| == |q| && i <= |p| && forall j :: 0 <= j < |p| ==> Like(p[j], q[j])
    ensures FindFrom(p, id, i) == FindFrom(q, id, i)
    decreases |p| - i
  {
    if i == |p| {
    } else {
      assert Like(p[i], q[i]);
      FindAlike(p, q, id, i + 1);
    }
  }

  lemma {:induction false} LastCompletedAlike(p: seq<Step>, q: seq<Step>)
    requires |p| == |q| && forall j :: 0 <= j < |p| ==> Like(p[j], q[j])
    ensures LastCompleted(p) == LastCompleted(q)
    decreases p
  {
    if p == [] {
    } else {
      assert Like(p[|p| - 1], q[|p| - 1]);
      assert forall j :: 0 <= j < |p| - 1 ==> p[..|p| - 1][j] == p[j] && q[..|p| - 1][j] == q[j];
      LastCompletedAlike(p[..|p| - 1], q[..|p| - 1]);
    }
  }

  lemma ResolveArgsSame(a: P.Results, b: P.Results, text: Json -> string, args: Fields)
    requires forall id :: a(id) == b(id)
    ensures P.ResolveArgs(a, text, args) == P.ResolveArgs(b, text, args)
  {
    forall k | k in args ensures P.Resolve(a, text, args[k]) == P.Resolve(b, text, args[k]) {
      P.ResolveLocal(a, b, text, args[k]);
    }
  }

  /** Placeholders and the argument correction see the same results in both plans. */
  lemma ResultsAlike(p: seq<Step>, q: seq<Step>, id: string)
    requires |p| == |q| && forall j :: 0 <= j < |p| ==> Like(p[j], q[j])
    ensures ResultsOf(p)(id) == ResultsOf(q)(id) && PreviousData(p, id) == PreviousData(q, id)
  {
    FindAlike(p, q, id, 0);
    var f := Find(p, id);
    if f.Some? {
      assert Like(p[f.value], q[f.value]);
      if f.value > 0 { assert Like(p[f.value - 1], q[f.value - 1]); }
    }
  }

  /** The arguments of other steps do not matter to a step's call. */
  lemma CallAlike(env: Env, p: seq<Step>, q: seq<Step>, i: nat)
    requires i < |p| == |q| && p[i] == q[i] && forall j :: 0 <= j < |p| ==> Like(p[j], q[j])
    ensures CallOf(env, p, i) == CallOf(env, q, i)
  {
    forall id ensures ResultsOf(p)(id) == ResultsOf(q)(id) {
      ResultsAlike(p, q, id);
    }
    ResolveArgsSame(ResultsOf(p), ResultsOf(q), env.text, p[i].args);
    ResultsAlike(p, q, p[i].stepId);
  }

  lemma AttemptedAlike(env: Env, p: seq<Step>, q: seq<Step>, k: nat, i: nat, trace: seq<Call>)
    requires Alike(p, q, k) && k <= i < |p|
    ensures
      var a, b := Attempted(env, p, i, trace), Attempted(env, q, i, trace);
      Alike(a.plan, b.plan, k) && a.trace == b.trace && a.goesOn == b.goesOn
  {
    CallAlike(env, p, q, i);
  }

  /** A follow-up proposes the same in both plans. */
  lemma FollowedUpAlike(env: Env, p: seq<Step>, q: seq<Step>, k: nat, i: nat)
    requires Alike(p, q, k) && i < |p|
    ensures Alike(FollowedUp(env, p, i), FollowedUp(env, q, i), k)
  {
    assert forall j :: 0 <= j < |p| ==> Like(p[j], q[j]);
    assert Like(p[i], q[i]);
    LastCompletedAlike(p, q);
    var last := LastCompleted(p);
    if last.Some? { assert Like(p[last.value], q[last.value]); }
    if i + 1 < |p| { assert Like(p[i + 1], q[i + 1]); }
  }

  /** From step `i` on, plans that differ only in the arguments of earlier steps execute alike. */
  lemma {:induction false} ExecAlike(env: Env, p: seq<Step>, q: seq<Step>, k: nat, i: nat, trace: seq<Call>)
    requires Alike(p, q, k) && k <= i <= |p|
    ensures
      var a, b := Exec(env, p, i, trace), Exec(env, q, i, trace);
      Alike(a.plan, b.plan, k) && a.trace == b.trace && a.status == b.status && a.stop == b.stop
    decreases |p| - i
  {
    hide Attempted, FollowedUp;
    if i == |p| {
    } else {
      AttemptedAlike(env, p, q, k, i, trace);
      var a, b := Attempted(env, p, i, trace), Attempted(env, q, i, trace);
      if a.goesOn {
        FollowedUpAlike(env, a.plan, b.plan, k, i);
        ExecAlike(env, FollowedUp(env, a.plan, i), FollowedUp(env, b.plan, i), k, i + 1, a.trace);
      }
    }
  }

  /** The plan and the calls when the loop gets to step `n`. */
  function Before(env: Env, plan: seq<Step>, i: nat, n: nat, trace: seq<Call>): (r: (seq<Step>, seq<Call>))
    requires i <= n <= |plan|
    ensures |r.0| == |plan|
    decreases n - i
  {
    if i == n then (plan, trace)
    else
      var a := Attempted(env, plan, i, trace);
      Before(env, FollowedUp(env, a.plan, i), i + 1, n, a.trace)
  }

  /** An execution that gets to step `n` is the part before it and the rest. */
  lemma {:induction false} ExecSplit(env: Env, plan: seq<Step>, i: nat, n: nat, trace: seq<Call>)
    requires i <= n <= |plan| && n <= Exec(env, plan, i, trace).stop
    ensures Exec(env, plan, i, trace) == (var (p, t) := Before(env, plan, i, n, trace); Exec(env, p, n, t))
    decreases n - i
  {
    hide Attempted, FollowedUp;
    if i == n {
    } else {
      var a := Attempted(env, plan, i, trace);
      ExecSplit(env, FollowedUp(env, a.plan, i), i + 1, n, a.trace);
    }
  }

  lemma {:induction false} BeforeSnoc(env: Env, plan: seq<Step>, i: nat, n: nat, trace: seq<Call>)
    requires i <= n < |plan|
    ensures
      var (p, t) := Before(env, plan, i, n, trace);
      var a := Attempted(env, p, n, t);
      Before(env, plan, i, n + 1, trace) == (FollowedUp(env, a.plan, n), a.trace)
    decreases n - i
  {
    hide Attempted, FollowedUp;
    var a := Attempted(env, plan, i, trace);
    if i == n {
    } else {
      BeforeSnoc(env, FollowedUp(env, a.plan, i), i + 1, n, a.trace);
    }
  }

  /** The loop has not touched the steps beyond the one it gets to. */
  lemma {:induction false} BeforeTail(env: Env, plan: seq<Step>, i: nat, n: nat, trace: seq<Call>)
    requires i <= n <= |plan|
    ensures forall j :: n < j < |plan| ==> Before(env, plan, i, n, trace).0[j] == plan[j]
    decreases n - i
  {
    hide FollowedUp;
    if i == n {
    } else {
      var a := Attempted(env, plan, i, trace);
      FollowedUpLike(env, a.plan, i);
      BeforeTail(env, FollowedUp(env, a.plan, i), i + 1, n, a.trace);
    }
  }

  /** Over steps that are not open the loop goes on, makes no calls and changes at most arguments. */
  lemma {:induction false} BeforeClosed(env: Env, plan: seq<Step>, i: nat, n: nat, trace: seq<Call>)
    requires i <= n <= |plan| && forall j :: i <= j < n ==> !Open(plan[j])
    ensures
      var (p, t) := Before(env, plan, i, n, trace);
      t == trace && (forall j :: 0 <= j < |plan| ==> Like(p[j], plan[j])) && Exec(env, plan, i, trace).stop >= n
    decreases n - i
  {
    hide FollowedUp;
    if i == n {
    } else {
      FollowedUpLike(env, plan, i);
      var next := FollowedUp(env, plan, i);
      assert forall j :: i <= j < n ==> Like(next[j], plan[j]);
      BeforeClosed(env, next, i + 1, n, trace);
    }
  }

  /** The loop has not touched the steps it has passed. */
  lemma {:induction false} BeforeHead(env: Env, plan: seq<Step>, i: nat, n: nat, trace: seq<Call>)
    requires i <= n <= |plan|
    ensures forall j :: 0 <= j < i ==> Before(env, plan, i, n, trace).0[j] == plan[j]
    decreases n - i
  {
    hide FollowedUp;
    if i == n {
    } else {
      var a := Attempted(env, plan, i, trace);
      FollowedUpLike(env, a.plan, i);
      BeforeHead(env, FollowedUp(env, a.plan, i), i + 1, n, a.trace);
    }
  }

  /** No step that an execution has got past is open. */
  lemma {:induction false} PassedAreClosed(env: Env, plan: seq<Step>, i: nat, n: nat, trace: seq<Call>)
    requires i <= n <= |plan| && n <= Exec(env, plan, i, trace).stop
    ensures forall j :: i <= j < n ==> !Open(Before(env, plan, i, n, trace).0[j])
    decreases n - i
  {
    hide FollowedUp;
    if i == n {
    } else {
      var a := Attempted(env, plan, i, trace);
      var next := FollowedUp(env, a.plan, i);
      FollowedUpLike(env, a.plan, i);
      assert Like(next[i], a.plan[i]) && !Open(a.plan[i]);
      PassedAreClosed(env, next, i + 1, n, a.trace);
      BeforeHead(env, next, i + 1, n, a.trace);
    }
  }

  /** Resumption. Take any plan and the point where its execution gets to step `k`. A plan whose
      steps below `k` have the statuses and results they have there (whatever their arguments) and
      whose other steps are as they were at the start executes from its beginning, with the same
      calls already made, to the same end: the same statuses and results of all steps, the same
      arguments of all steps from `k` on, the same calls, the same run status. */
  lemma Resumption(env: Env, plan: seq<Step>, k: nat, trace: seq<Call>, again: seq<Step>)
    requires k <= |plan| == |again| && k <= Exec(env, plan, 0, trace).stop
    requires LikeBelow(again, Before(env, plan, 0, k, trace).0, k) && SameFrom(again, plan, k)
    ensures
      var made := Before(env, plan, 0, k, trace).1;
      var full, resumed := Exec(env, plan, 0, trace), Exec(env, again, 0, made);
      Alike(full.plan, resumed.plan, k) && full.trace == resumed.trace &&
      full.status == resumed.status && full.stop == resumed.stop
  {
    hide *;
    var (reached, made) := Before(env, plan, 0, k, trace);
    PassedAreClosed(env, plan, 0, k, trace);
    ClosedAlike(again, reached, k);
    BeforeClosed(env, again, 0, k, made);
    ExecSplit(env, plan, 0, k, trace);
    ExecSplit(env, again, 0, k, made);
    ReachedAlike(env, plan, k, trace, again);
    ExecAlike(env, reached, Before(env, again, 0, k, made).0, k, k, made);
  }

  lemma ClosedAlike(p: seq<Step>, q: seq<Step>, k: nat)
    requires LikeBelow(p, q, k) && forall j :: 0 <= j < k ==> !Open(q[j])
    ensures forall j :: 0 <= j < k ==> !Open(p[j])
  {
    forall j | 0 <= j < k ensures !Open(p[j]) { assert Like(p[j], q[j]); }
  }

  /** At step `k` both executions hold the same plan, but for arguments of steps below. */
  lemma ReachedAlike(env: Env, plan: seq<Step>, k: nat, trace: seq<Call>, again: seq<Step>)
    requires k <= |plan| == |again| && forall j :: 0 <= j < k ==> !Open(again[j])
    requires LikeBelow(again, Before(env, plan, 0, k, trace).0, k) && SameFrom(again, plan, k)
    ensures
      var (reached, made) := Before(env, plan, 0, k, trace);
      Alike(reached, Before(env, again, 0, k, made).0, k)
  {
    hide *;
    var (reached, made) := Before(env, plan, 0, k, trace);
    if k == 0 {
      BothAtStart(env, plan, again, trace);
    } else {
      ReachedLater(env, plan, k, trace, again, reached, made, Before(env, again, 0, k, made).0);
    }
  }

  lemma ReachedLater(env: Env, plan: seq<Step>, k: nat, trace: seq<Call>, again: seq<Step>,
                     reached: seq<Step>, made: seq<Call>, reached': seq<Step>)
    requires 0 < k <= |plan| == |again| == |reached| == |reached'| && forall j :: 0 <= j < k ==> !Open(again[j])
    requires reached == Before(env, plan, 0, k, trace).0 && reached' == Before(env, again, 0, k, made).0
    requires LikeBelow(again, reached, k) && SameFrom(again, plan, k)
    ensures Alike(reached, reached', k)
  {
    hide Before, Attempted, FollowedUp, Open, Like, LikeBelow, SameFrom, Alike;
    var a := Arrival(env, plan, k, trace);
    var b := ClosedArrival(env, again, k, made);
    assert LikeBelow(reached, a, |reached|) && LikeBelow(b, again, |again|);
    JoinPlans(plan, reached, a, b, again, k);
    FollowedUpAlike(env, a, b, k, k - 1);
    assert reached == FollowedUp(env, a, k - 1) && reached' == FollowedUp(env, b, k - 1);
  }

  lemma BothAtStart(env: Env, plan: seq<Step>, again: seq<Step>, trace: seq<Call>)
    requires SameFrom(again, plan, 0)
    ensures
      var (reached, made) := Before(env, plan, 0, 0, trace);
      Alike(reached, Before(env, again, 0, 0, made).0, 0)
  {
  }

  /** The loop gets to step `k` by the follow-up after step `k - 1`; the plan `a` before it has the
      steps from `k` on as they were at the start. */
  lemma Arrival(env: Env, plan: seq<Step>, k: nat, trace: seq<Call>) returns (a: seq<Step>)
    requires 0 < k <= |plan|
    ensures |a| == |plan| && Before(env, plan, 0, k, trace).0 == FollowedUp(env, a, k - 1)
    ensures LikeBelow(Before(env, plan, 0, k, trace).0, a, |plan|) && SameFrom(a, plan, k)
  {
    hide FollowedUp;
    var (p, t) := Before(env, plan, 0, k - 1, trace);
    BeforeSnoc(env, plan, 0, k - 1, trace);
    BeforeTail(env, plan, 0, k - 1, trace);
    a := Attempted(env, p, k - 1, t).plan;
    FollowedUpLike(env, a, k - 1);
  }

  /** The same for a plan without open steps below `k`: there `a` is like the plan itself. */
  lemma ClosedArrival(env: Env, plan: seq<Step>, k: nat, trace: seq<Call>) returns (a: seq<Step>)
    requires 0 < k <= |plan| && forall j :: 0 <= j < k ==> !Open(plan[j])
    ensures |a| == |plan| && Before(env, plan, 0, k, trace).0 == FollowedUp(env, a, k - 1)
    ensures LikeBelow(a, plan, |plan|) && SameFrom(a, plan, k)
  {
    hide Before, FollowedUp, Attempted, Open, Exec;
    a := Arrival(env, plan, k, trace);
    BeforeClosed(env, plan, 0, k, trace);
    var reached := Before(env, plan, 0, k, trace).0;
    forall j | 0 <= j < |plan| ensures Like(a[j], plan[j]) {
      assert Like(reached[j], a[j]) && Like(reached[j], plan[j]);
    }
  }

  lemma JoinPlans(plan: seq<Step>, reached: seq<Step>, a: seq<Step>, b: seq<Step>, again: seq<Step>, k: nat)
    requires LikeBelow(again, reached, k) && LikeBelow(reached, a, |reached|) && LikeBelow(b, again, |again|)
    requires |plan| == |a| == |b| && SameFrom(a, plan, k) && SameFrom(b, again, k) && SameFrom(again, plan, k)
    ensures Alike(a, b, k)
  {
    forall j | 0 <= j < k ensures Like(a[j], b[j]) {
      assert Like(again[j], reached[j]) && Like(reached[j], a[j]) && Like(b[j], again[j]);
    }
  }

  // ---- What a call carries, and what comes of it --------------------------------------------------

  /** The first step with this id. */
  ghost predicate IsFirst(plan: seq<Step>, id: string, i: nat) {
    i < |plan| && plan[i].stepId == id && forall j :: 0 <= j < i ==> plan[j].stepId != id
  }

  lemma {:induction false} FindIsFirst(plan: seq<Step>, id: string, i: nat)
    requires i <= |plan| && forall j :: 0 <= j < i ==> plan[j].stepId != id
    ensures match FindFrom(plan, id, i) case Some(n) => IsFirst(plan, id, n) case None => forall n: nat :: !IsFirst(plan, id, n)
    decreases |plan| - i
  {
    if i == |plan| {
    } else if plan[i].stepId != id {
      FindIsFirst(plan, id, i + 1);
    }
  }

  lemma FindMeans(plan: seq<Step>, id: string)
    ensures forall n: nat :: IsFirst(plan, id, n) ==> Find(plan, id) == Some(n)
    ensures (forall n: nat :: !IsFirst(plan, id, n)) ==> Find(plan, id) == None
  {
    FindIsFirst(plan, id, 0);
    forall n: nat | IsFirst(plan, id, n) ensures Find(plan, id) == Some(n) {
      assert Find(plan, id).Some? && IsFirst(plan, id, Find(plan, id).value);
    }
  }

  /** What placeholders see of a step id: the result data of the first step with it, and nothing if
      there is none or it has no result. */
  ghost predicate ResultsAre(plan: seq<Step>, results: P.Results) {
    forall id ::
      (forall n: nat :: IsFirst(plan, id, n) ==>
         results(id) == if plan[n].result.Some? then Some(plan[n].result.value.data) else None) &&
      ((forall n: nat :: !IsFirst(plan, id, n)) ==> results(id) == None)
  }

  lemma ResultsMean(plan: seq<Step>)
    ensures ResultsAre(plan, ResultsOf(plan))
  {
    forall id ensures
      (forall n: nat :: IsFirst(plan, id, n) ==>
         ResultsOf(plan)(id) == if plan[n].result.Some? then Some(plan[n].result.value.data) else None) &&
      ((forall n: nat :: !IsFirst(plan, id, n)) ==> ResultsOf(plan)(id) == None)
    {
      FindMeans(plan, id);
    }
  }

  /** What the argument correction sees: the data of the step before the first with this id, if that
      is completed with a result. */
  ghost predicate PreviousIs(plan: seq<Step>, id: string, data: Option<Json>) {
    if exists n: nat :: IsFirst(plan, id, n) && n > 0 && plan[n - 1].status == Completed && plan[n - 1].result.Some?
    then exists n: nat :: IsFirst(plan, id, n) && n > 0 && plan[n - 1].result.Some? && data == plan[n - 1].result.value.data
    else data == None
  }

  lemma PreviousMeans(plan: seq<Step>, id: string)
    ensures PreviousIs(plan, id, PreviousData(plan, id))
  {
    FindMeans(plan, id);
  }

  ghost predicate ArgsReshaped(results: P.Results, text: Json -> string, args: Fields, resolved: Fields) {
    resolved.Keys == args.Keys && forall k <- args :: P.Reshaped(results, text, args[k], resolved[k])
  }

  /** The arguments a step is called with: its own with the placeholders filled; or, if those are
      not valid and correction is on, the corrected ones, if they come and are valid. */
  ghost predicate CalledWith(env: Env, plan: seq<Step>, j: nat, args: Fields)
    requires j < |plan|
  {
    exists results, resolved, data ::
      ResultsAre(plan, results) && ArgsReshaped(results, env.text, plan[j].args, resolved) && PreviousIs(plan, plan[j].stepId, data) &&
      ArgsChosen(env, plan[j].tool, resolved, data, args)
  }

  ghost predicate ArgsChosen(env: Env, tool: string, resolved: Fields, data: Option<Json>, args: Fields) {
    if env.valid(tool, resolved) || !env.fixEnabled then args == resolved
    else
      match env.fix(data, tool, resolved)
      case None => args == resolved
      case Some(fixed) => args == if env.valid(tool, fixed) then fixed else resolved
  }

  lemma ResolvedArgs(results: P.Results, text: Json -> string, args: Fields)
    ensures ArgsReshaped(results, text, args, P.ResolveArgs(results, text, args))
  {
    forall k | k in args ensures P.Reshaped(results, text, args[k], P.ResolveArgs(results, text, args)[k]) {
      P.ResolveReshapes(results, text, args[k]);
    }
  }

  lemma CallMeans(env: Env, plan: seq<Step>, j: nat)
    requires j < |plan|
    ensures
      var call := CallOf(env, plan, j);
      call.stepId == plan[j].stepId && call.toolId == plan[j].toolId && call.tool == plan[j].tool && CalledWith(env, plan, j, call.args)
  {
    ResultsMean(plan);
    ResolvedArgs(ResultsOf(plan), env.text, plan[j].args);
    PreviousMeans(plan, plan[j].stepId);
    hide ResultsAre, ArgsReshaped, PreviousIs, ResultsOf, PreviousData;
    var resolved := P.ResolveArgs(ResultsOf(plan), env.text, plan[j].args);
    assert ArgsChosen(env, plan[j].tool, resolved, PreviousData(plan, plan[j].stepId), CallOf(env, plan, j).args);
  }

  /** A step after its call: the arguments it was called with, and the reply in its status and result;
      a thrown error leaves it running with the result it had. */
  predicate HoldsReply(before: Step, after: Step, args: Fields, reply: Reply) {
    after.stepId == before.stepId && after.toolId == before.toolId && after.tool == before.tool && after.args == args &&
    match reply
    case Succeeded(data) => after.status == Completed && after.result == Some(StepResult(true, data, None))
    case Refused(data, e) => after.status == Failed && after.result == Some(StepResult(false, data, e))
    case Threw(_) => after.status == Running && after.result == before.result
  }

  lemma AttemptMeans(env: Env, plan: seq<Step>, j: nat, trace: seq<Call>)
    requires j < |plan| && Open(plan[j])
    ensures
      var a := Attempted(env, plan, j, trace);
      a.trace == trace + [CallOf(env, plan, j)] && |a.plan| == |plan| && (forall i :: 0 <= i < |plan| && i != j ==> a.plan[i] == plan[i]) &&
      HoldsReply(plan[j], a.plan[j], CallOf(env, plan, j).args, env.reply(trace, CallOf(env, plan, j)))
  {
    hide CallOf;
  }

  lemma {:induction false} BeforeThere(env: Env, plan: seq<Step>, i: nat, n: nat, trace: seq<Call>)
    requires i <= n < |plan|
    ensures Like(Before(env, plan, i, n, trace).0[n], plan[n])
    decreases n - i
  {
    hide FollowedUp;
    if i == n {
    } else {
      var a := Attempted(env, plan, i, trace);
      FollowedUpLike(env, a.plan, i);
      BeforeThere(env, FollowedUp(env, a.plan, i), i + 1, n, a.trace);
    }
  }

  /** From step `j` on: its call comes next, what came of it stays, and the steps before stay. */
  lemma ExecFrom(env: Env, p: seq<Step>, j: nat, t: seq<Call>)
    requires j < |p| && Open(p[j])
    ensures
      var o, a := Exec(env, p, j, t), Attempted(env, p, j, t);
      a.trace <= o.trace && o.plan[j] == a.plan[j] && forall i :: 0 <= i < j ==> o.plan[i] == p[i]
  {
    AttemptMeans(env, p, j, t);
    hide Attempted, FollowedUp, CallOf;
    var a := Attempted(env, p, j, t);
    if a.goesOn {
      FollowedUpLike(env, a.plan, j);
      var made := FailStop(env, FollowedUp(env, a.plan, j), j + 1, a.trace);
    }
  }

  /** Every call of an execution. For an open step `j` the execution gets to, with `p` the plan then
      and `t` the calls so far: the next call is that step's, with the arguments it has then, resolved
      from the results of `p`; afterwards the step holds the reply, for good; and the steps before
      it stay as they are in `p`. */
  lemma StepMeans(env: Env, plan: seq<Step>, trace: seq<Call>, j: nat)
    requires j < |plan| && Open(plan[j]) && j <= Exec(env, plan, 0, trace).stop
    ensures
      var o := Exec(env, plan, 0, trace);
      var (p, t) := Before(env, plan, 0, j, trace);
      |t| < |o.trace| && o.trace[..|t|] == t && Like(p[j], plan[j]) && (forall i :: 0 <= i < j ==> o.plan[i] == p[i]) &&
      var call := o.trace[|t|];
      call.stepId == plan[j].stepId && call.toolId == plan[j].toolId && call.tool == plan[j].tool &&
      CalledWith(env, p, j, call.args) && HoldsReply(p[j], o.plan[j], call.args, env.reply(t, call))
  {
    var (p, t) := Before(env, plan, 0, j, trace);
    ExecSplit(env, plan, 0, j, trace);
    BeforeThere(env, plan, 0, j, trace);
    hide Exec, Before, Attempted, CallOf, CalledWith;
    ExecFrom(env, p, j, t);
    AttemptMeans(env, p, j, t);
    CallMeans(env, p, j);
    var a := Attempted(env, p, j, t);
    assert a.trace[|t|] == CallOf(env, p, j);
  }

  lemma {:induction false} BeforeIds(env: Env, plan: seq<Step>, i: nat, n: nat, trace: seq<Call>)
    requires i <= n <= |plan|
    ensures forall j :: 0 <= j < |plan| ==> Before(env, plan, i, n, trace).0[j].stepId == plan[j].stepId
    decreases n - i
  {
    hide FollowedUp;
    if i == n {
    } else {
      var a := Attempted(env, plan, i, trace);
      FollowedUpLike(env, a.plan, i);
      BeforeIds(env, FollowedUp(env, a.plan, i), i + 1, n, a.trace);
    }
  }

  /** A result reaches a later tool. Let step `i` be the first with id `a`, and end with data that has
      `v` under some keys. If a later open step the execution gets to then has an argument that is
      exactly the placeholder for `a` and these keys (with or without `result` between), its
      resolved arguments carry `v` there, and if those are valid, or not corrected, so does the call. */
  lemma PlaceholderReachesTool(env: Env, plan: seq<Step>, trace: seq<Call>, i: nat, j: nat, arg: string,
                               a: string, prefixed: bool, keys: seq<string>, v: Json) returns (resolved: Fields)
    requires i < j < |plan| && Open(plan[j]) && j <= Exec(env, plan, 0, trace).stop && IsFirst(plan, a, i)
    requires '.' !in a && P.OneLine(a) && keys != [] && (forall k <- keys :: P.IsKey(k)) && (!prefixed ==> keys[0] != "result")
    requires
      var result := Exec(env, plan, 0, trace).plan[i].result;
      result.Some? && result.value.data.Some? && IsAt(result.value.data.value, keys, v)
    requires
      var args := Before(env, plan, 0, j, trace).0[j].args;
      arg in args && args[arg] == Str("{{" + (a + (if prefixed then ".result." else ".") + Join(keys, '.')) + "}}")
    ensures
      var (p, t) := Before(env, plan, 0, j, trace);
      var calls := Exec(env, plan, 0, trace).trace;
      resolved.Keys == p[j].args.Keys && resolved[arg] == v && |t| < |calls| &&
      (env.valid(plan[j].tool, resolved) || !env.fixEnabled ==> calls[|t|].args == resolved)
  {
    var (p, t) := Before(env, plan, 0, j, trace);
    StepMeans(env, plan, trace, j);
    BeforeIds(env, plan, 0, j, trace);
    hide Exec, Before;
    var call := Exec(env, plan, 0, trace).trace[|t|];
    var results, chosen, data :|
      ResultsAre(p, results) && ArgsReshaped(results, env.text, p[j].args, chosen) && PreviousIs(p, p[j].stepId, data) &&
      ArgsChosen(env, p[j].tool, chosen, data, call.args);
    resolved := chosen;
    assert IsFirst(p, a, i);
    assert results(a) == Some(p[i].result.value.data);
    var inner := a + (if prefixed then ".result." else ".") + Join(keys, '.');
    P.PlaceholderMeans(results, a, prefixed, keys, v);
    InnerIsOneLine(a, prefixed, keys);
    P.WholeMeans("{{" + inner + "}}", inner);
    assert P.Reshaped(results, env.text, p[j].args[arg], chosen[arg]);
  }

  lemma InnerIsOneLine(a: string, prefixed: bool, keys: seq<string>)
    requires P.OneLine(a) && keys != [] && forall k <- keys :: P.IsKey(k)
    ensures
      var inner := a + (if prefixed then ".result." else ".") + Join(keys, '.');
      inner != "" && forall c <- inner :: c != '\n' && c != '\r' && c != '\U{2028}' && c != '\U{2029}'
  {
    JoinIsOneLine(keys);
  }

  lemma {:induction false} JoinIsOneLine(keys: seq<string>)
    requires keys != [] && forall k <- keys :: P.IsKey(k)
    ensures forall c <- Join(keys, '.') :: c != '\n' && c != '\r' && c != '\U{2028}' && c != '\U{2029}'
  {
    assert P.IsKey(keys[0]);
    if |keys| == 1 {
    } else {
      JoinIsOneLine(keys[1..]);
    }
  }

  /** A follow-up after a completed step: it is shown the data of the last completed step and the
      next tool, and what it proposes replaces the next step's arguments, and nothing else. */
  lemma FollowUpMeans(env: Env, plan: seq<Step>, i: nat, last: nat)
    requires i < |plan| && last < |plan| && plan[last].status == Completed && forall j :: last < j < |plan| ==> plan[j].status != Completed
    ensures
      FollowedUp(env, plan, i) ==
        if plan[i].status != Completed || i + 1 == |plan| || plan[last].result.None? then plan
        else
          match env.followUp(plan[last].result.value.data, plan[i + 1].tool)
          case None => plan
          case Some(args) => plan[i + 1 := plan[i + 1].(args := args)]
  {
    LastIsLast(plan, last);
  }

  lemma {:induction false} LastIsLast(plan: seq<Step>, last: nat)
    requires last < |plan| && plan[last].status == Completed && forall j :: last < j < |plan| ==> plan[j].status != Completed
    ensures LastCompleted(plan) == Some(last)
    decreases plan
  {
    if last == |plan| - 1 {
    } else {
      LastIsLast(plan[..|plan| - 1], last);
    }
  }
}
