/** What the results of actions become: the context, the calls of later actions, the step log, the
    times on the row; told from the calls a run made and the replies it got. */
module Results {
  import opened Wrappers
  import opened Json
  import opened Automation
  import opened Store
  import opened Runs
  import opened Engine
  import opened Guarantees
  import T = Template

  /** The reply to call number `i`. */
  function ReplyTo(w: World, t: seq<Invocation>, i: nat): Reply
    requires i < |t|
  {
    w.reply(Calls(t[..i]), t[i].call)
  }

  /** The value with which an action comes back: a tool's reply, or the model's text, which is empty
      if there is none. */
  predicate ComesBack(work: Work, reply: Reply, value: Option<Json>) {
    reply.Returned? &&
    match work
    case Tool(_, _, _) => value == reply.value
    case Llm(_, _, _) =>
      value.Some? && value.value.Str? &&
      (if reply.value.Some? && reply.value.value.Str? then value == reply.value else value.value.s == "")
    case Other(_, _) => false
  }

  /** The non-empty name under which an action's value goes into the context. */
  predicate Names(work: Work, x: string) {
    x != "" && (work.Tool? || work.Llm?) && work.storeAs == Some(x)
  }

  /** The action at `j` was called, and its value `v` goes under the name `x`. */
  ghost predicate LeftBy(w: World, actions: seq<Action>, t: seq<Invocation>, j: nat, x: string, v: Json) {
    j < |actions| && actions[j].Do? && Names(actions[j].work, x) &&
    exists i :: 0 <= i < |t| && t[i].step == j && ComesBack(actions[j].work, ReplyTo(w, t, i), Some(v))
  }

  /** No action from `a` up to, not including, `k` left anything under `x`. */
  ghost predicate NothingLeft(w: World, actions: seq<Action>, t: seq<Invocation>, a: nat, k: nat, x: string) {
    forall j: nat, v :: a <= j < k ==> !LeftBy(w, actions, t, j, x, v)
  }

  /** The last action below `k` that left something under `x` is `j`, and left `v`. */
  ghost predicate LastLeft(w: World, actions: seq<Action>, t: seq<Invocation>, k: nat, x: string, j: nat, v: Json) {
    j < k && LeftBy(w, actions, t, j, x, v) && NothingLeft(w, actions, t, j + 1, k, x)
  }

  /** Under `x` the context holds the value of the last action below `k` that left one there; if
      none did, it is the payload for "payload", and nothing for any other name. */
  ghost predicate NameHolds(w: World, actions: seq<Action>, payload: Json, t: seq<Invocation>, k: nat, ctx: Fields, x: string) {
    (forall j, v :: LastLeft(w, actions, t, k, x, j, v) ==> x in ctx && ctx[x] == v) &&
    (NothingLeft(w, actions, t, 0, k, x) ==> (x in ctx <==> x == "payload") && (x == "payload" ==> ctx[x] == payload))
  }

  /** The call of an action whose templates see this context. */
  ghost predicate Asks(w: World, work: Work, userId: string, ctx: Fields, call: Call) {
    match work
    case Tool(tool, args, _) =>
      call.ToolCall? && call.tool == tool && call.userId == userId && T.Resolves(w.stringify, ctx, args, call.args)
    case Llm(prompt, input, _) => call.LlmCall? && call.prompt == prompt && T.Resolves(w.stringify, ctx, input, call.input)
    case Other(_, _) => false
  }

  // ---- One action more ----------------------------------------------------------------------------

  /** One more call, at a step above all before. */
  lemma LeftByMore(w: World, actions: seq<Action>, t: seq<Invocation>, last: Invocation, j: nat, x: string, v: Json)
    requires forall i :: 0 <= i < |t| ==> t[i].step < last.step
    ensures LeftBy(w, actions, t + [last], j, x, v) <==>
              if j == last.step then
                j < |actions| && actions[j].Do? && Names(actions[j].work, x) &&
                ComesBack(actions[j].work, w.reply(Calls(t), last.call), Some(v))
              else LeftBy(w, actions, t, j, x, v)
  {
    hide ComesBack, Names;
    var t' := t + [last];
    assert t'[..|t|] == t && t'[|t|] == last;
    forall i | 0 <= i < |t| ensures t'[i] == t[i] && ReplyTo(w, t', i) == ReplyTo(w, t, i) {
      assert t'[..i] == t[..i];
    }
    if j != last.step && LeftBy(w, actions, t, j, x, v) {
      var i :| 0 <= i < |t| && t[i].step == j && ComesBack(actions[j].work, ReplyTo(w, t, i), Some(v));
      assert t'[i].step == j;
    }
  }

  lemma StepsBelow(w: World, actions: seq<Action>, o: Origin, k: nat)
    requires k <= |actions| && IdealAt(w, actions, o, k).ok
    ensures forall i :: 0 <= i < |IdealAt(w, actions, o, k).trace| ==> IdealAt(w, actions, o, k).trace[i].step < k
  {
    IdealTrace(w, actions, o, k);
    var t := IdealAt(w, actions, o, k).trace;
    forall i | 0 <= i < |t| ensures t[i].step < k {
      assert CalledAt(t, t[i].step);
    }
  }

  /** What one action that came back does to the context. */
  lemma ActionLeaves(w: World, work: Work, userId: string, ctx: Fields, heard: seq<Call>, x: string)
    requires Answer(w, work, userId, ctx, heard).Returned? && Request(w, work, userId, ctx).Some? && !work.Other?
    ensures
      var reply := w.reply(heard, Request(w, work, userId, ctx).value);
      var ctx' := Stored(work, ctx, Answer(w, work, userId, ctx, heard).value);
      (forall v :: Names(work, x) && ComesBack(work, reply, Some(v)) ==> x in ctx' && ctx'[x] == v) &&
      ((forall v :: !(Names(work, x) && ComesBack(work, reply, Some(v)))) ==> (x in ctx' <==> x in ctx) && (x in ctx ==> ctx'[x] == ctx[x]))
  {
    hide Request;
    var reply := w.reply(heard, Request(w, work, userId, ctx).value);
    var value := Answer(w, work, userId, ctx, heard).value;
    if value.Some? { assert ComesBack(work, reply, Some(value.value)); }
  }

  /** Below `k` the two traces say the same. */
  ghost predicate SameBelow(w: World, actions: seq<Action>, t: seq<Invocation>, t': seq<Invocation>, k: nat, x: string) {
    forall j: nat, v :: j < k ==> (LeftBy(w, actions, t, j, x, v) <==> LeftBy(w, actions, t', j, x, v))
  }

  lemma SameNothing(w: World, actions: seq<Action>, t: seq<Invocation>, t': seq<Invocation>, a: nat, k: nat, x: string)
    requires SameBelow(w, actions, t, t', k, x)
    ensures NothingLeft(w, actions, t, a, k, x) <==> NothingLeft(w, actions, t', a, k, x)
  {
    hide LeftBy;
  }

  lemma NothingMore(w: World, actions: seq<Action>, t: seq<Invocation>, a: nat, k: nat, x: string)
    requires a <= k
    ensures NothingLeft(w, actions, t, a, k + 1, x) <==>
              NothingLeft(w, actions, t, a, k, x) && forall v :: !LeftBy(w, actions, t, k, x, v)
  {
    hide LeftBy;
  }

  /** If the action at `k` left `v` under `x`, the context after it holds that. */
  lemma LeftNow(w: World, actions: seq<Action>, payload: Json, t: seq<Invocation>, k: nat, ctx: Fields, x: string, v: Json)
    requires LeftBy(w, actions, t, k, x, v)
    requires x in ctx && forall u :: LeftBy(w, actions, t, k, x, u) ==> ctx[x] == u
    ensures NameHolds(w, actions, payload, t, k + 1, ctx, x)
  {
    hide LeftBy, NothingLeft;
    var n := k + 1;
    NothingMore(w, actions, t, 0, k, x);
    forall j: nat, u | LastLeft(w, actions, t, n, x, j, u) ensures ctx[x] == u {
      if j < k { NothingMore(w, actions, t, j + 1, k, x); }
    }
  }

  /** If it left nothing, the law stays as it was. */
  lemma NotNow(w: World, actions: seq<Action>, payload: Json, t: seq<Invocation>, t': seq<Invocation>, k: nat, ctx: Fields, ctx': Fields, x: string)
    requires NameHolds(w, actions, payload, t, k, ctx, x) && SameBelow(w, actions, t, t', k, x)
    requires forall v :: !LeftBy(w, actions, t', k, x, v)
    requires (x in ctx' <==> x in ctx) && (x in ctx ==> ctx'[x] == ctx[x])
    ensures NameHolds(w, actions, payload, t', k + 1, ctx', x)
  {
    hide LeftBy, NothingLeft;
    NothingMore(w, actions, t', 0, k, x);
    SameNothing(w, actions, t, t', 0, k, x);
    var n := k + 1;
    forall j: nat, u | LastLeft(w, actions, t', n, x, j, u) ensures x in ctx' && ctx'[x] == u {
      NothingMore(w, actions, t', j + 1, k, x);
      SameNothing(w, actions, t, t', j + 1, k, x);
      assert LastLeft(w, actions, t, k, x, j, u);
    }
  }

  /** One action more keeps the law. */
  lemma NameStep(w: World, actions: seq<Action>, payload: Json, t: seq<Invocation>, k: nat, ctx: Fields, userId: string, x: string)
    requires k < |actions| && CallsOut(actions[k]) && NameHolds(w, actions, payload, t, k, ctx, x)
    requires forall i :: 0 <= i < |t| ==> t[i].step < k
    requires Request(w, actions[k].work, userId, ctx).Some? && Answer(w, actions[k].work, userId, ctx, Calls(t)).Returned?
    ensures
      var call := Invocation(k, Request(w, actions[k].work, userId, ctx).value);
      var ctx' := Stored(actions[k].work, ctx, Answer(w, actions[k].work, userId, ctx, Calls(t)).value);
      NameHolds(w, actions, payload, t + [call], k + 1, ctx', x)
  {
    hide LeftBy, ComesBack, Names, Stored, Answer, Request, NameHolds;
    var call := Invocation(k, Request(w, actions[k].work, userId, ctx).value);
    var ctx' := Stored(actions[k].work, ctx, Answer(w, actions[k].work, userId, ctx, Calls(t)).value);
    var t' := t + [call];
    ActionLeaves(w, actions[k].work, userId, ctx, Calls(t), x);
    forall v ensures LeftBy(w, actions, t', k, x, v) <==>
                       Names(actions[k].work, x) && ComesBack(actions[k].work, w.reply(Calls(t), call.call), Some(v))
    {
      LeftByMore(w, actions, t, call, k, x, v);
    }
    if exists v :: LeftBy(w, actions, t', k, x, v) {
      var v :| LeftBy(w, actions, t', k, x, v);
      LeftNow(w, actions, payload, t', k, ctx', x, v);
    } else {
      SameWithMore(w, actions, t, call, k, x);
      NotNow(w, actions, payload, t, t', k, ctx, ctx', x);
    }
  }

  lemma SameWithMore(w: World, actions: seq<Action>, t: seq<Invocation>, last: Invocation, k: nat, x: string)
    requires k <= last.step && forall i :: 0 <= i < |t| ==> t[i].step < last.step
    ensures SameBelow(w, actions, t, t + [last], k, x)
  {
    hide LeftBy;
    forall j: nat, v | j < k ensures LeftBy(w, actions, t, j, x, v) <==> LeftBy(w, actions, t + [last], j, x, v) {
      LeftByMore(w, actions, t, last, j, x, v);
    }
  }

  /** An action without a call keeps it, too. */
  lemma NameSkip(w: World, actions: seq<Action>, payload: Json, t: seq<Invocation>, k: nat, ctx: Fields, x: string)
    requires NameHolds(w, actions, payload, t, k, ctx, x) && forall i :: 0 <= i < |t| ==> t[i].step < k
    ensures NameHolds(w, actions, payload, t, k + 1, ctx, x)
  {
    NotCalled(w, actions, t, k, x);
    hide LeftBy, NameHolds;
    NotNow(w, actions, payload, t, t, k, ctx, ctx, x);
  }

  lemma NotCalled(w: World, actions: seq<Action>, t: seq<Invocation>, k: nat, x: string)
    requires forall i :: 0 <= i < |t| ==> t[i].step < k
    ensures forall v :: !LeftBy(w, actions, t, k, x, v)
  {
    hide ComesBack, Names;
  }

  lemma {:induction false} IdealContext(w: World, actions: seq<Action>, o: Origin, k: nat, x: string)
    requires k <= |actions| && IdealAt(w, actions, o, k).ok
    ensures
      var i := IdealAt(w, actions, o, k);
      NameHolds(w, actions, o.payload, i.trace, k, i.ctx, x)
  {
    hide NameHolds, Stored, Answer, Request;
    if k == 0 {
      StartHolds(w, actions, o, x);
    } else {
      IdealContext(w, actions, o, k - 1, x);
      StepsBelow(w, actions, o, k - 1);
      var i := IdealAt(w, actions, o, k - 1);
      if CallsOut(actions[k - 1]) {
        RequestOfCaller(w, actions[k - 1].work, o.userId, i.ctx);
        NameStep(w, actions, o.payload, i.trace, k - 1, i.ctx, o.userId, x);
      } else {
        if actions[k - 1].Do? { OtherDoesNothing(w, actions[k - 1].work, o.userId, i.ctx, Calls(i.trace)); }
        NameSkip(w, actions, o.payload, i.trace, k - 1, i.ctx, x);
      }
    }
  }

  lemma StartHolds(w: World, actions: seq<Action>, o: Origin, x: string)
    ensures NameHolds(w, actions, o.payload, [], 0, map["payload" := o.payload], x)
  {
  }

  lemma RequestOfCaller(w: World, work: Work, userId: string, ctx: Fields)
    requires !work.Other?
    ensures Request(w, work, userId, ctx).Some?
  {
  }

  lemma OtherDoesNothing(w: World, work: Work, userId: string, ctx: Fields, heard: seq<Call>)
    requires work.Other?
    ensures Request(w, work, userId, ctx) == None && Answer(w, work, userId, ctx, heard) == Returned(None, 0)
    ensures Stored(work, ctx, None) == ctx
  {
  }

  /** A call at or above `k` does not matter below `k`. */
  lemma NameIgnoresCurrent(w: World, actions: seq<Action>, payload: Json, t: seq<Invocation>, last: Invocation, k: nat, ctx: Fields, x: string)
    requires NameHolds(w, actions, payload, t, k, ctx, x) && k <= last.step && forall i :: 0 <= i < |t| ==> t[i].step < last.step
    ensures NameHolds(w, actions, payload, t + [last], k, ctx, x)
  {
    hide LeftBy, NothingLeft;
    var t' := t + [last];
    SameWithMore(w, actions, t, last, k, x);
    SameNothing(w, actions, t, t', 0, k, x);
    forall j: nat, u | LastLeft(w, actions, t', k, x, j, u) ensures x in ctx && ctx[x] == u {
      SameNothing(w, actions, t, t', j + 1, k, x);
      assert LastLeft(w, actions, t, k, x, j, u);
    }
  }

  // ---- The laws -----------------------------------------------------------------------------------

  /** The context. In every reachable state, under every name, the context of a run of an existing
      unit holds the value of the last action below the current step that left one there, read off
      the calls it made and their replies; if there is none, the payload under "payload", and
      nothing under any other name. */
  lemma ContextMeans(w: World, units: map<string, Unit>, hs: seq<Happening>, id: string, x: string)
    requires
      var st := Reach(w, units, hs);
      id in st.sys.db.runs && st.sys.db.runs[id].run.unitId in units
    ensures
      var st := Reach(w, units, hs);
      var run := st.sys.db.runs[id].run;
      id in st.born && NameHolds(w, units[run.unitId].actions, st.born[id].payload, TraceOf(st.sys, id), run.step, run.context, x)
  {
    TraceNow(w, units, hs, id);
    ContextNow(w, units, hs, id);
    var st := Reach(w, units, hs);
    hide After, NameHolds, IdealAt, PastRequest, Request;
    var run, o := st.sys.db.runs[id].run, st.born[id];
    var actions := units[run.unitId].actions;
    IdealContext(w, actions, o, run.step, x);
    StepsBelow(w, actions, o, run.step);
    var i := IdealAt(w, actions, o, run.step);
    if PastRequest(run, Get(st.mem, id)) && CallsOut(actions[run.step]) {
      RequestOfCaller(w, actions[run.step].work, o.userId, i.ctx);
      NameIgnoresCurrent(w, actions, o.payload, i.trace, Invocation(run.step, Request(w, actions[run.step].work, o.userId, i.ctx).value),
                         run.step, i.ctx, x);
    } else if actions != [] && PastRequest(run, Get(st.mem, id)) && actions[run.step].Do? {
      OtherDoesNothing(w, actions[run.step].work, o.userId, i.ctx, []);
    }
  }

  lemma ContextNow(w: World, units: map<string, Unit>, hs: seq<Happening>, id: string)
    requires
      var st := Reach(w, units, hs);
      id in st.sys.db.runs && st.sys.db.runs[id].run.unitId in units
    ensures
      var st := Reach(w, units, hs);
      var run := st.sys.db.runs[id].run;
      id in st.born && run.step <= |units[run.unitId].actions| && run.unitId == st.born[id].unitId &&
      run.userId == st.born[id].userId &&
      run.context == IdealAt(w, units[run.unitId].actions, st.born[id], run.step).ctx
  {
    hide After;
    Known(w, units, hs, id);
  }

  /** Call number `i` of a trace is that of its action, its templates filled from a context that obeys
      the law for the actions below. */
  ghost predicate CallIsRight(w: World, actions: seq<Action>, o: Origin, t: seq<Invocation>, i: nat)
    requires i < |t|
  {
    var j := t[i].step;
    j < |actions| && CallsOut(actions[j]) && IdealAt(w, actions, o, j).ok && IdealAt(w, actions, o, j).trace == t[..i] &&
    Request(w, actions[j].work, o.userId, IdealAt(w, actions, o, j).ctx) == Some(t[i].call)
  }

  lemma {:induction false} IdealCalls(w: World, actions: seq<Action>, o: Origin, k: nat, i: nat)
    requires k <= |actions| && IdealAt(w, actions, o, k).ok && i < |IdealAt(w, actions, o, k).trace|
    ensures CallIsRight(w, actions, o, IdealAt(w, actions, o, k).trace, i)
  {
    hide Request, Answer, Stored;
    var t := IdealAt(w, actions, o, k).trace;
    if k == 0 {
    } else {
      var before := IdealAt(w, actions, o, k - 1).trace;
      if i < |before| {
        IdealCalls(w, actions, o, k - 1, i);
        assert t[i] == before[i] && t[..i] == before[..i];
      } else {
        NewCall(w, actions, o, k - 1);
        assert t[..i] == before;
      }
    }
  }

  lemma NewCall(w: World, actions: seq<Action>, o: Origin, k: nat)
    requires k < |actions|
    ensures
      var i := IdealAt(w, actions, o, k);
      if CallsOut(actions[k]) then
        Request(w, actions[k].work, o.userId, i.ctx).Some? &&
        Asked(w, actions, o, k) == i.trace + [Invocation(k, Request(w, actions[k].work, o.userId, i.ctx).value)]
      else Asked(w, actions, o, k) == i.trace
  {
  }

  lemma CallsNow(w: World, units: map<string, Unit>, hs: seq<Happening>, id: string, i: nat)
    requires
      var st := Reach(w, units, hs);
      id in st.sys.db.runs && st.sys.db.runs[id].run.unitId in units && i < |TraceOf(st.sys, id)|
    ensures
      var st := Reach(w, units, hs);
      id in st.born && CallIsRight(w, units[st.sys.db.runs[id].run.unitId].actions, st.born[id], TraceOf(st.sys, id), i)
  {
    TraceNow(w, units, hs, id);
    hide After, IdealAt, PastRequest, Request, Asked;
    var st := Reach(w, units, hs);
    var run, o := st.sys.db.runs[id].run, st.born[id];
    var actions, t := units[run.unitId].actions, TraceOf(st.sys, id);
    var before := IdealAt(w, actions, o, run.step).trace;
    if t != before { NewCall(w, actions, o, run.step); }
    if i < |before| {
      IdealCalls(w, actions, o, run.step, i);
      assert t[i] == before[i] && t[..i] == before[..i];
    } else {
      assert t[..i] == before;
    }
  }

  /** The calls. In every reachable state each call of a run is that of its action, sent for the
      run's user, with its templates filled from a context that holds, under every name, the value
      of the last action below that left one there. */
  lemma CallsMean(w: World, units: map<string, Unit>, hs: seq<Happening>, id: string, i: nat) returns (ctx: Fields)
    requires
      var st := Reach(w, units, hs);
      id in st.sys.db.runs && st.sys.db.runs[id].run.unitId in units && i < |TraceOf(st.sys, id)|
    ensures
      var st := Reach(w, units, hs);
      var run, t := st.sys.db.runs[id].run, TraceOf(st.sys, id);
      var actions := units[run.unitId].actions;
      id in st.born && t[i].step < |actions| && actions[t[i].step].Do? &&
      Asks(w, actions[t[i].step].work, run.userId, ctx, t[i].call) &&
      forall x :: NameHolds(w, actions, st.born[id].payload, t[..i], t[i].step, ctx, x)
  {
    CallsNow(w, units, hs, id, i);
    ContextNow(w, units, hs, id);
    hide After, IdealAt, NameHolds;
    var st := Reach(w, units, hs);
    var t, o := TraceOf(st.sys, id), st.born[id];
    var actions := units[o.unitId].actions;
    ctx := IdealAt(w, actions, o, t[i].step).ctx;
    RequestMeans(w, actions[t[i].step].work, o.userId, ctx);
    forall x ensures NameHolds(w, actions, o.payload, t[..i], t[i].step, ctx, x) {
      IdealContext(w, actions, o, t[i].step, x);
    }
  }

  lemma RequestMeans(w: World, work: Work, userId: string, ctx: Fields)
    ensures match Request(w, work, userId, ctx) case None => work.Other? case Some(call) => Asks(w, work, userId, ctx, call)
  {
    hide T.Resolve, T.Resolves;
    match work
    case Tool(_, args, _) => T.ResolveMeans(w.stringify, args, ctx);
    case Llm(_, input, _) => T.ResolveMeans(w.stringify, input, ctx);
    case Other(_, _) =>
  }

  /** A result reaches a later call: if a tool's argument is the one hole `{{x}}`, and the last action
      below it that left something under `x` left a string, the call carries exactly that string. */
  lemma ResultReachesCall(w: World, units: map<string, Unit>, hs: seq<Happening>, id: string, i: nat, j: nat, x: string, s: string)
    requires
      var st := Reach(w, units, hs);
      id in st.sys.db.runs && st.sys.db.runs[id].run.unitId in units && i < |TraceOf(st.sys, id)|
    requires
      var st := Reach(w, units, hs);
      var t, actions := TraceOf(st.sys, id), units[st.sys.db.runs[id].run.unitId].actions;
      var k := t[i].step;
      T.IsPath(x) && '.' !in x && j < k < |actions| && actions[k].Do? && actions[k].work.Tool? &&
      actions[k].work.args == Str("{{" + x + "}}") &&
      LastLeft(w, actions, t[..i], k, x, j, Str(s))
    ensures
      var st := Reach(w, units, hs);
      var run, t := st.sys.db.runs[id].run, TraceOf(st.sys, id);
      t[i].call == ToolCall(units[run.unitId].actions[t[i].step].work.tool, Str(s), run.userId)
  {
    CallsNow(w, units, hs, id, i);
    ContextNow(w, units, hs, id);
    hide After, IdealAt, LastLeft, NothingLeft, T.Resolve;
    var st := Reach(w, units, hs);
    var t, o := TraceOf(st.sys, id), st.born[id];
    var actions, k := units[o.unitId].actions, t[i].step;
    var ctx := IdealAt(w, actions, o, k).ctx;
    IdealContext(w, actions, o, k, x);
    assert x in ctx && ctx[x] == Str(s);
    OneHole(w.stringify, ctx, x, s);
  }

  lemma OneHole(stringify: Json -> string, ctx: Fields, x: string, s: string)
    requires T.IsPath(x) && '.' !in x && x in ctx && ctx[x] == Str(s)
    ensures T.Resolve(stringify, Str("{{" + x + "}}"), ctx) == Str(s)
  {
    ShowsString(stringify, ctx, x, s);
    hide T.Resolve, T.Shows, T.IsPath;
    T.Embedded(stringify, ctx, "", x, "", s);
    T.PlainText(stringify, ctx, "");
    assert "" + ("{{" + x + ("}}" + "")) == "{{" + x + "}}";
  }

  lemma ShowsString(stringify: Json -> string, ctx: Fields, x: string, s: string)
    requires '.' !in x && x in ctx && ctx[x] == Str(s)
    ensures T.Shows(stringify, ctx, x, s)
  {
    SplitWhole(x, '.');
    hide IsAt, Split;
    forall y ensures IsAt(Obj(ctx), Split(x, '.'), y) <==> y == Str(s) { AtField(ctx, x, y); }
    assert IsAt(Obj(ctx), Split(x, '.'), Str(s));
  }

  /** Two actions: what the first finds, the second is called with. */
  lemma SecondCallCarriesFirstReply(w: World, units: map<string, Unit>, hs: seq<Happening>, id: string, find: string, send: string, s: string)
    requires
      var st := Reach(w, units, hs);
      id in st.sys.db.runs && st.sys.db.runs[id].run.unitId in units &&
      units[st.sys.db.runs[id].run.unitId].actions ==
        [Do(Tool(find, Null, Some("lead"))), Do(Tool(send, Str("{{lead}}"), None))] &&
      var t := TraceOf(st.sys, id);
      |t| == 2 && t[0].step == 0 && t[1].step == 1 && w.reply([], t[0].call).Returned? && w.reply([], t[0].call).value == Some(Str(s))
    ensures
      var st := Reach(w, units, hs);
      TraceOf(st.sys, id)[1].call == ToolCall(send, Str(s), st.sys.db.runs[id].run.userId)
  {
    hide After;
    var st := Reach(w, units, hs);
    var t, actions := TraceOf(st.sys, id), units[st.sys.db.runs[id].run.unitId].actions;
    assert t[..1][0] == t[0] && t[..1][..0] == [] && Calls([]) == [];
    assert "{{" + "lead" + "}}" == "{{lead}}";
    assert LeftBy(w, actions, t[..1], 0, "lead", Str(s));
    assert LastLeft(w, actions, t[..1], 1, "lead", 0, Str(s));
    ResultReachesCall(w, units, hs, id, 1, 0, "lead", s);
  }

  // ---- The step log -------------------------------------------------------------------------------

  /** A value as a log row keeps it: nothing for an absent or falsy one. */
  predicate KeptAs(value: Option<Json>, kept: Option<Json>) {
    match value
    case None => kept == None
    case Some(v) =>
      if v == Null || v == Bool(false) || v == Num(0.0) || v == Str("") then kept == None else kept == Some(v)
  }

  lemma KeptMeans(value: Option<Json>)
    ensures KeptAs(value, IfTruthy(value))
  {
  }

  /** The row of a step that succeeded: its action, no error, and the value it came back with. */
  ghost predicate SuccessRowIsRight(w: World, actions: seq<Action>, t: seq<Invocation>, j: nat, row: StepRow)
    requires j < |actions| && actions[j].Do?
  {
    row.action == actions[j] && row.status == StepSuccess && row.error == None &&
    if actions[j].work.Other? then row.result == None
    else exists i, value :: RepliedWith(w, actions[j].work, t, i, j, value) && KeptAs(value, row.result)
  }

  predicate RepliedWith(w: World, work: Work, t: seq<Invocation>, i: nat, j: nat, value: Option<Json>) {
    i < |t| && t[i].step == j && ComesBack(work, ReplyTo(w, t, i), value)
  }

  /** The row of the step that failed: its action, no result, and the error it raised, if that has a
      text. */
  ghost predicate FailureRowIsRight(w: World, actions: seq<Action>, t: seq<Invocation>, j: nat, row: StepRow)
    requires j < |actions|
  {
    row.action == actions[j] && row.status == StepFailed && row.result == None &&
    if actions[j].Wait? then row.error == Some("Invalid time value")
    else exists i, e :: RaisedWith(w, t, i, j, e) && row.error == if e == "" then None else Some(e)
  }

  predicate RaisedWith(w: World, t: seq<Invocation>, i: nat, j: nat, e: string) {
    i < |t| && t[i].step == j && ReplyTo(w, t, i).Raised? && ReplyTo(w, t, i).error == e
  }

  lemma {:induction false} IdealRow(w: World, actions: seq<Action>, o: Origin, k: nat, j: nat)
    requires j < k <= |actions| && IdealAt(w, actions, o, k).ok && actions[j].Do?
    ensures IdealAt(w, actions, o, j).ok && ReplyAt(w, actions, o, j).Returned? && j in IdealAt(w, actions, o, k).log
    ensures IdealAt(w, actions, o, k).log[j] ==
              StepRow(actions[j], StepSuccess, IfTruthy(ReplyAt(w, actions, o, j).value), None)
  {
    hide ReplyAt;
    if j == k - 1 {
    } else {
      IdealRow(w, actions, o, k - 1, j);
    }
  }

  /** A reply, as the ideal run sees it and as the trace does. */
  lemma ReplyInTrace(w: World, actions: seq<Action>, o: Origin, t: seq<Invocation>, i: nat)
    requires i < |t| && CallIsRight(w, actions, o, t, i)
    ensures
      var j := t[i].step;
      match ReplyAt(w, actions, o, j)
      case Returned(value, _) => RepliedWith(w, actions[j].work, t, i, j, value)
      case Raised(e, _) => RaisedWith(w, t, i, j, e)
  {
    hide IdealAt, Request;
  }

  /** How the log stands, in terms of the ideal run. */
  lemma LogNow(w: World, units: map<string, Unit>, hs: seq<Happening>, id: string)
    requires
      var st := Reach(w, units, hs);
      id in st.sys.db.runs && st.sys.db.runs[id].run.unitId in units
    ensures
      var st := Reach(w, units, hs);
      var run, log := st.sys.db.runs[id].run, StepsOf(st.sys.db, id);
      var actions := units[run.unitId].actions;
      id in st.born && run.step <= |actions| && IdealAt(w, actions, st.born[id], run.step).ok &&
      var o, k := st.born[id], run.step;
      (log == IdealAt(w, actions, o, k).log ||
       (k < |actions| && IdealAt(w, actions, o, k + 1).ok && log == IdealAt(w, actions, o, k + 1).log) ||
       (k < |actions| && exists e :: RaisesAt(w, actions, o, k, e) && log == IdealAt(w, actions, o, k).log[k := FailureRow(actions[k], e)]))
  {
    hide After, IdealAt, Asked, ReplyAt, OnTime, Counted;
    Known(w, units, hs, id);
    var st := Reach(w, units, hs);
    assert SliceOf(st, id).p.log == StepsOf(st.sys.db, id);
  }

  /** The step log. In every reachable state each success row of a run of an existing unit keeps the
      value its action came back with, and a failure row the error that was raised. */
  lemma LogMeans(w: World, units: map<string, Unit>, hs: seq<Happening>, id: string, j: nat)
    requires
      var st := Reach(w, units, hs);
      id in st.sys.db.runs && st.sys.db.runs[id].run.unitId in units && j in StepsOf(st.sys.db, id)
    ensures
      var st := Reach(w, units, hs);
      var actions, t, row := units[st.sys.db.runs[id].run.unitId].actions, TraceOf(st.sys, id), StepsOf(st.sys.db, id)[j];
      j < |actions| &&
      match row.status
      case StepSuccess => actions[j].Do? && SuccessRowIsRight(w, actions, t, j, row)
      case StepFailed => FailureRowIsRight(w, actions, t, j, row)
  {
    LogNow(w, units, hs, id);
    LogAgrees(w, units, hs, id);
    ExactlyOnce(w, units, hs, id);
    var st := Reach(w, units, hs);
    hide After, IdealAt, ReplyAt, CallIsRight, RaisesAt;
    var run, o, t, log := st.sys.db.runs[id].run, st.born[id], TraceOf(st.sys, id), StepsOf(st.sys.db, id);
    var actions, k := units[run.unitId].actions, run.step;
    IdealLog(w, actions, o, k);
    if log[j].status == StepSuccess {
      assert Marked(log, j, StepSuccess);
      SuccessRowOf(w, units, hs, id, j);
    } else {
      assert Marked(log, j, StepFailed) && j == k;
      FailureRowOf(w, units, hs, id, j);
    }
  }

  lemma SuccessRowOf(w: World, units: map<string, Unit>, hs: seq<Happening>, id: string, j: nat)
    requires
      var st := Reach(w, units, hs);
      id in st.sys.db.runs && st.sys.db.runs[id].run.unitId in units && Marked(StepsOf(st.sys.db, id), j, StepSuccess)
    ensures
      var st := Reach(w, units, hs);
      var actions, t, row := units[st.sys.db.runs[id].run.unitId].actions, TraceOf(st.sys, id), StepsOf(st.sys.db, id)[j];
      j < |actions| && actions[j].Do? && SuccessRowIsRight(w, actions, t, j, row)
  {
    LogNow(w, units, hs, id);
    LogAgrees(w, units, hs, id);
    var st := Reach(w, units, hs);
    hide After, IdealAt, ReplyAt, RaisesAt;
    var run, o, t, log := st.sys.db.runs[id].run, st.born[id], TraceOf(st.sys, id), StepsOf(st.sys.db, id);
    var actions, k := units[run.unitId].actions, run.step;
    var ideal := if j < k then k else k + 1;
    IdealRows(w, actions, o, k, j, log);
    KeptMeans(ReplyAt(w, actions, o, j).value);
    if actions[j].work.Other? {
      OtherReply(w, actions, o, j);
    } else {
      var i := CallOf(w, units, hs, id, j);
      ReplyInTrace(w, actions, o, t, i);
    }
  }

  /** The success row of `j`, whichever form the log has. */
  lemma IdealRows(w: World, actions: seq<Action>, o: Origin, k: nat, j: nat, log: StepLog)
    requires k <= |actions| && IdealAt(w, actions, o, k).ok && Marked(log, j, StepSuccess)
    requires
      log == IdealAt(w, actions, o, k).log ||
      (k < |actions| && IdealAt(w, actions, o, k + 1).ok && log == IdealAt(w, actions, o, k + 1).log) ||
      (k < |actions| && exists e :: RaisesAt(w, actions, o, k, e) && log == IdealAt(w, actions, o, k).log[k := FailureRow(actions[k], e)])
    ensures j < |actions| && actions[j].Do? && IdealAt(w, actions, o, j).ok && ReplyAt(w, actions, o, j).Returned?
    ensures log[j] == StepRow(actions[j], StepSuccess, IfTruthy(ReplyAt(w, actions, o, j).value), None)
  {
    hide IdealAt, ReplyAt, RaisesAt;
    IdealLog(w, actions, o, k);
    if j < k && j in IdealAt(w, actions, o, k).log {
      IdealRow(w, actions, o, k, j);
    }
    if k < |actions| && IdealAt(w, actions, o, k + 1).ok && log == IdealAt(w, actions, o, k + 1).log {
      IdealLog(w, actions, o, k + 1);
      IdealRow(w, actions, o, k + 1, j);
    }
  }

  lemma OtherReply(w: World, actions: seq<Action>, o: Origin, j: nat)
    requires j < |actions| && actions[j].Do? && actions[j].work.Other?
    ensures ReplyAt(w, actions, o, j) == Returned(None, 0)
  {
  }

  /** The call that a logged action made. */
  lemma CallOf(w: World, units: map<string, Unit>, hs: seq<Happening>, id: string, j: nat) returns (i: nat)
    requires
      var st := Reach(w, units, hs);
      id in st.sys.db.runs && st.sys.db.runs[id].run.unitId in units && j in StepsOf(st.sys.db, id) &&
      var actions := units[st.sys.db.runs[id].run.unitId].actions;
      j < |actions| && CallsOut(actions[j])
    ensures
      var st := Reach(w, units, hs);
      var actions, t := units[st.sys.db.runs[id].run.unitId].actions, TraceOf(st.sys, id);
      id in st.born && i < |t| && t[i].step == j && CallIsRight(w, actions, st.born[id], t, i)
  {
    LogAgrees(w, units, hs, id);
    ExactlyOnce(w, units, hs, id);
    var st := Reach(w, units, hs);
    var log, t := StepsOf(st.sys.db, id), TraceOf(st.sys, id);
    hide After, IdealAt, CallIsRight;
    assert Marked(log, j, StepSuccess) || Marked(log, j, StepFailed) by { StatusIsOne(log[j].status); }
    assert CalledAt(t, j);
    i :| 0 <= i < |t| && t[i].step == j;
    CallsNow(w, units, hs, id, i);
  }

  lemma StatusIsOne(s: StepStatus)
    ensures s == StepSuccess || s == StepFailed
  {
  }

  lemma FailureRowOf(w: World, units: map<string, Unit>, hs: seq<Happening>, id: string, k: nat)
    requires
      var st := Reach(w, units, hs);
      id in st.sys.db.runs && st.sys.db.runs[id].run.unitId in units && k == st.sys.db.runs[id].run.step &&
      Marked(StepsOf(st.sys.db, id), k, StepFailed)
    ensures
      var st := Reach(w, units, hs);
      var actions, t, row := units[st.sys.db.runs[id].run.unitId].actions, TraceOf(st.sys, id), StepsOf(st.sys.db, id)[k];
      k < |actions| && FailureRowIsRight(w, actions, t, k, row)
  {
    LogNow(w, units, hs, id);
    var st := Reach(w, units, hs);
    hide After, IdealAt, ReplyAt;
    var run, o, t, log := st.sys.db.runs[id].run, st.born[id], TraceOf(st.sys, id), StepsOf(st.sys.db, id);
    var actions := units[run.unitId].actions;
    var e := FailureIs(w, actions, o, k, log);
    if actions[k].Do? {
      if actions[k].work.Other? {
        OtherReply(w, actions, o, k);
        assert false;
      } else {
        var i := CallOf(w, units, hs, id, k);
        ReplyInTrace(w, actions, o, t, i);
      }
    }
  }

  lemma FailureIs(w: World, actions: seq<Action>, o: Origin, k: nat, log: StepLog) returns (e: string)
    requires k <= |actions| && IdealAt(w, actions, o, k).ok && Marked(log, k, StepFailed)
    requires
      log == IdealAt(w, actions, o, k).log ||
      (k < |actions| && IdealAt(w, actions, o, k + 1).ok && log == IdealAt(w, actions, o, k + 1).log) ||
      (k < |actions| && exists e :: RaisesAt(w, actions, o, k, e) && log == IdealAt(w, actions, o, k).log[k := FailureRow(actions[k], e)])
    ensures k < |actions| && RaisesAt(w, actions, o, k, e) && log[k] == FailureRow(actions[k], e)
  {
    hide IdealAt, ReplyAt, RaisesAt;
    IdealLog(w, actions, o, k);
    if k < |actions| && IdealAt(w, actions, o, k + 1).ok { IdealLog(w, actions, o, k + 1); }
    e :| RaisesAt(w, actions, o, k, e) && log == IdealAt(w, actions, o, k).log[k := FailureRow(actions[k], e)];
  }

  // ---- Ends and times -----------------------------------------------------------------------------

  /** A row says when it ended exactly if it is over; how it ended is in its error: none for a success,
      for a failure the text that was raised. */
  lemma EndMeans(w: World, units: map<string, Unit>, hs: seq<Happening>, id: string)
    requires
      var st := Reach(w, units, hs);
      id in st.sys.db.runs && st.sys.db.runs[id].run.unitId in units
    ensures
      var st := Reach(w, units, hs);
      var run, log := st.sys.db.runs[id].run, StepsOf(st.sys.db, id);
      (run.completedAt.Some? <==> Terminal(run)) &&
      (run.status == Failed ==> run.step in log && log[run.step].error == run.error) && (run.status != Failed ==> run.error == None)
  {
    hide After, IdealAt, Asked, ReplyAt, OnTime, Counted;
    Known(w, units, hs, id);
    var st := Reach(w, units, hs);
    assert SliceOf(st, id).p.log == StepsOf(st.sys.db, id);
  }

  /** At the end of the list the row succeeds now. */
  lemma EndSucceeds(w: World, st: State, run: Run)
    requires run.id in st.mem && st.mem[run.id] == Mem(run, Head, true) && run.unitId in st.sys.db.units
    requires run.step >= |st.sys.db.units[run.unitId].actions|
    ensures
      var st' := Apply(w, st, Step(run.id));
      run.id in st'.sys.db.runs && st'.sys.db.runs[run.id].run.status == Success &&
      st'.sys.db.runs[run.id].run.completedAt == Some(st.sys.clock) && run.id !in st'.mem
  {
  }

  /** At a wait the run is parked for exactly the wait's time, in row and index alike; if that ends
      after the last instant of a Date, an error is raised instead. */
  lemma WaitParks(w: World, st: State, run: Run, d: string)
    requires run.id in st.mem && st.mem[run.id] == Mem(run, Head, true) && run.unitId in st.sys.db.units
    requires run.step < |st.sys.db.units[run.unitId].actions| && st.sys.db.units[run.unitId].actions[run.step] == Wait(d)
    ensures
      var st', end := Apply(w, st, Step(run.id)), st.sys.clock + ParseDuration(d);
      if end <= 8_640_000_000_000_000 then
        run.id in st'.sys.db.runs && st'.sys.db.runs[run.id].run.status == Waiting &&
        st'.sys.db.runs[run.id].run.resumeAt == Some(end) && Get(st'.sys.db.waiting, run.id) == Some(end) && run.id !in st'.mem
      else run.id in st'.mem && st'.mem[run.id] == Mem(run, Erred("Invalid time value"), true)
  {
    hide ParseDuration;
  }

  /** At an action with a request, the time the reply takes passes; at any other, none. */
  lemma CallTakesTime(w: World, st: State, run: Run, work: Work)
    requires run.id in st.mem && st.mem[run.id] == Mem(run, Head, true) && run.unitId in st.sys.db.units
    requires run.step < |st.sys.db.units[run.unitId].actions| && st.sys.db.units[run.unitId].actions[run.step] == Do(work)
    ensures
      var call := Request(w, work, run.userId, run.context);
      Apply(w, st, Step(run.id)).sys.clock == st.sys.clock +
        (if call.Some? then w.reply(Calls(TraceOf(st.sys, run.id)), call.value).took else 0)
  {
    hide Request;
  }

  /** An error ends the run now, with its text. */
  lemma ErrorMeans(w: World, st: State, run: Run, e: string)
    requires run.id in st.mem && st.mem[run.id] == Mem(run, Erred(e), true)
    requires run.unitId in st.sys.db.units && run.step < |st.sys.db.units[run.unitId].actions|
    ensures
      var st' := Apply(w, Apply(w, st, Step(run.id)), Step(run.id));
      run.id in st'.sys.db.runs && st'.sys.db.runs[run.id].run.status == Failed && run.id !in st'.mem &&
      st'.sys.db.runs[run.id].run.completedAt == Some(st.sys.clock) &&
      st'.sys.db.runs[run.id].run.error == if e == "" then None else Some(e)
  {
    hide Apply;
    var failed := run.(status := Failed, error := Some(e), completedAt := Some(st.sys.clock));
    var st1 := OwnStep(w, st, run, Erred(e));
    var st2 := OwnStep(w, st1, failed, NotedError);
    assert Get(st2.mem, run.id) == SliceOf(st2, run.id).mem;
  }

  // ---- The history fields ---------------------------------------------------------------------------

  /** The instant a run first executes is noted once, and never changes. */
  lemma BegunMeans(w: World, st: State, run: Run)
    requires run.id in st.mem && st.mem[run.id] == Mem(run, Fresh, true) && run.unitId in st.sys.db.units
    ensures
      var st' := Apply(w, st, Step(run.id));
      run.id in st'.begun && st'.begun[run.id] == if run.id in st.begun then st.begun[run.id] else st.sys.clock
  {
  }

  lemma BegunStays(w: World, st: State, h: Happening, id: string)
    requires id in st.begun
    ensures id in Apply(w, st, h).begun && Apply(w, st, h).begun[id] == st.begun[id]
  {
    hide IsDue, Saved, Logged, Answer, Request;
  }

  /** Resumptions and crashes are counted, and an arrival notes what the run was started for. */
  lemma HistoryMeans(w: World, st: State, h: Happening)
    ensures
      var st' := Apply(w, st, h);
      (h.ResumeNext? && st.queue != [] && st.ticking.None? ==>
         var id := st.queue[0].id;
         id in st'.resumed && st'.resumed[id] == (if id in st.resumed then st.resumed[id] else 0) + 1) &&
      (h.Crash? ==> st'.crashes == st.crashes + 1) &&
      ((h.Arrive? || h.Undispatched?) && h.id !in st.born ==>
         h.id in st'.born && st'.born[h.id] == Origin(h.unitId, h.userId, h.payload, false))
  {
    hide StepRun, IsDue, Saved;
  }

  /** The waiting asked for: the delays of the waits below, added up, and how many they are. */
  lemma WaitsMean(m: nat, h: nat, work: Work)
    ensures
      var actions := [Wait(Decimal(m) + ['m']), Do(work), Wait(Decimal(h) + ['h'])];
      WaitSum(actions, 0) == 0 && WaitSum(actions, 1) == WaitSum(actions, 2) == m * 60_000 &&
      WaitSum(actions, 3) == m * 60_000 + h * 3_600_000 &&
      WaitCount(actions, 0) == 0 && WaitCount(actions, 1) == WaitCount(actions, 2) == 1 && WaitCount(actions, 3) == 2
  {
    DurationRoundTrip(m, 'm');
    DurationRoundTrip(h, 'h');
    hide ParseDuration, Decimal;
    var actions := [Wait(Decimal(m) + ['m']), Do(work), Wait(Decimal(h) + ['h'])];
    assert WaitSum(actions, 1) == WaitSum(actions, 0) + m * 60_000;
    assert WaitSum(actions, 2) == WaitSum(actions, 1);
    assert WaitCount(actions, 2) == WaitCount(actions, 1);
  }
}
