/** Units, actions, runs, and what one action does (src/cortex/types.ts, src/cortex/runtime.ts).
    Tools and the language model are a `World`: any reply, which may depend on all earlier calls
    the same run made, or an error. */
module Automation {
  import opened Wrappers
  import opened Json
  import T = Template

  /** What an action other than `wait` does. `Other` stands for every type that the switch in
      executeAction sends to `default`. */
  datatype Work =
    | Llm(prompt: string, input: Json, storeAs: Option<string>)
    | Tool(tool: string, args: Json, storeAs: Option<string>)
    | Other(kind: string, config: Json)

  datatype Action = Do(work: Work) | Wait(duration: string)

  /** `OtherCondition` stands for every type that the switch in evalCondition sends to `default`. */
  datatype Condition =
    | Eval(expr: string)
    | Semantic(prompt: string, input: string, expected: string)
    | OtherCondition(kind: string)

  datatype UnitStatus = Active | Paused | Disabled

  datatype Unit = Unit(id: string, source: string, event: string, filter: Option<string>,
                       conditions: seq<Condition>, actions: seq<Action>, status: UnitStatus)

  datatype Status = Pending | Running | Waiting | Success | Failed

  datatype Run = Run(id: string, unitId: string, eventId: string, userId: string, status: Status,
                     step: nat, context: Fields, startedAt: nat,
                     completedAt: Option<nat>, resumeAt: Option<nat>, error: Option<string>)

  /** A request as the outside world sees it: arguments already resolved. */
  datatype Call = LlmCall(prompt: string, input: Json) | ToolCall(tool: string, args: Json, userId: string)

  /** `took` is the time the call lasted, in milliseconds. */
  datatype Reply = Returned(value: Option<Json>, took: nat) | Raised(error: string, took: nat)

  datatype World = World(reply: (seq<Call>, Call) -> Reply, stringify: Json -> string)

  // ---- Durations -------------------------------------------------------------------------

  const MINUTE: nat := 60 * 1000

  function UnitMs(c: char): Option<nat> {
    if c == 'm' then Some(MINUTE)
    else if c == 'h' then Some(60 * MINUTE)
    else if c == 'd' then Some(24 * 60 * MINUTE)
    else if c == 'w' then Some(7 * 24 * 60 * MINUTE)
    else None
  }

  /** `^(\d+)(m|h|d|w)$` in milliseconds; anything else is no delay. */
  function ParseDuration(d: string): nat {
    if |d| >= 2 && AllDigits(d[..|d| - 1]) && UnitMs(d[|d| - 1]).Some?
    then DecimalValue(d[..|d| - 1]) * UnitMs(d[|d| - 1]).value
    else 0
  }

  /** A number in decimal followed by `m`, `h`, `d` or `w` is read as that many minutes, hours, days or
      weeks in milliseconds; followed by any other character it is no delay. */
  lemma DurationRoundTrip(n: nat, unit: char)
    ensures
      ParseDuration(Decimal(n) + [unit]) ==
        if unit == 'm' then n * 60_000
        else if unit == 'h' then n * 3_600_000
        else if unit == 'd' then n * 86_400_000
        else if unit == 'w' then n * 604_800_000
        else 0
  {
    var d := Decimal(n) + [unit];
    assert d[..|d| - 1] == Decimal(n);
    DecimalRoundTrip(n);
  }

  /** A delay is only ever read from digits followed by one of the four letters. */
  lemma DurationForm(d: string)
    requires ParseDuration(d) > 0
    ensures |d| >= 2 && d[|d| - 1] in "mhdw" && forall i :: 0 <= i < |d| - 1 ==> '0' <= d[i] <= '9'
  {
    assert forall i :: 0 <= i < |d| - 1 ==> d[i] == d[..|d| - 1][i];
  }

  /** The latest instant a JavaScript Date can hold. */
  const MAX_TIME: nat := 8_640_000_000_000_000

  const INVALID_TIME := "Invalid time value"

  /** When a wait started now ends; `toISOString` throws beyond MAX_TIME. */
  function ResumeTime(now: nat, duration: string): Option<nat> {
    if now + ParseDuration(duration) <= MAX_TIME then Some(now + ParseDuration(duration)) else None
  }

  // ---- One action ------------------------------------------------------------------------

  /** The request an action sends, if any. */
  function Request(w: World, work: Work, userId: string, ctx: Fields): Option<Call> {
    match work
    case Llm(prompt, input, _) => Some(LlmCall(prompt, T.Resolve(w.stringify, input, ctx)))
    case Tool(tool, args, _) => Some(ToolCall(tool, T.Resolve(w.stringify, args, ctx), userId))
    case Other(_, _) => None
  }

  /** How an action that is not a wait ends. A model reply without text counts as empty text. */
  function Answer(w: World, work: Work, userId: string, ctx: Fields, heard: seq<Call>): Reply {
    match Request(w, work, userId, ctx)
    case None => Returned(None, 0)
    case Some(call) =>
      match w.reply(heard, call)
      case Raised(e, took) => Raised(e, took)
      case Returned(v, took) =>
        if work.Llm? then Returned(Some(if v.Some? && v.value.Str? then v.value else Str("")), took)
        else Returned(v, took)
  }

  function Heard(w: World, work: Work, userId: string, ctx: Fields, heard: seq<Call>): seq<Call> {
    var call := Request(w, work, userId, ctx);
    if call.Some? then heard + [call.value] else heard
  }

  function StoreAs(work: Work): Option<string> {
    match work
    case Llm(_, _, name) => name
    case Tool(_, _, name) => name
    case Other(_, _) => None
  }

  /** The context after an action returned `value`: stored only under a non-empty name. */
  function Stored(work: Work, ctx: Fields, value: Option<Json>): Fields {
    var name := StoreAs(work);
    if name.Some? && name.value != "" && value.Some? then ctx[name.value := value.value] else ctx
  }

  // ---- The reference meaning: a straight line ----------------------------------------------

  /** Where a straight-line execution got: `done` actions succeeded; the next one, if there is an
      error, raised it. */
  datatype Final = Final(done: nat, error: Option<string>, ctx: Fields, heard: seq<Call>)

  /** A list of actions run one after another, stopping at the first error. */
  function Straight(w: World, userId: string, works: seq<Work>, ctx: Fields, heard: seq<Call>): (f: Final)
    ensures f.done <= |works|
    ensures f.error.None? ==> f.done == |works|
    ensures f.error.Some? ==> f.done < |works|
  {
    if works == [] then Final(0, None, ctx, heard)
    else
      var heard' := Heard(w, works[0], userId, ctx, heard);
      match Answer(w, works[0], userId, ctx, heard)
      case Raised(e, _) => Final(0, Some(e), ctx, heard')
      case Returned(v, _) =>
        var rest := Straight(w, userId, works[1..], Stored(works[0], ctx, v), heard');
        rest.(done := rest.done + 1)
  }

  /** The action list with its waits removed. */
  function WithoutWaits(actions: seq<Action>): seq<Work> {
    if actions == [] then []
    else (if actions[0].Do? then [actions[0].work] else []) + WithoutWaits(actions[1..])
  }

  lemma {:induction false} WithoutWaitsAppend(a: seq<Action>, b: seq<Action>)
    ensures WithoutWaits(a + b) == WithoutWaits(a) + WithoutWaits(b)
  {
    if a == [] {
      assert a + b == b;
    } else {
      WithoutWaitsAppend(a[1..], b);
      assert (a + b)[0] == a[0] && (a + b)[1..] == a[1..] + b;
      var head := if a[0].Do? then [a[0].work] else [];
      assert WithoutWaits(a + b) == head + WithoutWaits(a[1..] + b);
      assert head + (WithoutWaits(a[1..]) + WithoutWaits(b)) == (head + WithoutWaits(a[1..])) + WithoutWaits(b);
    }
  }

  /** Running `a + b` is running `a` and, if that raised nothing, running `b` from where it ended. */
  lemma {:induction false} StraightAppend(w: World, userId: string, a: seq<Work>, b: seq<Work>, ctx: Fields, heard: seq<Call>)
    ensures
      var fa := Straight(w, userId, a, ctx, heard);
      var fb := Straight(w, userId, b, fa.ctx, fa.heard);
      Straight(w, userId, a + b, ctx, heard) == if fa.error.Some? then fa else fb.(done := |a| + fb.done)
  {
    if a == [] {
      assert a + b == b;
    } else {
      assert (a + b)[1..] == a[1..] + b;
      var heard' := Heard(w, a[0], userId, ctx, heard);
      match Answer(w, a[0], userId, ctx, heard)
      case Raised(_, _) =>
      case Returned(v, _) => StraightAppend(w, userId, a[1..], b, Stored(a[0], ctx, v), heard');
    }
  }
}
