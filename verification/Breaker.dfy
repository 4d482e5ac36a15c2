/** The circuit breaker (src/monitoring/error-handling.ts, CircuitBreaker). `execute` suspends while
    the operation runs, so it is two atomic parts, and any number of calls may be between them: the
    entry, and the end of the operation, which acts on the state it then finds. */
module Breaker {
  import opened Wrappers

  datatype Config = Config(failureThreshold: nat, successThreshold: nat, timeout: nat)

  /** `option || default`: an absent or zero option means the default. */
  function ConfigOf(failures: Option<nat>, successes: Option<nat>, timeout: Option<nat>): Config {
    Config(OrDefault(failures, 5), OrDefault(successes, 2), OrDefault(timeout, 60000))
  }

  function OrDefault(option: Option<nat>, default: nat): nat {
    if option.Some? && option.value != 0 then option.value else default
  }

  datatype Mode = Closed | Open | HalfOpen

  datatype Breaker = Breaker(mode: Mode, failureCount: nat, successCount: nat, lastFailureTime: Option<nat>)

  const NEW := Breaker(Closed, 0, 0, None)

  datatype Event = Enter(now: nat) | Succeed | Fail(now: nat)

  /** Whether a call that enters now may start. */
  predicate Admits(c: Config, b: Breaker, now: nat) {
    b.mode == Open ==> now as int - (if b.lastFailureTime.Some? then b.lastFailureTime.value else 0) > c.timeout
  }

  function Apply(c: Config, b: Breaker, e: Event): Breaker {
    match e
    case Enter(now) => if b.mode == Open && Admits(c, b, now) then b.(mode := HalfOpen, successCount := 0) else b
    case Succeed =>
      if b.mode != HalfOpen then b
      else
        var b1 := b.(successCount := b.successCount + 1);
        if b1.successCount >= c.successThreshold then b1.(mode := Closed, failureCount := 0) else b1
    case Fail(now) =>
      var b1 := b.(lastFailureTime := Some(now), failureCount := b.failureCount + 1);
      if b1.failureCount >= c.failureThreshold then b1.(mode := Open) else b1
  }

  /** The breaker after a list of events. */
  function After(c: Config, es: seq<Event>): Breaker {
    if es == [] then NEW else Apply(c, After(c, es[..|es| - 1]), es[|es| - 1])
  }

  class CircuitBreaker {
    const config: Config
    var mode: Mode
    var failureCount: nat
    var successCount: nat
    var lastFailureTime: Option<nat>

    constructor (failures: Option<nat>, successes: Option<nat>, timeout: Option<nat>)
      ensures config == ConfigOf(failures, successes, timeout) && View() == NEW
    {
      config := ConfigOf(failures, successes, timeout);
      mode, failureCount, successCount, lastFailureTime := Closed, 0, 0, None;
    }

    ghost function View(): Breaker
      reads this
    {
      Breaker(mode, failureCount, successCount, lastFailureTime)
    }

    /** execute, up to the operation; the call fails at once if not admitted. */
    method Begin(now: nat) returns (admitted: bool)
      modifies this
      ensures admitted == Admits(config, old(View()), now)
      ensures View() == Apply(config, old(View()), Enter(now))
    {
      if mode == Open {
        var since := now as int - (if lastFailureTime.Some? then lastFailureTime.value else 0);
        if since > config.timeout {
          mode := HalfOpen;
          successCount := 0;
        } else {
          return false;
        }
      }
      admitted := true;
    }

    /** The operation came back. */
    method Succeeded()
      modifies this
      ensures View() == Apply(config, old(View()), Succeed)
    {
      if mode == HalfOpen {
        successCount := successCount + 1;
        if successCount >= config.successThreshold {
          mode := Closed;
          failureCount := 0;
        }
      }
    }

    /** The operation threw. */
    method Failed(now: nat)
      modifies this
      ensures View() == Apply(config, old(View()), Fail(now))
    {
      lastFailureTime := Some(now);
      failureCount := failureCount + 1;
      if failureCount >= config.failureThreshold { mode := Open; }
    }
  }

  // ---- What the history says ----------------------------------------------------------------------

  function Failures(es: seq<Event>): nat {
    if es == [] then 0 else Failures(es[..|es| - 1]) + (if es[|es| - 1].Fail? then 1 else 0)
  }

  function Successes(es: seq<Event>): nat {
    if es == [] then 0 else Successes(es[..|es| - 1]) + (if es[|es| - 1].Succeed? then 1 else 0)
  }

  /** The last event took the breaker from mode `from` to mode `to`. */
  predicate Turned(c: Config, es: seq<Event>, from: Mode, to: Mode) {
    es != [] && After(c, es[..|es| - 1]).mode == from && After(c, es).mode == to
  }

  /** How many events had happened when the breaker last closed (0 if it never did). */
  function LastClose(c: Config, es: seq<Event>): (n: nat)
    ensures n <= |es|
  {
    if es == [] then 0 else if Turned(c, es, HalfOpen, Closed) then |es| else LastClose(c, es[..|es| - 1])
  }

  /** How many events had happened when the breaker last became half-open. */
  function LastTrial(c: Config, es: seq<Event>): (n: nat)
    ensures n <= |es|
  {
    if es == [] then 0 else if Turned(c, es, Open, HalfOpen) then |es| else LastTrial(c, es[..|es| - 1])
  }

  /** When an operation last failed. */
  function LastFailure(es: seq<Event>): Option<nat> {
    if es == [] then None
    else if es[|es| - 1].Fail? then Some(es[|es| - 1].now)
    else LastFailure(es[..|es| - 1])
  }

  lemma TailSnoc(es: seq<Event>, n: nat)
    requires es != [] && n < |es|
    ensures es[n..][..|es[n..]| - 1] == es[..|es| - 1][n..] && es[n..][|es[n..]| - 1] == es[|es| - 1]
  {
  }

  /** Safety, after any events: the count is that of the failures since construction or the last
      close; the breaker is closed exactly while it is below the threshold; the time remembered is
      that of the latest failure; while half-open, the success count is that of the successes since
      the trial began, below the threshold, and nothing has failed since. */
  lemma {:induction false} Safety(c: Config, es: seq<Event>)
    requires c.failureThreshold >= 1 && c.successThreshold >= 1
    ensures
      var b := After(c, es);
      && b.failureCount == Failures(es[LastClose(c, es)..])
      && (b.mode == Closed <==> b.failureCount < c.failureThreshold)
      && b.lastFailureTime == LastFailure(es)
      && (b.mode == HalfOpen ==>
            b.successCount == Successes(es[LastTrial(c, es)..]) < c.successThreshold &&
            Failures(es[LastTrial(c, es)..]) == 0)
  {
    if es == [] {
    } else {
      var front := es[..|es| - 1];
      Safety(c, front);
      var n := LastClose(c, front);
      if n < |es| { TailSnoc(es, n); }
      var m := LastTrial(c, front);
      if m < |es| { TailSnoc(es, m); }
    }
  }

  /** While the breaker is open, a call is admitted exactly once more than the timeout has passed
      since the latest failure, and it opens a trial. */
  lemma OpenAdmitsAfterTimeout(c: Config, es: seq<Event>, now: nat)
    requires c.failureThreshold >= 1 && c.successThreshold >= 1 && After(c, es).mode == Open
    ensures
      LastFailure(es).Some? &&
      (Admits(c, After(c, es), now) <==> now > LastFailure(es).value + c.timeout) &&
      (Admits(c, After(c, es), now) ==> After(c, es + [Enter(now)]).mode == HalfOpen)
  {
    Safety(c, es);
    FailuresHappened(es, LastClose(c, es));
    assert (es + [Enter(now)])[..|es|] == es;
  }

  lemma {:induction false} FailuresHappened(es: seq<Event>, n: nat)
    requires n <= |es| && Failures(es[n..]) > 0
    ensures LastFailure(es).Some?
  {
    TailSnoc(es, n);
    if es[|es| - 1].Fail? {
    } else {
      FailuresHappened(es[..|es| - 1], n);
    }
  }

  /** The breaker closes only by a success, exactly when it is the `successThreshold`-th since the
      trial began with no failure in between. */
  lemma ClosesExactly(c: Config, es: seq<Event>, e: Event)
    requires c.failureThreshold >= 1 && c.successThreshold >= 1 && After(c, es).mode != Closed
    ensures
      After(c, es + [e]).mode == Closed <==>
        After(c, es).mode == HalfOpen && e.Succeed? &&
        Successes((es + [e])[LastTrial(c, es)..]) == c.successThreshold && Failures((es + [e])[LastTrial(c, es)..]) == 0
  {
    Safety(c, es);
    var all := es + [e];
    assert all[..|all| - 1] == es;
    TailSnoc(all, LastTrial(c, es));
  }

  /** A success counts towards closing whenever its call started: calls admitted while the breaker
      was still closed can end the trial although the trial call itself has not come back. */
  lemma StaleSuccessesClose()
    ensures
      var c := Config(1, 2, 1000);
      var es := [Enter(0), Enter(0), Enter(0), Fail(5), Enter(2000), Succeed, Succeed];
      After(c, es[..4]).mode == Open && After(c, es[..5]).mode == HalfOpen && After(c, es).mode == Closed
  {
    var c := Config(1, 2, 1000);
    var es := [Enter(0), Enter(0), Enter(0), Fail(5), Enter(2000), Succeed, Succeed];
    assert After(c, es[..0]) == NEW;
    assert es[..1][..0] == es[..0] && es[..2][..1] == es[..1] && es[..3][..2] == es[..2] && es[..4][..3] == es[..3];
    assert es[..5][..4] == es[..4] && es[..6][..5] == es[..5] && es[..7][..6] == es[..6] && es[..7] == es;
    assert After(c, es[..1]) == NEW;
    assert After(c, es[..2]) == NEW;
    assert After(c, es[..3]) == NEW;
    assert After(c, es[..4]) == Breaker(Open, 1, 0, Some(5));
    assert After(c, es[..5]) == Breaker(HalfOpen, 1, 0, Some(5));
    assert After(c, es[..6]) == Breaker(HalfOpen, 1, 1, Some(5));
  }

  /** Absent or zero options mean five failures, two successes and one minute. */
  lemma Defaults()
    ensures ConfigOf(None, None, None) == ConfigOf(Some(0), Some(0), Some(0)) == Config(5, 2, 60_000)
    ensures ConfigOf(Some(3), Some(1), Some(500)) == Config(3, 1, 500)
  {
  }

  /** While the breaker is not open, every call is admitted and changes nothing. */
  lemma OtherwiseAdmits(c: Config, es: seq<Event>, now: nat)
    requires After(c, es).mode != Open
    ensures Admits(c, After(c, es), now) && After(c, es + [Enter(now)]) == After(c, es)
  {
    assert (es + [Enter(now)])[..|es|] == es;
  }
}
