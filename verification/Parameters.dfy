/** Collecting the parameters of a pending action (src/action-launcher.service.ts,
    updateParameterValue and the action map). */
module Parameters {
  import opened Wrappers

  /** A value from the user, seen as `String(value)` sees it; `Absent` is null or undefined. */
  datatype Value = Absent | Shown(text: string)

  datatype Parameter = Parameter(name: string, required: bool, current: Value)

  datatype Status = Collecting | Ready | Executing | Completed | Failed

  /** The white space that `trim` removes. */
  predicate IsSpace(c: char) {
    c in " \t\n\r" || c == '\U{000B}' || c == '\U{000C}' || c == '\U{00A0}' || c == '\U{FEFF}' || c == '\U{1680}' ||
    '\U{2000}' <= c <= '\U{200A}' || c == '\U{2028}' || c == '\U{2029}' || c == '\U{202F}' || c == '\U{205F}' || c == '\U{3000}'
  }

  /** Not null, not undefined, and not blank. */
  predicate HasValue(v: Value) {
    v.Shown? && exists i :: 0 <= i < |v.text| && !IsSpace(v.text[i])
  }

  datatype Form = Form(parameters: seq<Parameter>, missing: seq<string>, status: Status)

  function IndexOf(ps: seq<Parameter>, name: string): (i: nat)
    ensures i <= |ps|
    ensures i < |ps| ==> ps[i].name == name
    ensures forall j :: 0 <= j < i ==> ps[j].name != name
  {
    if ps == [] || ps[0].name == name then 0 else 1 + IndexOf(ps[1..], name)
  }

  function Position(names: seq<string>, name: string): (i: nat)
    ensures i <= |names|
    ensures i < |names| ==> names[i] == name
    ensures forall j :: 0 <= j < i ==> names[j] != name
  {
    if names == [] || names[0] == name then 0 else 1 + Position(names[1..], name)
  }

  /** Some required parameter is still missing. */
  predicate Lacking(ps: seq<Parameter>, missing: seq<string>) {
    exists i :: 0 <= i < |ps| && ps[i].required && ps[i].name in missing
  }

  /** The list after the splice or push. */
  function NextMissing(missing: seq<string>, name: string, required: bool, value: Value): seq<string> {
    var at := Position(missing, name);
    if required && HasValue(value) && at < |missing| then missing[..at] + missing[at + 1..]
    else if required && !HasValue(value) && at == |missing| then missing + [name]
    else missing
  }

  /** A successful update; an unknown parameter changes nothing. */
  function Updated(f: Form, name: string, value: Value): Form {
    var i := IndexOf(f.parameters, name);
    if i == |f.parameters| then f
    else
      var ps := f.parameters[i := f.parameters[i].(current := value)];
      var missing := NextMissing(f.missing, name, ps[i].required, value);
      Form(ps, missing, if Lacking(ps, missing) then Collecting else Ready)
  }

  class ActiveAction {
    var parameters: seq<Parameter>
    var missing: seq<string>
    var status: Status

    constructor (parameters: seq<Parameter>, missing: seq<string>, status: Status)
      ensures View() == Form(parameters, missing, status)
    {
      this.parameters, this.missing, this.status := parameters, missing, status;
    }

    function View(): Form
      reads this
    {
      Form(parameters, missing, status)
    }
  }

  class ActionLauncher {
    var activeActions: map<string, map<string, ActiveAction>>

    constructor ()
      ensures activeActions == map[]
    {
      activeActions := map[];
    }

    function GetAction(sessionId: string, actionId: string): (a: ActiveAction?)
      reads this
    {
      if sessionId in activeActions && actionId in activeActions[sessionId] then activeActions[sessionId][actionId] else null
    }

    /** _createAndStoreAction: a new action under its id, replacing one stored there before. */
    method CreateAndStoreAction(sessionId: string, actionId: string, parameters: seq<Parameter>, missing: seq<string>, status: Status)
      returns (a: ActiveAction)
      modifies this
      ensures fresh(a) && a.View() == Form(parameters, missing, status) && GetAction(sessionId, actionId) == a
      ensures forall s, i :: (s, i) != (sessionId, actionId) ==> GetAction(s, i) == old(GetAction(s, i))
    {
      a := new ActiveAction(parameters, missing, status);
      var session: map<string, ActiveAction> := if sessionId in activeActions then activeActions[sessionId] else map[];
      activeActions := activeActions[sessionId := session[actionId := a]];
    }

    /** updateParameterValue: `null` if there is no such action or parameter. `notified` says whether
        the event `action_ready_for_confirmation` was emitted. */
    method UpdateParameterValue(sessionId: string, actionId: string, name: string, value: Value)
      returns (r: ActiveAction?, notified: bool)
      modifies GetAction(sessionId, actionId)
      ensures
        var a := GetAction(sessionId, actionId);
        if a == null || IndexOf(old(a.parameters), name) == |old(a.parameters)|
        then r == null && !notified && (a != null ==> a.View() == old(a.View()))
        else r == a && a.View() == Updated(old(a.View()), name, value) && notified == (a.status == Ready)
    {
      hide HasValue, Lacking;
      var action := GetAction(sessionId, actionId);
      notified := false;
      if action == null { return null, false; }
      var i := IndexOf(action.parameters, name);
      if i == |action.parameters| { return null, false; }
      action.parameters := action.parameters[i := action.parameters[i].(current := value)];
      var at := Position(action.missing, name);
      var required := action.parameters[i].required;
      if required && HasValue(value) && at < |action.missing| {
        action.missing := action.missing[..at] + action.missing[at + 1..];
      } else if required && !HasValue(value) && at == |action.missing| {
        action.missing := action.missing + [name];
      }
      action.status := if Lacking(action.parameters, action.missing) then Collecting else Ready;
      r, notified := action, action.status == Ready;
    }
  }

  // ---- Order independence ---------------------------------------------------------------------------

  datatype Update = Update(name: string, value: Value)

  /** The form after a list of updates. */
  function After(f: Form, us: seq<Update>): Form {
    if us == [] then f else Updated(After(f, us[..|us| - 1]), us[|us| - 1].name, us[|us| - 1].value)
  }

  /** The last value given for a parameter. */
  function LastValue(us: seq<Update>, name: string): Option<Value> {
    if us == [] then None
    else if us[|us| - 1].name == name then Some(us[|us| - 1].value)
    else LastValue(us[..|us| - 1], name)
  }

  ghost predicate NamesDistinct(ps: seq<Parameter>) {
    forall i, j :: 0 <= i < j < |ps| ==> ps[i].name != ps[j].name
  }

  ghost predicate Distinct(names: seq<string>) {
    forall i, j :: 0 <= i < j < |names| ==> names[i] != names[j]
  }

  ghost predicate Known(ps: seq<Parameter>, name: string) {
    IndexOf(ps, name) < |ps|
  }

  ghost predicate Required(ps: seq<Parameter>, name: string) {
    Known(ps, name) && ps[IndexOf(ps, name)].required
  }

  /** What the missing list holds, computed from the start and the last values alone. */
  ghost predicate ShouldMiss(start: Form, us: seq<Update>, name: string) {
    var last := LastValue(us, name);
    if last.Some? && Required(start.parameters, name) then !HasValue(last.value) else name in start.missing
  }

  lemma NextMissingLaw(missing: seq<string>, name: string, required: bool, value: Value)
    requires Distinct(missing)
    ensures Distinct(NextMissing(missing, name, required, value))
    ensures forall x :: x != name ==> (x in NextMissing(missing, name, required, value) <==> x in missing)
    ensures name in NextMissing(missing, name, required, value) <==> if required then !HasValue(value) else name in missing
  {
    var at := Position(missing, name);
    if required && HasValue(value) && at < |missing| {
      assert missing == missing[..at] + [name] + missing[at + 1..];
    }
  }

  /** Names and the required flags never change. */
  ghost predicate SameShape(ps: seq<Parameter>, qs: seq<Parameter>) {
    |ps| == |qs| && forall i :: 0 <= i < |ps| ==> ps[i].name == qs[i].name && ps[i].required == qs[i].required
  }

  lemma {:induction false} IndexOfShape(ps: seq<Parameter>, qs: seq<Parameter>, name: string)
    requires SameShape(ps, qs)
    ensures IndexOf(ps, name) == IndexOf(qs, name)
  {
    if ps == [] {
    } else {
      assert forall i :: 0 <= i < |ps| - 1 ==> ps[1..][i] == ps[i + 1] && qs[1..][i] == qs[i + 1];
      IndexOfShape(ps[1..], qs[1..], name);
    }
  }

  ghost predicate AllKnown(ps: seq<Parameter>, us: seq<Update>) {
    forall i :: 0 <= i < |us| ==> Known(ps, us[i].name)
  }

  lemma {:induction false} ShapeAfter(start: Form, us: seq<Update>)
    ensures SameShape(After(start, us).parameters, start.parameters)
  {
    if us == [] {
    } else {
      ShapeAfter(start, us[..|us| - 1]);
    }
  }

  /** After any updates of known parameters, the missing list has no duplicates and holds exactly the
      names it should. */
  lemma {:induction false} MissingAfter(start: Form, us: seq<Update>)
    requires Distinct(start.missing) && AllKnown(start.parameters, us)
    ensures Distinct(After(start, us).missing)
    ensures forall name :: name in After(start, us).missing <==> ShouldMiss(start, us, name)
  {
    if us == [] {
    } else {
      var front, u := us[..|us| - 1], us[|us| - 1];
      MissingAfter(start, front);
      ShapeAfter(start, front);
      var f := After(start, front);
      var i := IndexOf(f.parameters, u.name);
      IndexOfShape(f.parameters, start.parameters, u.name);
      NextMissingLaw(f.missing, u.name, Required(start.parameters, u.name), u.value);
      assert After(start, us).missing == NextMissing(f.missing, u.name, f.parameters[i].required, u.value);
    }
  }

  /** Each parameter has the last value given for it. */
  lemma {:induction false} ValuesAfter(start: Form, us: seq<Update>, i: nat)
    requires NamesDistinct(start.parameters) && AllKnown(start.parameters, us) && i < |start.parameters|
    ensures |After(start, us).parameters| == |start.parameters|
    ensures
      var last := LastValue(us, start.parameters[i].name);
      After(start, us).parameters[i] ==
        start.parameters[i].(current := if last.Some? then last.value else start.parameters[i].current)
  {
    ShapeAfter(start, us);
    if us == [] {
    } else {
      var front, u := us[..|us| - 1], us[|us| - 1];
      ValuesAfter(start, front, i);
      ShapeAfter(start, front);
      var f := After(start, front);
      IndexOfShape(f.parameters, start.parameters, u.name);
      FoundAt(start.parameters, i);
    }
  }

  /** After at least one update the action is ready exactly if no required parameter is missing. */
  lemma ReadyExactly(start: Form, us: seq<Update>)
    requires us != [] && AllKnown(start.parameters, us)
    requires NamesDistinct(start.parameters) && Distinct(start.missing)
    ensures
      After(start, us).status ==
        if exists name :: Required(start.parameters, name) && ShouldMiss(start, us, name) then Collecting else Ready
  {
    var front, u := us[..|us| - 1], us[|us| - 1];
    MissingAfter(start, us);
    ShapeAfter(start, us);
    ShapeAfter(start, front);
    var f := After(start, us);
    IndexOfShape(After(start, front).parameters, start.parameters, u.name);
    assert f.status == if Lacking(f.parameters, f.missing) then Collecting else Ready;
    LackingMeans(start, f);
  }

  /** `some` on the parameters and the list, in terms of names. */
  lemma LackingMeans(start: Form, f: Form)
    requires NamesDistinct(start.parameters) && SameShape(f.parameters, start.parameters)
    ensures Lacking(f.parameters, f.missing) <==> exists name :: Required(start.parameters, name) && name in f.missing
  {
    if Lacking(f.parameters, f.missing) {
      var i :| 0 <= i < |f.parameters| && f.parameters[i].required && f.parameters[i].name in f.missing;
      FoundAt(start.parameters, i);
      assert Required(start.parameters, f.parameters[i].name);
    }
    forall name | Required(start.parameters, name) && name in f.missing ensures Lacking(f.parameters, f.missing) {
      var i := IndexOf(start.parameters, name);
      assert f.parameters[i].required && f.parameters[i].name == name;
    }
  }

  lemma FoundAt(ps: seq<Parameter>, i: nat)
    requires NamesDistinct(ps) && i < |ps|
    ensures IndexOf(ps, ps[i].name) == i
  {
  }

  /** Order independence: two non-empty lists of updates that give every parameter the same last
      value leave the same set of missing parameters, the same status and the same values. */
  lemma OrderIndependent(start: Form, us: seq<Update>, vs: seq<Update>)
    requires NamesDistinct(start.parameters) && Distinct(start.missing)
    requires us != [] && vs != [] && AllKnown(start.parameters, us) && AllKnown(start.parameters, vs)
    requires forall name :: LastValue(us, name) == LastValue(vs, name)
    ensures After(start, us).status == After(start, vs).status
    ensures After(start, us).parameters == After(start, vs).parameters
    ensures forall name :: name in After(start, us).missing <==> name in After(start, vs).missing
  {
    forall name ensures ShouldMiss(start, us, name) == ShouldMiss(start, vs, name) {
      assert LastValue(us, name) == LastValue(vs, name);
    }
    MissingAfter(start, us);
    MissingAfter(start, vs);
    ReadyExactly(start, us);
    ReadyExactly(start, vs);
    ShapeAfter(start, us);
    ShapeAfter(start, vs);
    forall i | 0 <= i < |start.parameters| ensures After(start, us).parameters[i] == After(start, vs).parameters[i] {
      ValuesAfter(start, us, i);
      ValuesAfter(start, vs, i);
    }
  }

  // ---- What counts as a value -------------------------------------------------------------------

  /** A text has a value if any character is not white space; a missing value or a blank text has none. */
  lemma ValueMeans(pre: string, c: char, post: string, blank: string)
    requires '!' <= c <= '~' && forall x <- blank :: x in " \t\n\r"
    ensures HasValue(Shown(pre + [c] + post)) && !HasValue(Shown(blank)) && !HasValue(Absent)
  {
    assert (pre + [c] + post)[|pre|] == c;
    forall i | 0 <= i < |blank| ensures IsSpace(blank[i]) { assert blank[i] in blank; }
  }
}
