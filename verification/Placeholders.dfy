/** `{{stepId.path}}` placeholders in the arguments of a plan step
    (src/services/PlanExecutorService.ts, _get and _resolvePlaceholders). */
module Placeholders {
  import opened Wrappers
  import opened Json

  // ---- Paths --------------------------------------------------------------------------------

  predicate WordChar(c: char) {
    'a' <= c <= 'z' || 'A' <= c <= 'Z' || '0' <= c <= '9' || c == '_'
  }

  function WordRun(s: string): (n: nat)
    ensures n <= |s|
  {
    if s != "" && WordChar(s[0]) then 1 + WordRun(s[1..]) else 0
  }

  /** `path.replace(/\[(\w+)\]/g, '.$1')` */
  function Unbracket(s: string): string
    decreases |s|
  {
    if s == "" then ""
    else
      var n := WordRun(s[1..]);
      if s[0] == '[' && n >= 1 && n + 1 < |s| && s[n + 1] == ']' then "." + s[1..n + 1] + Unbracket(s[n + 2..])
      else [s[0]] + Unbracket(s[1..])
  }

  function PathKeys(path: string): seq<string> {
    var dotted := Unbracket(path);
    Split(if dotted != "" && dotted[0] == '.' then dotted[1..] else dotted, '.')
  }

  /** The value at a path. */
  function ValueAt(data: Option<Json>, path: string): Option<Json> {
    Walk(data, PathKeys(path))
  }

  /** _get, with no default: the loop stops early at an absent value. */
  method Get(obj: Option<Json>, path: string) returns (r: Option<Json>)
    ensures r == ValueAt(obj, path)
  {
    var pathArray := PathKeys(path);
    var current := obj;
    for i := 0 to |pathArray|
      invariant Walk(current, pathArray[i..]) == ValueAt(obj, path)
    {
      if current.None? || current.value.Null? {
        NothingBelow(current, pathArray[i..]);
        return None;
      }
      current := Property(current.value, pathArray[i]);
    }
    r := current;
  }

  /** Below an absent value or null there is nothing. */
  lemma {:induction false} NothingBelow(v: Option<Json>, keys: seq<string>)
    requires keys != [] && (v.None? || v.value.Null?)
    ensures Walk(v, keys) == None
  {
    WalkFromNowhere(keys[1..]);
  }

  // ---- Placeholders in a string -----------------------------------------------------------------

  /** The characters `.` does not match. */
  predicate LineEnd(c: char) {
    c == '\n' || c == '\r' || c == '\U{2028}' || c == '\U{2029}'
  }

  predicate OneLine(s: string) {
    forall i :: 0 <= i < |s| ==> !LineEnd(s[i])
  }

  /** `^{{(.+?)}}$`: with the end anchored, everything between the outer braces, even if it holds
      braces itself. */
  function Whole(s: string): Option<string> {
    if |s| >= 5 && s[0] == s[1] == '{' && s[|s| - 2] == s[|s| - 1] == '}' && OneLine(s[2..|s| - 2])
    then Some(s[2..|s| - 2]) else None
  }

  /** Where the shortest placeholder that starts at 0 closes. */
  function Close(s: string, j: nat): (e: Option<nat>)
    requires j >= 3
    ensures e.Some? ==> j <= e.value && e.value + 2 <= |s| && s[e.value] == s[e.value + 1] == '}'
    ensures e.Some? ==> forall k :: j <= k < e.value ==> !(s[k] == '}' && s[k + 1] == '}')
    decreases |s| - j
  {
    if j + 2 > |s| || LineEnd(s[j - 1]) then None
    else if s[j] == s[j + 1] == '}' then Some(j)
    else Close(s, j + 1)
  }

  datatype Piece = Lit(c: char) | Hole(inner: string)

  function Closing(s: string): (e: Option<nat>)
    ensures e.Some? ==> |s| >= 5 && s[0] == s[1] == '{' && 3 <= e.value && e.value + 2 <= |s| && s[e.value] == s[e.value + 1] == '}'
  {
    if |s| >= 5 && s[0] == s[1] == '{' then Close(s, 3) else None
  }

  /** What `replace(/{{(.+?)}}/g, …)` visits. */
  function Scan(s: string): seq<Piece>
    decreases |s|
  {
    if s == "" then []
    else
      var e := Closing(s);
      if e.Some? then [Hole(s[2..e.value])] + Scan(s[e.value + 2..]) else [Lit(s[0])] + Scan(s[1..])
  }

  /** The step a placeholder names, and the path into its result data. */
  function NamedStep(inner: string): string {
    Split(inner, '.')[0]
  }

  function NamedPath(inner: string): string {
    var rest := Split(inner, '.')[1..];
    Join(if rest != [] && rest[0] == "result" then rest[1..] else rest, '.')
  }

  /** What is known of finished steps: the result data under a step id, `None` if there is no such
      step or it has no result; the data itself may be absent. */
  type Results = string -> Option<Option<Json>>

  function Value(results: Results, inner: string): Option<Json> {
    var found := results(NamedStep(inner));
    if found.Some? then ValueAt(found.value, NamedPath(inner)) else None
  }

  function Braced(inner: string): string {
    "{{" + inner + "}}"
  }

  /** What a placeholder inside a text becomes: its value as text, or itself if it has none. */
  function Filled(results: Results, text: Json -> string, inner: string): string {
    var v := Value(results, inner);
    if v.Some? then text(v.value) else Braced(inner)
  }

  /** Text with every placeholder that has a value replaced by it. */
  function Render(results: Results, text: Json -> string, ps: seq<Piece>): string {
    if ps == [] then ""
    else (match ps[0]
          case Lit(c) => [c]
          case Hole(inner) => Filled(results, text, inner))
         + Render(results, text, ps[1..])
  }

  predicate AnyValue(results: Results, ps: seq<Piece>) {
    exists i :: 0 <= i < |ps| && ps[i].Hole? && Value(results, ps[i].inner).Some?
  }

  /** A value with its placeholders resolved. */
  function Resolve(results: Results, text: Json -> string, v: Json): Json {
    match v
    case Str(s) =>
      (match Whole(s)
       case Some(inner) => (match Value(results, inner) case Some(x) => x case None => v)
       case None => Str(Render(results, text, Scan(s))))
    case Arr(items) => Arr(seq(|items|, i requires 0 <= i < |items| => Resolve(results, text, items[i])))
    case Obj(fields) => Obj(map k | k in fields :: Resolve(results, text, fields[k]))
    case _ => v
  }

  function ResolveArgs(results: Results, text: Json -> string, args: Fields): Fields {
    map k | k in args :: Resolve(results, text, args[k])
  }

  /** The flag `placeholdersResolved`. */
  predicate Resolved(results: Results, v: Json) {
    match v
    case Str(s) =>
      (match Whole(s)
       case Some(inner) => Value(results, inner).Some?
       case None => AnyValue(results, Scan(s)))
    case Arr(items) => exists i :: 0 <= i < |items| && Resolved(results, items[i])
    case Obj(fields) => exists k :: k in fields && Resolved(results, fields[k])
    case _ => false
  }

  predicate ArgsResolved(results: Results, args: Fields) {
    exists k :: k in args && Resolved(results, args[k])
  }

  // ---- Laws ---------------------------------------------------------------------------------------

  function Source(ps: seq<Piece>): string {
    if ps == [] then ""
    else (match ps[0] case Lit(c) => [c] case Hole(inner) => Braced(inner)) + Source(ps[1..])
  }

  lemma SourceCons(p: Piece, ps: seq<Piece>)
    ensures Source([p] + ps) == (match p case Lit(c) => [c] case Hole(inner) => Braced(inner)) + Source(ps)
  {
    assert ([p] + ps)[1..] == ps;
  }

  lemma Reassemble(s: string, e: nat)
    requires 3 <= e && e + 2 <= |s| && s[0] == s[1] == '{' && s[e] == s[e + 1] == '}'
    ensures s == Braced(s[2..e]) + s[e + 2..]
  {
    assert s[..2] == "{{" && s[e..e + 2] == "}}";
    assert s == s[..2] + s[2..e] + s[e..e + 2] + s[e + 2..];
  }

  lemma SourceOfHole(s: string, e: nat, rest: seq<Piece>)
    requires 3 <= e && e + 2 <= |s| && s[0] == s[1] == '{' && s[e] == s[e + 1] == '}'
    requires Source(rest) == s[e + 2..]
    ensures Source([Hole(s[2..e])] + rest) == s
  {
    SourceCons(Hole(s[2..e]), rest);
    Reassemble(s, e);
  }

  lemma SourceOfLit(s: string, rest: seq<Piece>)
    requires s != "" && Source(rest) == s[1..]
    ensures Source([Lit(s[0])] + rest) == s
  {
    SourceCons(Lit(s[0]), rest);
  }

  /** Scanning loses no character. */
  lemma {:induction false} ScanKeepsText(s: string)
    ensures Source(Scan(s)) == s
    decreases |s|
  {
    if s == "" {
    } else {
      match Closing(s)
      case Some(e) =>
        ScanKeepsText(s[e + 2..]);
        SourceOfHole(s, e, Scan(s[e + 2..]));
      case None =>
        ScanKeepsText(s[1..]);
        SourceOfLit(s, Scan(s[1..]));
    }
  }

  lemma {:induction false} RenderWithoutValues(results: Results, text: Json -> string, ps: seq<Piece>)
    requires !AnyValue(results, ps)
    ensures Render(results, text, ps) == Source(ps)
  {
    if ps == [] {
    } else {
      assert forall i :: 0 <= i < |ps| - 1 ==> ps[1..][i] == ps[i + 1];
      RenderWithoutValues(results, text, ps[1..]);
    }
  }

  /** If the flag is false, the value comes out as it went in. */
  lemma {:induction false} UnresolvedUnchanged(results: Results, text: Json -> string, v: Json)
    requires !Resolved(results, v)
    ensures Resolve(results, text, v) == v
    decreases v
  {
    match v
    case Str(s) =>
      if Whole(s).None? {
        RenderWithoutValues(results, text, Scan(s));
        ScanKeepsText(s);
      }
    case Arr(items) =>
      forall i | 0 <= i < |items| ensures Resolve(results, text, items[i]) == items[i] {
        UnresolvedUnchanged(results, text, items[i]);
      }
      assert Resolve(results, text, v).items == items;
    case Obj(fields) =>
      forall k | k in fields ensures Resolve(results, text, fields[k]) == fields[k] {
        UnresolvedUnchanged(results, text, fields[k]);
      }
      assert Resolve(results, text, v).fields == fields;
    case _ =>
  }

  /** A false flag for a whole argument list: nothing was changed. */
  lemma ArgsUnresolvedUnchanged(results: Results, text: Json -> string, args: Fields)
    requires !ArgsResolved(results, args)
    ensures ResolveArgs(results, text, args) == args
  {
    forall k | k in args ensures Resolve(results, text, args[k]) == args[k] {
      UnresolvedUnchanged(results, text, args[k]);
    }
  }

  // ---- Placeholders inside a text -------------------------------------------------------------------

  /** The first placeholder of `s` stands between `before` and `rest`: no other that closes opens
      before it, and it closes as soon as it can. */
  ghost predicate Splits(s: string, before: string, inner: string, rest: string) {
    s == before + (Braced(inner) + rest) && Closing(Braced(inner) + rest) == Some(2 + |inner|) &&
    forall i :: 0 <= i < |before| ==> Closing(s[i..]).None?
  }

  ghost predicate NoPlaceholder(s: string) {
    forall i :: 0 <= i < |s| ==> Closing(s[i..]).None?
  }

  /** `w` is `s` with its placeholders filled one after another from the left: the text around them
      is kept, and what is put in is not looked at again. */
  ghost predicate Substituted(results: Results, text: Json -> string, s: string, w: string)
    decreases |s|, 0
  {
    (NoPlaceholder(s) && w == s) ||
    exists before, inner, rest :: Splits(s, before, inner, rest) &&
      Continues(results, text, before, Filled(results, text, inner), rest, w)
  }

  /** `w` is the text `before`, then `filled`, then `rest` with its placeholders filled. */
  ghost predicate Continues(results: Results, text: Json -> string, before: string, filled: string, rest: string, w: string)
    decreases |rest|, 1
  {
    before + filled <= w && Substituted(results, text, rest, w[|before + filled|..])
  }

  /** A character in front that opens no placeholder is kept. */
  lemma SubstitutedCons(results: Results, text: Json -> string, s: string, w: string)
    requires s != "" && Closing(s).None? && Substituted(results, text, s[1..], w)
    ensures Substituted(results, text, s, [s[0]] + w)
  {
    hide Closing, Filled, Continues, Splits, NoPlaceholder;
    var c, tail := s[0], s[1..];
    if NoPlaceholder(tail) && w == tail {
      NoPlaceholderCons(s);
      assert [c] + w == s;
    } else {
      var before, inner, rest :|
        Splits(tail, before, inner, rest) && Continues(results, text, before, Filled(results, text, inner), rest, w);
      SplitsCons(s, before, inner, rest);
      ContinuesCons(results, text, c, before, Filled(results, text, inner), rest, w);
      assert Splits(s, [c] + before, inner, rest);
    }
  }

  lemma NoPlaceholderCons(s: string)
    requires s != "" && Closing(s).None? && NoPlaceholder(s[1..])
    ensures NoPlaceholder(s)
  {
    hide Closing;
    assert s[0..] == s;
    forall i | 0 < i < |s| ensures Closing(s[i..]).None? { assert s[i..] == s[1..][i - 1..]; }
  }

  lemma SplitsCons(s: string, before: string, inner: string, rest: string)
    requires s != "" && Closing(s).None? && Splits(s[1..], before, inner, rest)
    ensures Splits(s, [s[0]] + before, inner, rest)
  {
    hide Closing, Braced;
    assert s[0..] == s;
    assert s == [s[0]] + s[1..];
    ConsAppend(s[0], before, Braced(inner) + rest);
    forall i | 0 < i < |before| + 1 ensures Closing(s[i..]).None? { assert s[i..] == s[1..][i - 1..]; }
  }

  lemma ConsAppend(c: char, a: string, b: string)
    ensures ([c] + a) + b == [c] + (a + b)
  {
  }

  lemma ContinuesCons(results: Results, text: Json -> string, c: char, before: string, filled: string, rest: string, w: string)
    requires Continues(results, text, before, filled, rest, w)
    ensures Continues(results, text, [c] + before, filled, rest, [c] + w)
  {
    hide Substituted;
    ConsAppend(c, before, filled);
    assert ([c] + w)[|before + filled| + 1..] == w[|before + filled|..];
  }

  /** A placeholder in front is filled, and the rest is substituted on its own. */
  lemma SubstitutedHole(results: Results, text: Json -> string, s: string, e: nat, w: string)
    requires Closing(s) == Some(e) && Substituted(results, text, s[e + 2..], w)
    ensures Substituted(results, text, s, Filled(results, text, s[2..e]) + w)
  {
    hide Filled, Closing, Splits, Continues;
    HoleSplits(s, e);
    ContinuesHere(results, text, Filled(results, text, s[2..e]), s[e + 2..], w);
  }

  lemma HoleSplits(s: string, e: nat)
    requires Closing(s) == Some(e)
    ensures Splits(s, "", s[2..e], s[e + 2..])
  {
    Reassemble(s, e);
    hide Closing, Braced;
    var t := Braced(s[2..e]) + s[e + 2..];
    assert "" + t == t;
  }

  lemma ContinuesHere(results: Results, text: Json -> string, filled: string, rest: string, w: string)
    requires Substituted(results, text, rest, w)
    ensures Continues(results, text, "", filled, rest, filled + w)
  {
    hide Substituted;
    assert "" + filled == filled && (filled + w)[|filled|..] == w;
  }

  lemma RenderHole(results: Results, text: Json -> string, s: string, e: nat)
    requires Closing(s) == Some(e)
    ensures Render(results, text, Scan(s)) == Filled(results, text, s[2..e]) + Render(results, text, Scan(s[e + 2..]))
  {
    assert ([Hole(s[2..e])] + Scan(s[e + 2..]))[1..] == Scan(s[e + 2..]);
  }

  lemma RenderLit(results: Results, text: Json -> string, s: string)
    requires s != "" && Closing(s).None?
    ensures Render(results, text, Scan(s)) == [s[0]] + Render(results, text, Scan(s[1..]))
  {
    assert ([Lit(s[0])] + Scan(s[1..]))[1..] == Scan(s[1..]);
  }

  /** Rendering what the scan finds is that substitution. */
  lemma {:induction false} RenderSubstitutes(results: Results, text: Json -> string, s: string)
    ensures Substituted(results, text, s, Render(results, text, Scan(s)))
    decreases |s|
  {
    hide Substituted, Filled, Close;
    if s == "" {
      EmptySubstituted(results, text);
    } else if Closing(s).Some? {
      var e := Closing(s).value;
      RenderSubstitutes(results, text, s[e + 2..]);
      SubstitutedHole(results, text, s, e, Render(results, text, Scan(s[e + 2..])));
      RenderHole(results, text, s, e);
    } else {
      RenderSubstitutes(results, text, s[1..]);
      SubstitutedCons(results, text, s, Render(results, text, Scan(s[1..])));
      RenderLit(results, text, s);
    }
  }

  lemma EmptySubstituted(results: Results, text: Json -> string)
    ensures Substituted(results, text, "", "")
  {
    assert NoPlaceholder("");
  }

  /** Two opening braces stand at `i`. */
  predicate OpensAt(s: string, i: nat) {
    i + 1 < |s| && s[i] == s[i + 1] == '{'
  }

  /** The text of one placeholder: on one line, and closed by no earlier pair of braces. */
  ghost predicate IsInner(inner: string) {
    inner != "" && OneLine(inner) &&
    forall j :: 1 <= j < |inner| ==> !((inner + "}")[j] == '}' && (inner + "}")[j + 1] == '}')
  }

  lemma ClosingOfInner(inner: string, post: string)
    requires IsInner(inner)
    ensures Closing(Braced(inner) + post) == Some(2 + |inner|)
  {
    var s, e := Braced(inner) + post, 2 + |inner|;
    assert forall k :: 2 <= k < e ==> s[k] == inner[k - 2];
    assert forall k :: 2 <= k < e + 1 ==> s[k] == (inner + "}")[k - 2];
    assert s[e] == s[e + 1] == '}';
    CloseFinds(s, 3, e);
  }

  /** A placeholder in a text, wherever it stands: the text before it is kept, the value is put in
      as it is, whatever braces it contains, and the text after it is resolved on its own. */
  lemma {:induction false} Embedded(results: Results, text: Json -> string, pre: string, inner: string, post: string)
    requires IsInner(inner) && forall i :: 0 <= i < |pre| ==> !OpensAt(pre + "{{", i)
    ensures
      Render(results, text, Scan(pre + Braced(inner) + post)) ==
        pre + Filled(results, text, inner) + Render(results, text, Scan(post))
    decreases |pre|
  {
    hide Closing, Filled, OpensAt, IsInner, Scan, Render;
    var s := pre + Braced(inner) + post;
    if pre == "" {
      assert s == Braced(inner) + post;
      ClosingOfInner(inner, post);
      var e := 2 + |inner|;
      assert s[2..e] == inner && s[e + 2..] == post;
      RenderHole(results, text, s, e);
    } else {
      NotOpening(pre, inner, post);
      var tail := pre[1..];
      assert s[1..] == tail + Braced(inner) + post;
      forall i | 0 <= i < |tail| ensures !OpensAt(tail + "{{", i) { OpensLater(pre, i); }
      Embedded(results, text, tail, inner, post);
      RenderLit(results, text, s);
      Grouped(s[0], pre, Filled(results, text, inner), Render(results, text, Scan(post)));
    }
  }

  lemma Grouped(c: char, pre: string, a: string, b: string)
    requires pre != "" && pre[0] == c
    ensures [c] + (pre[1..] + a + b) == pre + a + b
  {
  }

  lemma NotOpening(pre: string, inner: string, post: string)
    requires pre != "" && !OpensAt(pre + "{{", 0)
    ensures Closing(pre + Braced(inner) + post).None?
  {
    var s := pre + Braced(inner) + post;
    assert s[0] == (pre + "{{")[0] && s[1] == (pre + "{{")[1];
  }

  lemma OpensLater(pre: string, i: nat)
    requires pre != "" && i < |pre| - 1 && !OpensAt(pre + "{{", i + 1)
    ensures !OpensAt(pre[1..] + "{{", i)
  {
    assert pre[1..] + "{{" == (pre + "{{")[1..];
  }

  /** A text in which nothing opens is kept. */
  lemma {:induction false} PlainText(results: Results, text: Json -> string, s: string)
    requires forall i :: 0 <= i < |s| ==> !OpensAt(s, i)
    ensures Render(results, text, Scan(s)) == s
    decreases |s|
  {
    if s == "" {
    } else {
      assert !OpensAt(s, 0);
      forall i | 0 <= i < |s| - 1 ensures !OpensAt(s[1..], i) { assert !OpensAt(s, i + 1); }
      PlainText(results, text, s[1..]);
      RenderLit(results, text, s);
    }
  }

  /** One placeholder between plain texts. */
  lemma OneEmbedded(results: Results, text: Json -> string, pre: string, inner: string, post: string)
    requires IsInner(inner) && forall i :: 0 <= i < |pre| ==> !OpensAt(pre + "{{", i)
    requires forall i :: 0 <= i < |post| ==> !OpensAt(post, i)
    requires Whole(pre + Braced(inner) + post).None?
    ensures Resolve(results, text, Str(pre + Braced(inner) + post)) == Str(pre + Filled(results, text, inner) + post)
  {
    Embedded(results, text, pre, inner, post);
    PlainText(results, text, post);
  }

  /** `w` is `v` with some of its strings replaced: keys, array lengths and every leaf that is not
      a string are as before; a string that is one whole placeholder became exactly the value it
      names, unscanned, or stayed; any other string had its placeholders filled from the left. */
  ghost predicate Reshaped(results: Results, text: Json -> string, v: Json, w: Json)
    decreases v
  {
    match v
    case Str(s) =>
      (Whole(s).Some? ==> w == (if Value(results, Whole(s).value).Some? then Value(results, Whole(s).value).value else v)) &&
      (Whole(s).None? ==> w.Str? && Substituted(results, text, s, w.s))
    case Arr(items) => w.Arr? && |w.items| == |items| && forall i :: 0 <= i < |items| ==> Reshaped(results, text, items[i], w.items[i])
    case Obj(fields) => w.Obj? && w.fields.Keys == fields.Keys && forall k <- fields :: Reshaped(results, text, fields[k], w.fields[k])
    case _ => w == v
  }

  lemma {:induction false} ResolveReshapes(results: Results, text: Json -> string, v: Json)
    ensures Reshaped(results, text, v, Resolve(results, text, v))
    decreases v
  {
    match v
    case Str(s) => RenderSubstitutes(results, text, s);
    case Arr(items) =>
      forall i | 0 <= i < |items| ensures Reshaped(results, text, items[i], Resolve(results, text, items[i])) {
        ResolveReshapes(results, text, items[i]);
      }
    case Obj(fields) =>
      forall k | k in fields ensures Reshaped(results, text, fields[k], Resolve(results, text, fields[k])) {
        ResolveReshapes(results, text, fields[k]);
      }
    case _ =>
  }

  /** The steps a value's placeholders name. */
  function Names(v: Json): set<string> {
    match v
    case Str(s) =>
      (match Whole(s)
       case Some(inner) => {NamedStep(inner)}
       case None => set i | 0 <= i < |Scan(s)| && Scan(s)[i].Hole? :: NamedStep(Scan(s)[i].inner))
    case Arr(items) => set i, r | 0 <= i < |items| && r in Names(items[i]) :: r
    case Obj(fields) => set k, r | k in fields && r in Names(fields[k]) :: r
    case _ => {}
  }

  lemma {:induction false} RenderLocal(a: Results, b: Results, text: Json -> string, ps: seq<Piece>)
    requires forall i :: 0 <= i < |ps| && ps[i].Hole? ==> a(NamedStep(ps[i].inner)) == b(NamedStep(ps[i].inner))
    ensures Render(a, text, ps) == Render(b, text, ps)
  {
    if ps == [] {
    } else {
      RenderLocal(a, b, text, ps[1..]);
    }
  }

  /** Resolution depends only on the results of the steps that are named. */
  lemma {:induction false} ResolveLocal(a: Results, b: Results, text: Json -> string, v: Json)
    requires forall id <- Names(v) :: a(id) == b(id)
    ensures Resolve(a, text, v) == Resolve(b, text, v)
    decreases v
  {
    match v
    case Str(s) =>
      if Whole(s).None? {
        assert forall i :: 0 <= i < |Scan(s)| && Scan(s)[i].Hole? ==> NamedStep(Scan(s)[i].inner) in Names(v);
        RenderLocal(a, b, text, Scan(s));
      } else {
        assert NamedStep(Whole(s).value) in Names(v);
      }
    case Arr(items) =>
      forall i | 0 <= i < |items| ensures Resolve(a, text, items[i]) == Resolve(b, text, items[i]) {
        assert forall r <- Names(items[i]) :: r in Names(v);
        ResolveLocal(a, b, text, items[i]);
      }
    case Obj(fields) =>
      forall k | k in fields ensures Resolve(a, text, fields[k]) == Resolve(b, text, fields[k]) {
        assert forall r <- Names(fields[k]) :: r in Names(v);
        ResolveLocal(a, b, text, fields[k]);
      }
    case _ =>
  }

  // ---- What a placeholder asks for ---------------------------------------------------------------

  /** A key of letters, digits and underscores. */
  predicate IsKey(key: string) {
    key != "" && forall c <- key :: 'a' <= c <= 'z' || 'A' <= c <= 'Z' || '0' <= c <= '9' || c == '_'
  }

  lemma {:induction false} WordRunOf(w: string, rest: string)
    requires (w == "" || IsKey(w)) && (rest == "" || rest[0] == ']')
    ensures WordRun(w + rest) == |w|
  {
    if w == "" {
      assert w + rest == rest;
    } else {
      assert (w + rest)[1..] == w[1..] + rest;
      assert w[0] in w && forall c <- w[1..] :: c in w;
      WordRunOf(w[1..], rest);
    }
  }

  lemma {:induction false} UnbracketNothing(s: string)
    requires '[' !in s
    ensures Unbracket(s) == s
    decreases |s|
  {
    if s == "" {
    } else {
      UnbracketNothing(s[1..]);
    }
  }

  /** An index in brackets is one more key; the text before it is kept, the text after it treated alike. */
  lemma {:induction false} UnbracketMeans(pre: string, w: string, post: string)
    requires '[' !in pre && IsKey(w)
    ensures Unbracket(pre + ("[" + (w + ("]" + post)))) == pre + ("." + (w + Unbracket(post)))
    decreases |pre|
  {
    hide Unbracket;
    if pre == "" {
      UnbracketHere(w, post);
      assert pre + ("[" + (w + ("]" + post))) == "[" + (w + ("]" + post));
      assert pre + ("." + (w + Unbracket(post))) == "." + (w + Unbracket(post));
    } else {
      UnbracketMeans(pre[1..], w, post);
      UnbracketLater(pre[0], pre[1..], "[" + (w + ("]" + post)), "." + (w + Unbracket(post)));
      assert pre == [pre[0]] + pre[1..];
    }
  }

  lemma UnbracketHere(w: string, post: string)
    requires IsKey(w)
    ensures Unbracket("[" + (w + ("]" + post))) == "." + (w + Unbracket(post))
  {
    var s := "[" + (w + ("]" + post));
    assert s[1..] == w + ("]" + post);
    WordRunOf(w, "]" + post);
    hide WordRun;
    assert s[|w| + 1] == ']' && s[1..|w| + 1] == w && s[|w| + 2..] == post;
    assert "." + w + Unbracket(post) == "." + (w + Unbracket(post));
  }

  lemma UnbracketLater(c: char, pre: string, rest: string, done: string)
    requires c != '[' && Unbracket(pre + rest) == pre + done
    ensures Unbracket(([c] + pre) + rest) == ([c] + pre) + done
  {
    var s := ([c] + pre) + rest;
    assert s[0] == c && s[1..] == pre + rest;
    assert [c] + (pre + done) == ([c] + pre) + done;
  }

  lemma {:induction false} JoinedKeys(keys: seq<string>)
    requires keys != [] && forall k <- keys :: IsKey(k)
    ensures Join(keys, '.') != "" && Join(keys, '.')[0] != '.' && '[' !in Join(keys, '.')
    ensures forall k <- keys :: '.' !in k
  {
    assert IsKey(keys[0]) && keys[0][0] in keys[0] && '.' !in keys[0] && '[' !in keys[0] by { NoMarks(keys[0]); }
    if |keys| == 1 {
    } else {
      JoinedKeys(keys[1..]);
      var rest := Join(keys[1..], '.');
      assert Join(keys, '.') == keys[0] + ['.'] + rest;
      assert forall k <- keys :: k == keys[0] || k in keys[1..];
    }
  }

  lemma NoMarks(key: string)
    requires IsKey(key)
    ensures '.' !in key && '[' !in key && key[0] in key
  {
  }

  lemma PathOfKeys(keys: seq<string>)
    requires keys != [] && forall k <- keys :: IsKey(k)
    ensures PathKeys(Join(keys, '.')) == keys
  {
    JoinedKeys(keys);
    UnbracketNothing(Join(keys, '.'));
    SplitJoin(keys, '.');
  }

  /** A leading index needs no key before it: `[0].id` has the keys `0` and `id`. */
  lemma LeadingIndex(w: string, key: string)
    requires IsKey(w) && IsKey(key)
    ensures PathKeys("[" + (w + ("]" + ("." + key)))) == [w, key]
  {
    NoMarks(w);
    NoMarks(key);
    UnbracketHere(w, "." + key);
    UnbracketNothing("." + key);
    SplitFirst(w, '.', key);
    SplitWhole(key, '.');
    hide Unbracket, Split, IsKey;
    assert ("." + (w + ("." + key)))[1..] == w + ['.'] + key;
  }

  /** What a placeholder asks for: the step before the first dot, and in the data of its result what
      stands under the keys after it; one `result` between them is passed over. */
  lemma PlaceholderMeans(results: Results, a: string, prefixed: bool, keys: seq<string>, v: Json)
    requires '.' !in a && keys != [] && forall k <- keys :: IsKey(k)
    requires !prefixed ==> keys[0] != "result"
    ensures
      var inner := a + (if prefixed then ".result." else ".") + Join(keys, '.');
      Value(results, inner) == Some(v) <==> results(a).Some? && results(a).value.Some? && IsAt(results(a).value.value, keys, v)
  {
    var path := Join(keys, '.');
    var inner := a + (if prefixed then ".result." else ".") + path;
    JoinedKeys(keys);
    SplitJoin(keys, '.');
    if prefixed {
      assert inner == a + ['.'] + ("result" + ['.'] + path);
      SplitFirst("result", '.', path);
      SplitFirst(a, '.', "result" + ['.'] + path);
      assert Split(inner, '.')[1..] == ["result"] + keys && (["result"] + keys)[1..] == keys;
    } else {
      assert inner == a + ['.'] + path;
      SplitFirst(a, '.', path);
      assert Split(inner, '.')[1..] == keys;
    }
    assert NamedStep(inner) == a && NamedPath(inner) == path;
    PathOfKeys(keys);
    if results(a).Some? {
      match results(a).value
      case Some(data) => WalkMeans(data, keys, v);
      case None => WalkFromNowhere(keys);
    }
  }

  /** What a placeholder inside a text becomes: the text of what it asks for, or itself if that is not
      there. */
  lemma FilledMeans(results: Results, text: Json -> string, a: string, prefixed: bool, keys: seq<string>, v: Json)
    requires '.' !in a && keys != [] && forall k <- keys :: IsKey(k)
    requires !prefixed ==> keys[0] != "result"
    ensures
      var inner := a + (if prefixed then ".result." else ".") + Join(keys, '.');
      (results(a).Some? && results(a).value.Some? && IsAt(results(a).value.value, keys, v) ==> Filled(results, text, inner) == text(v)) &&
      ((results(a).None? || results(a).value.None? || forall x :: !IsAt(results(a).value.value, keys, x)) ==>
         Filled(results, text, inner) == "{{" + inner + "}}")
  {
    var inner := a + (if prefixed then ".result." else ".") + Join(keys, '.');
    PlaceholderMeans(results, a, prefixed, keys, v);
    if Value(results, inner).Some? { PlaceholderMeans(results, a, prefixed, keys, Value(results, inner).value); }
  }

  /** The flag is true for an array or object exactly if it is for something in it, and never for other
      values than strings. */
  lemma FlagInside(results: Results, items: seq<Json>, fields: Fields)
    ensures Resolved(results, Arr(items)) <==> exists x <- items :: Resolved(results, x)
    ensures Resolved(results, Obj(fields)) <==> exists k <- fields :: Resolved(results, fields[k])
    ensures !Resolved(results, Null) && forall b :: !Resolved(results, Bool(b))
  {
    if exists x <- items :: Resolved(results, x) {
      var x :| x in items && Resolved(results, x);
      var i :| 0 <= i < |items| && items[i] == x;
    }
    if Resolved(results, Arr(items)) {
      var i :| 0 <= i < |items| && Resolved(results, items[i]);
      assert items[i] in items;
    }
  }

  /** For a string it is true exactly if a placeholder in it has a value: the one it is, or one inside. */
  lemma FlagOfString(results: Results, s: string)
    ensures Whole(s).Some? ==> (Resolved(results, Str(s)) <==> Value(results, Whole(s).value).Some?)
    ensures Whole(s).None? ==> (Resolved(results, Str(s)) <==> exists inner :: Hole(inner) in Scan(s) && Value(results, inner).Some?)
  {
    hide Whole, Value, Scan;
    var ps := Scan(s);
    if AnyValue(results, ps) {
      var i :| 0 <= i < |ps| && ps[i].Hole? && Value(results, ps[i].inner).Some?;
      assert Hole(ps[i].inner) in ps;
    }
    if exists inner :: Hole(inner) in ps && Value(results, inner).Some? {
      var inner :| Hole(inner) in ps && Value(results, inner).Some?;
      var i :| 0 <= i < |ps| && ps[i] == Hole(inner);
    }
  }

  /** A string is one whole placeholder exactly if it is one line of text between double braces. */
  lemma WholeMeans(s: string, inner: string)
    ensures Whole(s) == Some(inner) <==>
              s == "{{" + inner + "}}" && inner != "" &&
              forall c <- inner :: c != '\n' && c != '\r' && c != '\U{2028}' && c != '\U{2029}'
  {
    if s == "{{" + inner + "}}" {
      assert s[2..|s| - 2] == inner;
      assert forall i :: 0 <= i < |inner| ==> inner[i] in inner;
    }
    if Whole(s) == Some(inner) {
      assert s[..2] == "{{" && s[|s| - 2..] == "}}";
      assert s == s[..2] + s[2..|s| - 2] + s[|s| - 2..];
    }
  }

  /** The anchored pattern takes two placeholders with text between them for one, which names no
      step that exists under either name. */
  lemma TwoPlaceholdersTakenForOne()
    ensures Whole("{{a}} x {{b}}") == Some("a}} x {{b")
    ensures NamedStep("a}} x {{b") == "a}} x {{b"
  {
    hide Split;
    var s, inner := "{{a}} x {{b}}", "a}} x {{b";
    assert s[2..|s| - 2] == inner;
    assert OneLine(inner);
    SplitWhole(inner, '.');
  }

  /** Exactly when the two readings agree: a string taken for one placeholder is one placeholder to
      the scan if and only if no two braces close it earlier. */
  lemma WholeIsOneExactly(s: string)
    requires Whole(s).Some?
    ensures Scan(s) == [Hole(Whole(s).value)] <==> forall j :: 3 <= j < |s| - 2 ==> !(s[j] == '}' && s[j + 1] == '}')
  {
    var end := |s| - 2;
    if forall j :: 3 <= j < end ==> !(s[j] == '}' && s[j + 1] == '}') {
      assert forall k :: 2 <= k < end ==> s[k] == s[2..end][k - 2];
      CloseFinds(s, 3, end);
      assert s[end + 2..] == "" && Scan("") == [];
      assert Scan(s) == [Hole(s[2..end])] + Scan(s[end + 2..]);
    }
    if Scan(s) == [Hole(Whole(s).value)] {
      assert Scan(s)[0].Hole?;
      var e := Closing(s).value;
      assert Scan(s)[0] == Hole(s[2..e]);
      assert |s[2..e]| == |s[2..end]|;
    }
  }

  lemma {:induction false} CloseFinds(s: string, j: nat, e: nat)
    requires 3 <= j <= e && e + 2 <= |s| && s[e] == s[e + 1] == '}'
    requires forall k :: j <= k < e ==> !(s[k] == '}' && s[k + 1] == '}')
    requires forall k :: j - 1 <= k < e ==> !LineEnd(s[k])
    ensures Close(s, j) == Some(e)
    decreases e - j
  {
    if j == e {
    } else {
      CloseFinds(s, j + 1, e);
    }
  }

  /** A placeholder that names only a step, with or without `.result`, asks for the empty key: it
      has a value only if the data is an object with that key. */
  lemma BareStepAsksForEmptyKey(results: Results, id: string, suffixed: bool)
    requires '.' !in id
    ensures
      var inner := if suffixed then id + ".result" else id;
      NamedStep(inner) == id &&
      Value(results, inner) == if results(id).Some? && results(id).value.Some? then Property(results(id).value.value, "") else None
  {
    var inner := if suffixed then id + ".result" else id;
    if suffixed {
      assert inner == id + "." + "result";
      SplitFirst(id, '.', "result");
      SplitWhole("result", '.');
      assert Split(inner, '.')[1..] == ["result"];
      assert ["result"][1..] == [];
    } else {
      SplitWhole(id, '.');
      assert Split(inner, '.')[1..] == [];
    }
    assert NamedPath(inner) == "";
    assert PathKeys("") == [""] && [""][1..] == [];
  }
}
