/** `{{path}}` templates of automation actions (src/cortex/runtime.ts, resolveArgs). */
module Template {
  import opened Wrappers
  import opened Json

  /** A template string read left to right: literal characters and holes. */
  datatype Piece = Lit(c: char) | Hole(path: string)

  /** The class `[\w.]`. */
  predicate PathChar(c: char) {
    'a' <= c <= 'z' || 'A' <= c <= 'Z' || '0' <= c <= '9' || c == '_' || c == '.'
  }

  /** Length of the longest prefix made of path characters. */
  function PathRun(s: string): (n: nat)
    ensures n <= |s|
  {
    if s != "" && PathChar(s[0]) then 1 + PathRun(s[1..]) else 0
  }

  /** True if the pattern `\{\{([\w.]+)\}\}` matches at the start of `s`. */
  predicate HoleAt(s: string) {
    |s| >= 5 && s[0] == s[1] == '{' &&
    var n := PathRun(s[2..]);
    n >= 1 && 2 + n + 2 <= |s| && s[2 + n] == s[3 + n] == '}'
  }

  /** Global, leftmost matching: what `replace` visits. */
  function Scan(s: string): seq<Piece>
    decreases |s|
  {
    if s == "" then []
    else if HoleAt(s) then
      var n := PathRun(s[2..]);
      [Hole(s[2..2 + n])] + Scan(s[n + 4..])
    else [Lit(s[0])] + Scan(s[1..])
  }

  /** The text of a value put into a hole; an absent value is empty text. */
  function Shown(stringify: Json -> string, v: Option<Json>): string {
    match v
    case None => ""
    case Some(Str(s)) => s
    case Some(j) => stringify(j)
  }

  function Lookup(ctx: Fields, path: string): Option<Json> {
    Walk(Some(Obj(ctx)), Split(path, '.'))
  }

  function Render(stringify: Json -> string, ps: seq<Piece>, ctx: Fields): string {
    if ps == [] then ""
    else (match ps[0]
          case Lit(c) => [c]
          case Hole(path) => Shown(stringify, Lookup(ctx, path)))
         + Render(stringify, ps[1..], ctx)
  }

  /** resolveArgs: strings are rendered, containers are rebuilt, other values are kept. */
  function Resolve(stringify: Json -> string, v: Json, ctx: Fields): Json {
    match v
    case Str(s) => Str(Render(stringify, Scan(s), ctx))
    case Arr(items) => Arr(seq(|items|, i requires 0 <= i < |items| => Resolve(stringify, items[i], ctx)))
    case Obj(fields) => Obj(map k | k in fields :: Resolve(stringify, fields[k], ctx))
    case _ => v
  }

  /** The context names a template reads: the first key of every hole. */
  function PieceRoots(ps: seq<Piece>): set<string> {
    if ps == [] then {}
    else (if ps[0].Hole? then {Split(ps[0].path, '.')[0]} else {}) + PieceRoots(ps[1..])
  }

  function Roots(v: Json): set<string> {
    match v
    case Str(s) => PieceRoots(Scan(s))
    case Arr(items) => set i, r | 0 <= i < |items| && r in Roots(items[i]) :: r
    case Obj(fields) => set k, r | k in fields && r in Roots(fields[k]) :: r
    case _ => {}
  }

  /** Two contexts that hold the same thing, or nothing, under every name of `names`. */
  ghost predicate AgreeOn(names: set<string>, a: Fields, b: Fields) {
    forall x <- names :: (x in a <==> x in b) && (x in a ==> a[x] == b[x])
  }

  lemma LookupLocal(path: string, a: Fields, b: Fields)
    requires AgreeOn({Split(path, '.')[0]}, a, b)
    ensures Lookup(a, path) == Lookup(b, path)
  {
    var root := Split(path, '.')[0];
    assert root in {root};
    assert Property(Obj(a), root) == Property(Obj(b), root);
  }

  lemma {:induction false} RenderLocal(stringify: Json -> string, ps: seq<Piece>, a: Fields, b: Fields)
    requires AgreeOn(PieceRoots(ps), a, b)
    ensures Render(stringify, ps, a) == Render(stringify, ps, b)
  {
    if ps == [] {
    } else {
      RenderLocal(stringify, ps[1..], a, b);
      if ps[0].Hole? { LookupLocal(ps[0].path, a, b); }
    }
  }

  /** Resolving arguments depends only on the context names they mention. */
  lemma {:induction false} ResolveLocal(stringify: Json -> string, v: Json, a: Fields, b: Fields)
    requires AgreeOn(Roots(v), a, b)
    ensures Resolve(stringify, v, a) == Resolve(stringify, v, b)
    decreases v
  {
    match v
    case Str(s) => RenderLocal(stringify, Scan(s), a, b);
    case Arr(items) =>
      forall i | 0 <= i < |items| ensures Resolve(stringify, items[i], a) == Resolve(stringify, items[i], b) {
        assert forall r <- Roots(items[i]) :: r in Roots(v);
        ResolveLocal(stringify, items[i], a, b);
      }
    case Obj(fields) =>
      forall k | k in fields ensures Resolve(stringify, fields[k], a) == Resolve(stringify, fields[k], b) {
        assert forall r <- Roots(fields[k]) :: r in Roots(v);
        ResolveLocal(stringify, fields[k], a, b);
      }
    case _ =>
  }

  /** The text `Scan` read. */
  function Source(ps: seq<Piece>): string {
    if ps == [] then ""
    else (match ps[0] case Lit(c) => [c] case Hole(path) => "{{" + path + "}}") + Source(ps[1..])
  }

  lemma TakeHole(s: string, n: nat)
    requires n + 4 <= |s| && s[0] == s[1] == '{' && s[2 + n] == s[3 + n] == '}'
    ensures s == ("{{" + s[2..2 + n] + "}}") + s[n + 4..]
  {
    assert s[..2] == "{{" && s[2 + n..4 + n] == "}}";
    assert s == s[..2] + s[2..2 + n] + s[2 + n..4 + n] + s[n + 4..];
  }

  lemma SourceOfHole(s: string, n: nat, rest: seq<Piece>)
    requires n + 4 <= |s| && s[0] == s[1] == '{' && s[2 + n] == s[3 + n] == '}' && Source(rest) == s[n + 4..]
    ensures Source([Hole(s[2..2 + n])] + rest) == s
  {
    assert ([Hole(s[2..2 + n])] + rest)[1..] == rest;
    TakeHole(s, n);
  }

  lemma SourceOfLit(s: string, rest: seq<Piece>)
    requires s != "" && Source(rest) == s[1..]
    ensures Source([Lit(s[0])] + rest) == s
  {
    assert ([Lit(s[0])] + rest)[1..] == rest;
  }

  /** Scanning loses no character, so text outside the holes is copied as it stands. */
  lemma {:induction false} ScanKeepsText(s: string)
    ensures Source(Scan(s)) == s
    decreases |s|
  {
    hide PathRun;
    if s == "" {
    } else if HoleAt(s) {
      var n := PathRun(s[2..]);
      ScanKeepsText(s[n + 4..]);
      SourceOfHole(s, n, Scan(s[n + 4..]));
    } else {
      ScanKeepsText(s[1..]);
      SourceOfLit(s, Scan(s[1..]));
    }
  }

  // ---- What resolving means ---------------------------------------------------------------------

  /** Letters, digits, underscores and dots. */
  predicate IsPath(path: string) {
    path != "" &&
    forall c <- path :: 'a' <= c <= 'z' || 'A' <= c <= 'Z' || '0' <= c <= '9' || c == '_' || c == '.'
  }

  /** A hole stands at the start of `s`, with this path and this text after it. */
  ghost predicate StartsWithHole(s: string, path: string, rest: string) {
    IsPath(path) && s == "{{" + path + ("}}" + rest)
  }

  ghost predicate OpensHole(s: string) {
    exists path, rest :: StartsWithHole(s, path, rest)
  }

  /** What is shown for a path: a string that stands there as it is, the JSON text of any other value
      that stands there, and nothing if none does. */
  ghost predicate Shows(stringify: Json -> string, ctx: Fields, path: string, shown: string) {
    (forall x :: IsAt(Obj(ctx), Split(path, '.'), x) ==> shown == (if x.Str? then x.s else stringify(x))) &&
    ((forall x :: !IsAt(Obj(ctx), Split(path, '.'), x)) ==> shown == "")
  }

  /** The first hole of `s` stands between `before` and `rest`. */
  ghost predicate Splits(s: string, before: string, path: string, rest: string) {
    s == before + ("{{" + path + ("}}" + rest)) && IsPath(path) &&
    forall i :: 0 <= i < |before| ==> !OpensHole(s[i..])
  }

  ghost predicate NoHole(s: string) {
    forall i :: 0 <= i < |s| ==> !OpensHole(s[i..])
  }

  /** `w` is `s` with its holes filled one after another from the left: the text around them is kept,
      and what is put in is not looked at again. */
  ghost predicate Substituted(stringify: Json -> string, ctx: Fields, s: string, w: string)
    decreases |s|, 0
  {
    (NoHole(s) && w == s) ||
    exists before, path, rest, shown :: Splits(s, before, path, rest) && Shows(stringify, ctx, path, shown) &&
      Continues(stringify, ctx, before, shown, rest, w)
  }

  /** `w` is the text `before`, then `shown`, then `rest` with its holes filled. */
  ghost predicate Continues(stringify: Json -> string, ctx: Fields, before: string, shown: string, rest: string, w: string)
    decreases |rest|, 1
  {
    before + shown <= w && Substituted(stringify, ctx, rest, w[|before + shown|..])
  }

  lemma {:induction false} PathRunOf(path: string, rest: string)
    requires (path == "" || IsPath(path)) && rest != "" && rest[0] == '}'
    ensures PathRun(path + rest) == |path|
  {
    if path == "" {
      assert path + rest == rest;
    } else {
      assert (path + rest)[1..] == path[1..] + rest;
      assert path[0] in path && forall c <- path[1..] :: c in path;
      PathRunOf(path[1..], rest);
    }
  }

  lemma {:induction false} RunIsPath(s: string)
    ensures forall c <- s[..PathRun(s)] :: PathChar(c)
  {
    if s == "" || !PathChar(s[0]) {
    } else {
      RunIsPath(s[1..]);
      assert s[..PathRun(s)] == [s[0]] + s[1..][..PathRun(s[1..])];
    }
  }

  lemma HoleFound(s: string, path: string, rest: string)
    requires StartsWithHole(s, path, rest)
    ensures HoleAt(s) && s[2..2 + PathRun(s[2..])] == path && s[PathRun(s[2..]) + 4..] == rest
  {
    assert s[2..] == path + ("}}" + rest);
    PathRunOf(path, "}}" + rest);
    hide PathRun;
    assert s[2 + |path|] == s[3 + |path|] == '}';
  }

  lemma FoundHole(s: string)
    requires HoleAt(s)
    ensures
      var n := PathRun(s[2..]);
      StartsWithHole(s, s[2..2 + n], s[n + 4..])
  {
    var n := PathRun(s[2..]);
    RunIsPath(s[2..]);
    hide PathRun;
    assert s[2..2 + n] == s[2..][..n];
    TakeHole(s, n);
    assert s == "{{" + s[2..2 + n] + ("}}" + s[n + 4..]);
  }

  /** The scan sees a hole exactly where one stands. */
  lemma HoleMeans(s: string)
    ensures HoleAt(s) <==> OpensHole(s)
  {
    if HoleAt(s) { FoundHole(s); }
    if OpensHole(s) {
      var path, rest :| StartsWithHole(s, path, rest);
      HoleFound(s, path, rest);
    }
  }

  lemma ShownMeans(stringify: Json -> string, ctx: Fields, path: string)
    ensures Shows(stringify, ctx, path, Shown(stringify, Lookup(ctx, path)))
  {
    forall x ensures Lookup(ctx, path) == Some(x) <==> IsAt(Obj(ctx), Split(path, '.'), x) {
      WalkMeans(Obj(ctx), Split(path, '.'), x);
    }
  }

  lemma ConsAppend(c: char, a: string, b: string)
    ensures ([c] + a) + b == [c] + (a + b)
  {
  }

  lemma SubstitutedCons(stringify: Json -> string, ctx: Fields, s: string, w: string)
    requires s != "" && !OpensHole(s) && Substituted(stringify, ctx, s[1..], w)
    ensures Substituted(stringify, ctx, s, [s[0]] + w)
  {
    hide OpensHole, Shows, Continues, Splits, NoHole;
    var tail := s[1..];
    if NoHole(tail) && w == tail {
      NoHoleCons(s);
      assert [s[0]] + w == s;
    } else {
      var before, path, rest, shown :|
        Splits(tail, before, path, rest) && Shows(stringify, ctx, path, shown) &&
        Continues(stringify, ctx, before, shown, rest, w);
      SplitsCons(s, before, path, rest);
      ContinuesCons(stringify, ctx, s[0], before, shown, rest, w);
      assert Splits(s, [s[0]] + before, path, rest);
    }
  }

  lemma NoHoleCons(s: string)
    requires s != "" && !OpensHole(s) && NoHole(s[1..])
    ensures NoHole(s)
  {
    hide OpensHole;
    assert s[0..] == s;
    forall i | 0 < i < |s| ensures !OpensHole(s[i..]) { assert s[i..] == s[1..][i - 1..]; }
  }

  lemma SplitsCons(s: string, before: string, path: string, rest: string)
    requires s != "" && !OpensHole(s) && Splits(s[1..], before, path, rest)
    ensures Splits(s, [s[0]] + before, path, rest)
  {
    hide OpensHole, IsPath;
    assert s[0..] == s && s == [s[0]] + s[1..];
    ConsAppend(s[0], before, "{{" + path + ("}}" + rest));
    forall i | 0 < i < |before| + 1 ensures !OpensHole(s[i..]) { assert s[i..] == s[1..][i - 1..]; }
  }

  lemma ContinuesCons(stringify: Json -> string, ctx: Fields, c: char, before: string, shown: string, rest: string, w: string)
    requires Continues(stringify, ctx, before, shown, rest, w)
    ensures Continues(stringify, ctx, [c] + before, shown, rest, [c] + w)
  {
    hide Substituted;
    ConsAppend(c, before, shown);
    assert ([c] + w)[|before + shown| + 1..] == w[|before + shown|..];
  }

  lemma SubstitutedHole(stringify: Json -> string, ctx: Fields, s: string, path: string, rest: string, shown: string, w: string)
    requires StartsWithHole(s, path, rest) && Shows(stringify, ctx, path, shown) && Substituted(stringify, ctx, rest, w)
    ensures Substituted(stringify, ctx, s, shown + w)
  {
    hide Shows, Continues, Splits;
    FirstSplits(s, path, rest);
    ContinuesHere(stringify, ctx, shown, rest, w);
    assert Splits(s, "", path, rest);
  }

  lemma FirstSplits(s: string, path: string, rest: string)
    requires StartsWithHole(s, path, rest)
    ensures Splits(s, "", path, rest)
  {
    hide OpensHole, IsPath;
    assert "" + s == s;
  }

  lemma ContinuesHere(stringify: Json -> string, ctx: Fields, shown: string, rest: string, w: string)
    requires Substituted(stringify, ctx, rest, w)
    ensures Continues(stringify, ctx, "", shown, rest, shown + w)
  {
    hide Substituted;
    assert "" + shown == shown && (shown + w)[|shown|..] == w;
  }

  lemma RenderLit(stringify: Json -> string, ctx: Fields, s: string)
    requires s != "" && !HoleAt(s)
    ensures Render(stringify, Scan(s), ctx) == [s[0]] + Render(stringify, Scan(s[1..]), ctx)
  {
    hide HoleAt;
    assert ([Lit(s[0])] + Scan(s[1..]))[1..] == Scan(s[1..]);
  }

  lemma RenderHole(stringify: Json -> string, ctx: Fields, s: string, path: string, rest: string)
    requires StartsWithHole(s, path, rest)
    ensures Render(stringify, Scan(s), ctx) == Shown(stringify, Lookup(ctx, path)) + Render(stringify, Scan(rest), ctx)
  {
    HoleFound(s, path, rest);
    hide HoleAt, PathRun, IsPath;
    assert ([Hole(path)] + Scan(rest))[1..] == Scan(rest);
  }

  /** A rendered string is its text with the holes filled from the left. */
  lemma {:induction false} RenderMeans(stringify: Json -> string, ctx: Fields, s: string)
    ensures Substituted(stringify, ctx, s, Render(stringify, Scan(s), ctx))
    decreases |s|
  {
    hide Substituted, HoleAt, OpensHole, Shows, Shown, Render, Scan;
    HoleMeans(s);
    if s == "" {
      NothingToFill(stringify, ctx);
    } else if HoleAt(s) {
      var path, rest := HoleParts(s);
      RenderMeans(stringify, ctx, rest);
      ShownMeans(stringify, ctx, path);
      RenderHole(stringify, ctx, s, path, rest);
      SubstitutedHole(stringify, ctx, s, path, rest, Shown(stringify, Lookup(ctx, path)), Render(stringify, Scan(rest), ctx));
    } else {
      RenderMeans(stringify, ctx, s[1..]);
      RenderLit(stringify, ctx, s);
      SubstitutedCons(stringify, ctx, s, Render(stringify, Scan(s[1..]), ctx));
    }
  }

  lemma HoleParts(s: string) returns (path: string, rest: string)
    requires HoleAt(s)
    ensures StartsWithHole(s, path, rest) && |rest| < |s|
  {
    FoundHole(s);
    path, rest := s[2..2 + PathRun(s[2..])], s[PathRun(s[2..]) + 4..];
  }

  lemma NothingToFill(stringify: Json -> string, ctx: Fields)
    ensures Substituted(stringify, ctx, "", Render(stringify, Scan(""), ctx))
  {
    assert NoHole("");
  }

  /** `w` is `v` with its holes filled: at any depth keys, lengths and leaves that are not strings are
      kept. */
  ghost predicate Resolves(stringify: Json -> string, ctx: Fields, v: Json, w: Json)
    decreases v
  {
    match v
    case Str(s) => w.Str? && Substituted(stringify, ctx, s, w.s)
    case Arr(items) => w.Arr? && |w.items| == |items| && forall i :: 0 <= i < |items| ==> Resolves(stringify, ctx, items[i], w.items[i])
    case Obj(fields) => w.Obj? && w.fields.Keys == fields.Keys && forall k <- fields :: Resolves(stringify, ctx, fields[k], w.fields[k])
    case _ => w == v
  }

  /** resolveArgs fills the holes of every string and nothing else. */
  lemma {:induction false} ResolveMeans(stringify: Json -> string, v: Json, ctx: Fields)
    ensures Resolves(stringify, ctx, v, Resolve(stringify, v, ctx))
    decreases v
  {
    hide Substituted;
    match v
    case Str(s) => RenderMeans(stringify, ctx, s);
    case Arr(items) =>
      forall i | 0 <= i < |items| ensures Resolves(stringify, ctx, items[i], Resolve(stringify, items[i], ctx)) {
        ResolveMeans(stringify, items[i], ctx);
      }
    case Obj(fields) =>
      forall k | k in fields ensures Resolves(stringify, ctx, fields[k], Resolve(stringify, fields[k], ctx)) {
        ResolveMeans(stringify, fields[k], ctx);
      }
    case _ =>
  }

  predicate OpensAt(s: string, i: nat) {
    i + 1 < |s| && s[i] == s[i + 1] == '{'
  }

  /** A hole in a text, wherever it stands: the text before it is kept, what stands at its path is put
      in, and the text after it is resolved on its own. */
  lemma {:induction false} Embedded(stringify: Json -> string, ctx: Fields, pre: string, path: string, post: string, shown: string)
    requires IsPath(path) && Shows(stringify, ctx, path, shown) && forall i :: 0 <= i < |pre| ==> !OpensAt(pre + "{{", i)
    ensures
      var whole, rest := Resolve(stringify, Str(pre + ("{{" + path + ("}}" + post))), ctx), Resolve(stringify, Str(post), ctx);
      whole.Str? && rest.Str? && whole.s == pre + shown + rest.s
    decreases |pre|
  {
    hide Scan, Render, IsPath, Shown, Lookup, OpensAt, HoleAt;
    var s := pre + ("{{" + path + ("}}" + post));
    if pre == "" {
      assert s == "{{" + path + ("}}" + post);
      RenderHole(stringify, ctx, s, path, post);
      ShownIsUnique(stringify, ctx, path, shown);
    } else {
      var tail := pre[1..];
      NotOpening(pre, path, post);
      assert s[1..] == tail + ("{{" + path + ("}}" + post));
      forall i | 0 <= i < |tail| ensures !OpensAt(tail + "{{", i) { OpensLater(pre, i); }
      Embedded(stringify, ctx, tail, path, post, shown);
      RenderLit(stringify, ctx, s);
      Grouped(s[0], pre, shown, Render(stringify, Scan(post), ctx));
    }
  }

  lemma ShownIsUnique(stringify: Json -> string, ctx: Fields, path: string, shown: string)
    requires Shows(stringify, ctx, path, shown)
    ensures shown == Shown(stringify, Lookup(ctx, path))
  {
    ShownMeans(stringify, ctx, path);
    if exists x :: IsAt(Obj(ctx), Split(path, '.'), x) {
      var x :| IsAt(Obj(ctx), Split(path, '.'), x);
    }
  }

  lemma NotOpening(pre: string, path: string, post: string)
    requires pre != "" && !OpensAt(pre + "{{", 0)
    ensures !HoleAt(pre + ("{{" + path + ("}}" + post)))
  {
    var s := pre + ("{{" + path + ("}}" + post));
    assert s[0] == (pre + "{{")[0] && s[1] == (pre + "{{")[1];
  }

  lemma OpensLater(pre: string, i: nat)
    requires pre != "" && i < |pre| - 1 && !OpensAt(pre + "{{", i + 1)
    ensures !OpensAt(pre[1..] + "{{", i)
  {
    assert pre[1..] + "{{" == (pre + "{{")[1..];
  }

  lemma Grouped(c: char, pre: string, a: string, b: string)
    requires pre != "" && pre[0] == c
    ensures [c] + (pre[1..] + a + b) == pre + a + b
  {
  }

  /** A text in which nothing opens is kept. */
  lemma {:induction false} PlainText(stringify: Json -> string, ctx: Fields, s: string)
    requires forall i :: 0 <= i < |s| ==> !OpensAt(s, i)
    ensures Resolve(stringify, Str(s), ctx) == Str(s)
    decreases |s|
  {
    if s == "" {
    } else {
      assert !OpensAt(s, 0);
      forall i | 0 <= i < |s| - 1 ensures !OpensAt(s[1..], i) { assert !OpensAt(s, i + 1); }
      PlainText(stringify, ctx, s[1..]);
      RenderLit(stringify, ctx, s);
    }
  }
}
