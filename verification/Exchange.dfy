/** Which neighbouring actions of an automation may be exchanged. */
module Exchange {
  import opened Wrappers
  import opened Json
  import opened Automation
  import T = Template

  /** The context name an action writes. */
  function Writes(work: Work): set<string> {
    var name := StoreAs(work);
    if name.Some? && name.value != "" then {name.value} else {}
  }

  /** The context names an action's templates read. */
  function Reads(work: Work): set<string> {
    match work
    case Llm(_, input, _) => T.Roots(input)
    case Tool(_, args, _) => T.Roots(args)
    case Other(_, _) => {}
  }

  ghost predicate Independent(a: Work, b: Work) {
    Writes(a) !! Writes(b) && Writes(a) !! Reads(b) && Writes(b) !! Reads(a)
  }

  /** A world whose replies do not depend on what was asked before. */
  ghost predicate Forgetful(w: World) {
    forall h, h', call :: w.reply(h, call) == w.reply(h', call)
  }

  /** The request of an action depends only on the names it reads. */
  lemma RequestLocal(w: World, work: Work, userId: string, a: Fields, b: Fields)
    requires T.AgreeOn(Reads(work), a, b)
    ensures Request(w, work, userId, a) == Request(w, work, userId, b)
  {
    match work
    case Llm(_, input, _) => T.ResolveLocal(w.stringify, input, a, b);
    case Tool(_, args, _) => T.ResolveLocal(w.stringify, args, a, b);
    case Other(_, _) =>
  }

  /** What one action adds to what was heard, and its answer, whatever was heard before. */
  lemma OwnCall(w: World, work: Work, userId: string, ctx: Fields, h: seq<Call>, h': seq<Call>) returns (mine: seq<Call>)
    requires Forgetful(w)
    ensures Heard(w, work, userId, ctx, h) == h + mine && Heard(w, work, userId, ctx, h') == h' + mine
    ensures Answer(w, work, userId, ctx, h) == Answer(w, work, userId, ctx, h')
  {
    var call := Request(w, work, userId, ctx);
    mine := if call.Some? then [call.value] else [];
  }

  lemma Regroup<A>(a: seq<A>, b: seq<A>, c: seq<A>)
    ensures (a + b) + c == a + (b + c)
  {
  }

  /** In a forgetful world the calls made before do not change what a list of actions does; the
      new calls are the same and come after them. */
  lemma {:induction false} HistoryIrrelevant(w: World, userId: string, works: seq<Work>, ctx: Fields,
                                            h: seq<Call>, h': seq<Call>) returns (new_: seq<Call>)
    requires Forgetful(w)
    ensures
      var f, f' := Straight(w, userId, works, ctx, h), Straight(w, userId, works, ctx, h');
      f.done == f'.done && f.error == f'.error && f.ctx == f'.ctx &&
      f.heard == h + new_ && f'.heard == h' + new_
  {
    if works == [] {
      new_ := [];
    } else {
      hide Answer, Heard, Stored;
      var mine := OwnCall(w, works[0], userId, ctx, h, h');
      match Answer(w, works[0], userId, ctx, h)
      case Raised(_, _) => new_ := mine;
      case Returned(v, _) =>
        var rest := HistoryIrrelevant(w, userId, works[1..], Stored(works[0], ctx, v), h + mine, h' + mine);
        new_ := mine + rest;
        Regroup(h, mine, rest);
        Regroup(h', mine, rest);
    }
  }

  /** A list of one action. */
  lemma StraightOne(w: World, userId: string, a: Work, ctx: Fields, h: seq<Call>)
    ensures
      Straight(w, userId, [a], ctx, h) ==
        match Answer(w, a, userId, ctx, h)
        case Raised(e, _) => Final(0, Some(e), ctx, Heard(w, a, userId, ctx, h))
        case Returned(v, _) => Final(1, None, Stored(a, ctx, v), Heard(w, a, userId, ctx, h))
  {
    assert [a][1..] == [];
    assert forall c, g :: Straight(w, userId, [], c, g) == Final(0, None, c, g);
  }

  /** Independent actions write different names, so the order of the writes does not matter. */
  lemma StoredCommutes(a: Work, b: Work, ctx: Fields, va: Option<Json>, vb: Option<Json>)
    requires Writes(a) !! Writes(b)
    ensures Stored(b, Stored(a, ctx, va), vb) == Stored(a, Stored(b, ctx, vb), va)
  {
    var na, nb := StoreAs(a), StoreAs(b);
    if na.Some? && nb.Some? && na.value != "" && nb.value != "" {
      assert na.value in Writes(a) && nb.value in Writes(b);
    }
  }

  /** An action answers the same after an action that writes none of the names it reads. */
  lemma AnswerUnaffected(w: World, userId: string, a: Work, b: Work, ctx: Fields, va: Option<Json>,
                         h: seq<Call>, h': seq<Call>)
    requires Forgetful(w) && Writes(a) !! Reads(b)
    ensures Answer(w, b, userId, Stored(a, ctx, va), h) == Answer(w, b, userId, ctx, h')
    ensures Request(w, b, userId, Stored(a, ctx, va)) == Request(w, b, userId, ctx)
  {
    RequestLocal(w, b, userId, ctx, Stored(a, ctx, va));
  }

  /** Two neighbours that do not fail and do not touch each other's names: either order stores the
      same context and makes the same two calls. */
  lemma PairCommutes(w: World, userId: string, a: Work, b: Work, ctx: Fields, h: seq<Call>)
    requires Forgetful(w) && Independent(a, b)
    requires Answer(w, a, userId, ctx, h).Returned? && Answer(w, b, userId, ctx, h).Returned?
    ensures
      var ab, ba := Straight(w, userId, [a, b], ctx, h), Straight(w, userId, [b, a], ctx, h);
      ab.error.None? && ba.error.None? && ab.ctx == ba.ctx && multiset(ab.heard) == multiset(ba.heard)
  {
    var va, vb := Answer(w, a, userId, ctx, h).value, Answer(w, b, userId, ctx, h).value;
    InOrder(w, userId, a, b, ctx, h);
    InOrder(w, userId, b, a, ctx, h);
    StoredCommutes(a, b, ctx, va, vb);
  }

  /** Where a non-failing pair ends, when the first does not touch what the second reads. */
  lemma InOrder(w: World, userId: string, a: Work, b: Work, ctx: Fields, h: seq<Call>)
    requires Forgetful(w) && Independent(a, b)
    requires Answer(w, a, userId, ctx, h).Returned? && Answer(w, b, userId, ctx, h).Returned?
    ensures
      var f := Straight(w, userId, [a, b], ctx, h);
      f.error.None? &&
      f.ctx == Stored(b, Stored(a, ctx, Answer(w, a, userId, ctx, h).value), Answer(w, b, userId, ctx, h).value) &&
      f.heard == Heard(w, b, userId, ctx, Heard(w, a, userId, ctx, h))
  {
    var va, ha := Answer(w, a, userId, ctx, h).value, Heard(w, a, userId, ctx, h);
    assert [a, b] == [a] + [b];
    StraightAppend(w, userId, [a], [b], ctx, h);
    StraightOne(w, userId, a, ctx, h);
    StraightOne(w, userId, b, Stored(a, ctx, va), ha);
    AnswerUnaffected(w, userId, a, b, ctx, va, ha, h);
  }

  /** Exchange theorem: anywhere in any action list, two neighbours that do not fail where they
      stand and do not touch each other's names can be swapped. The execution gets equally far,
      ends with the same error or none and the same context, and makes the same calls. */
  lemma SwapNeighbours(w: World, userId: string, pre: seq<Work>, a: Work, b: Work, post: seq<Work>, ctx: Fields)
    requires Forgetful(w) && Independent(a, b)
    requires
      var f := Straight(w, userId, pre, ctx, []);
      f.error.None? ==>
        Answer(w, a, userId, f.ctx, f.heard).Returned? && Answer(w, b, userId, f.ctx, f.heard).Returned?
    ensures
      var ab := Straight(w, userId, pre + [a, b] + post, ctx, []);
      var ba := Straight(w, userId, pre + [b, a] + post, ctx, []);
      ab.done == ba.done && ab.error == ba.error && ab.ctx == ba.ctx && multiset(ab.heard) == multiset(ba.heard)
  {
    var f := Straight(w, userId, pre, ctx, []);
    Split3(w, userId, pre, [a, b], post, ctx);
    Split3(w, userId, pre, [b, a], post, ctx);
    if f.error.None? {
      PairCommutes(w, userId, a, b, f.ctx, f.heard);
      var ab, ba := Straight(w, userId, [a, b], f.ctx, f.heard), Straight(w, userId, [b, a], f.ctx, f.heard);
      var tail := HistoryIrrelevant(w, userId, post, ab.ctx, ab.heard, ba.heard);
    }
  }

  lemma Split3(w: World, userId: string, pre: seq<Work>, mid: seq<Work>, post: seq<Work>, ctx: Fields)
    ensures
      var f := Straight(w, userId, pre, ctx, []);
      var m := Straight(w, userId, mid, f.ctx, f.heard);
      var p := Straight(w, userId, post, m.ctx, m.heard);
      Straight(w, userId, pre + mid + post, ctx, []) ==
        if f.error.Some? then f
        else if m.error.Some? then m.(done := |pre| + m.done)
        else p.(done := |pre| + |mid| + p.done)
  {
    StraightAppend(w, userId, pre + mid, post, ctx, []);
    StraightAppend(w, userId, pre, mid, ctx, []);
  }

  /** Two actions that store under different names and do not read each other's are independent; one
      that reads the other's name is not. */
  lemma IndependenceExample(a: string, b: string)
    ensures Independent(Tool(a, Null, Some("x")), Tool(b, Str("plain"), Some("y")))
    ensures !Independent(Tool(a, Null, Some("x")), Tool(b, Null, Some("x")))
  {
    assert T.PieceRoots(T.Scan("plain")) == {} by { NoRoots("plain"); }
    assert "x" in Writes(Tool(a, Null, Some("x"))) && "x" in Writes(Tool(b, Null, Some("x")));
  }

  lemma {:induction false} NoRoots(s: string)
    requires '{' !in s
    ensures T.PieceRoots(T.Scan(s)) == {}
  {
    if s == "" {
    } else {
      assert s[0] in s;
      NoRoots(s[1..]);
      assert ([T.Lit(s[0])] + T.Scan(s[1..]))[1..] == T.Scan(s[1..]);
    }
  }
}
