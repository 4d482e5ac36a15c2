/** JSON values, as they pass through Redis, Postgres JSONB columns and tool calls.
    An absent JavaScript value (`undefined`) is `None` of type `Option<Json>`. */
module Json {
  import opened Wrappers

  datatype Json =
    | Null
    | Bool(b: bool)
    | Num(n: real)
    | Str(s: string)
    | Arr(items: seq<Json>)
    | Obj(fields: Fields)

  type Fields = map<string, Json>

  /** JavaScript truthiness. */
  predicate Truthy(j: Json) {
    match j
    case Null => false
    case Bool(b) => b
    case Num(n) => n != 0.0
    case Str(s) => s != ""
    case Arr(_) => true
    case Obj(_) => true
  }

  predicate IsDigit(c: char) { '0' <= c <= '9' }

  predicate AllDigits(s: string) { forall i :: 0 <= i < |s| ==> IsDigit(s[i]) }

  function DecimalValue(s: string): nat
    requires AllDigits(s)
  {
    if s == "" then 0 else 10 * DecimalValue(s[..|s| - 1]) + (s[|s| - 1] as int - '0' as int)
  }

  /** A number in decimal. */
  function Decimal(n: nat): (s: string)
    ensures s != "" && AllDigits(s)
  {
    (if n < 10 then "" else Decimal(n / 10)) + [('0' as int + n % 10) as char]
  }

  lemma {:induction false} DecimalRoundTrip(n: nat)
    ensures DecimalValue(Decimal(n)) == n
  {
    var s := Decimal(n);
    if n < 10 {
      assert s[..|s| - 1] == "";
    } else {
      assert s[..|s| - 1] == Decimal(n / 10);
      DecimalRoundTrip(n / 10);
    }
  }

  /** The array position a property key names, if it is a canonical decimal. */
  function ArrayIndex(key: string): Option<nat> {
    if key != "" && AllDigits(key) && (key == "0" || key[0] != '0') then Some(DecimalValue(key)) else None
  }

  /** `v?.[key]`: scalars have no properties here. */
  function Property(v: Json, key: string): Option<Json> {
    match v
    case Obj(fields) => if key in fields then Some(fields[key]) else None
    case Arr(items) =>
      var i := ArrayIndex(key);
      if i.Some? && i.value < |items| then Some(items[i.value]) else None
    case _ => None
  }

  /** `s.split(sep)` for a one-character separator. */
  function Split(s: string, sep: char): (parts: seq<string>)
    ensures |parts| >= 1
  {
    if s == "" then [""]
    else
      var rest := Split(s[1..], sep);
      if s[0] == sep then [""] + rest else [[s[0]] + rest[0]] + rest[1..]
  }

  /** `parts.join(sep)`. */
  function Join(parts: seq<string>, sep: char): string {
    if |parts| == 0 then ""
    else if |parts| == 1 then parts[0]
    else parts[0] + [sep] + Join(parts[1..], sep)
  }

  /** Follows a path of keys from an optional value. */
  function Walk(v: Option<Json>, keys: seq<string>): Option<Json>
    decreases keys
  {
    if keys == [] then v
    else Walk(if v.Some? then Property(v.value, keys[0]) else None, keys[1..])
  }

  lemma {:induction false} WalkFromNowhere(keys: seq<string>)
    ensures Walk(None, keys) == None
  {
    if keys == [] {
    } else {
      WalkFromNowhere(keys[1..]);
    }
  }

  /** Splitting loses nothing: joining the parts gives the path back. */
  lemma {:induction false} JoinSplit(s: string, sep: char)
    ensures Join(Split(s, sep), sep) == s
  {
    if s == "" {
    } else {
      var rest := Split(s[1..], sep);
      JoinSplit(s[1..], sep);
      if s[0] == sep {
        assert ([""] + rest)[1..] == rest;
      } else {
        var parts := [[s[0]] + rest[0]] + rest[1..];
        assert parts[1..] == rest[1..];
      }
    }
  }

  // ---- What these functions mean ----------------------------------------------------------------

  /** Exactly these values are falsy. */
  lemma TruthyMeans(j: Json)
    ensures !Truthy(j) <==> j == Null || j == Bool(false) || j == Num(0.0) || j == Str("")
  {
  }

  /** A split has no separator left in any part; with `JoinSplit` that determines it. */
  lemma {:induction false} SplitParts(s: string, sep: char)
    ensures forall p <- Split(s, sep) :: sep !in p
  {
    if s == "" {
    } else {
      var rest := Split(s[1..], sep);
      SplitParts(s[1..], sep);
      assert rest[0] in rest && forall p <- rest[1..] :: p in rest;
    }
  }

  lemma {:induction false} SplitWhole(s: string, sep: char)
    requires sep !in s
    ensures Split(s, sep) == [s]
  {
    if s == "" {
    } else {
      SplitWhole(s[1..], sep);
      assert [s[0]] + s[1..] == s;
    }
  }

  lemma {:induction false} SplitFirst(a: string, sep: char, b: string)
    requires sep !in a
    ensures Split(a + [sep] + b, sep) == [a] + Split(b, sep)
  {
    if a == "" {
      assert (a + [sep] + b)[1..] == b;
    } else {
      assert (a + [sep] + b)[1..] == a[1..] + [sep] + b;
      SplitFirst(a[1..], sep, b);
      assert [a[0]] + a[1..] == a;
    }
  }

  /** Joining keys without separators and splitting gives the keys back. */
  lemma {:induction false} SplitJoin(keys: seq<string>, sep: char)
    requires keys != [] && forall k <- keys :: sep !in k
    ensures Split(Join(keys, sep), sep) == keys
  {
    if |keys| == 1 {
      SplitWhole(keys[0], sep);
    } else {
      SplitJoin(keys[1..], sep);
      SplitFirst(keys[0], sep, Join(keys[1..], sep));
      assert keys == [keys[0]] + keys[1..];
    }
  }

  lemma {:induction false} DecimalIsCanonical(n: nat)
    ensures Decimal(n) == "0" || Decimal(n)[0] != '0'
    ensures n > 0 ==> Decimal(n)[0] != '0'
  {
    if n < 10 {
    } else {
      DecimalIsCanonical(n / 10);
      assert Decimal(n)[0] == Decimal(n / 10)[0];
    }
  }

  lemma {:induction false} CanonicalIsDecimal(key: string)
    requires key != "" && AllDigits(key) && (key == "0" || key[0] != '0')
    ensures Decimal(DecimalValue(key)) == key && (key != "0" ==> DecimalValue(key) > 0)
  {
    if |key| == 1 {
      assert key[..0] == "" && DecimalValue("") == 0;
    } else {
      var front := key[..|key| - 1];
      assert front[0] == key[0] && front != "0";
      CanonicalIsDecimal(front);
      OneDigitMore(front, key[|key| - 1]);
      assert key == front + [key[|key| - 1]];
    }
  }

  lemma OneDigitMore(front: string, last: char)
    requires AllDigits(front) && IsDigit(last) && DecimalValue(front) > 0 && Decimal(DecimalValue(front)) == front
    ensures
      var key := front + [last];
      AllDigits(key) && DecimalValue(key) > 0 && Decimal(DecimalValue(key)) == key
  {
    hide Decimal;
    var key := front + [last];
    assert key[..|key| - 1] == front;
    DecimalSnoc(DecimalValue(front), last);
  }

  lemma DecimalSnoc(n: nat, digit: char)
    requires n > 0 && IsDigit(digit)
    ensures Decimal(10 * n + (digit as int - '0' as int)) == Decimal(n) + [digit]
  {
    var d := digit as int - '0' as int;
    assert (10 * n + d) / 10 == n && (10 * n + d) % 10 == d;
  }

  /** The digits are decimal, most significant first. */
  lemma DecimalExample()
    ensures Decimal(105) == "105" && DecimalValue("105") == 105 && DecimalValue("007") == 7
  {
    assert Decimal(1) == "1" && Decimal(10) == "10";
    DecimalRoundTrip(105);
    assert "007"[..2] == "00" && "00"[..1] == "0" && "0"[..0] == "";
  }

  /** A key names array position `i` exactly if it is `i` in decimal. */
  lemma ArrayIndexMeans(key: string, i: nat)
    ensures ArrayIndex(key) == Some(i) <==> key == Decimal(i)
  {
    DecimalRoundTrip(i);
    DecimalIsCanonical(i);
    if ArrayIndex(key) == Some(i) { CanonicalIsDecimal(key); }
  }

  /** `x` stands in `v` under these keys, one below the other: field names of objects, positions of
      arrays. */
  ghost predicate IsAt(v: Json, keys: seq<string>, x: Json)
    decreases keys
  {
    if keys == [] then x == v
    else
      match v
      case Obj(fields) => keys[0] in fields && IsAt(fields[keys[0]], keys[1..], x)
      case Arr(items) => exists i: nat :: i < |items| && keys[0] == Decimal(i) && IsAt(items[i], keys[1..], x)
      case _ => false
  }

  /** Following a path finds exactly what stands there. */
  lemma {:induction false} WalkMeans(v: Json, keys: seq<string>, x: Json)
    ensures Walk(Some(v), keys) == Some(x) <==> IsAt(v, keys, x)
    decreases keys
  {
    if keys == [] {
    } else {
      match v
      case Obj(fields) =>
        if keys[0] in fields { WalkMeans(fields[keys[0]], keys[1..], x); } else { WalkFromNowhere(keys[1..]); }
      case Arr(items) =>
        ArrayStep(items, keys[0]);
        WalkFromNowhere(keys[1..]);
        forall i: nat | i < |items| ensures Walk(Some(items[i]), keys[1..]) == Some(x) <==> IsAt(items[i], keys[1..], x) {
          WalkMeans(items[i], keys[1..], x);
        }
      case _ => WalkFromNowhere(keys[1..]);
    }
  }

  /** A name leads to the field of that name. */
  lemma AtField(fields: Fields, name: string, x: Json)
    ensures IsAt(Obj(fields), [name], x) <==> name in fields && x == fields[name]
  {
    assert [name][1..] == [];
    if name in fields { assert IsAt(fields[name], [], x) <==> x == fields[name]; }
  }

  lemma ArrayStep(items: seq<Json>, key: string)
    ensures forall i: nat :: i < |items| && key == Decimal(i) ==> Property(Arr(items), key) == Some(items[i])
    ensures Property(Arr(items), key).Some? ==> exists i: nat :: i < |items| && key == Decimal(i)
  {
    forall i: nat ensures ArrayIndex(key) == Some(i) <==> key == Decimal(i) {
      ArrayIndexMeans(key, i);
    }
  }
}
