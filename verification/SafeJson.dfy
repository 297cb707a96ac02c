/** JSON-safe payloads (app/payload_serialization.py).

    A value is a tree whose leaves may also be references into a heap of objects, so
    that objects can contain themselves.  Converting any object to text succeeds.
 */
module SafeJson {
  import opened Common
  import opened Sorting

  const MAX_DEPTH := 32
  const MAX_STRING := 16384

  type Short = s: string | |s| <= MAX_STRING

  datatype Item = Item(key: Value, value: Value)

  datatype ToDict = NoMethod | Raises | Gives(value: Value)

  datatype Value =
    | Null | Bool(flag: bool) | Int(number: int) | Float(amount: real) | Str(text: string)
    | Date(iso: Short) | Decimal(exact: real) | Uuid(hex: Short) | Enum(payload: Value) | Bytes(decoded: string)
    | Dict(entries: seq<Item>) | Set(members: seq<Value>) | List(items: seq<Value>)
    | Record(toDict: ToDict, fields: Option<seq<Item>>)
    | Opaque(name: string)
    | Ref(ref: nat)

  type Shape = v: Value | !v.Ref? witness Null

  /** The objects, and how they read as text. */
  datatype World = World(heap: nat -> Shape, texts: Value -> string)

  function Deref(w: World, v: Value): Shape {
    if v.Ref? then w.heap(v.ref) else v
  }

  function Text(w: World, v: Value): string {
    if Deref(w, v).Str? then Deref(w, v).text else w.texts(v)
  }

  function Cut(s: string): Short {
    if |s| > MAX_STRING then s[..MAX_STRING] else s
  }

  // ----- the order of a set's members -----

  predicate TextLess(a: string, b: string) {
    b != "" && (a == "" || a[0] < b[0] || (a[0] == b[0] && TextLess(a[1..], b[1..])))
  }

  lemma {:induction false} TextOrder(a: string, b: string, c: string)
    ensures TextLess(a, b) ==> !TextLess(b, a)
    ensures !TextLess(a, b) && !TextLess(b, a) ==> a == b
    ensures !TextLess(b, a) && !TextLess(c, b) ==> !TextLess(c, a)
  {
    if a != "" && b != "" && c != "" {
      TextOrder(a[1..], b[1..], c[1..]);
      assert a == [a[0]] + a[1..] && b == [b[0]] + b[1..];
    } else if a != "" && b != "" {
      TextOrder(a[1..], b[1..], c);
      assert a == [a[0]] + a[1..] && b == [b[0]] + b[1..];
    }
  }

  lemma TextsAreOrdered()
    ensures WeakOrder(TextLess) && TotalOrder(TextLess)
  {
    forall a, b ensures TextLess(a, b) ==> !TextLess(b, a) {
      TextOrder(a, b, "");
    }
    forall a, b ensures TextLess(a, b) || TextLess(b, a) || a == b {
      TextOrder(a, b, "");
    }
    forall a, b, c ensures !TextLess(b, a) && !TextLess(c, b) ==> !TextLess(c, a) {
      TextOrder(a, b, c);
    }
  }

  function ByText(w: World): (Value, Value) -> bool {
    (a, b) => TextLess(Text(w, a), Text(w, b))
  }

  /** sorted(members, key=str). */
  function SortByText(w: World, s: seq<Value>): seq<Value> {
    Sort(ByText(w), s)
  }

  lemma ByTextIsOrder(w: World)
    ensures WeakOrder(ByText(w))
  {
    TextsAreOrdered();
    hide Text, TextLess;
    forall a, b ensures ByText(w)(a, b) ==> !ByText(w)(b, a) {
      assert TextLess(Text(w, a), Text(w, b)) ==> !TextLess(Text(w, b), Text(w, a));
    }
    forall a, b, c ensures !ByText(w)(b, a) && !ByText(w)(c, b) ==> !ByText(w)(c, a) {
      assert !TextLess(Text(w, b), Text(w, a)) && !TextLess(Text(w, c), Text(w, b)) ==>
          !TextLess(Text(w, c), Text(w, a));
    }
  }

  function Texts(w: World, s: seq<Value>): (r: seq<string>)
    ensures |r| == |s| && forall i | 0 <= i < |s| :: r[i] == Text(w, s[i])
  {
    if s == [] then [] else Texts(w, s[..|s| - 1]) + [Text(w, s[|s| - 1])]
  }

  lemma SortByTextSorts(w: World, s: seq<Value>)
    ensures multiset(SortByText(w, s)) == multiset(s) && InOrder(TextLess, Texts(w, SortByText(w, s)))
  {
    ByTextIsOrder(w);
    SortKeeps(ByText(w), s);
    SortOrders(ByText(w), s);
    var r := SortByText(w, s);
    hide Sort, WeakOrder, Text, TextLess;
    forall i, j | 0 <= i < j < |r| ensures !TextLess(Text(w, r[j]), Text(w, r[i])) {
      assert !ByText(w)(r[j], r[i]);
    }
  }

  // ----- normalisation -----

  /** out[key] = value: a new key goes to the end, a known one keeps its place. */
  function Put(out: seq<Item>, key: string, value: Value): seq<Item> {
    if out == [] then [Item(Str(key), value)]
    else if out[0].key == Str(key) then [Item(Str(key), value)] + out[1..]
    else [out[0]] + Put(out[1..], key, value)
  }

  function Left(depth: nat): nat {
    if depth > MAX_DEPTH then 0 else MAX_DEPTH + 1 - depth
  }

  function Safe(w: World, v: Value, depth: nat): Value
    decreases Left(depth), 0
  {
    if depth > MAX_DEPTH then Str(Cut(Text(w, v)))
    else match Deref(w, v)
      case Null => Null
      case Bool(b) => Bool(b)
      case Int(n) => Int(n)
      case Float(x) => Float(x)
      case Str(s) => Str(Cut(s))
      case Date(iso) => Str(iso)
      case Decimal(x) => Float(x)
      case Uuid(hex) => Str(hex)
      case Enum(payload) => payload
      case Bytes(s) => Str(Cut(s))
      case Dict(entries) => Dict(SafeEntries(w, entries, depth + 1))
      case Set(members) => List(SafeAll(w, SortByText(w, members), depth + 1))
      case List(items) => List(SafeAll(w, items, depth + 1))
      case Record(toDict, fields) =>
        if toDict.Gives? then Safe(w, toDict.value, depth + 1)
        else if fields.Some? then Safe(w, Dict(fields.value), depth + 1)
        else Str(Cut(Text(w, v)))
      case Opaque(_) => Str(Cut(Text(w, v)))
  }

  /** No scalar loses its content within the depth limit but for the length of a text. */
  lemma ScalarsKeepContent(w: World, depth: nat, flag: bool, number: int, amount: real, text: string, short: Short)
    requires depth <= MAX_DEPTH
    ensures Safe(w, Null, depth) == Null && Safe(w, Bool(flag), depth) == Bool(flag)
    ensures Safe(w, Int(number), depth) == Int(number)
    ensures Safe(w, Float(amount), depth) == Safe(w, Decimal(amount), depth) == Float(amount)
    ensures Safe(w, Date(short), depth) == Safe(w, Uuid(short), depth) == Safe(w, Str(short), depth) == Str(short)
    ensures Safe(w, Bytes(text), depth) == Safe(w, Str(text), depth)
    ensures var r := Safe(w, Str(text), depth);
            r.Str? && r.text <= text && |r.text| == if |text| <= 16384 then |text| else 16384
  {
  }

  function SafeAll(w: World, s: seq<Value>, depth: nat): (r: seq<Value>)
    ensures |r| == |s|
    decreases Left(depth), |s| + 1
  {
    if s == [] then [] else SafeAll(w, s[..|s| - 1], depth) + [Safe(w, s[|s| - 1], depth)]
  }

  function SafeEntries(w: World, entries: seq<Item>, depth: nat): seq<Item>
    decreases Left(depth), |entries| + 1
  {
    if entries == [] then []
    else
      var e := entries[|entries| - 1];
      Put(SafeEntries(w, entries[..|entries| - 1], depth), Text(w, e.key), Safe(w, e.value, depth))
  }

  // ----- the order of a set's members -----

  lemma TextsExtend(w: World, p: seq<Value>, q: seq<Value>)
    ensures Texts(w, p + q) == Texts(w, p) + Texts(w, q)
  {
    hide Texts, Text;
    assert forall i | 0 <= i < |p + q| :: (p + q)[i] == if i < |p| then p[i] else q[i - |p|];
  }

  lemma {:induction false} TextsOfPermutation(w: World, p: seq<Value>, q: seq<Value>)
    requires multiset(p) == multiset(q)
    ensures multiset(Texts(w, p)) == multiset(Texts(w, q))
    decreases |p|
  {
    assert |p| == |multiset(p)| == |multiset(q)| == |q|;
    if p != [] {
      var pre, x := p[..|p| - 1], p[|p| - 1];
      WithoutLast(p);
      var l, r := WithoutOne(q, x);
      TextsOfPermutation(w, pre, l + r);
      TextsExtend(w, pre, [x]);
      TextsExtend(w, l, r);
      TextsExtend(w, l + [x], r);
      TextsExtend(w, l, [x]);
    }
  }

  lemma WithoutOne(q: seq<Value>, x: Value) returns (l: seq<Value>, r: seq<Value>)
    requires x in multiset(q)
    ensures q == l + [x] + r && multiset(l + r) == multiset(q) - multiset{x}
  {
    var k :| 0 <= k < |q| && q[k] == x;
    l, r := q[..k], q[k + 1..];
    assert q == l + [x] + r;
  }

  lemma {:induction false} SafeAllAt(w: World, s: seq<Value>, depth: nat, i: nat)
    requires i < |s|
    ensures SafeAll(w, s, depth)[i] == Safe(w, s[i], depth)
    decreases |s|
  {
    if i < |s| - 1 {
      SafeAllAt(w, s[..|s| - 1], depth, i);
    }
  }

  /** Members that read the same normalise to the same value. */
  ghost predicate TextsDecide(w: World, a: seq<Value>, depth: nat) {
    forall x, y | x in a && y in a && Text(w, x) == Text(w, y) :: Safe(w, x, depth) == Safe(w, y, depth)
  }

  lemma SetsNormaliseAlike(w: World, a: seq<Value>, b: seq<Value>, depth: nat)
    requires depth <= MAX_DEPTH && multiset(a) == multiset(b) && TextsDecide(w, a, depth + 1)
    ensures Safe(w, Set(a), depth) == Safe(w, Set(b), depth)
  {
    var p, q := SortByText(w, a), SortByText(w, b);
    SafeOfSet(w, a, depth);
    SafeOfSet(w, b, depth);
    SortsReadAlike(w, a, b);
    hide *;
    forall i | 0 <= i < |p| ensures Safe(w, p[i], depth + 1) == Safe(w, q[i], depth + 1) {
      assert p[i] in multiset(p) && q[i] in multiset(q);
      ReadAlike(w, a, p[i], q[i], depth + 1);
    }
    PointwiseSafe(w, p, q, depth + 1);
  }

  lemma ReadAlike(w: World, a: seq<Value>, x: Value, y: Value, depth: nat)
    requires TextsDecide(w, a, depth) && x in multiset(a) && y in multiset(a) && Text(w, x) == Text(w, y)
    ensures Safe(w, x, depth) == Safe(w, y, depth)
  {
    hide Safe, Text;
  }

  lemma {:induction false} PointwiseSafe(w: World, p: seq<Value>, q: seq<Value>, depth: nat)
    requires |p| == |q| && forall i | 0 <= i < |p| :: Safe(w, p[i], depth) == Safe(w, q[i], depth)
    ensures SafeAll(w, p, depth) == SafeAll(w, q, depth)
    decreases |p|
  {
    if p != [] {
      hide Safe;
      PointwiseSafe(w, p[..|p| - 1], q[..|q| - 1], depth);
    }
  }

  lemma SortsReadAlike(w: World, a: seq<Value>, b: seq<Value>)
    requires multiset(a) == multiset(b)
    ensures var p, q := SortByText(w, a), SortByText(w, b);
            && multiset(p) == multiset(a) && multiset(q) == multiset(a) && |p| == |q|
            && forall i | 0 <= i < |p| :: Text(w, p[i]) == Text(w, q[i])
  {
    hide *;
    SortByTextSorts(w, a);
    SortByTextSorts(w, b);
    var p, q := SortByText(w, a), SortByText(w, b);
    assert |p| == |multiset(p)| == |multiset(q)| == |q|;
    TextsOfPermutation(w, p, q);
    TextsAreOrdered();
    OrderIsUnique(TextLess, Texts(w, p), Texts(w, q));
    forall i | 0 <= i < |p| ensures Text(w, p[i]) == Text(w, q[i]) {
      assert Texts(w, p)[i] == Texts(w, q)[i];
    }
  }

  /** Two orders of the same members that show the difference between x and y. */
  lemma OrdersShow(w: World, x: Value, y: Value, rest: seq<Value>, depth: nat)
    requires depth <= MAX_DEPTH && Text(w, x) == Text(w, y)
    requires Safe(w, Set([x, y] + rest), depth) == Safe(w, Set([y, x] + rest), depth)
    ensures Safe(w, x, depth + 1) == Safe(w, y, depth + 1)
  {
    var p, q := SortByText(w, [x, y] + rest), SortByText(w, [y, x] + rest);
    SafeOfSet(w, [x, y] + rest, depth);
    SafeOfSet(w, [y, x] + rest, depth);
    ByTextIsOrder(w);
    NotByText(w, x, y);
    NotByText(w, y, x);
    assert p == Sort(ByText(w), [x, y] + rest) && q == Sort(ByText(w), [y, x] + rest);
    hide *;
    var l, r := SortKeepsPair(ByText(w), x, y, rest);
    SafeAllAt(w, p, depth + 1, |l|);
    SafeAllAt(w, q, depth + 1, |l|);
  }

  lemma SafeOfSet(w: World, members: seq<Value>, depth: nat)
    requires depth <= MAX_DEPTH
    ensures Safe(w, Set(members), depth) == List(SafeAll(w, SortByText(w, members), depth + 1))
  {
    hide SafeAll, SortByText;
  }

  lemma NotByText(w: World, x: Value, y: Value)
    requires Text(w, x) == Text(w, y)
    ensures !ByText(w)(x, y)
  {
    TextOrder(Text(w, x), Text(w, x), "");
    hide Text, TextLess;
  }

  /** A set gives the same list in whatever order it yields its members exactly when
      those that read the same normalise alike. */
  lemma SetsNormaliseAlikeExactlyWhen(w: World, a: seq<Value>, depth: nat)
    requires depth <= MAX_DEPTH
    ensures (forall b | multiset(b) == multiset(a) :: Safe(w, Set(b), depth) == Safe(w, Set(a), depth)) <==>
            TextsDecide(w, a, depth + 1)
  {
    if TextsDecide(w, a, depth + 1) {
      forall b | multiset(b) == multiset(a) ensures Safe(w, Set(b), depth) == Safe(w, Set(a), depth) {
        SetsNormaliseAlike(w, a, b, depth);
      }
    } else {
      var x, y :| x in a && y in a && Text(w, x) == Text(w, y) &&
        Safe(w, x, depth + 1) != Safe(w, y, depth + 1);
      hide *;
      var rest := PairFirst(a, x, y);
      var b, c := [x, y] + rest, [y, x] + rest;
      if Safe(w, Set(b), depth) == Safe(w, Set(c), depth) {
        OrdersShow(w, x, y, rest, depth);
      }
      assert Safe(w, Set(b), depth) != Safe(w, Set(a), depth) || Safe(w, Set(c), depth) != Safe(w, Set(a), depth);
    }
  }

  lemma PairFirst(a: seq<Value>, x: Value, y: Value) returns (rest: seq<Value>)
    requires x in a && y in a && x != y
    ensures multiset([x, y] + rest) == multiset(a) && multiset([y, x] + rest) == multiset(a)
  {
    hide *;
    var l, r := WithoutOne(a, x);
    assert y in multiset(l + r);
    var l', r' := WithoutOne(l + r, y);
    rest := l' + r';
    PutBack(multiset(a), x, y, multiset(rest));
    PairMultiset(x, y, rest);
    PairMultiset(y, x, rest);
  }

  lemma PutBack(m: multiset<Value>, x: Value, y: Value, rest: multiset<Value>)
    requires x in m && y in m && x != y && rest == m - multiset{x} - multiset{y}
    ensures multiset{x} + multiset{y} + rest == m && multiset{y} + multiset{x} + rest == m
  {
  }

  lemma PairMultiset(x: Value, y: Value, rest: seq<Value>)
    ensures multiset([x, y] + rest) == multiset{x} + multiset{y} + multiset(rest)
  {
  }

  // ----- the loops -----

  method SafeJsonValue(w: World, value: Value, depth: nat) returns (r: Value)
    ensures r == Safe(w, value, depth)
    decreases Left(depth), 0
  {
    hide SafeAll, SafeEntries, SortByText, Text, Cut;
    if depth > MAX_DEPTH {
      return Str(Cut(Text(w, value)));
    }
    match Deref(w, value) {
      case Dict(entries) =>
        var out := SafeMapping(w, entries, depth + 1);
        return Dict(out);
      case Set(members) =>
        var items := SafeItems(w, SortByText(w, members), depth + 1);
        return List(items);
      case List(items) =>
        var safe := SafeItems(w, items, depth + 1);
        return List(safe);
      case Record(toDict, fields) =>
        if toDict.Gives? {
          r := SafeJsonValue(w, toDict.value, depth + 1);
        } else if fields.Some? {
          r := SafeJsonValue(w, Dict(fields.value), depth + 1);
        } else {
          r := Str(Cut(Text(w, value)));
        }
      case Str(s) => return Str(Cut(s));
      case Date(iso) => return Str(iso);
      case Decimal(x) => return Float(x);
      case Uuid(hex) => return Str(hex);
      case Enum(payload) => return payload;
      case Bytes(s) => return Str(Cut(s));
      case Opaque(_) => return Str(Cut(Text(w, value)));
      case primitive => return primitive;
    }
  }

  method SafeMapping(w: World, entries: seq<Item>, depth: nat) returns (out: seq<Item>)
    ensures out == SafeEntries(w, entries, depth)
    decreases Left(depth), |entries| + 1
  {
    out := [];
    for k := 0 to |entries|
      invariant out == SafeEntries(w, entries[..k], depth)
    {
      assert entries[..k + 1][..k] == entries[..k];
      var item := SafeJsonValue(w, entries[k].value, depth);
      out := Put(out, Text(w, entries[k].key), item);
    }
    assert entries[..|entries|] == entries;
  }

  method SafeItems(w: World, s: seq<Value>, depth: nat) returns (r: seq<Value>)
    ensures r == SafeAll(w, s, depth)
    decreases Left(depth), |s| + 1
  {
    r := [];
    for k := 0 to |s|
      invariant r == SafeAll(w, s[..k], depth)
    {
      assert s[..k + 1][..k] == s[..k];
      var item := SafeJsonValue(w, s[k], depth);
      r := r + [item];
    }
    assert s[..|s|] == s;
  }

  // ----- what the result looks like -----

  /** How deep a value may sit; None is no limit. */
  type Level = Option<nat>

  predicate Allowed(level: Level) {
    level.Some? ==> level.value <= 32
  }

  function Below(level: Level): Level {
    if level.Some? then Some(level.value + 1) else None
  }

  predicate HasKey(entries: seq<Item>, key: string) {
    entries != [] && (entries[0].key == Str(key) || HasKey(entries[1..], key))
  }

  predicate StringKeys(entries: seq<Item>) {
    entries != [] ==>
      entries[0].key.Str? && !HasKey(entries[1..], entries[0].key.text) && StringKeys(entries[1..])
  }

  /** Primitives with strings of limited length, lists, and maps with string keys, all
      of them different.  With a level, all but strings keep to the depth limit. */
  predicate Json(v: Value, level: Level) {
    match v
    case Null => Allowed(level)
    case Bool(_) => Allowed(level)
    case Int(_) => Allowed(level)
    case Float(_) => Allowed(level)
    case Str(s) => |s| <= 16384
    case List(items) => Allowed(level) && forall i | 0 <= i < |items| :: Json(items[i], Below(level))
    case Dict(entries) =>
      && Allowed(level) && StringKeys(entries)
      && forall i | 0 <= i < |entries| :: Json(entries[i].value, Below(level))
    case _ => false
  }

  predicate IsJson(v: Value) { Json(v, None) }

  /** JSON as a normalisation at `depth` makes it. */
  predicate Normal(v: Value, depth: nat) { Json(v, Some(depth)) }

  /** What makes the result JSON at `level`: every enumeration member that is met has a
      payload that is JSON where it comes to stand, and nothing but text lies beyond
      the limit, which is no question for levels up to `depth`.  Values whose key comes
      again later do not count. */
  predicate Plain(w: World, v: Value, depth: nat, level: Level)
    decreases Left(depth), 0
  {
    depth <= MAX_DEPTH ==>
      match Deref(w, v)
      case Enum(payload) => Json(payload, level)
      case Dict(entries) => Allowed(level) && PlainEntries(w, entries, depth + 1, Below(level), {})
      case Set(members) => Allowed(level) && PlainAll(w, SortByText(w, members), depth + 1, Below(level))
      case List(items) => Allowed(level) && PlainAll(w, items, depth + 1, Below(level))
      case Record(toDict, fields) =>
        if toDict.Gives? then Plain(w, toDict.value, depth + 1, level)
        else fields.Some? ==> Plain(w, Dict(fields.value), depth + 1, level)
      case scalar => ReadsAsText(scalar) || Allowed(level)
  }

  predicate ReadsAsText(v: Value) {
    v.Str? || v.Date? || v.Uuid? || v.Bytes? || v.Opaque?
  }

  predicate PlainAll(w: World, s: seq<Value>, depth: nat, level: Level)
    decreases Left(depth), |s| + 1
  {
    s != [] ==> PlainAll(w, s[..|s| - 1], depth, level) && Plain(w, s[|s| - 1], depth, level)
  }

  predicate PlainEntries(w: World, entries: seq<Item>, depth: nat, level: Level, later: set<string>)
    decreases Left(depth), |entries| + 1
  {
    entries != [] ==>
      var e := entries[|entries| - 1];
      var key := Text(w, e.key);
      && (key in later || Plain(w, e.value, depth, level))
      && PlainEntries(w, entries[..|entries| - 1], depth, level, later + {key})
  }

  // ----- filling a map -----

  /** Apart from the keys in `hidden`, all values are JSON. */
  predicate JsonExcept(out: seq<Item>, level: Level, hidden: set<string>) {
    out != [] ==>
      && ((out[0].key.Str? && out[0].key.text in hidden) || Json(out[0].value, level))
      && JsonExcept(out[1..], level, hidden)
  }

  lemma {:induction false} PutHasKey(out: seq<Item>, key: string, value: Value, k: string)
    ensures HasKey(Put(out, key, value), k) <==> k == key || HasKey(out, k)
    decreases |out|
  {
    if out == [] {
      assert Put(out, key, value)[1..] == [];
    } else if out[0].key == Str(key) {
      assert Put(out, key, value)[1..] == out[1..];
    } else {
      PutHasKey(out[1..], key, value, k);
      assert Put(out, key, value)[1..] == Put(out[1..], key, value);
    }
  }

  /** Maps only ever get string keys, each once. */
  lemma {:induction false} PutKeepsKeys(out: seq<Item>, key: string, value: Value)
    requires StringKeys(out)
    ensures StringKeys(Put(out, key, value))
    decreases |out|
  {
    if out == [] {
      assert Put(out, key, value)[1..] == [];
    } else if out[0].key == Str(key) {
      assert Put(out, key, value)[1..] == out[1..];
    } else {
      PutKeepsKeys(out[1..], key, value);
      PutHasKey(out[1..], key, value, out[0].key.text);
      assert Put(out, key, value)[1..] == Put(out[1..], key, value);
    }
  }

  function ValueOf(entries: seq<Item>, key: string): Option<Value> {
    if entries == [] then None
    else if entries[0].key == Str(key) then Some(entries[0].value)
    else ValueOf(entries[1..], key)
  }

  lemma {:induction false} PutIsUpdate(out: seq<Item>, key: string, value: Value, k: string)
    ensures ValueOf(Put(out, key, value), k) == if k == key then Some(value) else ValueOf(out, k)
    decreases |out|
  {
    var p := Put(out, key, value);
    if out == [] {
      assert p[1..] == [];
    } else if out[0].key == Str(key) {
      assert p[1..] == out[1..];
    } else {
      PutIsUpdate(out[1..], key, value, k);
      assert p[1..] == Put(out[1..], key, value);
    }
  }

  /** The value of the last entry that reads as `key`. */
  function LastValue(w: World, entries: seq<Item>, key: string): Option<Value> {
    if entries == [] then None
    else
      var e := entries[|entries| - 1];
      if Text(w, e.key) == key then Some(e.value) else LastValue(w, entries[..|entries| - 1], key)
  }

  /** Keys that read the same become one, with the last of their values. */
  lemma {:induction false} MapsKeepTheLastValue(w: World, entries: seq<Item>, depth: nat, key: string)
    ensures var last := LastValue(w, entries, key);
            ValueOf(SafeEntries(w, entries, depth), key)
            == if last.Some? then Some(Safe(w, last.value, depth)) else None
    decreases |entries|
  {
    if entries != [] {
      var pre, e := entries[..|entries| - 1], entries[|entries| - 1];
      hide Safe, Put, ValueOf, Text;
      MapsKeepTheLastValue(w, pre, depth, key);
      PutIsUpdate(SafeEntries(w, pre, depth), Text(w, e.key), Safe(w, e.value, depth), key);
    } else {
      assert ValueOf([], key) == None;
    }
  }

  lemma {:induction false} HiddenOrAbsent(out: seq<Item>, key: string, level: Level, hidden: set<string>)
    requires !HasKey(out, key)
    ensures JsonExcept(out, level, hidden + {key}) <==> JsonExcept(out, level, hidden)
    decreases |out|
  {
    if out != [] {
      HiddenOrAbsent(out[1..], key, level, hidden);
    }
  }

  /** A later value replaces an earlier one of the same key. */
  lemma {:induction false} PutIsJson(out: seq<Item>, key: string, value: Value, level: Level, hidden: set<string>)
    requires StringKeys(out)
    ensures JsonExcept(Put(out, key, value), level, hidden) <==>
            (key in hidden || Json(value, level)) && JsonExcept(out, level, hidden + {key})
    decreases |out|
  {
    var p := Put(out, key, value);
    if out == [] {
      assert p[1..] == [];
    } else if out[0].key == Str(key) {
      assert p[1..] == out[1..];
      HiddenOrAbsent(out[1..], key, level, hidden);
    } else {
      assert p[1..] == Put(out[1..], key, value);
      PutIsJson(out[1..], key, value, level, hidden);
    }
  }

  lemma {:induction false} EntriesAreJson(out: seq<Item>, level: Level)
    ensures JsonExcept(out, level, {}) <==> forall i | 0 <= i < |out| :: Json(out[i].value, level)
    decreases |out|
  {
    if out != [] {
      EntriesAreJson(out[1..], level);
      assert forall i | 1 <= i < |out| :: out[i] == out[1..][i - 1];
    }
  }

  // ----- exactly when the result is JSON -----

  lemma {:induction false} SafeIsJsonExactlyWhen(w: World, v: Value, depth: nat, level: Level)
    ensures Json(Safe(w, v, depth), level) <==> Plain(w, v, depth, level)
    decreases Left(depth), 0
  {
    hide SafeAll, SafeEntries, SortByText, PlainAll, PlainEntries, Text, Cut, StringKeys, Allowed, Below;
    if depth <= MAX_DEPTH {
      match Deref(w, v) {
        case Dict(entries) => MapIsJsonExactlyWhen(w, entries, depth + 1, level);
        case Set(members) => ItemsAreJsonExactlyWhen(w, SortByText(w, members), depth + 1, level);
        case List(items) => ItemsAreJsonExactlyWhen(w, items, depth + 1, level);
        case Record(toDict, fields) =>
          if toDict.Gives? {
            SafeIsJsonExactlyWhen(w, toDict.value, depth + 1, level);
          } else if fields.Some? {
            SafeIsJsonExactlyWhen(w, Dict(fields.value), depth + 1, level);
          }
        case _ =>
      }
    }
  }

  lemma JsonStep(s: seq<Value>, x: Value, level: Level)
    ensures Json(List(s + [x]), level) <==> Json(List(s), level) && Json(x, Below(level))
  {
    var r := s + [x];
    assert r[|s|] == x && forall i | 0 <= i < |s| :: r[i] == s[i];
    if Json(List(r), level) {
      assert Json(r[|s|], Below(level));
      forall i | 0 <= i < |s| ensures Json(s[i], Below(level)) { assert Json(r[i], Below(level)); }
    }
  }

  lemma {:induction false} ItemsAreJsonExactlyWhen(w: World, s: seq<Value>, depth: nat, level: Level)
    ensures Json(List(SafeAll(w, s, depth)), level) <==> Allowed(level) && PlainAll(w, s, depth, Below(level))
    decreases Left(depth), |s| + 1
  {
    if s != [] {
      hide Json;
      ItemsAreJsonExactlyWhen(w, s[..|s| - 1], depth, level);
      SafeIsJsonExactlyWhen(w, s[|s| - 1], depth, Below(level));
      JsonStep(SafeAll(w, s[..|s| - 1], depth), Safe(w, s[|s| - 1], depth), level);
    }
  }

  lemma {:induction false} FilledExactlyWhen(w: World, entries: seq<Item>, depth: nat, level: Level,
      later: set<string>)
    ensures StringKeys(SafeEntries(w, entries, depth))
    ensures JsonExcept(SafeEntries(w, entries, depth), level, later) <==>
            PlainEntries(w, entries, depth, level, later)
    decreases Left(depth), |entries| + 1
  {
    if entries != [] {
      var pre, e := entries[..|entries| - 1], entries[|entries| - 1];
      var key := Text(w, e.key);
      FilledExactlyWhen(w, pre, depth, level, later + {key});
      SafeIsJsonExactlyWhen(w, e.value, depth, level);
      PutKeepsKeys(SafeEntries(w, pre, depth), key, Safe(w, e.value, depth));
      PutIsJson(SafeEntries(w, pre, depth), key, Safe(w, e.value, depth), level, later);
    }
  }

  lemma MapIsJsonExactlyWhen(w: World, entries: seq<Item>, depth: nat, level: Level)
    ensures Json(Dict(SafeEntries(w, entries, depth)), level) <==>
            Allowed(level) && PlainEntries(w, entries, depth, Below(level), {})
    decreases Left(depth), |entries| + 2
  {
    FilledExactlyWhen(w, entries, depth, Below(level), {});
    EntriesAreJson(SafeEntries(w, entries, depth), Below(level));
  }

  // ----- normalising again -----

  lemma {:induction false} LastKeyIsNew(entries: seq<Item>)
    requires entries != [] && StringKeys(entries)
    ensures var pre, e := entries[..|entries| - 1], entries[|entries| - 1];
            StringKeys(pre) && e.key.Str? && !HasKey(pre, e.key.text)
    decreases |entries|
  {
    if |entries| > 1 {
      var pre, rest, e := entries[..|entries| - 1], entries[1..], entries[|entries| - 1];
      LastKeyIsNew(rest);
      assert pre[1..] == rest[..|rest| - 1];
      HasKeyAt(rest, |rest| - 1);
      HasKeyBefore(rest, entries[0].key.text);
    }
  }

  lemma {:induction false} HasKeyAt(entries: seq<Item>, i: nat)
    requires i < |entries| && entries[i].key.Str?
    ensures HasKey(entries, entries[i].key.text)
    decreases |entries|
  {
    if i > 0 {
      HasKeyAt(entries[1..], i - 1);
    }
  }

  lemma {:induction false} HasKeyBefore(entries: seq<Item>, key: string)
    requires entries != []
    ensures HasKey(entries[..|entries| - 1], key) ==> HasKey(entries, key)
    decreases |entries|
  {
    if |entries| > 1 {
      HasKeyBefore(entries[1..], key);
      assert entries[..|entries| - 1][1..] == entries[1..][..|entries| - 2];
    }
  }

  lemma {:induction false} PutNew(out: seq<Item>, key: string, value: Value)
    requires !HasKey(out, key)
    ensures Put(out, key, value) == out + [Item(Str(key), value)]
    decreases |out|
  {
    if out != [] {
      PutNew(out[1..], key, value);
      assert out == [out[0]] + out[1..];
    }
  }

  lemma {:induction false} SameKeys(a: seq<Item>, b: seq<Item>, key: string)
    requires |a| == |b| && forall i | 0 <= i < |a| :: a[i].key == b[i].key
    ensures HasKey(a, key) <==> HasKey(b, key)
  {
    if a != [] {
      SameKeys(a[1..], b[1..], key);
    }
  }

  predicate InPlace(w: World, entries: seq<Item>, depth: nat, r: seq<Item>) {
    |r| == |entries| && forall i | 0 <= i < |r| :: r[i] == Item(entries[i].key, Safe(w, entries[i].value, depth))
  }

  lemma InPlaceStep(w: World, entries: seq<Item>, depth: nat, r: seq<Item>)
    requires entries != [] && InPlace(w, entries[..|entries| - 1], depth, r)
    ensures var e := entries[|entries| - 1]; InPlace(w, entries, depth, r + [Item(e.key, Safe(w, e.value, depth))])
  {
    hide Safe;
  }

  lemma PutLast(w: World, entries: seq<Item>, depth: nat)
    requires entries != [] && entries[|entries| - 1].key.Str?
    ensures var e := entries[|entries| - 1];
            SafeEntries(w, entries, depth)
            == Put(SafeEntries(w, entries[..|entries| - 1], depth), e.key.text, Safe(w, e.value, depth))
  {
    hide Safe, Put;
  }

  /** A map with string keys, each once, is normalised entry by entry. */
  lemma {:induction false} EntriesStayInPlace(w: World, entries: seq<Item>, depth: nat)
    requires StringKeys(entries)
    ensures InPlace(w, entries, depth, SafeEntries(w, entries, depth))
    decreases |entries|
  {
    if entries != [] {
      var pre, e := entries[..|entries| - 1], entries[|entries| - 1];
      var r := SafeEntries(w, pre, depth);
      LastKeyIsNew(entries);
      PutLast(w, entries, depth);
      EntriesStayInPlace(w, pre, depth);
      assert forall i | 0 <= i < |r| :: r[i].key == pre[i].key;
      assert |r| == |pre|;
      hide *;
      SameKeys(r, pre, e.key.text);
      PutNew(r, e.key.text, Safe(w, e.value, depth));
      InPlaceStep(w, entries, depth, r);
    }
  }

  /** A value in normal form stays as it is, in any world. */
  lemma {:induction false} NormalIsFixed(w: World, v: Value, depth: nat)
    requires Normal(v, depth)
    ensures Safe(w, v, depth) == v
    decreases v
  {
    hide SafeEntries, SortByText;
    match v {
      case List(items) =>
        forall i | 0 <= i < |items| ensures SafeAll(w, items, depth + 1)[i] == items[i] {
          SafeAllAt(w, items, depth + 1, i);
          NormalIsFixed(w, items[i], depth + 1);
        }
      case Dict(entries) =>
        EntriesStayInPlace(w, entries, depth + 1);
        forall i | 0 <= i < |entries| ensures Safe(w, entries[i].value, depth + 1) == entries[i].value {
          NormalIsFixed(w, entries[i].value, depth + 1);
        }
        assert SafeEntries(w, entries, depth + 1) == entries;
      case _ =>
    }
  }

  /** A world in which every reference is to None. */
  function Nulls(): World {
    World(_ => Null, _ => "")
  }

  /** There, a record can only come out of a value that holds it. */
  lemma {:induction false} RecordsComeFromInside(v: Value, depth: nat)
    ensures var r := Safe(Nulls(), v, depth); r.Record? ==> r < v
    decreases v
  {
    hide SafeAll, SafeEntries, SortByText, Cut;
    if v.Record? && v.toDict.Gives? {
      RecordsComeFromInside(v.toDict.value, depth + 1);
      assert v.toDict.value < v.toDict < v;
    }
  }

  lemma {:induction false} FixedIsNormal(v: Value, depth: nat)
    requires Safe(Nulls(), v, depth) == v
    ensures Normal(v, depth)
    decreases v
  {
    hide SafeAll, SafeEntries, SortByText, HasKey;
    match v {
      case List(items) =>
        if depth <= MAX_DEPTH {
          forall i | 0 <= i < |items| ensures Json(items[i], Some(depth + 1)) {
            SafeAllAt(Nulls(), items, depth + 1, i);
            FixedIsNormal(items[i], depth + 1);
          }
        }
      case Dict(entries) =>
        if depth <= MAX_DEPTH {
          FilledExactlyWhen(Nulls(), entries, depth + 1, None, {});
          EntriesStayInPlace(Nulls(), entries, depth + 1);
          forall i | 0 <= i < |entries| ensures Json(entries[i].value, Some(depth + 1)) {
            assert entries[i] == Item(entries[i].key, Safe(Nulls(), entries[i].value, depth + 1));
            FixedIsNormal(entries[i].value, depth + 1);
          }
        }
      case Record(_, _) => RecordsComeFromInside(v, depth);
      case _ =>
    }
  }

  /** The values that no world changes are those in normal form. */
  lemma FixedExactlyWhen(v: Value, depth: nat)
    ensures (forall w: World :: Safe(w, v, depth) == v) <==> Normal(v, depth)
  {
    if Normal(v, depth) {
      forall w: World ensures Safe(w, v, depth) == v {
        NormalIsFixed(w, v, depth);
      }
    } else {
      if Safe(Nulls(), v, depth) == v {
        FixedIsNormal(v, depth);
      }
      assert Safe(Nulls(), v, depth) != v;
    }
  }

  /** When normalising a result again, at any depth and in any later world, changes
      nothing. */
  lemma NormalisingTwice(w: World, v: Value, depth: nat, again: nat)
    ensures (forall w': World :: Safe(w', Safe(w, v, depth), again) == Safe(w, v, depth)) <==>
            Plain(w, v, depth, Some(again))
  {
    SafeIsJsonExactlyWhen(w, v, depth, Some(again));
    FixedExactlyWhen(Safe(w, v, depth), again);
  }

  /** A raw payload shows why the enumerations matter: neither JSON nor fixed. */
  lemma RawPayloadIsNotFixed(w: World, iso: Short)
    ensures var r := Safe(w, Enum(Date(iso)), 0); !IsJson(r) && Safe(w, r, 0) != r
  {
  }

  /** Further down a normal form need not be kept: the depth limit cuts it off. */
  lemma DeeperMayCut(w: World)
    ensures Normal(List([]), MAX_DEPTH) && Safe(w, List([]), MAX_DEPTH + 1).Str?
  {
  }

  /** Keys are never cut, however long. */
  lemma KeysAreNotCut(w: World, key: string, v: Value)
    ensures Safe(w, Dict([Item(Str(key), v)]), 0) == Dict([Item(Str(key), Safe(w, v, 1))])
  {
    var e := Item(Str(key), v);
    assert [e][..0] == [] && SafeEntries(w, [], 1) == [];
    assert SafeEntries(w, [e], 1) == Put([], key, Safe(w, v, 1));
  }

  // ----- cycles -----

  function Wrapped(n: nat, core: Value): Value {
    if n == 0 then core else List([Wrapped(n - 1, core)])
  }

  /** A list that contains itself becomes as many lists as the depth allows, around its
      own text. */
  lemma {:induction false} CyclicListIsCutOff(w: World, r: nat, depth: nat)
    requires w.heap(r) == List([Ref(r)])
    ensures Safe(w, Ref(r), depth) == Wrapped(if depth > 32 then 0 else 33 - depth, Str(Cut(w.texts(Ref(r)))))
    decreases Left(depth)
  {
    if depth <= MAX_DEPTH {
      CyclicListIsCutOff(w, r, depth + 1);
      assert [Ref(r)][..0] == [] && SafeAll(w, [], depth + 1) == [];
      assert SafeAll(w, [Ref(r)], depth + 1) == [Safe(w, Ref(r), depth + 1)];
    }
  }

  // ----- the top level -----

  /** safe_json_payload: always a map; anything else goes under "value". */
  method SafeJsonPayload(w: World, payload: Value) returns (r: Value)
    ensures var normalized := Safe(w, payload, 0);
            r == if normalized.Dict? then normalized else Dict([Item(Str("value"), normalized)])
    ensures IsJson(r) <==> Plain(w, payload, 0, None)
    ensures Deref(w, payload).Dict? ==> r == Safe(w, payload, 0)
  {
    var normalized := SafeJsonValue(w, payload, 0);
    SafeIsJsonExactlyWhen(w, payload, 0, None);
    if normalized.Dict? {
      return normalized;
    }
    r := Dict([Item(Str("value"), normalized)]);
    assert StringKeys(r.entries) by { assert r.entries[1..] == []; }
    assert r.entries[0].value == normalized;
  }
}
