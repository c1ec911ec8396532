/** Package mapsort: sorting the pairs of a map whose keys (or values) are of one primitive
    kind, known only when the program runs. `KeySort.Less` looks only at keys and
    `ValSort.Less` only at values; neither fails fast on mixed kinds. */
module MapSort {
  import opened Lex
  import opened Sorting

  type int8 = x: int | -0x80 <= x < 0x80
  type int16 = x: int | -0x8000 <= x < 0x8000
  type int32 = x: int | -0x8000_0000 <= x < 0x8000_0000
  type int64 = x: int | -0x8000_0000_0000_0000 <= x < 0x8000_0000_0000_0000
  type uint8 = x: int | 0 <= x < 0x100
  type uint16 = x: int | 0 <= x < 0x1_0000
  type uint32 = x: int | 0 <= x < 0x1_0000_0000
  type uint64 = x: int | 0 <= x < 0x1_0000_0000_0000_0000

  /** A dynamically typed `interface{}` key or value. Every kind the type switch names has a
      constructor; `Other` stands for any other dynamic type (`uint`, `bool`, a struct, ...). */
  datatype Value =
    | Int(ival: int64)
    | Int8(i8: int8)
    | Int16(i16: int16)
    | Int32(i32: int32)
    | Int64(i64: int64)
    | Uint8(u8: uint8)
    | Uint16(u16: uint16)
    | Uint32(u32: uint32)
    | Uint64(u64: uint64)
    | Float32(f32: real)
    | Float64(f64: real)
    | Str(s: string)
    | Other(typeName: string)

  datatype Kind =
    | IntKind | Int8Kind | Int16Kind | Int32Kind | Int64Kind
    | Uint8Kind | Uint16Kind | Uint32Kind | Uint64Kind
    | Float32Kind | Float64Kind | StringKind | OtherKind(name: string)

  /** The dynamic type of a value, as `v.(type)` reports it. */
  function KindOf(v: Value): Kind
  {
    match v
    case Int(_) => IntKind
    case Int8(_) => Int8Kind
    case Int16(_) => Int16Kind
    case Int32(_) => Int32Kind
    case Int64(_) => Int64Kind
    case Uint8(_) => Uint8Kind
    case Uint16(_) => Uint16Kind
    case Uint32(_) => Uint32Kind
    case Uint64(_) => Uint64Kind
    case Float32(_) => Float32Kind
    case Float64(_) => Float64Kind
    case Str(_) => StringKind
    case Other(t) => OtherKind(t)
  }

  predicate Supported(v: Value)
  {
    !v.Other?
  }

  predicate IsFloat(v: Value)
  {
    v.Float32? || v.Float64?
  }

  /** The number an integer value stands for. */
  function IntOf(v: Value): int
    requires Supported(v) && !IsFloat(v) && !v.Str?
  {
    match v
    case Int(x) => x
    case Int8(x) => x
    case Int16(x) => x
    case Int32(x) => x
    case Int64(x) => x
    case Uint8(x) => x
    case Uint16(x) => x
    case Uint32(x) => x
    case Uint64(x) => x
  }

  function RealOf(v: Value): real
    requires IsFloat(v)
  {
    if v.Float32? then v.f32 else v.f64
  }

  /** `a` and `b` have one supported kind and `a` comes first in that kind's natural order:
      numbers by value, strings as Go's `<` orders them. */
  predicate NaturalLess(a: Value, b: Value)
  {
    if !Supported(a) || KindOf(a) != KindOf(b) then false
    else if a.Str? then LexLess(a.s, b.s)
    else if IsFloat(a) then RealOf(a) < RealOf(b)
    else IntOf(a) < IntOf(b)
  }

  /** The body of `Less(i, j)` with `s[i]`'s field `a` and `s[j]`'s field `b`: switch on `a`'s
      dynamic type; compare when `b` has the same type; otherwise fall out of the switch and
      return false. A type outside the switch panics. */
  function Compare(a: Value, b: Value): (r: Outcome)
    ensures r == Panic <==> !Supported(a)
    ensures Supported(a) && KindOf(a) == KindOf(b) ==> r == Ok(NaturalLess(a, b))
    ensures Supported(a) && KindOf(a) != KindOf(b) ==> r == Ok(false)
  {
    match a
    case Int(x) => if b.Int? then Ok(x < b.ival) else Ok(false)
    case Float32(x) => if b.Float32? then Ok(x < b.f32) else Ok(false)
    case Float64(x) => if b.Float64? then Ok(x < b.f64) else Ok(false)
    case Uint8(x) => if b.Uint8? then Ok(x < b.u8) else Ok(false)
    case Uint16(x) => if b.Uint16? then Ok(x < b.u16) else Ok(false)
    case Uint32(x) => if b.Uint32? then Ok(x < b.u32) else Ok(false)
    case Uint64(x) => if b.Uint64? then Ok(x < b.u64) else Ok(false)
    case Int8(x) => if b.Int8? then Ok(x < b.i8) else Ok(false)
    case Int16(x) => if b.Int16? then Ok(x < b.i16) else Ok(false)
    case Int32(x) => if b.Int32? then Ok(x < b.i32) else Ok(false)
    case Int64(x) => if b.Int64? then Ok(x < b.i64) else Ok(false)
    case Str(x) => if b.Str? then Ok(LexLess(x, b.s)) else Ok(false)
    case Other(_) => Panic
  }

  /** One key/value pair of the map being sorted. */
  datatype Entry = Entry(key: Value, val: Value)

  /** `KeySort.Less` as the comparator `sort.Sort` applies to two elements. */
  function KeyCompare(x: Entry, y: Entry): Outcome
  {
    Compare(x.key, y.key)
  }

  /** `ValSort.Less` as the comparator `sort.Sort` applies to two elements. */
  function ValCompare(x: Entry, y: Entry): Outcome
  {
    Compare(x.val, y.val)
  }

  /** `KeySort.Less(i, j)`: decided by the two keys alone. */
  function KeyLess(s: seq<Entry>, i: int, j: int): (r: Outcome)
    requires 0 <= i < |s| && 0 <= j < |s|
    ensures r == Panic <==> !Supported(s[i].key)
    ensures Supported(s[i].key) && KindOf(s[i].key) == KindOf(s[j].key) ==>
              r == Ok(NaturalLess(s[i].key, s[j].key))
    ensures Supported(s[i].key) && KindOf(s[i].key) != KindOf(s[j].key) ==> r == Ok(false)
  {
    KeyCompare(s[i], s[j])
  }

  /** `ValSort.Less(i, j)`: decided by the two values alone. */
  function ValLess(s: seq<Entry>, i: int, j: int): (r: Outcome)
    requires 0 <= i < |s| && 0 <= j < |s|
    ensures r == Panic <==> !Supported(s[i].val)
    ensures Supported(s[i].val) && KindOf(s[i].val) == KindOf(s[j].val) ==>
              r == Ok(NaturalLess(s[i].val, s[j].val))
    ensures Supported(s[i].val) && KindOf(s[i].val) != KindOf(s[j].val) ==> r == Ok(false)
  {
    ValCompare(s[i], s[j])
  }

  /** `KeySort.Less` never reads `Val`, and `ValSort.Less` never reads `Key`. */
  lemma LessIgnoresOtherField(s: seq<Entry>, t: seq<Entry>, i: int, j: int)
    requires 0 <= i < |s| == |t| && 0 <= j < |s|
    ensures s[i].key == t[i].key && s[j].key == t[j].key ==> KeyLess(s, i, j) == KeyLess(t, i, j)
    ensures s[i].val == t[i].val && s[j].val == t[j].val ==> ValLess(s, i, j) == ValLess(t, i, j)
  {
  }

  /** Within one supported kind the natural order is a strict total order. */
  lemma NaturalLessStrictTotal(a: Value, b: Value, c: Value)
    requires Supported(a) && KindOf(a) == KindOf(b) == KindOf(c)
    ensures !NaturalLess(a, a)
    ensures NaturalLess(a, b) ==> !NaturalLess(b, a)
    ensures NaturalLess(a, b) && NaturalLess(b, c) ==> NaturalLess(a, c)
    ensures a == b || NaturalLess(a, b) || NaturalLess(b, a)
  {
    if a.Str? {
      LexLessIrreflexive(a.s);
      if LexLess(a.s, b.s) {
        LexLessAsymmetric(a.s, b.s);
        if LexLess(b.s, c.s) {
          LexLessTransitive(a.s, b.s, c.s);
        }
      }
      LexLessTotal(a.s, b.s);
    }
  }

  /** All values in `vs` have one supported kind. */
  ghost predicate OneKind(vs: set<Value>)
  {
    forall a, b | a in vs && b in vs :: Supported(a) && KindOf(a) == KindOf(b)
  }

  ghost function Keys(es: seq<Entry>): set<Value>
  {
    set e | e in es :: e.key
  }

  ghost function Vals(es: seq<Entry>): set<Value>
  {
    set e | e in es :: e.val
  }

  /** On entries whose keys share one supported kind, `KeySort.Less` is a strict weak order
      and never panics. */
  lemma {:induction false} KeyCompareOrders(es: seq<Entry>)
    requires OneKind(Keys(es))
    ensures StrictWeakOrderOn(KeyCompare, es)
  {
    forall x, y, z | x in es && y in es && z in es
      ensures KeyCompare(x, y).Ok?
      ensures Less(KeyCompare, x, y) ==> !Less(KeyCompare, y, x)
      ensures !Less(KeyCompare, y, x) && !Less(KeyCompare, z, y) ==> !Less(KeyCompare, z, x)
    {
      assert x.key in Keys(es) && y.key in Keys(es) && z.key in Keys(es);
      NaturalLessStrictTotal(x.key, y.key, z.key);
      NaturalLessStrictTotal(y.key, z.key, x.key);
      NaturalLessStrictTotal(x.key, z.key, y.key);
    }
  }

  lemma {:induction false} ValCompareOrders(es: seq<Entry>)
    requires OneKind(Vals(es))
    ensures StrictWeakOrderOn(ValCompare, es)
  {
    forall x, y, z | x in es && y in es && z in es
      ensures ValCompare(x, y).Ok?
      ensures Less(ValCompare, x, y) ==> !Less(ValCompare, y, x)
      ensures !Less(ValCompare, y, x) && !Less(ValCompare, z, y) ==> !Less(ValCompare, z, x)
    {
      assert x.val in Vals(es) && y.val in Vals(es) && z.val in Vals(es);
      NaturalLessStrictTotal(x.val, y.val, z.val);
      NaturalLessStrictTotal(y.val, z.val, x.val);
      NaturalLessStrictTotal(x.val, z.val, y.val);
    }
  }

  /** The pairs of `m`, one entry each. */
  ghost function EntrySet(m: map<Value, Value>): set<Entry>
  {
    set k | k in m :: Entry(k, m[k])
  }

  /** `for k, v := range m { es = append(es, Entry{Key: k, Val: v}) }`: one entry per pair of
      `m`, in whatever order the range visits them. */
  method Collect(m: map<Value, Value>) returns (es: seq<Entry>)
    ensures multiset(es) == multiset(EntrySet(m))
  {
    es := [];
    var rest := m.Keys;
    while rest != {}
      invariant rest <= m.Keys
      invariant multiset(es) == multiset(set j | j in m && j !in rest :: Entry(j, m[j]))
      decreases rest
    {
      var k :| k in rest;
      ghost var done := set j | j in m && j !in rest :: Entry(j, m[j]);
      es := es + [Entry(k, m[k])];
      rest := rest - {k};
      assert (set j | j in m && j !in rest :: Entry(j, m[j])) == done + {Entry(k, m[k])};
      assert Entry(k, m[k]) !in done;
    }
    assert (set j | j in m && j !in rest :: Entry(j, m[j])) == EntrySet(m);
  }

  /** What `MapSort` returns, or that it panicked inside `sort.Sort`. */
  datatype Sorted = Done(entries: seq<Entry>) | Panicked

  lemma EntryOfMap(m: map<Value, Value>, es: seq<Entry>, e: Entry)
    requires multiset(es) == multiset(EntrySet(m)) && e in es
    ensures e.key in m && m[e.key] == e.val
  {
    assert e in multiset(es);
  }

  /** `KeySort.MapSort(m)` (the receiver plays no part): the pairs of `m`, sorted by key. */
  method KeySortMapSort(m: map<Value, Value>) returns (r: Sorted)
    ensures r.Panicked? ==> exists k :: k in m && !Supported(k)
    ensures (forall k | k in m :: Supported(k)) ==> r.Done?
    ensures r.Done? ==> multiset(r.entries) == multiset(EntrySet(m))
    ensures r.Done? && OneKind(m.Keys) ==>
              forall p, q | 0 <= p < q < |r.entries| :: NaturalLess(r.entries[p].key, r.entries[q].key)
  {
    var es := Collect(m);
    var ok, sorted := SortSlice(es, KeyCompare);
    if !ok {
      var x, y :| x in es && y in es && KeyCompare(x, y) == Panic;
      EntryOfMap(m, es, x);
      return Panicked;
    }
    r := Done(sorted);
    if OneKind(m.Keys) {
      forall e | e in es
        ensures e.key in m
      {
        EntryOfMap(m, es, e);
      }
      KeyCompareOrders(es);
      forall p, q | 0 <= p < q < |sorted|
        ensures NaturalLess(sorted[p].key, sorted[q].key)
      {
        NoRepeats(sorted, EntrySet(m), p, q);
        assert sorted[p] in multiset(sorted) && sorted[q] in multiset(sorted);
        EntryOfMap(m, sorted, sorted[p]);
        EntryOfMap(m, sorted, sorted[q]);
        NaturalLessStrictTotal(sorted[p].key, sorted[q].key, sorted[q].key);
      }
    }
  }

  /** `ValSort.MapSort(m)` (the receiver plays no part): the pairs of `m`, in non-decreasing
      order of value. */
  method ValSortMapSort(m: map<Value, Value>) returns (r: Sorted)
    ensures r.Panicked? ==> exists k :: k in m && !Supported(m[k])
    ensures (forall k | k in m :: Supported(m[k])) ==> r.Done?
    ensures r.Done? ==> multiset(r.entries) == multiset(EntrySet(m))
    ensures r.Done? && OneKind(m.Values) ==>
              forall p, q | 0 <= p < q < |r.entries| :: !NaturalLess(r.entries[q].val, r.entries[p].val)
  {
    var es := Collect(m);
    var ok, sorted := SortSlice(es, ValCompare);
    if !ok {
      var x, y :| x in es && y in es && ValCompare(x, y) == Panic;
      EntryOfMap(m, es, x);
      return Panicked;
    }
    r := Done(sorted);
    if OneKind(m.Values) {
      forall e | e in es
        ensures e.val in m.Values
      {
        EntryOfMap(m, es, e);
      }
      ValCompareOrders(es);
      forall p, q | 0 <= p < q < |sorted|
        ensures !NaturalLess(sorted[q].val, sorted[p].val)
      {
        assert sorted[p] in multiset(sorted) && sorted[q] in multiset(sorted);
        EntryOfMap(m, sorted, sorted[p]);
        EntryOfMap(m, sorted, sorted[q]);
      }
    }
  }
}
