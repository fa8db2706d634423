/** The reactive `Dictionary`: a plain object of values, an insertion-ordered
    key array and a size counter, all notified through one source under
    the key itself, `'_size'`, `'_keys'` and `'_data'`. */
module Dictionaries {
  import opened Values
  import opened Arrays

  /** `_data`, `_keys` and `_size`. A key of `data` may hold `undefined`
      explicitly; a key that is not in `data` has no own property. */
  datatype Dict = Dict(data: map<string, Value>, keys: seq<string>, size: int)

  type DictOutcome = Outcome<Dict, Key>

  /** `new Dictionary()`: no data, no keys, a zero count. */
  function EmptyDict(): (d: Dict)
    ensures Valid(d)
    ensures d.data == map[] && d.keys == [] && d.size == 0
  {
    Dict(map[], [], 0)
  }

  /** The keys `set` refuses: the three bookkeeping names and the method
      the dictionary calls on its data. */
  predicate IsReserved(k: string): (r: bool)
    ensures r <==> Name(k) in {SizeKey, KeysKey, DataKey} || k == "hasOwnProperty"
  {
    k == "_size" || k == "_keys" || k == "_data" || k == "hasOwnProperty"
  }

  /** `data[key]`: `undefined` when there is no own property. */
  function Lookup(d: Dict, k: string): Value {
    if k in d.data then d.data[k] else Undefined
  }

  /** The counter counts the keys, the key array has no repeats, and it
      lists exactly the own properties of the data. */
  ghost predicate Valid(d: Dict) {
    && d.size == |d.keys|
    && Distinct(d.keys)
    && (forall k :: k in d.keys <==> k in d.data)
  }

  /** `get(key)`: pulls the key and returns its value. */
  function Get(d: Dict, k: string): (r: (Key, Value))
    ensures r.0 == Name(k)
    ensures k !in d.data ==> r.1 == Undefined
    ensures k in d.data ==> r.1 == d.data[k]
  {
    (Name(k), Lookup(d, k))
  }

  /** `size()`, `keys()` and `data()`: each pulls its own name. */
  function SizeOf(d: Dict): (r: (Key, int))
    ensures r.0 == SizeKey && (Valid(d) ==> r.1 == |d.keys|)
  {
    (SizeKey, d.size)
  }

  function KeysOf(d: Dict): (r: (Key, seq<string>))
    ensures r.0 == KeysKey && r.1 == d.keys
    ensures Valid(d) ==> forall k :: k in r.1 <==> k in d.data
  {
    (KeysKey, d.keys)
  }

  /** `set(key, v)`. A reserved key throws before anything changes. A key
      that is not an own property is counted and appended to the key
      array first, pushing `'_size'` and `'_keys'`. Then, when `v` differs
      (`!==`) from the current value, it is stored and the key and
      `'_data'` are pushed. For a new key with `v` undefined the current
      value is already undefined, so it is counted but never stored. */
  function Set(d: Dict, k: string, v: Value): (o: DictOutcome)
    ensures o.error.Some? <==> IsReserved(k)
    ensures o.error.Some? ==> o == Outcome(d, [], Some(ReservedKey))
    ensures !IsReserved(k) ==> Lookup(o.state, k) == v
    ensures !IsReserved(k) ==> o.state.data == (if Lookup(d, k) != v then d.data[k := v] else d.data)
    ensures forall k' :: k' != k ==> Lookup(o.state, k') == Lookup(d, k')
    ensures !IsReserved(k) && k in d.data && d.data[k] == v ==> o == Outcome(d, [], None)
    ensures !IsReserved(k) ==>
      o.log == (if k in d.data then [] else [SizeKey, KeysKey]) + (if Lookup(d, k) != v then [Name(k), DataKey] else [])
    ensures !IsReserved(k) && k !in d.data ==> o.state.keys == d.keys + [k] && o.state.size == d.size + 1
    ensures !IsReserved(k) && k in d.data ==> o.state.keys == d.keys && o.state.size == d.size
    ensures Valid(d) && !IsReserved(k) && (v != Undefined || k in d.data) ==> Valid(o.state)
  {
    if IsReserved(k) then Outcome(d, [], Some(ReservedKey))
    else
      var d1 := if k in d.data then d else d.(size := d.size + 1, keys := d.keys + [k]);
      var log1 := if k in d.data then [] else [SizeKey, KeysKey];
      if Lookup(d, k) != v then
        Outcome(d1.(data := d1.data[k := v]), log1 + [Name(k), DataKey], None)
      else Outcome(d1, log1, None)
  }

  /** `del(key)`: for an own property, uncounts it, removes it from the
      key array and the data, and pushes `'_size'`, `'_keys'`, the key and
      `'_data'`; otherwise nothing happens. */
  function Del(d: Dict, k: string): (o: DictOutcome)
    ensures o.error.None?
    ensures k !in d.data ==> o == Outcome(d, [], None)
    ensures k in d.data ==> o.log == [SizeKey, KeysKey, Name(k), DataKey]
    ensures k in d.data ==> o.state.keys == RemoveFromArray(d.keys, k) && o.state.size == d.size - 1
    ensures k in d.data ==> o.state.data == d.data - {k}
    ensures k !in o.state.data && Lookup(o.state, k) == Undefined
    ensures forall k' :: k' != k ==> Lookup(o.state, k') == Lookup(d, k')
    ensures Valid(d) ==> Valid(o.state)
  {
    if k in d.data then
      RemoveKeepsDistinct(d.keys, k);
      Outcome(Dict(d.data - {k}, RemoveFromArray(d.keys, k), d.size - 1),
              [SizeKey, KeysKey, Name(k), DataKey], None)
    else Outcome(d, [], None)
  }

  /** The loop of `extend`: `set` for each own property in order; the
      first reserved key throws out of the loop, keeping what was set
      before. */
  function ExtendEach(d: Dict, obj: Object): (o: DictOutcome)
    ensures o.error.Some? <==> exists i :: 0 <= i < |obj| && IsReserved(obj[i].0)
    ensures o.error.Some? ==> o.error == Some(ReservedKey)
    ensures Valid(d) && (forall i :: 0 <= i < |obj| ==> obj[i].1 != Undefined) ==> Valid(o.state)
    decreases |obj|
  {
    if |obj| == 0 then Outcome(d, [], None)
    else
      var o := Set(d, obj[0].0, obj[0].1);
      if o.error.Some? then o
      else
        var rest := ExtendEach(o.state, obj[1..]);
        assert forall i :: 1 <= i < |obj| ==> obj[i] == obj[1..][i - 1];
        assert forall i :: 0 <= i < |obj[1..]| ==> obj[1..][i] == obj[i + 1];
        Outcome(rest.state, o.log + rest.log, rest.error)
  }

  /** `extend(obj)`: `eachInObject` over `obj`. An own `hasOwnProperty`
      makes its first `obj.hasOwnProperty(key)` call throw a TypeError
      before anything is set; otherwise the first reserved key throws
      `ReservedKey` out of the loop, keeping what was set before. */
  function Extend(d: Dict, obj: Object): (o: DictOutcome)
    ensures ShadowsHasOwnProperty(obj) ==> o == Outcome(d, [], Some(TypeError))
    ensures !ShadowsHasOwnProperty(obj) ==>
      (o.error.Some? <==> exists i :: 0 <= i < |obj| && IsReserved(obj[i].0))
    ensures !ShadowsHasOwnProperty(obj) && o.error.Some? ==> o.error == Some(ReservedKey)
    ensures Valid(d) && (forall i :: 0 <= i < |obj| ==> obj[i].1 != Undefined) ==> Valid(o.state)
    ensures !ShadowsHasOwnProperty(obj) ==> o == ExtendEach(d, obj)
  {
    if ShadowsHasOwnProperty(obj) then Outcome(d, [], Some(TypeError))
    else ExtendEach(d, obj)
  }

  /** The loop over one pair is one `set`. */
  lemma ExtendEachOne(d: Dict, k: string, v: Value)
    ensures ExtendEach(d, [(k, v)]) == Set(d, k, v)
  {
    var o := Set(d, k, v);
    if o.error.None? {
      assert [(k, v)][1..] == [];
      assert o.log + [] == o.log;
    }
  }

  /** The loop over `a + b` runs over `a`, then, unless that threw, over
      `b` from where it stopped: the notifications are those of `a`
      followed by those of `b`. With `ExtendEachOne`, `extend` is the
      sequence of `set`s over its pairs in order, stopping at the first
      that throws. */
  lemma {:induction false} ExtendEachAppend(d: Dict, a: Object, b: Object)
    ensures var oa := ExtendEach(d, a);
      ExtendEach(d, a + b) ==
        if oa.error.Some? then oa
        else var ob := ExtendEach(oa.state, b); Outcome(ob.state, oa.log + ob.log, ob.error)
    decreases |a|
  {
    if |a| == 0 {
      assert a + b == b;
    } else {
      assert (a + b)[0] == a[0];
      assert (a + b)[1..] == a[1..] + b;
      var o := Set(d, a[0].0, a[0].1);
      if o.error.None? {
        ExtendEachAppend(o.state, a[1..], b);
        var oa' := ExtendEach(o.state, a[1..]);
        if oa'.error.None? {
          var ob := ExtendEach(oa'.state, b);
          assert o.log + (oa'.log + ob.log) == (o.log + oa'.log) + ob.log;
        }
      }
    }
  }

  function DataOf(d: Dict): (r: (Key, map<string, Value>))
    ensures r.0 == DataKey && forall k :: Get(d, k).1 == (if k in r.1 then r.1[k] else Undefined)
  {
    (DataKey, d.data)
  }

  /** The value a sequence of assignments leaves under `k`: that of the
      last pair for `k`, or `dflt` when there is none. */
  function LastValue(obj: Object, k: string, dflt: Value): Value
    decreases |obj|
  {
    if |obj| == 0 then dflt
    else if obj[|obj| - 1].0 == k then obj[|obj| - 1].1
    else LastValue(obj[..|obj| - 1], k, dflt)
  }

  lemma {:induction false} LastValueFront(obj: Object, k: string, dflt: Value)
    requires |obj| > 0
    ensures LastValue(obj, k, dflt) == LastValue(obj[1..], k, if obj[0].0 == k then obj[0].1 else dflt)
    decreases |obj|
  {
    if |obj| > 1 {
      var init := obj[..|obj| - 1];
      assert init[1..] == obj[1..][..|obj[1..]| - 1];
      assert init[0] == obj[0];
      LastValueFront(init, k, dflt);
    }
  }

  /** Without reserved keys, `extend` leaves every key with the value of
      its last assignment, and every other key as it was. */
  lemma ExtendLookup(d: Dict, obj: Object, k: string)
    requires forall i :: 0 <= i < |obj| ==> !IsReserved(obj[i].0)
    ensures Lookup(Extend(d, obj).state, k) == LastValue(obj, k, Lookup(d, k))
  {
    ExtendEachLookup(d, obj, k);
  }

  lemma {:induction false} ExtendEachLookup(d: Dict, obj: Object, k: string)
    requires forall i :: 0 <= i < |obj| ==> !IsReserved(obj[i].0)
    ensures Lookup(ExtendEach(d, obj).state, k) == LastValue(obj, k, Lookup(d, k))
    decreases |obj|
  {
    if |obj| > 0 {
      var o := Set(d, obj[0].0, obj[0].1);
      assert forall i :: 0 <= i < |obj[1..]| ==> obj[1..][i] == obj[i + 1];
      ExtendEachLookup(o.state, obj[1..], k);
      LastValueFront(obj, k, Lookup(d, k));
    }
  }

  /** Setting a new key to a defined value and deleting it again restores
      the dictionary exactly. */
  lemma SetThenDel(d: Dict, k: string, v: Value)
    requires Valid(d) && k !in d.data && !IsReserved(k) && v != Undefined
    ensures Del(Set(d, k, v).state, k).state == d
  {
    assert k !in d.keys;
    var keys := d.keys + [k];
    assert IndexInArray(keys, k) == |d.keys|;
    assert keys[..|d.keys|] == d.keys;
    assert (d.data[k := v]) - {k} == d.data;
  }

  /** `set(k, undefined)` twice on a new key: the key is counted and listed
      twice, and never stored, so the counter and the key array no longer
      describe the data. */
  lemma SetUndefinedTwice(k: string)
    requires !IsReserved(k)
    ensures var d := Set(Set(EmptyDict(), k, Undefined).state, k, Undefined).state;
      d == Dict(map[], [k, k], 2) && !Valid(d)
  {
    var d := Set(Set(EmptyDict(), k, Undefined).state, k, Undefined).state;
    assert d.keys[0] == d.keys[1];
  }
}
