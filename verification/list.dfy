/** The reactive `List`: an array of `ListValue` holders, each with its own
    source, `_index` and `_value`. Every mutation goes through `splice`,
    which delegates to the array's own `splice`, reindexes the tail with
    `_pushIndices` and pushes `'_data'`.

    Operations are pure: each returns the list as far as it got, the
    properties it pushed in order, and the error it threw. A holder's
    source is named by the holder's `uid`. */
module Lists {
  import opened Values
  import opened Arrays

  /** A `ListValue`. */
  datatype Holder = Holder(uid: nat, index: int, value: Value)

  /** `_data`; `extra` holds what `set` writes at a negative index, which
      becomes a plain property of the array and not an element; `nextUid`
      names the source of the next holder created. */
  datatype List = List(data: seq<Holder>, extra: map<int, Value>, nextUid: nat)

  /** A property of the list's own source, or of one holder's source. */
  datatype Prop = OfList(key: Key) | OfHolder(uid: nat, hkey: Key)

  type ListOutcome = Outcome<List, Prop>

  const Int32Min: int := -0x8000_0000
  const Int32Max: int := 0x7fff_ffff

  predicate IsInt32(i: int) {
    Int32Min <= i <= Int32Max
  }

  /** JavaScript `~i` on a 32-bit integer. */
  function BitNot(i: int): (r: int)
    requires IsInt32(i)
    ensures IsInt32(r)
    ensures i >= 0 <==> r < 0
  {
    -i - 1
  }

  function ValuesOf(data: seq<Holder>): (vs: seq<Value>)
    ensures |vs| == |data|
    ensures forall i :: 0 <= i < |data| ==> vs[i] == data[i].value
  {
    seq(|data|, i requires 0 <= i < |data| => data[i].value)
  }

  /** The holders' identities, in order. */
  function UidsOf(data: seq<Holder>): (us: seq<nat>)
    ensures |us| == |data|
    ensures forall i :: 0 <= i < |data| ==> us[i] == data[i].uid
  {
    seq(|data|, i requires 0 <= i < |data| => data[i].uid)
  }

  /** The identities of `n` holders created from `u` on. */
  function NewUids(u: nat, n: nat): (us: seq<nat>)
    ensures |us| == n
    ensures forall k :: 0 <= k < n ==> us[k] == u + k
  {
    seq(n, k requires 0 <= k < n => u + k)
  }

  /** Every holder's `_index` is its position. */
  predicate Indexed(data: seq<Holder>) {
    forall i :: 0 <= i < |data| ==> data[i].index == i
  }

  /** Holders are distinct objects, each created before `nextUid`. */
  predicate Fresh(data: seq<Holder>, nextUid: nat) {
    && (forall i :: 0 <= i < |data| ==> data[i].uid < nextUid)
    && (forall i, j :: 0 <= i < j < |data| ==> data[i].uid != data[j].uid)
  }

  predicate Valid(l: List) {
    Indexed(l.data) && Fresh(l.data, l.nextUid)
  }

  /** The positions pushed on the list's own source, in order. */
  function Positions(log: seq<Prop>): seq<int> {
    if |log| == 0 then []
    else
      var rest := Positions(log[1..]);
      if log[0].OfList? && log[0].key.Pos? then [log[0].key.i] + rest else rest
  }

  /** Exactly the positions pushed on the list appear. */
  lemma {:induction false} PositionsMembers(log: seq<Prop>)
    ensures forall j :: j in Positions(log) <==> OfList(Pos(j)) in log
  {
    if |log| > 0 {
      PositionsMembers(log[1..]);
      assert forall x :: x in log <==> x == log[0] || x in log[1..];
    }
  }

  lemma {:induction false} PositionsAppend(a: seq<Prop>, b: seq<Prop>)
    ensures Positions(a + b) == Positions(a) + Positions(b)
  {
    if |a| == 0 {
      assert a + b == b;
    } else {
      assert (a + b)[0] == a[0];
      assert (a + b)[1..] == a[1..] + b;
      PositionsAppend(a[1..], b);
    }
  }

  /** `a, a + 1, …, b - 1`. */
  function Range(a: int, b: int): (r: seq<int>)
    ensures |r| == if a <= b then b - a else 0
    ensures forall k :: 0 <= k < |r| ==> r[k] == a + k
    decreases b - a
  {
    if a >= b then [] else [a] + Range(a + 1, b)
  }

  // ---------------------------------------------------------------------
  // Reindexing

  /** The loop of `_pushIndices` from position `i` on: each holder gets its
      position as `_index` (pushing the holder's `'_index'` only when that
      changes it, as `makeProperty` does), then the position is pushed on
      the list. */
  function Reindex(data: seq<Holder>, i: nat): (r: (seq<Holder>, seq<Prop>))
    requires i <= |data|
    ensures |r.0| == |data|
    decreases |data| - i
  {
    if i == |data| then (data, [])
    else
      var h := data[i];
      var pre := if h.index != i then [OfHolder(h.uid, IndexKey)] else [];
      var rest := Reindex(data[i := h.(index := i)], i + 1);
      (rest.0, pre + [OfList(Pos(i))] + rest.1)
  }

  /** The reindex keeps every holder and its value, leaves the holders
      before `i` alone, and sets every later `_index` to its position. */
  lemma {:induction false} ReindexData(data: seq<Holder>, i: nat)
    requires i <= |data|
    ensures var r := Reindex(data, i).0;
      && (forall j :: 0 <= j < |data| ==> r[j].uid == data[j].uid && r[j].value == data[j].value)
      && (forall j :: 0 <= j < i ==> r[j] == data[j])
      && (forall j :: i <= j < |data| ==> r[j].index == j)
    decreases |data| - i
  {
    if i < |data| {
      ReindexData(data[i := data[i].(index := i)], i + 1);
    }
  }

  /** One step of the reindex log: an optional holder push, then one
      position. */
  lemma PositionsStep(moved: bool, u: nat, i: int, rest: seq<Prop>)
    ensures var pre := if moved then [OfHolder(u, IndexKey)] else [];
      Positions(pre + [OfList(Pos(i))] + rest) == [i] + Positions(rest)
  {
    var pre := if moved then [OfHolder(u, IndexKey)] else [];
    PositionsAppend(pre + [OfList(Pos(i))], rest);
    PositionsAppend(pre, [OfList(Pos(i))]);
  }

  /** The reindex pushes the positions from `i` to the end, in order. */
  lemma {:induction false} ReindexPositions(data: seq<Holder>, i: nat)
    requires i <= |data|
    ensures Positions(Reindex(data, i).1) == Range(i, |data|)
    decreases |data| - i
  {
    if i < |data| {
      var h := data[i];
      var pre := if h.index != i then [OfHolder(h.uid, IndexKey)] else [];
      var rest := Reindex(data[i := h.(index := i)], i + 1);
      assert Reindex(data, i).1 == pre + [OfList(Pos(i))] + rest.1;
      PositionsStep(h.index != i, h.uid, i, rest.1);
      ReindexPositions(data[i := h.(index := i)], i + 1);
    }
  }

  /** Besides positions, the reindex pushes only holders' `'_index'`. */
  lemma {:induction false} ReindexLogKinds(data: seq<Holder>, i: nat)
    requires i <= |data|
    ensures forall x :: x in Reindex(data, i).1 ==> (x.OfList? && x.key.Pos?) || (x.OfHolder? && x.hkey == IndexKey)
    decreases |data| - i
  {
    if i < |data| {
      var h := data[i];
      var pre := if h.index != i then [OfHolder(h.uid, IndexKey)] else [];
      var rest := Reindex(data[i := h.(index := i)], i + 1);
      var log := pre + [OfList(Pos(i))] + rest.1;
      assert Reindex(data, i).1 == log;
      ReindexLogKinds(data[i := h.(index := i)], i + 1);
      assert forall x :: x in log ==> x in pre || x == OfList(Pos(i)) || x in rest.1;
    }
  }

  /** A holder's `'_index'` is pushed exactly when the reindex moves it. */
  lemma {:induction false} ReindexNotifiesMoved(data: seq<Holder>, i: nat)
    requires i <= |data|
    ensures var log := Reindex(data, i).1;
      && (forall j :: i <= j < |data| && data[j].index != j ==> OfHolder(data[j].uid, IndexKey) in log)
      && (forall u :: OfHolder(u, IndexKey) in log ==>
            exists j :: i <= j < |data| && data[j].uid == u && data[j].index != j)
    decreases |data| - i
  {
    if i < |data| {
      var h := data[i];
      var data' := data[i := h.(index := i)];
      var rest := Reindex(data', i + 1);
      ReindexNotifiesMoved(data', i + 1);
      assert forall j :: i < j < |data| ==> data'[j] == data[j];
      forall u | OfHolder(u, IndexKey) in rest.1
        ensures exists j :: i <= j < |data| && data[j].uid == u && data[j].index != j
      {
        var j :| i + 1 <= j < |data| && data'[j].uid == u && data'[j].index != j;
        assert data[j] == data'[j];
      }
    }
  }

  /** `_pushIndices(p)`: a negative start reads an element that is not a
      holder (`data[p]` is `undefined` or a raw value) and throws a
      TypeError before pushing anything; otherwise the tail is reindexed. */
  function PushIndices(l: List, p: int): (o: ListOutcome)
    ensures o.error.Some? <==> p < 0
    ensures o.error.Some? ==> o == Outcome(l, [], Some(TypeError))
    ensures o.state.extra == l.extra && o.state.nextUid == l.nextUid
    ensures ValuesOf(o.state.data) == ValuesOf(l.data)
    ensures p >= 0 ==> Positions(o.log) == Range(p, |l.data|)
    ensures forall x :: x in o.log ==> (x.OfList? && x.key.Pos?) || (x.OfHolder? && x.hkey == IndexKey)
    ensures |o.state.data| == |l.data|
    ensures forall j :: 0 <= j < |l.data| ==> o.state.data[j].uid == l.data[j].uid
    ensures forall j :: 0 <= j < |l.data| && j < p ==> o.state.data[j] == l.data[j]
    ensures forall j :: 0 <= p <= j < |l.data| ==> o.state.data[j].index == j
  {
    if p < 0 then Outcome(l, [], Some(TypeError))
    else if p >= |l.data| then Outcome(l, [], None)
    else
      var r := Reindex(l.data, p);
      ReindexData(l.data, p);
      ReindexPositions(l.data, p);
      ReindexLogKinds(l.data, p);
      Outcome(l.(data := r.0), r.1, None)
  }

  /** `_pushIndices(p)` pushes a holder's `'_index'` exactly when the
      holder sits at or past `p` with an `_index` that is not its
      position. */
  lemma PushIndicesNotifiesHolders(l: List, p: int)
    ensures var o := PushIndices(l, p);
      && (forall j :: 0 <= p <= j < |l.data| && l.data[j].index != j ==> OfHolder(l.data[j].uid, IndexKey) in o.log)
      && (forall u :: OfHolder(u, IndexKey) in o.log ==>
            exists j :: 0 <= p <= j < |l.data| && l.data[j].uid == u && l.data[j].index != j)
  {
    if 0 <= p < |l.data| {
      ReindexNotifiesMoved(l.data, p);
    }
  }

  // ---------------------------------------------------------------------
  // splice

  /** The holders `splice` creates for `ins`: `new ListValue(index + i, …)`
      with the start as given, not as clamped. */
  function NewHolders(uid: nat, start: int, vs: seq<Value>): (hs: seq<Holder>)
    ensures |hs| == |vs|
    ensures forall k :: 0 <= k < |vs| ==> hs[k] == Holder(uid + k, start + k, vs[k])
  {
    seq(|vs|, k requires 0 <= k < |vs| => Holder(uid + k, start + k, vs[k]))
  }

  /** Whether `splice(start, count, ins)` calls `_pushIndices`: always
      without inserts (an absent `inserts` is falsy), and with inserts
      (even an empty array) only when `count !== ins.length`. */
  predicate Reindexes(count: int, ins: Option<seq<Value>>) {
    ins.None? || count != |ins.value|
  }

  /** Where that reindex starts: the start as given, plus the number of
      inserts. */
  function ReindexStart(start: int, ins: Option<seq<Value>>): int {
    start + |ins.GetOr([])|
  }

  /** `List.splice(start, count, ins)`. The elements end up as the
      standard `splice` leaves them, also when the reindex throws, since the
      array is changed first. The reindex throws exactly when it starts at a
      negative position; otherwise the positions from where it starts to
      the end are pushed in order and `'_data'` is pushed last, once; a
      holder's `'_index'` is pushed exactly when it sits at or after the
      reindex start with an `_index` that is not its position. `'_size'`
      is never pushed. */
  function Splice(l: List, start: int, count: int, ins: Option<seq<Value>>): (o: ListOutcome)
    ensures ValuesOf(o.state.data) == SpliceSeq(ValuesOf(l.data), start, count, ins.GetOr([]))
    ensures UidsOf(o.state.data) == SpliceSeq(UidsOf(l.data), start, count, NewUids(l.nextUid, |ins.GetOr([])|))
    ensures o.state.extra == l.extra && o.state.nextUid == l.nextUid + |ins.GetOr([])|
    ensures o.error.Some? <==> Reindexes(count, ins) && ReindexStart(start, ins) < 0
    ensures o.error.Some? ==> o.error == Some(TypeError) && o.log == []
    ensures o.error.None? ==> |o.log| > 0 && o.log[|o.log| - 1] == OfList(DataKey)
    ensures o.error.None? ==> OfList(DataKey) !in o.log[..|o.log| - 1]
    ensures o.error.None? ==>
      Positions(o.log) == (if Reindexes(count, ins) then Range(ReindexStart(start, ins), |o.state.data|) else [])
    ensures OfList(SizeKey) !in o.log
    ensures forall x :: x in o.log ==>
      (x.OfList? && (x.key.Pos? || x.key == DataKey)) || (x.OfHolder? && x.hkey == IndexKey)
    ensures !Reindexes(count, ins) ==> o.log == [OfList(DataKey)]
  {
    var vs := ins.GetOr([]);
    var hs := NewHolders(l.nextUid, start, vs);
    var l1 := l.(data := SpliceSeq(l.data, start, count, hs), nextUid := l.nextUid + |vs|);
    var pi := if Reindexes(count, ins) then PushIndices(l1, ReindexStart(start, ins)) else Outcome(l1, [], None);
    ValuesSplice(l.data, l.nextUid, start, count, vs);
    UidsSplice(l.data, l.nextUid, start, count, vs);
    assert UidsOf(pi.state.data) == UidsOf(l1.data);
    if pi.error.Some? then pi
    else
      var log := pi.log + [OfList(DataKey)];
      PositionsAppend(pi.log, [OfList(DataKey)]);
      assert log[..|log| - 1] == pi.log;
      Outcome(pi.state, log, None)
  }

  /** A completed splice notifies position `j` exactly when it reindexes
      and `j` lies between where the reindex starts and the new end. */
  lemma SpliceNotifies(l: List, start: int, count: int, ins: Option<seq<Value>>, j: int)
    requires Splice(l, start, count, ins).error.None?
    ensures var o := Splice(l, start, count, ins);
      OfList(Pos(j)) in o.log <==> Reindexes(count, ins) && ReindexStart(start, ins) <= j < |o.state.data|
  {
    var o := Splice(l, start, count, ins);
    if Reindexes(count, ins) {
      PositionsRange(o.log, ReindexStart(start, ins), |o.state.data|, j);
    } else {
      PositionsRange(o.log, 0, 0, j);
    }
  }

  /** A completed splice that reindexes pushes a holder's `'_index'`
      exactly when the holder sits, after the array splice, at or past the
      reindex start with an `_index` that is not its position. */
  lemma SpliceNotifiesHolders(l: List, start: int, count: int, ins: Option<seq<Value>>)
    requires Splice(l, start, count, ins).error.None? && Reindexes(count, ins)
    ensures var o := Splice(l, start, count, ins);
      var sp := Spliced(l, start, count, ins.GetOr([])).data;
      var p := ReindexStart(start, ins);
      && (forall j :: p <= j < |sp| && sp[j].index != j ==> OfHolder(sp[j].uid, IndexKey) in o.log)
      && (forall u :: OfHolder(u, IndexKey) in o.log ==> exists j :: p <= j < |sp| && sp[j].uid == u && sp[j].index != j)
  {
    var vs := ins.GetOr([]);
    var l1 := Spliced(l, start, count, vs);
    var pi := PushIndices(l1, ReindexStart(start, ins));
    var o := Splice(l, start, count, ins);
    PushIndicesNotifiesHolders(l1, ReindexStart(start, ins));
    assert o.log == pi.log + [OfList(DataKey)];
    assert forall u :: OfHolder(u, IndexKey) in o.log <==> OfHolder(u, IndexKey) in pi.log;
  }

  /** A log whose positions are `a, …, b - 1` pushes exactly those. */
  lemma PositionsRange(log: seq<Prop>, a: int, b: int, j: int)
    requires Positions(log) == Range(a, b)
    ensures OfList(Pos(j)) in log <==> a <= j < b
  {
    PositionsMembers(log);
    if a <= j < b {
      assert Range(a, b)[j - a] == j;
    }
  }

  /** The values of a splice over holders are the splice of the values. */
  lemma ValuesSplice(data: seq<Holder>, uid: nat, start: int, count: int, vs: seq<Value>)
    ensures ValuesOf(SpliceSeq(data, start, count, NewHolders(uid, start, vs))) ==
            SpliceSeq(ValuesOf(data), start, count, vs)
  {
    var hs := NewHolders(uid, start, vs);
    var x := ValuesOf(SpliceSeq(data, start, count, hs));
    var y := SpliceSeq(ValuesOf(data), start, count, vs);
    forall j | 0 <= j < |x| ensures x[j] == y[j] {
      SpliceSeqAt(data, start, count, hs, j);
      SpliceSeqAt(ValuesOf(data), start, count, vs, j);
    }
  }

  /** The identities after a splice over holders are the splice of the
      identities, with fresh ones for the inserts. */
  lemma UidsSplice(data: seq<Holder>, uid: nat, start: int, count: int, vs: seq<Value>)
    ensures UidsOf(SpliceSeq(data, start, count, NewHolders(uid, start, vs))) ==
            SpliceSeq(UidsOf(data), start, count, NewUids(uid, |vs|))
  {
    var hs := NewHolders(uid, start, vs);
    var x := UidsOf(SpliceSeq(data, start, count, hs));
    var y := SpliceSeq(UidsOf(data), start, count, NewUids(uid, |vs|));
    forall j | 0 <= j < |x| ensures x[j] == y[j] {
      SpliceSeqAt(data, start, count, hs, j);
      SpliceSeqAt(UidsOf(data), start, count, NewUids(uid, |vs|), j);
    }
  }

  /** Each holder after a completed splice is the holder the array splice
      left there, with its `_index` set to its position when the reindex
      reached it. */
  lemma SpliceHolders(l: List, start: int, count: int, ins: Option<seq<Value>>)
    requires Splice(l, start, count, ins).error.None?
    ensures var o := Splice(l, start, count, ins);
      var sp := Spliced(l, start, count, ins.GetOr([])).data;
      var p := ReindexStart(start, ins);
      && |o.state.data| == |sp|
      && forall j :: 0 <= j < |sp| ==>
           o.state.data[j] == if Reindexes(count, ins) && p <= j then sp[j].(index := j) else sp[j]
  {
    var l1 := Spliced(l, start, count, ins.GetOr([]));
    var o := Splice(l, start, count, ins);
    if Reindexes(count, ins) {
      var pi := PushIndices(l1, ReindexStart(start, ins));
      assert o.state == pi.state;
      forall j | 0 <= j < |l1.data|
        ensures o.state.data[j] == if ReindexStart(start, ins) <= j then l1.data[j].(index := j) else l1.data[j]
      {
        assert ValuesOf(pi.state.data)[j] == ValuesOf(l1.data)[j];
      }
    }
  }

  lemma SpliceSeqFresh(data: seq<Holder>, u: nat, start: int, count: int, vs: seq<Value>)
    requires Fresh(data, u)
    ensures Fresh(SpliceSeq(data, start, count, NewHolders(u, start, vs)), u + |vs|)
  {
    var hs := NewHolders(u, start, vs);
    var sp := SpliceSeq(data, start, count, hs);
    forall j | 0 <= j < |sp| ensures sp[j].uid < u + |vs| {
      SpliceSeqAt(data, start, count, hs, j);
    }
    forall i, j | 0 <= i < j < |sp| ensures sp[i].uid != sp[j].uid {
      SpliceSeqAt(data, start, count, hs, i);
      SpliceSeqAt(data, start, count, hs, j);
    }
  }

  /** Before the reindex, a splice starting inside the list leaves every
      holder up to the end of the inserts at its position; so does the
      rest when `count` equals the number of inserts. */
  lemma SpliceSeqIndexed(data: seq<Holder>, u: nat, start: int, count: int, vs: seq<Value>)
    requires Indexed(data) && 0 <= start <= |data|
    ensures var sp := SpliceSeq(data, start, count, NewHolders(u, start, vs));
      forall j :: 0 <= j < |sp| && (j < start + |vs| || count == |vs|) ==> sp[j].index == j
  {
    var hs := NewHolders(u, start, vs);
    var sp := SpliceSeq(data, start, count, hs);
    forall j | 0 <= j < |sp| && (j < start + |vs| || count == |vs|) ensures sp[j].index == j {
      SpliceSeqAt(data, start, count, hs, j);
    }
  }

  /** The list before the reindex: the array spliced, the new holders
      created. */
  function Spliced(l: List, start: int, count: int, vs: seq<Value>): List {
    l.(data := SpliceSeq(l.data, start, count, NewHolders(l.nextUid, start, vs)), nextUid := l.nextUid + |vs|)
  }

  lemma SplicedState(l: List, start: int, count: int, ins: Option<seq<Value>>)
    requires 0 <= start
    ensures var l1 := Spliced(l, start, count, ins.GetOr([]));
      Splice(l, start, count, ins).state ==
        if Reindexes(count, ins) then PushIndices(l1, start + |ins.GetOr([])|).state else l1
  {
  }

  /** A list whose holders are distinct and at their positions up to `p`
      (all of them without a reindex) is valid after the reindex from `p`. */
  lemma ValidAfterReindex(l1: List, p: int, reindex: bool)
    requires 0 <= p && Fresh(l1.data, l1.nextUid)
    requires forall j :: 0 <= j < |l1.data| && (j < p || !reindex) ==> l1.data[j].index == j
    ensures Valid(if reindex then PushIndices(l1, p).state else l1)
  {
    if reindex {
      ReindexKeepsValid(l1, p);
    }
  }

  /** The array a splice inside a valid list leaves, reindexed or not, is
      valid. */
  lemma SplicedValid(l: List, start: int, count: int, ins: Option<seq<Value>>)
    requires Valid(l) && 0 <= start <= |l.data|
    ensures var l1 := Spliced(l, start, count, ins.GetOr([]));
      Valid(if Reindexes(count, ins) then PushIndices(l1, start + |ins.GetOr([])|).state else l1)
  {
    var vs := ins.GetOr([]);
    var l1 := Spliced(l, start, count, vs);
    SpliceSeqFresh(l.data, l.nextUid, start, count, vs);
    SpliceSeqIndexed(l.data, l.nextUid, start, count, vs);
    if Reindexes(count, ins) {
      ValidAfterReindex(l1, start + |vs|, true);
    } else {
      ValidAfterReindex(l1, start + |vs|, false);
    }
  }

  /** A splice starting inside the list keeps every holder's `_index` equal
      to its position and every holder distinct. */
  lemma SpliceKeepsValid(l: List, start: int, count: int, ins: Option<seq<Value>>)
    requires 0 <= start <= |l.data|
    ensures Splice(l, start, count, ins).error.None?
    ensures Valid(l) ==> Valid(Splice(l, start, count, ins).state)
  {
    SplicedState(l, start, count, ins);
    if Valid(l) {
      SplicedValid(l, start, count, ins);
    }
  }

  lemma SplicedInserts(l: List, start: int, count: int, vs: seq<Value>)
    requires 0 <= start <= |l.data|
    ensures forall k :: 0 <= k < |vs| ==>
      Spliced(l, start, count, vs).data[start + k] == Holder(l.nextUid + k, start + k, vs[k])
  {
    var hs := NewHolders(l.nextUid, start, vs);
    forall k | 0 <= k < |vs|
      ensures Spliced(l, start, count, vs).data[start + k] == Holder(l.nextUid + k, start + k, vs[k])
    {
      SpliceSeqAt(l.data, start, count, hs, start + k);
    }
  }

  /** The holders a splice inside the list inserts sit at `start + k`,
      with `_index == start + k`, the inserted value, and a fresh source. */
  lemma SpliceInserts(l: List, start: int, count: int, ins: Option<seq<Value>>)
    requires 0 <= start <= |l.data|
    ensures var o := Splice(l, start, count, ins);
      forall k :: 0 <= k < |ins.GetOr([])| ==>
        o.state.data[start + k] == Holder(l.nextUid + k, start + k, ins.GetOr([])[k])
  {
    SplicedInserts(l, start, count, ins.GetOr([]));
    SplicedState(l, start, count, ins);
  }

  /** Reindexing from `p` makes a list whose holders before `p` are at
      their positions valid, and touches nothing before `p`. */
  lemma ReindexKeepsValid(l: List, p: int)
    requires 0 <= p && Fresh(l.data, l.nextUid)
    requires forall j :: 0 <= j < |l.data| && j < p ==> l.data[j].index == j
    ensures Valid(PushIndices(l, p).state)
    ensures forall j :: 0 <= j < |l.data| && j < p ==> PushIndices(l, p).state.data[j] == l.data[j]
  {
  }

  /** A splice starting past the end appends the inserted holders with the
      start as given as their `_index`, which is not their position, and
      the reindex starts past the end too, so nothing corrects it. */
  lemma SpliceBeyondEndMisindexes(l: List, start: int, v: Value)
    requires start > |l.data|
    ensures var o := Splice(l, start, 0, Some([v]));
      && o.error.None?
      && o.state.data[|l.data|] == Holder(l.nextUid, start, v)
      && !Indexed(o.state.data)
  {
    var hs := NewHolders(l.nextUid, start, [v]);
    SpliceSeqAt(l.data, start, 0, hs, |l.data|);
  }

  // ---------------------------------------------------------------------
  // Operations defined through splice

  /** `new List(data)`: an empty array, then `append(data)`; an absent
      `data` splices nothing in. Only `'_data'` is pushed. */
  function NewList(init: Option<seq<Value>>): (o: ListOutcome)
    ensures ValuesOf(o.state.data) == init.GetOr([])
    ensures Valid(o.state) && o.state.extra == map[]
    ensures o.log == [OfList(DataKey)] && o.error.None?
  {
    var l := List([], map[], 0);
    SpliceKeepsValid(l, 0, 0, init);
    Splice(l, 0, 0, init)
  }

  /** `push(v)`: `splice(length, 0, [v])`. The length grows by one, but
      only `'_data'` is pushed: a reader of `size()` is not notified. */
  function Push(l: List, v: Value): (o: ListOutcome)
    ensures ValuesOf(o.state.data) == ValuesOf(l.data) + [v]
    ensures UidsOf(o.state.data) == UidsOf(l.data) + [l.nextUid]
    ensures o.state.extra == l.extra && o.state.nextUid == l.nextUid + 1
    ensures o.log == [OfList(DataKey)] && o.error.None?
    ensures Valid(l) ==> Valid(o.state)
  {
    SpliceKeepsValid(l, |l.data|, 0, Some([v]));
    SpliceAtEnd(l, [v]);
    SpliceSeqAppend(UidsOf(l.data), [l.nextUid]);
    Splice(l, |l.data|, 0, Some([v]))
  }

  /** `pop()`: `splice(length, 1)` starts at the end, so it removes
      nothing; it only pushes `'_data'`. */
  function Pop(l: List): (o: ListOutcome)
    ensures o == Outcome(l, [OfList(DataKey)], None)
  {
    var o := Splice(l, |l.data|, 1, None);
    assert o.state.data == l.data;
    o
  }

  /** `shift()`: `splice(0, 1)`. Drops the first element and reindexes
      the whole list, pushing every remaining position, then `'_data'`. */
  function Shift(l: List): (o: ListOutcome)
    ensures ValuesOf(o.state.data) == if |l.data| == 0 then [] else ValuesOf(l.data)[1..]
    ensures UidsOf(o.state.data) == if |l.data| == 0 then [] else UidsOf(l.data)[1..]
    ensures o.state.extra == l.extra && o.state.nextUid == l.nextUid
    ensures o.error.None? && |o.log| > 0 && o.log[|o.log| - 1] == OfList(DataKey)
    ensures Positions(o.log) == Range(0, |o.state.data|)
    ensures Valid(l) ==> Valid(o.state)
  {
    SpliceKeepsValid(l, 0, 1, None);
    SpliceSeqDropFirst(ValuesOf(l.data));
    SpliceSeqDropFirst(UidsOf(l.data));
    assert NewUids(l.nextUid, 0) == [];
    Splice(l, 0, 1, None)
  }

  /** `unshift(v)`: `splice(0, 0, [v])`. Every old element moves up one
      position and is reindexed. */
  function Unshift(l: List, v: Value): (o: ListOutcome)
    ensures ValuesOf(o.state.data) == [v] + ValuesOf(l.data)
    ensures UidsOf(o.state.data) == [l.nextUid] + UidsOf(l.data)
    ensures o.state.extra == l.extra && o.state.nextUid == l.nextUid + 1
    ensures o.error.None? && |o.log| > 0 && o.log[|o.log| - 1] == OfList(DataKey)
    ensures Positions(o.log) == Range(1, |l.data| + 1)
    ensures Valid(l) ==> Valid(o.state)
  {
    SpliceKeepsValid(l, 0, 0, Some([v]));
    SpliceSeqPrepend(ValuesOf(l.data), [v]);
    SpliceSeqPrepend(UidsOf(l.data), [l.nextUid]);
    Splice(l, 0, 0, Some([v]))
  }

  /** `append(vs)`: `splice(length, 0, vs)`. */
  function Append(l: List, vs: seq<Value>): (o: ListOutcome)
    ensures ValuesOf(o.state.data) == ValuesOf(l.data) + vs
    ensures UidsOf(o.state.data) == UidsOf(l.data) + NewUids(l.nextUid, |vs|)
    ensures o.state.extra == l.extra && o.state.nextUid == l.nextUid + |vs|
    ensures o.log == [OfList(DataKey)] && o.error.None?
    ensures Valid(l) ==> Valid(o.state)
  {
    SpliceKeepsValid(l, |l.data|, 0, Some(vs));
    SpliceAtEnd(l, vs);
    SpliceSeqAppend(UidsOf(l.data), NewUids(l.nextUid, |vs|));
    Splice(l, |l.data|, 0, Some(vs))
  }

  /** Inserting at the end never reindexes anything that exists. */
  lemma SpliceAtEnd(l: List, vs: seq<Value>)
    ensures Splice(l, |l.data|, 0, Some(vs)).log == [OfList(DataKey)]
    ensures ValuesOf(Splice(l, |l.data|, 0, Some(vs)).state.data) == ValuesOf(l.data) + vs
  {
    var l1 := Spliced(l, |l.data|, 0, vs);
    assert |l1.data| == |l.data| + |vs|;
    SpliceSeqAppend(ValuesOf(l.data), vs);
  }

  // ---------------------------------------------------------------------
  // Reads

  /** What `data[i]` is for an index that is not an element: a property
      written by `set`, or `undefined`. */
  function ExtraAt(l: List, i: int): Value {
    if i in l.extra then l.extra[i] else Undefined
  }

  /** `get(i)`: pulls `i`, then `lv && lv.value()`. A holder is truthy, so
      its `value()` pulls its `'_value'` and returns the value. Anywhere
      else a falsy property (`undefined` when there is none) is returned as
      it is, and a truthy one (a raw value, which has no `value` method)
      makes the call throw. */
  function Get(l: List, i: int): (r: (seq<Prop>, Result<Value>))
    ensures |r.0| > 0 && r.0[0] == OfList(Pos(i))
    ensures 0 <= i < |l.data| ==> r == ([OfList(Pos(i)), OfHolder(l.data[i].uid, ValueKey)], Ok(l.data[i].value))
    ensures !(0 <= i < |l.data|) ==> r.0 == [OfList(Pos(i))] && (r.1.Err? <==> Truthy(ExtraAt(l, i)))
    ensures !(0 <= i < |l.data|) && r.1.Ok? ==> r.1.value == ExtraAt(l, i)
    ensures i >= |l.data| && i !in l.extra ==> r.1 == Ok(Undefined)
  {
    if 0 <= i < |l.data| then
      ([OfList(Pos(i)), OfHolder(l.data[i].uid, ValueKey)], Ok(l.data[i].value))
    else if Truthy(ExtraAt(l, i)) then ([OfList(Pos(i))], Err(TypeError))
    else ([OfList(Pos(i))], Ok(ExtraAt(l, i)))
  }

  /** `size()`: pulls `'_size'` and returns the length. */
  function Size(l: List): (r: (seq<Prop>, nat))
    ensures r.0 == [OfList(SizeKey)] && r.1 == |ValuesOf(l.data)|
  {
    ([OfList(SizeKey)], |l.data|)
  }

  /** `data()`: pulls `'_data'` and returns the array of holders. */
  function Data(l: List): (r: (seq<Prop>, seq<Holder>))
    ensures r.0 == [OfList(DataKey)] && r.1 == l.data && ValuesOf(r.1) == ValuesOf(l.data)
  {
    ([OfList(DataKey)], l.data)
  }

  /** Reading an element returns the element's value. */
  lemma GetReadsValues(l: List, i: int)
    requires 0 <= i < |l.data|
    ensures Get(l, i).1 == Ok(ValuesOf(l.data)[i])
  {
  }

  /** After `push(v)` the new last element reads back as `v`; after
      `unshift(v)` the first one does; the others keep their values. */
  lemma PushThenGet(l: List, v: Value)
    ensures Get(Push(l, v).state, |l.data|).1 == Ok(v)
    ensures forall i :: 0 <= i < |l.data| ==> Get(Push(l, v).state, i).1 == Get(l, i).1
  {
    var d := Push(l, v).state.data;
    assert ValuesOf(d)[|l.data|] == v;
    forall i | 0 <= i < |l.data| ensures Get(Push(l, v).state, i).1 == Get(l, i).1 {
      assert ValuesOf(d)[i] == ValuesOf(l.data)[i];
    }
  }

  lemma UnshiftThenGet(l: List, v: Value)
    ensures Get(Unshift(l, v).state, 0).1 == Ok(v)
    ensures forall i :: 0 <= i < |l.data| ==> Get(Unshift(l, v).state, i + 1).1 == Get(l, i).1
  {
    var d := Unshift(l, v).state.data;
    assert ValuesOf(d)[0] == v;
    forall i | 0 <= i < |l.data| ensures Get(Unshift(l, v).state, i + 1).1 == Get(l, i).1 {
      assert ValuesOf(d)[i + 1] == ValuesOf(l.data)[i];
    }
  }

  /** `push` changes the length without pushing `'_size'`, so a watcher
      that read `size()` is not notified. */
  lemma PushLeavesSizeStale(l: List, v: Value)
    ensures Size(Push(l, v).state).1 == Size(l).1 + 1
    ensures OfList(SizeKey) !in Push(l, v).log
  {
  }

  // ---------------------------------------------------------------------
  // set, del, remove

  /** The guard of `set`, `index === ~~index && ~index < 0`: true for a
      32-bit integer whose complement is negative, that is, for every
      non-negative one. The guard is meant to reject negative indices but
      rejects the others. */
  predicate SetRejects(i: int): (r: bool)
    ensures r <==> 0 <= i <= Int32Max
  {
    IsInt32(i) && BitNot(i) < 0
  }

  /** The guard of `del`, `(index !== ~~index && index !== '' + ~~index) ||
      ~index < 0`, on a number: true when it is not a 32-bit integer, or
      when its complement is negative. */
  predicate DelRejects(i: int): (r: bool)
    ensures r <==> !(Int32Min <= i < 0)
  {
    !IsInt32(i) || BitNot(i) < 0
  }

  /** `set(i, v)`. The guard throws for every non-negative 32-bit index.
      A negative index is never past the end, so the write goes to the
      array's property `i`, not to an element: when it changes that
      property, `i` and `'_data'` are pushed. An index beyond the 32-bit
      range passes the guard and lies past the end: `'_size'` is pushed, a
      holder is created there and at once replaced by the raw value (which
      is never the holder), and `i` and `'_data'` are pushed. */
  function Set(l: List, i: int, v: Value): (o: ListOutcome)
    requires !(Int32Max < i < |l.data|)
    ensures o.error.Some? <==> 0 <= i <= Int32Max
    ensures o.error.Some? ==> o == Outcome(l, [], Some(InvalidIndex))
    ensures o.state.data == l.data
    ensures o.error.None? ==> ExtraAt(o.state, i) == v
    ensures forall j :: j != i ==> ExtraAt(o.state, j) == ExtraAt(l, j)
    ensures i < 0 && ExtraAt(l, i) == v ==> o == Outcome(l, [], None)
    ensures i < 0 && ExtraAt(l, i) != v ==> o.log == [OfList(Pos(i)), OfList(DataKey)]
    ensures i > Int32Max ==> o.log == [OfList(SizeKey), OfList(Pos(i)), OfList(DataKey)]
  {
    if SetRejects(i) then Outcome(l, [], Some(InvalidIndex))
    else if i >= |l.data| then
      Outcome(l.(extra := l.extra[i := v], nextUid := l.nextUid + 1),
              [OfList(SizeKey), OfList(Pos(i)), OfList(DataKey)], None)
    else if ExtraAt(l, i) != v then
      Outcome(l.(extra := l.extra[i := v]), [OfList(Pos(i)), OfList(DataKey)], None)
    else Outcome(l, [], None)
  }

  /** What `get` then returns at an index `set` accepts: the value when it
      is falsy, and a TypeError when it is truthy. */
  lemma SetThenGet(l: List, i: int, v: Value)
    requires i < 0 || i > Int32Max
    requires !(Int32Max < i < |l.data|)
    ensures Get(Set(l, i, v).state, i).1 == if Truthy(v) then Err(TypeError) else Ok(v)
  {
  }

  /** `del(i)`. The guard throws for every non-negative index and every
      number outside the 32-bit range. A negative 32-bit index passes: the
      array's `splice(i, 1)` removes the element `-i` from the end (or the
      first one if there are fewer), `'_size'` is pushed, and then
      `_pushIndices(i)` throws. So `del` never completes. */
  function Del(l: List, i: int): (o: ListOutcome)
    ensures o.error.Some?
    ensures o.error == Some(InvalidIndex) <==> !(Int32Min <= i < 0)
    ensures o.error == Some(InvalidIndex) ==> o.state == l && o.log == []
    ensures o.error == Some(TypeError) ==>
      && ValuesOf(o.state.data) == SpliceSeq(ValuesOf(l.data), i, 1, [])
      && UidsOf(o.state.data) == SpliceSeq(UidsOf(l.data), i, 1, [])
      && o.state.extra == l.extra && o.state.nextUid == l.nextUid
      && o.log == [OfList(SizeKey)]
  {
    if DelRejects(i) then Outcome(l, [], Some(InvalidIndex))
    else
      var data := SpliceSeq(l.data, i, 1, []);
      ValuesSplice(l.data, l.nextUid, i, 1, []);
      UidsSplice(l.data, l.nextUid, i, 1, []);
      assert NewHolders(l.nextUid, i, []) == [] && NewUids(l.nextUid, 0) == [];
      var l1 := l.(data := data);
      var pi := PushIndices(l1, i);
      Outcome(pi.state, [OfList(SizeKey)] + pi.log, pi.error)
  }

  /** `remove(v)`: finds the first holder whose `_value` is `v` and calls
      `del` on its (non-negative) position, which throws. Without a match
      nothing happens. */
  method Remove(l: List, v: Value) returns (o: ListOutcome)
    ensures v in ValuesOf(l.data) ==> o == Outcome(l, [], Some(InvalidIndex))
    ensures v !in ValuesOf(l.data) ==> o == Outcome(l, [], None)
  {
    var i := 0;
    while i < |l.data|
      invariant 0 <= i <= |l.data|
      invariant forall j :: 0 <= j < i ==> l.data[j].value != v
    {
      if l.data[i].value == v {
        o := Del(l, i);
        return;
      }
      i := i + 1;
    }
    o := Outcome(l, [], None);
  }
}
