/** Sequence helpers of the runtime: `indexInArray`, `removeFromArray`,
    deletion of a key from an id-keyed object, and the ECMAScript
    `Array.prototype.splice` that the reactive list delegates to. */
module Arrays {

  predicate Distinct<T(==)>(s: seq<T>) {
    forall i, j :: 0 <= i < j < |s| ==> s[i] != s[j]
  }

  /** `indexInArray`: the position of the first element identical to `x`,
      or -1 when there is none. */
  function IndexInArray<T(==)>(a: seq<T>, x: T): (i: int)
    ensures i == -1 <==> x !in a
    ensures i != -1 ==> 0 <= i < |a| && a[i] == x && x !in a[..i]
  {
    if |a| == 0 then -1
    else if a[0] == x then 0
    else
      var j := IndexInArray(a[1..], x);
      if j == -1 then -1
      else
        assert a[..j + 1] == [a[0]] + a[1..][..j];
        j + 1
  }

  /** `removeFromArray`: drops the first element identical to `x`, if any. */
  function RemoveFromArray<T(==,!new)>(a: seq<T>, x: T): (r: seq<T>)
    ensures x !in a ==> r == a
    ensures x in a ==> |r| == |a| - 1 && multiset(r) == multiset(a) - multiset{x}
    ensures x in a ==> var i := IndexInArray(a, x); r[..i] == a[..i] && r[i..] == a[i + 1..]
  {
    var i := IndexInArray(a, x);
    if i < 0 then a
    else
      var r := a[..i] + a[i + 1..];
      assert a == a[..i] + [a[i]] + a[i + 1..];
      assert multiset(a) == multiset(a[..i]) + multiset{x} + multiset(a[i + 1..]);
      r
  }

  /** On a sequence without repeats, `removeFromArray` removes exactly `x`
      and keeps the rest without repeats. */
  lemma RemoveKeepsDistinct<T(!new)>(a: seq<T>, x: T)
    ensures var r := RemoveFromArray(a, x);
      Distinct(a) ==> Distinct(r) && forall y :: y in r <==> y in a && y != x
  {
    if x in a && Distinct(a) {
      var i := IndexInArray(a, x);
      var r := RemoveFromArray(a, x);
      SkipShift(a, r, i);
      SkipDistinct(a, r, i);
      SkipMembers(a, r, i);
    }
  }

  /** `r` is `a` without its element `i`. */
  ghost predicate Skips<T>(a: seq<T>, r: seq<T>, i: int) {
    0 <= i < |a| && |r| == |a| - 1 && forall p :: 0 <= p < |r| ==> r[p] == a[if p < i then p else p + 1]
  }

  lemma SkipShift<T>(a: seq<T>, r: seq<T>, i: int)
    requires 0 <= i < |a| && |r| == |a| - 1 && r[..i] == a[..i] && r[i..] == a[i + 1..]
    ensures Skips(a, r, i)
  {
    forall p | 0 <= p < |r| ensures r[p] == a[if p < i then p else p + 1] {
      if p < i {
        assert r[p] == r[..i][p];
      } else {
        assert r[p] == r[i..][p - i];
      }
    }
  }

  lemma SkipDistinct<T>(a: seq<T>, r: seq<T>, i: int)
    requires Skips(a, r, i) && Distinct(a)
    ensures Distinct(r)
  {
    forall p, q | 0 <= p < q < |r| ensures r[p] != r[q] {
      assert r[p] == a[if p < i then p else p + 1];
      assert r[q] == a[if q < i then q else q + 1];
    }
  }

  lemma SkipMembers<T>(a: seq<T>, r: seq<T>, i: int)
    requires Skips(a, r, i) && Distinct(a)
    ensures forall y :: y in r <==> y in a && y != a[i]
  {
    forall y ensures y in r <==> y in a && y != a[i] {
      if y in r {
        var p :| 0 <= p < |r| && r[p] == y;
        assert a[if p < i then p else p + 1] == y;
      }
      if y in a && y != a[i] {
        var m :| 0 <= m < |a| && a[m] == y;
        var p := if m < i then m else m - 1;
        assert r[p] == y;
      }
    }
  }

  /** Deletes every occurrence of `x`: the effect of `delete map[x]` on the
      insertion-ordered key list of a JavaScript object. */
  function Without<T(==,!new)>(a: seq<T>, x: T): (r: seq<T>)
    ensures forall y :: y in r <==> y in a && y != x
    ensures Distinct(a) ==> Distinct(r)
    ensures |r| <= |a|
    ensures x !in a ==> r == a
  {
    if |a| == 0 then []
    else
      var rest := Without(a[1..], x);
      if a[0] == x then rest
      else
        assert a[0] !in a[1..] ==> a[0] !in rest;
        [a[0]] + rest
  }

  /** On a sequence without repeats, deleting the key `x` leaves the
      others in their order: exactly what `removeFromArray` leaves. */
  lemma WithoutIsRemove<T(!new)>(a: seq<T>, x: T)
    requires Distinct(a)
    ensures Without(a, x) == RemoveFromArray(a, x)
  {
    if x in a {
      var i := IndexInArray(a, x);
      var r := RemoveFromArray(a, x);
      assert x !in a[i + 1..] by {
        forall q | i + 1 <= q < |a| ensures a[q] != x {
          assert a[i] == x;
        }
      }
      WithoutAt(a, x, i);
      assert r == r[..i] + r[i..];
    }
  }

  /** Deleting `x`, found only at `i`, leaves the elements around it. */
  lemma {:induction false} WithoutAt<T(!new)>(a: seq<T>, x: T, i: nat)
    requires i < |a| && a[i] == x && x !in a[..i] && x !in a[i + 1..]
    ensures Without(a, x) == a[..i] + a[i + 1..]
    decreases i
  {
    if i == 0 {
      assert a[..0] + a[1..] == a[1..];
    } else {
      assert a[0] in a[..i];
      var t := a[1..];
      assert t[..i - 1] == a[1..i] && t[i..] == a[i + 1..];
      assert x !in t[..i - 1] by {
        assert forall y :: y in a[1..i] ==> y in a[..i];
      }
      WithoutAt(t, x, i - 1);
      assert a[..i] == [a[0]] + t[..i - 1];
    }
  }

  /** Where `splice(start, …)` starts on an array of length `len`: a
      negative start counts from the end, and the result is clamped to
      `[0, len]`. */
  function ClampStart(start: int, len: nat): (a: nat)
    ensures a <= len
    ensures 0 <= start <= len ==> a == start
    ensures start > len ==> a == len
    ensures start < 0 ==> a == (if len + start < 0 then 0 else len + start)
  {
    if start < 0 then (if len + start < 0 then 0 else len + start)
    else if start > len then len
    else start
  }

  /** How many elements `splice(…, count)` removes when `room` elements
      follow the start position: `count` clamped to `[0, room]`. */
  function ClampCount(count: int, room: nat): (c: nat)
    ensures c <= room
    ensures 0 <= count <= room ==> c == count
    ensures count < 0 ==> c == 0
    ensures count > room ==> c == room
  {
    if count < 0 then 0 else if count > room then room else count
  }

  /** ECMAScript `Array.prototype.splice(start, count, ...ins)` on a
      sequence: the reference against which the reactive list is checked. */
  function SpliceSeq<T>(s: seq<T>, start: int, count: int, ins: seq<T>): (r: seq<T>)
    ensures var a := ClampStart(start, |s|);
            var c := ClampCount(count, |s| - a);
            && |r| == |s| - c + |ins|
            && (forall j :: 0 <= j < a ==> r[j] == s[j])
            && (forall k :: 0 <= k < |ins| ==> r[a + k] == ins[k])
            && (forall j :: a + c <= j < |s| ==> r[j - c + |ins|] == s[j])
  {
    var a := ClampStart(start, |s|);
    var c := ClampCount(count, |s| - a);
    s[..a] + ins + s[a + c..]
  }

  /** A splice at the end that removes nothing appends. */
  lemma SpliceSeqAppend<T>(s: seq<T>, ins: seq<T>)
    ensures SpliceSeq(s, |s|, 0, ins) == s + ins
  {
    assert s[..|s|] == s;
  }

  /** A splice at the front that removes nothing prepends. */
  lemma SpliceSeqPrepend<T>(s: seq<T>, ins: seq<T>)
    ensures SpliceSeq(s, 0, 0, ins) == ins + s
  {
    assert s[..0] == [] && s[0..] == s;
  }

  /** A splice at the front that removes one element and inserts nothing
      drops the first element, if there is one. */
  lemma SpliceSeqDropFirst<T>(s: seq<T>)
    ensures SpliceSeq(s, 0, 1, []) == if |s| == 0 then [] else s[1..]
  {
    assert s[..0] == [];
  }

  /** Where each element of a splice comes from. */
  lemma SpliceSeqAt<T>(s: seq<T>, start: int, count: int, ins: seq<T>, j: int)
    requires 0 <= j < |SpliceSeq(s, start, count, ins)|
    ensures var a := ClampStart(start, |s|);
      var c := ClampCount(count, |s| - a);
      SpliceSeq(s, start, count, ins)[j] ==
        if j < a then s[j] else if j < a + |ins| then ins[j - a] else s[j - |ins| + c]
  {
    var a := ClampStart(start, |s|);
    var c := ClampCount(count, |s| - a);
    var sp := SpliceSeq(s, start, count, ins);
    if a <= j < a + |ins| {
      assert sp[a + (j - a)] == ins[j - a];
    } else if j >= a + |ins| {
      var i := j - |ins| + c;
      assert sp[i - c + |ins|] == s[i];
    }
  }
}
