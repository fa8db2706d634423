/** The tick scheduler `addTickEvent`: a pending map from id to thunk, kept
    in insertion order, and a flag saying whether a flush has already been
    requested from the host. The host timer itself is not modelled: the
    flush is an explicit step. */
module Tick {
  import opened Arrays

  datatype Scheduler<T> = Scheduler(order: seq<nat>, thunks: map<nat, T>, pending: bool)

  /** One entry per id, the order holds exactly the ids of the map, and a
      flush is requested exactly while something is waiting for it. */
  ghost predicate Valid<T>(s: Scheduler<T>) {
    && Distinct(s.order)
    && (forall id :: id in s.thunks <==> id in s.order)
    && (s.pending <==> |s.order| > 0)
  }

  function Empty<T>(): (s: Scheduler<T>)
    ensures Valid(s)
  {
    Scheduler([], map[], false)
  }

  /** `addTickEvent(id, cb)`: records `cb` under `id`, replacing an earlier
      thunk for the same id in place, and returns whether the host was asked
      for a flush (only when none was already pending). */
  function Schedule<T>(s: Scheduler<T>, id: nat, thunk: T): (r: (Scheduler<T>, bool))
    ensures r.0.thunks == s.thunks[id := thunk]
    ensures r.0.pending
    ensures r.1 <==> !s.pending
    ensures id in s.order ==> r.0.order == s.order
    ensures id !in s.order ==> r.0.order == s.order + [id]
    ensures Valid(s) ==> Valid(r.0)
  {
    var order := if id in s.order then s.order else s.order + [id];
    (Scheduler(order, s.thunks[id := thunk], true), !s.pending)
  }

  /** `executeCBs`, first half: swaps the pending map for an empty one and
      clears the flag, handing back the thunks to run in insertion order. */
  function Flush<T>(s: Scheduler<T>): (r: (Scheduler<T>, seq<T>))
    requires Valid(s)
    ensures r.0 == Empty()
    ensures |r.1| == |s.order|
    ensures forall i :: 0 <= i < |s.order| ==> r.1[i] == s.thunks[s.order[i]]
  {
    (Empty(), seq(|s.order|, i requires 0 <= i < |s.order| => s.thunks[s.order[i]]))
  }

  /** Re-scheduling an id before the flush keeps one entry for it, in its
      first position, and the last thunk wins. */
  lemma {:induction false} LastWriterWins<T>(s: Scheduler<T>, id: nat, t1: T, t2: T)
    requires Valid(s)
    ensures var s1 := Schedule(s, id, t1).0;
            var s2 := Schedule(s1, id, t2);
            && s2.0.order == s1.order
            && s2.0.thunks[id] == t2
            && !s2.1
            && |s2.0.order| <= |s.order| + 1
  {
  }

  /** Scheduling any number of times asks the host for at most one flush
      between two flushes: every call after the first finds the flag set. */
  lemma {:induction false} OneFlushRequest<T>(s: Scheduler<T>, ids: seq<nat>, ts: seq<T>)
    requires |ids| == |ts|
    ensures var r := ScheduleAll(s, ids, ts);
            && r.1 <= (if s.pending then 0 else 1)
            && (|ids| > 0 ==> r.0.pending)
            && (Valid(s) ==> Valid(r.0))
    decreases |ids|
  {
    if |ids| > 0 {
      var s1 := Schedule(s, ids[0], ts[0]);
      OneFlushRequest(s1.0, ids[1..], ts[1..]);
    }
  }

  /** Schedules a sequence of (id, thunk) pairs, counting host requests. */
  function ScheduleAll<T>(s: Scheduler<T>, ids: seq<nat>, ts: seq<T>): (r: (Scheduler<T>, nat))
    requires |ids| == |ts|
    decreases |ids|
  {
    if |ids| == 0 then (s, 0)
    else
      var s1 := Schedule(s, ids[0], ts[0]);
      var rest := ScheduleAll(s1.0, ids[1..], ts[1..]);
      (rest.0, rest.1 + (if s1.1 then 1 else 0))
  }

  /** A thunk scheduled while a flush runs lands in the fresh map and asks
      the host for a new flush: the flush never recurses by itself. */
  lemma ScheduleAfterFlush<T>(s: Scheduler<T>, id: nat, t: T)
    requires Valid(s)
    ensures var r := Schedule(Flush(s).0, id, t);
            r.1 && r.0.order == [id] && r.0.thunks == map[id := t]
  {
  }
}
