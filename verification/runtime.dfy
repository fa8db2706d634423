/** The dependency-tracking core of source.watch.js: sources that record,
    per property, which watchers read them; watchers that re-run through the
    tick scheduler when a property they read is pushed; and the global
    "active watcher" that `pull` subscribes.

    Objects become integer ids in one immutable state record. A watcher's
    code is data: the trace of what one run of the JavaScript closure does
    (pulls, pushes, nested `watch` and `unwatch` calls, a callback to the
    outside world, a throw). */
module Runtime {
  import opened Values
  import opened Arrays
  import Tick

  datatype Action =
    | Read(src: nat, key: Key)     // `source.pull(key)`
    | Write(src: nat, key: Key)    // `source.push(key)`
    | Spawn(code: seq<Action>)     // `watch(code)` inside the body
    | Untracked(code: seq<Action>) // `unwatch(code)` inside the body
    | Emit(tag: nat)               // a call into the outside world (DOM, log)
    | Throw                        // the body raises an error

  type Body = seq<Action>

  /** `_propertyWatcherMap`: per property, the subscribed watcher ids in
      the insertion order of the JavaScript object that holds them. */
  datatype Source = Source(subs: map<Key, seq<nat>>)

  /** `_code`, `_sourceMap`, `_children` and `_parent` of a Watcher. */
  datatype Watcher = Watcher(code: Option<Body>, sources: set<nat>, children: seq<nat>, parent: Option<nat>)

  /** The whole runtime: both id-keyed arenas, the tick scheduler (whose
      thunk for a watcher id runs that watcher), the active watcher, the
      two id counters, and the calls made to the outside world so far. */
  datatype State = State(
    sources: map<nat, Source>,
    watchers: map<nat, Watcher>,
    sched: Tick.Scheduler<nat>,
    active: Option<nat>,
    nextSource: nat,
    nextWatcher: nat,
    out: seq<nat>)

  /** The runtime before anything runs: both id counters at zero, no
      pending callbacks and no flush requested, no active watcher. */
  function Init(): (st: State)
    ensures Inv(st)
    ensures st.nextWatcher == 0 && st.nextSource == 0 && st.watchers == map[] && st.sources == map[]
    ensures st.sched.order == [] && st.sched.thunks == map[] && !st.sched.pending
    ensures st.active.None?
  {
    State(map[], map[], Tick.Empty(), None, 0, 0, [])
  }

  predicate Subscribed(srcs: map<nat, Source>, s: nat, k: Key, w: nat) {
    s in srcs && k in srcs[s].subs && w in srcs[s].subs[k]
  }

  function Subscribers(st: State, s: nat, k: Key): seq<nat> {
    if s in st.sources && k in st.sources[s].subs then st.sources[s].subs[k] else []
  }

  // ---------------------------------------------------------------------
  // Invariants

  /** Ids come from monotonic counters and the active watcher exists. */
  ghost predicate Bounded(st: State) {
    && (forall w :: w in st.watchers ==> w < st.nextWatcher)
    && (forall s :: s in st.sources ==> s < st.nextSource)
    && (st.active.Some? ==> st.active.value in st.watchers)
  }

  /** A child is created while its parent runs, so it has a larger id,
      and it records that parent. */
  ghost predicate Forest(st: State) {
    forall w, c {:trigger c in st.watchers[w].children} :: w in st.watchers && c in st.watchers[w].children ==>
      w < c && c in st.watchers && st.watchers[c].parent == Some(w)
  }

  /** The two-way link: a watcher subscribed under a property of a source
      has that source in its `_sourceMap`. */
  ghost predicate Linked(st: State) {
    forall s, k, w {:trigger Subscribed(st.sources, s, k, w)} ::
      Subscribed(st.sources, s, k, w) ==> w in st.watchers && s in st.watchers[w].sources
  }

  /** Watcher ids are the keys of a JavaScript object: one entry each. */
  ghost predicate UniqueSubs(st: State) {
    forall s, k :: s in st.sources && k in st.sources[s].subs ==> Distinct(st.sources[s].subs[k])
  }

  /** Every pending thunk is "run watcher `id`", keyed by that id. */
  ghost predicate PendingOk(st: State) {
    && Tick.Valid(st.sched)
    && (forall w :: w in st.sched.order ==> w in st.watchers && st.sched.thunks[w] == w)
  }

  ghost predicate Inv(st: State) {
    Bounded(st) && Forest(st) && Linked(st) && UniqueSubs(st) && PendingOk(st)
  }

  /** The state `dispose` leaves a watcher in. */
  ghost predicate Disposed(st: State, w: nat) {
    && w in st.watchers
    && st.watchers[w].code.None?
    && st.watchers[w].sources == {}
    && st.watchers[w].children == []
  }

  /** What every operation on existing watchers keeps: no watcher or
      source appears or vanishes, and the counters, the active watcher and
      the calls to the outside world are untouched. */
  ghost predicate Shape(st: State, r: State) {
    && r.watchers.Keys == st.watchers.Keys
    && r.sources.Keys == st.sources.Keys
    && r.nextWatcher == st.nextWatcher
    && r.nextSource == st.nextSource
    && r.active == st.active
    && r.out == st.out
  }

  /** What cleanup, dispose and push keep on top of the shape: no
      subscription is added, code is only ever cleared, a watcher without
      children gains none, children only ever leave, and a disposed watcher
      stays disposed. */
  ghost predicate Frame(st: State, r: State) {
    && Shape(st, r)
    && (forall s, k, v :: Subscribed(r.sources, s, k, v) ==> Subscribed(st.sources, s, k, v))
    && (forall v :: v in st.watchers ==> r.watchers[v].code == st.watchers[v].code || r.watchers[v].code.None?)
    && (forall v :: v in st.watchers && st.watchers[v].children == [] ==> r.watchers[v].children == [])
    && (forall v, c :: v in st.watchers && c in r.watchers[v].children ==> c in st.watchers[v].children)
    && (forall v :: Disposed(st, v) ==> Disposed(r, v))
  }

  lemma FrameTrans(a: State, b: State, c: State)
    requires Frame(a, b) && Frame(b, c)
    ensures Frame(a, c)
  {
  }

  /** A watcher that leaves its parent's `_children` is disposed. */
  ghost predicate Pruned(st: State, r: State) {
    forall p, c {:trigger c in st.watchers[p].children} ::
      p in st.watchers && c in st.watchers[p].children && p in r.watchers && c !in r.watchers[p].children ==>
        Disposed(r, c)
  }

  lemma PrunedTrans(a: State, b: State, c: State)
    requires Frame(a, b) && Frame(b, c) && Pruned(a, b) && Pruned(b, c)
    ensures Pruned(a, c)
  {
    forall p, x | p in a.watchers && x in a.watchers[p].children && p in c.watchers && x !in c.watchers[p].children
      ensures Disposed(c, x)
    {
      if x !in b.watchers[p].children {
        assert Disposed(b, x);
      }
    }
  }

  /** Each watcher's `_children`. */
  ghost function Children(st: State): map<nat, seq<nat>> {
    map x | x in st.watchers :: st.watchers[x].children
  }

  /** `v` is reached from `w` through `_children` links. */
  ghost predicate Descendant(cm: map<nat, seq<nat>>, w: nat, v: nat)
    decreases v - w
  {
    && w in cm && w < v
    && (v in cm[w] || exists c :: c in cm[w] && w < c && Descendant(cm, c, v))
  }

  /** `v` is `w` itself or lies below it: what tearing down `w` may touch. */
  ghost predicate Within(st: State, w: nat, v: nat) {
    v == w || Descendant(Children(st), w, v)
  }

  /** `v` went through untouched: the same record, and every subscription
      it had is still there. */
  ghost predicate Kept(st: State, r: State, v: nat) {
    && v in st.watchers && v in r.watchers && r.watchers[v] == st.watchers[v]
    && (forall s, k :: Subscribed(st.sources, s, k, v) ==> Subscribed(r.sources, s, k, v))
  }

  /** Tearing down `w` left every watcher outside its subtree untouched. */
  ghost predicate KeepsOutside(st: State, r: State, w: nat) {
    forall v :: v in st.watchers && !Within(st, w, v) ==> Kept(st, r, v)
  }

  /** Tearing down each of `cs` left every watcher outside all their
      subtrees untouched. */
  ghost predicate KeepsOutsideAll(st: State, r: State, cs: seq<nat>) {
    forall v :: v in st.watchers && (forall c :: c in cs ==> !Within(st, c, v)) ==> Kept(st, r, v)
  }

  /** Every watcher outside the subtrees of the listed watchers that were
      subscribed under `k` of `s` is untouched. */
  ghost predicate KeepsUnnotified(st: State, r: State, s: nat, k: Key, ws: seq<nat>) {
    forall v :: v in st.watchers && (forall u :: u in ws && Subscribed(st.sources, s, k, u) ==> !Within(st, u, v)) ==>
      Kept(st, r, v)
  }

  /** Children only leave, so a watcher below another afterwards was
      already below it before. */
  lemma {:induction false} WithinShrinks(st: State, r: State, w: nat, v: nat)
    requires Frame(st, r) && Within(r, w, v)
    ensures Within(st, w, v)
    decreases v - w
  {
    if v != w {
      var cm := Children(r);
      if v !in cm[w] {
        var c :| c in cm[w] && w < c && Descendant(cm, c, v);
        assert c in r.watchers[w].children;
        WithinShrinks(st, r, c, v);
        assert c in Children(st)[w];
      } else {
        assert v in r.watchers[w].children;
      }
    }
  }

  /** Whatever lies within a child lies below its parent. */
  lemma ChildWithin(st: State, w: nat, c: nat, v: nat)
    requires w in st.watchers && c in st.watchers[w].children && w < c && Within(st, c, v)
    ensures Descendant(Children(st), w, v)
  {
    assert c in Children(st)[w];
  }

  /** Once a watcher has no children left and every watcher that left a
      parent is disposed, everything below it is disposed. */
  lemma {:induction false} PrunedDescendant(st: State, r: State, w: nat, v: nat)
    requires Pruned(st, r) && w in r.watchers && r.watchers[w].children == []
    requires Descendant(Children(st), w, v)
    ensures Disposed(r, v)
    decreases v - w
  {
    var cm := Children(st);
    if v !in cm[w] {
      var c :| c in cm[w] && w < c && Descendant(cm, c, v);
      assert c in st.watchers[w].children;
      PrunedDescendant(st, r, c, v);
    } else {
      assert v in st.watchers[w].children;
    }
  }

  /** A watcher with an empty `_sourceMap` is subscribed nowhere. */
  lemma NotSubscribed(st: State, w: nat)
    requires Inv(st) && w in st.watchers && st.watchers[w].sources == {}
    ensures forall s, k :: !Subscribed(st.sources, s, k, w)
  {
  }

  // ---------------------------------------------------------------------
  // Construction

  /** `new Source()`: a fresh id with no subscribers. */
  function NewSource(st: State): (r: (State, nat))
    requires Inv(st)
    ensures Inv(r.0)
    ensures r.1 !in st.sources && r.1 in r.0.sources && r.0.sources[r.1].subs == map[]
    ensures forall s :: s in st.sources ==> s in r.0.sources && r.0.sources[s] == st.sources[s]
    ensures r.0.watchers == st.watchers && r.0.sched == st.sched && r.0.active == st.active
  {
    var s := st.nextSource;
    var r := st.(sources := st.sources[s := Source(map[])], nextSource := s + 1);
    assert Linked(r) by {
      forall s', k, w | Subscribed(r.sources, s', k, w)
        ensures w in r.watchers && s' in r.watchers[w].sources
      {
        assert Subscribed(st.sources, s', k, w);
      }
    }
    (r, s)
  }

  /** `new Watcher()`: a fresh inert watcher whose parent is the active
      watcher, entered into that watcher's children. */
  function NewWatcher(st: State): (r: (State, nat))
    requires Inv(st)
    ensures Inv(r.0)
    ensures r.1 !in st.watchers && r.0.watchers.Keys == st.watchers.Keys + {r.1}
    ensures r.0.watchers[r.1] == Watcher(None, {}, [], st.active)
    ensures forall v :: v in st.watchers ==> v < r.1
    ensures st.active.Some? ==>
      r.0.watchers[st.active.value].children == st.watchers[st.active.value].children + [r.1]
    ensures forall v :: v in st.watchers && Some(v) != st.active ==> r.0.watchers[v] == st.watchers[v]
    ensures forall v :: v in st.watchers ==> r.0.watchers[v].code == st.watchers[v].code
    ensures r.0.sources == st.sources && r.0.sched == st.sched && r.0.active == st.active && r.0.out == st.out
    ensures r.0.nextWatcher == st.nextWatcher + 1 && r.0.nextSource == st.nextSource
  {
    var w := st.nextWatcher;
    var ws := st.watchers[w := Watcher(None, {}, [], st.active)];
    var ws' := if st.active.Some? then
                 var p := st.active.value;
                 ws[p := ws[p].(children := ws[p].children + [w])]
               else ws;
    (st.(watchers := ws', nextWatcher := w + 1), w)
  }

  // ---------------------------------------------------------------------
  // Source

  /** `Source.pull`: with no active watcher nothing changes; otherwise the
      active watcher is subscribed under `k` and `s` enters its source map. */
  function Pull(st: State, s: nat, k: Key): (r: State)
    requires Inv(st)
    ensures Inv(r)
    ensures st.active.None? || s !in st.sources ==> r == st
    ensures st.active.Some? && s in st.sources ==>
      Subscribed(r.sources, s, k, st.active.value) && s in r.watchers[st.active.value].sources
    ensures forall s': nat, k': Key, v: nat :: Subscribed(r.sources, s', k', v) <==>
      Subscribed(st.sources, s', k', v) || (Some(v) == st.active && s' == s && k' == k && s in st.sources)
    ensures r.watchers.Keys == st.watchers.Keys && r.sources.Keys == st.sources.Keys
    ensures forall v :: v in st.watchers ==>
      && r.watchers[v].code == st.watchers[v].code
      && r.watchers[v].children == st.watchers[v].children
      && r.watchers[v].parent == st.watchers[v].parent
    ensures forall v :: v in st.watchers && Some(v) != st.active ==> r.watchers[v] == st.watchers[v]
    ensures st.active.Some? && s in st.sources ==>
      r.watchers[st.active.value].sources == st.watchers[st.active.value].sources + {s}
    ensures r.sched == st.sched && r.active == st.active && r.out == st.out
    ensures r.nextWatcher == st.nextWatcher && r.nextSource == st.nextSource
  {
    if st.active.None? || s !in st.sources then st
    else
      var w := st.active.value;
      var src := st.sources[s];
      var ws := if k in src.subs then src.subs[k] else [];
      var ws' := if w in ws then ws else ws + [w];
      var wr := st.watchers[w];
      var r := st.(sources := st.sources[s := Source(src.subs[k := ws'])],
                   watchers := st.watchers[w := wr.(sources := wr.sources + {s})]);
      assert Linked(r) by {
        forall s': nat, k': Key, v: nat | Subscribed(r.sources, s', k', v)
          ensures v in r.watchers && s' in r.watchers[v].sources
        {
          if !(s' == s && k' == k && v == w) {
            assert Subscribed(st.sources, s', k', v);
          }
        }
      }
      r
  }

  /** `Source._removeWatcher`: deletes `w` under every property. */
  function RemoveWatcher(src: Source, w: nat): (r: Source)
    ensures r.subs.Keys == src.subs.Keys
    ensures forall k :: k in src.subs ==> r.subs[k] == Without(src.subs[k], w)
  {
    Source(map k | k in src.subs :: Without(src.subs[k], w))
  }

  /** Subscribers are keys of a JavaScript object: deleting one keeps the
      others in insertion order, which is the order `push` visits them. */
  lemma RemoveWatcherKeepsOrder(src: Source, w: nat)
    ensures forall k :: k in src.subs && Distinct(src.subs[k]) ==>
      RemoveWatcher(src, w).subs[k] == RemoveFromArray(src.subs[k], w)
  {
    forall k | k in src.subs && Distinct(src.subs[k])
      ensures RemoveWatcher(src, w).subs[k] == RemoveFromArray(src.subs[k], w)
    {
      WithoutIsRemove(src.subs[k], w);
    }
  }

  // ---------------------------------------------------------------------
  // Watcher

  /** First half of `_cleanup`: every source in the watcher's source map
      drops it, and the source map is emptied. */
  function Unsubscribe(st: State, w: nat): (r: State)
    requires Inv(st) && w in st.watchers
    ensures Inv(r) && Frame(st, r) && Pruned(st, r) && r.sched == st.sched
    ensures r.watchers[w] == st.watchers[w].(sources := {})
    ensures forall v :: v in st.watchers && v != w ==> r.watchers[v] == st.watchers[v]
    ensures forall s, k, v :: Subscribed(r.sources, s, k, v) <==> Subscribed(st.sources, s, k, v) && v != w
  {
    var ss := st.watchers[w].sources;
    var sources := map s | s in st.sources :: if s in ss then RemoveWatcher(st.sources[s], w) else st.sources[s];
    var r := st.(sources := sources, watchers := st.watchers[w := st.watchers[w].(sources := {})]);
    assert forall s, k, v :: Subscribed(r.sources, s, k, v) <==> Subscribed(st.sources, s, k, v) && v != w by {
      forall s, k, v ensures Subscribed(r.sources, s, k, v) <==> Subscribed(st.sources, s, k, v) && v != w {
        if s in st.sources && s in ss {
          assert r.sources[s] == RemoveWatcher(st.sources[s], w);
        } else if s in st.sources {
          assert r.sources[s] == st.sources[s];
          assert !Subscribed(st.sources, s, k, w);
        }
      }
    }
    r
  }

  /** Last step of `_cleanup`: `this._children = {}`. */
  function ClearChildren(st: State, w: nat): (r: State)
    requires Inv(st) && w in st.watchers
    ensures Inv(r) && Frame(st, r) && r.sched == st.sched && r.sources == st.sources
    ensures r.watchers[w] == st.watchers[w].(children := [])
    ensures (forall c :: c in st.watchers[w].children ==> Disposed(st, c)) ==> Pruned(st, r)
    ensures forall v :: v in st.watchers && v != w ==> r.watchers[v] == st.watchers[v]
  {
    st.(watchers := st.watchers[w := st.watchers[w].(children := [])])
  }

  /** `_cleanup`: unsubscribes the watcher, disposes every child in order,
      and empties the children. The code is left alone. */
  function Cleanup(st: State, w: nat): (r: State)
    requires Inv(st) && w in st.watchers
    ensures Inv(r) && Shape(st, r)
    decreases st.nextWatcher - w, 1
  {
    var st1 := Unsubscribe(st, w);
    var cs := st.watchers[w].children;
    assert forall c :: c in cs ==> w < c && c in st1.watchers by {
      forall c | c in cs ensures w < c && c in st1.watchers {
        assert c in st.watchers.Keys;
      }
    }
    ClearChildren(DisposeChildren(st1, w, cs), w)
  }

  /** `dispose`: clears the code, then cleans up. */
  function Dispose(st: State, w: nat): (r: State)
    requires Inv(st) && w in st.watchers
    ensures Inv(r) && Shape(st, r)
    decreases st.nextWatcher - w, 2
  {
    Cleanup(ClearCode(st, w), w)
  }

  /** `this._code = null`. */
  function ClearCode(st: State, w: nat): (r: State)
    requires Inv(st) && w in st.watchers
    ensures Inv(r) && Frame(st, r) && Pruned(st, r) && r.sched == st.sched && r.sources == st.sources
    ensures r.watchers[w] == st.watchers[w].(code := None)
    ensures forall v :: v in st.watchers && v != w ==> r.watchers[v] == st.watchers[v]
  {
    st.(watchers := st.watchers[w := st.watchers[w].(code := None)])
  }

  /** The loop of `_cleanup` over the children: disposes each in turn. */
  function DisposeChildren(st: State, p: nat, cs: seq<nat>): (r: State)
    requires Inv(st) && p in st.watchers
    requires forall c :: c in cs ==> p < c && c in st.watchers
    ensures Inv(r) && Shape(st, r)
    decreases st.nextWatcher - p, 0, |cs|
  {
    if |cs| == 0 then st
    else
      var st1 := Dispose(st, cs[0]);
      assert forall c :: c in cs[1..] ==> p < c && c in st1.watchers by {
        forall c | c in cs[1..] ensures p < c && c in st1.watchers {
          assert c in cs && c in st.watchers.Keys;
        }
      }
      DisposeChildren(st1, p, cs[1..])
  }

  /** What `_cleanup` achieves: the watcher keeps its code but has no
      sources and no children, each former child is disposed (and so is
      every watcher that left its parent), every watcher outside its subtree
      is untouched, and every subscription that went away belonged to the
      watcher itself or to a watcher below it, now disposed. */
  ghost predicate CleanedUp(st: State, w: nat, r: State)
    requires w in st.watchers
  {
    && Frame(st, r) && r.sched == st.sched
    && w in r.watchers && r.watchers[w] == st.watchers[w].(sources := {}, children := [])
    && (forall c :: c in st.watchers[w].children ==> Disposed(r, c))
    && Pruned(st, r)
    && (forall v :: v in st.watchers && v < w ==> r.watchers[v] == st.watchers[v])
    && KeepsOutside(st, r, w)
    && (forall s, k, v :: Subscribed(st.sources, s, k, v) && !Subscribed(r.sources, s, k, v) ==>
          v == w || (Descendant(Children(st), w, v) && Disposed(r, v)))
  }

  lemma CleanupFacts(st: State, w: nat)
    requires Inv(st) && w in st.watchers
    ensures CleanedUp(st, w, Cleanup(st, w))
  {
    var r := Cleanup(st, w);
    CleanupFrame(st, w);
    CleanupKeeps(st, w);
    forall s, k, v | Subscribed(st.sources, s, k, v) && !Subscribed(r.sources, s, k, v)
      ensures v == w || (Descendant(Children(st), w, v) && Disposed(r, v))
    {
      if v != w {
        assert Within(st, w, v);
      }
    }
  }

  /** What `dispose` achieves: everything `_cleanup` does, and the watcher
      itself is disposed. */
  lemma DisposeFacts(st: State, w: nat)
    requires Inv(st) && w in st.watchers
    ensures var r := Dispose(st, w);
      && Frame(st, r) && r.sched == st.sched
      && Disposed(r, w)
      && (forall c :: c in st.watchers[w].children ==> Disposed(r, c))
      && Pruned(st, r)
      && (forall v :: v in st.watchers && v < w ==> r.watchers[v] == st.watchers[v])
      && KeepsOutside(st, r, w)
      && (forall s, k, v :: Subscribed(st.sources, s, k, v) && !Subscribed(r.sources, s, k, v) ==>
            Within(st, w, v) && Disposed(r, v))
  {
    DisposeFrame(st, w);
    DisposeKeeps(st, w);
  }

  /** What the loop over the children achieves: each is disposed, and a
      watcher outside every child's subtree is untouched. */
  lemma DisposeChildrenFacts(st: State, p: nat, cs: seq<nat>)
    requires Inv(st) && p in st.watchers
    requires forall c :: c in cs ==> p < c && c in st.watchers
    ensures var r := DisposeChildren(st, p, cs);
      && Frame(st, r) && r.sched == st.sched
      && (forall c :: c in cs ==> Disposed(r, c))
      && Pruned(st, r)
      && (forall v :: v in st.watchers && v <= p ==> r.watchers[v] == st.watchers[v])
      && KeepsOutsideAll(st, r, cs)
      && (forall s, k, v :: Subscribed(st.sources, s, k, v) && !Subscribed(r.sources, s, k, v) ==>
            Disposed(r, v) && exists c :: c in cs && Within(st, c, v))
  {
    DisposeChildrenFrame(st, p, cs);
    DisposeChildrenKeeps(st, p, cs);
  }

  // The frame of cleanup, dispose and the loop over the children, proved
  // by one mutual induction; what they keep is a second one below.

  lemma {:induction false} CleanupFrame(st: State, w: nat)
    requires Inv(st) && w in st.watchers
    ensures var r := Cleanup(st, w);
      && Frame(st, r) && r.sched == st.sched
      && w in r.watchers && r.watchers[w] == st.watchers[w].(sources := {}, children := [])
      && (forall c :: c in st.watchers[w].children ==> Disposed(r, c))
      && Pruned(st, r)
      && (forall v :: v in st.watchers && v < w ==> r.watchers[v] == st.watchers[v])
      && (forall s, k, v :: Subscribed(st.sources, s, k, v) && !Subscribed(r.sources, s, k, v) ==>
            v == w || Disposed(r, v))
    decreases st.nextWatcher - w, 1
  {
    var st1 := Unsubscribe(st, w);
    var cs := st.watchers[w].children;
    assert forall c :: c in cs ==> w < c && c in st1.watchers by {
      forall c | c in cs ensures w < c && c in st1.watchers {
        assert c in st.watchers.Keys;
      }
    }
    var st2 := DisposeChildren(st1, w, cs);
    var r := ClearChildren(st2, w);
    DisposeChildrenFrame(st1, w, cs);
    FrameTrans(st, st1, st2);
    FrameTrans(st, st2, r);
    assert st2.watchers[w] == st1.watchers[w];
    PrunedTrans(st, st1, st2);
    PrunedTrans(st, st2, r);
    forall s, k, v | Subscribed(st.sources, s, k, v) && !Subscribed(r.sources, s, k, v)
      ensures v == w || Disposed(r, v)
    {
      if Subscribed(st1.sources, s, k, v) {
        assert Disposed(st2, v);
      }
    }
    forall v | v in st.watchers && v < w ensures r.watchers[v] == st.watchers[v] {
      assert st1.watchers[v] == st.watchers[v];
      assert st2.watchers[v] == st1.watchers[v];
    }
  }

  lemma {:induction false} DisposeFrame(st: State, w: nat)
    requires Inv(st) && w in st.watchers
    ensures var r := Dispose(st, w);
      && Frame(st, r) && r.sched == st.sched
      && Disposed(r, w)
      && (forall c :: c in st.watchers[w].children ==> Disposed(r, c))
      && Pruned(st, r)
      && (forall v :: v in st.watchers && v < w ==> r.watchers[v] == st.watchers[v])
      && (forall s, k, v :: Subscribed(st.sources, s, k, v) && !Subscribed(r.sources, s, k, v) ==>
            Disposed(r, v))
    decreases st.nextWatcher - w, 2
  {
    var st1 := ClearCode(st, w);
    CleanupFrame(st1, w);
    FrameTrans(st, st1, Cleanup(st1, w));
    PrunedTrans(st, st1, Cleanup(st1, w));
  }

  lemma {:induction false} DisposeChildrenFrame(st: State, p: nat, cs: seq<nat>)
    requires Inv(st) && p in st.watchers
    requires forall c :: c in cs ==> p < c && c in st.watchers
    ensures var r := DisposeChildren(st, p, cs);
      && Frame(st, r) && r.sched == st.sched
      && (forall c :: c in cs ==> Disposed(r, c))
      && Pruned(st, r)
      && (forall v :: v in st.watchers && v <= p ==> r.watchers[v] == st.watchers[v])
      && (forall s, k, v :: Subscribed(st.sources, s, k, v) && !Subscribed(r.sources, s, k, v) ==>
            Disposed(r, v))
    decreases st.nextWatcher - p, 0, |cs|
  {
    if |cs| > 0 {
      var st1 := Dispose(st, cs[0]);
      assert forall c :: c in cs[1..] ==> p < c && c in st1.watchers by {
        forall c | c in cs[1..] ensures p < c && c in st1.watchers {
          assert c in cs && c in st.watchers.Keys;
        }
      }
      DisposeFrame(st, cs[0]);
      DisposeChildrenFrame(st1, p, cs[1..]);
      var r := DisposeChildren(st1, p, cs[1..]);
      FrameTrans(st, st1, r);
      PrunedTrans(st, st1, r);
      forall c | c in cs ensures Disposed(r, c) {
        if c !in cs[1..] {
          assert c == cs[0];
        }
      }
    } else {
      assert Frame(st, st);
    }
  }

  lemma {:induction false} CleanupKeeps(st: State, w: nat)
    requires Inv(st) && w in st.watchers
    ensures KeepsOutside(st, Cleanup(st, w), w)
    decreases st.nextWatcher - w, 1
  {
    var st1 := Unsubscribe(st, w);
    var cs := st.watchers[w].children;
    assert forall c :: c in cs ==> w < c && c in st1.watchers by {
      forall c | c in cs ensures w < c && c in st1.watchers {
        assert c in st.watchers.Keys;
      }
    }
    var st2 := DisposeChildren(st1, w, cs);
    DisposeChildrenKeeps(st1, w, cs);
    SameChildren(st1, st);
    CleanupKeepsStep(st, st1, st2, ClearChildren(st2, w), w);
  }

  /** Unsubscribing `w`, tearing down its children and clearing its
      children list keeps everything outside its subtree. */
  lemma CleanupKeepsStep(st: State, st1: State, st2: State, r: State, w: nat)
    requires w in st.watchers && forall c :: c in st.watchers[w].children ==> w < c
    requires Children(st1) == Children(st) && st1.watchers.Keys == st.watchers.Keys
    requires forall v :: v in st.watchers && v != w ==> st1.watchers[v] == st.watchers[v]
    requires forall s, k, v :: Subscribed(st.sources, s, k, v) && v != w ==> Subscribed(st1.sources, s, k, v)
    requires KeepsOutsideAll(st1, st2, st.watchers[w].children)
    requires r.sources == st2.sources && r.watchers.Keys == st2.watchers.Keys
    requires forall v :: v in st2.watchers && v != w ==> r.watchers[v] == st2.watchers[v]
    ensures KeepsOutside(st, r, w)
  {
    var cs := st.watchers[w].children;
    forall v | v in st.watchers && !Within(st, w, v) ensures Kept(st, r, v) {
      forall c | c in cs ensures !Within(st1, c, v) {
        if Within(st, c, v) {
          ChildWithin(st, w, c, v);
        }
      }
      assert Kept(st, st1, v);
      assert Kept(st1, st2, v);
    }
  }

  lemma {:induction false} DisposeKeeps(st: State, w: nat)
    requires Inv(st) && w in st.watchers
    ensures KeepsOutside(st, Dispose(st, w), w)
    decreases st.nextWatcher - w, 2
  {
    var st1 := ClearCode(st, w);
    CleanupKeeps(st1, w);
    KeptThrough(st, st1, Dispose(st, w), w);
  }

  lemma {:induction false} DisposeChildrenKeeps(st: State, p: nat, cs: seq<nat>)
    requires Inv(st) && p in st.watchers
    requires forall c :: c in cs ==> p < c && c in st.watchers
    ensures KeepsOutsideAll(st, DisposeChildren(st, p, cs), cs)
    decreases st.nextWatcher - p, 0, |cs|
  {
    if |cs| > 0 {
      var st1 := Dispose(st, cs[0]);
      assert forall c :: c in cs[1..] ==> p < c && c in st1.watchers by {
        forall c | c in cs[1..] ensures p < c && c in st1.watchers {
          assert c in cs && c in st.watchers.Keys;
        }
      }
      assert Frame(st, st1) by { DisposeFrame(st, cs[0]); }
      DisposeKeeps(st, cs[0]);
      DisposeChildrenKeeps(st1, p, cs[1..]);
      KeepsOutsideStep(st, st1, DisposeChildren(st1, p, cs[1..]), cs);
    } else {
      assert forall v :: v in st.watchers ==> Kept(st, st, v);
    }
  }

  lemma KeepsOutsideStep(st: State, st1: State, r: State, cs: seq<nat>)
    requires |cs| > 0 && Frame(st, st1) && KeepsOutside(st, st1, cs[0]) && KeepsOutsideAll(st1, r, cs[1..])
    ensures KeepsOutsideAll(st, r, cs)
  {
    forall v | v in st.watchers && (forall c :: c in cs ==> !Within(st, c, v)) ensures Kept(st, r, v) {
      assert !Within(st, cs[0], v);
      OutsideRest(st, st1, cs, v);
      KeptTrans(st, st1, r, v);
    }
  }

  /** Outside every listed subtree before the first is torn down, outside
      every remaining one after. */
  lemma OutsideRest(st: State, st1: State, cs: seq<nat>, v: nat)
    requires Frame(st, st1) && |cs| > 0 && forall c :: c in cs ==> !Within(st, c, v)
    ensures forall c :: c in cs[1..] ==> !Within(st1, c, v)
  {
    forall c | c in cs[1..] ensures !Within(st1, c, v) {
      assert c in cs;
      if Within(st1, c, v) {
        WithinShrinks(st, st1, c, v);
      }
    }
  }

  lemma KeptTrans(a: State, b: State, c: State, v: nat)
    requires Kept(a, b, v) && Kept(b, c, v)
    ensures Kept(a, c, v)
  {
  }

  /** `_execute`: schedules the thunk that runs this watcher. */
  function Schedule(st: State, w: nat): (r: State)
    requires Inv(st) && w in st.watchers
    ensures Inv(r)
    ensures w in r.sched.order
    ensures r.sched.order == st.sched.order || r.sched.order == st.sched.order + [w]
    ensures r.sched.pending
    ensures r == st.(sched := r.sched)
  {
    st.(sched := Tick.Schedule(st.sched, w, w).0)
  }

  /** `invalidate`: cleanup, then schedule a re-run. */
  function Invalidate(st: State, w: nat): (r: State)
    requires Inv(st) && w in st.watchers
    ensures Inv(r) && Shape(st, r)
  {
    Schedule(Cleanup(st, w), w)
  }

  /** After `invalidate` the watcher is subscribed under no property of any
      source, has no sources and no children but keeps its code, its former
      children are disposed, every watcher outside its subtree is untouched,
      and it is scheduled: the scheduler gains at most its id. */
  lemma InvalidateFacts(st: State, w: nat)
    requires Inv(st) && w in st.watchers
    ensures var r := Invalidate(st, w);
      && Frame(st, r)
      && r.watchers[w] == st.watchers[w].(sources := {}, children := [])
      && (forall s, k :: !Subscribed(r.sources, s, k, w))
      && (forall c :: c in st.watchers[w].children ==> Disposed(r, c))
      && Pruned(st, r)
      && w in r.sched.order
      && (r.sched.order == st.sched.order || r.sched.order == st.sched.order + [w])
      && KeepsOutside(st, r, w)
      && (forall s, k, v :: Subscribed(st.sources, s, k, v) && !Subscribed(r.sources, s, k, v) ==>
            v == w || (Descendant(Children(st), w, v) && Disposed(r, v)))
  {
    var c := Cleanup(st, w);
    CleanupFacts(st, w);
    NotSubscribed(c, w);
    SchedOnly(st, c, Schedule(c, w));
    SchedKeeps(st, c, Schedule(c, w), w);
  }

  /** Scheduling after a cleanup keeps what the cleanup kept. */
  lemma SchedKeeps(a: State, b: State, r: State, w: nat)
    requires w in a.watchers && CleanedUp(a, w, b) && r == b.(sched := r.sched)
    ensures KeepsOutside(a, r, w)
    ensures forall s, k, v :: Subscribed(a.sources, s, k, v) && !Subscribed(r.sources, s, k, v) ==>
      v == w || (Descendant(Children(a), w, v) && Disposed(r, v))
  {
    assert r.watchers == b.watchers && r.sources == b.sources;
  }

  /** Tearing down `w` after a step that leaves every other watcher, the
      children of `w` and the sources alone keeps what it would have kept. */
  lemma KeptThrough(st: State, st1: State, r: State, w: nat)
    requires w in st.watchers && st1.sources == st.sources && st1.watchers.Keys == st.watchers.Keys
    requires st1.watchers[w].children == st.watchers[w].children
    requires forall v :: v in st.watchers && v != w ==> st1.watchers[v] == st.watchers[v]
    requires KeepsOutside(st1, r, w)
    ensures KeepsOutside(st, r, w)
  {
    SameChildren(st1, st);
    forall v | v in st.watchers && !Within(st, w, v) ensures Kept(st, r, v) {
      assert Kept(st, st1, v);
      KeptTrans(st, st1, r, v);
    }
  }

  /** A step that only touches the scheduler keeps the frame. */
  lemma SchedOnly(a: State, b: State, r: State)
    requires Frame(a, b) && Pruned(a, b) && r == b.(sched := r.sched)
    ensures Frame(a, r) && Pruned(a, r)
  {
  }

  /** `dispose` disposes the whole subtree below the watcher. */
  lemma DisposeDisposesDescendants(st: State, w: nat)
    requires Inv(st) && w in st.watchers
    ensures forall v :: Descendant(Children(st), w, v) ==> Disposed(Dispose(st, w), v)
  {
    DisposeFacts(st, w);
    forall v | Descendant(Children(st), w, v) ensures Disposed(Dispose(st, w), v) {
      PrunedDescendant(st, Dispose(st, w), w, v);
    }
  }

  /** `invalidate` disposes the whole subtree below the watcher, which
      itself keeps its code. */
  lemma InvalidateDisposesDescendants(st: State, w: nat)
    requires Inv(st) && w in st.watchers
    ensures forall v :: Descendant(Children(st), w, v) ==> Disposed(Invalidate(st, w), v)
  {
    InvalidateFacts(st, w);
    forall v | Descendant(Children(st), w, v) ensures Disposed(Invalidate(st, w), v) {
      PrunedDescendant(st, Invalidate(st, w), w, v);
    }
  }

  /** `Watcher.watch(code)`: installs the code, then invalidates. */
  function Watch(st: State, w: nat, code: Body): (r: State)
    requires Inv(st) && w in st.watchers
    ensures Inv(r) && Shape(st, r)
  {
    Invalidate(Install(st, w, code), w)
  }

  /** `this._code = code`. */
  function Install(st: State, w: nat, code: Body): (r: State)
    requires Inv(st) && w in st.watchers
    ensures Inv(r) && r == st.(watchers := st.watchers[w := st.watchers[w].(code := Some(code))])
  {
    st.(watchers := st.watchers[w := st.watchers[w].(code := Some(code))])
  }

  /** After `watch(code)` the watcher holds the new code, is subscribed
      nowhere and has no children, no subscription was added, every watcher
      outside its former subtree is untouched, and a run of it is pending. */
  lemma WatchFacts(st: State, w: nat, code: Body)
    requires Inv(st) && w in st.watchers
    ensures var r := Watch(st, w, code);
      && r.watchers[w] == st.watchers[w].(code := Some(code), sources := {}, children := [])
      && (forall s, k :: !Subscribed(r.sources, s, k, w))
      && (forall s, k, v :: Subscribed(r.sources, s, k, v) ==> Subscribed(st.sources, s, k, v))
      && KeepsOutside(st, r, w)
      && w in r.sched.order && r.sched.thunks[w] == w
  {
    InvalidateFacts(Install(st, w, code), w);
    InstallKeeps(st, w, code, Watch(st, w, code));
  }

  lemma InstallKeeps(st: State, w: nat, code: Body, r: State)
    requires Inv(st) && w in st.watchers && KeepsOutside(Install(st, w, code), r, w)
    ensures KeepsOutside(st, r, w)
  {
    KeptThrough(st, Install(st, w, code), r, w);
  }

  /** `watch(code)` disposes the watcher's whole former subtree. */
  lemma WatchDisposesDescendants(st: State, w: nat, code: Body)
    requires Inv(st) && w in st.watchers
    ensures forall v :: Descendant(Children(st), w, v) ==> Disposed(Watch(st, w, code), v)
  {
    var st1 := Install(st, w, code);
    InvalidateDisposesDescendants(st1, w);
    SameChildren(st1, st);
  }

  lemma SameChildren(a: State, b: State)
    requires a.watchers.Keys == b.watchers.Keys
    requires forall x :: x in a.watchers ==> a.watchers[x].children == b.watchers[x].children
    ensures Children(a) == Children(b)
  {
  }

  /** The module-level `watch(code)`: a new watcher, then `watch(code)` on it. */
  function WatchNew(st: State, code: Body): (r: (State, nat))
    requires Inv(st)
    ensures Inv(r.0)
    ensures r.1 !in st.watchers && r.0.watchers.Keys == st.watchers.Keys + {r.1}
    ensures r.0.active == st.active
  {
    var (st1, w) := NewWatcher(st);
    (Watch(st1, w, code), w)
  }

  /** A watcher created by `watch(code)`: it holds the code, records the
      active watcher as its parent, is appended to that watcher's children,
      and is scheduled to run; no other watcher changes and no subscription
      is added or lost. */
  lemma WatchNewFacts(st: State, code: Body)
    requires Inv(st)
    ensures var (r, w) := WatchNew(st, code);
      && w in r.watchers
      && r.watchers[w] == Watcher(Some(code), {}, [], st.active)
      && w in r.sched.order
      && (st.active.Some? ==> w in r.watchers[st.active.value].children)
      && (forall v :: v in st.watchers ==>
            r.watchers[v] == if Some(v) == st.active then st.watchers[v].(children := st.watchers[v].children + [w])
                             else st.watchers[v])
      && (forall s, k, v :: Subscribed(r.sources, s, k, v) <==> Subscribed(st.sources, s, k, v))
  {
    var (st1, w) := NewWatcher(st);
    InvalidateFacts(Install(st1, w, code), w);
    WatchNewKeeps(st, code);
  }

  lemma WatchNewKeeps(st: State, code: Body)
    requires Inv(st)
    ensures var (r, w) := WatchNew(st, code);
      && (forall v :: v in st.watchers ==>
            r.watchers[v] == if Some(v) == st.active then st.watchers[v].(children := st.watchers[v].children + [w])
                             else st.watchers[v])
      && (forall s, k, v :: Subscribed(r.sources, s, k, v) <==> Subscribed(st.sources, s, k, v))
  {
    var (st1, w) := NewWatcher(st);
    FreshKept(st1, w, code);
  }

  /** A watcher with no children has nothing below it, so `watch(code)` on
      it leaves every other watcher and every subscription alone. */
  lemma FreshKept(st: State, w: nat, code: Body)
    requires Inv(st) && w in st.watchers && st.watchers[w].children == []
    requires forall s, k :: !Subscribed(st.sources, s, k, w)
    ensures var r := Watch(st, w, code);
      && (forall v :: v in st.watchers && v != w ==> r.watchers[v] == st.watchers[v])
      && (forall s, k, v :: Subscribed(r.sources, s, k, v) <==> Subscribed(st.sources, s, k, v))
  {
    var r := Watch(st, w, code);
    WatchFacts(st, w, code);
    ChildlessKept(st, r, w);
  }

  /** Tearing down a watcher with no children keeps every other watcher,
      and loses no subscription if it had none. */
  lemma ChildlessKept(st: State, r: State, w: nat)
    requires w in st.watchers && st.watchers[w].children == [] && KeepsOutside(st, r, w)
    requires forall s, k :: !Subscribed(st.sources, s, k, w)
    requires forall s, k, v :: Subscribed(st.sources, s, k, v) ==> v in st.watchers
    ensures forall v :: v in st.watchers && v != w ==> r.watchers[v] == st.watchers[v]
    ensures forall s, k, v :: Subscribed(st.sources, s, k, v) ==> Subscribed(r.sources, s, k, v)
  {
    forall v | v in st.watchers && v != w ensures Kept(st, r, v) {
      assert !Descendant(Children(st), w, v) by {
        assert Children(st)[w] == [];
      }
    }
  }

  /** The first `watch(code)` of a fresh runtime makes watcher 0, a root
      with no parent, holding the code, and schedules its first run. */
  lemma FirstWatch(code: Body)
    ensures var (r, w) := WatchNew(Init(), code);
      && w == 0 && r.watchers.Keys == {0}
      && r.watchers[0] == Watcher(Some(code), {}, [], None)
      && 0 in r.sched.order
  {
    WatchNewFacts(Init(), code);
  }

  /** The loop of `Source.push` over the subscribers it found: each one
      still subscribed when its turn comes is invalidated (a `for…in` does
      not visit a key deleted by an earlier iteration). */
  function PushEach(st: State, s: nat, k: Key, ws: seq<nat>): (r: State)
    requires Inv(st)
    ensures Inv(r) && Shape(st, r)
    decreases |ws|
  {
    if |ws| == 0 then st
    else
      var st1 := if Subscribed(st.sources, s, k, ws[0]) then Invalidate(st, ws[0]) else st;
      PushEach(st1, s, k, ws[1..])
  }

  /** `Source.push`: invalidates the watchers subscribed under `k`. */
  function Push(st: State, s: nat, k: Key): (r: State)
    requires Inv(st)
    ensures Inv(r) && Shape(st, r)
  {
    PushEach(st, s, k, Subscribers(st, s, k))
  }

  lemma {:induction false} PushEachFacts(st: State, s: nat, k: Key, ws: seq<nat>)
    requires Inv(st)
    ensures var r := PushEach(st, s, k, ws);
      && Frame(st, r) && Pruned(st, r)
      && (forall v :: v in st.sched.order ==> v in r.sched.order)
      && (forall v :: v in r.sched.order ==> v in st.sched.order || v in ws)
      && (forall s', k', v :: Subscribed(st.sources, s', k', v) && !Subscribed(r.sources, s', k', v) ==>
            v in r.sched.order || Disposed(r, v))
      && KeepsUnnotified(st, r, s, k, ws)
    decreases |ws|
  {
    PushEachKeeps(st, s, k, ws);
    if |ws| == 0 {
      assert Frame(st, st);
    } else {
      var st1 := if Subscribed(st.sources, s, k, ws[0]) then Invalidate(st, ws[0]) else st;
      if Subscribed(st.sources, s, k, ws[0]) {
        InvalidateFacts(st, ws[0]);
      } else {
        assert Frame(st, st);
      }
      PushEachFacts(st1, s, k, ws[1..]);
      var r := PushEach(st1, s, k, ws[1..]);
      FrameTrans(st, st1, r);
      PrunedTrans(st, st1, r);
      forall v | v in r.sched.order ensures v in st.sched.order || v in ws {
        if v !in st1.sched.order {
          assert v in ws[1..];
        }
      }
    }
  }

  lemma {:induction false} PushEachKeeps(st: State, s: nat, k: Key, ws: seq<nat>)
    requires Inv(st)
    ensures KeepsUnnotified(st, PushEach(st, s, k, ws), s, k, ws)
    decreases |ws|
  {
    if |ws| == 0 {
      assert forall v :: v in st.watchers ==> Kept(st, st, v);
    } else {
      var st1 := if Subscribed(st.sources, s, k, ws[0]) then Invalidate(st, ws[0]) else st;
      if Subscribed(st.sources, s, k, ws[0]) {
        assert Frame(st, st1) && KeepsOutside(st, st1, ws[0]) by {
          InvalidateFacts(st, ws[0]);
        }
      } else {
        assert Frame(st, st);
      }
      PushEachKeeps(st1, s, k, ws[1..]);
      PushKeepsStep(st, st1, PushEach(st1, s, k, ws[1..]), s, k, ws);
    }
  }

  lemma PushKeepsStep(st: State, st1: State, r: State, s: nat, k: Key, ws: seq<nat>)
    requires |ws| > 0 && Frame(st, st1)
    requires Subscribed(st.sources, s, k, ws[0]) ==> KeepsOutside(st, st1, ws[0])
    requires !Subscribed(st.sources, s, k, ws[0]) ==> st1 == st
    requires KeepsUnnotified(st1, r, s, k, ws[1..])
    ensures KeepsUnnotified(st, r, s, k, ws)
  {
    forall v | v in st.watchers && (forall u :: u in ws && Subscribed(st.sources, s, k, u) ==> !Within(st, u, v))
      ensures Kept(st, r, v)
    {
      assert Kept(st, st1, v) by {
        if Subscribed(st.sources, s, k, ws[0]) {
          assert !Within(st, ws[0], v);
        }
      }
      forall u | u in ws[1..] && Subscribed(st1.sources, s, k, u) ensures !Within(st1, u, v) {
        assert u in ws && Subscribed(st.sources, s, k, u);
        if Within(st1, u, v) {
          WithinShrinks(st, st1, u, v);
        }
      }
      KeptTrans(st, st1, r, v);
    }
  }

  /** Each listed watcher subscribed under the property when the loop
      starts ends pending or disposed, without children, and subscribed
      nowhere. */
  lemma {:induction false} PushEachSubscribers(st: State, s: nat, k: Key, ws: seq<nat>)
    requires Inv(st)
    ensures var r := PushEach(st, s, k, ws);
      forall v :: v in ws && Subscribed(st.sources, s, k, v) ==>
        && (v in r.sched.order || Disposed(r, v))
        && r.watchers[v].children == []
        && (forall s', k' :: !Subscribed(r.sources, s', k', v))
    decreases |ws|
  {
    if |ws| > 0 {
      var st1 := if Subscribed(st.sources, s, k, ws[0]) then Invalidate(st, ws[0]) else st;
      if Subscribed(st.sources, s, k, ws[0]) {
        InvalidateFacts(st, ws[0]);
      }
      PushEachFacts(st1, s, k, ws[1..]);
      PushEachSubscribers(st1, s, k, ws[1..]);
      var r := PushEach(st1, s, k, ws[1..]);
      forall v | v in ws && Subscribed(st.sources, s, k, v)
        ensures && (v in r.sched.order || Disposed(r, v))
                && r.watchers[v].children == []
                && (forall s', k' :: !Subscribed(r.sources, s', k', v))
      {
        if v != ws[0] && Subscribed(st1.sources, s, k, v) {
          assert v in ws[1..];
        } else if v == ws[0] {
          assert forall s', k' :: !Subscribed(st1.sources, s', k', v);
        } else {
          assert Disposed(st1, v);
          NotSubscribed(st1, v);
        }
      }
    }
  }

  /** `push(k)` schedules every watcher subscribed under `k`, except one
      disposed by an earlier invalidation in the same loop; it schedules
      nothing else; it adds no subscription and removes only those of the
      watchers it invalidated or disposed; every watcher outside the
      subscribers' subtrees is untouched; with no subscriber it is a
      no-op. */
  lemma PushFacts(st: State, s: nat, k: Key)
    requires Inv(st)
    ensures var r := Push(st, s, k);
      && Frame(st, r) && Pruned(st, r)
      && (Subscribers(st, s, k) == [] ==> r == st)
      && (forall v :: Subscribed(st.sources, s, k, v) ==> v in r.sched.order || Disposed(r, v))
      && (forall v :: Subscribed(st.sources, s, k, v) ==> r.watchers[v].children == [])
      && (forall v, s', k' :: Subscribed(st.sources, s, k, v) ==> !Subscribed(r.sources, s', k', v))
      && (forall v :: !Subscribed(r.sources, s, k, v))
      && (forall v :: v in r.sched.order ==> v in st.sched.order || Subscribed(st.sources, s, k, v))
      && (forall v :: v in st.sched.order ==> v in r.sched.order)
      && (forall s', k', v :: Subscribed(st.sources, s', k', v) && !Subscribed(r.sources, s', k', v) ==>
            v in r.sched.order || Disposed(r, v))
      && (forall v :: v in st.watchers && (forall u :: Subscribed(st.sources, s, k, u) ==> !Within(st, u, v)) ==>
            Kept(st, r, v))
  {
    PushEachFacts(st, s, k, Subscribers(st, s, k));
    PushEachSubscribers(st, s, k, Subscribers(st, s, k));
  }

  /** `push(k)` disposes the whole former subtree of every watcher that
      was subscribed under `k`. */
  lemma PushDisposesDescendants(st: State, s: nat, k: Key)
    requires Inv(st)
    ensures forall v, d :: Subscribed(st.sources, s, k, v) && Descendant(Children(st), v, d) ==>
      Disposed(Push(st, s, k), d)
  {
    var r := Push(st, s, k);
    PushFacts(st, s, k);
    forall v, d | Subscribed(st.sources, s, k, v) && Descendant(Children(st), v, d)
      ensures Disposed(r, d)
    {
      PrunedDescendant(st, r, v, d);
    }
  }

  // ---------------------------------------------------------------------
  // Running code

  /** Runs one body with whatever watcher is active; the flag says whether
      it threw (the rest of the body is then skipped). */
  function Exec(st: State, body: Body): (r: (State, bool))
    requires Inv(st)
    ensures Inv(r.0)
    ensures r.0.active == st.active
    ensures st.watchers.Keys <= r.0.watchers.Keys
    decreases body, 1
  {
    if |body| == 0 then (st, false)
    else
      var s := Step(st, body[0]);
      if s.1 then s else Exec(s.0, body[1..])
  }

  /** One action of a body; the flag says whether it threw. */
  function Step(st: State, act: Action): (r: (State, bool))
    requires Inv(st)
    ensures Inv(r.0)
    ensures r.0.active == st.active
    ensures st.watchers.Keys <= r.0.watchers.Keys
    ensures r.1 ==> act.Throw? || act.Untracked?
    ensures act.Read? ==> r.0.sched == st.sched && r.0.out == st.out
    ensures act.Write? ==> r.0.out == st.out && r.0.watchers.Keys == st.watchers.Keys
    ensures act.Emit? ==> r.0.out == st.out + [act.tag]
    decreases act, 0
  {
    match act
    case Read(s, k) => (Pull(st, s, k), false)
    case Write(s, k) => (Push(st, s, k), false)
    case Spawn(code) => (WatchNew(st, code).0, false)
    case Untracked(code) => Unwatch(st, code)
    case Emit(t) => (st.(out := st.out + [t]), false)
    case Throw => (st, true)
  }

  /** `unwatch(code)`: runs `code` with no active watcher and restores the
      previous one afterwards, also when the code throws. */
  function Unwatch(st: State, code: Body): (r: (State, bool))
    requires Inv(st)
    ensures Inv(r.0)
    ensures r.0.active == st.active
    ensures st.watchers.Keys <= r.0.watchers.Keys
    decreases code, 2
  {
    var e := Exec(st.(active := None), code);
    (e.0.(active := st.active), e.1)
  }

  /** The thunk `_execute` schedules: does nothing once the code is
      cleared; otherwise makes the watcher active, runs its code, and
      restores the previous active watcher in a `finally`. */
  function RunThunk(st: State, w: nat): (r: (State, bool))
    requires Inv(st)
    ensures Inv(r.0)
    ensures r.0.active == st.active
    ensures (w !in st.watchers || st.watchers[w].code.None?) ==> r == (st, false)
  {
    if w !in st.watchers || st.watchers[w].code.None? then (st, false)
    else
      var e := Exec(st.(active := Some(w)), st.watchers[w].code.value);
      (e.0.(active := st.active), e.1)
  }

  /** `eachInObject(tempCBMap, callFn)`: runs the thunks in order; a throw
      escapes the loop, so the thunks after it never run. */
  function RunBatch(st: State, ws: seq<nat>): (r: (State, bool))
    requires Inv(st)
    ensures Inv(r.0)
    ensures r.0.active == st.active
    decreases |ws|
  {
    if |ws| == 0 then (st, false)
    else
      var t := RunThunk(st, ws[0]);
      if t.1 then t else RunBatch(t.0, ws[1..])
  }

  /** `executeCBs`: empties the pending map and clears the flag before
      running anything, then runs the captured batch. */
  function Flush(st: State): (r: (State, bool))
    requires Inv(st)
    ensures Inv(r.0)
    ensures r.0.active == st.active
  {
    var f := Tick.Flush(st.sched);
    RunBatch(st.(sched := f.0), f.1)
  }

  // ---------------------------------------------------------------------
  // Properties of runs

  /** A body that only reads. */
  predicate ReadsOnly(body: Body) {
    forall i :: 0 <= i < |body| ==> body[i].Read?
  }

  /** Running a body that only reads subscribes the active watcher under
      exactly the properties it pulls (of sources that exist), and changes
      nothing else that is observable. */
  lemma {:induction false} ExecReads(st: State, body: Body)
    requires Inv(st) && ReadsOnly(body)
    ensures var r := Exec(st, body);
      && !r.1
      && (st.active.None? ==> r.0 == st)
      && r.0.watchers.Keys == st.watchers.Keys && r.0.sched == st.sched && r.0.out == st.out
      && r.0.active == st.active && r.0.nextWatcher == st.nextWatcher
      && (forall v :: v in st.watchers ==> r.0.watchers[v].code == st.watchers[v].code)
      && (forall s: nat, k: Key, v: nat :: Subscribed(r.0.sources, s, k, v) <==>
            Subscribed(st.sources, s, k, v) || (Some(v) == st.active && Read(s, k) in body && s in st.sources))
    decreases |body|
  {
    if |body| > 0 {
      var st1 := Pull(st, body[0].src, body[0].key);
      assert ReadsOnly(body[1..]) by {
        forall i | 0 <= i < |body[1..]| ensures body[1..][i].Read? {
          assert body[1..][i] == body[i + 1];
        }
      }
      ExecReads(st1, body[1..]);
      assert body == [body[0]] + body[1..];
    }
  }

  /** Running `a + b` runs `a`, then, unless `a` threw, `b` from where `a`
      left off. */
  lemma {:induction false} ExecAppend(st: State, a: Body, b: Body)
    requires Inv(st)
    ensures var ra := Exec(st, a);
      Exec(st, a + b) == if ra.1 then ra else Exec(ra.0, b)
    decreases |a|
  {
    if |a| > 0 {
      assert (a + b)[0] == a[0];
      assert (a + b)[1..] == a[1..] + b;
      var s := Step(st, a[0]);
      if !s.1 {
        ExecAppend(s.0, a[1..], b);
      }
    } else {
      assert a + b == b;
    }
  }

  /** With no active watcher a read subscribes nobody, so `unwatch` over a
      body that only reads leaves the state exactly as it was. */
  lemma UntrackedReadInvisible(st: State, body: Body)
    requires Inv(st) && ReadsOnly(body)
    ensures Unwatch(st, body) == (st, false)
  {
    ExecReads(st.(active := None), body);
  }

  /** Running the thunk of a watcher subscribed nowhere, whose code only
      reads, leaves it subscribed under exactly the properties it read. */
  lemma RunSubscribesExactly(st: State, w: nat)
    requires Inv(st) && w in st.watchers
    requires st.watchers[w].code.Some? && ReadsOnly(st.watchers[w].code.value)
    requires forall s, k :: !Subscribed(st.sources, s, k, w)
    ensures var r := RunThunk(st, w).0;
      forall s: nat, k: Key :: Subscribed(r.sources, s, k, w) <==>
        Read(s, k) in st.watchers[w].code.value && s in st.sources
  {
    ExecReads(st.(active := Some(w)), st.watchers[w].code.value);
  }

  /** The dependencies a watcher has after it is invalidated and re-run
      are exactly the reads of that run: the old ones are all dropped
      first. */
  lemma RerunSubscribesExactly(st: State, w: nat)
    requires Inv(st) && w in st.watchers
    requires st.watchers[w].code.Some? && ReadsOnly(st.watchers[w].code.value)
    ensures var r := RunThunk(Invalidate(st, w), w).0;
      forall s: nat, k: Key :: Subscribed(r.sources, s, k, w) <==>
        Read(s, k) in st.watchers[w].code.value && s in st.sources
  {
    var st1 := Invalidate(st, w);
    InvalidateFacts(st, w);
    assert st1.watchers[w].code == st.watchers[w].code;
    assert st1.sources.Keys == st.sources.Keys;
    RunSubscribesExactly(st1, w);
  }

  /** `dispose` clears the code, so the thunk it may still have pending
      runs nothing when the tick flushes it. */
  lemma DisposedThunkNoop(st: State, w: nat)
    requires Inv(st) && w in st.watchers
    ensures RunThunk(Dispose(st, w), w) == (Dispose(st, w), false)
  {
    DisposeFacts(st, w);
  }

  /** Once a thunk of the batch throws, the thunks after it never run:
      the batch ends in the state the throw left. */
  lemma {:induction false} BatchStopsAtThrow(st: State, ws: seq<nat>, i: nat)
    requires Inv(st) && i <= |ws| && RunBatch(st, ws[..i]).1
    ensures RunBatch(st, ws) == RunBatch(st, ws[..i])
    decreases i
  {
    assert i > 0;
    var t := RunThunk(st, ws[0]);
    assert ws[..i][0] == ws[0];
    if !t.1 {
      assert ws[..i][1..] == ws[1..][..i - 1];
      BatchStopsAtThrow(t.0, ws[1..], i - 1);
    }
  }

  /** A flush whose pending watchers are all disposed runs nothing: it only
      empties the pending map. */
  lemma FlushOfDisposed(st: State)
    requires Inv(st)
    requires forall w :: w in st.sched.order ==> st.watchers[w].code.None?
    ensures Flush(st) == (st.(sched := Tick.Empty()), false)
  {
    var f := Tick.Flush(st.sched);
    var st1 := st.(sched := f.0);
    BatchOfDisposed(st1, f.1);
  }

  lemma {:induction false} BatchOfDisposed(st: State, ws: seq<nat>)
    requires Inv(st)
    requires forall i :: 0 <= i < |ws| ==> ws[i] !in st.watchers || st.watchers[ws[i]].code.None?
    ensures RunBatch(st, ws) == (st, false)
    decreases |ws|
  {
    if |ws| > 0 {
      BatchOfDisposed(st, ws[1..]);
    }
  }
}
