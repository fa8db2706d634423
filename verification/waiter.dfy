/** `Waiter`: a watcher whose body builds an object, then calls `code` on
    it when every own value is set, and `elseCode` (if any) otherwise.

    `buildObject` is a closure; its effect on one run is split into the
    reads it performs (a trace) and the object it returns (a snapshot of
    own properties in enumeration order), both fixed when `await` is
    called. */
module Waiters {
  import opened Values
  import opened Runtime

  /** The scan of `allSetInObject`: stops at the first own value that is
      `null` or `undefined`. */
  function AllSet(obj: Object): (r: bool)
    ensures r <==> forall i :: 0 <= i < |obj| ==> IsSet(obj[i].1)
  {
    if |obj| == 0 then true
    else if !IsSet(obj[0].1) then false
    else
      var rest := AllSet(obj[1..]);
      assert forall i :: 1 <= i < |obj| ==> obj[i] == obj[1..][i - 1];
      rest
  }

  /** `allSetInObject`: the scan, unless the first `obj.hasOwnProperty(key)`
      call throws because the object has an own property of that name. */
  function AllSetInObject(obj: Object): (r: Result<bool>)
    ensures r.Err? <==> ShadowsHasOwnProperty(obj)
    ensures r.Err? ==> r.error == TypeError
    ensures r.Ok? ==> (r.value <==> forall i :: 0 <= i < |obj| ==> IsSet(obj[i].1))
  {
    if ShadowsHasOwnProperty(obj) then Err(TypeError) else Ok(AllSet(obj))
  }

  /** `new Waiter()`: owns one inert watcher. */
  datatype Waiter = Waiter(watcher: nat)

  function NewWaiter(st: State): (r: (State, Waiter))
    requires Inv(st)
    ensures Inv(r.0)
    ensures r.1.watcher !in st.watchers && r.1.watcher in r.0.watchers
    ensures r.0.watchers[r.1.watcher].code.None?
  {
    var (st1, w) := NewWatcher(st);
    (st1, Waiter(w))
  }

  /** The body `await` installs, as one run of it behaves: the reads of
      `buildObject`, then a throw out of `allSetInObject`, or `code`, or
      the else branch. */
  function AwaitBody(build: Body, obj: Object, code: Body, elseCode: Option<Body>): (r: Body)
    ensures |build| <= |r| && r[..|build|] == build
    ensures ShadowsHasOwnProperty(obj) ==> r[|build|..] == [Throw]
    ensures !ShadowsHasOwnProperty(obj) && (forall i :: 0 <= i < |obj| ==> IsSet(obj[i].1)) ==>
      r[|build|..] == code
    ensures !ShadowsHasOwnProperty(obj) && (exists i :: 0 <= i < |obj| && !IsSet(obj[i].1)) ==>
      r[|build|..] == elseCode.GetOr([])
  {
    build + (match AllSetInObject(obj)
             case Err(_) => [Throw]
             case Ok(all) => if all then code else elseCode.GetOr([]))
  }

  /** `Waiter.await(buildObject, code, elseCode)`: `watch` on its watcher. */
  function Await(st: State, wt: Waiter, build: Body, obj: Object, code: Body, elseCode: Option<Body>): (r: State)
    requires Inv(st) && wt.watcher in st.watchers
    ensures Inv(r)
    ensures r.watchers.Keys == st.watchers.Keys && r.out == st.out && r.active == st.active
  {
    Watch(st, wt.watcher, AwaitBody(build, obj, code, elseCode))
  }

  /** `Waiter.dispose` delegates to its watcher: the watcher and its whole
      subtree end disposed, and nothing outside that subtree changes. */
  function DisposeWaiter(st: State, wt: Waiter): (r: State)
    requires Inv(st) && wt.watcher in st.watchers
    ensures Inv(r) && r.watchers.Keys == st.watchers.Keys
    ensures Disposed(r, wt.watcher)
    ensures forall v :: Descendant(Children(st), wt.watcher, v) ==> Disposed(r, v)
    ensures KeepsOutside(st, r, wt.watcher)
  {
    DisposeFacts(st, wt.watcher);
    DisposeDisposesDescendants(st, wt.watcher);
    Dispose(st, wt.watcher)
  }

  /** `Waiter.invalidate` delegates to its watcher: it keeps its code but
      loses its sources and children, is subscribed nowhere, is scheduled
      to run again, and nothing outside its subtree changes. */
  function InvalidateWaiter(st: State, wt: Waiter): (r: State)
    requires Inv(st) && wt.watcher in st.watchers
    ensures Inv(r) && r.watchers.Keys == st.watchers.Keys
    ensures r.watchers[wt.watcher] == st.watchers[wt.watcher].(sources := {}, children := [])
    ensures forall s, k :: !Subscribed(r.sources, s, k, wt.watcher)
    ensures wt.watcher in r.sched.order
    ensures forall v :: Descendant(Children(st), wt.watcher, v) ==> Disposed(r, v)
    ensures KeepsOutside(st, r, wt.watcher)
  {
    InvalidateFacts(st, wt.watcher);
    InvalidateDisposesDescendants(st, wt.watcher);
    Invalidate(st, wt.watcher)
  }

  /** After `await`, the watcher holds the body and a run is pending. */
  lemma AwaitInstalls(st: State, wt: Waiter, build: Body, obj: Object, code: Body, elseCode: Option<Body>)
    requires Inv(st) && wt.watcher in st.watchers
    ensures var r := Await(st, wt, build, obj, code, elseCode);
      && r.watchers[wt.watcher].code == Some(AwaitBody(build, obj, code, elseCode))
      && wt.watcher in r.sched.order
  {
    var w := wt.watcher;
    InvalidateFacts(Install(st, w, AwaitBody(build, obj, code, elseCode)), w);
  }

  /** One run of a body that reads and then calls the outside world once:
      the call is made, the body does not throw, and the watcher keeps its
      code for the next run. */
  lemma RunReadThenEmit(st: State, w: nat, build: Body, t: nat)
    requires Inv(st) && w in st.watchers && ReadsOnly(build)
    requires st.watchers[w].code == Some(build + [Emit(t)])
    ensures var r := RunThunk(st, w);
      && !r.1
      && r.0.out == st.out + [t]
      && w in r.0.watchers && r.0.watchers[w].code == st.watchers[w].code
  {
    var st0 := st.(active := Some(w));
    ExecAppend(st0, build, [Emit(t)]);
    ExecReads(st0, build);
  }

  /** A body that reads and then throws: no call, and the watcher keeps
      its code. */
  lemma RunReadThenThrow(st: State, w: nat, build: Body)
    requires Inv(st) && w in st.watchers && ReadsOnly(build)
    requires st.watchers[w].code == Some(build + [Throw])
    ensures var r := RunThunk(st, w);
      && r.1
      && r.0.out == st.out
      && w in r.0.watchers && r.0.watchers[w].code == st.watchers[w].code
  {
    var st0 := st.(active := Some(w));
    ExecAppend(st0, build, [Throw]);
    ExecReads(st0, build);
  }

  /** A body that reads and then does nothing: no call, no throw. */
  lemma RunReadOnly(st: State, w: nat, build: Body)
    requires Inv(st) && w in st.watchers && ReadsOnly(build)
    requires st.watchers[w].code == Some(build + [])
    ensures var r := RunThunk(st, w);
      !r.1 && r.0.out == st.out
  {
    assert build + [] == build;
    ExecReads(st.(active := Some(w)), build);
  }

  /** The run `await` schedules throws, calling nothing, exactly when the
      object has an own `hasOwnProperty`; otherwise it calls `code` exactly
      when every own value of the object is neither `null` nor
      `undefined`, and `elseCode` otherwise. */
  lemma AwaitChoosesBranch(st: State, wt: Waiter, build: Body, obj: Object, c: nat, e: nat)
    requires Inv(st) && wt.watcher in st.watchers && ReadsOnly(build)
    ensures var r := RunThunk(Await(st, wt, build, obj, [Emit(c)], Some([Emit(e)])), wt.watcher);
      && (r.1 <==> ShadowsHasOwnProperty(obj))
      && r.0.out == st.out + (if ShadowsHasOwnProperty(obj) then []
                              else if forall i :: 0 <= i < |obj| ==> IsSet(obj[i].1) then [c] else [e])
  {
    AwaitInstalls(st, wt, build, obj, [Emit(c)], Some([Emit(e)]));
    RunAwaitBody(Await(st, wt, build, obj, [Emit(c)], Some([Emit(e)])), wt.watcher, build, obj, c, e);
  }

  /** One run of an installed `await` body with both branches. */
  lemma RunAwaitBody(st: State, w: nat, build: Body, obj: Object, c: nat, e: nat)
    requires Inv(st) && w in st.watchers && ReadsOnly(build)
    requires st.watchers[w].code == Some(AwaitBody(build, obj, [Emit(c)], Some([Emit(e)])))
    ensures var r := RunThunk(st, w);
      && (r.1 <==> ShadowsHasOwnProperty(obj))
      && r.0.out == st.out + (if ShadowsHasOwnProperty(obj) then []
                              else if forall i :: 0 <= i < |obj| ==> IsSet(obj[i].1) then [c] else [e])
  {
    match AllSetInObject(obj)
    case Err(_) =>
      RunReadThenThrow(st, w, build);
    case Ok(all) =>
      if all {
        RunReadThenEmit(st, w, build, c);
      } else {
        RunReadThenEmit(st, w, build, e);
      }
  }

  /** Without `elseCode`, a run over an object with a missing value, or
      with an own `hasOwnProperty`, calls nothing. */
  lemma AwaitWithoutElse(st: State, wt: Waiter, build: Body, obj: Object, c: nat)
    requires Inv(st) && wt.watcher in st.watchers && ReadsOnly(build)
    requires ShadowsHasOwnProperty(obj) || exists i :: 0 <= i < |obj| && !IsSet(obj[i].1)
    ensures var r := RunThunk(Await(st, wt, build, obj, [Emit(c)], None), wt.watcher).0;
      r.out == st.out
  {
    var st1 := Await(st, wt, build, obj, [Emit(c)], None);
    AwaitInstalls(st, wt, build, obj, [Emit(c)], None);
    if ShadowsHasOwnProperty(obj) {
      RunReadThenThrow(st1, wt.watcher, build);
    } else {
      RunReadOnly(st1, wt.watcher, build);
    }
  }

  /** Two runs of a body that reads and calls once make two calls. */
  lemma RunTwiceEmitsTwice(st: State, w: nat, build: Body, c: nat)
    requires Inv(st) && w in st.watchers && ReadsOnly(build)
    requires st.watchers[w].code == Some(build + [Emit(c)])
    ensures var r1 := RunThunk(st, w);
      var r2 := RunThunk(r1.0, w);
      !r1.1 && !r2.1 && r2.0.out == st.out + [c, c]
  {
    RunReadThenEmit(st, w, build, c);
    RunReadThenEmit(RunThunk(st, w).0, w, build, c);
  }

  /** Two runs of a body that reads and throws both throw and call
      nothing. */
  lemma RunTwiceThrowsTwice(st: State, w: nat, build: Body)
    requires Inv(st) && w in st.watchers && ReadsOnly(build)
    requires st.watchers[w].code == Some(build + [Throw])
    ensures var r1 := RunThunk(st, w);
      var r2 := RunThunk(r1.0, w);
      r1.1 && r2.1 && r2.0.out == st.out
  {
    RunReadThenThrow(st, w, build);
    RunReadThenThrow(RunThunk(st, w).0, w, build);
  }

  /** No deduplication: every run over a complete object calls `code`
      again, although nothing changed in between; with an own
      `hasOwnProperty` every run throws instead. */
  lemma AwaitFiresEveryRun(st: State, wt: Waiter, build: Body, obj: Object, c: nat)
    requires Inv(st) && wt.watcher in st.watchers && ReadsOnly(build)
    requires forall i :: 0 <= i < |obj| ==> IsSet(obj[i].1)
    ensures var st1 := Await(st, wt, build, obj, [Emit(c)], None);
      var r1 := RunThunk(st1, wt.watcher);
      var r2 := RunThunk(r1.0, wt.watcher);
      && (r1.1 <==> ShadowsHasOwnProperty(obj)) && (r2.1 <==> ShadowsHasOwnProperty(obj))
      && r2.0.out == st.out + (if ShadowsHasOwnProperty(obj) then [] else [c, c])
  {
    AwaitInstalls(st, wt, build, obj, [Emit(c)], None);
    RunAwaitBodyTwice(Await(st, wt, build, obj, [Emit(c)], None), wt.watcher, build, obj, c);
  }

  /** Two runs of an installed `await` body over a complete object. */
  lemma RunAwaitBodyTwice(st: State, w: nat, build: Body, obj: Object, c: nat)
    requires Inv(st) && w in st.watchers && ReadsOnly(build)
    requires forall i :: 0 <= i < |obj| ==> IsSet(obj[i].1)
    requires st.watchers[w].code == Some(AwaitBody(build, obj, [Emit(c)], None))
    ensures var r1 := RunThunk(st, w);
      var r2 := RunThunk(r1.0, w);
      && (r1.1 <==> ShadowsHasOwnProperty(obj)) && (r2.1 <==> ShadowsHasOwnProperty(obj))
      && r2.0.out == st.out + (if ShadowsHasOwnProperty(obj) then [] else [c, c])
  {
    if ShadowsHasOwnProperty(obj) {
      RunTwiceThrowsTwice(st, w, build);
    } else {
      RunTwiceEmitsTwice(st, w, build, c);
    }
  }
}
