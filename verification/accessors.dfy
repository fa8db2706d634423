/** `makeGetter`, `makeSetter` and `makeProperty`: accessors for a named
    field of an object that owns a `_source`. Reading pulls the field's
    name on that source; writing a different value stores it and pushes
    the name. */
module Accessors {
  import opened Values
  import opened Runtime

  /** An object with reactive fields: the id of its `_source` and its
      plain own fields. */
  datatype Observable = Observable(src: nat, fields: map<string, Value>)

  /** `this[key]`: `undefined` when the object has no such field. */
  function Field(o: Observable, key: string): Value {
    if key in o.fields then o.fields[key] else Undefined
  }

  /** `makeGetter(key)`: pulls `key`, then returns the field. */
  function Get(st: State, o: Observable, key: string): (r: (State, Value))
    requires Inv(st)
    ensures Inv(r.0)
    ensures r.1 == Field(o, key)
    ensures st.active.None? ==> r.0 == st
    ensures st.active.Some? && o.src in st.sources ==>
      Subscribed(r.0.sources, o.src, Name(key), st.active.value)
    ensures forall s: nat, k: Key, v: nat :: Subscribed(r.0.sources, s, k, v) <==>
      Subscribed(st.sources, s, k, v) || (Some(v) == st.active && s == o.src && k == Name(key) && s in st.sources)
  {
    (Runtime.Pull(st, o.src, Name(key)), Field(o, key))
  }

  /** `makeSetter(key)`: when the new value differs (`!==`) from the
      field, stores it and pushes `key`; otherwise does nothing. */
  function Set(st: State, o: Observable, key: string, v: Value): (r: (State, Observable))
    requires Inv(st)
    ensures Inv(r.0)
    ensures Field(r.1, key) == v && r.1.src == o.src
    ensures forall k :: k != key ==> Field(r.1, k) == Field(o, k)
    ensures Field(o, key) == v ==> r == (st, o)
  {
    if Field(o, key) != v then
      (Runtime.Push(st, o.src, Name(key)), o.(fields := o.fields[key := v]))
    else (st, o)
  }

  /** `makeProperty(key)`: a call without an argument (`undefined`) reads
      like the getter and returns the field; any other argument writes
      like the setter and returns the object itself (`None` here). */
  function Property(st: State, o: Observable, key: string, v: Value): (r: (State, Observable, Option<Value>))
    requires Inv(st)
    ensures Inv(r.0)
    ensures v == Undefined ==> r.1 == o && r.2 == Some(Field(o, key)) && r.0 == Get(st, o, key).0
    ensures v != Undefined ==> r.2.None? && Field(r.1, key) == v && (r.0, r.1) == Set(st, o, key, v)
    ensures forall k :: k != key ==> Field(r.1, k) == Field(o, k)
  {
    if v == Undefined then
      var g := Get(st, o, key);
      (g.0, o, Some(g.1))
    else
      var s := Set(st, o, key, v);
      (s.0, s.1, None)
  }

  /** Writing through a property and reading it back yields the written
      value; `undefined` cannot be written this way, it reads instead. */
  lemma PropertyRoundTrip(st: State, o: Observable, key: string, v: Value)
    requires Inv(st)
    ensures var w := Property(st, o, key, v);
      Property(w.0, w.1, key, Undefined).2 == Some(if v == Undefined then Field(o, key) else v)
  {
  }

  /** A write of a new value notifies: every watcher subscribed under the
      field's name is scheduled, unless an earlier invalidation in the same
      push disposed it; nothing unsubscribed is scheduled; the field is
      left without subscribers until a run reads it again; every watcher
      below a subscriber is disposed, as is every watcher that left a
      parent's children; no subscription is added; and every watcher
      outside the subscribers' subtrees is untouched. */
  lemma SetNotifies(st: State, o: Observable, key: string, v: Value)
    requires Inv(st) && Field(o, key) != v
    ensures var r := Set(st, o, key, v).0;
      && (forall w :: Subscribed(st.sources, o.src, Name(key), w) ==>
            w in r.sched.order || Disposed(r, w))
      && (forall w :: w in r.sched.order ==> w in st.sched.order || Subscribed(st.sources, o.src, Name(key), w))
      && (forall w :: !Subscribed(r.sources, o.src, Name(key), w))
      && (forall w :: Subscribed(st.sources, o.src, Name(key), w) ==> r.watchers[w].children == [])
      && (forall w, d :: Subscribed(st.sources, o.src, Name(key), w) && Descendant(Children(st), w, d) ==>
            Disposed(r, d))
      && Pruned(st, r)
      && Frame(st, r)
      && (forall w :: w in st.watchers && (forall u :: Subscribed(st.sources, o.src, Name(key), u) ==> !Within(st, u, w)) ==>
            Kept(st, r, w))
  {
    PushFacts(st, o.src, Name(key));
    PushDisposesDescendants(st, o.src, Name(key));
  }
}
