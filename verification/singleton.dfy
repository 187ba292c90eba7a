/** The two singleton helpers of server/src/utils/singleton.py: the `Singleton` wrapper that
    the `singleton` decorator puts around a class, and the `SingletonMeta` metaclass. A class
    is modelled by its constructor, which either builds an instance (`Some`) or raises
    (`None`); a constructor that raises caches nothing, and its exception reaches the caller. */
module Singletons {
  import opened Wrappers

  // ---------------------------------------------------------------------------
  // The decorator

  /** A `Singleton` wrapper's cached instance, with the number of instances built. */
  datatype Wrapper<T> = Wrapper(instance: Option<T>, constructions: nat)

  /** `singleton(cls)`: nothing built yet. */
  function Decorate<T>(): (w: Wrapper<T>)
    ensures w.instance.None? && w.constructions == 0
  {
    Wrapper(None, 0)
  }

  /** `Singleton.__call__`: the constructor runs only when no instance is cached. The result
      is `None` when the constructor raised; the wrapper is then left as it was, so the next
      call constructs again from its own arguments. */
  function Call<A, T>(w: Wrapper<T>, construct: A -> Option<T>, args: A): (r: (Wrapper<T>, Option<T>))
    ensures r.1.Some? ==> r.0.instance == r.1
    ensures w.instance.Some? ==> r == (w, w.instance)
    ensures w.instance.None? ==> r.1 == construct(args)
    ensures w.instance.None? && r.1.None? ==> r.0 == w
    ensures w.instance.None? && r.1.Some? ==> r.0.constructions == w.constructions + 1
  {
    match w.instance
    case Some(x) => (w, Some(x))
    case None =>
      match construct(args)
      case None => (w, None)
      case Some(x) => (Wrapper(Some(x), w.constructions + 1), Some(x))
  }

  /** The constructor raised for each of the first `n` calls. */
  predicate AllRaised<A, T>(construct: A -> Option<T>, calls: seq<A>, n: nat)
    requires n <= |calls|
  {
    forall j :: 0 <= j < n ==> construct(calls[j]).None?
  }

  /** What a run of `n` calls on a fresh wrapper has done: the wrapper is empty exactly when
      every construction raised, and each call's result is as `CallAll` states. */
  ghost predicate DecoratorRun<A, T>(construct: A -> Option<T>, calls: seq<A>, n: nat, w: Wrapper<T>, results: seq<Option<T>>)
    requires n <= |calls| && |results| == n
  {
    && (w.instance.None? <==> AllRaised(construct, calls, n))
    && (w.instance.None? ==> w.constructions == 0)
    && (w.instance.Some? ==> w.constructions == 1)
    && (forall j :: 0 <= j < n ==> (results[j].None? <==> AllRaised(construct, calls, j + 1)))
    && (forall j :: 0 <= j < n && AllRaised(construct, calls, j) && construct(calls[j]).Some? ==>
          results[j] == construct(calls[j]))
    && (forall j :: 0 <= j < n && results[j].Some? ==> results[j] == w.instance)
  }

  /** One more call keeps `DecoratorRun`. */
  lemma DecoratorStep<A, T>(construct: A -> Option<T>, calls: seq<A>, n: nat, w: Wrapper<T>, results: seq<Option<T>>)
    requires n < |calls| && |results| == n && DecoratorRun(construct, calls, n, w, results)
    ensures var r := Call(w, construct, calls[n]);
      DecoratorRun(construct, calls, n + 1, r.0, results + [r.1])
  {
    var r := Call(w, construct, calls[n]);
    var results' := results + [r.1];
    assert AllRaised(construct, calls, n + 1) <==> AllRaised(construct, calls, n) && construct(calls[n]).None?;
    forall j | 0 <= j < n
      ensures results'[j] == results[j]
    {
    }
    if w.instance.Some? {
      assert r == (w, w.instance);
      assert !AllRaised(construct, calls, n + 1);
    } else if construct(calls[n]).None? {
      assert r == (w, None);
    } else {
      assert r.1 == construct(calls[n]) && r.0.instance == r.1;
      forall j | 0 <= j < n
        ensures results[j].None?
      {
        assert AllRaised(construct, calls, j + 1);
      }
    }
  }

  /** A run of calls on a fresh wrapper. A call fails exactly when the constructor raised for
      it and for every call before it. The first call whose construction succeeds builds the
      instance, once, and it and every later call return that instance. */
  method CallAll<A, T>(construct: A -> Option<T>, calls: seq<A>) returns (w: Wrapper<T>, results: seq<Option<T>>)
    ensures |results| == |calls|
    ensures forall i :: 0 <= i < |calls| ==> (results[i].None? <==> AllRaised(construct, calls, i + 1))
    ensures forall i :: 0 <= i < |calls| && AllRaised(construct, calls, i) && construct(calls[i]).Some? ==>
      results[i] == construct(calls[i])
    ensures w.instance.None? <==> AllRaised(construct, calls, |calls|)
    ensures w.instance.None? ==> w.constructions == 0
    ensures w.instance.Some? ==> w.constructions == 1
    ensures forall i :: 0 <= i < |calls| && results[i].Some? ==> results[i] == w.instance
  {
    w := Decorate();
    results := [];
    var i := 0;
    while i < |calls|
      invariant 0 <= i <= |calls| && |results| == i
      invariant DecoratorRun(construct, calls, i, w, results)
    {
      DecoratorStep(construct, calls, i, w, results);
      var r := Call(w, construct, calls[i]);
      w := r.0;
      results := results + [r.1];
      i := i + 1;
    }
  }

  // ---------------------------------------------------------------------------
  // The metaclass

  /** A class, by identity. */
  type Cls = nat

  /** The `_instance` attributes set so far, each in its own class's namespace. */
  type Attrs<T> = map<Cls, T>

  /** `getattr(cls, "_instance")` along the method resolution order (the class first). */
  function Lookup<T>(attrs: Attrs<T>, mro: seq<Cls>): (r: Option<T>)
    ensures r.None? <==> forall i :: 0 <= i < |mro| ==> mro[i] !in attrs
    ensures r.Some? ==> exists i :: 0 <= i < |mro| && mro[i] in attrs && attrs[mro[i]] == r.value
                                   && forall j :: 0 <= j < i ==> mro[j] !in attrs
    decreases |mro|
  {
    if |mro| == 0 then None
    else if mro[0] in attrs then Some(attrs[mro[0]])
    else
      var r := Lookup(attrs, mro[1..]);
      assert forall i :: 0 < i < |mro| ==> mro[i] == mro[1..][i - 1];
      r
  }

  /** `SingletonMeta.__call__` as written: `hasattr` also sees an instance a base class
      stored, so a subclass called after its base returns the base's instance. When the
      class's constructor raises (`None`), nothing is stored. */
  function MetaCall<A, T>(attrs: Attrs<T>, mro: seq<Cls>, construct: (Cls, A) -> Option<T>, args: A): (r: (Attrs<T>, Option<T>))
    requires |mro| > 0
    ensures Lookup(attrs, mro).Some? ==> r == (attrs, Lookup(attrs, mro))
    ensures Lookup(attrs, mro).None? ==> r.1 == construct(mro[0], args)
    ensures Lookup(attrs, mro).None? && r.1.None? ==> r.0 == attrs
    ensures Lookup(attrs, mro).None? && r.1.Some? ==> r.0 == attrs[mro[0] := r.1.value]
  {
    match Lookup(attrs, mro)
    case Some(x) => (attrs, Some(x))
    case None =>
      match construct(mro[0], args)
      case None => (attrs, None)
      case Some(x) => (attrs[mro[0] := x], Some(x))
  }

  /** With `B` a subclass of `A`, calling `A()` and then `B()`: when `A`'s constructor
      succeeds, `B()` gets the `A` instance, built from `A`'s arguments, and `B` never gets one
      of its own; when it raises, `B()` runs `B`'s own constructor. */
  lemma MetaSharesWithSubclass<A, T>(construct: (Cls, A) -> Option<T>, x: A, y: A)
    ensures var first := MetaCall(map[], [0], construct, x);
      var second := MetaCall(first.0, [1, 0], construct, y);
      && first.1 == construct(0, x)
      && (construct(0, x).Some? ==> second.1 == construct(0, x) && 1 !in second.0)
      && (construct(0, x).None? ==> second.1 == construct(1, y))
  {
    var empty: Attrs<T> := map[];
    var first := MetaCall(empty, [0], construct, x);
    assert Lookup(empty, [0]).None?;
    assert [1, 0][1..] == [0];
    if construct(0, x).Some? {
      assert first.0 == map[0 := construct(0, x).value];
      assert Lookup(first.0, [1, 0]) == construct(0, x);
    } else {
      assert first.0 == empty;
      assert Lookup(first.0, [1, 0]).None?;
    }
  }

  /** The evidently intended metaclass call: only the class's own `_instance` counts. When the
      constructor raises (`None`), nothing is stored. */
  function MetaCallOwn<A, T>(attrs: Attrs<T>, c: Cls, construct: (Cls, A) -> Option<T>, args: A): (r: (Attrs<T>, Option<T>))
    ensures r.1.Some? ==> c in r.0 && r.0[c] == r.1.value
    ensures forall k :: k != c ==> (k in r.0 <==> k in attrs) && (k in attrs ==> r.0[k] == attrs[k])
    ensures c in attrs ==> r == (attrs, Some(attrs[c]))
    ensures c !in attrs ==> r.1 == construct(c, args)
    ensures c !in attrs && r.1.None? ==> r.0 == attrs
  {
    if c in attrs then (attrs, Some(attrs[c])) else
      match construct(c, args)
      case None => (attrs, None)
      case Some(x) => (attrs[c := x], Some(x))
  }

  /** No call among the first `n` to class `c` built an instance. */
  predicate NeverBuilt<A, T>(construct: (Cls, A) -> Option<T>, calls: seq<(Cls, A)>, n: nat, c: Cls)
    requires n <= |calls|
  {
    forall l :: 0 <= l < n && calls[l].0 == c ==> construct(calls[l].0, calls[l].1).None?
  }

  /** What a run of `n` metaclass calls from no instances has done: a class holds an instance
      exactly when one of its calls built one, and each call's result is as `MetaCallAll`
      states. */
  ghost predicate MetaRun<A, T>(construct: (Cls, A) -> Option<T>, calls: seq<(Cls, A)>, n: nat, attrs: Attrs<T>, results: seq<Option<T>>)
    requires n <= |calls| && |results| == n
  {
    && (forall c :: c in attrs <==> !NeverBuilt(construct, calls, n, c))
    && (forall j :: 0 <= j < n ==> (results[j].None? <==> NeverBuilt(construct, calls, j + 1, calls[j].0)))
    && (forall j :: 0 <= j < n && NeverBuilt(construct, calls, j, calls[j].0) ==>
          results[j] == construct(calls[j].0, calls[j].1))
    && (forall j :: 0 <= j < n && results[j].Some? ==>
          calls[j].0 in attrs && results[j].value == attrs[calls[j].0])
  }

  /** One more call keeps `MetaRun`. */
  lemma MetaStep<A, T>(construct: (Cls, A) -> Option<T>, calls: seq<(Cls, A)>, n: nat, attrs: Attrs<T>, results: seq<Option<T>>)
    requires n < |calls| && |results| == n && MetaRun(construct, calls, n, attrs, results)
    ensures MetaRun(construct, calls, n + 1, MetaCallOwn(attrs, calls[n].0, construct, calls[n].1).0,
                    results + [MetaCallOwn(attrs, calls[n].0, construct, calls[n].1).1])
  {
    var c := calls[n].0;
    var r := MetaCallOwn(attrs, c, construct, calls[n].1);
    var results' := results + [r.1];
    forall k
      ensures NeverBuilt(construct, calls, n + 1, k) <==>
        NeverBuilt(construct, calls, n, k) && (k == c ==> construct(c, calls[n].1).None?)
    {
    }
    forall j | 0 <= j < n
      ensures results'[j] == results[j]
    {
    }
    if c in attrs {
      assert r == (attrs, Some(attrs[c]));
    } else if construct(c, calls[n].1).None? {
      assert r == (attrs, None);
    } else {
      assert r.1 == construct(c, calls[n].1);
      assert r.0 == attrs[c := r.1.value];
    }
  }

  /** A run of metaclass calls from no instances, whatever other classes are called in
      between. A call fails exactly when no call to its class so far, itself included, built
      an instance. The first call to a class whose construction succeeds builds that class's
      one instance, and every successful call to it returns that instance. Only classes whose
      construction succeeded hold an instance. */
  method MetaCallAll<A, T>(construct: (Cls, A) -> Option<T>, calls: seq<(Cls, A)>) returns (attrs: Attrs<T>, results: seq<Option<T>>)
    ensures |results| == |calls|
    ensures forall i :: 0 <= i < |calls| ==> (results[i].None? <==> NeverBuilt(construct, calls, i + 1, calls[i].0))
    ensures forall i :: 0 <= i < |calls| && NeverBuilt(construct, calls, i, calls[i].0) ==>
      results[i] == construct(calls[i].0, calls[i].1)
    ensures forall i :: 0 <= i < |calls| && results[i].Some? ==>
      calls[i].0 in attrs && results[i].value == attrs[calls[i].0]
    ensures forall c :: c in attrs <==> !NeverBuilt(construct, calls, |calls|, c)
  {
    attrs := map[];
    results := [];
    var i := 0;
    while i < |calls|
      invariant 0 <= i <= |calls| && |results| == i
      invariant MetaRun(construct, calls, i, attrs, results)
    {
      MetaStep(construct, calls, i, attrs, results);
      var r := MetaCallOwn(attrs, calls[i].0, construct, calls[i].1);
      attrs := r.0;
      results := results + [r.1];
      i := i + 1;
    }
  }
}
