/**
  Session handles (rddi-memap_cswp/env_map.cpp): an ordered map from handles to environments, in
  which a new session takes the lowest handle without an entry.
 */
module EnvMap {
  const INVHANDLE := 2
  const TOOMANY := 4
  const MAX_HANDLE := 0x7FFF_FFFF

  /** An entry of the std::map, which keeps its entries in key order. */
  datatype Entry<E> = Entry(handle: int, env: E)
  type Table<E> = seq<Entry<E>>

  ghost predicate Ordered<E>(t: Table<E>) {
    && (forall i, j :: 0 <= i < j < |t| ==> t[i].handle < t[j].handle)
    && (forall i :: 0 <= i < |t| ==> 0 <= t[i].handle < MAX_HANDLE)
  }

  ghost predicate Live<E>(t: Table<E>, h: int) {
    exists i :: 0 <= i < |t| && t[i].handle == h
  }

  /** Where the map first departs from 0, 1, 2, ...: the std::mismatch of Store. */
  function Departure<E>(t: Table<E>, from: nat): (k: nat)
    requires from <= |t|
    ensures from <= k <= |t|
    decreases |t| - from
  {
    if from == |t| || t[from].handle != from then from else Departure(t, from + 1)
  }

  datatype Reply<E> = Handle(handle: int) | Env(env: E) | Done | Refused(code: int)

  function Stored<E>(t: Table<E>, env: E): (Table<E>, Reply<E>) {
    var k := Departure(t, 0);
    if k == MAX_HANDLE then (t, Refused(TOOMANY))
    else (t[..k] + [Entry(k, env)] + t[k..], Handle(k))
  }

  function Find<E>(t: Table<E>, h: int, from: nat): (k: nat)
    requires from <= |t|
    ensures from <= k <= |t| && (k < |t| ==> t[k].handle == h)
    decreases |t| - from
  {
    if from == |t| || t[from].handle == h then from else Find(t, h, from + 1)
  }

  function Removed<E>(t: Table<E>, h: int): (Table<E>, Reply<E>) {
    var k := Find(t, h, 0);
    if k == |t| then (t, Refused(INVHANDLE)) else (t[..k] + t[k + 1..], Done)
  }

  lemma {:induction false} FindFirst<E>(t: Table<E>, h: int, from: nat)
    requires from <= |t|
    ensures forall i :: from <= i < Find(t, h, from) ==> t[i].handle != h
    decreases |t| - from
  {
    if from == |t| || t[from].handle == h {
    } else {
      FindFirst(t, h, from + 1);
    }
  }

  lemma {:induction false} DepartureRuns<E>(t: Table<E>, from: nat)
    requires from <= |t|
    ensures var k := Departure(t, from);
      (forall i :: from <= i < k ==> t[i].handle == i) && (k < |t| ==> t[k].handle != k)
    decreases |t| - from
  {
    if from == |t| || t[from].handle != from {
    } else {
      DepartureRuns(t, from + 1);
    }
  }

  /** An ordered table never falls behind the integers. */
  lemma {:induction false} AtLeastIndex<E>(t: Table<E>, i: nat)
    requires Ordered(t) && i < |t|
    ensures t[i].handle >= i
  {
    if i == 0 {
    } else {
      AtLeastIndex(t, i - 1);
    }
  }

  /** The first departure from 0, 1, 2, ... is the least handle not in use. */
  lemma LeastFree<E>(t: Table<E>) returns (k: nat)
    requires Ordered(t)
    ensures k == Departure(t, 0) && k <= |t| && k <= MAX_HANDLE && !Live(t, k)
    ensures forall h :: 0 <= h < k ==> Live(t, h)
    ensures forall i :: 0 <= i < |t| ==> if i < k then t[i].handle == i else t[i].handle > k
  {
    k := Departure(t, 0);
    DepartureRuns(t, 0);
    forall h | 0 <= h < k ensures Live(t, h) { assert t[h].handle == h; }
    if k < |t| { AtLeastIndex(t, k); }
    if k > 0 { assert t[k - 1].handle < MAX_HANDLE; }
  }

  lemma Inserted<E>(t: Table<E>, k: nat, e: Entry<E>)
    requires Ordered(t) && k <= |t| && e.handle == k < MAX_HANDLE
    requires forall i :: 0 <= i < |t| ==> if i < k then t[i].handle == i else t[i].handle > k
    ensures var u := t[..k] + [e] + t[k..];
      && Ordered(u) && |u| == |t| + 1 && e in u
      && (forall x <- t :: x in u) && (forall x <- u :: x in t || x == e)
  {
    var u := t[..k] + [e] + t[k..];
    InsertedMembers(t, k, e);
    assert forall i :: 0 <= i < |u| ==> u[i] == if i < k then t[i] else if i == k then e else t[i - 1];
  }

  lemma InsertedMembers<E>(t: Table<E>, k: nat, e: Entry<E>)
    requires k <= |t|
    ensures var u := t[..k] + [e] + t[k..];
      e in u && (forall x <- t :: x in u) && (forall x <- u :: x in t || x == e)
  {
    var u := t[..k] + [e] + t[k..];
    assert u[k] == e;
    forall x <- t ensures x in u {
      var i :| 0 <= i < |t| && t[i] == x;
      assert u[if i < k then i else i + 1] == x;
    }
  }

  /** Store takes the least handle not in use and adds just that entry; it refuses exactly when every
      handle below the largest integer is taken. */
  lemma StoreLeast<E>(t: Table<E>, env: E)
    requires Ordered(t)
    ensures var (u, r) := Stored(t, env);
      && Ordered(u)
      && (r == Refused(TOOMANY) || r.Handle?)
      && (r.Refused? <==> forall h :: 0 <= h < MAX_HANDLE ==> Live(t, h))
      && (r.Refused? ==> u == t)
      && (r.Handle? ==>
            && !Live(t, r.handle) && 0 <= r.handle <= |t| && (forall h :: 0 <= h < r.handle ==> Live(t, h))
            && |u| == |t| + 1 && Entry(r.handle, env) in u
            && (forall e <- t :: e in u) && (forall e <- u :: e in t || e == Entry(r.handle, env)))
  {
    var k := LeastFree(t);
    if k < MAX_HANDLE { Inserted(t, k, Entry(k, env)); }
    hide Ordered, Live, Departure;
  }

  lemma Erased<E>(t: Table<E>, k: nat)
    requires Ordered(t) && k < |t|
    ensures var u := t[..k] + t[k + 1..];
      && Ordered(u) && !Live(u, t[k].handle) && |u| == |t| - 1
      && (forall e <- u :: e in t) && (forall e <- t :: e != t[k] ==> e in u)
  {
    var u := t[..k] + t[k + 1..];
    assert forall i :: 0 <= i < |u| ==> u[i] == if i < k then t[i] else t[i + 1];
    forall e | e in t && e != t[k] ensures e in u {
      var i :| 0 <= i < |t| && t[i] == e;
      assert u[if i < k then i else i - 1] == e;
    }
  }

  /** Remove undoes exactly one entry, or refuses an unknown handle and changes nothing. */
  lemma RemoveOne<E>(t: Table<E>, h: int)
    requires Ordered(t)
    ensures var (u, r) := Removed(t, h);
      && Ordered(u) && (r == Done <==> Live(t, h)) && (r == Done || (r == Refused(INVHANDLE) && u == t))
      && !Live(u, h) && (forall e <- u :: e in t) && (forall e <- t :: e.handle != h ==> e in u)
      && |u| == |t| - (if Live(t, h) then 1 else 0)
  {
    var k := Find(t, h, 0);
    FindFirst(t, h, 0);
    if k < |t| {
      Erased(t, k);
      assert Live(t, h);
    }
    hide Ordered;
  }

  // ---------------------------------------------------------------- runs

  datatype Step<E> = Opening(env: E) | Closing(handle: int)

  function Apply<E>(t: Table<E>, s: Step<E>): Table<E> {
    match s
    case Opening(env) => Stored(t, env).0
    case Closing(h) => Removed(t, h).0
  }

  function Run<E>(t: Table<E>, steps: seq<Step<E>>): Table<E>
    decreases |steps|
  {
    if steps == [] then t else Run(Apply(t, steps[0]), steps[1..])
  }

  /** The largest number of sessions open at once. */
  function Peak<E>(t: Table<E>, steps: seq<Step<E>>): nat
    decreases |steps|
  {
    if steps == [] then |t|
    else var p := Peak(Apply(t, steps[0]), steps[1..]); if p < |t| then |t| else p
  }

  ghost predicate Below<E>(t: Table<E>, n: nat) {
    forall e <- t :: e.handle < n
  }

  /** Over every run from the empty table live handles are distinct, and below the peak number of
      sessions open at once. */
  lemma {:induction false} HandlesBelowPeak<E>(t: Table<E>, steps: seq<Step<E>>, n: nat)
    requires Ordered(t) && Below(t, n)
    ensures var u, p := Run(t, steps), Peak(t, steps);
      Ordered(u) && Below(u, if p < n then n else p)
    decreases |steps|
  {
    if steps == [] {
    } else {
      var u := Apply(t, steps[0]);
      match steps[0] {
        case Opening(env) => StoreLeast(t, env);
        case Closing(h) => RemoveOne(t, h);
      }
      var m := if n < |u| then |u| else n;
      assert Below(u, m);
      HandlesBelowPeak(u, steps[1..], m);
      PeakCovers(u, steps[1..]);
    }
  }

  lemma {:induction false} PeakCovers<E>(t: Table<E>, steps: seq<Step<E>>)
    ensures Peak(t, steps) >= |t|
  {
  }

  // ---------------------------------------------------------------- the object

  /** The file's global map and its three functions. */
  class EnvironmentMap<E(==)> {
    var envs: Table<E>

    ghost predicate Valid()
      reads this
    {
      Ordered(envs)
    }

    constructor ()
      ensures Valid() && envs == []
    {
      envs := [];
    }

    method Lookup(h: int) returns (r: Reply<E>)
      requires Valid()
      ensures r.Env? <==> Live(envs, h)
      ensures r.Env? ==> Entry(h, r.env) in envs
      ensures !r.Env? ==> r == Refused(INVHANDLE)
    {
      var k := FindEntry(h);
      FindFirst(envs, h, 0);
      if k == |envs| { return Refused(INVHANDLE); }
      r := Env(envs[k].env);
    }

    method FindEntry(h: int) returns (k: nat)
      ensures k == Find(envs, h, 0)
    {
      k := 0;
      while k < |envs| && envs[k].handle != h
        invariant k <= |envs| && Find(envs, h, 0) == Find(envs, h, k)
      {
        k := k + 1;
      }
    }

    method Store(env: E) returns (r: Reply<E>)
      requires Valid()
      modifies this
      ensures Valid() && (envs, r) == Stored(old(envs), env)
    {
      StoreLeast(envs, env);
      var k := 0;
      while k < |envs| && envs[k].handle == k
        invariant k <= |envs| && Departure(envs, 0) == Departure(envs, k)
      {
        k := k + 1;
      }
      if k == MAX_HANDLE { return Refused(TOOMANY); }
      envs := envs[..k] + [Entry(k, env)] + envs[k..];
      r := Handle(k);
    }

    method Remove(h: int) returns (r: Reply<E>)
      requires Valid()
      modifies this
      ensures Valid() && (envs, r) == Removed(old(envs), h)
    {
      RemoveOne(envs, h);
      var k := FindEntry(h);
      if k == |envs| { return Refused(INVHANDLE); }
      envs := envs[..k] + envs[k + 1..];
      r := Done;
    }
  }
}
