/** The finalizer machine does not look at names: worlds that differ only in how objects are called take
    the same steps. */
module Renaming {
  import opened Graph
  import F = Finalizers

  type Names = map<int, int>

  predicate Injective(names: Names) { forall x, y :: x in names && y in names && names[x] == names[y] ==> x == y }

  function Image(names: Names, s: set<int>): (r: set<int>)
    ensures forall x :: x in s && x in names ==> names[x] in r
  {
    set x | x in s && x in names :: names[x]
  }

  function NamedObj(names: Names, o: F.Obj): F.Obj { o.(fields := Image(names, o.fields)) }

  function NamedPhase(names: Names, phase: F.Phase): F.Phase {
    if phase.Finalizing? && phase.running in names then F.Finalizing(names[phase.running]) else phase
  }

  /** w is v with every object called by its name. */
  ghost predicate Renamed(names: Names, v: F.World, w: F.World) {
    && names.Keys == v.objs.Keys && Injective(names) && F.Whole(v)
    && (forall y :: y in w.objs <==> exists x :: x in names && names[x] == y)
    && (forall x :: x in names ==> w.objs[names[x]] == NamedObj(names, v.objs[x]))
    && w.roots == Image(names, v.roots)
    && w.phase == NamedPhase(names, v.phase)
    && F.NULL !in names && (v.phase.Finalizing? ==> v.phase.running == F.NULL || v.phase.running in names)
  }

  lemma ImageIn(names: Names, s: set<int>, x: int)
    requires Injective(names) && x in names
    ensures names[x] in Image(names, s) <==> x in s
  {
    if names[x] in Image(names, s) {
      var y :| y in s && y in names && names[y] == names[x];
      assert y == x;
    }
  }

  lemma ObjectNamed(names: Names, v: F.World, w: F.World, x: int)
    requires Renamed(names, v, w) && x in names
    ensures names[x] in w.objs && w.objs[names[x]] == NamedObj(names, v.objs[x])
  {
    var y := names[x];
    assert exists z :: z in names && names[z] == y;
    hide NamedObj, Image, Injective;
  }

  /** The name of each node. */
  function PathNames(names: Names, p: seq<int>): (q: seq<int>)
    requires forall i :: 0 <= i < |p| ==> p[i] in names
    ensures |q| == |p| && forall i :: 0 <= i < |q| ==> q[i] == names[p[i]]
  {
    seq(|p|, i requires 0 <= i < |p| => names[p[i]])
  }

  lemma PathNamed(names: Names, v: F.World, w: F.World, p: seq<int>)
    requires Renamed(names, v, w) && Path(F.Edges(v.objs), p)
    ensures forall i :: 0 <= i < |p| ==> p[i] in names
    ensures Path(F.Edges(w.objs), PathNames(names, p))
  {
    var g, q := F.Edges(v.objs), PathNames(names, p);
    forall i | 0 <= i < |q| ensures q[i] in F.Edges(w.objs) { ObjectNamed(names, v, w, p[i]); }
    forall i, j | 0 <= i && j == i + 1 && j < |q| ensures q[j] in F.Edges(w.objs)[q[i]] {
      ObjectNamed(names, v, w, p[i]);
      assert p[j] in g[p[i]];
      ImageIn(names, v.objs[p[i]].fields, p[j]);
    }
  }

  lemma EdgeUnnamed(names: Names, v: F.World, w: F.World, x: int, y: int)
    requires Renamed(names, v, w) && x in names && y in w.objs && y in w.objs[names[x]].fields
    ensures exists z :: z in names && names[z] == y && z in v.objs[x].fields
  {
    ObjectNamed(names, v, w, x);
    var z :| z in names && names[z] == y;
    ImageIn(names, v.objs[x].fields, z);
  }

  lemma NodeUnnamed(names: Names, v: F.World, w: F.World, y: int) returns (x: int)
    requires Renamed(names, v, w) && y in F.Edges(w.objs)
    ensures x in names && names[x] == y && x in F.Edges(v.objs)
  {
    x :| x in names && names[x] == y;
  }

  /** A path among names is the path of some objects. */
  lemma {:induction false} PathUnnamed(names: Names, v: F.World, w: F.World, q: seq<int>) returns (p: seq<int>)
    requires Renamed(names, v, w) && Path(F.Edges(w.objs), q)
    ensures |p| == |q| && Path(F.Edges(v.objs), p) && forall i :: 0 <= i < |p| ==> p[i] in names && names[p[i]] == q[i]
    decreases |q|
  {
    var n := |q| - 1;
    assert q[n] in F.Edges(w.objs);
    if n == 0 {
      var x := NodeUnnamed(names, v, w, q[0]);
      p := [x];
    } else {
      var front := q[..n];
      assert q == front + [q[n]];
      PathSnoc(F.Edges(w.objs), front, q[n]);
      var before := PathUnnamed(names, v, w, front);
      EdgeUnnamed(names, v, w, before[n - 1], q[n]);
      var z :| z in names && names[z] == q[n] && z in v.objs[before[n - 1]].fields;
      assert z in F.Edges(v.objs) by { assert names.Keys == v.objs.Keys; }
      p := before + [z];
      hide Renamed, Path;
      PathSnoc(F.Edges(v.objs), before, z);
    }
  }

  /** What is reachable under one set of names is reachable under the other. */
  lemma ReachNamed(names: Names, v: F.World, w: F.World, roots: set<int>, x: int)
    requires Renamed(names, v, w) && x in names && roots <= names.Keys
    ensures Reach(F.Edges(v.objs), roots, x) <==> Reach(F.Edges(w.objs), Image(names, roots), names[x])
  {
    if Reach(F.Edges(v.objs), roots, x) {
      var p :| Path(F.Edges(v.objs), p) && p[0] in roots && p[|p| - 1] == x;
      PathNamed(names, v, w, p);
      var q := PathNames(names, p);
      assert q[0] in Image(names, roots) && q[|q| - 1] == names[x];
    }
    if Reach(F.Edges(w.objs), Image(names, roots), names[x]) {
      var q :| Path(F.Edges(w.objs), q) && q[0] in Image(names, roots) && q[|q| - 1] == names[x];
      var p := PathUnnamed(names, v, w, q);
      ImageIn(names, roots, p[0]);
    }
    hide Renamed, Path;
  }

  lemma ReachableNamed(names: Names, v: F.World, w: F.World, x: int)
    requires Renamed(names, v, w) && x in names
    ensures F.Reachable(v, x) <==> F.Reachable(w, names[x])
    ensures x in F.Unreachable(v) <==> names[x] in F.Unreachable(w)
    ensures x in F.Due(v) <==> names[x] in F.Due(w)
  {
    ReachNamed(names, v, w, v.roots, x);
    ObjectNamed(names, v, w, x);
  }

  // ---- A collection under other names -------------------------------------------------------------

  function Restricted(names: Names, objs: map<int, F.Obj>): Names { map x | x in names && x in objs :: names[x] }

  lemma ImageRestricted(names: Names, objs: map<int, F.Obj>, s: set<int>)
    requires s <= objs.Keys
    ensures Image(Restricted(names, objs), s) == Image(names, s)
  {
  }

  lemma DueNamed(names: Names, v: F.World, w: F.World)
    requires Renamed(names, v, w)
    ensures F.Due(v) == {} <==> F.Due(w) == {}
  {
    if F.Due(v) != {} {
      var x :| x in F.Due(v);
      ReachableNamed(names, v, w, x);
    }
    if F.Due(w) != {} {
      var y :| y in F.Due(w);
      var x := NodeUnnamed(names, v, w, y);
      ReachableNamed(names, v, w, x);
    }
  }

  lemma QueueNamed(names: Names, v: F.World, w: F.World)
    requires Renamed(names, v, w) && v.phase.Idle?
    ensures Renamed(names, v.(objs := F.Queue(v.objs, F.Due(v)), phase := F.Finalizing(F.NULL)),
                    w.(objs := F.Queue(w.objs, F.Due(w)), phase := F.Finalizing(F.NULL)))
  {
    forall x | x in names ensures names[x] in F.Due(w) <==> x in F.Due(v) { ReachableNamed(names, v, w, x); }
    hide F.Due;
  }

  lemma RenamedParts(names: Names, v: F.World, w: F.World)
    requires Renamed(names, v, w)
    ensures names.Keys == v.objs.Keys && Injective(names) && F.Whole(v) && F.NULL !in names
    ensures forall y :: y in w.objs <==> exists x :: x in names && names[x] == y
    ensures forall x :: x in names ==> w.objs[names[x]] == NamedObj(names, v.objs[x])
    ensures w.roots == Image(names, v.roots) && w.phase == NamedPhase(names, v.phase)
    ensures v.phase.Finalizing? ==> v.phase.running == F.NULL || v.phase.running in names
  {
  }

  lemma RenamedWhole(names: Names, v: F.World, w: F.World)
    requires names.Keys == v.objs.Keys && Injective(names) && F.Whole(v) && F.NULL !in names
    requires forall y :: y in w.objs <==> exists x :: x in names && names[x] == y
    requires forall x :: x in names ==> w.objs[names[x]] == NamedObj(names, v.objs[x])
    requires w.roots == Image(names, v.roots) && w.phase == NamedPhase(names, v.phase)
    requires v.phase.Finalizing? ==> v.phase.running == F.NULL || v.phase.running in names
    ensures Renamed(names, v, w)
  {
    hide F.Whole, Injective, NamedObj, Image, NamedPhase;
  }

  lemma IdleAny(names: Names)
    ensures NamedPhase(names, F.Idle) == F.Idle
  {
  }

  lemma IdlePhase(names: Names, phase: F.Phase)
    ensures NamedPhase(names, phase).Idle? <==> phase.Idle?
  {
  }

  lemma WholeRest(v: F.World)
    requires F.Whole(v)
    ensures F.Whole(v.(objs := v.objs - F.Unreachable(v)))
    ensures v.roots <= (v.objs - F.Unreachable(v)).Keys
    ensures forall x :: x in v.objs - F.Unreachable(v) ==> v.objs[x].fields <= (v.objs - F.Unreachable(v)).Keys
  {
    F.ReachableClosed(v);
  }

  lemma RestrictedParts(names: Names, objs: map<int, F.Obj>)
    requires Injective(names) && objs.Keys <= names.Keys
    ensures Restricted(names, objs).Keys == objs.Keys && Injective(Restricted(names, objs))
    ensures forall x :: x in objs ==> Restricted(names, objs)[x] == names[x]
  {
  }

  lemma SweptKeys(names: Names, v: F.World, w: F.World)
    requires Renamed(names, v, w)
    ensures var names' := Restricted(names, v.objs - F.Unreachable(v));
            forall y :: y in w.objs - F.Unreachable(w) <==> exists x :: x in names' && names'[x] == y
  {
    var names', rest := Restricted(names, v.objs - F.Unreachable(v)), w.objs - F.Unreachable(w);
    forall x | x in names
      ensures names[x] in F.Unreachable(w) <==> x in F.Unreachable(v)
    {
      ReachableNamed(names, v, w, x);
    }
    hide F.Unreachable;
    forall y ensures y in rest <==> exists x :: x in names' && names'[x] == y {
      if y in rest {
        var x :| x in names && names[x] == y;
        assert x in names' && names'[x] == y;
      }
      if x :| x in names' && names'[x] == y { assert names[x] == y; }
    }
  }

  lemma SweepNamed(names: Names, v: F.World, w: F.World)
    requires Renamed(names, v, w) && v.phase.Idle?
    ensures var objs := v.objs - F.Unreachable(v);
            Renamed(Restricted(names, objs), v.(objs := objs), w.(objs := w.objs - F.Unreachable(w)))
  {
    hide *;
    RenamedParts(names, v, w);
    IdlePhase(names, v.phase);
    WholeRest(v);
    SweptKeys(names, v, w);
    var objs, rest := v.objs - F.Unreachable(v), w.objs - F.Unreachable(w);
    RestrictedParts(names, objs);
    var names' := Restricted(names, objs);
    forall x | x in names' ensures rest[names'[x]] == NamedObj(names', objs[x]) {
      NamedRestricted(names, objs, v.objs[x]);
    }
    ImageRestricted(names, objs, v.roots);
    assert v.phase == F.Idle;
    IdleAny(names);
    IdleAny(names');
    RenamedWhole(names', v.(objs := objs), w.(objs := rest));
  }

  lemma NamedRestricted(names: Names, objs: map<int, F.Obj>, o: F.Obj)
    requires o.fields <= objs.Keys
    ensures NamedObj(Restricted(names, objs), o) == NamedObj(names, o)
  {
    ImageRestricted(names, objs, o.fields);
  }

  /** A collection does the same under other names. */
  lemma CollectNamed(names: Names, v: F.World, w: F.World)
    requires Renamed(names, v, w) && v.phase.Idle?
    ensures Renamed(Restricted(names, F.Do(v, F.Collect).objs), F.Do(v, F.Collect), F.Do(w, F.Collect))
    ensures F.Do(w, F.Collect).entered == w.entered
    ensures F.Do(w, F.Collect).objs.Keys + F.Do(w, F.Collect).freed == w.objs.Keys + w.freed
  {
    hide *;
    RenamedParts(names, v, w);
    IdlePhase(names, v.phase);
    DueNamed(names, v, w);
    CollectIs(v);
    CollectIs(w);
    if F.Due(v) != {} {
      QueueNamed(names, v, w);
      QueueKeys(v.objs, F.Due(v));
      QueueKeys(w.objs, F.Due(w));
      RestrictedSame(names, F.Queue(v.objs, F.Due(v)));
    } else {
      SweepNamed(names, v, w);
      UnreachableIn(w);
      LogsApart(Restricted(names, v.objs - F.Unreachable(v)), v.(objs := v.objs - F.Unreachable(v)), F.Do(v, F.Collect),
                w.(objs := w.objs - F.Unreachable(w)), F.Do(w, F.Collect));
    }
  }

  lemma CollectIs(w: F.World)
    requires w.phase.Idle?
    ensures F.Do(w, F.Collect) ==
              if F.Due(w) != {} then w.(objs := F.Queue(w.objs, F.Due(w)), phase := F.Finalizing(F.NULL))
              else w.(objs := w.objs - F.Unreachable(w), freed := w.freed + F.Unreachable(w))
  {
  }

  lemma QueueKeys(objs: map<int, F.Obj>, due: set<int>)
    ensures F.Queue(objs, due).Keys == objs.Keys
  {
  }

  lemma UnreachableIn(w: F.World)
    ensures (w.objs - F.Unreachable(w)).Keys + (w.freed + F.Unreachable(w)) == w.objs.Keys + w.freed
  {
  }

  lemma RestrictedSame(names: Names, objs: map<int, F.Obj>)
    requires names.Keys == objs.Keys
    ensures Restricted(names, objs) == names
  {
  }

  /** The logs are no part of it. */
  lemma LogsApart(names: Names, v: F.World, v': F.World, w: F.World, w': F.World)
    requires Renamed(names, v, w)
    requires v' == v.(entered := v'.entered, freed := v'.freed) && w' == w.(entered := w'.entered, freed := w'.freed)
    ensures Renamed(names, v', w')
  {
  }
}
