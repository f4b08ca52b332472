/** What mutators can do to objects: only a store changes a field, and only one field of an object the task holds;
    and only an allocation adds an object, one that was not there. */
module CollectionLaws {
  import opened CollectionSafety

  lemma OnlyStores(w: World, act: Act, x: int)
    requires Mutating(w, act.t) && x in w.heap
    ensures var v := Mutate(w, act);
            && x in v.heap && |v.heap[x]| == |w.heap[x]|
            && forall k :: 0 <= k < |w.heap[x]| && v.heap[x][k] != w.heap[x][k] ==>
                 && act.Store? && act.block == x && act.field == k && v.heap[x][k] == act.value
                 && x in w.locals[act.t] && (act.value in w.locals[act.t] || act.value == NULL)
  {
  }

  lemma OnlyAllocates(w: World, act: Act, x: int)
    requires Mutating(w, act.t) && x !in w.heap && x in Mutate(w, act).heap
    ensures act.Alloc? && act.block == x && x in Mutate(w, act).locals[act.t]
    ensures forall k :: 0 <= k < |Mutate(w, act).heap[x]| ==> Mutate(w, act).heap[x][k] == NULL
  {
  }

  /** A task gets hold only of what it allocates, loads from an object it holds, or fetches from the globals; or of
      the object whose finalizer it is handed. */
  lemma OnlyReached(w: World, act: Act, x: int)
    requires Mutating(w, act.t)
    requires act.t < |Mutate(w, act).locals| && x in Mutate(w, act).locals[act.t] && x !in w.locals[act.t]
    ensures || (act.Alloc? && act.block == x)
            || (act.Load? && act.block in w.locals[act.t] && act.block in w.heap && x in w.heap[act.block])
            || (act.Fetch? && x in w.globals)
            || act.Revive?
  {
  }
}
