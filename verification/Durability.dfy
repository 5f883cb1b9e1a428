/** Durable storage as the host programs see it: trees under names, operations that may
    raise, and a process that may die between any two durable effects. */
module Durability {
  import opened Values

  /** How a stretch of the program ends: it returns, it raises, or the process dies. */
  datatype Outcome = Done | Raised | Crashed {
    predicate IsFailure() { !Done? }
    function PropagateFailure(): Outcome
      requires IsFailure()
    {
      this
    }
  }

  /** A file is a tree with one part named ""; a directory has one part per file in it. */
  type Tree = map<string, string>

  ghost predicate SameAt<P>(a: map<P, Tree>, b: map<P, Tree>, p: P) {
    (p in a <==> p in b) && (p in a ==> a[p] == b[p])
  }

  ghost predicate OnlyAt<P(!new)>(a: map<P, Tree>, b: map<P, Tree>, ps: set<P>) {
    forall q :: q !in ps ==> SameAt(a, b, q)
  }

  lemma OnlyAtThen<P(!new)>(a: map<P, Tree>, b: map<P, Tree>, c: map<P, Tree>, ps: set<P>, qs: set<P>)
    requires OnlyAt(a, b, ps) && OnlyAt(b, c, qs)
    ensures OnlyAt(a, c, ps + qs)
  {
    forall q | q !in ps + qs
      ensures SameAt(a, c, q)
    {
      assert SameAt(a, b, q) && SameAt(b, c, q);
    }
  }

  /** How one durable effect fares: what happens before it, and what happens after. */
  datatype Fate = Fate(before: Outcome, after: Outcome) {
    /** The effect takes place exactly if nothing stops it before. */
    predicate Takes() { before.Done? }
    function Ends(): Outcome { if before.Done? then after else before }
  }

  /** An operation without a durable effect of its own. */
  method Step() returns (o: Outcome) {
    if * { return Crashed; }
    if * { return Raised; }
    return Done;
  }

  method AnyFate() returns (f: Fate) {
    var before := Step();
    var after := Step();
    f := Fate(before, after);
  }

  /** An atomic rename to a name that is free; a directory could not take the place of another. */
  method Replace<P(==)>(before: map<P, Tree>, src: P, dst: P) returns (o: Outcome, disk: map<P, Tree>)
    requires src in before && dst !in before
    ensures o.Done? ==> disk == (before - {src})[dst := before[src]]
    ensures disk == before || disk == (before - {src})[dst := before[src]]
  {
    disk := before;
    o := Step();
    if o.IsFailure() { return; }
    disk := (disk - {src})[dst := disk[src]];
    o := Step();
  }

  /** Parts disappear one at a time, in any order; the root entry goes last. */
  method RemovePath<P(==, !new)>(before: map<P, Tree>, p: P) returns (o: Outcome, disk: map<P, Tree>)
    ensures OnlyAt(before, disk, {p})
    ensures disk.Keys <= before.Keys
    ensures o.Done? ==> p !in disk
  {
    disk := before;
    o := Done;
    if p !in disk { return; }
    while disk[p] != map[]
      invariant p in disk && OnlyAt(before, disk, {p}) && disk.Keys == before.Keys
      decreases |disk[p]|
    {
      o := Step();
      if o.IsFailure() { return; }
      var part :| part in disk[p];
      ghost var whole := disk[p];
      disk := disk[p := disk[p] - {part}];
      assert disk[p].Keys == whole.Keys - {part};
      assert |disk[p]| == |disk[p].Keys| && |whole| == |whole.Keys|;
    }
    o := Step();
    if o.IsFailure() { return; }
    disk := disk - {p};
    o := Step();
  }

  /** Parts appear one at a time, in any order. */
  method CopyTree<P(==, !new)>(before: map<P, Tree>, source: Tree, dest: P) returns (o: Outcome, disk: map<P, Tree>)
    ensures OnlyAt(before, disk, {dest})
    ensures o.Done? ==> dest in disk && disk[dest] == source
  {
    disk := before;
    o := Step();
    if o.IsFailure() { return; }
    disk := disk[dest := map[]];
    var left := source.Keys;
    while left != {}
      invariant left <= source.Keys
      invariant dest in disk && disk[dest] == source - left
      invariant OnlyAt(before, disk, {dest})
      decreases left
    {
      o := Step();
      if o.IsFailure() { return; }
      var part :| part in left;
      disk := disk[dest := disk[dest][part := source[part]]];
      left := left - {part};
    }
    o := Step();
  }

  method RemoveParts<P(==, !new)>(before: map<P, Tree>, p: P, doomed: set<string>) returns (o: Outcome, disk: map<P, Tree>)
    requires p in before
    ensures OnlyAt(before, disk, {p})
    ensures o.Done? ==> p in disk && disk[p] == before[p] - doomed
  {
    disk := before;
    var left := doomed;
    while left != {}
      invariant left <= doomed
      invariant p in disk && disk[p] == before[p] - (doomed - left)
      invariant OnlyAt(before, disk, {p})
      decreases left
    {
      o := Step();
      if o.IsFailure() { return; }
      var part :| part in left;
      disk := disk[p := disk[p] - {part}];
      left := left - {part};
    }
    o := Step();
  }
}
