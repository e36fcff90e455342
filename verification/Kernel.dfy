/**
  Whole runs under the kernel's lookup-count protocol: the kernel names only inodes
  it holds references to and forgets no more than it was given.
 */
module Kernel {
  import opened Types
  import opened Recency
  import opened InodeGraph
  import opened Cascade
  import opened Coherence
  import opened Garbage

  /** `answer` is the number and kind the file system reports, or None when it fails. */
  datatype Event =
    | Lookup(parent: Ino, name: string, answer: Option<(Ino, bool)>)
    | Forget(ino: Ino, nlookup: nat)
    | Unlink(parent: Ino, name: string)
    | Rename(parent: Ino, name: string, newParent: Ino, newName: string)

  /** How many references the kernel holds to each inode number. */
  type Held = map<Ino, nat>

  function Count(k: Held, i: Ino): nat {
    if i in k then k[i] else 0
  }

  function After(k: Held, e: Event): Held {
    match e
    case Lookup(_, _, Some((ino, _))) => k[ino := Count(k, ino) + 1]
    case Forget(ino, n) => if n <= Count(k, ino) then k[ino := Count(k, ino) - n] else k
    case _ => k
  }

  // ----- what the bridge does -----

  /** The handler panics: it is given an unknown inode number, or subtracts too much. */
  ghost predicate Panics(g: Graph, e: Event)
    requires WellFormed(g)
  {
    match e
    case Lookup(parent, _, _) => parent !in g.reg
    case Forget(ino, n) => ino in g.reg && Wrap(n) > g.nodes[g.reg[ino]].lookups
    case Unlink(parent, _) => parent !in g.reg
    case Rename(parent, _, newParent, _) => parent !in g.reg || newParent !in g.reg
  }

  /** The graph before and after a handler that did not panic. */
  ghost predicate Transition(g: Graph, e: Event, h: Graph)
    requires WellFormed(g)
  {
    && !Panics(g, e)
    && match e
       case Lookup(parent, name, Some((ino, dir))) =>
         exists spare :: AddedAt(g, h, g.reg[parent], name, ino, dir, spare)
       case Lookup(parent, name, None) => exists done :: RmChildRel(g, g.reg[parent], name, h, done)
       case Unlink(parent, name) => exists done :: RmChildRel(g, g.reg[parent], name, h, done)
       case Rename(parent, name, newParent, newName) =>
         MvChildRel(g, g.reg[parent], name, g.reg[newParent], newName, true, h, true)
       case Forget(ino, n) =>
         if ino in g.reg then exists removed :: RemovedBy(g, g.reg[ino], Wrap(n), h, removed) else h == g
  }

  ghost predicate AddedAt(g: Graph, h: Graph, p: Addr, name: string, ino: Ino, dir: bool, spare: Addr)
    requires WellFormed(g) && p in g.nodes
  {
    Spare(g, ino, spare) && h == AddStep(g, p, name, ino, dir, spare)
  }

  // ----- what the kernel promises -----

  /** The kernel's half of the protocol. */
  ghost predicate Obeys(k: Held, e: Event) {
    match e
    case Lookup(parent, _, answer) =>
      && Count(k, parent) > 0
      && (answer.Some? ==> Count(k, answer.value.0) + 1 < WORD)
    case Forget(ino, n) => n <= Count(k, ino)
    case Unlink(parent, _) => Count(k, parent) > 0
    case Rename(parent, _, newParent, _) => Count(k, parent) > 0 && Count(k, newParent) > 0
  }

  /** What is used as a directory is one; the source panics otherwise. */
  ghost predicate Kinds(g: Graph, e: Event)
    requires WellFormed(g)
  {
    match e
    case Lookup(parent, _, Some(_)) => parent in g.reg ==> g.nodes[g.reg[parent]].dir
    case Rename(parent, name, newParent, _) =>
      parent in g.reg && newParent in g.reg && name in g.nodes[g.reg[parent]].kids ==> g.nodes[g.reg[newParent]].dir
    case _ => true
  }

  /** A found entry displaces no other inode. */
  ghost predicate CoherentEvent(g: Graph, e: Event)
    requires WellFormed(g)
  {
    && Kinds(g, e)
    && match e
       case Lookup(parent, name, Some((ino, dir))) => parent in g.reg ==> CoherentAdd(g, g.reg[parent], name, ino)
       case _ => true
  }

  ghost predicate Matches(g: Graph, k: Held)
    requires WellFormed(g)
  {
    forall i :: i in g.reg ==> g.nodes[g.reg[i]].lookups == Count(k, i)
  }

  /** The bridge's counts are the kernel's, and nothing the kernel holds is missing. */
  ghost predicate Agree(g: Graph, k: Held)
    requires WellFormed(g)
  {
    && Matches(g, k)
    && (forall i :: i in k && k[i] > 0 ==> i in g.reg)
    && (forall i :: i in k ==> k[i] < WORD)
  }

  ghost predicate Inv(g: Graph, k: Held) {
    Coherent(g) && Agree(g, k)
  }

  // ----- one event -----

  /** Neither panic can happen while bridge and kernel agree. */
  lemma NoPanic(g: Graph, k: Held, e: Event)
    requires WellFormed(g) && Agree(g, k) && Obeys(k, e)
    ensures !Panics(g, e)
  {
  }

  lemma RegKnown(g: Graph)
    requires WellFormed(g)
    ensures forall i :: i in g.reg ==> g.reg[i] in g.nodes
  {
  }

  lemma EventForward(g: Graph, e: Event, h: Graph)
    requires WellFormed(g) && Forward(g) && Kinds(g, e) && Transition(g, e, h)
    ensures WellFormed(h) && Forward(h)
  {
    hide RmChildRel, MvChildRel, RemovedBy, AddStep, NoDup, Forward;
    match e
    case Lookup(parent, name, Some((ino, dir))) =>
      var spare :| AddedAt(g, h, g.reg[parent], name, ino, dir, spare);
      AddKeepsForward(g, h, g.reg[parent], name, ino, dir, spare);
    case Lookup(parent, name, None) =>
      var done :| RmChildRel(g, g.reg[parent], name, h, done);
      RmKeepsForward(g, g.reg[parent], name, h, done);
    case Unlink(parent, name) =>
      var done :| RmChildRel(g, g.reg[parent], name, h, done);
      RmKeepsForward(g, g.reg[parent], name, h, done);
    case Rename(parent, name, newParent, newName) =>
      MvKeepsForward(g, g.reg[parent], name, g.reg[newParent], newName, true, h, true);
    case Forget(ino, n) =>
      if ino in g.reg {
        var removed :| RemovedBy(g, g.reg[ino], Wrap(n), h, removed);
        RemovedByForward(g, g.reg[ino], Wrap(n), h, removed);
      }
  }

  // ----- no garbage -----

  /** The lookup that an event counts does not wrap a counter to 0. */
  ghost predicate Fits(g: Graph, e: Event)
    requires WellFormed(g) && !Panics(g, e)
  {
    match e
    case Lookup(parent, _, Some((ino, _))) => AddFits(g, g.reg[parent], ino)
    case _ => true
  }

  /** No event leaves garbage behind, coherent or not, unless a counter wraps. */
  lemma EventNoGarbageExact(g: Graph, e: Event, h: Graph)
    requires WellFormed(g) && Forward(g) && NoGarbage(g) && Kinds(g, e) && Transition(g, e, h)
    ensures NoGarbage(h) <==> Fits(g, e)
  {
    hide RmChildRel, MvChildRel, RemovedBy, AddStep, NoDup, Forward, NoGarbage, AddFits;
    match e
    case Lookup(parent, name, Some((ino, dir))) =>
      var spare :| AddedAt(g, h, g.reg[parent], name, ino, dir, spare);
      AddNoGarbageExact(g, h, g.reg[parent], name, ino, dir, spare);
    case Lookup(parent, name, None) =>
      var done :| RmChildRel(g, g.reg[parent], name, h, done);
      RmNoGarbage(g, g.reg[parent], name, h, done);
    case Unlink(parent, name) =>
      var done :| RmChildRel(g, g.reg[parent], name, h, done);
      RmNoGarbage(g, g.reg[parent], name, h, done);
    case Rename(parent, name, newParent, newName) =>
      MvNoGarbage(g, g.reg[parent], name, g.reg[newParent], newName, true, h, true);
    case Forget(ino, n) =>
      if ino in g.reg {
        var removed :| RemovedBy(g, g.reg[ino], Wrap(n), h, removed);
        ForgetNoGarbage(g, g.reg[ino], Wrap(n), h, removed);
      }
  }

  lemma ForgetNoGarbage(g: Graph, c: Addr, n: nat, h: Graph, removed: bool)
    requires WellFormed(g) && Forward(g) && NoGarbage(g) && c in g.nodes && n <= g.nodes[c].lookups
    requires RemovedBy(g, c, n, h, removed)
    ensures NoGarbage(h)
  {
    hide RemovedBy, WellFormed, Forward;
    RemovedByNoGarbage(g, c, n, h, removed, {});
  }

  // ----- runs -----

  /** A run of the bridge under the kernel's events, from the first graph on. */
  ghost predicate Run(gs: seq<Graph>, es: seq<Event>) {
    && |gs| == |es| + 1
    && forall i :: 0 <= i < |es| ==> WellFormed(gs[i]) && Transition(gs[i], es[i], gs[i + 1])
  }

  function AfterAll(k: Held, es: seq<Event>): Held {
    if es == [] then k else After(AfterAll(k, es[..|es| - 1]), es[|es| - 1])
  }

  ghost predicate ProperKinds(gs: seq<Graph>, es: seq<Event>) {
    && |gs| == |es| + 1
    && forall i :: 0 <= i < |es| ==> WellFormed(gs[i]) && Kinds(gs[i], es[i])
  }

  /** The kernel keeps its half of the protocol throughout. */
  ghost predicate ObeysAll(es: seq<Event>, k: Held) {
    forall i :: 0 <= i < |es| ==> Obeys(AfterAll(k, es[..i]), es[i])
  }

  /** The kernel obeys the protocol throughout, and every found entry is coherent. */
  ghost predicate Obedient(gs: seq<Graph>, es: seq<Event>, k: Held) {
    && |gs| == |es| + 1 && ObeysAll(es, k)
    && forall i :: 0 <= i < |es| ==> WellFormed(gs[i]) && CoherentEvent(gs[i], es[i])
  }

  /** NewPathFS: the root is registered with one lookup. */
  function Initial(root: Addr): Graph {
    Graph(map[root := Node(1, 1, true, map[], [])], map[1 := root], map[root := 0])
  }

  lemma InitialInv(root: Addr)
    ensures Inv(Initial(root), map[1 := 1]) && Forward(Initial(root)) && NoGarbage(Initial(root))
  {
  }

  /** A run without its last event. */
  lemma {:induction false} RunPrefix(gs: seq<Graph>, es: seq<Event>, k: Held)
    requires Run(gs, es) && es != []
    ensures var n := |es| - 1;
            && Run(gs[..n + 1], es[..n]) && WellFormed(gs[n]) && Transition(gs[n], es[n], gs[n + 1])
            && AfterAll(k, es) == After(AfterAll(k, es[..n]), es[n])
            && (ObeysAll(es, k) ==> ObeysAll(es[..n], k) && Obeys(AfterAll(k, es[..n]), es[n]))
            && (ProperKinds(gs, es) ==> ProperKinds(gs[..n + 1], es[..n]) && Kinds(gs[n], es[n]))
  {
    hide Transition, WellFormed, Obeys, Kinds, After;
    var n := |es| - 1;
    forall i | 0 <= i < n && ObeysAll(es, k) ensures Obeys(AfterAll(k, es[..n][..i]), es[..n][i]) {
      assert es[..n][..i] == es[..i];
    }
  }

  lemma {:induction false} RunForward(gs: seq<Graph>, es: seq<Event>)
    requires Run(gs, es) && ProperKinds(gs, es) && WellFormed(gs[0]) && Forward(gs[0])
    ensures forall i :: 0 <= i <= |es| ==> WellFormed(gs[i]) && Forward(gs[i])
  {
    hide Transition, WellFormed, Forward, Kinds, Run, ProperKinds;
    RunLength(gs, es);
    if es != [] {
      var n := |es| - 1;
      RunPrefix(gs, es, map[]);
      RunForward(gs[..n + 1], es[..n]);
      EventForward(gs[n], es[n], gs[n + 1]);
      forall i | 0 <= i <= |es| ensures WellFormed(gs[i]) && Forward(gs[i]) {
        assert i <= n ==> gs[..n + 1][i] == gs[i];
      }
    }
  }

  lemma {:induction false} RunLength(gs: seq<Graph>, es: seq<Event>)
    requires Run(gs, es)
    ensures |gs| == |es| + 1
  {
  }

  /** The event is handled without a panic and wraps no counter to 0. */
  ghost predicate FitsAt(g: Graph, e: Event) {
    WellFormed(g) && !Panics(g, e) && Fits(g, e)
  }

  /** A run is free of garbage throughout exactly when none of its lookups wraps a counter to 0. */
  lemma {:induction false} RunNoGarbageExact(gs: seq<Graph>, es: seq<Event>)
    requires Run(gs, es) && ProperKinds(gs, es) && WellFormed(gs[0]) && Forward(gs[0]) && NoGarbage(gs[0])
    ensures (forall i :: 0 <= i <= |es| ==> NoGarbage(gs[i])) <==> (forall i :: 0 <= i < |es| ==> FitsAt(gs[i], es[i]))
  {
    hide Transition, WellFormed, Forward, Kinds, NoGarbage, FitsAt, Run, ProperKinds;
    RunLength(gs, es);
    RunForward(gs, es);
    if es != [] {
      var n := |es| - 1;
      var fs, ds := gs[..n + 1], es[..n];
      RunPrefix(gs, es, map[]);
      RunNoGarbageExact(fs, ds);
      assert forall i :: 0 <= i <= n ==> fs[i] == gs[i];
      assert forall i :: 0 <= i < n ==> ds[i] == es[i];
      if NoGarbage(gs[n]) {
        EventFitsExact(gs[n], es[n], gs[n + 1]);
      }
    }
  }

  lemma EventFitsExact(g: Graph, e: Event, h: Graph)
    requires WellFormed(g) && Forward(g) && NoGarbage(g) && Kinds(g, e) && Transition(g, e, h)
    ensures NoGarbage(h) <==> FitsAt(g, e)
  {
    hide Fits, Panics, NoGarbage, Forward, Kinds;
    EventNoGarbageExact(g, e, h);
  }

  lemma {:induction false} NothingAfter(k: Held, es: seq<Event>)
    ensures AfterAll(k, es[..0]) == k
  {
  }

  lemma {:induction false} NoPanics(gs: seq<Graph>, es: seq<Event>)
    requires Run(gs, es)
    ensures forall i :: 0 <= i < |es| ==> WellFormed(gs[i]) && !Panics(gs[i], es[i])
  {
    forall i | 0 <= i < |es| ensures WellFormed(gs[i]) && !Panics(gs[i], es[i]) {
      assert Transition(gs[i], es[i], gs[i + 1]);
    }
  }
}
