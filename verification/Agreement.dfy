/**
  When bridge and kernel keep agreeing on the lookup counts: exactly when no removal
  takes away a number that the kernel holds.  Coherent adds see to that.
 */
module Agreement {
  import opened Types
  import opened Recency
  import opened InodeGraph
  import opened Cascade
  import opened Coherence
  import opened Kernel

  // ----- what keeps the agreement, exactly -----

  /** No number of a removed inode is one under which a looked-up inode is registered. */
  ghost predicate Spares(m: Graph, dead: set<Addr>)
    requires WellFormed(m)
  {
    forall d :: d in dead && d in m.nodes && m.nodes[d].ino in m.reg ==> m.nodes[m.reg[m.nodes[d].ino]].lookups == 0
  }

  /** removeRef(n, 0) takes away no number that the kernel holds. */
  ghost predicate Harmless(m: Graph, n: Addr) {
    WellFormed(m) && n in m.nodes && (Live(m, n) || forall dead :: Least(m, n, dead) ==> Spares(m, dead))
  }

  /** The graph once `dead` is gone, revisions aside. */
  ghost function Without(m: Graph, dead: set<Addr>): Graph
    requires dead <= m.nodes.Keys
  {
    Graph(Collapse(m.nodes, dead), RegOutside(m, dead), m.rev)
  }

  ghost predicate RmHarmless(g: Graph, p: Addr, name: string)
    requires WellFormed(g) && p in g.nodes
  {
    name in g.nodes[p].kids && HasKid(g, p, name, g.nodes[p].kids[name]) ==>
      Harmless(InodeGraph.Unlink(g, p, name, g.nodes[p].kids[name]), p)
  }

  /** Both removals at the end of a rename, the second after the first. */
  ghost predicate TailHarmless(m: Graph, p: Addr, np: Addr)
    requires p in m.nodes && np in m.nodes
  {
    && Harmless(m, p)
    && if Live(m, np) then true
       else if Live(m, p) then Harmless(m, np)
       else forall dead :: Least(m, p, dead) ==> Harmless(Without(m, dead), np)
  }

  ghost predicate MvHarmless(g: Graph, p: Addr, name: string, np: Addr, nname: string)
    requires WellFormed(g) && p in g.nodes && np in g.nodes
  {
    var child, dest := Get(g.nodes[p].kids, name), Get(g.nodes[np].kids, nname);
    (child.Some? ==> HasKid(g, p, name, child.value)) && (dest.Some? ==> HasKid(g, np, nname, dest.value)) ==>
      var m := MvStep(g, p, name, np, nname, child, dest);
      p in m.nodes && np in m.nodes && TailHarmless(m, p, np)
  }

  /** What an event must not do; all of it can be read off the graph before the event. */
  ghost predicate EventHarmless(g: Graph, e: Event)
    requires WellFormed(g) && !Panics(g, e)
  {
    match e
    case Lookup(parent, name, Some(_)) => true
    case Lookup(parent, name, None) => RmHarmless(g, g.reg[parent], name)
    case Unlink(parent, name) => RmHarmless(g, g.reg[parent], name)
    case Rename(parent, name, newParent, newName) => MvHarmless(g, g.reg[parent], name, g.reg[newParent], newName)
    case Forget(ino, n) => ino in g.reg ==> Harmless(DecStep(g, g.reg[ino], Wrap(n)), g.reg[ino])
  }

  lemma RemovalAgreesExact(m: Graph, n: Addr, h: Graph, dead: set<Addr>, k: Held)
    requires WellFormed(m) && Removal(m, n, h, dead) && WellFormed(h) && Agree(m, k)
    ensures Agree(h, k) <==> Spares(m, dead)
  {
    hide NoDup, Least;
    assert dead <= m.nodes.Keys by { LeastInside(m, n, dead); }
    if Spares(m, dead) {
      forall i | i in k && k[i] > 0 ensures i in h.reg {
        assert i in m.reg && m.nodes[m.reg[i]].lookups == k[i];
      }
    }
    if Agree(h, k) {
      forall d | d in dead && m.nodes[d].ino in m.reg ensures m.nodes[m.reg[m.nodes[d].ino]].lookups == 0 {
        var i := m.nodes[d].ino;
        assert i in (set c | c in dead :: m.nodes[c].ino);
        assert i !in h.reg && m.nodes[m.reg[i]].lookups == Count(k, i);
      }
    }
  }

  /** Subtracting kernel lookups, and the kernel subtracting as many. */
  ghost predicate Subtracted(g: Graph, n: Addr, j: nat, k: Held, k': Held)
    requires n in g.nodes
  {
    if j == 0 then k' == k
    else Registered(g, n) && Count(k, g.nodes[n].ino) >= j && k' == k[g.nodes[n].ino := Count(k, g.nodes[n].ino) - j]
  }

  /** removeRef keeps the agreement exactly when it takes away no number that the kernel holds. */
  lemma RemovedByAgreesExact(g: Graph, n: Addr, j: nat, h: Graph, removed: bool, k: Held, k': Held)
    requires WellFormed(g) && n in g.nodes && j <= g.nodes[n].lookups && RemovedBy(g, n, j, h, removed)
    requires Agree(g, k) && WellFormed(h) && Subtracted(g, n, j, k, k')
    ensures Agree(h, k') <==> Harmless(DecStep(g, n, j), n)
  {
    hide NoDup, DecStep, Agree, Spares, Least;
    var m := DecStep(g, n, j);
    DecLowers(g, n, j);
    LoweredEdges(g, m, n);
    DecAgrees(g, n, j, m, k, k');
    if !Live(m, n) {
      var dead :| Removal(m, n, h, dead);
      RemovalAgreesExact(m, n, h, dead, k');
      forall other | Least(m, n, other) ensures other == dead {
        LeastUnique(m, n, other, dead);
      }
    }
  }

  lemma DecAgrees(g: Graph, n: Addr, j: nat, m: Graph, k: Held, k': Held)
    requires WellFormed(g) && WellFormed(m) && Lowered(g, m, n) && j <= g.nodes[n].lookups
    requires m.nodes[n].lookups == g.nodes[n].lookups - j && Agree(g, k) && Subtracted(g, n, j, k, k')
    ensures Agree(m, k')
  {
    hide NoDup;
    forall i | i in m.reg ensures m.nodes[m.reg[i]].lookups == Count(k', i) {
      assert m.reg[i] == g.reg[i];
      assert g.nodes[g.reg[i]].ino == i;
    }
  }

  lemma SameCountsAgree(g: Graph, m: Graph, k: Held)
    requires WellFormed(g) && WellFormed(m) && SameCounts(g, m)
    ensures Agree(m, k) <==> Agree(g, k)
  {
  }

  lemma RmAgreesExact(g: Graph, p: Addr, name: string, h: Graph, done: bool, k: Held)
    requires WellFormed(g) && Forward(g) && Agree(g, k) && p in g.nodes && RmChildRel(g, p, name, h, done)
    ensures WellFormed(h) && (Agree(h, k) <==> RmHarmless(g, p, name))
  {
    hide RemovedBy, Agree, Harmless, NoDup;
    RmKeepsForward(g, p, name, h, done);
    if name in g.nodes[p].kids {
      var c := g.nodes[p].kids[name];
      var m := InodeGraph.Unlink(g, p, name, c);
      UnlinkEffect(g, m, p, name, c);
      UnlinkCounts(g, p, name, c);
      SameCountsAgree(g, m, k);
      RemovedByAgreesExact(m, p, 0, h, !Live(m, p), k, k);
      assert DecStep(m, p, 0) == m;
    }
  }

  lemma MvAgreesExact(g: Graph, p: Addr, name: string, np: Addr, nname: string, overwrite: bool, h: Graph, k: Held)
    requires WellFormed(g) && Forward(g) && Agree(g, k) && p in g.nodes && np in g.nodes
    requires name in g.nodes[p].kids ==> g.nodes[np].dir
    requires MvChildRel(g, p, name, np, nname, overwrite, h, true)
    ensures WellFormed(h) && (Agree(h, k) <==> MvHarmless(g, p, name, np, nname))
  {
    hide RemovedBy, MvStep, Moved, Agree, TailHarmless, NoDup;
    MvKeepsForward(g, p, name, np, nname, overwrite, h, true);
    var child, dest := Get(g.nodes[p].kids, name), Get(g.nodes[np].kids, nname);
    var m := MvStep(g, p, name, np, nname, child, dest);
    MvEffect(g, m, p, name, np, nname);
    MvCounts(g, p, name, np, nname, child, dest);
    MovedKeepsSymmetry(g, m, p, name, np, nname);
    SameCountsAgree(g, m, k);
    var x :| MvTail(m, p, np, x, h);
    TailAgreesExact(m, p, np, x, h, k);
  }

  lemma TailAgreesExact(m: Graph, p: Addr, np: Addr, x: Graph, h: Graph, k: Held)
    requires WellFormed(m) && Forward(m) && p in m.nodes && np in m.nodes && MvTail(m, p, np, x, h) && Agree(m, k)
    ensures WellFormed(x) && WellFormed(h) && (Agree(h, k) <==> TailHarmless(m, p, np))
  {
    hide RemovedBy, Agree, Harmless, NoDup, Without, Least, WellFormed, Forward;
    RegKnown(m);
    RemovedByForward(m, p, 0, x, !Live(m, p));
    RemovedByAgreesExact(m, p, 0, x, !Live(m, p), k, k);
    assert DecStep(m, p, 0) == m;
    if !Live(m, np) {
      RegKnown(x);
      AgreeMatches(m, k);
      StillMatches(m, p, x, !Live(m, p), k);
      SecondAgreesExact(x, np, h, k);
      SecondHarmless(m, p, np, x);
    }
  }

  /** The second removal of a rename, where bridge and kernel may disagree already. */
  lemma SecondAgreesExact(x: Graph, np: Addr, h: Graph, k: Held)
    requires WellFormed(x) && Forward(x) && np in x.nodes && Matches(x, k) && RemovedBy(x, np, 0, h, true)
    ensures WellFormed(h) && (Agree(h, k) <==> Agree(x, k) && Harmless(x, np))
  {
    hide RemovedBy, Agree, Harmless, NoDup, Forward;
    RemovedByForward(x, np, 0, h, true);
    if Agree(h, k) {
      AgreesBefore(x, np, h, k);
    }
    if Agree(x, k) {
      RemovedByAgreesExact(x, np, 0, h, true, k, k);
      assert DecStep(x, np, 0) == x;
    }
  }

  lemma AgreeMatches(g: Graph, k: Held)
    requires WellFormed(g) && Agree(g, k)
    ensures Matches(g, k)
  {
  }

  /** A removal mends no disagreement. */
  lemma AgreesBefore(g: Graph, n: Addr, h: Graph, k: Held)
    requires WellFormed(g) && n in g.nodes && WellFormed(h) && RemovedBy(g, n, 0, h, true)
    requires Matches(g, k) && Agree(h, k)
    ensures Agree(g, k)
  {
  }

  /** Removal changes no lookup count and registers nothing. */
  lemma StillMatches(g: Graph, n: Addr, h: Graph, removed: bool, k: Held)
    requires WellFormed(g) && n in g.nodes && WellFormed(h) && RemovedBy(g, n, 0, h, removed) && Matches(g, k)
    ensures Matches(h, k)
  {
  }

  /** Whether a removal is harmless does not depend on revisions. */
  lemma SameHarmless(a: Graph, b: Graph, n: Addr)
    requires a.nodes == b.nodes && a.reg == b.reg && a.rev.Keys == b.rev.Keys
    ensures Harmless(a, n) ==> Harmless(b, n)
  {
    hide NoDup, Least;
    if Harmless(a, n) {
      SameWellFormed(a, b);
      forall dead | Least(b, n, dead) ensures Least(a, n, dead) {
        SameLeast(b, a, n, dead);
      }
    }
  }

  lemma SameWellFormed(a: Graph, b: Graph)
    requires WellFormed(a) && a.nodes == b.nodes && a.reg == b.reg && a.rev.Keys == b.rev.Keys
    ensures WellFormed(b)
  {
    hide NoDup;
    forall d, s, c ensures HasKid(b, d, s, c) == HasKid(a, d, s, c) && HasEntry(b, c, s, d) == HasEntry(a, c, s, d) {}
  }

  lemma SameLeast(a: Graph, b: Graph, n: Addr, dead: set<Addr>)
    requires a.nodes == b.nodes && Least(a, n, dead)
    ensures Least(b, n, dead)
  {
    forall other ensures Closed(a, n, other) <==> Closed(b, n, other) {
      forall c, s, p
        ensures HasEntry(a, c, s, p) == HasEntry(b, c, s, p) && Starved(a, p, other) == Starved(b, p, other)
      {
      }
    }
  }

  lemma SecondHarmless(m: Graph, p: Addr, np: Addr, x: Graph)
    requires WellFormed(m) && WellFormed(x) && p in m.nodes && np in m.nodes && RemovedBy(m, p, 0, x, !Live(m, p))
    ensures Harmless(x, np) <==>
            if Live(m, p) then Harmless(m, np) else forall dead :: Least(m, p, dead) ==> Harmless(Without(m, dead), np)
  {
    hide NoDup, Harmless, Least;
    if !Live(m, p) {
      var dead :| Removal(m, p, x, dead);
      LeastInside(m, p, dead);
      SameHarmless(x, Without(m, dead), np);
      SameHarmless(Without(m, dead), x, np);
      forall other | Least(m, p, other) ensures other == dead {
        LeastUnique(m, p, other, dead);
      }
    }
  }

  lemma AddAgrees(g: Graph, p: Addr, name: string, ino: Ino, dir: bool, spare: Addr, h: Graph, k: Held)
    requires WellFormed(g) && Agree(g, k) && p in g.nodes && g.nodes[p].dir && AddedAt(g, h, p, name, ino, dir, spare)
    requires Count(k, ino) + 1 < WORD
    ensures WellFormed(h) && Agree(h, k[ino := Count(k, ino) + 1])
  {
    hide AddStep;
    AddEffect(g, h, p, name, ino, dir, spare);
    CountedAgrees(g, h, ino, ChildFor(g, ino, spare), k);
  }

  lemma CountedAgrees(g: Graph, h: Graph, ino: Ino, c: Addr, k: Held)
    requires WellFormed(g) && WellFormed(h) && Agree(g, k) && Counted(g, h, ino, c) && Count(k, ino) + 1 < WORD
    requires c in g.nodes <==> ino in g.reg
    requires ino in g.reg ==> c == g.reg[ino]
    ensures Agree(h, k[ino := Count(k, ino) + 1])
  {
    hide NoDup;
    forall i | i in h.reg ensures h.nodes[h.reg[i]].lookups == Count(k[ino := Count(k, ino) + 1], i) {
      if i != ino {
        assert i in g.reg && h.reg[i] == g.reg[i] && g.nodes[g.reg[i]].ino == i;
      }
    }
  }

  lemma ForgetAgreesExact(g: Graph, k: Held, ino: Ino, n: nat, h: Graph, removed: bool)
    requires WellFormed(g) && WellFormed(h) && Agree(g, k) && ino in g.reg && n <= Count(k, ino)
    requires Wrap(n) <= g.nodes[g.reg[ino]].lookups && RemovedBy(g, g.reg[ino], Wrap(n), h, removed)
    ensures Agree(h, After(k, Forget(ino, n))) <==> Harmless(DecStep(g, g.reg[ino], Wrap(n)), g.reg[ino])
  {
    hide RemovedBy, Harmless, NoDup, DecStep;
    var c := g.reg[ino];
    assert Wrap(n) == n;
    if n == 0 {
      SameCount(h, k, ino);
      RemovedByAgreesExact(g, c, 0, h, removed, k, k);
    } else {
      RemovedByAgreesExact(g, c, n, h, removed, k, After(k, Forget(ino, n)));
    }
  }

  lemma SameCount(h: Graph, k: Held, ino: Ino)
    requires WellFormed(h) && Count(k, ino) < WORD
    ensures Agree(h, k[ino := Count(k, ino)]) <==> Agree(h, k)
  {
    hide NoDup;
    var k' := k[ino := Count(k, ino)];
    forall i ensures Count(k', i) == Count(k, i) {}
    assert Matches(h, k') <==> Matches(h, k);
    if Agree(h, k') {
      forall i | i in k ensures k'[i] == k[i] {}
    }
  }

  // ----- one event, exactly -----

  /**
    An obedient event keeps bridge and kernel in agreement if and only if it takes away
    no number that the kernel holds; finding an entry always does, coherent or not.
   */
  lemma EventAgreesExact(g: Graph, k: Held, e: Event, h: Graph)
    requires WellFormed(g) && Forward(g) && Agree(g, k)
    requires Obeys(k, e) && Kinds(g, e) && Transition(g, e, h)
    ensures WellFormed(h) && (Agree(h, After(k, e)) <==> EventHarmless(g, e))
  {
    hide RmChildRel, MvChildRel, RemovedBy, AddStep, NoDup, Forward, Agree, Harmless, RmHarmless, MvHarmless;
    EventForward(g, e, h);
    match e
    case Lookup(parent, name, Some((ino, dir))) =>
      var spare :| AddedAt(g, h, g.reg[parent], name, ino, dir, spare);
      AddAgrees(g, g.reg[parent], name, ino, dir, spare, h, k);
    case Lookup(parent, name, None) =>
      var done :| RmChildRel(g, g.reg[parent], name, h, done);
      RmAgreesExact(g, g.reg[parent], name, h, done, k);
    case Unlink(parent, name) =>
      var done :| RmChildRel(g, g.reg[parent], name, h, done);
      RmAgreesExact(g, g.reg[parent], name, h, done, k);
    case Rename(parent, name, newParent, newName) =>
      MvAgreesExact(g, g.reg[parent], name, g.reg[newParent], newName, true, h, k);
    case Forget(ino, n) =>
      if ino in g.reg {
        var removed :| RemovedBy(g, g.reg[ino], Wrap(n), h, removed);
        ForgetAgreesExact(g, k, ino, n, h, removed);
      } else {
        ForgetUnknown(g, k, ino, n);
      }
  }

  lemma ForgetUnknown(g: Graph, k: Held, ino: Ino, n: nat)
    requires WellFormed(g) && Agree(g, k) && ino !in g.reg && n <= Count(k, ino)
    ensures Agree(g, After(k, Forget(ino, n)))
  {
  }

  // ----- coherent use is harmless -----

  /** On a coherent graph the removed inodes are the registered ones of their numbers, without lookups. */
  lemma CoherentHarmless(m: Graph, n: Addr)
    requires Coherent(m) && OwnNumber(m, n)
    ensures Harmless(m, n)
  {
    hide NoDup;
    if !Live(m, n) {
      forall dead | Least(m, n, dead) ensures Spares(m, dead) {
        forall d | d in dead && m.nodes[d].ino in m.reg ensures m.nodes[m.reg[m.nodes[d].ino]].lookups == 0 {
          DeadOwnTheirNumbers(m, n, dead, d);
          if d != n {
            RemovedStarve(m, n, dead, d);
          }
        }
      }
    }
  }

  lemma RmCoherentHarmless(g: Graph, p: Addr, name: string)
    requires Coherent(g) && p in g.nodes && Registered(g, p)
    ensures RmHarmless(g, p, name)
  {
    hide NoDup, Harmless, Coherent;
    CoherentParts(g);
    if name in g.nodes[p].kids && HasKid(g, p, name, g.nodes[p].kids[name]) {
      var c := g.nodes[p].kids[name];
      var m := InodeGraph.Unlink(g, p, name, c);
      UnlinkEffect(g, m, p, name, c);
      UnlinkCounts(g, p, name, c);
      UnlinkedCoherent(g, m, p, name, c);
      CoherentHarmless(m, p);
    }
  }

  lemma MvCoherentHarmless(g: Graph, p: Addr, name: string, np: Addr, nname: string)
    requires Coherent(g) && p in g.nodes && np in g.nodes && Registered(g, p) && Registered(g, np)
    requires name in g.nodes[p].kids ==> g.nodes[np].dir
    ensures MvHarmless(g, p, name, np, nname)
  {
    hide NoDup, MvStep, Moved, Coherent, TailHarmless;
    CoherentParts(g);
    var child, dest := Get(g.nodes[p].kids, name), Get(g.nodes[np].kids, nname);
    if (child.Some? ==> HasKid(g, p, name, child.value)) && (dest.Some? ==> HasKid(g, np, nname, dest.value)) {
      var m := MvStep(g, p, name, np, nname, child, dest);
      MvEffect(g, m, p, name, np, nname);
      MvCounts(g, p, name, np, nname, child, dest);
      MovedCoherent(g, m, p, name, np, nname);
      TailCoherentHarmless(m, p, np);
    }
  }

  lemma TailCoherentHarmless(m: Graph, p: Addr, np: Addr)
    requires Coherent(m) && OwnNumber(m, p) && OwnNumber(m, np)
    ensures TailHarmless(m, p, np)
  {
    hide NoDup, Harmless, Coherent, Least;
    CoherentParts(m);
    CoherentHarmless(m, p);
    CoherentHarmless(m, np);
    if !Live(m, p) {
      forall dead | Least(m, p, dead) ensures dead <= m.nodes.Keys && Harmless(Without(m, dead), np) {
        LeastInside(m, p, dead);
        WithoutCoherent(m, p, dead);
        CoherentHarmless(Without(m, dead), np);
      }
    }
  }

  lemma WithoutCoherent(m: Graph, n: Addr, dead: set<Addr>)
    requires Coherent(m) && OwnNumber(m, n) && !Live(m, n) && Least(m, n, dead)
    ensures dead <= m.nodes.Keys && Coherent(Without(m, dead))
    ensures forall q :: OwnNumber(m, q) ==> OwnNumber(Without(m, dead), q)
  {
    hide NoDup;
    CollapseKeepsCoherent(m, n, Without(m, dead), dead);
  }

  /** One event of an obedient kernel with coherent adds keeps the bridge and the kernel in agreement. */
  lemma EventKeeps(g: Graph, k: Held, e: Event, h: Graph)
    requires Inv(g, k) && Obeys(k, e) && CoherentEvent(g, e) && Transition(g, e, h)
    ensures Inv(h, After(k, e))
  {
    hide Coherent, RmChildRel, MvChildRel, RemovedBy, AddStep, Agree, NoDup, Harmless, RmHarmless, MvHarmless;
    CoherentParts(g);
    EventAgreesExact(g, k, e, h);
    match e
    case Lookup(parent, name, Some((ino, dir))) =>
      var spare :| AddedAt(g, h, g.reg[parent], name, ino, dir, spare);
      AddKeepsCoherent(g, h, g.reg[parent], name, ino, dir, spare);
    case Lookup(parent, name, None) =>
      var done :| RmChildRel(g, g.reg[parent], name, h, done);
      RmKeepsCoherent(g, g.reg[parent], name, h, done);
      RmCoherentHarmless(g, g.reg[parent], name);
    case Unlink(parent, name) =>
      var done :| RmChildRel(g, g.reg[parent], name, h, done);
      RmKeepsCoherent(g, g.reg[parent], name, h, done);
      RmCoherentHarmless(g, g.reg[parent], name);
    case Rename(parent, name, newParent, newName) =>
      MvKeepsCoherent(g, g.reg[parent], name, g.reg[newParent], newName, true, h, true);
      MvCoherentHarmless(g, g.reg[parent], name, g.reg[newParent], newName);
    case Forget(ino, n) =>
      if ino in g.reg {
        var removed :| RemovedBy(g, g.reg[ino], Wrap(n), h, removed);
        ForgetCoherent(g, g.reg[ino], Wrap(n), h, removed);
      }
  }

  lemma ForgetCoherent(g: Graph, c: Addr, n: nat, h: Graph, removed: bool)
    requires Coherent(g) && c in g.nodes && Registered(g, c) && n <= g.nodes[c].lookups
             && RemovedBy(g, c, n, h, removed)
    ensures Coherent(h) && Harmless(DecStep(g, c, n), c)
  {
    hide Coherent, RemovedBy, Harmless, NoDup;
    CoherentParts(g);
    RemovedByKeepsCoherent(g, c, n, h, removed);
    DecLowers(g, c, n);
    LoweredKeepsCoherent(g, DecStep(g, c, n), c);
    CoherentHarmless(DecStep(g, c, n), c);
  }

  // ----- runs -----

  /**
    With an obedient kernel, bridge and kernel agree throughout a run if and only if no
    event takes away a number that the kernel holds.
   */
  lemma {:induction false} RunAgreesExact(gs: seq<Graph>, es: seq<Event>, k: Held)
    requires Run(gs, es) && ProperKinds(gs, es) && ObeysAll(es, k)
    requires WellFormed(gs[0]) && Forward(gs[0]) && Agree(gs[0], k)
    ensures forall i :: 0 <= i <= |es| ==> WellFormed(gs[i])
    ensures forall i :: 0 <= i < |es| ==> !Panics(gs[i], es[i])
    ensures (forall i :: 0 <= i <= |es| ==> Agree(gs[i], AfterAll(k, es[..i]))) <==>
            (forall i :: 0 <= i < |es| ==> EventHarmless(gs[i], es[i]))
  {
    hide Transition, WellFormed, Forward, Kinds, Agree, EventHarmless, Panics, Run, ProperKinds, ObeysAll, Obeys,
      AfterAll, After;
    RunLength(gs, es);
    RunForward(gs, es);
    NoPanics(gs, es);
    if es == [] {
      assert AfterAll(k, es[..0]) == k by { NothingAfter(k, es); }
    } else {
      var n := |es| - 1;
      var fs, ds := gs[..n + 1], es[..n];
      RunPrefix(gs, es, k);
      RunAgreesExact(fs, ds, k);
      forall i | 0 <= i <= n ensures fs[i] == gs[i] && ds[..i] == es[..i] {}
      assert es[..n + 1] == es && es[..n] == ds;
      if Agree(gs[n], AfterAll(k, ds)) {
        EventAgreesExact(gs[n], AfterAll(k, ds), es[n], gs[n + 1]);
      }
    }
  }

  /** After any obedient run the counts agree and the next obedient event does not panic. */
  lemma {:induction false} RunKeeps(gs: seq<Graph>, es: seq<Event>, k: Held, next: Event)
    requires Run(gs, es) && Obedient(gs, es, k) && Inv(gs[0], k)
    ensures Inv(gs[|es|], AfterAll(k, es))
    ensures Obeys(AfterAll(k, es), next) ==> !Panics(gs[|es|], next)
  {
    hide Transition, Inv, Obeys, CoherentEvent, WellFormed, Panics, After;
    if es != [] {
      var n := |es| - 1;
      var fs, ds := gs[..n + 1], es[..n];
      forall i | 0 <= i < n
        ensures Obeys(AfterAll(k, ds[..i]), ds[i]) && CoherentEvent(fs[i], ds[i]) && Transition(fs[i], ds[i], fs[i + 1])
      {
        assert ds[..i] == es[..i];
      }
      RunKeeps(fs, ds, k, es[n]);
      assert es[..n] == ds;
      EventKeeps(gs[n], AfterAll(k, ds), es[n], gs[n + 1]);
    }
    InvParts(gs[|es|], AfterAll(k, es));
    if Obeys(AfterAll(k, es), next) {
      NoPanic(gs[|es|], AfterAll(k, es), next);
    }
  }

  lemma InvParts(g: Graph, k: Held)
    requires Inv(g, k)
    ensures WellFormed(g) && Agree(g, k)
  {
  }
}
