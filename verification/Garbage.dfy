/**
  No garbage: after every completed operation each registered inode is live.  All this
  needs is that child edges have parent entries; stale entries do no harm.
 */
module Garbage {
  import opened Types
  import opened Recency
  import opened InodeGraph
  import opened Cascade
  import opened Coherence

  ghost predicate NoGarbageBut(g: Graph, except: set<Addr>) {
    forall i :: i in g.reg && g.reg[i] in g.nodes && g.reg[i] !in except ==> Live(g, g.reg[i])
  }

  lemma LiveMeans(g: Graph, q: Addr)
    requires q in g.nodes
    ensures Live(g, q) <==> g.nodes[q].lookups > 0 || HasKids(g, q)
  {
    TiedIffEdges(g, q);
  }

  // ----- removal -----

  /** removeRef clears the garbage that its own inode may be, and makes no other. */
  lemma RemovedByNoGarbage(g: Graph, n: Addr, k: nat, h: Graph, removed: bool, except: set<Addr>)
    requires WellFormed(g) && Forward(g) && NoGarbageBut(g, except + {n})
    requires n in g.nodes && k <= g.nodes[n].lookups && RemovedBy(g, n, k, h, removed)
    ensures NoGarbageBut(h, except)
  {
    hide NoDup, Forward;
    var m := DecStep(g, n, k);
    DecLowers(g, n, k);
    LoweredEdges(g, m, n);
    LoweredForward(g, m, n);
    assert NoGarbageBut(m, except + {n});
    if !Live(m, n) {
      var dead :| Removal(m, n, h, dead);
      RemovalNoGarbage(m, n, h, dead, except);
    }
  }

  lemma LoweredForward(g: Graph, m: Graph, n: Addr)
    requires WellFormed(g) && Forward(g) && Lowered(g, m, n)
    ensures Forward(m)
  {
    LoweredEdges(g, m, n);
  }

  lemma RemovalNoGarbage(g: Graph, n: Addr, h: Graph, dead: set<Addr>, except: set<Addr>)
    requires WellFormed(g) && Forward(g) && NoGarbageBut(g, except + {n}) && Removal(g, n, h, dead)
    ensures NoGarbageBut(h, except)
  {
    forall i | i in h.reg && h.reg[i] in h.nodes && h.reg[i] !in except ensures Live(h, h.reg[i]) {
      var q := h.reg[i];
      assert i in g.reg && g.reg[i] == q && g.nodes[q].ino == i && q !in dead;
      SurvivorsLive(g, n, h, dead, q);
    }
  }

  // ----- addChild -----

  /** The lookup of the child does not wrap its counter to 0, or a child keeps it alive. */
  ghost predicate AddFits(g: Graph, p: Addr, ino: Ino)
    requires WellFormed(g)
  {
    ino in g.reg ==>
      var c := g.reg[ino];
      Wrap(g.nodes[c].lookups + 1) > 0 || g.nodes[c].kids != map[] || c == p
  }

  /** addChild, displacing another child or not, makes garbage only when a counter wraps. */
  lemma AddNoGarbageExact(g: Graph, h: Graph, p: Addr, name: string, ino: Ino, dir: bool, spare: Addr)
    requires WellFormed(g) && NoGarbage(g) && Spare(g, ino, spare) && p in g.nodes && g.nodes[p].dir
    requires h == AddStep(g, p, name, ino, dir, spare)
    ensures NoGarbage(h) <==> AddFits(g, p, ino)
  {
    hide AddStep, NoDup;
    var c := ChildFor(g, ino, spare);
    AddEffect(g, h, p, name, ino, dir, spare);
    forall q ensures HasKids(h, q) <==> HasKids(g, q) || q == p {
      AddedKids(g, h, p, name, c, q);
    }
    LiveMeans(h, c);
    if ino in g.reg {
      TiedIffEdges(g, c);
    }
    forall i | i in h.reg && i != ino ensures h.reg[i] in h.nodes && Live(h, h.reg[i]) {
      var q := h.reg[i];
      assert i in g.reg && g.reg[i] == q && g.nodes[q].ino == i;
      LiveMeans(g, q);
      LiveMeans(h, q);
    }
    assert h.reg[ino] == c && c in h.nodes;
    assert NoGarbage(h) <==> Live(h, c);
    assert ino in g.reg ==> (HasKids(g, c) <==> g.nodes[c].kids != map[]);
    assert Live(h, c) <==> h.nodes[c].lookups > 0 || HasKids(g, c) || c == p;
    assert h.nodes[c].lookups == if ino in g.reg then Wrap(g.nodes[c].lookups + 1) else 1;
  }

  lemma AddedKids(g: Graph, h: Graph, p: Addr, name: string, c: Addr, q: Addr)
    requires Linked(g, h, p, name, c)
    ensures HasKids(h, q) <==> HasKids(g, q) || q == p
  {
    AddKeepsKids(g, h, p, name, c, q);
    assert HasKid(h, p, name, c);
    if s, x :| HasKid(h, q, s, x) {
      assert q == p || HasKid(g, q, s, x);
    }
  }

  // ----- rmChild and mvChild -----

  /** A section that moves edges makes garbage at most of the directories that may have lost a child. */
  lemma RetieNoGarbage(g: Graph, m: Graph, except: set<Addr>)
    requires WellFormed(g) && NoGarbage(g) && SameCounts(g, m)
    requires forall q :: q !in except && HasKids(g, q) ==> HasKids(m, q)
    ensures NoGarbageBut(m, except)
  {
    hide NoDup;
    forall i | i in m.reg && m.reg[i] in m.nodes && m.reg[i] !in except ensures Live(m, m.reg[i]) {
      LiveMeans(g, m.reg[i]);
      LiveMeans(m, m.reg[i]);
    }
  }

  lemma RmNoGarbage(g: Graph, p: Addr, name: string, h: Graph, done: bool)
    requires WellFormed(g) && Forward(g) && NoGarbage(g) && p in g.nodes && RmChildRel(g, p, name, h, done)
    ensures NoGarbage(h)
  {
    hide NoDup, RemovedBy;
    if name in g.nodes[p].kids {
      var c := g.nodes[p].kids[name];
      assert HasKid(g, p, name, c);
      var m := Unlink(g, p, name, c);
      UnlinkEffect(g, m, p, name, c);
      UnlinkCounts(g, p, name, c);
      UnlinkedForward(g, m, p, name, c);
      UnlinkedNoGarbage(g, m, p, name, c);
      assert {p} == {} + {p};
      RemovedByNoGarbage(m, p, 0, h, !Live(m, p), {});
    }
  }

  lemma UnlinkedNoGarbage(g: Graph, m: Graph, p: Addr, name: string, c: Addr)
    requires WellFormed(g) && NoGarbage(g) && SameCounts(g, m) && Unlinked(g, m, p, name, c)
    ensures NoGarbageBut(m, {p})
  {
    forall q | q !in {p} && HasKids(g, q) ensures HasKids(m, q) {
      var s, x :| HasKid(g, q, s, x);
      assert HasKid(m, q, s, x);
    }
    RetieNoGarbage(g, m, {p});
  }

  lemma MvNoGarbage(g: Graph, p: Addr, name: string, np: Addr, nname: string, overwrite: bool, h: Graph, done: bool)
    requires WellFormed(g) && Forward(g) && NoGarbage(g) && p in g.nodes && np in g.nodes
    requires name in g.nodes[p].kids ==> g.nodes[np].dir
    requires MvChildRel(g, p, name, np, nname, overwrite, h, done)
    ensures NoGarbage(h)
  {
    hide NoDup, RemovedBy, MvStep, Moved;
    if done {
      var child, dest := Get(g.nodes[p].kids, name), Get(g.nodes[np].kids, nname);
      var m := MvStep(g, p, name, np, nname, child, dest);
      MvEffect(g, m, p, name, np, nname);
      MvCounts(g, p, name, np, nname, child, dest);
      MovedKeepsSymmetry(g, m, p, name, np, nname);
      MovedNoGarbage(g, m, p, name, np, nname);
      var x :| MvTail(m, p, np, x, h);
      MvTailNoGarbage(m, p, np, x, h);
    }
  }

  lemma MovedNoGarbage(g: Graph, m: Graph, p: Addr, name: string, np: Addr, nname: string)
    requires WellFormed(g) && NoGarbage(g) && SameCounts(g, m)
    requires p in g.nodes && np in g.nodes && Moved(g, m, p, name, np, nname)
    ensures NoGarbageBut(m, {p, np})
  {
    forall q | q !in {p, np} && HasKids(g, q) ensures HasKids(m, q) {
      var s, x :| HasKid(g, q, s, x);
      assert HasKid(m, q, s, x);
    }
    RetieNoGarbage(g, m, {p, np});
  }

  lemma MvTailNoGarbage(m: Graph, p: Addr, np: Addr, x: Graph, h: Graph)
    requires WellFormed(m) && Forward(m) && NoGarbageBut(m, {p, np}) && MvTail(m, p, np, x, h)
    ensures NoGarbage(h)
  {
    hide NoDup, RemovedBy;
    assert {p, np} == {np} + {p} && {np} == {} + {np};
    RemovedByForward(m, p, 0, x, !Live(m, p));
    RemovedByNoGarbage(m, p, 0, x, !Live(m, p), {np});
    if Live(m, np) {
      StillLive(m, p, x, np);
    } else {
      RemovedByNoGarbage(x, np, 0, h, true, {});
    }
  }

  /** A live inode is still live, or no longer registered, once another was removed. */
  lemma StillLive(g: Graph, n: Addr, h: Graph, q: Addr)
    requires WellFormed(g) && Forward(g) && n in g.nodes && RemovedBy(g, n, 0, h, !Live(g, n))
    requires q in g.nodes && Live(g, q)
    ensures q in h.nodes && forall i :: i in h.reg && h.reg[i] == q ==> Live(h, q)
  {
    if !Live(g, n) {
      var dead :| Removal(g, n, h, dead);
      if q !in dead {
        SurvivorsLive(g, n, h, dead, q);
      }
    }
  }
}
