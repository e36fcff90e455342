/**
  What sequential operations keep under coherent adds: both edge directions agree,
  and whatever is used is registered.
 */
module Coherence {
  import opened Types
  import opened Recency
  import opened InodeGraph
  import opened Cascade

  // ----- the operations as relations -----

  /** rmChild: empties the slot and, when that leaves the directory dead, removes it. */
  ghost predicate RmChildRel(g: Graph, p: Addr, name: string, h: Graph, done: bool)
    requires WellFormed(g) && p in g.nodes
  {
    if name in g.nodes[p].kids then
      && done
      && HasKid(g, p, name, g.nodes[p].kids[name])
      && var m := Unlink(g, p, name, g.nodes[p].kids[name]);
         RemovedBy(m, p, 0, h, !Live(m, p))
    else h == g && !done
  }

  /** mvChild: the rename, then the removal of either directory that it left dead. */
  ghost predicate MvChildRel(g: Graph, p: Addr, name: string, np: Addr, nname: string, overwrite: bool, h: Graph,
                             done: bool)
    requires WellFormed(g) && p in g.nodes && np in g.nodes
  {
    var child, dest := Get(g.nodes[p].kids, name), Get(g.nodes[np].kids, nname);
    if dest.Some? && !overwrite then h == g && !done
    else
      && done
      && (child.Some? ==> HasKid(g, p, name, child.value))
      && (dest.Some? ==> HasKid(g, np, nname, dest.value))
      && exists x :: MvTail(MvStep(g, p, name, np, nname, child, dest), p, np, x, h)
  }

  /** The two conditional removals that end mvChild; liveness is read before either. */
  ghost predicate MvTail(m: Graph, p: Addr, np: Addr, x: Graph, h: Graph) {
    && m.rev.Keys == m.nodes.Keys && p in m.nodes && np in m.nodes
    && RemovedBy(m, p, 0, x, !Live(m, p))
    && x.rev.Keys == x.nodes.Keys && np in x.nodes
    && if Live(m, np) then h == x else RemovedBy(x, np, 0, h, true)
  }

  // ----- removal -----

  /** No other inode is registered under the number of `n`. */
  ghost predicate OwnNumber(g: Graph, n: Addr) {
    n in g.nodes && (g.nodes[n].ino in g.reg ==> g.reg[g.nodes[n].ino] == n)
  }

  /** `m` differs from `g` at most in the lookup count and revision of `n`. */
  ghost predicate Lowered(g: Graph, m: Graph, n: Addr) {
    && n in g.nodes
    && m.reg == g.reg
    && m.nodes.Keys == m.rev.Keys == g.nodes.Keys
    && m.nodes == g.nodes[n := g.nodes[n].(lookups := m.nodes[n].lookups)]
  }

  lemma LoweredEdges(g: Graph, m: Graph, n: Addr)
    requires WellFormed(g) && Lowered(g, m, n)
    ensures forall d, s, x :: HasKid(m, d, s, x) <==> HasKid(g, d, s, x)
    ensures forall d, s, x :: HasEntry(m, x, s, d) <==> HasEntry(g, x, s, d)
    ensures WellFormed(m)
  {
    forall q | q in g.nodes
      ensures m.nodes[q].kids == g.nodes[q].kids && m.nodes[q].parents == g.nodes[q].parents
      ensures m.nodes[q].dir == g.nodes[q].dir && m.nodes[q].ino == g.nodes[q].ino
    {
    }
    forall d, s, x ensures HasKid(m, d, s, x) <==> HasKid(g, d, s, x) {}
    forall d, s, x ensures HasEntry(m, x, s, d) <==> HasEntry(g, x, s, d) {}
  }

  lemma LoweredKeepsCoherent(g: Graph, m: Graph, n: Addr)
    requires Coherent(g) && Lowered(g, m, n) && m.nodes[n].lookups <= g.nodes[n].lookups
    ensures Coherent(m) && (OwnNumber(g, n) ==> OwnNumber(m, n))
  {
    LoweredEdges(g, m, n);
    forall q | q in m.nodes && (Live(m, q) || m.nodes[q].parents != []) ensures Registered(m, q) {
      assert m.nodes[q].ino == g.nodes[q].ino && (Live(m, q) ==> Live(g, q))
             && m.nodes[q].parents == g.nodes[q].parents;
      assert Registered(g, q);
    }
  }

  lemma DecLowers(g: Graph, n: Addr, k: nat)
    requires g.rev.Keys == g.nodes.Keys && n in g.nodes && k <= g.nodes[n].lookups
    ensures Lowered(g, DecStep(g, n, k), n) && Bumps(g, DecStep(g, n, k))
    ensures DecStep(g, n, k).nodes[n].lookups == g.nodes[n].lookups - k
  {
  }

  /** In a coherent graph the removed inodes are the registered ones of their numbers. */
  lemma DeadOwnTheirNumbers(g: Graph, n: Addr, dead: set<Addr>, c: Addr)
    requires Symmetric(g) && Complete(g) && OwnNumber(g, n) && Least(g, n, dead) && c in dead
    ensures OwnNumber(g, c)
  {
    if c != n {
      RemovedStarve(g, n, dead, c);
      var x, s :| x in dead && HasEntry(g, x, s, c);
      assert HasKid(g, c, s, x);
      assert Live(g, c);
    }
  }

  /** Removing dead inodes leaves nothing in use unregistered. */
  lemma CollapseKeepsCoherent(g: Graph, n: Addr, h: Graph, dead: set<Addr>)
    requires Coherent(g) && OwnNumber(g, n) && !Live(g, n) && Least(g, n, dead)
    requires h.nodes == Collapse(g.nodes, dead) && h.reg == RegOutside(g, dead) && h.rev.Keys == h.nodes.Keys
    ensures Coherent(h)
  {
    CollapseEdges(g, h, dead);
    CollapseWellFormed(g, h, dead);
    forall q | q in h.nodes && (Live(h, q) || h.nodes[q].parents != []) ensures Registered(h, q) {
      assert Live(g, q) || g.nodes[q].parents != [];
      if q in dead {
        DeadKeepsNothing(g, n, h, dead, q);
      }
      forall c | c in dead ensures g.nodes[c].ino != g.nodes[q].ino {
        DeadOwnTheirNumbers(g, n, dead, c);
      }
    }
  }

  lemma DeadKeepsNothing(g: Graph, n: Addr, h: Graph, dead: set<Addr>, q: Addr)
    requires Least(g, n, dead) && h.nodes == Collapse(g.nodes, dead) && q in dead && n in g.nodes && !Live(g, n)
    ensures q in h.nodes && !Live(h, q) && h.nodes[q].parents == []
  {
    if q != n {
      RemovedStarve(g, n, dead, q);
    }
    assert forall s :: s in g.nodes[q].kids ==> g.nodes[q].kids[s] in dead;
    assert h.nodes[q].kids == map[];
  }

  /** removeRef keeps symmetry and completeness. */
  lemma RemovedByKeepsCoherent(g: Graph, n: Addr, k: nat, h: Graph, removed: bool)
    requires Coherent(g) && OwnNumber(g, n) && k <= g.nodes[n].lookups && RemovedBy(g, n, k, h, removed)
    ensures Coherent(h)
  {
    hide Coherent, Least, OwnNumber;
    CoherentParts(g);
    OwnNumberParts(g, n);
    var m := DecStep(g, n, k);
    DecLowers(g, n, k);
    LoweredKeepsCoherent(g, m, n);
    if !Live(m, n) {
      var dead :| Removal(m, n, h, dead);
      CollapseKeepsCoherent(m, n, h, dead);
    }
  }

  lemma OwnNumberParts(g: Graph, n: Addr)
    requires OwnNumber(g, n)
    ensures n in g.nodes
  {
  }

  lemma CoherentParts(g: Graph)
    requires Coherent(g)
    ensures WellFormed(g) && Symmetric(g) && Complete(g) && Forward(g)
    ensures forall i :: i in g.reg ==> g.reg[i] in g.nodes && Registered(g, g.reg[i])
  {
  }

  // ----- adding, unlinking, renaming -----

  /** The slot is empty or already leads to the child: nothing is displaced. */
  ghost predicate CoherentAdd(g: Graph, p: Addr, name: string, ino: Ino) {
    && p in g.nodes && g.nodes[p].dir && Registered(g, p)
    && (name in g.nodes[p].kids ==> ino in g.reg && g.nodes[p].kids[name] == g.reg[ino])
  }

  /** addChild into a registered directory keeps completeness, coherent or not. */
  lemma AddKeepsComplete(g: Graph, h: Graph, p: Addr, name: string, ino: Ino, dir: bool, spare: Addr)
    requires WellFormed(g) && Complete(g) && Spare(g, ino, spare) && p in g.nodes && g.nodes[p].dir && Registered(g, p)
    requires h == AddStep(g, p, name, ino, dir, spare)
    ensures Complete(h) && Registered(h, ChildFor(g, ino, spare))
  {
    hide AddStep, NoDup;
    var c := ChildFor(g, ino, spare);
    AddEffect(g, h, p, name, ino, dir, spare);
    forall q | q in h.nodes && (Live(h, q) || h.nodes[q].parents != []) ensures Registered(h, q) {
      if q != c && q != p {
        TiedIffEdges(h, q);
        TiedIffEdges(g, q);
        assert Tied(h, q) ==> Tied(g, q);
      }
    }
  }

  lemma AddKeepsCoherent(g: Graph, h: Graph, p: Addr, name: string, ino: Ino, dir: bool, spare: Addr)
    requires Coherent(g) && CoherentAdd(g, p, name, ino) && Spare(g, ino, spare)
    requires h == AddStep(g, p, name, ino, dir, spare)
    ensures Coherent(h) && Registered(h, ChildFor(g, ino, spare))
  {
    hide AddStep, NoDup;
    AddEffect(g, h, p, name, ino, dir, spare);
    AddSymmetryExact(g, h, p, name, ino, dir, spare);
    AddKeepsComplete(g, h, p, name, ino, dir, spare);
  }

  ghost predicate HasKids(g: Graph, q: Addr) {
    exists s, x :: HasKid(g, q, s, x)
  }

  /** `q` has a child edge or a parent entry. */
  ghost predicate Tied(g: Graph, q: Addr) {
    HasKids(g, q) || (exists s, d :: HasEntry(g, q, s, d))
  }

  lemma TiedIffEdges(g: Graph, q: Addr)
    requires q in g.nodes
    ensures Tied(g, q) <==> g.nodes[q].kids != map[] || g.nodes[q].parents != []
    ensures g.nodes[q].kids != map[] <==> HasKids(g, q)
  {
    if g.nodes[q].kids != map[] {
      var s :| s in g.nodes[q].kids;
      assert HasKid(g, q, s, g.nodes[q].kids[s]);
    }
    if g.nodes[q].parents != [] {
      var e := g.nodes[q].parents[0];
      assert HasEntry(g, q, e.name, e.node);
    }
  }

  /** addChild keeps the two edge directions equal exactly when it displaces no other child. */
  lemma AddSymmetryExact(g: Graph, h: Graph, p: Addr, name: string, ino: Ino, dir: bool, spare: Addr)
    requires WellFormed(g) && Symmetric(g) && Spare(g, ino, spare) && p in g.nodes && g.nodes[p].dir
    requires h == AddStep(g, p, name, ino, dir, spare)
    ensures Symmetric(h) <==> (name in g.nodes[p].kids ==> g.nodes[p].kids[name] == ChildFor(g, ino, spare))
  {
    hide AddStep, WellFormed;
    var c := ChildFor(g, ino, spare);
    AddEffect(g, h, p, name, ino, dir, spare);
    if name in g.nodes[p].kids && g.nodes[p].kids[name] != c {
      var x := g.nodes[p].kids[name];
      assert HasKid(g, p, name, x) && HasEntry(h, x, name, p) && !HasKid(h, p, name, x);
    } else {
      forall d, s, x ensures HasKid(h, d, s, x) <==> HasEntry(h, x, s, d) {
        assert HasKid(g, d, s, x) <==> HasEntry(g, x, s, d);
      }
    }
  }

  lemma AddKeepsKids(g: Graph, h: Graph, p: Addr, name: string, c: Addr, q: Addr)
    requires Linked(g, h, p, name, c)
    ensures HasKids(g, q) ==> HasKids(h, q)
  {
    if s, x :| HasKid(g, q, s, x) {
      assert HasKid(h, q, s, x) || HasKid(h, q, s, c);
    }
  }

  /** Same inodes, same registry, same lookup counts. */
  ghost predicate SameCounts(g: Graph, h: Graph) {
    && h.reg == g.reg && h.nodes.Keys == h.rev.Keys == g.nodes.Keys == g.rev.Keys
    && (forall n :: n in g.nodes ==> h.nodes[n].ino == g.nodes[n].ino && h.nodes[n].lookups == g.nodes[n].lookups)
  }

  lemma UnlinkCounts(g: Graph, p: Addr, name: string, c: Addr)
    requires g.rev.Keys == g.nodes.Keys && p in g.nodes && c in g.nodes
    ensures SameCounts(g, Unlink(g, p, name, c))
  {
  }

  lemma LinkCounts(g: Graph, p: Addr, name: string, c: Addr)
    requires g.rev.Keys == g.nodes.Keys && p in g.nodes && c in g.nodes
    ensures SameCounts(g, Link(g, p, name, c))
  {
  }

  lemma MvCounts(g: Graph, p: Addr, name: string, np: Addr, nname: string, child: Option<Addr>, dest: Option<Addr>)
    requires g.rev.Keys == g.nodes.Keys && p in g.nodes && np in g.nodes
    requires child.Some? ==> child.value in g.nodes
    requires dest.Some? ==> dest.value in g.nodes
    ensures SameCounts(g, MvStep(g, p, name, np, nname, child, dest))
  {
    var g1 := if child.Some? then Unlink(g, p, name, child.value) else g;
    if child.Some? { UnlinkCounts(g, p, name, child.value); }
    var g2 := if dest.Some? then Unlink(g1, np, nname, dest.value) else g1;
    if dest.Some? { UnlinkCounts(g1, np, nname, dest.value); }
    if child.Some? { LinkCounts(g2, np, nname, child.value); }
  }

  /** Moving edges about keeps completeness when only registered inodes become tied. */
  lemma RetieCoherent(g: Graph, m: Graph)
    requires Coherent(g) && WellFormed(m) && Symmetric(m) && SameCounts(g, m)
    requires forall q :: q in g.nodes && Tied(m, q) ==> Tied(g, q) || Registered(g, q)
    ensures Coherent(m)
  {
    forall q | q in m.nodes && (Live(m, q) || m.nodes[q].parents != []) ensures Registered(m, q) {
      TiedIffEdges(g, q);
      TiedIffEdges(m, q);
    }
  }

  /** Emptying a slot together with its entry keeps the forward law. */
  lemma UnlinkedForward(g: Graph, m: Graph, p: Addr, name: string, c: Addr)
    requires Forward(g) && Unlinked(g, m, p, name, c)
    ensures Forward(m)
  {
  }

  lemma UnlinkedCoherent(g: Graph, m: Graph, p: Addr, name: string, c: Addr)
    requires Coherent(g) && HasKid(g, p, name, c)
    requires WellFormed(m) && Unlinked(g, m, p, name, c) && SameCounts(g, m)
    ensures Coherent(m)
  {
    RetieCoherent(g, m);
  }

  lemma RmKeepsCoherent(g: Graph, p: Addr, name: string, h: Graph, done: bool)
    requires Coherent(g) && p in g.nodes && Registered(g, p) && RmChildRel(g, p, name, h, done)
    ensures Coherent(h)
  {
    if name in g.nodes[p].kids {
      var c := g.nodes[p].kids[name];
      assert HasKid(g, p, name, c);
      var m := Unlink(g, p, name, c);
      UnlinkEffect(g, m, p, name, c);
      UnlinkCounts(g, p, name, c);
      UnlinkedCoherent(g, m, p, name, c);
      RemovedByKeepsCoherent(m, p, 0, h, !Live(m, p));
    }
  }

  lemma MovedCoherent(g: Graph, m: Graph, p: Addr, name: string, np: Addr, nname: string)
    requires Coherent(g) && p in g.nodes && np in g.nodes && Registered(g, np)
    requires WellFormed(m) && Moved(g, m, p, name, np, nname) && SameCounts(g, m)
    ensures Coherent(m)
  {
    MovedKeepsSymmetry(g, m, p, name, np, nname);
    forall q | q in g.nodes && Tied(m, q) ensures Tied(g, q) || Registered(g, q) {
      MovedTied(g, m, p, name, np, nname, q);
    }
    RetieCoherent(g, m);
  }

  lemma MovedTied(g: Graph, m: Graph, p: Addr, name: string, np: Addr, nname: string, q: Addr)
    requires Symmetric(g) && p in g.nodes && np in g.nodes && Moved(g, m, p, name, np, nname)
    requires q in g.nodes && Tied(m, q)
    ensures Tied(g, q) || q == np
  {
    if s, x :| HasKid(m, q, s, x) {
      assert q == np || HasKid(g, q, s, x);
    } else {
      var s, d :| HasEntry(m, q, s, d);
      assert HasEntry(g, q, s, d) || HasKid(g, p, name, q);
    }
  }

  lemma MvKeepsCoherent(g: Graph, p: Addr, name: string, np: Addr, nname: string, overwrite: bool, h: Graph, done: bool)
    requires Coherent(g) && p in g.nodes && np in g.nodes && Registered(g, p) && Registered(g, np)
    requires name in g.nodes[p].kids ==> g.nodes[np].dir
    requires MvChildRel(g, p, name, np, nname, overwrite, h, done)
    ensures Coherent(h)
  {
    if done {
      var child, dest := Get(g.nodes[p].kids, name), Get(g.nodes[np].kids, nname);
      var m := MvStep(g, p, name, np, nname, child, dest);
      MvEffect(g, m, p, name, np, nname);
      MvCounts(g, p, name, np, nname, child, dest);
      MovedCoherent(g, m, p, name, np, nname);
      var x :| MvTail(m, p, np, x, h);
      MvTailCoherent(m, p, np, x, h);
    }
  }

  lemma MvTailCoherent(m: Graph, p: Addr, np: Addr, x: Graph, h: Graph)
    requires Coherent(m) && OwnNumber(m, p) && OwnNumber(m, np) && MvTail(m, p, np, x, h)
    ensures Coherent(h)
  {
    hide RemovedBy, Complete, Symmetric, WellFormed;
    CoherentParts(m);
    RemovedByKeepsCoherent(m, p, 0, x, !Live(m, p));
    if !Live(m, np) {
      RemovedByOwns(m, p, 0, x, !Live(m, p), np);
      RemovedByKeepsCoherent(x, np, 0, h, true);
    }
  }

  /** What removal keeps in any graph whose child edges have entries. */
  lemma RemovedByForward(g: Graph, n: Addr, k: nat, h: Graph, removed: bool)
    requires WellFormed(g) && Forward(g) && n in g.nodes && k <= g.nodes[n].lookups && RemovedBy(g, n, k, h, removed)
    ensures WellFormed(h) && Forward(h) && Bumps(g, h) && h.nodes.Keys == g.nodes.Keys
  {
    var m := DecStep(g, n, k);
    DecLowers(g, n, k);
    LoweredEdges(g, m, n);
    if !Live(m, n) {
      var dead :| Removal(m, n, h, dead);
      CollapseWellFormed(m, h, dead);
      BumpsTrans(g, m, h);
    }
  }

  /** An inode that is dead stays dead while others are removed. */
  lemma DeadStaysDead(g: Graph, n: Addr, h: Graph, removed: bool, q: Addr)
    requires WellFormed(g) && n in g.nodes && RemovedBy(g, n, 0, h, removed) && q in g.nodes && !Live(g, q)
    ensures q in h.nodes && !Live(h, q)
  {
  }

  lemma RemovedByAnswer(g: Graph, n: Addr, h: Graph, removed: bool)
    requires WellFormed(g) && n in g.nodes && RemovedBy(g, n, 0, h, removed)
    ensures removed == !Live(g, n)
  {
  }

  /** An inode's number is still no other's. */
  lemma RemovedByOwns(g: Graph, n: Addr, k: nat, h: Graph, removed: bool, q: Addr)
    requires WellFormed(g) && n in g.nodes && k <= g.nodes[n].lookups && RemovedBy(g, n, k, h, removed)
    requires OwnNumber(g, q)
    ensures OwnNumber(h, q)
  {
  }

  // ----- the one-way law, kept by everything -----

  lemma AddKeepsForward(g: Graph, h: Graph, p: Addr, name: string, ino: Ino, dir: bool, spare: Addr)
    requires WellFormed(g) && Forward(g) && Spare(g, ino, spare) && p in g.nodes && g.nodes[p].dir
    requires h == AddStep(g, p, name, ino, dir, spare)
    ensures WellFormed(h) && Forward(h)
  {
    hide AddStep, NoDup;
    AddEffect(g, h, p, name, ino, dir, spare);
    forall d, s, x | HasKid(h, d, s, x) ensures HasEntry(h, x, s, d) {
    }
  }

  lemma RmKeepsForward(g: Graph, p: Addr, name: string, h: Graph, done: bool)
    requires WellFormed(g) && Forward(g) && p in g.nodes && RmChildRel(g, p, name, h, done)
    ensures WellFormed(h) && Forward(h)
  {
    hide NoDup, RemovedBy;
    if name in g.nodes[p].kids {
      var c := g.nodes[p].kids[name];
      var m := Unlink(g, p, name, c);
      UnlinkEffect(g, m, p, name, c);
      UnlinkedForward(g, m, p, name, c);
      RemovedByForward(m, p, 0, h, !Live(m, p));
    }
  }

  lemma MvKeepsForward(g: Graph, p: Addr, name: string, np: Addr, nname: string, overwrite: bool, h: Graph, done: bool)
    requires WellFormed(g) && Forward(g) && p in g.nodes && np in g.nodes
    requires name in g.nodes[p].kids ==> g.nodes[np].dir
    requires MvChildRel(g, p, name, np, nname, overwrite, h, done)
    ensures WellFormed(h) && Forward(h)
  {
    hide NoDup, RemovedBy, MvStep, Moved;
    if done {
      var m := MvStep(g, p, name, np, nname, Get(g.nodes[p].kids, name), Get(g.nodes[np].kids, nname));
      MvEffect(g, m, p, name, np, nname);
      MovedKeepsSymmetry(g, m, p, name, np, nname);
      var x :| MvTail(m, p, np, x, h);
      RemovedByForward(m, p, 0, x, !Live(m, p));
      if !Live(m, np) {
        RemovedByForward(x, np, 0, h, true);
      }
    }
  }
}
