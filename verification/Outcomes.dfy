/**
  What is left of the graph when an operation is over, edge by edge: which edges, counts
  and registrations survive rmChild and mvChild together with the removals they end with.
 */
module Outcomes {
  import opened Types
  import opened Recency
  import opened InodeGraph
  import opened Cascade
  import opened Coherence

  /** `h` is `g` without the inodes of `dead`: no edge leads to them, they have no entries, their numbers are free. */
  ghost predicate Without(g: Graph, h: Graph, dead: set<Addr>) {
    && h.nodes.Keys == g.nodes.Keys && dead <= g.nodes.Keys
    && (forall d, s, x :: HasKid(h, d, s, x) <==> HasKid(g, d, s, x) && x !in dead)
    && (forall d, s, x :: HasEntry(h, x, s, d) <==> HasEntry(g, x, s, d) && x !in dead)
    && (forall n :: n in g.nodes ==>
          && h.nodes[n].ino == g.nodes[n].ino && h.nodes[n].dir == g.nodes[n].dir
          && h.nodes[n].lookups == g.nodes[n].lookups)
    && (forall i :: i in h.reg <==> i in g.reg && !(exists x :: x in dead && g.nodes[x].ino == i))
    && (forall i :: i in h.reg ==> h.reg[i] == g.reg[i])
  }

  /** The inodes of `dead` had no lookups and have no children left. */
  ghost predicate Spent(g: Graph, h: Graph, dead: set<Addr>) {
    forall x :: x in dead ==> x in g.nodes && x in h.nodes && g.nodes[x].lookups == 0 && h.nodes[x].kids == map[]
  }

  lemma CollapsedWithout(g: Graph, h: Graph, dead: set<Addr>)
    requires dead <= g.nodes.Keys && h.nodes == Collapse(g.nodes, dead) && h.reg == RegOutside(g, dead)
    ensures Without(g, h, dead)
  {
    CollapseEdges(g, h, dead);
  }

  lemma LeastSpent(g: Graph, n: Addr, h: Graph, dead: set<Addr>)
    requires n in g.nodes && !Live(g, n) && Least(g, n, dead) && Without(g, h, dead)
    ensures Spent(g, h, dead)
  {
    forall x | x in dead ensures x in g.nodes && x in h.nodes && g.nodes[x].lookups == 0 && h.nodes[x].kids == map[] {
      if x != n {
        RemovedStarve(g, n, dead, x);
      }
      if s :| s in h.nodes[x].kids {
        assert HasKid(h, x, s, h.nodes[x].kids[s]);
      }
    }
  }

  /** removeRef(n, 0): a live inode stays with everything else, a dead one goes with the least dead set. */
  lemma RemovedOutcome(g: Graph, n: Addr, h: Graph, removed: bool) returns (dead: set<Addr>)
    requires g.rev.Keys == g.nodes.Keys && n in g.nodes && RemovedBy(g, n, 0, h, removed)
    ensures Without(g, h, dead) && Spent(g, h, dead) && (removed <==> !Live(g, n))
    ensures if Live(g, n) then dead == {} && h == g else Least(g, n, dead)
  {
    hide Least;
    assert DecStep(g, n, 0) == g;
    if Live(g, n) {
      dead := {};
    } else {
      dead :| Removal(g, n, h, dead);
      assert dead <= g.nodes.Keys by { LeastInside(g, n, dead); }
      CollapsedWithout(g, h, dead);
      LeastSpent(g, n, h, dead);
    }
  }

  // ----- rmChild -----

  /** A directory keeps something besides the slot: a lookup, or another child. */
  ghost predicate Sustained(g: Graph, p: Addr, name: string)
    requires p in g.nodes
  {
    g.nodes[p].lookups > 0 || exists s, x :: s != name && HasKid(g, p, s, x)
  }

  /**
    The slot of `p` is empty and its child `c` has no entry for it.  Every other edge is as
    it was unless it leads to `dead`, and `dead` is nothing while `p` is sustained.
   */
  ghost predicate Emptied(g: Graph, p: Addr, name: string, c: Addr, h: Graph, dead: set<Addr>)
    requires g.rev.Keys == g.nodes.Keys && p in g.nodes && c in g.nodes
  {
    && h.nodes.Keys == g.nodes.Keys
    && (forall d, s, x :: HasKid(h, d, s, x) <==> HasKid(g, d, s, x) && !(d == p && s == name) && x !in dead)
    && (forall d, s, x :: HasEntry(h, x, s, d) <==>
                          HasEntry(g, x, s, d) && !(d == p && s == name && x == c) && x !in dead)
    && (forall n :: n in g.nodes ==>
          && h.nodes[n].ino == g.nodes[n].ino && h.nodes[n].dir == g.nodes[n].dir
          && h.nodes[n].lookups == g.nodes[n].lookups)
    && (forall i :: i in h.reg <==> i in g.reg && !(exists x :: x in dead && x in g.nodes && g.nodes[x].ino == i))
    && (forall i :: i in h.reg ==> h.reg[i] == g.reg[i])
    && Spent(g, h, dead)
    && if Sustained(g, p, name) then dead == {} else Least(Unlink(g, p, name, c), p, dead)
  }

  lemma SustainedLive(g: Graph, m: Graph, p: Addr, name: string, c: Addr)
    requires p in g.nodes && p in m.nodes && m.nodes[p].lookups == g.nodes[p].lookups && Unlinked(g, m, p, name, c)
    ensures Sustained(g, p, name) <==> Live(m, p)
  {
    if s, x :| s != name && HasKid(g, p, s, x) {
      assert HasKid(m, p, s, x);
    }
    if s :| s in m.nodes[p].kids {
      assert HasKid(m, p, s, m.nodes[p].kids[s]);
      assert HasKid(g, p, s, m.nodes[p].kids[s]);
    }
  }

  /** rmChild succeeds exactly when the slot is taken; then the slot is empty, and otherwise nothing changed. */
  lemma RmChildOutcome(g: Graph, p: Addr, name: string, h: Graph, done: bool)
    requires WellFormed(g) && p in g.nodes && RmChildRel(g, p, name, h, done)
    ensures done <==> name in g.nodes[p].kids
    ensures !done ==> h == g
    ensures done ==>
              var c := g.nodes[p].kids[name];
              c in g.nodes && exists dead :: Emptied(g, p, name, c, h, dead)
  {
    hide NoDup, Unlink, RemovedBy, Least;
    if done {
      var c := g.nodes[p].kids[name];
      assert HasKid(g, p, name, c);
      var m := Unlink(g, p, name, c);
      UnlinkEffect(g, m, p, name, c);
      UnlinkCounts(g, p, name, c);
      var dead := RemovedOutcome(m, p, h, !Live(m, p));
      SustainedLive(g, m, p, name, c);
      EmptiedThenWithout(g, m, p, name, c, h, dead);
    }
  }

  lemma EmptiedThenWithout(g: Graph, m: Graph, p: Addr, name: string, c: Addr, h: Graph, dead: set<Addr>)
    requires g.rev.Keys == g.nodes.Keys && p in g.nodes && c in g.nodes && m == Unlink(g, p, name, c)
    requires m.nodes.Keys == g.nodes.Keys && Unlinked(g, m, p, name, c) && SameCounts(g, m)
    requires Without(m, h, dead) && Spent(m, h, dead)
    requires forall n :: n in g.nodes ==> m.nodes[n].dir == g.nodes[n].dir && m.nodes[n].ino == g.nodes[n].ino
    requires if Sustained(g, p, name) then dead == {} else Least(m, p, dead)
    ensures Emptied(g, p, name, c, h, dead)
  {
    hide Least, Unlink, HasKid, HasEntry, Sustained;
  }

  // ----- mvChild -----

  /**
    The target slot has the moved child, or is empty when there is none; the source slot is
    empty.  Every other edge is as it was unless it leads to `dead`; and `dead` is nothing,
    or one of the two directories is in it because nothing sustains it any more.
   */
  ghost predicate Rehung(g: Graph, p: Addr, name: string, np: Addr, nname: string, h: Graph, dead: set<Addr>)
    requires p in g.nodes && np in g.nodes
  {
    var child, dest := Get(g.nodes[p].kids, name), Get(g.nodes[np].kids, nname);
    && h.nodes.Keys == g.nodes.Keys
    && (forall d, s, x: Addr :: HasKid(h, d, s, x) <==>
          && x !in dead
          && if d == np && s == nname then child == Some(x) else HasKid(g, d, s, x) && !(d == p && s == name))
    && (forall d, s, x: Addr :: HasEntry(h, x, s, d) <==>
          && x !in dead
          && (|| (child == Some(x) && d == np && s == nname)
              || (HasEntry(g, x, s, d)
                  && !(child == Some(x) && d == p && s == name)
                  && !(dest == Some(x) && d == np && s == nname))))
    && (forall n :: n in g.nodes ==>
          && h.nodes[n].ino == g.nodes[n].ino && h.nodes[n].dir == g.nodes[n].dir
          && h.nodes[n].lookups == g.nodes[n].lookups)
    && (forall i :: i in h.reg <==> i in g.reg && !(exists x :: x in dead && x in g.nodes && g.nodes[x].ino == i))
    && (forall i :: i in h.reg ==> h.reg[i] == g.reg[i])
    && Spent(g, h, dead)
    && (dead == {} || p in dead || np in dead)
    && (Live(h, p) || p in dead) && (Live(h, np) || np in dead)
  }

  lemma WithoutTwice(g: Graph, x: Graph, h: Graph, a: set<Addr>, b: set<Addr>)
    requires Without(g, x, a) && Without(x, h, b)
    ensures Without(g, h, a + b)
  {
  }

  lemma SpentTwice(g: Graph, x: Graph, h: Graph, a: set<Addr>, b: set<Addr>)
    requires Without(g, x, a) && Without(x, h, b) && Spent(g, x, a) && Spent(x, h, b)
    ensures Spent(g, h, a + b)
  {
    forall q | q in a ensures h.nodes[q].kids == map[] {
      if s :| s in h.nodes[q].kids {
        assert HasKid(h, q, s, h.nodes[q].kids[s]);
      }
    }
  }

  /** An inode that was live is live or gone. */
  lemma LiveOrGone(g: Graph, n: Addr, h: Graph, removed: bool, dead: set<Addr>, q: Addr)
    requires WellFormed(g) && Forward(g) && n in g.nodes && RemovedBy(g, n, 0, h, removed) && Without(g, h, dead)
    requires if Live(g, n) then dead == {} && h == g else Least(g, n, dead)
    requires q in g.nodes && Live(g, q)
    ensures q in h.nodes && (Live(h, q) || q in dead)
  {
    assert DecStep(g, n, 0) == g;
    if !Live(g, n) && q !in dead {
      var d :| Removal(g, n, h, d);
      LeastUnique(g, n, d, dead);
      SurvivorsLive(g, n, h, dead, q);
    }
  }

  /** Both removals at the end of mvChild together. */
  lemma TailOutcome(m: Graph, p: Addr, np: Addr, x: Graph, h: Graph) returns (dead: set<Addr>)
    requires WellFormed(m) && Forward(m) && MvTail(m, p, np, x, h)
    ensures Without(m, h, dead) && Spent(m, h, dead) && (dead == {} || p in dead || np in dead)
    ensures (Live(h, p) || p in dead) && (Live(h, np) || np in dead)
  {
    hide WellFormed, Forward, RemovedBy, Without, Spent, Live, Least;
    var a := RemovedOutcome(m, p, x, !Live(m, p));
    RemovedByForward(m, p, 0, x, !Live(m, p));
    var b: set<Addr> := {};
    if Live(m, np) {
      SameWithout(x);
      LiveOrGone(m, p, x, !Live(m, p), a, np);
      if Live(m, p) {
        LiveOrGone(m, p, x, !Live(m, p), a, p);
      }
    } else {
      b := RemovedOutcome(x, np, h, true);
      if Live(m, p) {
        LiveOrGone(x, np, h, true, b, p);
      }
    }
    LeastHas(m, p, a);
    LeastHas(x, np, b);
    dead := a + b;
    WithoutTwice(m, x, h, a, b);
    SpentTwice(m, x, h, a, b);
  }

  lemma SameWithout(g: Graph)
    ensures Without(g, g, {}) && Spent(g, g, {})
  {
  }

  lemma LeastHas(g: Graph, n: Addr, dead: set<Addr>)
    ensures Least(g, n, dead) ==> n in dead
  {
  }

  /** mvChild is refused exactly when the target is taken and may not be overwritten. */
  lemma MvChildOutcome(g: Graph, p: Addr, name: string, np: Addr, nname: string, overwrite: bool, h: Graph, done: bool)
    requires WellFormed(g) && Forward(g) && p in g.nodes && np in g.nodes
    requires name in g.nodes[p].kids ==> g.nodes[np].dir
    requires MvChildRel(g, p, name, np, nname, overwrite, h, done)
    ensures done <==> nname !in g.nodes[np].kids || overwrite
    ensures !done ==> h == g
    ensures done ==> exists dead :: Rehung(g, p, name, np, nname, h, dead)
  {
    hide NoDup, MvStep, MvTail, Forward, Without, Spent, Moved, Live;
    if done {
      var child, dest := Get(g.nodes[p].kids, name), Get(g.nodes[np].kids, nname);
      var m := MvStep(g, p, name, np, nname, child, dest);
      MvEffect(g, m, p, name, np, nname);
      MovedKeepsSymmetry(g, m, p, name, np, nname);
      MvCounts(g, p, name, np, nname, child, dest);
      var x :| MvTail(m, p, np, x, h);
      var dead := TailOutcome(m, p, np, x, h);
      MovedThenWithout(g, m, p, name, np, nname, h, dead);
    }
  }

  lemma MovedThenWithout(g: Graph, m: Graph, p: Addr, name: string, np: Addr, nname: string, h: Graph, dead: set<Addr>)
    requires p in g.nodes && np in g.nodes && Moved(g, m, p, name, np, nname) && SameCounts(g, m) && Extends(g, m)
    requires Without(m, h, dead) && Spent(m, h, dead) && (dead == {} || p in dead || np in dead)
    requires (Live(h, p) || p in dead) && (Live(h, np) || np in dead)
    ensures Rehung(g, p, name, np, nname, h, dead)
  {
    hide HasKid, HasEntry, Live;
  }
}
