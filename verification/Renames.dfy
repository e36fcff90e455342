/** Paths across the whole of an operation, including the removals it ends with. */
module Renames {
  import opened Types
  import opened Recency
  import opened InodeGraph
  import opened Cascade
  import opened Coherence
  import opened Paths

  // ----- removeRef -----

  /** removeRef(n, k) does not remove `q`. */
  ghost predicate Kept(g: Graph, n: Addr, k: nat, q: Addr)
    requires g.rev.Keys == g.nodes.Keys && n in g.nodes && k <= g.nodes[n].lookups
  {
    var m := DecStep(g, n, k);
    Live(m, n) || forall dead :: Least(m, n, dead) ==> q !in dead
  }

  /** The decrement touches no walk. */
  lemma DecKeepsWalk(g: Graph, n: Addr, k: nat, root: Addr, q: Addr, c: seq<Addr>)
    requires WellFormed(g) && n in g.nodes && k <= g.nodes[n].lookups && Chain(g, root, q, c)
    ensures var m := DecStep(g, n, k);
            && WellFormed(m) && (Symmetric(g) ==> Symmetric(m))
            && Chain(m, root, q, c) && PathOf(m, root, q, c) == PathOf(g, root, q, c)
  {
    hide DecStep, NoDup;
    var m := DecStep(g, n, k);
    DecLowers(g, n, k);
    LoweredEdges(g, m, n);
    ChainNodes(g, root, q, c);
    forall x | x in c ensures SameHead(g, m, root, x) {
      assert m.nodes[x].parents == g.nodes[x].parents;
    }
    ChainStable(g, m, root, q, c);
    assert m.nodes[q].ino == g.nodes[q].ino;
  }

  /** On any graph, removeRef keeps a walk and its path exactly when it removes none of the inodes named on it. */
  lemma RemovedByKeepsWalkExact(g: Graph, n: Addr, k: nat, h: Graph, removed: bool, root: Addr, q: Addr, c: seq<Addr>)
    requires WellFormed(g) && n in g.nodes && k <= g.nodes[n].lookups && RemovedBy(g, n, k, h, removed)
    requires Chain(g, root, q, c)
    ensures Chain(h, root, q, c) <==> forall x :: x in Named(c) ==> Kept(g, n, k, x)
    ensures Chain(h, root, q, c) ==> PathOf(h, root, q, c) == PathOf(g, root, q, c)
  {
    hide DecStep, NoDup, Least;
    var m := DecStep(g, n, k);
    DecLowers(g, n, k);
    DecKeepsWalk(g, n, k, root, q, c);
    if !Live(m, n) {
      var dead :| Removal(m, n, h, dead);
      RemovalWalkExact(m, n, h, dead, root, q, c);
      forall other | Least(m, n, other) ensures other == dead {
        LeastUnique(m, n, other, dead);
      }
    }
  }

  lemma RemovalWalkExact(m: Graph, n: Addr, h: Graph, dead: set<Addr>, root: Addr, q: Addr, c: seq<Addr>)
    requires Removal(m, n, h, dead) && Chain(m, root, q, c)
    ensures Chain(h, root, q, c) <==> forall x :: x in Named(c) ==> x !in dead
    ensures Chain(h, root, q, c) ==> PathOf(h, root, q, c) == PathOf(m, root, q, c)
  {
    hide Least, Bumps;
    ChainNodes(m, root, q, c);
    CollapseWalkExact(m, h, dead, root, q, c);
  }

  /** On a symmetric graph those are the walks of exactly the inodes it does not remove, or that had no walk to lose. */
  lemma RemovedByKeepsPathExact(g: Graph, n: Addr, k: nat, h: Graph, removed: bool, root: Addr, q: Addr, c: seq<Addr>)
    requires WellFormed(g) && Symmetric(g) && n in g.nodes && k <= g.nodes[n].lookups && RemovedBy(g, n, k, h, removed)
    requires Chain(g, root, q, c)
    ensures Chain(h, root, q, c) <==> Kept(g, n, k, q) || |c| == 1
    ensures Chain(h, root, q, c) ==> PathOf(h, root, q, c) == PathOf(g, root, q, c)
  {
    hide DecStep, NoDup, Least;
    RemovedByKeepsWalkExact(g, n, k, h, removed, root, q, c);
    var m := DecStep(g, n, k);
    DecLowers(g, n, k);
    DecKeepsWalk(g, n, k, root, q, c);
    if |c| > 1 {
      assert Named(c)[0] == q;
    }
    if Kept(g, n, k, q) && !Live(m, n) {
      forall dead | Least(m, n, dead) ensures forall x :: x in Named(c) ==> x !in dead {
        SurvivorsAbove(m, n, dead, root, q, c);
      }
    }
  }

  // ----- mvChild -----

  /** Child edges lead to a higher rank: there is no cycle. */
  ghost predicate Acyclic(g: Graph, rank: map<Addr, nat>) {
    forall d, s, c :: HasKid(g, d, s, c) ==> d in rank && c in rank && rank[d] < rank[c]
  }

  /** On a symmetric graph without cycles newest parents are ranked as well, so every walk ends. */
  lemma AcyclicEnds(g: Graph, root: Addr, n: Addr, rank: map<Addr, nat>)
    requires Symmetric(g) && Acyclic(g, rank) && n in g.nodes
    ensures Ranked(g, root, rank) && Ends(g, root, n)
  {
    forall x | x in g.nodes && x != root && g.nodes[x].parents != []
      ensures var p := g.nodes[x].parents[0].node; x in rank && p in g.nodes && p in rank && rank[p] < rank[x]
    {
      var e := g.nodes[x].parents[0];
      assert HasEntry(g, x, e.name, e.node) && HasKid(g, e.node, e.name, x);
    }
    var c := ChainExists(g, root, n, rank);
  }

  /** Along a walk ranks fall. */
  lemma {:induction false} WalkRanks(g: Graph, root: Addr, m: Addr, c: seq<Addr>, k: nat, rank: map<Addr, nat>)
    requires Symmetric(g) && Acyclic(g, rank) && Chain(g, root, m, c) && k < |c| && c[k] in rank
    ensures m in rank && rank[c[k]] <= rank[m]
    decreases k
  {
    if k > 0 {
      var e := g.nodes[m].parents[0];
      assert HasEntry(g, m, e.name, e.node) && HasKid(g, e.node, e.name, m);
      WalkRanks(g, root, e.node, c[1..], k - 1, rank);
    }
  }

  /** What the removal of the old directory removes ranks no higher than that directory. */
  lemma RemovedRanks(g: Graph, s: Graph, p: Addr, name: string, np: Addr, nname: string, child: Addr,
                     dead: set<Addr>, rank: map<Addr, nat>)
    requires p in g.nodes && np in g.nodes && Acyclic(g, rank) && HasKid(g, p, name, child)
    requires Moved(g, s, p, name, np, nname) && Symmetric(s) && Least(s, p, dead)
    ensures forall d :: d in dead ==> d in rank && rank[d] <= rank[p]
  {
    var low := set d | d in dead && d in rank && rank[d] <= rank[p];
    forall c, t, q | c in low && HasEntry(s, c, t, q) && Starved(s, q, low) ensures q in low {
      assert Starved(s, q, dead) && q in dead;
      assert HasKid(s, q, t, c);
      assert c != child && HasKid(g, q, t, c);
    }
    assert Closed(s, p, low);
  }

  /** Neither the new directory nor anything below the moved child is removed. */
  lemma RenameSpares(g: Graph, s: Graph, root: Addr, p: Addr, name: string, np: Addr, nname: string, child: Addr,
                     m: Addr, c: seq<Addr>, k: nat, dead: set<Addr>, rank: map<Addr, nat>)
    requires p in g.nodes && np in g.nodes && Symmetric(g) && Acyclic(g, rank) && HasKid(g, p, name, child)
    requires Moved(g, s, p, name, np, nname) && Symmetric(s) && p in s.nodes && !Live(s, p) && Least(s, p, dead)
    requires Chain(g, root, m, c) && k < |c| && c[k] == child
    ensures m !in dead && np !in dead
  {
    RemovedRanks(g, s, p, name, np, nname, child, dead, rank);
    WalkRanks(g, root, m, c, k, rank);
    assert child !in dead && HasKid(s, np, nname, child);
    if np in dead && np != p {
      RemovedStarve(s, p, dead, np);
      assert false;
    }
  }

  /**
    The whole of mvChild on an acyclic graph: every inode below the moved child is now
    found under the new directory and name, with the old names below the child, and the
    new directory's own path did not change.
   */
  lemma RenameOperation(g: Graph, h: Graph, root: Addr, p: Addr, name: string, np: Addr, nname: string, overwrite: bool,
                        child: Addr, m: Addr, c: seq<Addr>, k: nat, d: seq<Addr>, rank: map<Addr, nat>)
    requires WellFormed(g) && Symmetric(g) && Acyclic(g, rank) && p in g.nodes && np in g.nodes && g.nodes[np].dir
    requires HasKid(g, p, name, child) && child != root
    requires Reaches(g, root, np, d) && child !in d
    requires Chain(g, root, m, c) && k < |c| && c[k] == child
    requires MvChildRel(g, p, name, np, nname, overwrite, h, true)
    ensures forall x :: x in c[..k] || x in Named(d) ==> x in g.nodes && g.nodes[x].parents != []
    ensures Reaches(h, root, np, d) && PathOf(h, root, np, d) == PathOf(g, root, np, d)
    ensures Reaches(h, root, m, c[..k + 1] + d)
    ensures PathOf(h, root, m, c[..k + 1] + d) == Path(Join(Names(g, Named(d)) + [nname] + Names(g, c[..k])))
  {
    hide MvStep, RemovedBy, Removal, Moved, NoDup;
    var dest := Get(g.nodes[np].kids, nname);
    if dest.Some? {
      assert HasKid(g, np, nname, dest.value);
    }
    var s := MvStep(g, p, name, np, nname, Some(child), dest);
    MvEffect(g, s, p, name, np, nname);
    MovedKeepsSymmetry(g, s, p, name, np, nname);
    RenameRewritesWalk(g, s, root, p, name, np, nname, child, m, c, k, d);
    RenameTail(g, s, h, root, p, name, np, nname, child, m, c, k, d, rank);
  }

  /** The removal that may follow the locked section of a rename leaves both walks alone. */
  lemma RenameTail(g: Graph, s: Graph, h: Graph, root: Addr, p: Addr, name: string, np: Addr, nname: string,
                   child: Addr, m: Addr, c: seq<Addr>, k: nat, d: seq<Addr>, rank: map<Addr, nat>)
    requires WellFormed(s) && Symmetric(g) && Symmetric(s) && Acyclic(g, rank) && p in g.nodes && np in g.nodes
    requires HasKid(g, p, name, child) && Moved(g, s, p, name, np, nname) && exists x :: MvTail(s, p, np, x, h)
    requires Chain(g, root, m, c) && k < |c| && c[k] == child
    requires Reaches(s, root, np, d) && Reaches(s, root, m, c[..k + 1] + d)
    ensures Reaches(h, root, np, d) && PathOf(h, root, np, d) == PathOf(s, root, np, d)
    ensures Reaches(h, root, m, c[..k + 1] + d)
    ensures PathOf(h, root, m, c[..k + 1] + d) == PathOf(s, root, m, c[..k + 1] + d)
  {
    hide Removal, NoDup, Least, Acyclic;
    var x :| MvTail(s, p, np, x, h);
    assert HasKid(s, np, nname, child) && Live(s, np);
    if !Live(s, p) {
      var dead :| Removal(s, p, h, dead);
      RemovalLeast(s, p, h, dead);
      RenameSpares(g, s, root, p, name, np, nname, child, m, c, k, dead, rank);
      SurvivorsAbove(s, p, dead, root, np, d);
      RemovalWalkExact(s, p, h, dead, root, np, d);
      SurvivorsAbove(s, p, dead, root, m, c[..k + 1] + d);
      RemovalWalkExact(s, p, h, dead, root, m, c[..k + 1] + d);
    }
  }

  lemma RemovalLeast(g: Graph, n: Addr, h: Graph, dead: set<Addr>)
    requires Removal(g, n, h, dead)
    ensures Least(g, n, dead)
  {
  }
}
