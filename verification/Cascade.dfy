/**
  What removeRef takes away: the least set of inodes that starve once the given
  one is dead.  The set is characterised without reference to any visiting order.
 */
module Cascade {
  import opened Types
  import opened Recency
  import opened InodeGraph

  // ----- one cut -----

  /** The record-level effect of cutting the listed edges to `n`. */
  ghost predicate EdgesCut(g: Graph, h: Graph, n: Addr, pes: seq<Entry>) {
    && h.reg == g.reg
    && h.nodes.Keys == h.rev.Keys == g.nodes.Keys == g.rev.Keys
    && (forall d :: d in g.nodes ==> h.nodes[d] == g.nodes[d].(kids := h.nodes[d].kids))
    && (forall d :: d in g.nodes ==> h.rev[d] >= g.rev[d])
    && (forall d :: d in g.nodes && h.rev[d] == g.rev[d] ==> h.nodes[d] == g.nodes[d])
    && (forall d, s, x :: HasKid(h, d, s, x) <==> HasKid(g, d, s, x) && !(x == n && Entry(s, d) in pes))
  }

  lemma {:induction false} CutEdgesEffect(g: Graph, n: Addr, pes: seq<Entry>)
    requires g.rev.Keys == g.nodes.Keys
    requires forall e :: e in pes ==> e.node in g.nodes
    ensures EdgesCut(g, CutEdges(g, n, pes), n, pes)
    decreases |pes|
  {
    if pes != [] {
      var e := pes[0];
      var m := if HasKid(g, e.node, e.name, n) then Bump(DelKid(g, e.node, e.name), e.node) else g;
      var h := CutEdges(g, n, pes);
      assert EdgesCut(g, m, n, [e]) by {
        forall d, s, x
          ensures HasKid(m, d, s, x) <==> HasKid(g, d, s, x) && !(x == n && Entry(s, d) in [e])
        {
        }
      }
      CutEdgesEffect(m, n, pes[1..]);
      CutTrans(g, m, h, n, e, pes);
    }
  }

  lemma CutTrans(g: Graph, m: Graph, h: Graph, n: Addr, e: Entry, pes: seq<Entry>)
    requires pes != [] && e == pes[0]
    requires EdgesCut(g, m, n, [e]) && EdgesCut(m, h, n, pes[1..])
    ensures EdgesCut(g, h, n, pes)
  {
    assert pes == [e] + pes[1..];
    forall d, s, x
      ensures HasKid(h, d, s, x) <==> HasKid(g, d, s, x) && !(x == n && Entry(s, d) in pes)
    {
      assert Entry(s, d) in pes <==> Entry(s, d) in [e] || Entry(s, d) in pes[1..];
    }
  }

  // ----- collapsing a set of inodes -----

  function KidsOutside(kids: map<string, Addr>, dead: set<Addr>): map<string, Addr> {
    map s | s in kids && kids[s] !in dead :: kids[s]
  }

  /** The records once the inodes of `dead` are gone: no edges into them, no parents left. */
  function Collapse(nodes: map<Addr, Node>, dead: set<Addr>): map<Addr, Node> {
    map n | n in nodes ::
      nodes[n].(kids := KidsOutside(nodes[n].kids, dead), parents := if n in dead then [] else nodes[n].parents)
  }

  /** The registry once the numbers of `dead` are deleted from it. */
  function RegOutside(g: Graph, dead: set<Addr>): map<Ino, Addr>
    requires dead <= g.nodes.Keys
  {
    g.reg - (set n | n in dead :: g.nodes[n].ino)
  }

  // ----- the least dead set -----

  /** `p` is kept alive neither by the kernel nor by a child outside `s`. */
  ghost predicate Starved(g: Graph, p: Addr, dead: set<Addr>) {
    && p in g.nodes
    && g.nodes[p].lookups == 0
    && forall s :: s in g.nodes[p].kids ==> g.nodes[p].kids[s] in dead
  }

  ghost predicate Closed(g: Graph, n: Addr, dead: set<Addr>) {
    && n in dead
    && forall c, s, p :: c in dead && HasEntry(g, c, s, p) && Starved(g, p, dead) ==> p in dead
  }

  /** The least set with `n` and every listed parent that starves. */
  ghost predicate Least(g: Graph, n: Addr, dead: set<Addr>) {
    && Closed(g, n, dead)
    && dead <= g.nodes.Keys
    && forall other :: Closed(g, n, other) ==> dead <= other
  }

  /** The same set in the words of the directory tree, where edges are symmetric. */
  ghost predicate TreeClosed(g: Graph, n: Addr, dead: set<Addr>) {
    && n in dead
    && forall p :: p in g.nodes && g.nodes[p].kids != map[] && Starved(g, p, dead) ==> p in dead
  }

  lemma ClosedIsTreeClosed(g: Graph, n: Addr, dead: set<Addr>)
    requires Symmetric(g)
    ensures Closed(g, n, dead) <==> TreeClosed(g, n, dead)
  {
    if Closed(g, n, dead) {
      forall p | p in g.nodes && g.nodes[p].kids != map[] && Starved(g, p, dead) ensures p in dead {
        var s :| s in g.nodes[p].kids;
        assert HasKid(g, p, s, g.nodes[p].kids[s]);
      }
    }
    if TreeClosed(g, n, dead) {
      forall c, s, p | c in dead && HasEntry(g, c, s, p) && Starved(g, p, dead) ensures p in dead {
        assert HasKid(g, p, s, c);
      }
    }
  }

  // ----- the effect of removeRef -----

  ghost predicate Removal(g: Graph, n: Addr, h: Graph, dead: set<Addr>) {
    && Least(g, n, dead)
    && h.nodes == Collapse(g.nodes, dead)
    && h.reg == RegOutside(g, dead)
    && Bumps(g, h) && h.rev.Keys == h.nodes.Keys
  }

  /** removeRef(n, k): the decrement, and the removal when nothing keeps `n`. */
  ghost predicate RemovedBy(g: Graph, n: Addr, k: nat, h: Graph, removed: bool)
    requires g.rev.Keys == g.nodes.Keys && n in g.nodes && k <= g.nodes[n].lookups
  {
    var m := DecStep(g, n, k);
    if Live(m, n) then h == m && !removed
    else removed && exists dead :: Removal(m, n, h, dead)
  }

  lemma LeastUnique(m: Graph, n: Addr, a: set<Addr>, b: set<Addr>)
    requires Least(m, n, a) && Least(m, n, b)
    ensures a == b
  {
  }

  /** The outcome does not depend on the order in which parents were visited. */
  lemma RemovalUnique(g: Graph, n: Addr, h1: Graph, dead1: set<Addr>, h2: Graph, dead2: set<Addr>)
    requires Removal(g, n, h1, dead1) && Removal(g, n, h2, dead2)
    ensures dead1 == dead2 && h1.nodes == h2.nodes && h1.reg == h2.reg
  {
  }

  /** Nothing is removed without cause: apart from `n`, the removed inodes starved and were listed. */
  lemma RemovedStarve(g: Graph, n: Addr, dead: set<Addr>, p: Addr)
    requires Least(g, n, dead) && p in dead && p != n
    ensures Starved(g, p, dead)
    ensures exists c, s :: c in dead && HasEntry(g, c, s, p)
  {
    var rest := dead - {p};
    if !Starved(g, p, dead) || !exists c, s :: c in dead && HasEntry(g, c, s, p) {
      forall c, s, q | c in rest && HasEntry(g, c, s, q) && Starved(g, q, rest) ensures q in rest {
        assert Starved(g, q, dead);
      }
      assert Closed(g, n, rest);
    }
  }

  /** Nothing that should go is left: an inode that was kept alive and survives is still kept alive. */
  lemma SurvivorsLive(g: Graph, n: Addr, h: Graph, dead: set<Addr>, q: Addr)
    requires WellFormed(g) && Forward(g) && Removal(g, n, h, dead)
    requires q in g.nodes && q !in dead && Live(g, q)
    ensures q in h.nodes && Live(h, q)
  {
    if g.nodes[q].lookups == 0 && h.nodes[q].kids == map[] {
      forall s | s in g.nodes[q].kids ensures g.nodes[q].kids[s] in dead {
        assert s !in h.nodes[q].kids;
      }
      var s :| s in g.nodes[q].kids;
      assert HasKid(g, q, s, g.nodes[q].kids[s]);
      assert Starved(g, q, dead);
    }
  }

  /**
    The registry forgets by number: a survivor stays registered exactly when none of
    the removed inodes bears its number.
   */
  lemma SurvivorRegistered(g: Graph, n: Addr, h: Graph, dead: set<Addr>, c: Addr)
    requires Removal(g, n, h, dead) && c in g.nodes && c !in dead && Registered(g, c)
    ensures c in h.nodes && (Registered(h, c) <==> forall d :: d in dead ==> g.nodes[d].ino != g.nodes[c].ino)
  {
  }

  // ----- edges of a collapsed graph -----

  lemma CollapseEdges(g: Graph, h: Graph, dead: set<Addr>)
    requires h.nodes == Collapse(g.nodes, dead)
    ensures forall d, s, x :: HasKid(h, d, s, x) <==> HasKid(g, d, s, x) && x !in dead
    ensures forall d, s, x :: HasEntry(h, x, s, d) <==> HasEntry(g, x, s, d) && x !in dead
  {
  }

  lemma CollapseWellFormed(g: Graph, h: Graph, dead: set<Addr>)
    requires WellFormed(g) && dead <= g.nodes.Keys
    requires h.nodes == Collapse(g.nodes, dead) && h.reg == RegOutside(g, dead) && h.rev.Keys == h.nodes.Keys
    ensures WellFormed(h)
    ensures Forward(g) ==> Forward(h)
    ensures Symmetric(g) ==> Symmetric(h)
  {
    CollapseEdges(g, h, dead);
  }

  lemma CollapseTwice(nodes: map<Addr, Node>, a: set<Addr>, b: set<Addr>)
    ensures Collapse(Collapse(nodes, a), b) == Collapse(nodes, a + b)
  {
    forall n | n in nodes
      ensures KidsOutside(KidsOutside(nodes[n].kids, a), b) == KidsOutside(nodes[n].kids, a + b)
    {
    }
  }

  // ----- how the recursion computes the least set -----

  lemma CutKids(g: Graph, m: Graph, n: Addr, pes: seq<Entry>, d: Addr)
    requires Forward(g) && n in g.nodes && d in g.nodes
    requires forall e :: e in pes <==> e in g.nodes[n].parents
    requires EdgesCut(g, m, n, pes)
    ensures m.nodes[d].kids == KidsOutside(g.nodes[d].kids, {n})
  {
    var a, b := m.nodes[d].kids, KidsOutside(g.nodes[d].kids, {n});
    forall s | s in a ensures s in b && a[s] == b[s] {
      assert HasKid(m, d, s, a[s]);
      assert HasKid(g, d, s, a[s]);
    }
    forall s | s in b ensures s in a {
      assert HasKid(g, d, s, b[s]);
    }
  }

  /** The group-locked section collapses exactly the one inode. */
  lemma CutStepCollapses(g: Graph, h: Graph, n: Addr, pes: seq<Entry>)
    requires WellFormed(g) && Forward(g) && n in g.nodes
    requires forall e :: e in pes <==> e in g.nodes[n].parents
    requires forall e :: e in pes ==> e.node in g.nodes
    requires h == CutStep(g, n, pes)
    ensures h.nodes == Collapse(g.nodes, {n}) && h.reg == g.reg && Bumps(g, h) && h.rev.Keys == h.nodes.Keys
  {
    var m := CutEdges(g, n, pes);
    CutEdgesEffect(g, n, pes);
    forall d | d in g.nodes ensures m.nodes[d].kids == KidsOutside(g.nodes[d].kids, {n}) {
      CutKids(g, m, n, pes, d);
    }
    CutRecords(g, m, h, n, pes);
  }

  lemma CutRecords(g: Graph, m: Graph, h: Graph, n: Addr, pes: seq<Entry>)
    requires g.rev.Keys == g.nodes.Keys && n in g.nodes && EdgesCut(g, m, n, pes)
    requires forall d :: d in g.nodes ==> m.nodes[d].kids == KidsOutside(g.nodes[d].kids, {n})
    requires h == Bump(ClearParents(m, n), n)
    ensures h.nodes == Collapse(g.nodes, {n}) && h.reg == g.reg && Bumps(g, h) && h.rev.Keys == h.nodes.Keys
  {
    hide HasKid, KidsOutside, Bumps;
    assert h.nodes == Collapse(g.nodes, {n});
    CutBumps(g, m, h, n, pes);
  }

  lemma CutBumps(g: Graph, m: Graph, h: Graph, n: Addr, pes: seq<Entry>)
    requires g.rev.Keys == g.nodes.Keys && n in g.nodes && EdgesCut(g, m, n, pes)
    requires h == Bump(ClearParents(m, n), n)
    ensures Bumps(g, h)
  {
    hide HasKid;
  }

  /** Every starving listed parent of a dead inode is dead or still to be visited. */
  ghost predicate Settled(g: Graph, dead: set<Addr>, todo: seq<Entry>) {
    forall c, s, p :: c in dead && HasEntry(g, c, s, p) && Starved(g, p, dead) ==>
      p in dead || exists e :: e in todo && e.node == p
  }

  /** No closed set misses anything collected so far. */
  ghost predicate Sound(g: Graph, n: Addr, dead: set<Addr>) {
    forall other :: Closed(g, n, other) ==> dead <= other
  }

  /**
    One recursive call: `m` is `g` with `dead` collapsed, and visiting the next
    listed parent either leaves it (it is live) or removes a further set `more`.
   */
  lemma VisitStep(g: Graph, n: Addr, dead: set<Addr>, todo: seq<Entry>, m: Graph, h: Graph, more: set<Addr>)
    requires WellFormed(g) && Forward(g) && dead <= g.nodes.Keys && todo != []
    requires m.nodes == Collapse(g.nodes, dead)
    requires Sound(g, n, dead) && Settled(g, dead, todo) && n in dead
    requires exists c :: c in dead && HasEntry(g, c, todo[0].name, todo[0].node)
    requires todo[0].node in g.nodes
    requires if Live(m, todo[0].node) then more == {} else Least(m, todo[0].node, more)
    ensures Sound(g, n, dead + more) && Settled(g, dead + more, todo[1..])
  {
    CollapseEdges(g, m, dead);
    var p := todo[0].node;
    forall other | Closed(g, n, other) ensures dead + more <= other {
      if !Live(m, p) {
        VisitSound(g, n, dead, m, p, other);
        assert Closed(m, p, other);
      }
    }
    forall c, s, q | c in dead + more && HasEntry(g, c, s, q) && Starved(g, q, dead + more)
      ensures q in dead + more || exists e :: e in todo[1..] && e.node == q
    {
      VisitSettled(g, n, dead, todo, m, more, c, s, q);
    }
  }

  lemma VisitSound(g: Graph, n: Addr, dead: set<Addr>, m: Graph, p: Addr, other: set<Addr>)
    requires m.nodes == Collapse(g.nodes, dead) && Closed(g, n, other) && dead <= other
    requires p in m.nodes && !Live(m, p)
    requires exists c, s :: c in dead && HasEntry(g, c, s, p)
    ensures Closed(m, p, other)
  {
    CollapseEdges(g, m, dead);
    forall q | Starved(m, q, other) ensures Starved(g, q, other) {
      forall s | s in g.nodes[q].kids ensures g.nodes[q].kids[s] in other {
        assert s in m.nodes[q].kids || g.nodes[q].kids[s] in dead;
      }
    }
    assert Starved(m, p, other);
    var c, s :| c in dead && HasEntry(g, c, s, p);
  }

  lemma VisitSettled(g: Graph, n: Addr, dead: set<Addr>, todo: seq<Entry>, m: Graph, more: set<Addr>, c: Addr,
                     s: string, q: Addr)
    requires WellFormed(g) && Forward(g) && todo != []
    requires m.nodes == Collapse(g.nodes, dead) && Settled(g, dead, todo)
    requires todo[0].node in g.nodes
    requires if Live(m, todo[0].node) then more == {} else Least(m, todo[0].node, more)
    requires c in dead + more && HasEntry(g, c, s, q) && Starved(g, q, dead + more)
    ensures q in dead + more || exists e :: e in todo[1..] && e.node == q
  {
    var p := todo[0].node;
    CollapseEdges(g, m, dead);
    assert forall e :: e in todo ==> e == todo[0] || e in todo[1..];
    assert Starved(m, q, more);
    if c !in dead {
      assert HasEntry(m, c, s, q);
    } else if !Starved(g, q, dead) {
      var t :| t in g.nodes[q].kids && g.nodes[q].kids[t] !in dead;
      assert HasKid(g, q, t, g.nodes[q].kids[t]);
      assert HasEntry(m, g.nodes[q].kids[t], t, q);
    }
  }

  /** The inodes with parents; it shrinks with every removal that goes on to visit parents. */
  ghost function WithParents(nodes: map<Addr, Node>): set<Addr> {
    set n | n in nodes && nodes[n].parents != []
  }

  /** Where the recursion stands: `dead` is gone from `m`, leaving `g`, and `todo` is left to visit. */
  ghost predicate Progress(m: Graph, n: Addr, dead: set<Addr>, todo: seq<Entry>, g: Graph) {
    && WellFormed(m) && Forward(m) && m.rev.Keys == m.nodes.Keys && n in dead && dead <= m.nodes.Keys
    && g.nodes == Collapse(m.nodes, dead) && g.reg == RegOutside(m, dead)
    && Bumps(m, g) && g.rev.Keys == g.nodes.Keys
    && Sound(m, n, dead) && Settled(m, dead, todo)
    && (forall e :: e in todo ==> e in m.nodes[n].parents)
  }

  lemma ProgressWellFormed(m: Graph, n: Addr, dead: set<Addr>, todo: seq<Entry>, g: Graph)
    requires Progress(m, n, dead, todo, g)
    ensures WellFormed(g) && Forward(g)
    ensures todo != [] ==> todo[0].node in g.nodes && WithParents(g.nodes) < WithParents(m.nodes)
  {
    CollapseWellFormed(m, g, dead);
    if todo != [] {
      assert HasEntry(m, n, todo[0].name, todo[0].node);
      assert n in WithParents(m.nodes) && n !in WithParents(g.nodes);
    }
  }

  /** The start, right after the group-locked section. */
  lemma ProgressStart(m: Graph, n: Addr, g: Graph, pes: seq<Entry>)
    requires WellFormed(m) && Forward(m) && n in m.nodes && !Live(m, n)
    requires forall e :: e in pes <==> e in m.nodes[n].parents
    requires g.nodes == Collapse(m.nodes, {n}) && g.reg == m.reg - {m.nodes[n].ino}
    requires Bumps(m, g) && g.rev.Keys == g.nodes.Keys
    ensures Progress(m, n, {n}, pes, g)
  {
  }

  lemma ProgressStep(m: Graph, n: Addr, dead: set<Addr>, todo: seq<Entry>, g: Graph, h: Graph, removed: bool)
    returns (dead': set<Addr>)
    requires Progress(m, n, dead, todo, g) && todo != [] && todo[0].node in g.nodes
    requires RemovedBy(g, todo[0].node, 0, h, removed)
    ensures Progress(m, n, dead', todo[1..], h)
  {
    hide Least, Sound, Settled, Bumps, Extends, WellFormed, Forward;
    var p := todo[0].node;
    assert HasEntry(m, n, todo[0].name, p);
    var more: set<Addr> := {};
    if !Live(g, p) {
      more :| Removal(g, p, h, more);
      LeastInside(g, p, more);
      CollapseTwice(m.nodes, dead, more);
      RegTwice(m, g, dead, more);
      BumpsTrans(m, g, h);
    } else {
      assert dead + more == dead;
    }
    VisitStep(m, n, dead, todo, g, h, more);
    dead' := dead + more;
  }

  lemma LeastInside(g: Graph, n: Addr, dead: set<Addr>)
    requires Least(g, n, dead)
    ensures dead <= g.nodes.Keys
  {
  }

  lemma RegTwice(m: Graph, g: Graph, a: set<Addr>, b: set<Addr>)
    requires a <= m.nodes.Keys && b <= g.nodes.Keys
    requires g.nodes == Collapse(m.nodes, a) && g.reg == RegOutside(m, a)
    ensures RegOutside(g, b) == RegOutside(m, a + b)
  {
  }

  lemma ProgressDone(m: Graph, n: Addr, dead: set<Addr>, g: Graph)
    requires Progress(m, n, dead, [], g)
    ensures Removal(m, n, g, dead)
  {
  }
}
