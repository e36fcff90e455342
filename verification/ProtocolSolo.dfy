/**
  A call that runs undisturbed.  Lock by lock, with whatever order map iteration and the
  scheduler choose, it does what the operation does in one piece: the steps of one thread
  refine the sequential operations, removals along the parents included.
 */
module ProtocolSolo {
  import opened Types
  import opened Recency
  import opened InodeGraph
  import opened Cascade
  import opened Coherence
  import opened LockOrder
  import opened Protocol
  import opened ProtocolSafety
  import opened ProtocolSnapshots
  import opened ProtocolGarbage
  import opened ProtocolCalls

  // ----- the list of inodes still to be visited -----

  ghost predicate Listed(m: Graph, D: set<Addr>, w: Addr) {
    exists c, s :: c in D && HasEntry(m, c, s, w)
  }

  /** `l` names only `n` and listed parents of removed inodes, and none of those that starve is missing. */
  ghost predicate Pending(m: Graph, n: Addr, D: set<Addr>, l: seq<Addr>) {
    && (forall w :: w in l ==> w in m.nodes && (w == n || Listed(m, D, w)))
    && (n in D || n in l)
    && (forall c, s, p :: c in D && HasEntry(m, c, s, p) && Starved(m, p, D) ==> p in D || p in l)
  }

  /** A visited inode that is live is skipped. */
  lemma PendingSkips(m: Graph, n: Addr, D: set<Addr>, q: Addr, l: seq<Addr>, g: Graph)
    requires Pending(m, n, D, [q] + l) && g.nodes == Collapse(m.nodes, D) && q in g.nodes && Live(g, q)
    requires n in m.nodes && !Live(m, n)
    ensures Pending(m, n, D, l)
  {
    assert forall w :: w in [q] + l <==> w == q || w in l;
  }

  /** A visited inode that is dead is removed, and its parents are put on the list. */
  lemma PendingGrows(m: Graph, n: Addr, D: set<Addr>, q: Addr, l: seq<Addr>, g: Graph, pes: seq<Entry>)
    requires Forward(m) && WellFormed(m) && Pending(m, n, D, [q] + l) && Sound(m, n, D)
    requires g.nodes == Collapse(m.nodes, D) && q in g.nodes && !Live(g, q)
    requires forall e :: e in pes <==> e in g.nodes[q].parents
    ensures Pending(m, n, D + {q}, NodesOf(pes) + l) && Sound(m, n, D + {q})
  {
    CollapseEdges(m, g, D);
    var E := D + {q};
    var l' := NodesOf(pes) + l;
    forall s | s in m.nodes[q].kids ensures m.nodes[q].kids[s] in D {
      assert s in g.nodes[q].kids || m.nodes[q].kids[s] in D;
    }
    assert Starved(m, q, D);
    assert q in [q] + l;
    forall other | Closed(m, n, other) ensures E <= other {
      assert D <= other;
      if q != n {
        var c, s :| c in D && HasEntry(m, c, s, q);
        assert Starved(m, q, other);
      }
    }
    forall w | w in l' ensures w in m.nodes && (w == n || Listed(m, E, w)) {
      if w in l {
        assert w in [q] + l;
        if w != n {
          var c, s :| c in D && HasEntry(m, c, s, w);
        }
      } else {
        var i :| 0 <= i < |pes| && pes[i].node == w;
        assert pes[i] in pes;
        assert HasEntry(g, q, pes[i].name, w) && HasEntry(m, q, pes[i].name, w);
      }
    }
    forall c, s, p | c in E && HasEntry(m, c, s, p) && Starved(m, p, E) ensures p in E || p in l' {
      StillListed(m, n, D, q, l, g, pes, c, s, p);
    }
  }

  lemma InNodesOf(pes: seq<Entry>, e: Entry)
    requires e in pes
    ensures e.node in NodesOf(pes)
  {
    var i :| 0 <= i < |pes| && pes[i] == e;
    assert NodesOf(pes)[i] == e.node;
  }

  lemma StillListed(m: Graph, n: Addr, D: set<Addr>, q: Addr, l: seq<Addr>, g: Graph, pes: seq<Entry>,
                    c: Addr, s: string, p: Addr)
    requires Forward(m) && WellFormed(m) && Pending(m, n, D, [q] + l) && g.nodes == Collapse(m.nodes, D) && q in g.nodes
    requires forall e :: e in pes <==> e in g.nodes[q].parents
    requires c in D + {q} && HasEntry(m, c, s, p) && Starved(m, p, D + {q})
    ensures p in D + {q} || p in NodesOf(pes) + l
  {
    CollapseEdges(m, g, D);
    if Starved(m, p, D) && c in D {
      assert p in D || p in [q] + l;
    } else if q !in D {
      if c == q {
        assert HasEntry(g, q, s, p);
        InNodesOf(pes, Entry(s, p));
      } else {
        var x :| x in m.nodes[p].kids && m.nodes[p].kids[x] !in D;
        assert HasKid(m, p, x, q);
        assert HasEntry(m, q, x, p) && HasEntry(g, q, x, p);
        InNodesOf(pes, Entry(x, p));
      }
    }
  }

  /** With nothing left to visit the removed set is the least one. */
  lemma PendingDone(m: Graph, n: Addr, D: set<Addr>)
    requires Pending(m, n, D, []) && Sound(m, n, D) && D <= m.nodes.Keys
    ensures Least(m, n, D)
  {
  }

  // ----- removal as a thread does it -----

  /** What the removals of a thread have left of `m`; `R` are the inodes whose numbers are free. */
  ghost predicate Left(m: Graph, D: set<Addr>, R: set<Addr>, g: Graph) {
    && WellFormed(m) && Forward(m) && R <= m.nodes.Keys && D <= R
    && g.nodes == Collapse(m.nodes, D) && g.reg == RegOutside(m, R) && Bumps(m, g) && g.rev.Keys == g.nodes.Keys
  }

  /** `th` is removing `n`, dead in `m`: `D` is gone and `work` is left to visit, before `tail`. */
  ghost predicate SweepAt(m: Graph, n: Addr, D: set<Addr>, work: seq<Addr>, tail: seq<Addr>, g: Graph, th: Thread) {
    && n in m.nodes && !Live(m, n) && th.todo == work + tail && Sound(m, n, D)
    && match Target(th.pc)
       case Idle => Left(m, D, D, g) && Pending(m, n, D, work)
       case RefLocked(q, k) => k == 0 && Left(m, D, D, g) && Pending(m, n, D, [q] + work)
       case RefDrop(q) => Left(m, D, D, g) && Pending(m, n, D, [q] + work) && q in g.nodes && !Live(g, q)
       case RefDelete(q) => Left(m, D, D, g) && Pending(m, n, D, [q] + work) && q in g.nodes && !Live(g, q)
       case RefSnap(q) => Left(m, D, D + {q}, g) && Pending(m, n, D, [q] + work) && q in g.nodes && !Live(g, q)
       case RefCut(q, rev, pes) =>
         && Left(m, D, D + {q}, g) && Pending(m, n, D, [q] + work) && q in g.nodes && !Live(g, q)
         && q in g.rev && rev == g.rev[q] && multiset(pes) == multiset(g.nodes[q].parents)
       case _ => false
  }

  ghost predicate Sweeps(m: Graph, n: Addr, tail: seq<Addr>, g: Graph, th: Thread) {
    exists D, work :: SweepAt(m, n, D, work, tail, g, th)
  }

  /** The visited inode is looked at: live, it is skipped; dead, it is to be dropped. */
  lemma SweepLook(m: Graph, n: Addr, D: set<Addr>, work: seq<Addr>, tail: seq<Addr>, s: State, t: Tid, ch: Choice,
                  s': State)
    requires Next(s, t, ch, s') && s'.crash.None? && SweepAt(m, n, D, work, tail, s.g, s.threads[t])
    requires s.threads[t].want == [] && s.threads[t].pc.RefLocked?
    ensures SweepAt(m, n, D, work, tail, s'.g, s'.threads[t])
  {
    var q := s.threads[t].pc.n;
    hide AddSection, FreshSection, CutSection, RmSection, MvSection, Sorted, NoDup, Left, Pending, Sound;
    assert q in Group(s.threads[t].pc);
    assert s'.g == s.g;
    if Live(s.g, q) {
      LeftNodes(m, D, D, s.g);
      PendingSkips(m, n, D, q, work, s.g);
    }
  }

  lemma LeftNodes(m: Graph, D: set<Addr>, R: set<Addr>, g: Graph)
    requires Left(m, D, R, g)
    ensures WellFormed(m) && Forward(m) && g.nodes == Collapse(m.nodes, D)
  {
  }

  /** The registry entry of the dropped inode's number is deleted. */
  lemma SweepDelete(m: Graph, n: Addr, D: set<Addr>, work: seq<Addr>, tail: seq<Addr>, s: State, t: Tid, ch: Choice,
                    s': State)
    requires Next(s, t, ch, s') && s'.crash.None? && SweepAt(m, n, D, work, tail, s.g, s.threads[t])
    requires s.threads[t].want == [] && s.threads[t].pc.RefDelete?
    ensures SweepAt(m, n, D, work, tail, s'.g, s'.threads[t])
  {
    DeleteEffect(s, t, ch, s');
    hide Next, Left, Pending, Sound, Live;
    LeftUnregistered(m, D, s.threads[t].pc.n, s.g);
    StillDead(s.g, s.threads[t].pc.n);
  }

  lemma StillDead(g: Graph, n: Addr)
    requires n in g.nodes && !Live(g, n)
    ensures !Live(Unregister(g, g.nodes[n].ino), n)
  {
  }

  lemma DeleteEffect(s: State, t: Tid, ch: Choice, s': State)
    requires Next(s, t, ch, s') && s.threads[t].want == [] && s.threads[t].pc.RefDelete?
    ensures var n := s.threads[t].pc.n;
            && t in s'.threads && n in s.g.nodes && s'.g == Unregister(s.g, s.g.nodes[n].ino)
            && s'.threads[t] == s.threads[t].(mu := false, pc := RefSnap(n))
  {
    hide AddSection, FreshSection, RefSection, CutSection, RmSection, MvSection, Sorted, NoDup;
    assert s.threads[t].pc.n in Group(s.threads[t].pc);
  }

  lemma LeftUnregistered(m: Graph, D: set<Addr>, q: Addr, g: Graph)
    requires Left(m, D, D, g) && q in g.nodes
    ensures Left(m, D, D + {q}, Unregister(g, g.nodes[q].ino))
  {
    assert g.nodes[q].ino == m.nodes[q].ino;
    assert RegOutside(m, D + {q}) == RegOutside(m, D) - {m.nodes[q].ino};
  }

  /** The inode is cut out, and its parents are put in front of the list. */
  lemma SweepCut(m: Graph, n: Addr, D: set<Addr>, work: seq<Addr>, tail: seq<Addr>, s: State, t: Tid, ch: Choice,
                 s': State)
    requires Next(s, t, ch, s') && s'.crash.None? && SweepAt(m, n, D, work, tail, s.g, s.threads[t])
    requires s.threads[t].want == [] && s.threads[t].pc.RefCut?
    ensures var pc := s.threads[t].pc;
            SweepAt(m, n, D + {pc.n}, NodesOf(pc.pes) + work, tail, s'.g, s'.threads[t])
  {
    var RefCut(q, rev, pes) := s.threads[t].pc;
    SweepCutEffect(m, n, D, work, tail, s, t, ch, s');
    hide Next, NoDup, Left, Pending, Sound, CutStep, WellFormed, Forward, Live;
    assert NodesOf(pes) + (work + tail) == NodesOf(pes) + work + tail;
    LeftCut(m, D, q, s.g, s'.g, pes);
    LeftNodes(m, D, D + {q}, s.g);
    PendingGrows(m, n, D, q, work, s.g, pes);
  }

  lemma SweepCutEffect(m: Graph, n: Addr, D: set<Addr>, work: seq<Addr>, tail: seq<Addr>, s: State, t: Tid,
                       ch: Choice, s': State)
    requires Next(s, t, ch, s') && s'.crash.None? && SweepAt(m, n, D, work, tail, s.g, s.threads[t])
    requires s.threads[t].want == [] && s.threads[t].pc.RefCut?
    ensures var RefCut(q, rev, pes) := s.threads[t].pc;
            && WellFormed(s.g) && q in s.g.nodes && (forall x :: x in pes ==> x.node in s.g.nodes)
            && (forall e :: e in pes <==> e in s.g.nodes[q].parents) && s'.g == CutStep(s.g, q, pes)
            && t in s'.threads && s'.threads[t] == Done(s.threads[t].(todo := NodesOf(pes) + s.threads[t].todo))
  {
    var RefCut(q, rev, pes) := s.threads[t].pc;
    hide AddSection, FreshSection, RefSection, RmSection, MvSection, Sorted, NoDup, Left, Pending, Sound, CutStep,
      NodesOf;
    assert q in Group(s.threads[t].pc);
    forall x | x in pes ensures x.node in s.g.nodes {
      assert x.node in Group(s.threads[t].pc);
    }
    SameElements(pes, s.g.nodes[q].parents);
  }

  lemma LeftCut(m: Graph, D: set<Addr>, q: Addr, g: Graph, h: Graph, pes: seq<Entry>)
    requires Left(m, D, D + {q}, g) && WellFormed(g) && q in g.nodes
    requires forall e :: e in pes <==> e in g.nodes[q].parents
    requires forall e :: e in pes ==> e.node in g.nodes
    requires h == CutStep(g, q, pes)
    ensures Left(m, D + {q}, D + {q}, h)
  {
    hide CutStep, NoDup, Bumps, Extends;
    CollapseEdges(m, g, D);
    CutStepCollapses(g, h, q, pes);
    CollapseTwice(m.nodes, D, {q});
    BumpsTrans(m, g, h);
  }

  /** Every other step only locks, releases, reads, or takes the next inode off the list. */
  lemma SweepMoves(m: Graph, n: Addr, D: set<Addr>, work: seq<Addr>, tail: seq<Addr>, s: State, t: Tid, ch: Choice,
                   s': State)
    returns (work': seq<Addr>)
    requires Next(s, t, ch, s') && s'.crash.None? && SweepAt(m, n, D, work, tail, s.g, s.threads[t])
    requires s.threads[t].want != []
             || !(s.threads[t].pc.RefLocked? || s.threads[t].pc.RefDelete? || s.threads[t].pc.RefCut?)
    requires !(s.threads[t].pc.Idle? && work == [])
    ensures SweepAt(m, n, D, work', tail, s'.g, s'.threads[t])
  {
    StepHasThread(s, t, ch, s');
    var th := s.threads[t];
    hide Next, SweepAt;
    work' := work;
    if th.want == [] && th.pc.Idle? {
      work' := work[1..];
      SweepNext(m, n, D, work, tail, s, t, ch, s');
    } else if th.want == [] && th.pc.RefSnap? {
      SweepSnaps(m, n, D, work, tail, s, t, ch, s');
    } else {
      SweepKinds(m, n, D, work, tail, s.g, th);
      SweepRest(m, n, D, work, tail, s, t, ch, s');
    }
  }

  lemma SweepNext(m: Graph, n: Addr, D: set<Addr>, work: seq<Addr>, tail: seq<Addr>, s: State, t: Tid, ch: Choice,
                  s': State)
    requires Next(s, t, ch, s') && s'.crash.None? && SweepAt(m, n, D, work, tail, s.g, s.threads[t])
    requires s.threads[t].want == [] && s.threads[t].pc.Idle? && work != []
    ensures t in s'.threads && SweepAt(m, n, D, work[1..], tail, s'.g, s'.threads[t])
  {
    hide Next, Left, Pending, Sound, Live;
    NextOnList(s, t, ch, s');
    assert (work + tail)[1..] == work[1..] + tail;
    assert [work[0]] + work[1..] == work;
  }

  lemma SweepSnaps(m: Graph, n: Addr, D: set<Addr>, work: seq<Addr>, tail: seq<Addr>, s: State, t: Tid, ch: Choice,
                   s': State)
    requires Next(s, t, ch, s') && s'.crash.None? && SweepAt(m, n, D, work, tail, s.g, s.threads[t])
    requires s.threads[t].want == [] && s.threads[t].pc.RefSnap?
    ensures t in s'.threads && SweepAt(m, n, D, work, tail, s'.g, s'.threads[t])
  {
    hide Next, Left, Pending, Sound;
    SnapEffect(s, t, ch, s');
  }

  lemma SweepRest(m: Graph, n: Addr, D: set<Addr>, work: seq<Addr>, tail: seq<Addr>, s: State, t: Tid, ch: Choice,
                  s': State)
    requires Next(s, t, ch, s') && s'.crash.None? && SweepAt(m, n, D, work, tail, s.g, s.threads[t])
    requires s.threads[t].want != [] || s.threads[t].pc.Unlock? || s.threads[t].pc.RefDrop?
    ensures t in s'.threads && SweepAt(m, n, D, work, tail, s'.g, s'.threads[t])
  {
    hide Next, Left, Pending, Sound, Live;
    SweepWaits(s, t, ch, s');
  }

  lemma SweepKinds(m: Graph, n: Addr, D: set<Addr>, work: seq<Addr>, tail: seq<Addr>, g: Graph, th: Thread)
    requires SweepAt(m, n, D, work, tail, g, th)
    ensures th.pc.Idle? || th.pc.Unlock? || th.pc.RefLocked? || th.pc.RefDrop? || th.pc.RefDelete? || th.pc.RefSnap?
            || th.pc.RefCut?
  {
  }

  lemma NextOnList(s: State, t: Tid, ch: Choice, s': State)
    requires Next(s, t, ch, s') && s.threads[t].want == [] && s.threads[t].pc.Idle? && s.threads[t].todo != []
    ensures t in s'.threads && s'.g == s.g
    ensures s'.threads[t].todo == s.threads[t].todo[1..] && s'.threads[t].pc == RefLocked(s.threads[t].todo[0], 0)
  {
    hide Sorted, NoDup, Group, BeginCall;
  }

  lemma SnapEffect(s: State, t: Tid, ch: Choice, s': State)
    requires Next(s, t, ch, s') && s.threads[t].want == [] && s.threads[t].pc.RefSnap?
    ensures var n := s.threads[t].pc.n;
            && t in s'.threads && s'.g == s.g && n in s.g.nodes && n in s.g.rev
               && s'.threads[t].todo == s.threads[t].todo
            && exists pes :: s'.threads[t].pc == Unlock(RefCut(n, s.g.rev[n], pes))
                             && multiset(pes) == multiset(s.g.nodes[n].parents)
  {
    hide AddSection, FreshSection, RefSection, CutSection, RmSection, MvSection, Sorted, NoDup;
    assert s.threads[t].pc.n in Group(s.threads[t].pc);
    assert s'.threads[t].pc == Unlock(RefCut(s.threads[t].pc.n, s.g.rev[s.threads[t].pc.n], ch.pes));
  }

  /** Waiting for a lock, releasing, or taking the bridge mutex. */
  lemma SweepWaits(s: State, t: Tid, ch: Choice, s': State)
    requires Next(s, t, ch, s') && s'.crash.None? && Sweeping(s.threads[t])
    requires s.threads[t].want != [] || s.threads[t].pc.Unlock? || s.threads[t].pc.RefDrop?
    ensures t in s'.threads && s'.g == s.g && s'.threads[t].todo == s.threads[t].todo
    ensures if s.threads[t].want == [] && s.threads[t].pc.RefDrop? then s'.threads[t].pc == RefDelete(s.threads[t].pc.n)
            else Target(s'.threads[t].pc) == Target(s.threads[t].pc)
  {
    hide AddSection, FreshSection, RefSection, CutSection, RmSection, MvSection, Sorted, WellFormed, Group;
  }

  lemma SweepStepAt(m: Graph, n: Addr, D: set<Addr>, work: seq<Addr>, tail: seq<Addr>, s: State, t: Tid, ch: Choice,
                    s': State)
    returns (D': set<Addr>, work': seq<Addr>)
    requires Next(s, t, ch, s') && s'.crash.None? && SweepAt(m, n, D, work, tail, s.g, s.threads[t])
    requires !(s.threads[t].pc.Idle? && work == [])
    ensures t in s'.threads && SweepAt(m, n, D', work', tail, s'.g, s'.threads[t])
  {
    StepHasThread(s, t, ch, s');
    var th := s.threads[t];
    hide Next, SweepAt;
    D', work' := D, work;
    if th.want == [] && th.pc.RefLocked? {
      SweepLook(m, n, D, work, tail, s, t, ch, s');
    } else if th.want == [] && th.pc.RefDelete? {
      SweepDelete(m, n, D, work, tail, s, t, ch, s');
    } else if th.want == [] && th.pc.RefCut? {
      D', work' := D + {th.pc.n}, NodesOf(th.pc.pes) + work;
      SweepCut(m, n, D, work, tail, s, t, ch, s');
    } else {
      work' := SweepMoves(m, n, D, work, tail, s, t, ch, s');
    }
  }

  lemma SweepStep(m: Graph, n: Addr, tail: seq<Addr>, s: State, t: Tid, ch: Choice, s': State)
    requires Next(s, t, ch, s') && s'.crash.None? && Sweeps(m, n, tail, s.g, s.threads[t])
    requires !(s.threads[t].pc.Idle? && s.threads[t].todo == tail)
    ensures t in s'.threads && Sweeps(m, n, tail, s'.g, s'.threads[t])
  {
    StepHasThread(s, t, ch, s');
    hide Next, SweepAt;
    var D, work :| SweepAt(m, n, D, work, tail, s.g, s.threads[t]);
    SweepTodo(m, n, D, work, tail, s.g, s.threads[t]);
    var E, rest := SweepStepAt(m, n, D, work, tail, s, t, ch, s');
  }

  lemma SweepTodo(m: Graph, n: Addr, D: set<Addr>, work: seq<Addr>, tail: seq<Addr>, g: Graph, th: Thread)
    requires SweepAt(m, n, D, work, tail, g, th)
    ensures work == [] ==> th.todo == tail
  {
    assert [] + tail == tail;
  }

  lemma NothingLeft(m: Graph)
    requires WellFormed(m) && Forward(m)
    ensures Left(m, {}, {}, m)
  {
    forall n | n in m.nodes ensures KidsOutside(m.nodes[n].kids, {}) == m.nodes[n].kids {}
    assert Collapse(m.nodes, {}) == m.nodes;
  }

  /** A thread that is about to drop a dead inode, or has it next on its list, starts a sweep. */
  lemma SweepStart(m: Graph, n: Addr, tail: seq<Addr>, th: Thread)
    requires WellFormed(m) && Forward(m) && n in m.nodes && !Live(m, n)
    requires (th.pc == RefDrop(n) && th.todo == tail) || (Target(th.pc) == Idle && th.todo == [n] + tail)
    ensures Sweeps(m, n, tail, m, th)
  {
    hide Left, WellFormed, Forward, Live;
    NothingLeft(m);
    assert [] + tail == tail && [n] + [] == [n];
    if th.pc == RefDrop(n) {
      assert SweepAt(m, n, {}, [], tail, m, th);
    } else {
      assert SweepAt(m, n, {}, [n], tail, m, th);
    }
  }

  /** A sweep that is back at its tail has removed exactly what removeRef removes. */
  lemma SweepEnd(m: Graph, n: Addr, tail: seq<Addr>, g: Graph, th: Thread) returns (D: set<Addr>)
    requires Sweeps(m, n, tail, g, th) && Target(th.pc) == Idle && th.todo == tail
    ensures Removal(m, n, g, D) && WellFormed(m) && Forward(m)
  {
    var work: seq<Addr>;
    D, work :| SweepAt(m, n, D, work, tail, g, th);
    assert work == [] by {
      assert |th.todo| == |work| + |tail|;
    }
    PendingDone(m, n, D);
  }

  lemma SweepTail(m: Graph, n: Addr, tail: seq<Addr>, g: Graph, th: Thread)
    requires Sweeps(m, n, tail, g, th)
    ensures |th.todo| >= |tail| && n in m.nodes && !Live(m, n)
  {
  }

  // ----- removeRef -----

  ghost predicate RefPhase(a: Graph, n: Addr, k: nat, g: Graph, th: Thread) {
    && a.rev.Keys == a.nodes.Keys && n in a.nodes
    && (|| (Subtracting(th, n, k) && g == a)
        || (&& k <= a.nodes[n].lookups
            && var m := DecStep(a, n, k);
               n in m.nodes && if Live(m, n) then Ending(th) && g == m else Sweeps(m, n, [], g, th)))
  }

  lemma RefSectionIs(s: State, t: Tid, ch: Choice, s': State, n: Addr, k: nat)
    requires Next(s, t, ch, s') && s'.crash.None? && Subtracting(s.threads[t], n, k)
    ensures t in s'.threads && WellFormed(s.g) && n in s.g.nodes
    ensures || (Subtracting(s'.threads[t], n, k) && s'.g == s.g)
            || (&& k <= s.g.nodes[n].lookups && s'.g == DecStep(s.g, n, k) && s'.threads[t].todo == []
                && n in s'.g.nodes && s'.threads[t].pc == if Live(s'.g, n) then Unlock(Idle) else RefDrop(n))
  {
    hide AddSection, FreshSection, CutSection, RmSection, MvSection, Sorted, NoDup;
    TargetKnown(s.g, s.threads[t].pc, n);
  }

  lemma TargetKnown(g: Graph, pc: Pc, n: Addr)
    requires PcKnown(g, pc) && (Target(pc).RefLocked? && Target(pc).n == n)
    ensures n in g.nodes
  {
    assert n in Group(Target(pc));
  }

  lemma DecForward(g: Graph, n: Addr, k: nat)
    requires WellFormed(g) && Forward(g) && n in g.nodes && k <= g.nodes[n].lookups
    ensures WellFormed(DecStep(g, n, k)) && Forward(DecStep(g, n, k)) && n in DecStep(g, n, k).nodes
  {
    DecLowers(g, n, k);
    LoweredEdges(g, DecStep(g, n, k), n);
  }

  lemma RefPhaseStep(a: Graph, n: Addr, k: nat, s: State, t: Tid, ch: Choice, s': State)
    requires WellFormed(a) && Forward(a) && Next(s, t, ch, s') && s'.crash.None?
    requires RefPhase(a, n, k, s.g, s.threads[t]) && !Finished(s.threads[t])
    ensures t in s'.threads && RefPhase(a, n, k, s'.g, s'.threads[t])
  {
    StepHasThread(s, t, ch, s');
    var th := s.threads[t];
    hide Next, WellFormed, Forward, DecStep, Sweeps, Live;
    if Subtracting(th, n, k) && s.g == a {
      RefSectionIs(s, t, ch, s', n, k);
      if !(Subtracting(s'.threads[t], n, k) && s'.g == a) {
        DecForward(a, n, k);
        if !Live(s'.g, n) {
          SweepStart(s'.g, n, [], s'.threads[t]);
        }
      }
    } else if Live(DecStep(a, n, k), n) {
      EndingStep(s, t, ch, s');
    } else {
      SweepStep(DecStep(a, n, k), n, [], s, t, ch, s');
    }
  }

  lemma RefPhaseEnd(a: Graph, n: Addr, k: nat, g: Graph, th: Thread)
    requires WellFormed(a) && RefPhase(a, n, k, g, th) && Finished(th)
    ensures n in a.nodes && k <= a.nodes[n].lookups && exists removed :: RemovedBy(a, n, k, g, removed)
  {
    hide DecStep, Sweeps;
    var m := DecStep(a, n, k);
    if Live(m, n) {
      assert RemovedBy(a, n, k, g, false);
    } else {
      var D := SweepEnd(m, n, [], g, th);
      assert RemovedBy(a, n, k, g, true);
    }
  }

  // ----- rmChild -----

  ghost predicate RmPhase(a: Graph, p: Addr, name: string, g: Graph, th: Thread) {
    && a.rev.Keys == a.nodes.Keys && p in a.nodes
    && (|| (&& Removing(th, p, name) && g == a
            && (Target(th.pc).RmCommit? ==> Target(th.pc).rev == a.rev[p] && HasKid(a, p, name, Target(th.pc).c)))
        || (name !in a.nodes[p].kids && Ending(th) && g == a)
        || (&& name in a.nodes[p].kids && a.nodes[p].kids[name] in a.nodes
            && var m := InodeGraph.Unlink(a, p, name, a.nodes[p].kids[name]);
               p in m.nodes && if Live(m, p) then Ending(th) && g == m else Sweeps(m, p, [], g, th)))
  }

  /** One step of an undisturbed rmChild before its commit is over. */
  lemma RmStepIs(s: State, t: Tid, ch: Choice, s': State, p: Addr, name: string)
    requires Next(s, t, ch, s') && s'.crash.None? && Removing(s.threads[t], p, name)
    requires Target(s.threads[t].pc).RmCommit? ==>
               p in s.g.rev && Target(s.threads[t].pc).rev == s.g.rev[p]
                 && HasKid(s.g, p, name, Target(s.threads[t].pc).c)
    ensures t in s'.threads && WellFormed(s.g) && p in s.g.nodes
    ensures || (&& Removing(s'.threads[t], p, name) && s'.g == s.g
                && (Target(s'.threads[t].pc).RmCommit? ==>
                      p in s.g.rev && Target(s'.threads[t].pc).rev == s.g.rev[p]
                      && HasKid(s.g, p, name, Target(s'.threads[t].pc).c)))
            || (name !in s.g.nodes[p].kids && Ending(s'.threads[t]) && s'.g == s.g)
            || (&& name in s.g.nodes[p].kids && s.g.nodes[p].kids[name] in s.g.nodes
                && s'.g == InodeGraph.Unlink(s.g, p, name, s.g.nodes[p].kids[name]) && p in s'.g.nodes
                && s'.threads[t].pc == Unlock(Idle) && s'.threads[t].todo == IfDead(s'.g, p))
  {
    hide AddSection, FreshSection, RefSection, CutSection, MvSection, Sorted, NoDup, InodeGraph.Unlink;
    var th := s.threads[t];
    RmTarget(s.g, th.pc, p, name);
    if th.want == [] && th.pc.RmCommit? {
      UnlinkRecords(s.g, p, name, th.pc.c);
      assert IfDead(InodeGraph.Unlink(s.g, p, name, th.pc.c), p) + [] ==
             IfDead(InodeGraph.Unlink(s.g, p, name, th.pc.c), p);
    }
  }

  lemma RmTarget(g: Graph, pc: Pc, p: Addr, name: string)
    requires PcKnown(g, pc)
    requires match Target(pc) case RmSnap(q, m) => q == p case RmCommit(q, m, _, _) => q == p case _ => false
    ensures p in g.nodes && (Target(pc).RmCommit? ==> Target(pc).c in g.nodes)
  {
    assert p in Group(Target(pc)) && (Target(pc).RmCommit? ==> Target(pc).c in Group(Target(pc)));
  }

  lemma UnlinkForward(g: Graph, p: Addr, name: string, c: Addr)
    requires WellFormed(g) && Forward(g) && p in g.nodes && c in g.nodes
    ensures WellFormed(InodeGraph.Unlink(g, p, name, c)) && Forward(InodeGraph.Unlink(g, p, name, c))
  {
    UnlinkEffect(g, InodeGraph.Unlink(g, p, name, c), p, name, c);
    UnlinkedForward(g, InodeGraph.Unlink(g, p, name, c), p, name, c);
  }

  lemma RmPhaseStep(a: Graph, p: Addr, name: string, s: State, t: Tid, ch: Choice, s': State)
    requires WellFormed(a) && Forward(a) && Next(s, t, ch, s') && s'.crash.None?
    requires RmPhase(a, p, name, s.g, s.threads[t]) && !Finished(s.threads[t])
    ensures t in s'.threads && RmPhase(a, p, name, s'.g, s'.threads[t])
  {
    StepHasThread(s, t, ch, s');
    var th := s.threads[t];
    hide Next, WellFormed, Forward, InodeGraph.Unlink, Sweeps, Live, HasKid;
    if Removing(th, p, name) && s.g == a
       && (Target(th.pc).RmCommit? ==> Target(th.pc).rev == a.rev[p] && HasKid(a, p, name, Target(th.pc).c)) {
      RmStepIs(s, t, ch, s', p, name);
      if s'.threads[t].pc == Unlock(Idle) && name in a.nodes[p].kids {
        UnlinkForward(a, p, name, a.nodes[p].kids[name]);
        RmSweeps(s'.g, p, s'.threads[t]);
      }
    } else if name !in a.nodes[p].kids {
      EndingStep(s, t, ch, s');
    } else if Live(InodeGraph.Unlink(a, p, name, a.nodes[p].kids[name]), p) {
      EndingStep(s, t, ch, s');
    } else {
      SweepStep(InodeGraph.Unlink(a, p, name, a.nodes[p].kids[name]), p, [], s, t, ch, s');
    }
  }

  lemma RmSweeps(m: Graph, p: Addr, th: Thread)
    requires WellFormed(m) && Forward(m) && p in m.nodes && th.pc == Unlock(Idle) && th.todo == IfDead(m, p)
    ensures if Live(m, p) then Ending(th) else Sweeps(m, p, [], m, th)
  {
    hide Sweeps;
    if !Live(m, p) {
      assert [p] + [] == [p];
      SweepStart(m, p, [], th);
    }
  }

  lemma RmPhaseEnd(a: Graph, p: Addr, name: string, g: Graph, th: Thread)
    requires WellFormed(a) && RmPhase(a, p, name, g, th) && Finished(th)
    ensures p in a.nodes && exists done :: RmChildRel(a, p, name, g, done)
  {
    hide InodeGraph.Unlink, Sweeps;
    if name !in a.nodes[p].kids {
      assert RmChildRel(a, p, name, g, false);
    } else {
      var m := InodeGraph.Unlink(a, p, name, a.nodes[p].kids[name]);
      UnlinkKeys(a, p, name, a.nodes[p].kids[name]);
      EndOfRemoval(m, p, g, th);
      assert HasKid(a, p, name, a.nodes[p].kids[name]);
      assert RmChildRel(a, p, name, g, true);
    }
  }

  lemma UnlinkKeys(g: Graph, p: Addr, name: string, c: Addr)
    requires g.rev.Keys == g.nodes.Keys && p in g.nodes && c in g.nodes
    ensures var m := InodeGraph.Unlink(g, p, name, c); m.rev.Keys == m.nodes.Keys == g.nodes.Keys
  {
  }

  lemma EndOfRemoval(m: Graph, n: Addr, g: Graph, th: Thread)
    requires m.rev.Keys == m.nodes.Keys && n in m.nodes && Finished(th)
    requires if Live(m, n) then g == m else Sweeps(m, n, [], g, th)
    ensures RemovedBy(m, n, 0, g, !Live(m, n))
  {
    hide Sweeps;
    assert DecStep(m, n, 0) == m;
    if !Live(m, n) {
      var D := SweepEnd(m, n, [], g, th);
    }
  }

  // ----- mvChild -----

  /** The end of a rename: whichever directories are dead in `m` are removed, the old one first. */
  ghost predicate TailPhase(m: Graph, p: Addr, np: Addr, g: Graph, th: Thread)
    requires p in m.nodes && np in m.nodes
  {
    if Live(m, np) then
      if Live(m, p) then Ending(th) && g == m else Sweeps(m, p, [], g, th)
    else if Live(m, p) then Sweeps(m, np, [], g, th)
    else Sweeps(m, p, [np], g, th) || exists x, D :: Removal(m, p, x, D) && Sweeps(x, np, [], g, th)
  }

  lemma TailStart(m: Graph, p: Addr, np: Addr, th: Thread)
    requires WellFormed(m) && Forward(m) && p in m.nodes && np in m.nodes
    requires th.pc == Unlock(Idle) && th.todo == IfDead(m, p) + IfDead(m, np)
    ensures TailPhase(m, p, np, m, th)
  {
    hide Sweeps;
    assert [p] + [] == [p] && [] + [np] == [np] && [np] + [] == [np];
    if !Live(m, p) {
      SweepStart(m, p, IfDead(m, np), th);
    } else if !Live(m, np) {
      SweepStart(m, np, [], th);
    }
  }

  lemma TailStep(m: Graph, p: Addr, np: Addr, s: State, t: Tid, ch: Choice, s': State)
    requires WellFormed(m) && Forward(m) && p in m.nodes && np in m.nodes
    requires Next(s, t, ch, s') && s'.crash.None? && TailPhase(m, p, np, s.g, s.threads[t]) && !Finished(s.threads[t])
    ensures t in s'.threads && TailPhase(m, p, np, s'.g, s'.threads[t])
  {
    StepHasThread(s, t, ch, s');
    var th := s.threads[t];
    StepWellFormed(s, t, ch, s');
    hide Next, WellFormed, Forward, Sweeps, Live, Removal;
    if Live(m, np) && Live(m, p) {
      EndingStep(s, t, ch, s');
    } else if Live(m, np) {
      SweepStep(m, p, [], s, t, ch, s');
    } else if Live(m, p) {
      SweepStep(m, np, [], s, t, ch, s');
    } else if Sweeps(m, p, [np], s.g, th) && !(th.pc.Idle? && th.todo == [np]) {
      SweepStep(m, p, [np], s, t, ch, s');
    } else {
      if Sweeps(m, p, [np], s.g, th) {
        var D := TailSwitch(m, p, np, s.g, th);
      }
      var x, D :| Removal(m, p, x, D) && Sweeps(x, np, [], s.g, th);
      SweepStep(x, np, [], s, t, ch, s');
    }
  }

  lemma StepWellFormed(s: State, t: Tid, ch: Choice, s': State)
    requires Next(s, t, ch, s')
    ensures WellFormed(s.g)
  {
  }

  /** The old directory is done with; the new one is next. */
  lemma TailSwitch(m: Graph, p: Addr, np: Addr, g: Graph, th: Thread) returns (D: set<Addr>)
    requires Sweeps(m, p, [np], g, th) && th.pc.Idle? && th.todo == [np]
    requires np in m.nodes && !Live(m, np) && WellFormed(g)
    ensures Removal(m, p, g, D) && Sweeps(g, np, [], g, th)
  {
    SweepTail(m, p, [np], g, th);
    D := SweepEnd(m, p, [np], g, th);
    hide Sweeps, Removal, WellFormed, Forward;
    RemovalForward(m, p, g, D);
    RemovalDead(m, p, g, D, np);
    assert [np] + [] == [np];
    SweepStart(g, np, [], th);
  }

  lemma RemovalForward(m: Graph, n: Addr, g: Graph, D: set<Addr>)
    requires Removal(m, n, g, D) && Forward(m)
    ensures Forward(g)
  {
    CollapseEdges(m, g, D);
  }

  lemma RemovalDead(m: Graph, n: Addr, g: Graph, D: set<Addr>, q: Addr)
    requires Removal(m, n, g, D) && q in m.nodes && !Live(m, q)
    ensures q in g.nodes && !Live(g, q)
  {
  }

  lemma TailEnd(m: Graph, p: Addr, np: Addr, g: Graph, th: Thread) returns (x: Graph)
    requires WellFormed(m) && p in m.nodes && np in m.nodes && TailPhase(m, p, np, g, th) && Finished(th)
    ensures MvTail(m, p, np, x, g)
  {
    hide Sweeps, RemovedBy, WellFormed, Removal;
    TailKeys(m, p);
    x := g;
    if Live(m, np) {
      EndOfRemoval(m, p, g, th);
      RemovedKeys(m, p, g, !Live(m, p));
    } else if Live(m, p) {
      x := m;
      EndOfRemoval(m, np, g, th);
    } else {
      if Sweeps(m, p, [np], g, th) {
        SweepTail(m, p, [np], g, th);
      }
      var D;
      x, D :| Removal(m, p, x, D) && Sweeps(x, np, [], g, th);
      RemovalDead(m, p, x, D, np);
      RemovalRemoves(m, p, x, D);
      EndOfRemoval(x, np, g, th);
    }
  }

  lemma RemovedKeys(m: Graph, n: Addr, h: Graph, removed: bool)
    requires m.rev.Keys == m.nodes.Keys && n in m.nodes && RemovedBy(m, n, 0, h, removed)
    ensures h.rev.Keys == h.nodes.Keys == m.nodes.Keys
  {
    assert DecStep(m, n, 0) == m;
  }

  lemma TailKeys(m: Graph, p: Addr)
    requires WellFormed(m) && p in m.nodes
    ensures m.rev.Keys == m.nodes.Keys && (Live(m, p) ==> RemovedBy(m, p, 0, m, false))
  {
  }

  lemma RemovalRemoves(m: Graph, p: Addr, x: Graph, D: set<Addr>)
    requires m.rev.Keys == m.nodes.Keys && p in m.nodes && !Live(m, p) && Removal(m, p, x, D)
    ensures x.rev.Keys == x.nodes.Keys && RemovedBy(m, p, 0, x, true)
  {
    assert DecStep(m, p, 0) == m;
  }

  ghost predicate MvPhase(a: Graph, p: Addr, name: string, np: Addr, nname: string, overwrite: bool, g: Graph,
                          th: Thread)
  {
    && a.rev.Keys == a.nodes.Keys && p in a.nodes && np in a.nodes
    && var child, dest := Get(a.nodes[p].kids, name), Get(a.nodes[np].kids, nname);
       (|| (&& Moving(th, p, name, np, nname, overwrite) && g == a
            && (Target(th.pc).MvCommit? ==>
                  Target(th.pc) == MvCommit(p, name, np, nname, overwrite, a.rev[p], a.rev[np], child, dest)))
        || (dest.Some? && !overwrite && Ending(th) && g == a)
        || (&& (child.Some? ==> child.value in a.nodes) && (dest.Some? ==> dest.value in a.nodes && overwrite)
            && var m := MvStep(a, p, name, np, nname, child, dest);
               p in m.nodes && np in m.nodes && WellFormed(m) && Forward(m) && TailPhase(m, p, np, g, th)))
  }

  /** One step of an undisturbed mvChild before its commit is over. */
  lemma MvStepIs(s: State, t: Tid, ch: Choice, s': State, p: Addr, name: string, np: Addr, nname: string,
                 overwrite: bool)
    requires Next(s, t, ch, s') && s'.crash.None? && Moving(s.threads[t], p, name, np, nname, overwrite)
    requires Target(s.threads[t].pc).MvCommit? ==>
               && p in s.g.nodes && np in s.g.nodes && p in s.g.rev && np in s.g.rev
               && Target(s.threads[t].pc) ==
                  MvCommit(p, name, np, nname, overwrite, s.g.rev[p], s.g.rev[np],
                           Get(s.g.nodes[p].kids, name), Get(s.g.nodes[np].kids, nname))
    ensures t in s'.threads && WellFormed(s.g) && p in s.g.nodes && np in s.g.nodes
    ensures var child, dest := Get(s.g.nodes[p].kids, name), Get(s.g.nodes[np].kids, nname);
            || (&& Moving(s'.threads[t], p, name, np, nname, overwrite) && s'.g == s.g
                && (Target(s'.threads[t].pc).MvCommit? ==>
                      && p in s.g.rev && np in s.g.rev
                      && Target(s'.threads[t].pc) ==
                         MvCommit(p, name, np, nname, overwrite, s.g.rev[p], s.g.rev[np], child, dest)))
            || (dest.Some? && !overwrite && Ending(s'.threads[t]) && s'.g == s.g)
            || (&& (child.Some? ==> child.value in s.g.nodes && s.g.nodes[np].dir)
                && (dest.Some? ==> dest.value in s.g.nodes && overwrite)
                && s'.g == MvStep(s.g, p, name, np, nname, child, dest) && p in s'.g.nodes && np in s'.g.nodes
                && s'.threads[t].pc == Unlock(Idle) && s'.threads[t].todo == IfDead(s'.g, p) + IfDead(s'.g, np))
  {
    hide Next;
    StepHasThread(s, t, ch, s');
    StepWellFormed(s, t, ch, s');
    StepTarget(s, t, ch, s', p, name, np, nname, overwrite);
    if s.threads[t].want == [] && s.threads[t].pc.MvCommit? {
      MvCommitStep(s, t, ch, s', p, name, np, nname, overwrite);
    } else {
      MvReadStep(s, t, ch, s', p, name, np, nname, overwrite);
    }
  }

  lemma StepTarget(s: State, t: Tid, ch: Choice, s': State, p: Addr, name: string, np: Addr, nname: string,
                   overwrite: bool)
    requires Next(s, t, ch, s') && Moving(s.threads[t], p, name, np, nname, overwrite)
    ensures p in s.g.nodes && np in s.g.nodes
  {
    hide Step;
    MvTarget(s.g, s.threads[t].pc);
  }

  lemma MvReadStep(s: State, t: Tid, ch: Choice, s': State, p: Addr, name: string, np: Addr, nname: string,
                   overwrite: bool)
    requires Next(s, t, ch, s') && s'.crash.None? && Moving(s.threads[t], p, name, np, nname, overwrite)
    requires p in s.g.nodes && np in s.g.nodes && (s.threads[t].want != [] || !s.threads[t].pc.MvCommit?)
             && t in s'.threads
    ensures s'.g == s.g && s.g.rev.Keys == s.g.nodes.Keys
    ensures var child, dest := Get(s.g.nodes[p].kids, name), Get(s.g.nodes[np].kids, nname);
            if s.threads[t].want == [] && s.threads[t].pc.MvSnap? then
              if dest.Some? && !overwrite then Ending(s'.threads[t])
              else
                && Moving(s'.threads[t], p, name, np, nname, overwrite)
                && Target(s'.threads[t].pc) ==
                   MvCommit(p, name, np, nname, overwrite, s.g.rev[p], s.g.rev[np], child, dest)
            else
              Moving(s'.threads[t], p, name, np, nname, overwrite)
                && Target(s'.threads[t].pc) == Target(s.threads[t].pc)
  {
    StepKeys(s, t, ch, s');
    if s.threads[t].want == [] && s.threads[t].pc.MvSnap? {
      MvSnapStep(s, t, ch, s');
      hide Next;
      DoneEnds(s.threads[t]);
    } else {
      hide AddSection, FreshSection, RefSection, CutSection, RmSection, MvSection, Sorted, WellFormed, Group;
    }
  }

  lemma MvSnapStep(s: State, t: Tid, ch: Choice, s': State)
    requires Next(s, t, ch, s') && s.threads[t].want == [] && s.threads[t].pc.MvSnap?
    ensures var MvSnap(p, name, np, nname, overwrite) := s.threads[t].pc;
            && p in s.g.nodes && np in s.g.nodes && p in s.g.rev && np in s.g.rev && t in s'.threads && s'.g == s.g
            && var child, dest := Get(s.g.nodes[p].kids, name), Get(s.g.nodes[np].kids, nname);
               s'.threads[t] ==
               if dest.Some? && !overwrite then Done(s.threads[t])
               else Leave(s.threads[t], MvCommit(p, name, np, nname, overwrite, s.g.rev[p], s.g.rev[np], child, dest))
  {
    hide AddSection, FreshSection, RefSection, CutSection, RmSection, MvSection, Sorted, NoDup;
    assert s.threads[t].pc.p in Group(s.threads[t].pc) && s.threads[t].pc.np in Group(s.threads[t].pc);
  }

  lemma DoneEnds(th: Thread)
    requires th.todo == []
    ensures Ending(Done(th))
  {
  }

  lemma MvCommitStep(s: State, t: Tid, ch: Choice, s': State, p: Addr, name: string, np: Addr, nname: string,
                     overwrite: bool)
    requires Next(s, t, ch, s') && s'.crash.None? && Moving(s.threads[t], p, name, np, nname, overwrite)
    requires s.threads[t].want == [] && s.threads[t].pc.MvCommit? && t in s'.threads
    requires p in s.g.rev && np in s.g.rev && s.threads[t].pc.rev == s.g.rev[p] && s.threads[t].pc.nRev == s.g.rev[np]
    ensures var pc := s.threads[t].pc;
            && p in s.g.nodes && np in s.g.nodes && s.g.rev.Keys == s.g.nodes.Keys
            && (pc.child.Some? ==> pc.child.value in s.g.nodes && s.g.nodes[np].dir)
            && (pc.dest.Some? ==> pc.dest.value in s.g.nodes && overwrite)
            && s'.g == MvStep(s.g, p, name, np, nname, pc.child, pc.dest) && p in s'.g.nodes && np in s'.g.nodes
            && s'.threads[t].pc == Unlock(Idle) && s'.threads[t].todo == IfDead(s'.g, p) + IfDead(s'.g, np)
  {
    hide AddSection, FreshSection, RefSection, CutSection, RmSection, Sorted, NoDup, MvStep;
    var th := s.threads[t];
    MvTarget(s.g, th.pc);
    MvKeys(s.g, p, name, np, nname, th.pc.child, th.pc.dest);
    var m := MvStep(s.g, p, name, np, nname, th.pc.child, th.pc.dest);
    assert IfDead(m, p) + IfDead(m, np) + [] == IfDead(m, p) + IfDead(m, np);
  }

  lemma MvTarget(g: Graph, pc: Pc)
    requires PcKnown(g, pc) && (Target(pc).MvSnap? || Target(pc).MvCommit?)
    ensures Target(pc).p in g.nodes && Target(pc).np in g.nodes
    ensures Target(pc).MvCommit? ==>
              (Target(pc).child.Some? ==> Target(pc).child.value in g.nodes)
                && (Target(pc).dest.Some? ==> Target(pc).dest.value in g.nodes)
  {
    assert Target(pc).p in Group(Target(pc)) && Target(pc).np in Group(Target(pc));
    if Target(pc).MvCommit? {
      assert Target(pc).child.Some? ==> Target(pc).child.value in Group(Target(pc));
      assert Target(pc).dest.Some? ==> Target(pc).dest.value in Group(Target(pc));
    }
  }

  lemma MvPhaseStep(a: Graph, p: Addr, name: string, np: Addr, nname: string, overwrite: bool,
                    s: State, t: Tid, ch: Choice, s': State)
    requires WellFormed(a) && Forward(a) && Next(s, t, ch, s') && s'.crash.None?
    requires MvPhase(a, p, name, np, nname, overwrite, s.g, s.threads[t]) && !Finished(s.threads[t])
    ensures t in s'.threads && MvPhase(a, p, name, np, nname, overwrite, s'.g, s'.threads[t])
  {
    StepHasThread(s, t, ch, s');
    var th := s.threads[t];
    hide Next, WellFormed, Forward, MvStep, TailPhase;
    var child, dest := Get(a.nodes[p].kids, name), Get(a.nodes[np].kids, nname);
    if Moving(th, p, name, np, nname, overwrite) && s.g == a
       && (Target(th.pc).MvCommit? ==>
             Target(th.pc) == MvCommit(p, name, np, nname, overwrite, a.rev[p], a.rev[np], child, dest)) {
      MvStepIs(s, t, ch, s', p, name, np, nname, overwrite);
      if s'.threads[t].pc == Unlock(Idle) && !(dest.Some? && !overwrite) {
        MvKeepsForm(a, s'.g, p, name, np, nname, child, dest);
        TailStart(s'.g, p, np, s'.threads[t]);
      }
    } else if dest.Some? && !overwrite {
      EndingStep(s, t, ch, s');
    } else {
      TailStep(MvStep(a, p, name, np, nname, child, dest), p, np, s, t, ch, s');
    }
  }

  lemma MvPhaseEnd(a: Graph, p: Addr, name: string, np: Addr, nname: string, overwrite: bool, g: Graph, th: Thread)
    requires WellFormed(a) && MvPhase(a, p, name, np, nname, overwrite, g, th) && Finished(th)
    ensures p in a.nodes && np in a.nodes && exists done :: MvChildRel(a, p, name, np, nname, overwrite, g, done)
  {
    hide MvStep, TailPhase, MvTail;
    var child, dest := Get(a.nodes[p].kids, name), Get(a.nodes[np].kids, nname);
    if dest.Some? && !overwrite {
      assert MvChildRel(a, p, name, np, nname, overwrite, g, false);
    } else {
      var x := TailEnd(MvStep(a, p, name, np, nname, child, dest), p, np, g, th);
      assert child.Some? ==> HasKid(a, p, name, child.value);
      assert dest.Some? ==> HasKid(a, np, nname, dest.value);
      assert MvChildRel(a, p, name, np, nname, overwrite, g, true);
    }
  }

  // ----- whole calls -----

  /** A call, all of whose steps are the caller's. */
  ghost predicate Undisturbed(ss: seq<State>, ts: seq<(Tid, Choice)>, t: Tid, call: Call) {
    && Called(ss, ts, t, call) && Forward(ss[0].g) && t in ss[|ts|].threads && Finished(ss[|ts|].threads[t])
    && forall i :: 0 <= i < |ts| ==> ts[i].0 == t
  }

  lemma {:induction false} UndisturbedIs(ss: seq<State>, ts: seq<(Tid, Choice)>, t: Tid, call: Call)
    requires Undisturbed(ss, ts, t, call)
    ensures Called(ss, ts, t, call) && |ss| == |ts| + 1 && ts != []
    ensures WellFormed(ss[0].g) && Forward(ss[0].g) && t in ss[|ts|].threads && Finished(ss[|ts|].threads[t])
    ensures forall i :: 0 <= i < |ts| ==> ts[i].0 == t
  {
  }

  lemma {:induction false} RefPhases(ss: seq<State>, ts: seq<(Tid, Choice)>, t: Tid, n: Addr, k: nat, i: nat)
    requires Undisturbed(ss, ts, t, RemoveRef(n, k)) && 1 <= i <= |ts|
    ensures t in ss[i].threads && RefPhase(ss[0].g, n, k, ss[i].g, ss[i].threads[t])
  {
    var call := RemoveRef(n, k);
    UndisturbedIs(ss, ts, t, call);
    hide Undisturbed, Called, Inv, Next, WellFormed, Forward, Sweeps;
    CalledAt(ss, ts, t, call, i - 1);
    if i == 1 {
      Begins(ss, ts, t, call);
      SubtractingKnown(ss[1], t, n, k, ss, ts, call);
    } else {
      RefPhases(ss, ts, t, n, k, i - 1);
      RefPhaseStep(ss[0].g, n, k, ss[i - 1], t, ts[i - 1].1, ss[i]);
    }
  }

  lemma {:induction false} SubtractingKnown(s: State, t: Tid, n: Addr, k: nat, ss: seq<State>, ts: seq<(Tid, Choice)>,
                                            call: Call)
    requires Called(ss, ts, t, call) && s == ss[1] && t in s.threads && Subtracting(s.threads[t], n, k)
    ensures n in s.g.nodes && s.g.rev.Keys == s.g.nodes.Keys
  {
    CalledKeeps(ss, ts, t, call, 1);
    assert ThreadOk(s.g, s.dropped, s.threads[t]);
    TargetKnown(s.g, s.threads[t].pc, n);
  }

  /** An undisturbed removeRef, with whatever order of parents, is removeRef. */
  lemma {:induction false} RemoveRefRefines(ss: seq<State>, ts: seq<(Tid, Choice)>, t: Tid, n: Addr, k: nat)
    requires Undisturbed(ss, ts, t, RemoveRef(n, k))
    ensures var g := ss[0].g;
            && WellFormed(g) && n in g.nodes && k <= g.nodes[n].lookups
            && exists removed :: RemovedBy(g, n, k, ss[|ts|].g, removed)
  {
    UndisturbedIs(ss, ts, t, RemoveRef(n, k));
    hide Undisturbed, Called, WellFormed, Forward, RefPhase, RemovedBy;
    RefPhases(ss, ts, t, n, k, |ts|);
    RefPhaseEnd(ss[0].g, n, k, ss[|ts|].g, ss[|ts|].threads[t]);
  }

  lemma {:induction false} RmPhases(ss: seq<State>, ts: seq<(Tid, Choice)>, t: Tid, p: Addr, name: string, i: nat)
    requires Undisturbed(ss, ts, t, RmChild(p, name)) && 1 <= i <= |ts|
    ensures t in ss[i].threads && RmPhase(ss[0].g, p, name, ss[i].g, ss[i].threads[t])
  {
    var call := RmChild(p, name);
    UndisturbedIs(ss, ts, t, call);
    hide Undisturbed, Called, Inv, Next, WellFormed, Forward, Sweeps, InodeGraph.Unlink;
    CalledAt(ss, ts, t, call, i - 1);
    if i == 1 {
      Begins(ss, ts, t, call);
      BeginsReading(ss, ts, t, call);
    } else {
      RmPhases(ss, ts, t, p, name, i - 1);
      RmPhaseStep(ss[0].g, p, name, ss[i - 1], t, ts[i - 1].1, ss[i]);
    }
  }

  /** rmChild and mvChild begin with reading. */
  lemma {:induction false} BeginsReading(ss: seq<State>, ts: seq<(Tid, Choice)>, t: Tid, call: Call)
    requires Called(ss, ts, t, call) && (call.RmChild? || call.MvChild?)
    ensures ss[0].g.rev.Keys == ss[0].g.nodes.Keys && call.p in ss[0].g.nodes
            && (call.MvChild? ==> call.np in ss[0].g.nodes)
    ensures t in ss[1].threads && (Target(ss[1].threads[t].pc).RmSnap? || Target(ss[1].threads[t].pc).MvSnap?)
  {
    CalledAt(ss, ts, t, call, 0);
    assert ts[0].1 == Begin(call) && Finished(ss[0].threads[t]);
    hide Called, Inv, Next, BeginCall;
    BeginSection(ss[0], t, call, ss[1]);
    StepKeys(ss[0], t, ts[0].1, ss[1]);
    BeginReads(ss[0], ss[0].threads[t], call);
  }

  lemma StepKeys(s: State, t: Tid, ch: Choice, s': State)
    requires Next(s, t, ch, s')
    ensures s.g.rev.Keys == s.g.nodes.Keys
  {
  }

  lemma BeginReads(s: State, th: Thread, call: Call)
    requires (call.RmChild? || call.MvChild?) && BeginCall(s, th, call).Some?
             && BeginCall(s, th, call).value.crash.None?
    ensures call.p in s.g.nodes && (call.MvChild? ==> call.np in s.g.nodes)
    ensures var pc := BeginCall(s, th, call).value.th.pc; pc.RmSnap? || pc.MvSnap?
  {
    hide Sorted, Group;
  }

  /** An undisturbed rmChild is rmChild. */
  lemma {:induction false} RmChildRefines(ss: seq<State>, ts: seq<(Tid, Choice)>, t: Tid, p: Addr, name: string)
    requires Undisturbed(ss, ts, t, RmChild(p, name))
    ensures var g := ss[0].g; WellFormed(g) && p in g.nodes && exists done :: RmChildRel(g, p, name, ss[|ts|].g, done)
  {
    UndisturbedIs(ss, ts, t, RmChild(p, name));
    hide Undisturbed, Called, WellFormed, Forward, RmPhase, RmChildRel;
    RmPhases(ss, ts, t, p, name, |ts|);
    RmPhaseEnd(ss[0].g, p, name, ss[|ts|].g, ss[|ts|].threads[t]);
  }

  lemma {:induction false} MvPhases(ss: seq<State>, ts: seq<(Tid, Choice)>, t: Tid, p: Addr, name: string,
                                    np: Addr, nname: string, overwrite: bool, i: nat)
    requires Undisturbed(ss, ts, t, MvChild(p, name, np, nname, overwrite)) && 1 <= i <= |ts|
    ensures t in ss[i].threads && MvPhase(ss[0].g, p, name, np, nname, overwrite, ss[i].g, ss[i].threads[t])
  {
    var call := MvChild(p, name, np, nname, overwrite);
    UndisturbedIs(ss, ts, t, call);
    hide Undisturbed, Called, Inv, Next, WellFormed, Forward, TailPhase, MvStep;
    CalledAt(ss, ts, t, call, i - 1);
    if i == 1 {
      Begins(ss, ts, t, call);
      BeginsReading(ss, ts, t, call);
    } else {
      MvPhases(ss, ts, t, p, name, np, nname, overwrite, i - 1);
      MvPhaseStep(ss[0].g, p, name, np, nname, overwrite, ss[i - 1], t, ts[i - 1].1, ss[i]);
    }
  }

  /** An undisturbed mvChild is mvChild. */
  lemma {:induction false} MvChildRefines(ss: seq<State>, ts: seq<(Tid, Choice)>, t: Tid, p: Addr, name: string,
                                          np: Addr, nname: string,
                       overwrite: bool)
    requires Undisturbed(ss, ts, t, MvChild(p, name, np, nname, overwrite))
    ensures var g := ss[0].g;
            && WellFormed(g) && p in g.nodes && np in g.nodes
            && exists done :: MvChildRel(g, p, name, np, nname, overwrite, ss[|ts|].g, done)
  {
    UndisturbedIs(ss, ts, t, MvChild(p, name, np, nname, overwrite));
    hide Undisturbed, Called, WellFormed, Forward, MvPhase, MvChildRel;
    MvPhases(ss, ts, t, p, name, np, nname, overwrite, |ts|);
    MvPhaseEnd(ss[0].g, p, name, np, nname, overwrite, ss[|ts|].g, ss[|ts|].threads[t]);
  }

  /** An undisturbed addChild adds its one entry and nothing else. */
  lemma {:induction false} AddChildRefines(ss: seq<State>, ts: seq<(Tid, Choice)>, t: Tid, p: Addr, name: string,
                                           ino: Ino, dir: bool)
    requires Undisturbed(ss, ts, t, AddChild(p, name, ino, dir))
    ensures Added(ss[0].g, ss[|ts|].g, p, name, ino)
  {
    UndisturbedIs(ss, ts, t, AddChild(p, name, ino, dir));
    hide Undisturbed, Called, Added;
    AddChildTakesEffect(ss, ts, t, p, name, ino, dir);
    var k :| AddsOnlyAt(ss, ts, t, k, p, name, ino);
    OnlyChange(ss, ts, t, k, p, name, ino);
  }

  lemma {:induction false} OnlyChange(ss: seq<State>, ts: seq<(Tid, Choice)>, t: Tid, k: int, p: Addr, name: string,
                                      ino: Ino)
    requires AddsOnlyAt(ss, ts, t, k, p, name, ino) && forall i :: 0 <= i < |ts| ==> ts[i].0 == t
    ensures Added(ss[0].g, ss[|ts|].g, p, name, ino)
  {
    hide Added;
    Unchanged(ss, 0, k);
    Unchanged(ss, k + 1, |ts|);
  }

  lemma {:induction false} Unchanged(ss: seq<State>, i: nat, j: nat)
    requires i <= j < |ss| && forall m :: i <= m < j ==> ss[m + 1].g == ss[m].g
    ensures ss[j].g == ss[i].g
    decreases j - i
  {
    if i < j {
      Unchanged(ss, i + 1, j);
    }
  }
}
