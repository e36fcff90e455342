/**
  What a snapshot is good for: while fewer than 2^32 modifications lie between a
  snapshot and its check, the section that follows is atomic with the reading.  And
  which cuts keep the law that every child edge has its parent entry.
 */
module ProtocolSnapshots {
  import opened Types
  import opened Recency
  import opened InodeGraph
  import opened Cascade
  import opened Coherence
  import opened LockOrder
  import opened Protocol
  import opened ProtocolSafety

  /** The snapshot is not so old that its 32-bit revision could have come round again. */
  ghost predicate Recent(g: Graph, pc: Pc) {
    match pc
    case RefCut(n, rev, _) => n in g.rev && g.rev[n] < rev + WORD
    case RmCommit(p, _, rev, _) => p in g.rev && g.rev[p] < rev + WORD
    case MvCommit(p, _, np, _, _, rev, nRev, _, _) =>
      p in g.rev && np in g.rev && g.rev[p] < rev + WORD && g.rev[np] < nRev + WORD
    case _ => true
  }

  lemma WrapMatches(rev: nat, now: nat)
    requires rev <= now < rev + WORD
    ensures Wrap(now) == Wrap(rev) <==> now == rev
  {
  }

  // ----- commits are atomic -----

  /**
    rmChild: when the revision check passes, the slot still holds the child that was
    read, so the section is the removal of whatever the slot holds at that moment.
   */
  lemma RmCommitIsAtomic(s: State, t: Tid, ch: Choice, s': State)
    requires Inv(s) && t in s.threads && Recent(s.g, s.threads[t].pc) && Next(s, t, ch, s') && s'.crash.None?
    requires s.threads[t].pc.RmCommit? && s.threads[t].want == []
    ensures var RmCommit(p, name, rev, c) := s.threads[t].pc;
            && p in s.g.nodes && p in s.g.rev
            && if Wrap(s.g.rev[p]) == Wrap(rev) then
                 && HasKid(s.g, p, name, c) && c in s.g.nodes && s.g.rev.Keys == s.g.nodes.Keys
                 && s'.g == InodeGraph.Unlink(s.g, p, name, s.g.nodes[p].kids[name])
               else s'.g == s.g && s'.threads[t].pc == Unlock(RmSnap(p, name))
  {
    var e := Step(s, t, ch).value;
    Unpack(s, t, ch, e);
    var RmCommit(p, name, rev, c) := s.threads[t].pc;
    WrapMatches(rev, s.g.rev[p]);
  }

  /** mvChild: both children read are still in their slots when the check passes. */
  lemma MvCommitIsAtomic(s: State, t: Tid, ch: Choice, s': State)
    requires Inv(s) && t in s.threads && Recent(s.g, s.threads[t].pc) && Next(s, t, ch, s') && s'.crash.None?
    requires s.threads[t].pc.MvCommit? && s.threads[t].want == []
    ensures var MvCommit(p, name, np, nname, overwrite, rev, nRev, child, dest) := s.threads[t].pc;
            && p in s.g.nodes && np in s.g.nodes && p in s.g.rev && np in s.g.rev && s.g.rev.Keys == s.g.nodes.Keys
            && (child.Some? ==> child.value in s.g.nodes) && (dest.Some? ==> dest.value in s.g.nodes)
            && if Wrap(s.g.rev[p]) == Wrap(rev) && Wrap(s.g.rev[np]) == Wrap(nRev) then
                 && child == Get(s.g.nodes[p].kids, name) && dest == Get(s.g.nodes[np].kids, nname)
                 && s'.g == MvStep(s.g, p, name, np, nname, Get(s.g.nodes[p].kids, name),
                                   Get(s.g.nodes[np].kids, nname))
               else s'.g == s.g && s'.threads[t].pc == Unlock(MvSnap(p, name, np, nname, overwrite))
  {
    hide MvStep;
    var e := Step(s, t, ch).value;
    Unpack(s, t, ch, e);
    var MvCommit(p, name, np, nname, overwrite, rev, nRev, child, dest) := s.threads[t].pc;
    WrapMatches(rev, s.g.rev[p]);
    WrapMatches(nRev, s.g.rev[np]);
  }

  /** removeRef: the parents read are still all of them, so the inode is cut out completely. */
  lemma RefCutIsAtomic(s: State, t: Tid, ch: Choice, s': State)
    requires Inv(s) && Forward(s.g) && t in s.threads && Recent(s.g, s.threads[t].pc) && Next(s, t, ch, s')
    requires s.threads[t].pc.RefCut? && s.threads[t].want == []
    ensures var RefCut(n, rev, pes) := s.threads[t].pc;
            && s'.crash.None?
            && n in s.g.nodes && n in s.g.rev
            && if Wrap(s.g.rev[n]) == Wrap(rev) then s'.g.nodes == Collapse(s.g.nodes, {n})
               else s'.g == s.g && s'.threads[t].pc == Unlock(RefSnap(n))
  {
    hide CutStep;
    var RefCut(n, rev, pes) := s.threads[t].pc;
    NoChangedPanic(s, t, ch, s');
    var e := Step(s, t, ch).value;
    Unpack(s, t, ch, e);
    WrapMatches(rev, s.g.rev[n]);
    if rev == s.g.rev[n] {
      SameElements(pes, s.g.nodes[n].parents);
      CutStepCollapses(s.g, s'.g, n, pes);
    }
  }

  // ----- every child edge has its entry -----

  /** If the section of removeRef at this counter cuts, it cuts every edge to its inode. */
  ghost predicate CutsAll(g: Graph, pc: Pc) {
    match pc
    case RefCut(n, rev, pes) =>
      n in g.rev && Wrap(g.rev[n]) == Wrap(rev) ==> forall d, m :: HasKid(g, d, m, n) ==> Entry(m, d) in pes
    case _ => true
  }

  lemma LinkedForward(g: Graph, h: Graph, p: Addr, name: string, c: Addr)
    requires Forward(g) && Linked(g, h, p, name, c)
    ensures Forward(h)
  {
  }

  /** A cut keeps the law exactly when no edge to the inode is left. */
  lemma CutForwardExact(g: Graph, n: Addr, pes: seq<Entry>)
    requires g.rev.Keys == g.nodes.Keys && Forward(g) && n in g.nodes && forall x :: x in pes ==> x.node in g.nodes
    ensures Forward(CutStep(g, n, pes)) <==> forall d, m :: HasKid(g, d, m, n) ==> Entry(m, d) in pes
  {
    hide CutEdges;
    var m := CutEdges(g, n, pes);
    CutEdgesEffect(g, n, pes);
    CutEdgeSets(g, m, CutStep(g, n, pes), n, pes);
  }

  lemma SameEdgesForward(g: Graph, h: Graph)
    requires Forward(g)
    requires forall d, x, c :: HasKid(h, d, x, c) <==> HasKid(g, d, x, c)
    requires forall d, x, c :: HasEntry(h, c, x, d) <==> HasEntry(g, c, x, d)
    ensures Forward(h)
  {
  }

  lemma CommitForward(s: State, th: Thread, ch: Choice, e: Effect)
    requires WellFormed(s.g) && PcKnown(s.g, th.pc) && Forward(s.g)
             && (th.pc.RefCut? || th.pc.RmCommit? || th.pc.MvCommit?)
    requires Section(s, th, ch) == Some(e) && e.crash.None?
    ensures Forward(e.g) <==> CutsAll(s.g, th.pc)
  {
    hide Forward, NoDup, CutStep, MvStep, InodeGraph.Unlink, HasKid, HasEntry;
    match th.pc
    case RefCut(n, _, pes) =>
      assert n in Group(th.pc);
      forall x | x in pes ensures x.node in s.g.nodes {
        assert x.node in EntryNodes(pes);
      }
      CutForwardExact(s.g, n, pes);
    case RmCommit(p, name, _, c) =>
      assert p in Group(th.pc) && c in Group(th.pc);
      UnlinkEffect(s.g, InodeGraph.Unlink(s.g, p, name, c), p, name, c);
      UnlinkedForward(s.g, InodeGraph.Unlink(s.g, p, name, c), p, name, c);
    case MvCommit(p, name, np, nname, _, _, _, child, dest) =>
      assert p in Group(th.pc) && np in Group(th.pc);
      assert (child.Some? ==> child.value in Group(th.pc)) && (dest.Some? ==> dest.value in Group(th.pc));
      if e.g != s.g {
        MvKeepsForm(s.g, e.g, p, name, np, nname, child, dest);
      }
  }

  /** Every section keeps the law, but for a cut that misses an edge. */
  lemma SectionForward(s: State, th: Thread, ch: Choice, e: Effect)
    requires WellFormed(s.g) && PcKnown(s.g, th.pc) && Forward(s.g)
    requires Section(s, th, ch) == Some(e) && e.crash.None?
    ensures Forward(e.g) <==> CutsAll(s.g, th.pc)
  {
    hide Forward, NoDup, AddStep, DecStep, CutSection, RmSection, MvSection, Sorted, HasKid, HasEntry;
    match th.pc
    case AddRead(p, name, ino, dir, _) =>
      assert p in Group(th.pc);
      if e.g != s.g {
        AddStepForward(s.g, p, name, ino, dir, 0);
      }
    case AddFresh(p, name, ino, dir, c) => AddStepForward(s.g, p, name, ino, dir, c);
    case RefLocked(n, k) =>
      assert n in Group(th.pc);
      DecLowers(s.g, n, k);
      LoweredEdges(s.g, e.g, n);
      SameEdgesForward(s.g, e.g);
    case RefDelete(n) =>
      assert n in Group(th.pc);
      UnregisterEdges(s.g, s.g.nodes[n].ino);
      SameEdgesForward(s.g, e.g);
    case RefCut(_, _, _) => CommitForward(s, th, ch, e);
    case RmCommit(_, _, _, _) => CommitForward(s, th, ch, e);
    case MvCommit(_, _, _, _, _, _, _, _, _) => CommitForward(s, th, ch, e);
    case _ =>
  }

  lemma AddStepForward(g: Graph, p: Addr, name: string, ino: Ino, dir: bool, spare: Addr)
    requires WellFormed(g) && Forward(g) && Spare(g, ino, spare) && p in g.nodes && g.nodes[p].dir
    ensures Forward(AddStep(g, p, name, ino, dir, spare))
  {
    AddEffect(g, AddStep(g, p, name, ino, dir, spare), p, name, ino, dir, spare);
    LinkedForward(g, AddStep(g, p, name, ino, dir, spare), p, name, ChildFor(g, ino, spare));
  }

  lemma UnregisterEdges(g: Graph, i: Ino)
    ensures forall d, x, c :: HasKid(Unregister(g, i), d, x, c) <==> HasKid(g, d, x, c)
    ensures forall d, x, c :: HasEntry(Unregister(g, i), c, x, d) <==> HasEntry(g, c, x, d)
  {
  }

  /** The step of `t` cuts every edge it has to. */
  ghost predicate CutsWell(s: State, t: Tid) {
    t in s.threads && (s.threads[t].want == [] ==> CutsAll(s.g, s.threads[t].pc))
  }

  lemma StepForwardExact(s: State, t: Tid, ch: Choice, s': State)
    requires Next(s, t, ch, s') && s'.crash.None? && Forward(s.g)
    ensures Forward(s'.g) <==> CutsWell(s, t)
  {
    hide Section, Forward, WellFormed, CutsAll;
    if s.threads[t].want == [] {
      SectionForward(s, s.threads[t], ch, Step(s, t, ch).value);
    }
  }

  /** Throughout a run every child edge has its entry exactly when no cut misses an edge. */
  lemma {:induction false} RunForwardExact(ss: seq<State>, ts: seq<(Tid, Choice)>)
    requires Run(ss, ts) && Forward(ss[0].g) && ss[|ts|].crash.None?
    ensures (forall i :: 0 <= i <= |ts| ==> Forward(ss[i].g)) <==>
            (forall i :: 0 <= i < |ts| ==> CutsWell(ss[i], ts[i].0))
  {
    hide Next, Init, Forward, CutsWell;
    if ts != [] {
      var n := |ts| - 1;
      assert ss[..n + 1][n] == ss[n];
      NotCrashed(ss[n], ts[n].0, ts[n].1, ss[n + 1]);
      RunForwardExact(ss[..n + 1], ts[..n]);
      if Forward(ss[n].g) {
        StepForwardExact(ss[n], ts[n].0, ts[n].1, ss[n + 1]);
      }
    }
  }

  /** A recent snapshot lists every edge to its inode. */
  lemma RecentCuts(s: State, t: Tid)
    requires Inv(s) && Forward(s.g) && t in s.threads && Recent(s.g, s.threads[t].pc)
    ensures CutsWell(s, t)
  {
    var th := s.threads[t];
    if th.pc.RefCut? {
      var RefCut(n, rev, pes) := th.pc;
      assert ThreadOk(s.g, s.dropped, th);
      WrapMatches(rev, s.g.rev[n]);
      if rev == s.g.rev[n] {
        SameElements(pes, s.g.nodes[n].parents);
      }
    }
  }

  /** So the law holds after any run whose steps check recent snapshots only. */
  lemma {:induction false} RunForward(ss: seq<State>, ts: seq<(Tid, Choice)>)
    requires Run(ss, ts) && Forward(ss[0].g) && ss[|ts|].crash.None?
    requires forall i :: 0 <= i < |ts| && ts[i].0 in ss[i].threads ==> Recent(ss[i].g, ss[i].threads[ts[i].0].pc)
    ensures Forward(ss[|ts|].g)
  {
    hide Next, Init, Forward, CutsWell, Recent, Inv;
    if ts != [] {
      var n := |ts| - 1;
      assert ss[..n + 1][n] == ss[n];
      NotCrashed(ss[n], ts[n].0, ts[n].1, ss[n + 1]);
      RunForward(ss[..n + 1], ts[..n]);
      RunKeeps(ss[..n + 1], ts[..n]);
      StepHasThread(ss[n], ts[n].0, ts[n].1, ss[n + 1]);
      RecentCuts(ss[n], ts[n].0);
      StepForwardExact(ss[n], ts[n].0, ts[n].1, ss[n + 1]);
    }
  }

  lemma StepHasThread(s: State, t: Tid, ch: Choice, s': State)
    requires Next(s, t, ch, s')
    ensures t in s.threads && t in s'.threads
  {
  }
}
