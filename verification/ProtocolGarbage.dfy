/**
  No garbage with any number of threads: a registered inode that is not live is one
  that some thread is still to remove.  When all threads have finished there is none.
 */
module ProtocolGarbage {
  import opened Types
  import opened Recency
  import opened InodeGraph
  import opened Cascade
  import opened Coherence
  import opened LockOrder
  import opened Protocol
  import opened ProtocolSafety

  /** `th` is on the way to deleting the registry entry of `n`, or will look at `n` again. */
  ghost predicate Awaits(th: Thread, n: Addr) {
    n in th.todo ||
    match th.pc
    case RefLocked(m, _) => m == n
    case RefDrop(m) => m == n
    case RefDelete(m) => m == n
    case _ => false
  }

  ghost predicate Pending(s: State, n: Addr) {
    exists t :: t in s.threads && Awaits(s.threads[t], n)
  }

  /** Garbage is always somebody's business. */
  ghost predicate Collected(s: State) {
    forall i :: i in s.g.reg && s.g.reg[i] in s.g.nodes && !Live(s.g, s.g.reg[i]) ==> Pending(s, s.g.reg[i])
  }

  /** No lookup count is about to wrap to 0. */
  ghost predicate CountsFit(g: Graph) {
    forall n :: n in g.nodes ==> g.nodes[n].lookups + 1 < WORD
  }

  ghost predicate Garbage(g: Graph, i: Ino) {
    i in g.reg && g.reg[i] in g.nodes && !Live(g, g.reg[i])
  }

  /** What is garbage after a step was garbage before and not the thread's business, or is its business now. */
  ghost predicate Minds(s: State, th: Thread, e: Effect) {
    forall i :: Garbage(e.g, i) ==>
      Awaits(e.th, e.g.reg[i]) || (Garbage(s.g, i) && s.g.reg[i] == e.g.reg[i] && !Awaits(th, e.g.reg[i]))
  }

  /** Sections that leave the graph alone, and with it what the thread has to do. */
  lemma MindsStill(s: State, th: Thread, e: Effect)
    requires e.g == s.g && forall n :: Awaits(th, n) ==> Awaits(e.th, n)
    ensures Minds(s, th, e)
  {
  }

  /** Apart from the inodes the thread now awaits, every inode has the count and children it had. */
  lemma MindsChanged(s: State, th: Thread, e: Effect)
    requires e.g.reg == s.g.reg && e.g.nodes.Keys == s.g.nodes.Keys
    requires forall n :: n in s.g.nodes && !Awaits(e.th, n) ==>
               Live(e.g, n) || (!Awaits(th, n) && e.g.nodes[n].lookups == s.g.nodes[n].lookups
                                && e.g.nodes[n].kids == s.g.nodes[n].kids)
    ensures Minds(s, th, e)
  {
  }

  // ----- the sections that write -----

  lemma AddMinds(s: State, th: Thread, e: Effect, p: Addr, name: string, ino: Ino, dir: bool, spare: Addr)
    requires WellFormed(s.g) && CountsFit(s.g) && p in s.g.nodes && s.g.nodes[p].dir && Spare(s.g, ino, spare)
    requires e.g == AddStep(s.g, p, name, ino, dir, spare)
    requires forall n :: Awaits(th, n) <==> Awaits(e.th, n)
    ensures Minds(s, th, e)
  {
    hide AddStep, NoDup, Awaits;
    var c := ChildFor(s.g, ino, spare);
    AddEffect(s.g, e.g, p, name, ino, dir, spare);
    forall i | Garbage(e.g, i) && !Awaits(e.th, e.g.reg[i]) ensures Garbage(s.g, i) && s.g.reg[i] == e.g.reg[i] {
      var q := e.g.reg[i];
      if q != c {
        TiedIffEdges(s.g, q);
        TiedIffEdges(e.g, q);
        AddKeepsKids(s.g, e.g, p, name, c, q);
      }
    }
  }

  lemma RefMinds(s: State, th: Thread, e: Effect)
    requires WellFormed(s.g) && th.pc.RefLocked? && th.pc.n in s.g.nodes && th.pc.k <= s.g.nodes[th.pc.n].lookups
    requires e.g == DecStep(s.g, th.pc.n, th.pc.k) && e.th.todo == th.todo
    requires if Live(e.g, th.pc.n) then e.th == Done(th) else e.th == th.(pc := RefDrop(th.pc.n))
    ensures Minds(s, th, e)
  {
  }

  lemma DeleteMinds(s: State, th: Thread, e: Effect)
    requires WellFormed(s.g) && th.pc.RefDelete? && th.pc.n in s.g.nodes
    requires e.g == Unregister(s.g, s.g.nodes[th.pc.n].ino) && e.th.todo == th.todo
    ensures Minds(s, th, e)
  {
  }

  lemma {:induction false} CutCounts(g: Graph, n: Addr, pes: seq<Entry>)
    requires g.rev.Keys == g.nodes.Keys && forall e :: e in pes ==> e.node in g.nodes
    ensures var h := CutEdges(g, n, pes);
            && h.reg == g.reg && h.nodes.Keys == g.nodes.Keys
            && (forall d :: d in g.nodes ==> h.nodes[d].lookups == g.nodes[d].lookups)
            && (forall d :: d in g.nodes && d !in EntryNodes(pes) ==> h.nodes[d].kids == g.nodes[d].kids)
    decreases |pes|
  {
    if pes != [] {
      var e := pes[0];
      var m := if HasKid(g, e.node, e.name, n) then Bump(DelKid(g, e.node, e.name), e.node) else g;
      CutCounts(m, n, pes[1..]);
      assert e in pes && e.node in EntryNodes(pes);
      forall d | d !in EntryNodes(pes) ensures d !in EntryNodes(pes[1..]) {
      }
    }
  }

  lemma CutMinds(s: State, th: Thread, e: Effect, n: Addr, pes: seq<Entry>)
    requires s.g.rev.Keys == s.g.nodes.Keys && n in s.g.nodes && forall x :: x in pes ==> x.node in s.g.nodes
    requires e.g == CutStep(s.g, n, pes) && th.pc.RefCut? && e.th == Done(th.(todo := NodesOf(pes) + th.todo))
    ensures Minds(s, th, e)
  {
    hide CutEdges;
    CutCounts(s.g, n, pes);
    forall d | d in EntryNodes(pes) ensures Awaits(e.th, d) {
      var i :| 0 <= i < |pes| && pes[i].node == d;
      assert NodesOf(pes)[i] == d;
      assert e.th.todo[i] == d;
    }
    MindsChanged(s, th, e);
  }

  lemma RmMinds(s: State, th: Thread, e: Effect, p: Addr, name: string, c: Addr)
    requires s.g.rev.Keys == s.g.nodes.Keys && p in s.g.nodes && c in s.g.nodes
    requires e.g == InodeGraph.Unlink(s.g, p, name, c) && th.pc.RmCommit? && p in e.g.nodes
    requires e.th == Done(th.(todo := IfDead(e.g, p) + th.todo))
    ensures Minds(s, th, e)
  {
  }

  lemma MvCountsKids(g: Graph, p: Addr, name: string, np: Addr, nname: string, child: Option<Addr>, dest: Option<Addr>)
    requires g.rev.Keys == g.nodes.Keys && p in g.nodes && np in g.nodes
    requires child.Some? ==> child.value in g.nodes
    requires dest.Some? ==> dest.value in g.nodes
    ensures var h := MvStep(g, p, name, np, nname, child, dest);
            SameCounts(g, h) && forall d :: d in g.nodes && d != p && d != np ==> h.nodes[d].kids == g.nodes[d].kids
  {
    hide InodeGraph.Unlink, Link, Remove, MoveToFront;
    MvCounts(g, p, name, np, nname, child, dest);
    var g1 := if child.Some? then InodeGraph.Unlink(g, p, name, child.value) else g;
    if child.Some? { UnlinkRecords(g, p, name, child.value); }
    var g2 := if dest.Some? then InodeGraph.Unlink(g1, np, nname, dest.value) else g1;
    if dest.Some? { UnlinkRecords(g1, np, nname, dest.value); }
    if child.Some? { LinkRecords(g2, np, nname, child.value); }
  }

  lemma MvMinds(s: State, th: Thread, e: Effect, p: Addr, name: string, np: Addr, nname: string,
                child: Option<Addr>, dest: Option<Addr>)
    requires s.g.rev.Keys == s.g.nodes.Keys && p in s.g.nodes && np in s.g.nodes
    requires child.Some? ==> child.value in s.g.nodes
    requires dest.Some? ==> dest.value in s.g.nodes
    requires e.g == MvStep(s.g, p, name, np, nname, child, dest) && th.pc.MvCommit? && p in e.g.nodes && np in e.g.nodes
    requires e.th == Done(th.(todo := IfDead(e.g, p) + IfDead(e.g, np) + th.todo))
    ensures Minds(s, th, e)
  {
    hide MvStep;
    MvCountsKids(s.g, p, name, np, nname, child, dest);
    var todo := IfDead(e.g, p) + IfDead(e.g, np) + th.todo;
    assert !Live(e.g, p) ==> todo[0] == p;
    assert !Live(e.g, np) ==> todo[|IfDead(e.g, p)|] == np;
    MindsChanged(s, th, e);
  }

  // ----- every section -----

  lemma SectionMinds(s: State, th: Thread, ch: Choice, e: Effect)
    requires WellFormed(s.g) && PcKnown(s.g, th.pc) && CountsFit(s.g)
    requires Section(s, th, ch) == Some(e) && e.crash.None?
    ensures Minds(s, th, e)
  {
    hide NoDup, Minds, AddSection, FreshSection, RefSection, CutSection, RmSection, MvSection, Sorted, CountsFit;
    match th.pc
    case AddRead(_, _, _, _, _) => AddSectionMinds(s, th, ch, e);
    case AddFresh(_, _, _, _, _) => AddSectionMinds(s, th, ch, e);
    case RefLocked(_, _) => RefSectionMinds(s, th, ch, e);
    case RefDelete(n) =>
      assert n in Group(th.pc);
      DeleteMinds(s, th, e);
    case RefCut(_, _, _) => CutSectionMinds(s, th, ch, e);
    case RmCommit(_, _, _, _) => RmSectionMinds(s, th, ch, e);
    case MvCommit(_, _, _, _, _, _, _, _, _) => MvSectionMinds(s, th, ch, e);
    case _ => MindsStill(s, th, e);
  }

  lemma AddSectionMinds(s: State, th: Thread, ch: Choice, e: Effect)
    requires WellFormed(s.g) && PcKnown(s.g, th.pc) && CountsFit(s.g) && (th.pc.AddRead? || th.pc.AddFresh?)
    requires Section(s, th, ch) == Some(e) && e.crash.None?
    ensures Minds(s, th, e)
  {
    hide NoDup, AddStep, Minds, CountsFit;
    match th.pc
    case AddRead(p, name, ino, dir, child) =>
      assert p in Group(th.pc);
      if e.g == s.g {
        MindsStill(s, th, e);
      } else {
        AddMinds(s, th, e, p, name, ino, dir, 0);
      }
    case AddFresh(p, name, ino, dir, c) =>
      AddMinds(s, th, e, p, name, ino, dir, c);
  }

  lemma RefSectionMinds(s: State, th: Thread, ch: Choice, e: Effect)
    requires WellFormed(s.g) && PcKnown(s.g, th.pc) && th.pc.RefLocked?
    requires Section(s, th, ch) == Some(e) && e.crash.None?
    ensures Minds(s, th, e)
  {
    hide NoDup, DecStep, Minds;
    assert th.pc.n in Group(th.pc);
    RefMinds(s, th, e);
  }

  lemma CutSectionMinds(s: State, th: Thread, ch: Choice, e: Effect)
    requires WellFormed(s.g) && PcKnown(s.g, th.pc) && th.pc.RefCut?
    requires Section(s, th, ch) == Some(e) && e.crash.None?
    ensures Minds(s, th, e)
  {
    hide NoDup, CutStep, Minds;
    var RefCut(n, rev, pes) := th.pc;
    assert n in Group(th.pc);
    forall x | x in pes ensures x.node in s.g.nodes {
      assert x.node in EntryNodes(pes);
    }
    if Wrap(s.g.rev[n]) != Wrap(rev) {
      MindsStill(s, th, e);
    } else {
      CutMinds(s, th, e, n, pes);
    }
  }

  lemma RmSectionMinds(s: State, th: Thread, ch: Choice, e: Effect)
    requires WellFormed(s.g) && PcKnown(s.g, th.pc) && th.pc.RmCommit?
    requires Section(s, th, ch) == Some(e) && e.crash.None?
    ensures Minds(s, th, e)
  {
    hide NoDup, InodeGraph.Unlink, Minds;
    var RmCommit(p, name, rev, c) := th.pc;
    assert p in Group(th.pc) && c in Group(th.pc);
    if Wrap(s.g.rev[p]) != Wrap(rev) {
      MindsStill(s, th, e);
    } else {
      UnlinkRecords(s.g, p, name, c);
      RmMinds(s, th, e, p, name, c);
    }
  }

  lemma MvSectionMinds(s: State, th: Thread, ch: Choice, e: Effect)
    requires WellFormed(s.g) && PcKnown(s.g, th.pc) && th.pc.MvCommit?
    requires Section(s, th, ch) == Some(e) && e.crash.None?
    ensures Minds(s, th, e)
  {
    hide NoDup, MvStep, Minds;
    var MvCommit(p, name, np, nname, overwrite, rev, nRev, child, dest) := th.pc;
    assert p in Group(th.pc) && np in Group(th.pc);
    assert (child.Some? ==> child.value in Group(th.pc)) && (dest.Some? ==> dest.value in Group(th.pc));
    if Wrap(s.g.rev[p]) != Wrap(rev) || Wrap(s.g.rev[np]) != Wrap(nRev) {
      MindsStill(s, th, e);
    } else {
      MvKeys(s.g, p, name, np, nname, child, dest);
      MvMinds(s, th, e, p, name, np, nname, child, dest);
    }
  }

  // ----- steps and runs -----

  /** Every step of every thread leaves garbage only where a thread will come by. */
  lemma StepCollects(s: State, t: Tid, ch: Choice, s': State)
    requires Collected(s) && CountsFit(s.g) && Next(s, t, ch, s') && s'.crash.None?
    ensures Collected(s')
  {
    hide Section, PcKnown, WellFormed, CountsFit, Sorted;
    var th := s.threads[t];
    var e := Step(s, t, ch).value;
    if th.want != [] {
      MindsStill(s, th, e);
    } else {
      SectionMinds(s, th, ch, e);
    }
    forall i | Garbage(s'.g, i) ensures Pending(s', s'.g.reg[i]) {
      var q := s'.g.reg[i];
      if Awaits(e.th, q) {
        assert s'.threads[t] == e.th;
      } else {
        assert Garbage(s.g, i) && s.g.reg[i] == q && !Awaits(th, q);
        var u :| u in s.threads && Awaits(s.threads[u], q);
        assert u != t && s'.threads[u] == s.threads[u];
      }
    }
  }

  /** A thread that has finished its call, and the calls that one made. */
  predicate Finished(th: Thread) {
    th.pc.Idle? && th.todo == []
  }

  /**
    After any run, with adds and interleavings of any kind, garbage is still to be
    removed by some thread; once all threads have finished, no registered inode is garbage.
   */
  lemma {:induction false} RunCollects(ss: seq<State>, ts: seq<(Tid, Choice)>)
    requires Run(ss, ts) && NoGarbage(ss[0].g) && (forall i :: 0 <= i < |ts| ==> CountsFit(ss[i].g))
             && ss[|ts|].crash.None?
    ensures Collected(ss[|ts|])
    ensures (forall t :: t in ss[|ts|].threads ==> Finished(ss[|ts|].threads[t])) ==> NoGarbage(ss[|ts|].g)
  {
    hide Next, Init, CountsFit, WellFormed;
    if ts != [] {
      var n := |ts| - 1;
      assert ss[..n + 1][n] == ss[n];
      NotCrashed(ss[n], ts[n].0, ts[n].1, ss[n + 1]);
      RunCollects(ss[..n + 1], ts[..n]);
      StepCollects(ss[n], ts[n].0, ts[n].1, ss[n + 1]);
    }
    var s := ss[|ts|];
    if forall t :: t in s.threads ==> Finished(s.threads[t]) {
      forall i | i in s.g.reg && s.g.reg[i] in s.g.nodes ensures Live(s.g, s.g.reg[i]) {
        if t :| t in s.threads && Awaits(s.threads[t], s.g.reg[i]) {
          assert Finished(s.threads[t]);
        }
      }
    }
  }
}
