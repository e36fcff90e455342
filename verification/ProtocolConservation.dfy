/**
  Conservation of lookups with any number of threads: what the inodes of a number hold is
  what they held at first, plus one for every addChild and minus the count of every
  removeRef that was called.  No interleaving loses or invents a reference.
 */
module ProtocolConservation {
  import opened Types
  import opened Recency
  import opened InodeGraph
  import opened LockOrder
  import opened Protocol
  import opened ProtocolSafety
  import opened ProtocolSnapshots
  import opened ProtocolGarbage
  import opened ProtocolCalls

  // ----- sums -----

  ghost function Sum(m: map<nat, int>): int {
    if m == map[] then 0
    else
      var k :| k in m;
      m[k] + Sum(m - {k})
  }

  lemma {:induction false} SumRemove(m: map<nat, int>, k: nat)
    requires k in m
    ensures Sum(m) == m[k] + Sum(m - {k})
    decreases |m|
  {
    var j :| j in m && Sum(m) == m[j] + Sum(m - {j});
    if j != k {
      SumRemove(m - {j}, k);
      SumRemove(m - {k}, j);
      assert m - {j} - {k} == m - {k} - {j};
    }
  }

  lemma SumUpdate(m: map<nat, int>, k: nat, v: int)
    ensures Sum(m[k := v]) == Sum(m) + v - (if k in m then m[k] else 0)
  {
    SumRemove(m[k := v], k);
    assert m[k := v] - {k} == m - {k};
    if k in m {
      SumRemove(m, k);
    } else {
      assert m - {k} == m;
    }
  }

  lemma {:induction false} SumZero(m: map<nat, int>)
    requires forall k :: k in m ==> m[k] == 0
    ensures Sum(m) == 0
    decreases |m|
  {
    if m != map[] {
      var k :| k in m;
      SumRemove(m, k);
      SumZero(m - {k});
    }
  }

  // ----- what is held, owed and asked for -----

  /** The lookups of each inode of number `i`. */
  ghost function Counts(g: Graph, i: Ino): map<nat, int> {
    map a: nat | a in g.nodes && g.nodes[a].ino == i :: g.nodes[a].lookups as int
  }

  /** The lookups that all inodes of number `i` hold together. */
  ghost function Total(g: Graph, i: Ino): int {
    Sum(Counts(g, i))
  }

  /** What a thread's call has still to add to them. */
  ghost function Owed(g: Graph, th: Thread, i: Ino): int {
    match Target(th.pc)
    case AddLocked(_, _, j, _, _) => if j == i then 1 else 0
    case AddRead(_, _, j, _, _) => if j == i then 1 else 0
    case AddFresh(_, _, j, _, _) => if j == i then 1 else 0
    case RefLocked(n, k) => if n in g.nodes && g.nodes[n].ino == i then -(k as int) else 0
    case _ => 0
  }

  ghost function Debts(s: State, i: Ino): map<nat, int> {
    map t: nat | t in s.threads :: Owed(s.g, s.threads[t], i)
  }

  ghost function Owing(s: State, i: Ino): int {
    Sum(Debts(s, i))
  }

  /** What a step asks to be added: one for an addChild, minus the count for a removeRef that begins. */
  ghost function Asks(s: State, t: Tid, ch: Choice, i: Ino): int {
    if t in s.threads && Finished(s.threads[t]) && ch.Begin? then
      match ch.call
      case AddChild(_, _, j, _) => if j == i then 1 else 0
      case RemoveRef(n, k) => if n in s.g.nodes && s.g.nodes[n].ino == i then -(k as int) else 0
      case _ => 0
    else 0
  }

  ghost function AllAsked(ss: seq<State>, ts: seq<(Tid, Choice)>, i: Ino): int
    requires |ss| == |ts| + 1
    decreases |ts|
  {
    if ts == [] then 0
    else
      var n := |ts| - 1;
      AllAsked(ss[..n + 1], ts[..n], i) + Asks(ss[n], ts[n].0, ts[n].1, i)
  }

  // ----- one step -----

  lemma SameTotal(g: Graph, h: Graph, i: Ino)
    requires SameLookups(g, h) && forall n :: n in g.nodes ==> h.nodes[n].ino == g.nodes[n].ino
    ensures Total(h, i) == Total(g, i)
  {
    assert Counts(h, i) == Counts(g, i);
  }

  lemma SubtractedTotal(g: Graph, h: Graph, n: Addr, k: nat, i: Ino)
    requires Subtracted(g, h, n, k)
    ensures Total(h, i) == Total(g, i) - (if g.nodes[n].ino == i then k else 0)
  {
    if g.nodes[n].ino == i {
      SumUpdate(Counts(g, i), n, h.nodes[n].lookups);
      assert Counts(h, i) == Counts(g, i)[n := h.nodes[n].lookups as int];
    } else {
      assert Counts(h, i) == Counts(g, i);
    }
  }

  /** One lookup more, unless a counter wraps. */
  lemma AddedTotal(g: Graph, h: Graph, p: Addr, name: string, ino: Ino, i: Ino) returns (w: nat)
    requires Added(g, h, p, name, ino) && Extends(g, h) && WellFormed(g)
    ensures Total(h, i) == Total(g, i) + (if ino == i then 1 else 0) - WORD * w
    ensures CountsFit(g) ==> w == 0
  {
    AddedLookups(g, h, p, name, ino);
    hide Added, WellFormed, Extends;
    w := CountedTotal(g, h, h.reg[ino], ino, i);
  }

  lemma AddedLookups(g: Graph, h: Graph, p: Addr, name: string, ino: Ino)
    requires Added(g, h, p, name, ino) && Extends(g, h) && WellFormed(g)
    ensures ino in h.reg
    ensures var c := h.reg[ino];
            && c in h.nodes && h.nodes[c].ino == ino && h.nodes.Keys == g.nodes.Keys + {c}
            && h.nodes[c].lookups == (if c in g.nodes then Wrap(g.nodes[c].lookups + 1) else 1)
            && (c in g.nodes ==> g.nodes[c].ino == ino)
            && (forall x :: x in g.nodes && x != c ==>
                  h.nodes[x].lookups == g.nodes[x].lookups && h.nodes[x].ino == g.nodes[x].ino)
  {
    hide HasKid, HasEntry, NoDup;
  }

  lemma CountedTotal(g: Graph, h: Graph, c: Addr, ino: Ino, i: Ino) returns (w: nat)
    requires c in h.nodes && h.nodes[c].ino == ino && h.nodes.Keys == g.nodes.Keys + {c}
    requires h.nodes[c].lookups == (if c in g.nodes then Wrap(g.nodes[c].lookups + 1) else 1)
    requires c in g.nodes ==> g.nodes[c].ino == ino
    requires forall x :: x in g.nodes && x != c ==>
               h.nodes[x].lookups == g.nodes[x].lookups && h.nodes[x].ino == g.nodes[x].ino
    ensures Total(h, i) == Total(g, i) + (if ino == i then 1 else 0) - WORD * w
    ensures CountsFit(g) ==> w == 0
  {
    w := 0;
    if ino == i {
      SumUpdate(Counts(g, i), c, h.nodes[c].lookups);
      assert Counts(h, i) == Counts(g, i)[c := h.nodes[c].lookups as int];
      if c in g.nodes {
        w := (g.nodes[c].lookups + 1) / WORD;
      }
    } else {
      assert Counts(h, i) == Counts(g, i);
    }
  }

  /** The ledger of a single thread's step. */
  ghost predicate Balanced(s: State, t: Tid, ch: Choice, s': State, i: Ino, w: nat) {
    && t in s.threads && t in s'.threads
    && Total(s'.g, i) + Owed(s'.g, s'.threads[t], i) ==
       Total(s.g, i) + Owed(s.g, s.threads[t], i) + Asks(s, t, ch, i) - WORD * w
    && (CountsFit(s.g) ==> w == 0)
  }

  lemma QuietBalances(s: State, t: Tid, ch: Choice, s': State, i: Ino)
    requires t in s.threads && t in s'.threads && SameLookups(s.g, s'.g)
    requires forall n :: n in s.g.nodes ==> s'.g.nodes[n].ino == s.g.nodes[n].ino
    requires Owed(s.g, s'.threads[t], i) == Owed(s.g, s.threads[t], i) + Asks(s, t, ch, i)
    ensures Balanced(s, t, ch, s', i, 0)
  {
    SameTotal(s.g, s'.g, i);
  }

  lemma SameSame(g: Graph)
    ensures SameLookups(g, g)
  {
  }

  /** addChild with its locks held: one lookup is no longer owed but held. */
  lemma AddBalances(s: State, t: Tid, ch: Choice, s': State, i: Ino) returns (w: nat)
    requires Inv(s) && Next(s, t, ch, s') && s'.crash.None? && s.threads[t].want == []
    requires s.threads[t].pc.AddRead? || s.threads[t].pc.AddFresh?
    ensures Balanced(s, t, ch, s', i, w)
  {
    StepHasThread(s, t, ch, s');
    hide Inv, Next, Added, Total, WellFormed, CountsFit, Extends;
    InvWellFormed(s);
    StepExtends(s, t, ch, s');
    AddOutcome(s, t, ch, s', i);
    hide Owed, Asks, Balanced;
    var pc := s.threads[t].pc;
    w := 0;
    if s'.threads[t].pc == Unlock(Idle) {
      w := AddedTotal(s.g, s'.g, pc.p, pc.name, pc.ino, i);
    }
    BalancedBy(s, t, ch, s', i, w);
  }

  lemma BalancedBy(s: State, t: Tid, ch: Choice, s': State, i: Ino, w: nat)
    requires t in s.threads && t in s'.threads && (CountsFit(s.g) ==> w == 0)
    requires Total(s'.g, i) + Owed(s'.g, s'.threads[t], i) ==
             Total(s.g, i) + Owed(s.g, s.threads[t], i) + Asks(s, t, ch, i) - WORD * w
    ensures Balanced(s, t, ch, s', i, w)
  {
  }

  lemma AddOutcome(s: State, t: Tid, ch: Choice, s': State, i: Ino)
    requires Inv(s) && Next(s, t, ch, s') && s'.crash.None? && s.threads[t].want == []
    requires s.threads[t].pc.AddRead? || s.threads[t].pc.AddFresh?
    ensures t in s'.threads && Asks(s, t, ch, i) == 0
    ensures var pc := s.threads[t].pc;
            && Owed(s.g, s.threads[t], i) == (if pc.ino == i then 1 else 0)
            && if s'.threads[t].pc == Unlock(Idle) then
                 Added(s.g, s'.g, pc.p, pc.name, pc.ino) && Owed(s'.g, s'.threads[t], i) == 0
               else s'.g == s.g && Owed(s'.g, s'.threads[t], i) == Owed(s.g, s.threads[t], i)
  {
    StepHasThread(s, t, ch, s');
    hide Inv, Next, Added, Owed;
    if s.threads[t].pc.AddFresh? {
      FreshIsNew(s, t);
      FreshOutcome(s, t, ch, s', i);
    } else {
      ReadOutcome(s, t, ch, s', i);
    }
  }

  lemma ReadOutcome(s: State, t: Tid, ch: Choice, s': State, i: Ino)
    requires Next(s, t, ch, s') && s'.crash.None? && s.threads[t].want == [] && t in s'.threads
    requires s.threads[t].pc.AddRead?
    ensures var pc := s.threads[t].pc;
            && Owed(s.g, s.threads[t], i) == (if pc.ino == i then 1 else 0)
            && if s'.threads[t].pc == Unlock(Idle) then
                 Added(s.g, s'.g, pc.p, pc.name, pc.ino) && Owed(s'.g, s'.threads[t], i) == 0
               else s'.g == s.g && Owed(s'.g, s'.threads[t], i) == Owed(s.g, s.threads[t], i)
  {
    hide Next, Added;
    AddSectionExact(s, t, ch, s');
  }

  lemma FreshOutcome(s: State, t: Tid, ch: Choice, s': State, i: Ino)
    requires Next(s, t, ch, s') && s'.crash.None? && s.threads[t].want == [] && t in s'.threads
    requires s.threads[t].pc.AddFresh? && s.threads[t].pc.ino !in s.g.reg
    ensures var pc := s.threads[t].pc;
            && s'.threads[t].pc == Unlock(Idle) && Added(s.g, s'.g, pc.p, pc.name, pc.ino)
            && Owed(s.g, s.threads[t], i) == (if pc.ino == i then 1 else 0) && Owed(s'.g, s'.threads[t], i) == 0
  {
    hide Next, Added;
    AddSectionExact(s, t, ch, s');
  }

  lemma StepExtends(s: State, t: Tid, ch: Choice, s': State)
    requires Inv(s) && Next(s, t, ch, s') && s'.crash.None?
    ensures Extends(s.g, s'.g)
  {
    hide Inv, Next, Exclusive;
    WritesAreLocked(s, t, ch, s');
  }

  lemma FreshIsNew(s: State, t: Tid)
    requires Inv(s) && t in s.threads && s.threads[t].pc.AddFresh?
    ensures s.threads[t].pc.ino !in s.g.reg
  {
    assert ThreadOk(s.g, s.dropped, s.threads[t]);
  }

  /** removeRef with its inode locked: its count is no longer owed but subtracted. */
  lemma RefBalances(s: State, t: Tid, ch: Choice, s': State, i: Ino)
    requires Next(s, t, ch, s') && s'.crash.None? && s.threads[t].want == [] && s.threads[t].pc.RefLocked?
    ensures Balanced(s, t, ch, s', i, 0)
  {
    RefSectionExact(s, t, ch, s');
    StepHasThread(s, t, ch, s');
    hide Next, Subtracted, Total;
    SubtractedTotal(s.g, s'.g, s.threads[t].pc.n, s.threads[t].pc.k, i);
  }

  /** The sections that move edges or read, and the locking around them, neither hold nor owe. */
  lemma OtherBalances(s: State, t: Tid, ch: Choice, s': State, i: Ino)
    requires Next(s, t, ch, s') && s'.crash.None? && !Finished(s.threads[t])
    requires Extends(s.g, s'.g) && SameLookups(s.g, s'.g)
    requires Owed(s.g, s'.threads[t], i) == Owed(s.g, s.threads[t], i)
    ensures Balanced(s, t, ch, s', i, 0)
  {
    StepHasThread(s, t, ch, s');
    hide Next, SameLookups, Owed;
    QuietBalances(s, t, ch, s', i);
  }

  lemma CommitKeepsLookups(s: State, t: Tid, ch: Choice, s': State)
    requires Next(s, t, ch, s') && s'.crash.None? && s.threads[t].want == []
    requires s.threads[t].pc.RmCommit? || s.threads[t].pc.MvCommit?
    ensures SameLookups(s.g, s'.g)
    ensures var pc := Target(s'.threads[t].pc); pc.Idle? || pc.RmSnap? || pc.MvSnap?
  {
    hide NoDup, Sorted, MvStep, InodeGraph.Unlink, AddSection, FreshSection, RefSection, CutSection;
    match s.threads[t].pc
    case RmCommit(p, name, _, c) =>
      assert p in Group(s.threads[t].pc) && c in Group(s.threads[t].pc);
      UnlinkRecords(s.g, p, name, c);
    case MvCommit(p, name, np, nname, _, _, _, child, dest) =>
      assert p in Group(s.threads[t].pc) && np in Group(s.threads[t].pc);
      assert child.Some? ==> child.value in Group(s.threads[t].pc);
      assert dest.Some? ==> dest.value in Group(s.threads[t].pc);
      MvCountsKids(s.g, p, name, np, nname, child, dest);
  }

  /** The steps that do not touch the graph and go on with the same call. */
  lemma ReadKeepsOwed(s: State, t: Tid, ch: Choice, s': State, i: Ino)
    requires Next(s, t, ch, s') && s'.crash.None? && !Finished(s.threads[t])
    requires var pc := s.threads[t].pc;
             || s.threads[t].want != [] || pc.Idle? || pc.EnterDir? || pc.Peek? || pc.MuPeek? || pc.AddLocked?
             || pc.RefDrop? || pc.RefSnap? || pc.RmSnap? || pc.MvSnap? || pc.Unlock?
    ensures s'.g == s.g && Owed(s.g, s'.threads[t], i) == Owed(s.g, s.threads[t], i)
  {
    hide WellFormed, Sorted, Group, AddSection, FreshSection, RefSection, CutSection, RmSection, MvSection;
    if s.threads[t].want == [] && (s.threads[t].pc.RmSnap? || s.threads[t].pc.MvSnap? || s.threads[t].pc.RefSnap?) {
      ReadGroup(s.g, s.threads[t].pc);
    }
  }

  lemma ReadGroup(g: Graph, pc: Pc)
    requires PcKnown(g, pc) && (pc.RmSnap? || pc.MvSnap? || pc.RefSnap?)
    ensures Group(pc) <= g.nodes.Keys && (pc.RmSnap? ==> pc.p in Group(pc)) && (pc.RefSnap? ==> pc.n in Group(pc))
    ensures pc.MvSnap? ==> pc.p in Group(pc) && pc.np in Group(pc)
  {
  }

  /** A call that begins owes what its first step asks for. */
  lemma BeginBalances(s: State, t: Tid, ch: Choice, s': State, i: Ino)
    requires Inv(s) && Next(s, t, ch, s') && s'.crash.None? && Finished(s.threads[t])
    ensures Balanced(s, t, ch, s', i, 0)
  {
    StepHasThread(s, t, ch, s');
    BeginsChosen(s, t, ch, s');
    BeginSection(s, t, ch.call, s');
    hide Inv, Next, BeginCall, SameLookups, Extends;
    BeginOwes(s, s.threads[t], ch.call, i);
    SameSame(s.g);
    QuietBalances(s, t, ch, s', i);
  }

  lemma BeginsChosen(s: State, t: Tid, ch: Choice, s': State)
    requires Inv(s) && Next(s, t, ch, s') && Finished(s.threads[t])
    ensures ch.Begin?
  {
    assert ThreadOk(s.g, s.dropped, s.threads[t]);
    hide Sorted, WellFormed, Inv, ThreadOk, BeginCall;
    IdleShape(s.g, s.dropped, s.threads[t]);
  }

  lemma BeginOwes(s: State, th: Thread, call: Call, i: Ino)
    requires Finished(th) && BeginCall(s, th, call).Some? && BeginCall(s, th, call).value.crash.None?
    ensures var e := BeginCall(s, th, call).value;
            e.g == s.g && Owed(s.g, th, i) == 0
            && Owed(s.g, e.th, i) ==
               match call
               case AddChild(_, _, j, _) => if j == i then 1 else 0
               case RemoveRef(n, k) => if n in s.g.nodes && s.g.nodes[n].ino == i then -(k as int) else 0
               case _ => 0
  {
    hide Sorted, Group;
  }

  /** Every step balances its thread's ledger. */
  lemma StepBalances(s: State, t: Tid, ch: Choice, s': State, i: Ino) returns (w: nat)
    requires Inv(s) && Next(s, t, ch, s') && s'.crash.None?
    ensures Balanced(s, t, ch, s', i, w)
  {
    StepHasThread(s, t, ch, s');
    hide Inv, Next, Balanced, Owed, SameLookups, Extends;
    StepExtends(s, t, ch, s');
    var th := s.threads[t];
    w := 0;
    if Finished(th) {
      BeginBalances(s, t, ch, s', i);
    } else if th.want == [] && (th.pc.AddRead? || th.pc.AddFresh?) {
      w := AddBalances(s, t, ch, s', i);
    } else if th.want == [] && th.pc.RefLocked? {
      RefBalances(s, t, ch, s', i);
    } else {
      KeepsBalance(s, t, ch, s', i);
    }
  }

  lemma KeepsBalance(s: State, t: Tid, ch: Choice, s': State, i: Ino)
    requires Next(s, t, ch, s') && s'.crash.None? && !Finished(s.threads[t]) && Extends(s.g, s'.g)
    requires s.threads[t].want != []
             || !(s.threads[t].pc.AddRead? || s.threads[t].pc.AddFresh? || s.threads[t].pc.RefLocked?)
    ensures Balanced(s, t, ch, s', i, 0)
  {
    StepHasThread(s, t, ch, s');
    var th := s.threads[t];
    if th.want == [] && (th.pc.RefCut? || th.pc.RefDelete?) {
      SweepingStep(s, t, ch, s');
      hide Next, SameLookups;
    } else if th.want == [] && (th.pc.RmCommit? || th.pc.MvCommit?) {
      CommitKeepsLookups(s, t, ch, s');
      hide Next, SameLookups;
    } else {
      ReadKeepsOwed(s, t, ch, s', i);
      SameSame(s.g);
      hide Next, SameLookups, Owed;
    }
    OtherBalances(s, t, ch, s', i);
  }

  // ----- all threads, all runs -----

  /** One step changes the debts of its own thread only. */
  lemma StepOwing(s: State, t: Tid, ch: Choice, s': State, i: Ino)
    requires Inv(s) && Next(s, t, ch, s') && Extends(s.g, s'.g)
    ensures t in s.threads && t in s'.threads
    ensures Owing(s', i) == Owing(s, i) + Owed(s'.g, s'.threads[t], i) - Owed(s.g, s.threads[t], i)
  {
    StepHasThread(s, t, ch, s');
    hide Inv, Next, Owed, Extends, Owing;
    ThreadsStay(s, t, ch, s');
    forall u | u in s.threads && u != t ensures Owed(s'.g, s'.threads[u], i) == Owed(s.g, s.threads[u], i) {
      OwedStays(s, s'.g, u, i);
    }
    OneDebt(s, t, s', i);
  }

  lemma OneDebt(s: State, t: Tid, s': State, i: Ino)
    requires t in s.threads && s'.threads.Keys == s.threads.Keys
    requires forall u :: u in s.threads && u != t ==> Owed(s'.g, s'.threads[u], i) == Owed(s.g, s.threads[u], i)
    ensures Owing(s', i) == Owing(s, i) + Owed(s'.g, s'.threads[t], i) - Owed(s.g, s.threads[t], i)
  {
    hide Owed;
    SumUpdate(Debts(s, i), t, Owed(s'.g, s'.threads[t], i));
    assert Debts(s', i) == Debts(s, i)[t := Owed(s'.g, s'.threads[t], i)];
  }

  lemma OwedStays(s: State, h: Graph, u: Tid, i: Ino)
    requires Inv(s) && u in s.threads && Extends(s.g, h)
    ensures Owed(h, s.threads[u], i) == Owed(s.g, s.threads[u], i)
  {
    assert ThreadOk(s.g, s.dropped, s.threads[u]);
    if Target(s.threads[u].pc).RefLocked? {
      TargetKnown(s.g, s.threads[u].pc);
    }
  }

  lemma TargetKnown(g: Graph, pc: Pc)
    requires PcKnown(g, pc) && Target(pc).RefLocked?
    ensures Target(pc).n in g.nodes
  {
    assert Target(pc).n in Group(Target(pc));
  }

  /**
    The ledger of a run: lookups held and owed are those of the start and all that was
    asked for, but for one 2^32 for each time a counter of the number wrapped.
   */
  lemma {:induction false} RunLedger(ss: seq<State>, ts: seq<(Tid, Choice)>, i: Ino) returns (w: nat)
    requires Run(ss, ts) && ss[|ts|].crash.None?
    ensures Total(ss[|ts|].g, i) + Owing(ss[|ts|], i) == Total(ss[0].g, i) + AllAsked(ss, ts, i) - WORD * w
    ensures (forall j :: 0 <= j < |ts| ==> CountsFit(ss[j].g)) ==> w == 0
    decreases |ts|
  {
    hide Inv, Next, Init, Owing, Total, Asks, CountsFit, Extends;
    if ts == [] {
      w := 0;
      InitFinished(ss[0]);
      NothingOwed(ss[0], i);
    } else {
      var n := |ts| - 1;
      assert ss[..n + 1][n] == ss[n];
      NotCrashed(ss[n], ts[n].0, ts[n].1, ss[n + 1]);
      var v := RunLedger(ss[..n + 1], ts[..n], i);
      RunKeeps(ss[..n + 1], ts[..n]);
      StepExtends(ss[n], ts[n].0, ts[n].1, ss[n + 1]);
      StepOwing(ss[n], ts[n].0, ts[n].1, ss[n + 1], i);
      var x := StepBalances(ss[n], ts[n].0, ts[n].1, ss[n + 1], i);
      w := v + x;
    }
  }

  lemma InitFinished(s: State)
    requires Init(s)
    ensures forall t :: t in s.threads ==> Finished(s.threads[t])
  {
  }

  lemma NothingOwed(s: State, i: Ino)
    requires forall t :: t in s.threads ==> Finished(s.threads[t])
    ensures Owing(s, i) == 0
  {
    SumZero(Debts(s, i));
  }

  /**
    Conservation: once all threads have finished, the inodes of a number hold what they
    held at first, plus one for each addChild and minus the count of each removeRef that
    was called, exactly while no counter wraps and modulo 2^32 in any case.
   */
  lemma {:induction false} RunConserves(ss: seq<State>, ts: seq<(Tid, Choice)>, i: Ino)
    requires Run(ss, ts) && ss[|ts|].crash.None?
    requires forall t :: t in ss[|ts|].threads ==> Finished(ss[|ts|].threads[t])
    ensures (Total(ss[0].g, i) + AllAsked(ss, ts, i) - Total(ss[|ts|].g, i)) % 0x1_0000_0000 == 0
    ensures (forall j :: 0 <= j < |ts| ==> CountsFit(ss[j].g)) ==>
              Total(ss[|ts|].g, i) == Total(ss[0].g, i) + AllAsked(ss, ts, i)
  {
    hide Next, Init, CountsFit;
    var w := RunLedger(ss, ts, i);
    NothingOwed(ss[|ts|], i);
    hide Owing, Total, AllAsked;
    assert (WORD * w) % 0x1_0000_0000 == 0;
  }
}
