/**
  What a whole call does, with any number of threads in between: which step of the call
  changes the graph, and exactly how.  Every other step of the call leaves alone what
  that step is about.
 */
module ProtocolCalls {
  import opened Types
  import opened Recency
  import opened InodeGraph
  import opened LockOrder
  import opened Protocol
  import opened ProtocolSafety
  import opened ProtocolSnapshots
  import opened ProtocolGarbage

  // ----- single steps -----

  /** `h` is `g` with `k` lookups of `n` less, and nothing else. */
  ghost predicate Subtracted(g: Graph, h: Graph, n: Addr, k: nat) {
    && n in g.nodes && h.nodes.Keys == g.nodes.Keys && h.reg == g.reg
    && h.nodes[n].lookups + k == g.nodes[n].lookups && h.nodes[n] == g.nodes[n].(lookups := h.nodes[n].lookups)
    && forall x :: x in g.nodes && x != n ==> h.nodes[x] == g.nodes[x]
  }

  /** removeRef subtracts the count it was given, and panics exactly when there is less. */
  lemma RefSectionExact(s: State, t: Tid, ch: Choice, s': State)
    requires Next(s, t, ch, s') && s.threads[t].pc.RefLocked? && s.threads[t].want == []
    ensures var RefLocked(n, k) := s.threads[t].pc;
            && n in s.g.nodes && (s'.crash.Some? <==> k > s.g.nodes[n].lookups)
            && (s'.crash.Some? ==> s'.crash == Some(Underflow) && s'.g == s.g)
            && (s'.crash.None? ==>
                  && Subtracted(s.g, s'.g, n, k)
                  && s'.threads[t].pc ==
                     (if s.g.nodes[n].lookups > k || s.g.nodes[n].kids != map[] then Unlock(Idle) else RefDrop(n)))
  {
    hide AddSection, FreshSection, CutSection, RmSection, MvSection, Sorted;
    assert s.threads[t].pc.n in Group(s.threads[t].pc);
  }

  /** The registry entry that removeRef deletes is that of the number of its inode. */
  lemma RefDeleteExact(s: State, t: Tid, ch: Choice, s': State)
    requires Next(s, t, ch, s') && s.threads[t].pc.RefDelete? && s.threads[t].want == []
    ensures var n := s.threads[t].pc.n;
            && n in s.g.nodes && s'.g.nodes == s.g.nodes && s'.crash.None? && s'.threads[t].pc == RefSnap(n)
            && (forall i :: i in s'.g.reg <==> i in s.g.reg && i != s.g.nodes[n].ino)
            && (forall i :: i in s'.g.reg ==> s'.g.reg[i] == s.g.reg[i])
  {
    hide AddSection, FreshSection, RefSection, CutSection, RmSection, MvSection, Sorted;
    assert s.threads[t].pc.n in Group(s.threads[t].pc);
  }

  /**
    addChild took effect between `g` and `h`: the slot leads to the inode now registered
    under the number, which has the entry and one more lookup in 32 bits; a number that
    was not registered got a new inode.  No other edge, count or registration changed.
   */
  ghost predicate Added(g: Graph, h: Graph, p: Addr, name: string, ino: Ino) {
    && ino in h.reg
    && var c := h.reg[ino];
       && c in h.nodes && h.nodes[c].ino == ino && (if ino in g.reg then c == g.reg[ino] else c !in g.nodes)
       && (forall d, s, x :: HasKid(h, d, s, x) <==> if d == p && s == name then x == c else HasKid(g, d, s, x))
       && (forall d, s, x :: HasEntry(h, x, s, d) <==> HasEntry(g, x, s, d) || (x == c && s == name && d == p))
       && h.nodes[c].lookups == (if c in g.nodes then (g.nodes[c].lookups + 1) % 0x1_0000_0000 else 1)
       && h.nodes.Keys == g.nodes.Keys + {c}
       && (forall x :: x in g.nodes && x != c ==> h.nodes[x].lookups == g.nodes[x].lookups)
       && (forall i :: i in h.reg <==> i in g.reg || i == ino)
          && (forall i :: i in g.reg ==> i in h.reg && h.reg[i] == g.reg[i])
  }

  lemma AddedBy(g: Graph, h: Graph, p: Addr, name: string, ino: Ino, dir: bool, spare: Addr)
    requires WellFormed(g) && Spare(g, ino, spare) && p in g.nodes && g.nodes[p].dir
    requires h == AddStep(g, p, name, ino, dir, spare)
    ensures Added(g, h, p, name, ino)
  {
    hide AddStep, NoDup, HasKid, HasEntry;
    AddEffect(g, h, p, name, ino, dir, spare);
  }

  /** With its locks held addChild takes effect, reads the registry again, or makes a new inode to lock. */
  lemma AddSectionExact(s: State, t: Tid, ch: Choice, s': State)
    requires Next(s, t, ch, s') && s'.crash.None? && s.threads[t].want == []
    requires s.threads[t].pc.AddRead? || s.threads[t].pc.AddFresh?
    ensures match s.threads[t].pc
            case AddRead(p, name, ino, dir, child) =>
              if Get(s.g.reg, ino) != child then
                s'.g == s.g && s'.threads[t].pc == Unlock(AddLocked(p, name, ino, dir, Get(s.g.reg, ino)))
              else if child.None? then
                s'.g == s.g && s'.threads[t].pc.AddFresh? && s'.threads[t].pc.c !in s.g.nodes
                && s'.threads[t].pc == AddFresh(p, name, ino, dir, s'.threads[t].pc.c)
              else Added(s.g, s'.g, p, name, ino) && s'.threads[t].pc == Unlock(Idle)
            case AddFresh(p, name, ino, dir, c) =>
              && s'.threads[t].pc == Unlock(Idle)
              && (ino !in s.g.reg ==> Added(s.g, s'.g, p, name, ino) && s'.g.reg[ino] == c)
            case _ => true
  {
    hide Added, AddStep, RefSection, CutSection, RmSection, MvSection, Sorted, NoDup;
    var th := s.threads[t];
    match th.pc
    case AddRead(p, name, ino, dir, child) =>
      assert p in Group(th.pc);
      if Get(s.g.reg, ino) == child && child.Some? {
        AddedBy(s.g, s'.g, p, name, ino, dir, 0);
      }
    case AddFresh(p, name, ino, dir, c) =>
      if ino !in s.g.reg {
        AddedBy(s.g, s'.g, p, name, ino, dir, c);
        RegisteredFresh(s.g, p, name, ino, dir, c);
      }
  }

  lemma RegisteredFresh(g: Graph, p: Addr, name: string, ino: Ino, dir: bool, c: Addr)
    requires WellFormed(g) && p in g.nodes && ino !in g.reg && c !in g.nodes
    ensures var h := AddStep(g, p, name, ino, dir, c); ino in h.reg && h.reg[ino] == c
  {
  }

  // ----- a call among other threads' steps -----

  /**
    `t` starts the call with the first step and, until the last state, has not finished it;
    in between any thread may step.
   */
  ghost predicate Called(ss: seq<State>, ts: seq<(Tid, Choice)>, t: Tid, call: Call) {
    && |ss| == |ts| + 1 && ts != [] && Inv(ss[0]) && ss[|ts|].crash.None?
    && (forall i :: 0 <= i < |ts| ==> Next(ss[i], ts[i].0, ts[i].1, ss[i + 1]))
    && t in ss[0].threads && Finished(ss[0].threads[t]) && ts[0] == (t, Begin(call))
    && (forall i :: 0 < i < |ts| ==> t in ss[i].threads && !Finished(ss[i].threads[t]))
  }

  /** The invariant holds along a call. */
  lemma {:induction false} CalledKeeps(ss: seq<State>, ts: seq<(Tid, Choice)>, t: Tid, call: Call, i: nat)
    requires Called(ss, ts, t, call) && i <= |ts|
    ensures Inv(ss[i]) && t in ss[i].threads && ss[i].crash.None?
  {
    hide Inv, Next, Finished;
    if i < |ts| {
      NotCrashed(ss[i], ts[i].0, ts[i].1, ss[i + 1]);
    }
    if i > 0 {
      CalledKeeps(ss, ts, t, call, i - 1);
      StepKeeps(ss[i - 1], ts[i - 1].0, ts[i - 1].1, ss[i]);
      ThreadsStay(ss[i - 1], ts[i - 1].0, ts[i - 1].1, ss[i]);
    }
  }

  lemma ThreadsStay(s: State, u: Tid, ch: Choice, s': State)
    requires Next(s, u, ch, s')
    ensures s'.threads.Keys == s.threads.Keys && forall t :: t in s.threads && t != u ==> s'.threads[t] == s.threads[t]
  {
  }

  /** One step during a call: the thread still has to take effect, does so now, or already has. */
  ghost predicate Moves(th: Thread, th': Thread, g: Graph, h: Graph, own: bool, before: Thread -> bool,
                        after: Thread -> bool, effect: (Graph, Graph) -> bool, rest: (Graph, Graph) -> bool)
  {
    if own then
      && (before(th) ==> (before(th') && h == g) || (after(th') && effect(g, h)))
      && (after(th) ==> after(th') && rest(g, h))
    else th' == th
  }

  /** The thread's record, the graph, and whether the step is the thread's own, along a call. */
  ghost predicate Trace(thr: seq<Thread>, gs: seq<Graph>, mine: seq<bool>,
                        before: Thread -> bool, after: Thread -> bool,
                        effect: (Graph, Graph) -> bool, rest: (Graph, Graph) -> bool)
  {
    && |thr| == |gs| == |mine| + 1 && |mine| >= 1 && before(thr[1]) && gs[1] == gs[0]
    && forall i :: 1 <= i < |mine| ==>
         Moves(thr[i], thr[i + 1], gs[i], gs[i + 1], mine[i], before, after, effect, rest)
  }

  /** `k` is the step that takes effect: the thread changes nothing before it, and only `rest` after it. */
  ghost predicate TakesEffect(gs: seq<Graph>, mine: seq<bool>, n: nat, k: int,
                              effect: (Graph, Graph) -> bool, rest: (Graph, Graph) -> bool)
    requires n <= |mine| < |gs|
  {
    && 1 <= k < n && mine[k] && effect(gs[k], gs[k + 1])
    && (forall m :: 0 <= m < k && mine[m] ==> gs[m + 1] == gs[m])
    && (forall m :: k < m < n && mine[m] ==> rest(gs[m], gs[m + 1]))
  }

  /** A trace takes effect once. */
  lemma {:induction false} Once(thr: seq<Thread>, gs: seq<Graph>, mine: seq<bool>, before: Thread -> bool,
                                after: Thread -> bool, effect: (Graph, Graph) -> bool, rest: (Graph, Graph) -> bool,
                                n: nat)
    requires Trace(thr, gs, mine, before, after, effect, rest) && 1 <= n <= |mine|
    ensures || (before(thr[n]) && forall m :: 0 <= m < n && mine[m] ==> gs[m + 1] == gs[m])
            || (after(thr[n]) && exists k :: TakesEffect(gs, mine, n, k, effect, rest))
    decreases n
  {
    if n > 1 {
      var m := n - 1;
      Once(thr, gs, mine, before, after, effect, rest, m);
      if before(thr[m]) && forall j :: 0 <= j < m && mine[j] ==> gs[j + 1] == gs[j] {
        if mine[m] && !(before(thr[n]) && gs[n] == gs[m]) {
          assert TakesEffect(gs, mine, n, m, effect, rest);
        }
      } else {
        var k :| TakesEffect(gs, mine, m, k, effect, rest);
        assert TakesEffect(gs, mine, n, k, effect, rest);
      }
    }
  }

  ghost function Records(ss: seq<State>, t: Tid): (r: seq<Thread>)
    requires forall i :: 0 <= i < |ss| ==> t in ss[i].threads
    ensures |r| == |ss| && forall i :: 0 <= i < |ss| ==> r[i] == ss[i].threads[t]
  {
    seq(|ss|, i requires 0 <= i < |ss| => ss[i].threads[t])
  }

  ghost function Graphs(ss: seq<State>): (r: seq<Graph>)
    ensures |r| == |ss| && forall i :: 0 <= i < |ss| ==> r[i] == ss[i].g
  {
    seq(|ss|, i requires 0 <= i < |ss| => ss[i].g)
  }

  ghost function Mine(ts: seq<(Tid, Choice)>, t: Tid): (r: seq<bool>)
    ensures |r| == |ts| && forall i :: 0 <= i < |ts| ==> r[i] == (ts[i].0 == t)
  {
    seq(|ts|, i requires 0 <= i < |ts| => ts[i].0 == t)
  }

  lemma {:induction false} CalledLength(ss: seq<State>, ts: seq<(Tid, Choice)>, t: Tid, call: Call)
    requires Called(ss, ts, t, call)
    ensures |ss| == |ts| + 1 && ts != [] && ts[0].0 == t
  {
  }

  /** What the steps of a call are known by. */
  lemma {:induction false} CalledAt(ss: seq<State>, ts: seq<(Tid, Choice)>, t: Tid, call: Call, i: nat)
    requires Called(ss, ts, t, call) && i < |ts|
    ensures Inv(ss[i]) && Next(ss[i], ts[i].0, ts[i].1, ss[i + 1]) && ss[i + 1].crash.None?
    ensures t in ss[i].threads && t in ss[i + 1].threads
    ensures ts[i].0 != t ==> ss[i + 1].threads[t] == ss[i].threads[t]
    ensures i > 0 ==> !Finished(ss[i].threads[t])
  {
    hide Inv, Next, Finished;
    CalledKeeps(ss, ts, t, call, i);
    CalledKeeps(ss, ts, t, call, i + 1);
    ThreadsStay(ss[i], ts[i].0, ts[i].1, ss[i + 1]);
  }

  /** Only release is left. */
  ghost predicate Ending(th: Thread) {
    Target(th.pc) == Idle && th.todo == []
  }

  lemma EndingStep(s: State, t: Tid, ch: Choice, s': State)
    requires Next(s, t, ch, s') && Ending(s.threads[t]) && !Finished(s.threads[t])
    ensures Ending(s'.threads[t]) && s'.g == s.g
  {
  }

  // ----- addChild -----

  /** `t` is in this addChild and has not taken effect yet. */
  ghost predicate Adding(th: Thread, p: Addr, name: string, ino: Ino, dir: bool) {
    th.todo == [] &&
    match Target(th.pc)
    case AddLocked(q, m, i, d, _) => q == p && m == name && i == ino && d == dir
    case AddRead(q, m, i, d, _) => q == p && m == name && i == ino && d == dir
    case AddFresh(q, m, i, d, _) => q == p && m == name && i == ino && d == dir
    case _ => false
  }

  lemma AddingStep(s: State, t: Tid, ch: Choice, s': State, p: Addr, name: string, ino: Ino, dir: bool)
    requires Inv(s) && Next(s, t, ch, s') && s'.crash.None? && Adding(s.threads[t], p, name, ino, dir)
    ensures (Adding(s'.threads[t], p, name, ino, dir) && s'.g == s.g)
            || (Ending(s'.threads[t]) && Added(s.g, s'.g, p, name, ino))
  {
    hide Added, AddStep, RefSection, CutSection, RmSection, MvSection, Sorted, Exclusive, DroppedOk, WellFormed;
    var th := s.threads[t];
    assert ThreadOk(s.g, s.dropped, th);
    if th.want == [] && (th.pc.AddRead? || th.pc.AddFresh?) {
      AddSectionExact(s, t, ch, s');
    }
  }

  /** The first step only enters the call, with the arguments it was given. */
  lemma {:induction false} Begins(ss: seq<State>, ts: seq<(Tid, Choice)>, t: Tid, call: Call)
    requires Called(ss, ts, t, call)
    ensures t in ss[1].threads && ss[1].g == ss[0].g
    ensures match call
            case AddChild(p, name, ino, dir) => Adding(ss[1].threads[t], p, name, ino, dir)
            case RemoveRef(n, k) => Subtracting(ss[1].threads[t], n, k)
            case RmChild(p, name) => Removing(ss[1].threads[t], p, name)
            case MvChild(p, name, np, nname, overwrite) => Moving(ss[1].threads[t], p, name, np, nname, overwrite)
            case _ => true
  {
    CalledAt(ss, ts, t, call, 0);
    assert ts[0].1 == Begin(call) && Finished(ss[0].threads[t]);
    hide Called;
    BeginsAt(ss[0], t, call, ss[1]);
  }

  /** Step `k` is `t`'s and adds the entry; no other step of `t` changes anything. */
  ghost predicate AddsOnlyAt(ss: seq<State>, ts: seq<(Tid, Choice)>, t: Tid, k: int, p: Addr, name: string, ino: Ino) {
    && |ss| == |ts| + 1 && 1 <= k < |ts| && ts[k].0 == t && Added(ss[k].g, ss[k + 1].g, p, name, ino)
    && forall m :: 0 <= m < |ts| && ts[m].0 == t && m != k ==> ss[m + 1].g == ss[m].g
  }

  lemma BeginsAt(s: State, t: Tid, call: Call, s': State)
    requires Inv(s) && Next(s, t, Begin(call), s') && Finished(s.threads[t]) && s'.crash.None?
    ensures t in s'.threads && s'.g == s.g
    ensures match call
            case AddChild(p, name, ino, dir) => Adding(s'.threads[t], p, name, ino, dir)
            case RemoveRef(n, k) => Subtracting(s'.threads[t], n, k)
            case RmChild(p, name) => Removing(s'.threads[t], p, name)
            case MvChild(p, name, np, nname, overwrite) => Moving(s'.threads[t], p, name, np, nname, overwrite)
            case _ => true
  {
    BeginSection(s, t, call, s');
    hide Next, Inv, BeginCall, Adding, Subtracting, Removing, Moving;
    BeginArguments(s, s.threads[t], call);
  }

  lemma BeginSection(s: State, t: Tid, call: Call, s': State)
    requires Inv(s) && Next(s, t, Begin(call), s') && Finished(s.threads[t]) && s'.crash.None?
    ensures var o := BeginCall(s, s.threads[t], call);
            o.Some? && o.value.crash.None? && t in s'.threads && s'.threads[t] == o.value.th && s'.g == o.value.g
  {
    assert ThreadOk(s.g, s.dropped, s.threads[t]);
    hide Sorted, WellFormed, Inv, ThreadOk, BeginCall;
    IdleShape(s.g, s.dropped, s.threads[t]);
  }

  lemma BeginArguments(s: State, th: Thread, call: Call)
    requires th.todo == [] && BeginCall(s, th, call).Some? && BeginCall(s, th, call).value.crash.None?
    ensures var e := BeginCall(s, th, call).value;
            && e.g == s.g
            && match call
               case AddChild(p, name, ino, dir) => Adding(e.th, p, name, ino, dir)
               case RemoveRef(n, k) => Subtracting(e.th, n, k)
               case RmChild(p, name) => Removing(e.th, p, name)
               case MvChild(p, name, np, nname, overwrite) => Moving(e.th, p, name, np, nname, overwrite)
               case _ => true
  {
    hide Sorted, Group;
  }

  /**
    A finished addChild took effect in exactly one of its steps and changed nothing in the
    others, whatever other threads did meanwhile.
   */
  lemma {:induction false} AddChildTakesEffect(ss: seq<State>, ts: seq<(Tid, Choice)>, t: Tid, p: Addr, name: string,
                                               ino: Ino, dir: bool)
    requires Called(ss, ts, t, AddChild(p, name, ino, dir)) && t in ss[|ts|].threads && Finished(ss[|ts|].threads[t])
    ensures exists k :: AddsOnlyAt(ss, ts, t, k, p, name, ino)
  {
    hide Called, Added, Inv, Next;
    var call := AddChild(p, name, ino, dir);
    var before: Thread -> bool := th => Adding(th, p, name, ino, dir);
    var after: Thread -> bool := th => Ending(th);
    var effect: (Graph, Graph) -> bool := (g, h) => Added(g, h, p, name, ino);
    var rest: (Graph, Graph) -> bool := (g, h) => h == g;
    CalledLength(ss, ts, t, call);
    forall i | 0 <= i <= |ts| ensures t in ss[i].threads {
      CalledKeeps(ss, ts, t, call, i);
    }
    var thr, gs, mine := Records(ss, t), Graphs(ss), Mine(ts, t);
    Begins(ss, ts, t, call);
    forall i | 1 <= i < |ts|
      ensures Moves(thr[i], thr[i + 1], gs[i], gs[i + 1], mine[i], before, after, effect, rest)
    {
      CalledAt(ss, ts, t, call, i);
      if ts[i].0 == t {
        if Adding(thr[i], p, name, ino, dir) {
          AddingStep(ss[i], t, ts[i].1, ss[i + 1], p, name, ino, dir);
        }
        if Ending(thr[i]) {
          EndingStep(ss[i], t, ts[i].1, ss[i + 1]);
        }
      }
    }
    Once(thr, gs, mine, before, after, effect, rest, |ts|);
    var k :| TakesEffect(gs, mine, |ts|, k, effect, rest);
    assert AddsOnlyAt(ss, ts, t, k, p, name, ino);
  }

  // ----- removeRef -----

  ghost predicate Subtracting(th: Thread, n: Addr, k: nat) {
    th.todo == [] && Target(th.pc) == RefLocked(n, k)
  }

  /** What follows the decrement only ever subtracts nothing. */
  ghost predicate Sweeping(th: Thread) {
    match Target(th.pc)
    case Idle => true
    case RefLocked(_, k) => k == 0
    case RefDrop(_) => true
    case RefDelete(_) => true
    case RefSnap(_) => true
    case RefCut(_, _, _) => true
    case _ => false
  }

  ghost predicate SameLookups(g: Graph, h: Graph) {
    h.nodes.Keys == g.nodes.Keys && forall n :: n in g.nodes ==> h.nodes[n].lookups == g.nodes[n].lookups
  }

  lemma SubtractingStep(s: State, t: Tid, ch: Choice, s': State, n: Addr, k: nat)
    requires Next(s, t, ch, s') && s'.crash.None? && Subtracting(s.threads[t], n, k)
    ensures (Subtracting(s'.threads[t], n, k) && s'.g == s.g)
            || (Sweeping(s'.threads[t]) && Subtracted(s.g, s'.g, n, k))
  {
    hide Subtracted, AddSection, FreshSection, CutSection, RmSection, MvSection, RefSection, Sorted, WellFormed;
    if s.threads[t].want == [] && s.threads[t].pc.RefLocked? {
      RefSectionExact(s, t, ch, s');
    }
  }

  lemma SweepingStep(s: State, t: Tid, ch: Choice, s': State)
    requires Next(s, t, ch, s') && s'.crash.None? && Sweeping(s.threads[t]) && !Finished(s.threads[t])
    ensures Sweeping(s'.threads[t]) && SameLookups(s.g, s'.g)
  {
    hide Subtracted, AddSection, FreshSection, RmSection, MvSection, RefSection, CutSection, Group, Sorted, NoDup;
    var th := s.threads[t];
    if th.want == [] && th.pc.RefLocked? {
      RefSectionExact(s, t, ch, s');
      SubtractedNothing(s.g, s'.g, th.pc.n);
    } else if th.want == [] && th.pc.RefCut? {
      CutLookups(s, t, ch, s');
    } else if th.want == [] && th.pc.RefDelete? {
      RefDeleteExact(s, t, ch, s');
    }
  }

  lemma CutLookups(s: State, t: Tid, ch: Choice, s': State)
    requires Next(s, t, ch, s') && s'.crash.None? && s.threads[t].want == [] && s.threads[t].pc.RefCut?
    ensures Sweeping(s'.threads[t]) && SameLookups(s.g, s'.g)
  {
    hide AddSection, FreshSection, RmSection, MvSection, RefSection, Sorted, NoDup, CutEdges;
    var RefCut(n, _, pes) := s.threads[t].pc;
    assert n in Group(s.threads[t].pc);
    forall x | x in pes ensures x.node in s.g.nodes {
      assert x.node in Group(s.threads[t].pc);
    }
    CutCounts(s.g, n, pes);
  }

  lemma SubtractedNothing(g: Graph, h: Graph, n: Addr)
    requires Subtracted(g, h, n, 0)
    ensures SameLookups(g, h)
  {
  }

  /** Step `i` is `t`'s and subtracts; `t` changed nothing before it, and no count after it. */
  ghost predicate SubtractsOnlyAt(ss: seq<State>, ts: seq<(Tid, Choice)>, t: Tid, i: int, n: Addr, k: nat) {
    && |ss| == |ts| + 1 && 1 <= i < |ts| && ts[i].0 == t && Subtracted(ss[i].g, ss[i + 1].g, n, k)
    && (forall m :: 0 <= m < i && ts[m].0 == t ==> ss[m + 1].g == ss[m].g)
    && (forall m :: i < m < |ts| && ts[m].0 == t ==> SameLookups(ss[m].g, ss[m + 1].g))
  }

  /**
    A finished removeRef subtracted its count from its inode in exactly one of its steps;
    before it changed nothing, and afterwards no lookup count.
   */
  lemma {:induction false} RemoveRefTakesEffect(ss: seq<State>, ts: seq<(Tid, Choice)>, t: Tid, n: Addr, k: nat)
    requires Called(ss, ts, t, RemoveRef(n, k)) && t in ss[|ts|].threads && Finished(ss[|ts|].threads[t])
    ensures exists i :: SubtractsOnlyAt(ss, ts, t, i, n, k)
  {
    hide Called, Subtracted, SameLookups, Inv, Next;
    var call := RemoveRef(n, k);
    var before: Thread -> bool := th => Subtracting(th, n, k);
    var after: Thread -> bool := th => Sweeping(th);
    var effect: (Graph, Graph) -> bool := (g, h) => Subtracted(g, h, n, k);
    var rest: (Graph, Graph) -> bool := (g, h) => SameLookups(g, h);
    CalledLength(ss, ts, t, call);
    forall i | 0 <= i <= |ts| ensures t in ss[i].threads {
      CalledKeeps(ss, ts, t, call, i);
    }
    var thr, gs, mine := Records(ss, t), Graphs(ss), Mine(ts, t);
    Begins(ss, ts, t, call);
    forall i | 1 <= i < |ts|
      ensures Moves(thr[i], thr[i + 1], gs[i], gs[i + 1], mine[i], before, after, effect, rest)
    {
      CalledAt(ss, ts, t, call, i);
      if ts[i].0 == t {
        if Subtracting(thr[i], n, k) {
          SubtractingStep(ss[i], t, ts[i].1, ss[i + 1], n, k);
        }
        if Sweeping(thr[i]) {
          SweepingStep(ss[i], t, ts[i].1, ss[i + 1]);
        }
      }
    }
    Once(thr, gs, mine, before, after, effect, rest, |ts|);
    var i :| TakesEffect(gs, mine, |ts|, i, effect, rest);
    assert SubtractsOnlyAt(ss, ts, t, i, n, k);
  }

  // ----- rmChild -----

  ghost predicate Removing(th: Thread, p: Addr, name: string) {
    th.todo == [] &&
    match Target(th.pc)
    case RmSnap(q, m) => q == p && m == name
    case RmCommit(q, m, _, _) => q == p && m == name
    case _ => false
  }

  /** The slot was empty and nothing happened, or it was emptied in both directions and nothing else happened. */
  ghost predicate SlotRemoved(g: Graph, h: Graph, p: Addr, name: string) {
    && p in g.nodes
    && if name in g.nodes[p].kids then
         var c := g.nodes[p].kids[name];
         && (forall d, s, x :: HasKid(h, d, s, x) <==> HasKid(g, d, s, x) && !(d == p && s == name))
         && (forall d, s, x :: HasEntry(h, x, s, d) <==> HasEntry(g, x, s, d) && !(x == c && s == name && d == p))
         && SameLookups(g, h) && h.reg == g.reg
       else h == g
  }

  lemma RemovingStep(s: State, t: Tid, ch: Choice, s': State, p: Addr, name: string)
    requires Inv(s) && Next(s, t, ch, s') && s'.crash.None? && Removing(s.threads[t], p, name)
    requires Recent(s.g, s.threads[t].pc)
    ensures || (Removing(s'.threads[t], p, name) && s'.g == s.g)
            || (Sweeping(s'.threads[t]) && SlotRemoved(s.g, s'.g, p, name))
  {
    var th := s.threads[t];
    hide Inv, Recent, Next, Removing;
    if th.want == [] && th.pc.RmCommit? {
      RemovingCommit(s, t, ch, s', p, name);
    } else {
      RemovingReads(s, t, ch, s', p, name);
    }
  }

  lemma RemovingReads(s: State, t: Tid, ch: Choice, s': State, p: Addr, name: string)
    requires Next(s, t, ch, s') && s'.crash.None? && Removing(s.threads[t], p, name)
    requires s.threads[t].want != [] || !s.threads[t].pc.RmCommit?
    ensures || (Removing(s'.threads[t], p, name) && s'.g == s.g)
            || (Sweeping(s'.threads[t]) && SlotRemoved(s.g, s'.g, p, name))
  {
    hide NoDup, Sorted, SlotRemoved, Group, AddSection, FreshSection, RefSection, CutSection, RmSection, MvSection;
    var th := s.threads[t];
    if th.want == [] && th.pc.RmSnap? {
      assert p in Group(th.pc) && Group(th.pc) <= s.g.nodes.Keys by {
        InGroup(s.g, p, name);
      }
      if name !in s.g.nodes[p].kids {
        SlotAbsent(s.g, p, name);
      }
    }
  }

  lemma InGroup(g: Graph, p: Addr, name: string)
    ensures p in Group(RmSnap(p, name))
  {
  }

  lemma RemovingCommit(s: State, t: Tid, ch: Choice, s': State, p: Addr, name: string)
    requires Inv(s) && Next(s, t, ch, s') && s'.crash.None? && Removing(s.threads[t], p, name)
    requires Recent(s.g, s.threads[t].pc) && s.threads[t].want == [] && s.threads[t].pc.RmCommit?
    ensures || (Removing(s'.threads[t], p, name) && s'.g == s.g)
            || (Sweeping(s'.threads[t]) && SlotRemoved(s.g, s'.g, p, name))
  {
    StepHasThread(s, t, ch, s');
    hide Inv, WellFormed, Recent, InodeGraph.Unlink, SlotRemoved, Next;
    var pc := s.threads[t].pc;
    RmCommitIsAtomic(s, t, ch, s');
    InvWellFormed(s);
    if Wrap(s.g.rev[p]) == Wrap(pc.rev) {
      SlotRemovedBy(s.g, p, name, pc.c);
      CommitSweeps(s, t, ch, s');
    } else {
      RetryKeepsTodo(s, t, ch, s');
    }
  }

  lemma RetryKeepsTodo(s: State, t: Tid, ch: Choice, s': State)
    requires Next(s, t, ch, s') && s.threads[t].want == [] && t in s'.threads
    requires s.threads[t].pc.RmCommit? || s.threads[t].pc.MvCommit?
    requires s'.threads[t].pc.Unlock? && (s'.threads[t].pc.next.RmSnap? || s'.threads[t].pc.next.MvSnap?)
    ensures s'.threads[t].todo == s.threads[t].todo
  {
    hide NoDup, Sorted, MvStep, InodeGraph.Unlink, AddSection, FreshSection, RefSection, CutSection;
    var pc := s.threads[t].pc;
    assert pc.p in Group(pc);
    assert pc.MvCommit? ==> pc.np in Group(pc);
  }

  lemma InvWellFormed(s: State)
    requires Inv(s)
    ensures WellFormed(s.g)
  {
  }

  lemma SlotAbsent(g: Graph, p: Addr, name: string)
    requires p in g.nodes && name !in g.nodes[p].kids
    ensures SlotRemoved(g, g, p, name)
  {
  }

  lemma SlotRemovedBy(g: Graph, p: Addr, name: string, c: Addr)
    requires WellFormed(g) && HasKid(g, p, name, c) && c in g.nodes
    ensures SlotRemoved(g, InodeGraph.Unlink(g, p, name, c), p, name)
  {
    hide InodeGraph.Unlink, NoDup;
    UnlinkEffect(g, InodeGraph.Unlink(g, p, name, c), p, name, c);
    UnlinkRecords(g, p, name, c);
  }

  lemma CommitSweeps(s: State, t: Tid, ch: Choice, s': State)
    requires Next(s, t, ch, s') && s'.crash.None? && s.threads[t].want == []
    requires match s.threads[t].pc
             case RmCommit(p, _, rev, _) => p in s.g.rev && Wrap(s.g.rev[p]) == Wrap(rev)
             case MvCommit(p, _, np, _, _, rev, nRev, _, _) =>
               p in s.g.rev && np in s.g.rev && Wrap(s.g.rev[p]) == Wrap(rev) && Wrap(s.g.rev[np]) == Wrap(nRev)
             case _ => false
    ensures Sweeping(s'.threads[t])
  {
    hide NoDup, Sorted, InodeGraph.Unlink, MvStep, AddSection, FreshSection, RefSection, CutSection;
    var pc := s.threads[t].pc;
    assert pc.p in Group(pc);
    assert pc.MvCommit? ==> pc.np in Group(pc);
  }

  /** Step `k` is `t`'s and empties the slot; `t` changed nothing before it, and no count after it. */
  ghost predicate RemovesOnlyAt(ss: seq<State>, ts: seq<(Tid, Choice)>, t: Tid, k: int, p: Addr, name: string) {
    && |ss| == |ts| + 1 && 1 <= k < |ts| && ts[k].0 == t && SlotRemoved(ss[k].g, ss[k + 1].g, p, name)
    && (forall m :: 0 <= m < k && ts[m].0 == t ==> ss[m + 1].g == ss[m].g)
    && (forall m :: k < m < |ts| && ts[m].0 == t ==> SameLookups(ss[m].g, ss[m + 1].g))
  }

  /**
    A finished rmChild that checked recent snapshots emptied its slot, or saw it empty, in
    exactly one of its steps, with whatever child the slot held at that moment.
   */
  lemma {:induction false} RmChildTakesEffect(ss: seq<State>, ts: seq<(Tid, Choice)>, t: Tid, p: Addr, name: string)
    requires Called(ss, ts, t, RmChild(p, name)) && t in ss[|ts|].threads && Finished(ss[|ts|].threads[t])
    requires RecentThroughout(ss, ts, t)
    ensures exists k :: RemovesOnlyAt(ss, ts, t, k, p, name)
  {
    hide Called, SlotRemoved, SameLookups, Inv, Next, Recent;
    var call := RmChild(p, name);
    var before: Thread -> bool := th => Removing(th, p, name);
    var after: Thread -> bool := th => Sweeping(th);
    var effect: (Graph, Graph) -> bool := (g, h) => SlotRemoved(g, h, p, name);
    var rest: (Graph, Graph) -> bool := (g, h) => SameLookups(g, h);
    CalledLength(ss, ts, t, call);
    forall i | 0 <= i <= |ts| ensures t in ss[i].threads {
      CalledKeeps(ss, ts, t, call, i);
    }
    var thr, gs, mine := Records(ss, t), Graphs(ss), Mine(ts, t);
    Begins(ss, ts, t, call);
    forall i | 1 <= i < |ts|
      ensures Moves(thr[i], thr[i + 1], gs[i], gs[i + 1], mine[i], before, after, effect, rest)
    {
      CalledAt(ss, ts, t, call, i);
      if ts[i].0 == t {
        if Removing(thr[i], p, name) {
          RemovingStep(ss[i], t, ts[i].1, ss[i + 1], p, name);
        }
        if Sweeping(thr[i]) {
          SweepingStep(ss[i], t, ts[i].1, ss[i + 1]);
        }
      }
    }
    Once(thr, gs, mine, before, after, effect, rest, |ts|);
    var k :| TakesEffect(gs, mine, |ts|, k, effect, rest);
    assert RemovesOnlyAt(ss, ts, t, k, p, name);
  }

  /** Whenever `t` checks a snapshot, the snapshot is recent. */
  ghost predicate RecentThroughout(ss: seq<State>, ts: seq<(Tid, Choice)>, t: Tid) {
    && |ss| == |ts| + 1
    && forall i :: 0 <= i < |ts| && ts[i].0 == t ==> t in ss[i].threads && Recent(ss[i].g, ss[i].threads[t].pc)
  }

  // ----- mvChild -----

  ghost predicate Moving(th: Thread, p: Addr, name: string, np: Addr, nname: string, overwrite: bool) {
    th.todo == [] &&
    match Target(th.pc)
    case MvSnap(q, m, nq, nm, o) => q == p && m == name && nq == np && nm == nname && o == overwrite
    case MvCommit(q, m, nq, nm, o, _, _, _, dest) =>
      q == p && m == name && nq == np && nm == nname && o == overwrite && (dest.Some? ==> overwrite)
    case _ => false
  }

  /** The target was taken and could not be overwritten, or one edge moved and replaced it. */
  ghost predicate RenamedOrRefused(g: Graph, h: Graph, p: Addr, name: string, np: Addr, nname: string,
                                   overwrite: bool)
  {
    && p in g.nodes && np in g.nodes
    && if nname in g.nodes[np].kids && !overwrite then h == g
       else Moved(g, h, p, name, np, nname) && SameLookups(g, h) && h.reg == g.reg
  }

  lemma MovingStep(s: State, t: Tid, ch: Choice, s': State, p: Addr, name: string, np: Addr, nname: string,
                   overwrite: bool)
    requires Inv(s) && Next(s, t, ch, s') && s'.crash.None? && Moving(s.threads[t], p, name, np, nname, overwrite)
    requires Recent(s.g, s.threads[t].pc)
    ensures || (Moving(s'.threads[t], p, name, np, nname, overwrite) && s'.g == s.g)
            || (Sweeping(s'.threads[t]) && RenamedOrRefused(s.g, s'.g, p, name, np, nname, overwrite))
  {
    var th := s.threads[t];
    if th.want == [] && th.pc.MvCommit? {
      MovingCommit(s, t, ch, s', p, name, np, nname, overwrite);
    } else {
      hide Inv, Recent, Next, Moving;
      MovingReads(s, t, ch, s', p, name, np, nname, overwrite);
    }
  }

  /** Up to its commit a rename only locks, reads and releases. */
  lemma MovingReads(s: State, t: Tid, ch: Choice, s': State, p: Addr, name: string, np: Addr, nname: string,
                    overwrite: bool)
    requires Next(s, t, ch, s') && s'.crash.None? && Moving(s.threads[t], p, name, np, nname, overwrite)
    requires s.threads[t].want != [] || !s.threads[t].pc.MvCommit?
    ensures || (Moving(s'.threads[t], p, name, np, nname, overwrite) && s'.g == s.g)
            || (Sweeping(s'.threads[t]) && RenamedOrRefused(s.g, s'.g, p, name, np, nname, overwrite))
  {
    hide WellFormed, Sorted, RenamedOrRefused, Group, AddSection, FreshSection, RefSection, CutSection, RmSection,
      MvSection;
    hide Sweeping;
    var th := s.threads[t];
    assert Ending(s'.threads[t]) ==> Sweeping(s'.threads[t]) by {
      EndingSweeps(s'.threads[t]);
    }
    if th.want == [] && th.pc.MvSnap? {
      SnapGroup(s.g, p, name, np, nname, overwrite);
      if nname in s.g.nodes[np].kids && !overwrite {
        Refused(s.g, p, name, np, nname);
      }
    }
  }

  lemma EndingSweeps(th: Thread)
    ensures Ending(th) ==> Sweeping(th)
  {
  }

  lemma SnapGroup(g: Graph, p: Addr, name: string, np: Addr, nname: string, overwrite: bool)
    requires PcKnown(g, MvSnap(p, name, np, nname, overwrite))
    ensures p in g.nodes && np in g.nodes
  {
    assert p in Group(MvSnap(p, name, np, nname, overwrite)) && np in Group(MvSnap(p, name, np, nname, overwrite));
  }

  lemma Refused(g: Graph, p: Addr, name: string, np: Addr, nname: string)
    requires p in g.nodes && np in g.nodes && nname in g.nodes[np].kids
    ensures RenamedOrRefused(g, g, p, name, np, nname, false)
  {
  }

  lemma MovingCommit(s: State, t: Tid, ch: Choice, s': State, p: Addr, name: string, np: Addr, nname: string,
                     overwrite: bool)
    requires Inv(s) && Next(s, t, ch, s') && s'.crash.None? && Moving(s.threads[t], p, name, np, nname, overwrite)
    requires Recent(s.g, s.threads[t].pc) && s.threads[t].want == [] && s.threads[t].pc.MvCommit?
    ensures || (Moving(s'.threads[t], p, name, np, nname, overwrite) && s'.g == s.g)
            || (Sweeping(s'.threads[t]) && RenamedOrRefused(s.g, s'.g, p, name, np, nname, overwrite))
  {
    StepHasThread(s, t, ch, s');
    var pc := s.threads[t].pc;
    hide Inv, WellFormed, Recent, MvStep, RenamedOrRefused, Next, Sweeping;
    MvCommitIsAtomic(s, t, ch, s');
    if Wrap(s.g.rev[p]) == Wrap(pc.rev) && Wrap(s.g.rev[np]) == Wrap(pc.nRev) {
      MovingTakes(s, t, ch, s', p, name, np, nname, overwrite);
      CommitSweeps(s, t, ch, s');
    } else {
      RetryKeepsTodo(s, t, ch, s');
    }
  }

  lemma MovingTakes(s: State, t: Tid, ch: Choice, s': State, p: Addr, name: string, np: Addr, nname: string,
                    overwrite: bool)
    requires Inv(s) && Next(s, t, ch, s') && s'.crash.None? && s.threads[t].want == [] && s.threads[t].pc.MvCommit?
    requires Recent(s.g, s.threads[t].pc) && p in s.g.rev && np in s.g.rev
    requires var pc := s.threads[t].pc;
             && pc == MvCommit(p, name, np, nname, overwrite, pc.rev, pc.nRev, pc.child, pc.dest)
             && (pc.dest.Some? ==> overwrite)
             && Wrap(s.g.rev[p]) == Wrap(pc.rev) && Wrap(s.g.rev[np]) == Wrap(pc.nRev)
    ensures RenamedOrRefused(s.g, s'.g, p, name, np, nname, overwrite)
  {
    StepHasThread(s, t, ch, s');
    hide Inv, WellFormed, Recent, MvStep, RenamedOrRefused, Next;
    MvCommitIsAtomic(s, t, ch, s');
    InvWellFormed(s);
    MovesIntoDirectory(s, t, ch, s');
    RenamedBy(s.g, p, name, np, nname, overwrite);
  }

  /** Moving a child into something that is no directory panics. */
  lemma MovesIntoDirectory(s: State, t: Tid, ch: Choice, s': State)
    requires Next(s, t, ch, s') && s'.crash.None? && s.threads[t].want == []
    requires match s.threads[t].pc
             case MvCommit(p, _, np, _, _, rev, nRev, _, _) =>
               p in s.g.rev && np in s.g.rev && Wrap(s.g.rev[p]) == Wrap(rev) && Wrap(s.g.rev[np]) == Wrap(nRev)
             case _ => false
    ensures s.threads[t].pc.np in s.g.nodes && (s.threads[t].pc.child.Some? ==> s.g.nodes[s.threads[t].pc.np].dir)
  {
    hide NoDup, Sorted, MvStep, AddSection, FreshSection, RefSection, CutSection, RmSection;
    var pc := s.threads[t].pc;
    assert pc.p in Group(pc) && pc.np in Group(pc);
  }

  lemma RenamedBy(g: Graph, p: Addr, name: string, np: Addr, nname: string, overwrite: bool)
    requires WellFormed(g) && p in g.nodes && np in g.nodes && (name in g.nodes[p].kids ==> g.nodes[np].dir)
    requires name in g.nodes[p].kids ==> g.nodes[p].kids[name] in g.nodes
    requires nname in g.nodes[np].kids ==> g.nodes[np].kids[nname] in g.nodes && overwrite
    ensures RenamedOrRefused(g, MvStep(g, p, name, np, nname, Get(g.nodes[p].kids, name), Get(g.nodes[np].kids, nname)),
                    p, name, np, nname, overwrite)
  {
    hide MvStep, NoDup, Moved;
    var child, dest := Get(g.nodes[p].kids, name), Get(g.nodes[np].kids, nname);
    MvEffect(g, MvStep(g, p, name, np, nname, child, dest), p, name, np, nname);
    MvCountsKids(g, p, name, np, nname, child, dest);
  }

  /** Step `k` is `t`'s and renames or refuses; `t` changed nothing before it, and no count after it. */
  ghost predicate RenamesOnlyAt(ss: seq<State>, ts: seq<(Tid, Choice)>, t: Tid, k: int,
                                p: Addr, name: string, np: Addr, nname: string, overwrite: bool)
  {
    && |ss| == |ts| + 1 && 1 <= k < |ts| && ts[k].0 == t
    && RenamedOrRefused(ss[k].g, ss[k + 1].g, p, name, np, nname, overwrite)
    && (forall m :: 0 <= m < k && ts[m].0 == t ==> ss[m + 1].g == ss[m].g)
    && (forall m :: k < m < |ts| && ts[m].0 == t ==> SameLookups(ss[m].g, ss[m + 1].g))
  }

  /** A finished mvChild that checked recent snapshots renamed, or was refused, in exactly one of its steps. */
  lemma {:induction false} MvChildTakesEffect(ss: seq<State>, ts: seq<(Tid, Choice)>, t: Tid,
                           p: Addr, name: string, np: Addr, nname: string, overwrite: bool)
    requires Called(ss, ts, t, MvChild(p, name, np, nname, overwrite))
    requires t in ss[|ts|].threads && Finished(ss[|ts|].threads[t]) && RecentThroughout(ss, ts, t)
    ensures exists k :: RenamesOnlyAt(ss, ts, t, k, p, name, np, nname, overwrite)
  {
    hide Called, RenamedOrRefused, SameLookups, Inv, Next, Recent;
    var call := MvChild(p, name, np, nname, overwrite);
    var before: Thread -> bool := th => Moving(th, p, name, np, nname, overwrite);
    var after: Thread -> bool := th => Sweeping(th);
    var effect: (Graph, Graph) -> bool := (g, h) => RenamedOrRefused(g, h, p, name, np, nname, overwrite);
    var rest: (Graph, Graph) -> bool := (g, h) => SameLookups(g, h);
    CalledLength(ss, ts, t, call);
    forall i | 0 <= i <= |ts| ensures t in ss[i].threads {
      CalledKeeps(ss, ts, t, call, i);
    }
    var thr, gs, mine := Records(ss, t), Graphs(ss), Mine(ts, t);
    Begins(ss, ts, t, call);
    forall i | 1 <= i < |ts|
      ensures Moves(thr[i], thr[i + 1], gs[i], gs[i + 1], mine[i], before, after, effect, rest)
    {
      CalledAt(ss, ts, t, call, i);
      if ts[i].0 == t {
        if Moving(thr[i], p, name, np, nname, overwrite) {
          MovingStep(ss[i], t, ts[i].1, ss[i + 1], p, name, np, nname, overwrite);
        }
        if Sweeping(thr[i]) {
          SweepingStep(ss[i], t, ts[i].1, ss[i + 1]);
        }
      }
    }
    Once(thr, gs, mine, before, after, effect, rest, |ts|);
    var k :| TakesEffect(gs, mine, |ts|, k, effect, rest);
    assert RenamesOnlyAt(ss, ts, t, k, p, name, np, nname, overwrite);
  }
}
