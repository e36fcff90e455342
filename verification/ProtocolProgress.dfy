/**
  Deadlock freedom.  Locks are ranked: directory-entry mutexes, then inodes by
  address, then the bridge mutex.  A waiting thread holds only locks ranked below the
  one it waits for, so following holders upwards ends at a thread that can step.
 */
module ProtocolProgress {
  import opened Types
  import opened Recency
  import opened InodeGraph
  import opened LockOrder
  import opened Protocol
  import opened ProtocolSafety

  datatype Lock = EntryLock(f: nat) | NodeLock(a: Addr) | MuLock

  /** The thread is in the middle of an operation. */
  predicate Unfinished(th: Thread) {
    !th.pc.Idle? || th.todo != [] || th.entry.Some?
  }

  predicate Holds(th: Thread, l: Lock) {
    match l
    case EntryLock(f) => th.entry == Some(f)
    case NodeLock(a) => a in th.held
    case MuLock => th.mu
  }

  /** The lock a thread asks for next. */
  function Waits(th: Thread): Option<Lock> {
    if th.want != [] then Some(NodeLock(th.want[0]))
    else match th.pc
         case EnterDir(f) => Some(EntryLock(f))
         case MuPeek => Some(MuLock)
         case AddLocked(_, _, _, _, _) => Some(MuLock)
         case RefDrop(_) => Some(MuLock)
         case _ => None
  }

  ghost predicate Held(s: State, l: Lock) {
    exists t :: t in s.threads && Holds(s.threads[t], l)
  }

  ghost predicate CanStep(s: State, t: Tid) {
    && WellFormed(s.g) && t in s.threads && PcKnown(s.g, s.threads[t].pc)
    && exists ch :: Step(s, t, ch).Some?
  }

  /** Directory entries below inodes, inodes by address, the bridge mutex on top. */
  function Rank(l: Lock, top: nat): nat {
    match l
    case EntryLock(_) => 0
    case NodeLock(a) => a + 1
    case MuLock => top + 1
  }

  ghost predicate Bound(s: State, top: nat) {
    forall t, a :: t in s.threads && (a in s.threads[t].held || a in s.threads[t].want) ==> a < top
  }

  /** A waiting thread holds only locks ranked below the one it waits for. */
  lemma WaitsAbove(s: State, t: Tid, held: Lock, top: nat)
    requires Inv(s) && t in s.threads && Bound(s, top)
    requires Waits(s.threads[t]).Some? && Holds(s.threads[t], held) && !s.threads[t].pc.AddFresh?
    ensures Rank(held, top) < Rank(Waits(s.threads[t]).value, top)
  {
  }

  /** A new inode's lock is always free: nobody else knows the inode. */
  lemma FreshIsFree(s: State, t: Tid)
    requires Inv(s) && t in s.threads && s.threads[t].pc.AddFresh? && s.threads[t].want != []
    ensures FreeNode(s, s.threads[t].want[0])
  {
  }

  /** A thread whose next lock is free, or that needs none, can step. */
  lemma Unblocked(s: State, t: Tid)
    requires Inv(s) && s.crash.None? && t in s.threads && Unfinished(s.threads[t])
    requires Waits(s.threads[t]).Some? ==> !Held(s, Waits(s.threads[t]).value)
    ensures CanStep(s, t)
  {
    var th := s.threads[t];
    assert ThreadOk(s.g, s.dropped, th);
    if th.want != [] {
      assert FreeNode(s, th.want[0]) by {
        forall u | u in s.threads ensures th.want[0] !in s.threads[u].held {
          assert !Holds(s.threads[u], NodeLock(th.want[0]));
        }
      }
      assert Step(s, t, Go).Some?;
    } else {
      var ch := SectionCanRun(s, t);
      assert Step(s, t, ch) == Section(s, th, ch);
    }
  }

  lemma SectionCanRun(s: State, t: Tid) returns (ch: Choice)
    requires Inv(s) && s.crash.None? && t in s.threads && Unfinished(s.threads[t]) && s.threads[t].want == []
    requires Waits(s.threads[t]).Some? ==> !Held(s, Waits(s.threads[t]).value)
    ensures PcKnown(s.g, s.threads[t].pc) && Section(s, s.threads[t], ch).Some?
  {
    hide Exclusive, DroppedOk, SnapOk, FactOk, Link, InodeGraph.Unlink, MvStep, AddStep, DecStep, CutStep, Sorted;
    var th := s.threads[t];
    assert ThreadOk(s.g, s.dropped, th);
    if Waits(th) == Some(MuLock) {
      MuIsFree(s);
    }
    hide Inv, LockShape, Held;
    ch := Go;
    match th.pc
    case Idle =>
      if th.todo == [] {
        ch := Begin(LeaveDir);
      }
    case EnterDir(f) =>
      EntryIsFree(s, f);
    case AddRead(_, _, _, _, _) =>
      var a := FreshAddress(s.g.nodes.Keys);
      ch := Allocate(a);
    case RefSnap(n) =>
      assert n in Group(th.pc);
      ch := Order(s.g.nodes[n].parents);
    case Unlock(_) =>
      if x :| x in th.held {
        ch := Release(x);
      } else if th.mu {
        ch := ReleaseMu;
      }
    case _ =>
  }

  lemma MuIsFree(s: State)
    requires !Held(s, MuLock)
    ensures FreeMu(s)
  {
  }

  lemma EntryIsFree(s: State, f: nat)
    requires !Held(s, EntryLock(f))
    ensures FreeEntry(s, f)
  {
  }

  /** From a waiting thread, along holders, to an unfinished thread that can step. */
  lemma {:induction false} Unblock(s: State, t: Tid, top: nat) returns (u: Tid)
    requires Inv(s) && s.crash.None? && t in s.threads && Unfinished(s.threads[t]) && Bound(s, top)
    ensures u in s.threads && Unfinished(s.threads[u]) && CanStep(s, u)
    decreases if Waits(s.threads[t]).Some? then top + 2 - Rank(Waits(s.threads[t]).value, top) else 0
  {
    hide Inv, CanStep;
    var th := s.threads[t];
    u := t;
    if Waits(th).None? || !Held(s, Waits(th).value) {
      Unblocked(s, t);
    } else if th.pc.AddFresh? {
      FreshIsFree(s, t);
      NotHeld(s, th.want[0]);
      Unblocked(s, t);
    } else {
      var l := Waits(th).value;
      var v :| v in s.threads && Holds(s.threads[v], l);
      HolderUnfinished(s, v, l);
      if Waits(s.threads[v]).Some? {
        RankBound(s, v, top);
        if s.threads[v].pc.AddFresh? {
          FreshIsFree(s, v);
          NotHeld(s, s.threads[v].want[0]);
          Unblocked(s, v);
          u := v;
          return;
        }
        WaitsAbove(s, v, l, top);
      } else {
        RankBound(s, t, top);
      }
      u := Unblock(s, v, top);
    }
  }

  lemma NotHeld(s: State, a: Addr)
    requires FreeNode(s, a)
    ensures !Held(s, NodeLock(a))
  {
  }

  lemma HolderUnfinished(s: State, v: Tid, l: Lock)
    requires Inv(s) && v in s.threads && Holds(s.threads[v], l)
    ensures Unfinished(s.threads[v])
  {
  }

  lemma RankBound(s: State, t: Tid, top: nat)
    requires t in s.threads && Bound(s, top) && Waits(s.threads[t]).Some?
    ensures Rank(Waits(s.threads[t]).value, top) < top + 2
  {
    var w := s.threads[t].want;
    assert w != [] ==> w[0] in w;
  }

  lemma AddressBound(s: State) returns (top: nat)
    ensures Bound(s, top)
  {
    var all: set<Addr> := set t, a | t in s.threads && a in s.threads[t].held + SetOf(s.threads[t].want) :: a;
    top := FreshAddress(all);
    forall t, a | t in s.threads && (a in s.threads[t].held || a in s.threads[t].want) ensures a < top {
      assert a in s.threads[t].held + SetOf(s.threads[t].want);
      assert a in all;
    }
  }

  /** No deadlock: while some thread is unfinished, some unfinished thread can step. */
  lemma NoDeadlock(s: State, t: Tid)
    requires Inv(s) && s.crash.None? && t in s.threads && Unfinished(s.threads[t])
    ensures exists u :: u in s.threads && Unfinished(s.threads[u]) && CanStep(s, u)
  {
    var top := AddressBound(s);
    var u := Unblock(s, t, top);
  }

  /** The same, at the end of every run. */
  lemma {:induction false} RunNeverDeadlocks(ss: seq<State>, ts: seq<(Tid, Choice)>, t: Tid)
    requires Run(ss, ts) && ss[|ts|].crash.None?
    requires t in ss[|ts|].threads && Unfinished(ss[|ts|].threads[t])
    ensures exists u :: u in ss[|ts|].threads && Unfinished(ss[|ts|].threads[u]) && CanStep(ss[|ts|], u)
  {
    RunKeeps(ss, ts);
    NoDeadlock(ss[|ts|], t);
  }
}
