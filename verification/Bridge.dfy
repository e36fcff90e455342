/**
  The bridge and its inodes as objects that the operations update in place.
  `View()` is the graph they stand for; every method is specified on it.
 */
module Bridge {
  import opened Types
  import opened Recency
  import opened InodeGraph
  import opened Cascade
  import opened Coherence
  import opened Garbage
  import opened Outcomes

  /** `isDir` says that the children map was made; a file never gets one. */
  class Inode {
    ghost const addr: Addr
    const ino: Ino
    var isDir: bool
    var revision: nat
    var lookupCount: nat
    var children: map<string, Addr>
    const parents: InodeParents
    /** The modifications so far; `revision` is this number in 32 bits. */
    ghost var bumps: nat

    constructor (addr: Addr, ino: Ino, isDir: bool)
      ensures this.addr == addr == parents.home && this.ino == ino && this.isDir == isDir
      ensures revision == lookupCount == bumps == 0 && children == map[]
      ensures fresh(parents) && parents.Valid() && parents.recency == [] && parents.Before(1)
    {
      this.addr, this.ino, this.isDir := addr, ino, isDir;
      revision, lookupCount, bumps, children := 0, 0, 0, map[];
      parents := new InodeParents(addr);
    }

    ghost predicate Valid()
      reads this, parents
    {
      parents.Valid() && revision == Wrap(bumps) && lookupCount < WORD
    }

    ghost function View(): Node
      reads this, parents
    {
      Node(ino, lookupCount, isDir, children, parents.recency)
    }

    function Live(): bool
      reads this
    {
      lookupCount > 0 || |children| > 0
    }

    method Bump()
      requires Valid()
      modifies this`revision, this`bumps
      ensures Valid() && bumps == old(bumps) + 1
    {
      revision := Wrap(revision + 1);
      bumps := bumps + 1;
    }
  }

  /** The number go-fuse keeps for itself. */
  const RESERVED: Ino := 0xFFFF_FFFF_FFFF_FFFF

  class RawBridge {
    var root: Addr
    var nodes: map<Ino, Addr>
    var nodeCountHigh: nat
    /** Memory: the inode objects by address. */
    var mem: map<Addr, Inode>
    /** The time of the last reading of the clock. */
    var clock: nat

    /** The graph these objects stand for. */
    ghost var g: Graph

    /** NewPathFS: the root is number 1 and looked up once. */
    constructor (root: Addr)
      ensures Valid() && this.root == root && nodeCountHigh == 1
      ensures g == Graph(map[root := Node(1, 1, true, map[], [])], map[1 := root], map[root := 0])
      ensures fresh(Footprint())
    {
      var inode := new Inode(root, 1, true);
      inode.lookupCount := 1;
      this.root, nodes, nodeCountHigh, mem, clock := root, map[1 := root], 1, map[root := inode], 0;
      g := Graph(map[root := Node(1, 1, true, map[], [])], map[1 := root], map[root := 0]);
      new;
      hide InodeParents.Valid;
      assert Stands(root);
    }

    ghost function Footprint(): set<object>
      reads this`mem
    {
      (set a | a in mem :: mem[a] as object) + (set a | a in mem :: mem[a].parents as object)
    }

    ghost predicate Valid()
      reads this`mem, this`g, this`nodes, this`clock, Footprint()
    {
      && (forall a :: a in mem ==> mem[a].addr == a && mem[a].parents.home == a)
      && mem.Keys == g.nodes.Keys == g.rev.Keys
      && nodes == g.reg
      && (forall a :: a in mem ==> Stands(a))
    }

    /** The object at `a` is in order and stands for its record. */
    ghost predicate Stands(a: Addr)
      requires a in mem
      reads this`mem, this`g, this`clock, mem[a], mem[a].parents
    {
      && mem[a].Valid() && mem[a].parents.Before(clock + 1)
      && a in g.nodes && a in g.rev
      && mem[a].View() == g.nodes[a] && mem[a].bumps == g.rev[a]
    }

    /** What the invariant says about the object at `n`, and that it is no other's. */
    lemma Own(n: Addr)
      requires Valid() && n in mem
      ensures Stands(n) && mem[n].addr == n && mem[n].parents.home == n
      ensures forall a :: a in mem && a != n ==> mem[a] != mem[n] && mem[a].parents != mem[n].parents
    {
    }

    /** Only the object at `n` moved, and it stands for its new record. */
    twostate lemma Reframe(n: Addr)
      requires old(Valid()) && n in mem && mem == old(mem) && nodes == old(nodes) && old(clock) <= clock
      requires forall a :: a in mem && a != n ==> unchanged(mem[a]) && unchanged(mem[a].parents)
      requires g.reg == old(g.reg) && n in g.nodes && n in g.rev
      requires g.nodes == old(g.nodes)[n := g.nodes[n]] && g.rev == old(g.rev)[n := g.rev[n]]
      requires Stands(n)
      ensures Valid()
    {
      hide InodeParents.Valid;
      forall a | a in mem ensures Stands(a) {
        if a != n {
          StandsStill(a);
        }
      }
    }

    /** An object that did not move still stands for a record that did not change. */
    twostate lemma StandsStill(a: Addr)
      requires a in old(mem) && a in mem && mem[a] == old(mem[a]) && old(clock) <= clock
      requires unchanged(mem[a]) && unchanged(mem[a].parents)
      requires old(Stands(a)) && a in g.nodes && a in g.rev
      requires g.nodes[a] == old(g.nodes[a]) && g.rev[a] == old(g.rev[a])
      ensures Stands(a)
    {
      hide InodeParents.Valid;
    }

    /** The memory holds exactly the inodes of the graph, of the same kind. */
    lemma Known()
      requires Valid()
      ensures mem.Keys == g.nodes.Keys == g.rev.Keys && nodes == g.reg
      ensures forall a :: a in mem ==> mem[a].ino == g.nodes[a].ino && mem[a].isDir == g.nodes[a].dir
      ensures forall a :: a in mem ==>
                mem[a].lookupCount == g.nodes[a].lookups < WORD && mem[a].children == g.nodes[a].kids
      ensures forall a :: a in mem ==> mem[a].revision == Wrap(g.rev[a])
    {
    }

    // ----- single assignments, on the objects -----

    method BumpAt(n: Addr)
      requires Valid() && n in mem
      modifies this`g, mem[n]
      ensures Valid() && g == Bump(old(g), n)
    {
      hide RawBridge.Valid, InodeParents.Valid, MoveToFront, Remove;
      Own(n);
      mem[n].Bump();
      g := Bump(g, n);
      Reframe(n);
    }

    method LookupsAt(n: Addr, k: nat)
      requires Valid() && n in mem && k < WORD
      modifies this`g, mem[n]
      ensures Valid() && g == SetLookups(old(g), n, k)
    {
      hide RawBridge.Valid, InodeParents.Valid, MoveToFront, Remove;
      Own(n);
      mem[n].lookupCount := k;
      g := SetLookups(g, n, k);
      Reframe(n);
    }

    /** The fields a dump carries besides the parents. */
    method FieldsAt(n: Addr, revision: nat, lookups: nat, isDir: bool)
      requires Valid() && n in mem && revision < WORD && lookups < WORD
      modifies this`g, mem[n]
      ensures Valid() && n in old(g).nodes
      ensures g == old(g).(nodes := old(g).nodes[n := old(g).nodes[n].(lookups := lookups,
                                                                       dir := old(g).nodes[n].dir || isDir)],
                           rev := old(g).rev[n := revision])
    {
      hide RawBridge.Valid, InodeParents.Valid, MoveToFront, Remove;
      Own(n);
      mem[n].revision, mem[n].bumps := revision, revision;
      mem[n].lookupCount := lookups;
      if isDir && !mem[n].isDir {
        mem[n].isDir := true;
      }
      g := g.(nodes := g.nodes[n := g.nodes[n].(lookups := lookups, dir := g.nodes[n].dir || isDir)],
              rev := g.rev[n := revision]);
      Reframe(n);
    }

    /** A new lookup count, and one more modification. */
    method CountsTo(n: Addr, k: nat)
      requires Valid() && n in mem && k < WORD
      modifies this`g, mem[n]
      ensures Valid() && n in old(g).nodes && n in SetLookups(old(g), n, k).rev
      ensures g == Bump(SetLookups(old(g), n, k), n)
    {
      hide RawBridge.Valid, InodeParents.Valid;
      Known();
      LookupsAt(n, k);
      BumpAt(n);
    }

    method DelKidAt(d: Addr, s: string)
      requires Valid() && d in mem
      modifies this`g, mem[d]
      ensures Valid() && g == DelKid(old(g), d, s)
    {
      hide RawBridge.Valid, InodeParents.Valid, MoveToFront, Remove;
      Own(d);
      mem[d].children := mem[d].children - {s};
      g := DelKid(g, d, s);
      Reframe(d);
    }

    method SetKidAt(d: Addr, s: string, c: Addr)
      requires Valid() && d in mem && mem[d].isDir
      modifies this`g, mem[d]
      ensures Valid() && g == SetKid(old(g), d, s, c)
    {
      hide RawBridge.Valid, InodeParents.Valid, MoveToFront, Remove;
      Own(d);
      mem[d].children := mem[d].children[s := c];
      g := SetKid(g, d, s, c);
      Reframe(d);
    }

    method AddParentAt(c: Addr, e: Entry)
      requires Valid() && c in mem
      modifies this`g, this`clock, mem[c].parents
      ensures Valid() && g == AddParent(old(g), c, e)
    {
      hide RawBridge.Valid, InodeParents.Valid, MoveToFront, Remove;
      Own(c);
      clock := clock + 1;
      mem[c].parents.Add(e, clock);
      g := AddParent(g, c, e);
      Reframe(c);
    }

    method DelParentAt(c: Addr, e: Entry)
      requires Valid() && c in mem
      modifies this`g, mem[c].parents
      ensures Valid() && g == DelParent(old(g), c, e)
    {
      hide RawBridge.Valid, InodeParents.Valid, MoveToFront, Remove;
      Own(c);
      mem[c].parents.Delete(e);
      g := DelParent(g, c, e);
      Reframe(c);
    }

    method ClearParentsAt(n: Addr)
      requires Valid() && n in mem
      modifies this`g, mem[n].parents
      ensures Valid() && g == ClearParents(old(g), n)
    {
      hide RawBridge.Valid, InodeParents.Valid, MoveToFront, Remove;
      Own(n);
      mem[n].parents.Clear();
      g := ClearParents(g, n);
      Reframe(n);
    }

    /** Only the registry moved. */
    twostate lemma Reregistered()
      requires old(Valid()) && mem == old(mem) && clock == old(clock)
      requires forall a :: a in mem ==> unchanged(mem[a]) && unchanged(mem[a].parents)
      requires g.nodes == old(g.nodes) && g.rev == old(g.rev) && nodes == g.reg
      ensures Valid()
    {
      hide InodeParents.Valid;
      forall a | a in mem ensures Stands(a) {
        StandsStill(a);
      }
    }

    method EnterAt(i: Ino, n: Addr)
      requires Valid()
      modifies this`g, this`nodes
      ensures Valid() && g == Register(old(g), i, n)
    {
      hide RawBridge.Valid;
      Known();
      nodes := nodes[i := n];
      g := Register(g, i, n);
      Reregistered();
    }

    /** Registers an inode and keeps track of the largest registry seen. */
    method RegisterAt(i: Ino, n: Addr)
      requires Valid()
      modifies this`g, this`nodes, this`nodeCountHigh
      ensures Valid() && g == Register(old(g), i, n)
      ensures nodeCountHigh == if |nodes| > old(nodeCountHigh) then |nodes| else old(nodeCountHigh)
    {
      EnterAt(i, n);
      if |nodes| > nodeCountHigh {
        nodeCountHigh := |nodes|;
      }
    }

    method ClearRegistry()
      requires Valid()
      modifies this`g, this`nodes
      ensures Valid() && g == old(g).(reg := map[])
    {
      hide RawBridge.Valid;
      Known();
      nodes := map[];
      g := g.(reg := map[]);
      Reregistered();
    }

    method UnregisterAt(i: Ino)
      requires Valid()
      modifies this`g, this`nodes
      ensures Valid() && g == Unregister(old(g), i)
    {
      hide RawBridge.Valid;
      Known();
      nodes := nodes - {i};
      g := Unregister(g, i);
      Reregistered();
    }

    /** The memory grew by an object in order; no other object moved. */
    twostate lemma Grown(at: Addr, new inode: Inode)
      requires old(Valid()) && at !in old(mem) && mem == old(mem)[at := inode] && nodes == old(nodes)
               && clock == old(clock)
      requires forall a :: a in old(mem) ==> unchanged(old(mem[a])) && unchanged(old(mem[a].parents))
      requires inode.addr == at && inode.parents.home == at
      requires g.reg == old(g.reg) && at in g.nodes && at in g.rev
      requires g.nodes == old(g.nodes)[at := g.nodes[at]] && g.rev == old(g.rev)[at := g.rev[at]]
      requires Stands(at)
      ensures Valid()
    {
      hide InodeParents.Valid;
      forall a | a in mem ensures mem[a].addr == a && mem[a].parents.home == a && Stands(a) {
        if a != at {
          StandsStill(a);
        }
      }
    }

    /** A new inode object; the allocator returned the address `at`. */
    method NewInode(at: Addr, ino: Ino, isDir: bool)
      requires Valid() && at !in mem
      modifies this`g, this`mem
      ensures Valid() && g == NewNode(old(g), at, ino, isDir)
      ensures at in mem && fresh(mem[at]) && fresh(mem[at].parents)
      ensures mem == old(mem)[at := mem[at]]
    {
      hide RawBridge.Valid, InodeParents.Valid;
      var inode := new Inode(at, ino, isDir);
      mem := mem[at := inode];
      g := NewNode(g, at, ino, isDir);
      Grown(at, inode);
    }

    // ----- one edge, in both directions -----

    lemma UnlinkKinds(g: Graph, p: Addr, name: string, c: Addr)
      requires g.rev.Keys == g.nodes.Keys && p in g.nodes && c in g.nodes
      ensures var h := Unlink(g, p, name, c);
              && h.rev.Keys == h.nodes.Keys == g.nodes.Keys
              && (forall n :: n in g.nodes ==> h.nodes[n].dir == g.nodes[n].dir)
    {
    }

    method LinkEdge(p: Addr, name: string, c: Addr)
      requires Valid() && p in g.nodes && c in g.nodes && g.nodes[p].dir
      modifies this`g, this`clock, mem[p], mem[c], mem[c].parents
      ensures Valid() && g == Link(old(g), p, name, c)
    {
      hide RawBridge.Valid, MoveToFront;
      Known();
      SetKidAt(p, name, c);
      AddParentAt(c, Entry(name, p));
      BumpAt(p);
      BumpAt(c);
    }

    /** The edge alone; restoring counts no modification. */
    method EdgeAt(p: Addr, name: string, c: Addr)
      requires Valid() && p in g.nodes && c in g.nodes && g.nodes[p].dir
      modifies this`g, this`clock, Footprint()
      ensures Valid() && p in old(g).nodes && c in SetKid(old(g), p, name, c).nodes
      ensures g == AddParent(SetKid(old(g), p, name, c), c, Entry(name, p))
      ensures mem == old(mem) && root == old(root) && nodeCountHigh == old(nodeCountHigh)
    {
      hide RawBridge.Valid, MoveToFront;
      Known();
      SetKidAt(p, name, c);
      AddParentAt(c, Entry(name, p));
    }

    method UnlinkEdge(p: Addr, name: string, c: Addr)
      requires Valid() && p in g.nodes && c in g.nodes
      modifies this`g, mem[p], mem[c], mem[c].parents
      ensures Valid() && g == Unlink(old(g), p, name, c)
    {
      hide RawBridge.Valid, Remove;
      Known();
      DelKidAt(p, name);
      DelParentAt(c, Entry(name, p));
      BumpAt(p);
      BumpAt(c);
    }

    // ----- addChild, removeRef, rmChild, mvChild -----

    /** The registered inode of a number, or a new one that is not registered yet. */
    method FindOrMake(ino: Ino, isDir: bool, spare: Addr) returns (child: Addr)
      requires Valid() && spare !in g.nodes
      requires ino in g.reg ==> g.reg[ino] in g.nodes
      modifies this`g, this`mem
      ensures Valid() && child == ChildFor(old(g), ino, spare) && child in mem
      ensures g == if ino in old(g).reg then old(g) else NewNode(old(g), child, ino, isDir)
      ensures fresh(Footprint() - old(Footprint()))
      ensures mem[child] in Footprint() && mem[child].parents in Footprint()
    {
      hide RawBridge.Valid;
      Known();
      if ino in nodes {
        child := nodes[ino];
      } else {
        child := spare;
        NewInode(child, ino, isDir);
      }
    }

    lemma LookupIs(g: Graph, ino: Ino, isDir: bool, spare: Addr, m: Graph)
      requires g.rev.Keys == g.nodes.Keys && m.rev.Keys == m.nodes.Keys && (ino in g.reg ==> g.reg[ino] in g.nodes)
      requires m == if ino in g.reg then g else NewNode(g, spare, ino, isDir)
      ensures var c := ChildFor(g, ino, spare);
              && c in m.nodes && c in SetLookups(m, c, Wrap(m.nodes[c].lookups + 1)).rev
              && LookupStep(g, ino, isDir, spare) == Register(Bump(SetLookups(m, c, Wrap(m.nodes[c].lookups + 1)), c),
                                                              ino, c)
    {
    }

    /** addChild up to the registration: finds or makes the child and counts the lookup. */
    method CountLookup(ino: Ino, isDir: bool, spare: Addr) returns (child: Addr)
      requires Valid() && spare !in g.nodes
      requires ino in g.reg ==> g.reg[ino] in g.nodes
      modifies this`g, this`nodes, this`nodeCountHigh, this`mem, Footprint()
      ensures Valid() && g == LookupStep(old(g), ino, isDir, spare)
      ensures child == ChildFor(old(g), ino, spare)
      ensures nodeCountHigh == if |nodes| > old(nodeCountHigh) then |nodes| else old(nodeCountHigh)
      ensures fresh(Footprint() - old(Footprint()))
    {
      hide RawBridge.Valid, RawBridge.Footprint, LookupStep, NewNode, SetLookups, Bump, Register;
      Known();
      child := FindOrMake(ino, isDir, spare);
      Known();
      LookupIs(old(g), ino, isDir, spare, g);
      CountAt(child, ino);
    }

    /** One more lookup of the inode at `child`, which is registered if it was not. */
    method CountAt(child: Addr, ino: Ino)
      requires Valid() && child in mem && child in g.nodes
      modifies this`g, this`nodes, this`nodeCountHigh, mem[child]
      ensures Valid() && child in SetLookups(old(g), child, Wrap(old(g).nodes[child].lookups + 1)).rev
      ensures g == Register(Bump(SetLookups(old(g), child, Wrap(old(g).nodes[child].lookups + 1)), child), ino, child)
      ensures nodeCountHigh == if |nodes| > old(nodeCountHigh) then |nodes| else old(nodeCountHigh)
    {
      hide RawBridge.Valid, RawBridge.Footprint, Register, Bump, SetLookups;
      Known();
      CountsTo(child, Wrap(mem[child].lookupCount + 1));
      RegisterAt(ino, child);
    }

    /**
      One more lookup of the inode numbered `ino`, found as `name` in `parent`.  The
      source panics on a virtual name, on a reserved number and on a parent that is
      no directory.  `spare` is the address the allocator would return.
     */
    method AddChild(parent: Addr, name: string, ino: Ino, isDir: bool, spare: Addr) returns (child: Addr)
      requires Valid() && WellFormed(g) && parent in g.nodes && g.nodes[parent].dir && spare !in g.nodes
      requires name != "." && name != ".."
      requires ino in g.reg || ino != RESERVED
      modifies this`g, this`nodes, this`nodeCountHigh, this`clock, this`mem, Footprint()
      ensures Valid() && g == AddStep(old(g), parent, name, ino, isDir, spare)
      ensures NoGarbage(old(g)) ==> (NoGarbage(g) <==> AddFits(old(g), parent, ino))
      ensures child == ChildFor(old(g), ino, spare)
      ensures nodeCountHigh == if |nodes| > old(nodeCountHigh) then |nodes| else old(nodeCountHigh)
      ensures fresh(Footprint() - old(Footprint()))
    {
      hide RawBridge.Valid, Link, NoGarbage, AddFits;
      child := CountLookup(ino, isDir, spare);
      Known();
      LinkEdge(parent, name, child);
      if NoGarbage(old(g)) {
        AddNoGarbageExact(old(g), g, parent, name, ino, isDir, spare);
      }
    }

    /** Whether the inode at `n` is looked up or has children. */
    method IsLive(n: Addr) returns (live: bool)
      requires Valid() && n in g.nodes
      ensures live == Live(g, n)
    {
      Known();
      live := mem[n].Live();
    }

    /** Empties the listed slots that still lead to `n`. */
    method CutSlots(n: Addr, pes: seq<Entry>)
      requires Valid() && WellFormed(g) && forall e :: e in pes ==> e.node in g.nodes
      modifies this`g, Footprint()
      ensures Valid() && g == CutEdges(old(g), n, pes)
    {
      hide RawBridge.Valid, WellFormed, CutEdges;
      Known();
      var i := 0;
      while i < |pes|
        invariant 0 <= i <= |pes|
        invariant Valid() && g.nodes.Keys == g.rev.Keys == old(g.nodes.Keys)
        invariant CutEdges(g, n, pes[i..]) == CutEdges(old(g), n, pes)
      {
        CutSlot(n, pes[i..]);
        i := i + 1;
      }
      CutNothing(g, n);
    }

    lemma CutNothing(g: Graph, n: Addr)
      requires g.rev.Keys == g.nodes.Keys
      ensures CutEdges(g, n, []) == g
    {
    }

    /** Empties the first listed slot if it still leads to `n`. */
    method CutSlot(n: Addr, pes: seq<Entry>)
      requires Valid() && g.nodes.Keys == g.rev.Keys
      requires pes != [] && forall e :: e in pes ==> e.node in g.nodes
      modifies this`g, Footprint()
      ensures Valid() && g.nodes.Keys == g.rev.Keys == old(g.nodes.Keys)
      ensures CutEdges(g, n, pes[1..]) == CutEdges(old(g), n, pes)
    {
      hide RawBridge.Valid;
      Known();
      var e := pes[0];
      if e.name in mem[e.node].children && mem[e.node].children[e.name] == n {
        DelKidAt(e.node, e.name);
        BumpAt(e.node);
      }
    }

    /** The decrement of removeRef. */
    method Decrement(n: Addr, nlookup: nat)
      requires Valid() && n in g.nodes && g.nodes.Keys == g.rev.Keys && nlookup <= g.nodes[n].lookups
      modifies this`g, Footprint()
      ensures Valid() && g == DecStep(old(g), n, nlookup)
      ensures mem == old(mem) && nodes == old(nodes) && nodeCountHigh == old(nodeCountHigh)
    {
      hide RawBridge.Valid;
      Known();
      if nlookup > 0 {
        CountsTo(n, mem[n].lookupCount - nlookup);
      }
    }

    /** The group-locked section of removeRef. */
    method CutGroup(n: Addr, pes: seq<Entry>)
      requires Valid() && WellFormed(g) && n in g.nodes && forall e :: e in pes ==> e.node in g.nodes
      modifies this`g, Footprint()
      ensures Valid() && g == CutStep(old(g), n, pes)
    {
      hide RawBridge.Valid, WellFormed, CutEdges;
      CutSlots(n, pes);
      Known();
      ClearParentsAt(n);
      BumpAt(n);
    }

    /** All parents of `n`, in any order. */
    method ParentsOf(n: Addr) returns (pes: seq<Entry>)
      requires Valid() && n in g.nodes
      ensures forall e :: e in pes <==> e in g.nodes[n].parents
    {
      assert Stands(n);
      pes := mem[n].parents.All();
    }

    /** Takes a dead inode out of the registry and out of its directories. */
    method Detach(n: Addr) returns (pes: seq<Entry>)
      requires Valid() && WellFormed(g) && Forward(g) && n in g.nodes
      modifies this`g, this`nodes, Footprint()
      ensures Valid()
      ensures forall e :: e in pes <==> e in old(g.nodes[n].parents)
      ensures g.nodes == Collapse(old(g.nodes), {n}) && g.reg == old(g.reg) - {old(g.nodes[n].ino)}
      ensures Bumps(old(g), g) && g.rev.Keys == g.nodes.Keys
    {
      hide RawBridge.Valid, WellFormed, Forward, Collapse, CutStep, Bumps;
      pes := ParentsOf(n);
      Known();
      UnregisterAt(mem[n].ino);
      ghost var m := g;
      UnregisteredStill(old(g), m, n, pes);
      CutGroup(n, pes);
      CutStepCollapses(m, g, n, pes);
      BumpsTrans(old(g), m, g);
    }

    lemma UnregisteredStill(g: Graph, m: Graph, n: Addr, pes: seq<Entry>)
      requires WellFormed(g) && Forward(g) && n in g.nodes && m == Unregister(g, g.nodes[n].ino)
      requires forall e :: e in pes <==> e in g.nodes[n].parents
      ensures WellFormed(m) && Forward(m) && n in m.nodes && Bumps(g, m)
      ensures forall e :: e in pes ==> e.node in m.nodes
    {
      forall d, s, x ensures HasKid(m, d, s, x) <==> HasKid(g, d, s, x) {}
      forall d, s, x ensures HasEntry(m, x, s, d) <==> HasEntry(g, x, s, d) {}
      forall e | e in pes ensures e.node in m.nodes {
        assert HasEntry(g, n, e.name, e.node);
      }
    }

    /**
      Subtracts kernel lookups; an inode that is then dead leaves the registry and
      its directories, and each directory that may have died with it is visited in
      turn.  None is the underflow panic.
     */
    method RemoveRef(n: Addr, nlookup: nat) returns (r: Option<bool>)
      requires Valid() && WellFormed(g) && Forward(g) && n in g.nodes
      modifies this`g, this`nodes, Footprint()
      ensures Valid() && WellFormed(g) && Forward(g)
      ensures r.None? <==> nlookup > old(g.nodes[n].lookups)
      ensures r.None? ==> g == old(g)
      ensures r.Some? ==> RemovedBy(old(g), n, nlookup, g, r.value)
      ensures r.Some? && NoGarbageBut(old(g), {n}) ==> NoGarbage(g)
      ensures nodeCountHigh == old(nodeCountHigh)
      decreases WithParents(g.nodes), 3
    {
      hide RawBridge.Valid, RawBridge.Footprint, WellFormed, Forward, Collapse, Progress, Removal, DecStep, Bumps,
        WithParents, RemovedBy, NoGarbage;
      Known();
      if nlookup > mem[n].lookupCount {
        return None;
      }
      Decrement(n, nlookup);
      ghost var m := g;
      DecKeepsForward(old(g), n, nlookup, m);
      var removed, dead := RemoveUnlessLive(n);
      if removed {
        RemovedSome(old(g), n, nlookup, m, g, dead);
      } else {
        RemovedNothing(old(g), n, nlookup, g);
      }
      Collected(old(g), n, nlookup, g, removed);
      return Some(removed);
    }

    /** What removeRef does after the decrement. */
    method RemoveUnlessLive(n: Addr) returns (removed: bool, ghost dead: set<Addr>)
      requires Valid() && WellFormed(g) && Forward(g) && n in g.nodes
      modifies this`g, this`nodes, Footprint()
      ensures Valid() && WellFormed(g) && Forward(g)
      ensures removed <==> !Live(old(g), n)
      ensures if removed then Removal(old(g), n, g, dead) else g == old(g)
      ensures nodeCountHigh == old(nodeCountHigh)
      decreases WithParents(g.nodes), 2
    {
      hide RawBridge.Valid, WellFormed, Forward, Removal, WithParents;
      var live := IsLive(n);
      if live {
        return false, {};
      }
      dead := RemoveDead(n);
      removed := true;
    }

    lemma Collected(g: Graph, n: Addr, k: nat, h: Graph, removed: bool)
      requires WellFormed(g) && Forward(g) && n in g.nodes && k <= g.nodes[n].lookups && RemovedBy(g, n, k, h, removed)
      ensures NoGarbageBut(g, {n}) ==> NoGarbage(h)
    {
      hide WellFormed, Forward, RemovedBy;
      assert {n} == {} + {n};
      if NoGarbageBut(g, {n}) {
        RemovedByNoGarbage(g, n, k, h, removed, {});
      }
    }

    lemma RemovedNothing(g: Graph, n: Addr, k: nat, m: Graph)
      requires g.rev.Keys == g.nodes.Keys && n in g.nodes && k <= g.nodes[n].lookups
      requires m == DecStep(g, n, k) && n in m.nodes && Live(m, n)
      ensures RemovedBy(g, n, k, m, false)
    {
    }

    lemma RemovedSome(g: Graph, n: Addr, k: nat, m: Graph, h: Graph, dead: set<Addr>)
      requires g.rev.Keys == g.nodes.Keys && n in g.nodes && k <= g.nodes[n].lookups
      requires m == DecStep(g, n, k) && n in m.nodes && !Live(m, n) && Removal(m, n, h, dead)
      ensures RemovedBy(g, n, k, h, true)
    {
    }

    /** The part of removeRef that runs once nothing keeps `n`. */
    method RemoveDead(n: Addr) returns (ghost dead: set<Addr>)
      requires Valid() && WellFormed(g) && Forward(g) && n in g.nodes && !Live(g, n)
      modifies this`g, this`nodes, Footprint()
      ensures Valid() && WellFormed(g) && Forward(g)
      ensures Removal(old(g), n, g, dead)
      decreases WithParents(g.nodes), 1
    {
      hide RawBridge.Valid, WellFormed, Forward, Collapse, Progress, Removal, Bumps, WithParents;
      ghost var m := g;
      var pes := Detach(n);
      ProgressStart(m, n, g, pes);
      dead := VisitParents(n, pes, m);
    }

    /** The recursive visits at the end of removeRef. */
    method VisitParents(n: Addr, pes: seq<Entry>, ghost m: Graph) returns (ghost dead: set<Addr>)
      requires Valid() && Progress(m, n, {n}, pes, g)
      modifies this`g, this`nodes, Footprint()
      ensures Valid() && WellFormed(g) && Forward(g)
      ensures Removal(m, n, g, dead)
      decreases WithParents(m.nodes), 0
    {
      hide RawBridge.Valid, WellFormed, Forward, Progress, RemovedBy, Removal;
      dead := {n};
      var i := 0;
      while i < |pes|
        invariant 0 <= i <= |pes|
        invariant Valid() && Progress(m, n, dead, pes[i..], g)
      {
        ProgressWellFormed(m, n, dead, pes[i..], g);
        ghost var before := g;
        var removed := RemoveRef(pes[i].node, 0);
        dead := ProgressStep(m, n, dead, pes[i..], before, g, removed.value);
        i := i + 1;
      }
      assert pes[i..] == [];
      ProgressWellFormed(m, n, dead, [], g);
      ProgressDone(m, n, dead, g);
    }

    lemma DecKeepsForward(g: Graph, n: Addr, k: nat, m: Graph)
      requires WellFormed(g) && Forward(g) && n in g.nodes && k <= g.nodes[n].lookups && m == DecStep(g, n, k)
      ensures WellFormed(m) && Forward(m) && n in m.nodes && WithParents(m.nodes) == WithParents(g.nodes)
    {
      DecLowers(g, n, k);
      LoweredEdges(g, m, n);
    }

    /** Empties one slot; a directory that is then dead is removed. */
    method RmChild(parent: Addr, name: string) returns (done: bool)
      requires Valid() && WellFormed(g) && Forward(g) && parent in g.nodes
      modifies this`g, this`nodes, Footprint()
      ensures Valid() && WellFormed(g) && Forward(g)
      ensures RmChildRel(old(g), parent, name, g, done)
      ensures done <==> name in old(g.nodes[parent].kids)
      ensures !done ==> g == old(g)
      ensures done ==>
                var c := old(g.nodes[parent].kids[name]);
                && parent in g.nodes && name !in g.nodes[parent].kids && !HasEntry(g, c, name, parent)
                && c in old(g.nodes) && exists dead :: Emptied(old(g), parent, name, c, g, dead)
      ensures NoGarbage(old(g)) ==> NoGarbage(g)
    {
      hide RawBridge.Valid, WellFormed, Forward, Unlink, RemovedBy, NoGarbage, Emptied;
      Known();
      if name !in mem[parent].children {
        return false;
      }
      var child := mem[parent].children[name];
      SlotKnown(g, parent, name);
      UnlinkEdge(parent, name, child);
      UnlinkForward(old(g), g, parent, name, child);
      RemoveIfDead(parent);
      if NoGarbage(old(g)) {
        RmNoGarbage(old(g), parent, name, g, true);
      }
      RmChildOutcome(old(g), parent, name, g, true);
      SlotEmptied(old(g), parent, name, child, g);
      return true;
    }

    lemma SlotEmptied(g: Graph, p: Addr, name: string, c: Addr, h: Graph)
      requires g.rev.Keys == g.nodes.Keys && p in g.nodes && c in g.nodes
      requires exists dead :: Emptied(g, p, name, c, h, dead)
      ensures p in h.nodes && name !in h.nodes[p].kids && !HasEntry(h, c, name, p)
    {
      if p in h.nodes && name in h.nodes[p].kids {
        assert HasKid(h, p, name, h.nodes[p].kids[name]);
      }
    }

    /** `if !live { b.removeRef(n, 0) }` */
    method RemoveIfDead(n: Addr)
      requires Valid() && WellFormed(g) && Forward(g) && n in g.nodes
      modifies this`g, this`nodes, Footprint()
      ensures Valid() && WellFormed(g) && Forward(g) && g.nodes.Keys == old(g.nodes.Keys)
      ensures RemovedBy(old(g), n, 0, g, !Live(old(g), n))
    {
      hide RawBridge.Valid, WellFormed, Forward, Removal;
      var live := IsLive(n);
      if !live {
        var r := RemoveRef(n, 0);
        RemovedByForward(old(g), n, 0, g, r.value);
      }
    }

    lemma SlotKnown(g: Graph, p: Addr, name: string)
      requires WellFormed(g) && p in g.nodes && name in g.nodes[p].kids
      ensures g.nodes[p].kids[name] in g.nodes && HasKid(g, p, name, g.nodes[p].kids[name])
    {
      assert HasKid(g, p, name, g.nodes[p].kids[name]);
    }

    lemma UnlinkForward(g: Graph, m: Graph, p: Addr, name: string, c: Addr)
      requires WellFormed(g) && Forward(g) && HasKid(g, p, name, c) && c in g.nodes && m == Unlink(g, p, name, c)
      ensures WellFormed(m) && Forward(m) && p in m.nodes
    {
      UnlinkEffect(g, m, p, name, c);
      UnlinkedForward(g, m, p, name, c);
    }

    /**
      Moves one slot to another, replacing what was there unless `overwrite` is off.
      The source panics when a child is moved into something that is no directory.
     */
    method MvChild(parent: Addr, name: string, newParent: Addr, newName: string, overwrite: bool) returns (done: bool)
      requires Valid() && WellFormed(g) && Forward(g)
      requires parent in g.nodes && newParent in g.nodes
      requires name in g.nodes[parent].kids ==> g.nodes[newParent].dir
      modifies this`g, this`nodes, this`clock, Footprint()
      ensures Valid() && WellFormed(g) && Forward(g)
      ensures MvChildRel(old(g), parent, name, newParent, newName, overwrite, g, done)
      ensures done <==> newName !in old(g.nodes[newParent].kids) || overwrite
      ensures !done ==> g == old(g)
      ensures done ==> exists dead :: Rehung(old(g), parent, name, newParent, newName, g, dead)
      ensures NoGarbage(old(g)) ==> NoGarbage(g)
    {
      hide RawBridge.Valid, WellFormed, Forward, MvStep, RemovedBy, MvTail, MvChildRel, NoGarbage, Rehung;
      Known();
      var child, dest := Get(mem[parent].children, name), Get(mem[newParent].children, newName);
      if dest.Some? && !overwrite {
        MvRefused(g, parent, name, newParent, newName);
        return false;
      }
      if child.Some? { SlotKnown(g, parent, name); }
      if dest.Some? { SlotKnown(g, newParent, newName); }
      MoveSlot(parent, name, newParent, newName, child, dest);
      MvForward(old(g), g, parent, name, newParent, newName);
      ghost var m := g;
      ghost var x := RemoveBoth(parent, newParent);
      MvDone(old(g), parent, name, newParent, newName, overwrite, m, x, g);
      MvChildOutcome(old(g), parent, name, newParent, newName, overwrite, g, true);
      if NoGarbage(old(g)) {
        MvNoGarbage(old(g), parent, name, newParent, newName, overwrite, g, true);
      }
      return true;
    }

    /** The end of mvChild: whichever of the two directories is dead is removed. */
    method RemoveBoth(p: Addr, np: Addr) returns (ghost x: Graph)
      requires Valid() && WellFormed(g) && Forward(g) && p in g.nodes && np in g.nodes
      modifies this`g, this`nodes, Footprint()
      ensures Valid() && WellFormed(g) && Forward(g)
      ensures MvTail(old(g), p, np, x, g)
    {
      hide RawBridge.Valid, WellFormed, Forward, RemovedBy;
      var newLive := IsLive(np);
      RemoveIfDead(p);
      x := g;
      WellFormedKeys(old(g));
      WellFormedKeys(x);
      if !newLive {
        var r := RemoveRef(np, 0);
        DeadStaysDead(old(g), p, x, !Live(old(g), p), np);
        RemovedByAnswer(x, np, g, r.value);
      }
    }

    lemma WellFormedKeys(g: Graph)
      requires WellFormed(g)
      ensures g.rev.Keys == g.nodes.Keys
    {
    }

    lemma MvForward(g: Graph, m: Graph, p: Addr, name: string, np: Addr, nname: string)
      requires WellFormed(g) && Forward(g) && p in g.nodes && np in g.nodes
               && (name in g.nodes[p].kids ==> g.nodes[np].dir)
      requires name in g.nodes[p].kids ==> g.nodes[p].kids[name] in g.nodes
      requires nname in g.nodes[np].kids ==> g.nodes[np].kids[nname] in g.nodes
      requires m == MvStep(g, p, name, np, nname, Get(g.nodes[p].kids, name), Get(g.nodes[np].kids, nname))
      ensures WellFormed(m) && Forward(m) && p in m.nodes && np in m.nodes
    {
      MvEffect(g, m, p, name, np, nname);
      MovedKeepsSymmetry(g, m, p, name, np, nname);
    }

    lemma MvRefused(g: Graph, p: Addr, name: string, np: Addr, nname: string)
      requires WellFormed(g) && p in g.nodes && np in g.nodes && nname in g.nodes[np].kids
      ensures MvChildRel(g, p, name, np, nname, false, g, false)
    {
    }

    lemma MvDone(g: Graph, p: Addr, name: string, np: Addr, nname: string, overwrite: bool, m: Graph, x: Graph,
                 h: Graph)
      requires WellFormed(g) && p in g.nodes && np in g.nodes
      requires nname in g.nodes[np].kids ==> overwrite && HasKid(g, np, nname, g.nodes[np].kids[nname])
      requires name in g.nodes[p].kids ==> HasKid(g, p, name, g.nodes[p].kids[name])
      requires m == MvStep(g, p, name, np, nname, Get(g.nodes[p].kids, name), Get(g.nodes[np].kids, nname))
      requires MvTail(m, p, np, x, h)
      ensures MvChildRel(g, p, name, np, nname, overwrite, h, true)
    {
    }

    /** The group-locked section of mvChild. */
    method MoveSlot(p: Addr, name: string, np: Addr, nname: string, child: Option<Addr>, dest: Option<Addr>)
      requires Valid() && g.nodes.Keys == g.rev.Keys && p in g.nodes && np in g.nodes
      requires child.Some? ==> child.value in g.nodes && g.nodes[np].dir
      requires dest.Some? ==> dest.value in g.nodes
      modifies this`g, this`clock, Footprint()
      ensures Valid() && g == MvStep(old(g), p, name, np, nname, child, dest)
    {
      hide RawBridge.Valid, Unlink, Link;
      Known();
      if child.Some? {
        UnlinkKinds(g, p, name, child.value);
        UnlinkEdge(p, name, child.value);
        Known();
      }
      if dest.Some? {
        UnlinkKinds(g, np, nname, dest.value);
        UnlinkEdge(np, nname, dest.value);
        Known();
      }
      if child.Some? {
        LinkEdge(np, nname, child.value);
      }
    }
  }
}
