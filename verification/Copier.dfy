/** The objects that dump a quiescent bridge and fill a restored one. */
module Copier {
  import opened Types
  import opened Recency
  import opened InodeGraph
  import opened Bridge
  import opened DumpRestore
  import Handles

  // ----- dumping -----

  /** The registered inodes, in whatever order the map yields them. */
  method Flatten(nodes: map<Ino, Addr>) returns (inodes: seq<Addr>, ghost order: seq<Ino>)
    ensures |inodes| == |nodes| && forall n :: n in inodes <==> n in nodes.Values
    ensures |inodes| == |order| && Distinct(order) && Numbers(order) == nodes.Keys
    ensures forall k :: 0 <= k < |order| ==> order[k] in nodes && inodes[k] == nodes[order[k]]
  {
    hide Numbers, Distinct;
    inodes, order := [], [];
    NumbersNone();
    var keys := nodes.Keys;
    while keys != {}
      invariant |inodes| == |order| && Distinct(order)
      invariant keys !! Numbers(order) && keys + Numbers(order) == nodes.Keys
      invariant forall k :: 0 <= k < |order| ==> order[k] in nodes && inodes[k] == nodes[order[k]]
      decreases keys
    {
      var i :| i in keys;
      NumbersMore(order, i);
      inodes := inodes + [nodes[i]];
      order := order + [i];
      keys := keys - {i};
    }
    ListedValues(nodes, inodes, order);
  }

  lemma NumbersNone()
    ensures Numbers([]) == {} && Distinct<Ino>([])
  {
  }

  lemma NumbersMore(order: seq<Ino>, i: Ino)
    requires Distinct(order) && i !in Numbers(order)
    ensures Distinct(order + [i]) && Numbers(order + [i]) == Numbers(order) + {i}
  {
  }

  lemma ListedValues(nodes: map<Ino, Addr>, inodes: seq<Addr>, order: seq<Ino>)
    requires |inodes| == |order| && Distinct(order) && Numbers(order) == nodes.Keys
    requires forall k :: 0 <= k < |order| ==> order[k] in nodes && inodes[k] == nodes[order[k]]
    ensures |inodes| == |nodes| && forall n :: n in inodes <==> n in nodes.Values
  {
    DistinctCount(order);
    forall n | n in nodes.Values ensures n in inodes {
      var i :| i in nodes && nodes[i] == n;
      assert i in Numbers(order);
      var k :| 0 <= k < |order| && order[k] == i;
    }
    forall n | n in inodes ensures n in nodes.Values {
      var k :| 0 <= k < |inodes| && inodes[k] == n;
    }
  }

  /** The registered inodes, listed once each. */
  ghost predicate Listing(g: Graph, inodes: seq<Addr>, order: seq<Ino>) {
    && |inodes| == |order|
    && Distinct(order) && Numbers(order) == g.reg.Keys
    && (forall i :: i in order ==> i in g.reg)
    && (forall k :: 0 <= k < |order| ==> order[k] in g.reg && inodes[k] == g.reg[order[k]])
  }

  lemma ListingAt(g: Graph, inodes: seq<Addr>, order: seq<Ino>, k: nat)
    requires Indexed(g) && Listing(g, inodes, order) && k < |inodes|
    ensures forall i :: i in order ==> i in g.reg
    ensures k < |order| && inodes[k] in g.reg.Values && inodes[k] in g.nodes
            && DumpsOf(g, order)[k] == DumpOf(g, inodes[k])
  {
  }

  class InodeDumper {
    const bridge: RawBridge
    const inodes: seq<Addr>
    var off: nat
    /** The numbers of the inodes to dump. */
    ghost const order: seq<Ino>

    /** The bridge did not move since the inodes were listed. */
    ghost predicate Valid()
      reads this, bridge, bridge.Footprint()
    {
      bridge.Valid() && Restorable(bridge.g) && Listing(bridge.g, inodes, order) && off <= |inodes|
    }

    constructor (bridge: RawBridge, inodes: seq<Addr>, ghost order: seq<Ino>)
      ensures this.bridge == bridge && this.inodes == inodes && this.order == order && off == 0
    {
      this.bridge, this.inodes, this.order, off := bridge, inodes, order, 0;
    }

    /** The record of the next inode, or None at the end. */
    method Next() returns (data: Option<DumpInode>)
      requires Valid()
      modifies this`off
      ensures Valid()
      ensures data.None? <==> old(off) == |order|
      ensures data.None? ==> off == old(off)
      ensures data.Some? ==> off == old(off) + 1 && data.value == DumpsOf(bridge.g, order)[old(off)]
    {
      if off >= |inodes| {
        return None;
      }
      hide RawBridge.Valid, Indexed, Enclosed, DumpOf, DumpsOf, Distinct, Numbers;
      ListingAt(bridge.g, inodes, order, off);
      var record := Record(bridge, inodes[off]);
      off := off + 1;
      return Some(record);
    }
  }

  /** The record of one registered inode. */
  method Record(b: RawBridge, n: Addr) returns (d: DumpInode)
    requires b.Valid() && Restorable(b.g) && n in b.g.reg.Values && n in b.g.nodes
    ensures d == DumpOf(b.g, n)
  {
    hide RawBridge.Valid, Enclosed, EntriesByIno;
    b.Known();
    var inode := b.mem[n];
    var parents := DumpParents(b, n);
    return DumpInode(inode.ino, inode.revision, inode.lookupCount, parents, inode.isDir);
  }

  /** The parents oldest first, by number. */
  method DumpParents(b: RawBridge, n: Addr) returns (entries: seq<Entry>)
    requires b.Valid() && Restorable(b.g) && n in b.g.reg.Values && n in b.g.nodes
    ensures entries == EntriesByIno(b.g, Reverse(b.g.nodes[n].parents))
  {
    hide RawBridge.Valid, NoDup, InodeParents.Valid, Enclosed;
    b.Known();
    b.Own(n);
    ParentsRegistered(b.g, n);
    var parents := b.mem[n].parents.SortParents(b.clock + 1);
    entries := [];
    for i := 0 to |parents|
      invariant entries == EntriesByIno(b.g, parents)[..i]
    {
      assert parents[i] in parents;
      NumberOf(b.g, parents[i].node);
      entries := entries + [Entry(parents[i].name, b.mem[parents[i].node].ino)];
    }
  }

  method NewInodeDumper(b: RawBridge) returns (d: InodeDumper)
    requires b.Valid() && Restorable(b.g)
    ensures fresh(d) && d.Valid() && d.bridge == b && d.off == 0
  {
    b.Known();
    var inodes, order := Flatten(b.nodes);
    d := new InodeDumper(b, inodes, order);
  }

  // ----- restoring -----

  /** What Finished reports. */
  datatype Outcome = Done | RootMissing | Lost(expected: nat, got: nat)

  lemma Registry(g: Graph, ino: Ino, isDir: bool)
    requires Restorable(g)
    ensures Indexed(g) && ByIno(g).nodes.Keys == g.reg.Keys
    ensures ino in g.reg ==> Ensure(ByIno(g), ino, isDir) == ByIno(g)
  {
  }

  lemma EnsuredFields(r: Graph, d: DumpInode)
    ensures SetFields(Ensure(r, d.ino, false), d) == SetFields(r, d)
  {
  }

  lemma EnsuredDir(r: Graph, d: Ino, c: Ino)
    requires c in r.nodes && (d in r.nodes ==> r.nodes[d].dir)
    ensures d in Ensure(r, d, true).nodes && Ensure(r, d, true).nodes[d].dir && c in Ensure(r, d, true).nodes
  {
  }

  lemma EdgeByIno(g: Graph, c: Ino, p: Entry)
    requires Restorable(g) && c in g.reg && p.node in g.reg
    ensures g.reg[c] in g.nodes && g.reg[p.node] in g.nodes && c in ByIno(g).nodes && p.node in ByIno(g).nodes
    ensures var h := AddParent(SetKid(g, g.reg[p.node], p.name, g.reg[c]), g.reg[c], Entry(p.name, g.reg[p.node]));
            Restorable(h) && h.reg == g.reg && ByIno(h) == AddParent(SetKid(ByIno(g), p.node, p.name, c), c, p)
  {
    hide ByIno, Enclosed, MoveToFront;
    Lookup(g, c);
    Lookup(g, p.node);
    SetKidByIno(g, p.node, p.name, c);
    AddParentByIno(SetKid(g, g.reg[p.node], p.name, g.reg[c]), c, p.name, p.node);
  }

  /** The listed directories that are there already are directories. */
  ghost predicate Fitting(r: Graph, es: seq<Entry>) {
    forall e :: e in es && e.node in r.nodes ==> r.nodes[e.node].dir
  }

  lemma AttachStep(r: Graph, c: Ino, es: seq<Entry>, i: nat)
    requires c in r.nodes && i < |es| && Fitting(r, es[i..])
    ensures es[i].node in r.nodes ==> r.nodes[es[i].node].dir
    ensures var h := Attach(r, c, es[i]);
            c in h.nodes && Fitting(h, es[i + 1..]) && AttachAll(h, c, es[i + 1..]) == AttachAll(r, c, es[i..])
  {
  }

  lemma AttachDone(r: Graph, c: Ino, es: seq<Entry>)
    requires c in r.nodes && es == []
    ensures AttachAll(r, c, es) == r
  {
  }

  lemma Lookup(g: Graph, i: Ino)
    requires Indexed(g)
    ensures i in ByIno(g).nodes <==> i in g.reg
    ensures i in g.reg ==> g.reg[i] in g.nodes && ByIno(g).nodes[i].dir == g.nodes[g.reg[i]].dir
  {
  }

  class InodeRestorer {
    const nodeCount: nat
    var addNodeCount: nat
    const bridge: RawBridge

    ghost predicate Valid()
      reads this, bridge, bridge.Footprint()
    {
      bridge.Valid() && Restorable(bridge.g)
    }

    constructor (bridge: RawBridge, nodeCount: nat)
      ensures this.bridge == bridge && this.nodeCount == nodeCount && addNodeCount == 0
    {
      this.bridge, this.nodeCount, addNodeCount := bridge, nodeCount, 0;
    }

    /** The inode of a number; one that is not there yet is made. */
    method Find(ino: Ino, isDir: bool) returns (n: Addr)
      requires Valid()
      modifies bridge`g, bridge`nodes, bridge`mem
      ensures Valid() && ino in bridge.g.reg && n == bridge.g.reg[ino]
      ensures ByIno(bridge.g) == Ensure(old(ByIno(bridge.g)), ino, isDir)
      ensures fresh(bridge.Footprint() - old(bridge.Footprint()))
    {
      hide RawBridge.Valid, ByIno, Indexed, Enclosed, Ensure;
      bridge.Known();
      Registry(bridge.g, ino, isDir);
      if ino in bridge.nodes {
        return bridge.nodes[ino];
      }
      var free := FreshAddress(bridge.mem.Keys);
      n :| n !in bridge.mem;
      MadeByIno(bridge.g, n, ino, isDir);
      bridge.NewInode(n, ino, isDir);
      bridge.EnterAt(ino, n);
    }

    /** The directory of a parent entry. */
    method GetDirInode(ino: Ino) returns (n: Addr)
      requires Valid()
      modifies bridge`g, bridge`nodes, bridge`mem
      ensures Valid() && ino in bridge.g.reg && n == bridge.g.reg[ino]
      ensures ByIno(bridge.g) == Ensure(old(ByIno(bridge.g)), ino, true)
      ensures fresh(bridge.Footprint() - old(bridge.Footprint()))
    {
      n := Find(ino, true);
    }

    /** One parent of the inode numbered `c`. */
    method AddEdge(c: Ino, p: Entry)
      requires Valid() && c in bridge.g.reg
      requires p.node in ByIno(bridge.g).nodes ==> ByIno(bridge.g).nodes[p.node].dir
      modifies bridge, bridge.Footprint()
      ensures Valid() && c in bridge.g.reg && c in old(ByIno(bridge.g)).nodes
      ensures ByIno(bridge.g) == Attach(old(ByIno(bridge.g)), c, p)
      ensures bridge.root == old(bridge.root) && bridge.nodeCountHigh == old(bridge.nodeCountHigh)
      ensures fresh(bridge.Footprint() - old(bridge.Footprint()))
    {
      hide RawBridge.Valid, RawBridge.Footprint, ByIno, Indexed, Enclosed, Ensure, MoveToFront;
      Registry(bridge.g, p.node, true);
      EnsuredDir(ByIno(bridge.g), p.node, c);
      var parent := GetDirInode(p.node);
      Lookup(bridge.g, p.node);
      Lookup(bridge.g, c);
      EdgeByIno(bridge.g, c, p);
      bridge.Known();
      bridge.EdgeAt(parent, p.name, bridge.nodes[c]);
    }

    /** Restores one inode, and its edges from its parent list. */
    method AddInode(d: DumpInode)
      requires Valid() && d.revision < WORD && d.lookupCount < WORD && Accepts(ByIno(bridge.g), d)
      modifies this`addNodeCount, bridge, bridge.Footprint()
      ensures Valid() && addNodeCount == old(addNodeCount) + 1
      ensures ByIno(bridge.g) == DumpRestore.AddInode(old(ByIno(bridge.g)), d)
      ensures bridge.root == old(bridge.root) && bridge.nodeCountHigh == old(bridge.nodeCountHigh)
      ensures fresh(bridge.Footprint() - old(bridge.Footprint()))
    {
      hide RawBridge.Valid, ByIno, Indexed, Enclosed, SetFields, AttachAll;
      RestoreFields(d);
      AddEdges(d.ino, d.parents);
      addNodeCount := addNodeCount + 1;
    }

    /** Every parent of the inode numbered `c`, in the order of the record. */
    method AddEdges(c: Ino, parents: seq<Entry>)
      requires Valid() && c in bridge.g.reg && c in ByIno(bridge.g).nodes && Fitting(ByIno(bridge.g), parents)
      modifies bridge, bridge.Footprint()
      ensures Valid() && c in old(ByIno(bridge.g)).nodes
      ensures ByIno(bridge.g) == AttachAll(old(ByIno(bridge.g)), c, parents)
      ensures bridge.root == old(bridge.root) && bridge.nodeCountHigh == old(bridge.nodeCountHigh)
      ensures fresh(bridge.Footprint() - old(bridge.Footprint()))
    {
      hide RawBridge.Valid, ByIno, Indexed, Enclosed, Attach, AttachAll, Fitting;
      ghost var m := ByIno(bridge.g);
      var i := 0;
      assert parents[0..] == parents;
      while i < |parents|
        invariant 0 <= i <= |parents|
        invariant Valid() && c in bridge.g.reg && c in ByIno(bridge.g).nodes
        invariant Fitting(ByIno(bridge.g), parents[i..])
        invariant AttachAll(ByIno(bridge.g), c, parents[i..]) == AttachAll(m, c, parents)
        invariant bridge.root == old(bridge.root) && bridge.nodeCountHigh == old(bridge.nodeCountHigh)
        invariant fresh(bridge.Footprint() - old(bridge.Footprint()))
      {
        AttachStep(ByIno(bridge.g), c, parents, i);
        AddEdge(c, parents[i]);
        i := i + 1;
      }
      AttachDone(ByIno(bridge.g), c, parents[i..]);
    }

    /** The inode itself, found or made, with the fields of its record. */
    method RestoreFields(d: DumpInode)
      requires Valid() && d.revision < WORD && d.lookupCount < WORD
      modifies bridge`g, bridge`nodes, bridge`mem, bridge.Footprint()
      ensures Valid() && d.ino in bridge.g.reg && d.ino in ByIno(bridge.g).nodes
      ensures ByIno(bridge.g) == SetFields(old(ByIno(bridge.g)), d)
      ensures bridge.root == old(bridge.root) && bridge.nodeCountHigh == old(bridge.nodeCountHigh)
      ensures fresh(bridge.Footprint() - old(bridge.Footprint()))
    {
      hide RawBridge.Valid, ByIno, Indexed, Enclosed, Ensure;
      EnsuredFields(ByIno(bridge.g), d);
      var inode := Find(d.ino, false);
      Lookup(bridge.g, d.ino);
      FieldsByIno(bridge.g, d.ino, d);
      bridge.Known();
      bridge.FieldsAt(inode, d.revision, d.lookupCount, d.isDir);
    }

    /** Takes over the restored root and checks the number of records. */
    method Finished() returns (outcome: Outcome)
      requires Valid()
      modifies bridge`root, bridge`nodeCountHigh
      ensures Valid() && bridge.g == old(bridge.g)
      ensures outcome.RootMissing? <==> 1 !in bridge.g.reg
      ensures outcome.RootMissing? ==> bridge.root == old(bridge.root)
      ensures !outcome.RootMissing? ==> bridge.root == bridge.g.reg[1]
      ensures !outcome.RootMissing? ==>
                outcome == if addNodeCount < nodeCount then Lost(nodeCount, addNodeCount) else Done
      ensures bridge.nodeCountHigh == if outcome.Done? then |bridge.g.reg| else old(bridge.nodeCountHigh)
    {
      hide RawBridge.Stands, Indexed, Enclosed;
      bridge.Known();
      if 1 !in bridge.nodes {
        return RootMissing;
      }
      bridge.root := bridge.nodes[1];
      if addNodeCount < nodeCount {
        return Lost(nodeCount, addNodeCount);
      }
      bridge.nodeCountHigh := |bridge.nodes|;
      return Done;
    }
  }

  lemma NothingRegistered(g: Graph)
    requires g.rev.Keys == g.nodes.Keys && g.reg == map[]
    ensures Restorable(g) && ByIno(g) == EMPTY
  {
  }

  /** Empties the registry and starts filling it. */
  method EmptyRegistry(b: RawBridge, nodeCount: nat) returns (r: InodeRestorer)
    requires b.Valid()
    modifies b`g, b`nodes
    ensures fresh(r) && r.Valid() && r.bridge == b && r.nodeCount == nodeCount && r.addNodeCount == 0
    ensures ByIno(b.g) == EMPTY
  {
    hide ByIno, RawBridge.Stands;
    b.ClearRegistry();
    b.Known();
    NothingRegistered(b.g);
    r := new InodeRestorer(b, nodeCount);
  }

  // ----- the bridge's own Dump and Restore -----

  /** What is dumped apart from the inodes. */
  datatype DumpRawBridge = DumpRawBridge(nodeCount: nat, files: seq<Handles.DumpFileEntry>, freeFiles: seq<nat>)

  /** `data` has the entries and the free handles of the table. */
  ghost predicate HoldsFiles(data: DumpRawBridge, table: Handles.FileTable)
    reads table, table.files
  {
    && |data.files| == |table.files| && data.freeFiles == table.freeFiles
    && forall i :: 0 <= i < |data.files| ==> data.files[i] == table.files[i].Fields()
  }

  /** Counts and files at once, and a dumper for the inodes. */
  method Dump(b: RawBridge, table: Handles.FileTable) returns (data: DumpRawBridge, dumper: InodeDumper)
    requires b.Valid() && Restorable(b.g) && table.Valid()
    ensures data.nodeCount == |b.g.reg| && HoldsFiles(data, table)
    ensures fresh(dumper) && dumper.Valid() && dumper.bridge == b && dumper.off == 0
  {
    b.Known();
    var files, free := table.Dump();
    data := DumpRawBridge(|b.nodes|, files, free);
    dumper := NewInodeDumper(b);
  }

  /** Files at once, and a restorer for the inodes; `open` is what the kernel has open. */
  method Restore(b: RawBridge, table: Handles.FileTable, data: DumpRawBridge, ghost open: set<nat>)
    returns (r: InodeRestorer)
    requires b.Valid() && Handles.Partitioned(Handles.State(|data.files|, data.freeFiles, open))
    modifies b`g, b`nodes, table
    ensures fresh(r) && r.Valid() && r.bridge == b && r.nodeCount == data.nodeCount && r.addNodeCount == 0
    ensures ByIno(b.g) == EMPTY
    ensures table.Valid() && table.View() == Handles.State(|data.files|, data.freeFiles, open)
            && HoldsFiles(data, table)
    ensures forall e :: e in table.files ==> fresh(e)
  {
    hide ByIno, RawBridge.Stands;
    table.Restore(data.files, data.freeFiles, open);
    r := EmptyRegistry(b, data.nodeCount);
  }

  // ----- from one bridge to another -----

  /**
    Dumps one bridge into another, inode by inode.  The receiver ends up with the
    sender's graph and open files, whatever order the sender's registry is met in.
   */
  method Transfer(sender: RawBridge, from: Handles.FileTable, receiver: RawBridge, to: Handles.FileTable)
    returns (outcome: Outcome)
    requires sender.Valid() && receiver.Valid() && from.Valid() && from != to
    requires {sender as object} + sender.Footprint() !! {receiver as object} + receiver.Footprint()
    requires WellFormed(sender.g) && Mirrored(sender.g) && Enclosed(sender.g)
    modifies receiver, receiver.Footprint(), to
    ensures receiver.Valid() && Restorable(receiver.g)
    ensures sender.Valid() && sender.g == old(sender.g) && Restorable(sender.g)
    ensures ByIno(receiver.g) == ByIno(sender.g)
    ensures outcome == if 1 in sender.g.reg then Done else RootMissing
    ensures 1 in sender.g.reg ==> 1 in receiver.g.reg && receiver.root == receiver.g.reg[1]
    ensures to.Valid() && to.View() == old(from.View())
    ensures forall i :: 0 <= i < |to.files| ==> to.files[i].Fields() == old(from.files[i].Fields())
  {
    hide RawBridge.Valid, WellFormed, Mirrored, ByIno, Indexed, Enclosed, Listing, Apart, Handles.Partitioned;
    var dumper, restorer := Connect(sender, from, receiver, to);
    outcome := Fill(dumper, restorer);
  }

  /** All records, and then the restorer is told. */
  method Fill(dumper: InodeDumper, restorer: InodeRestorer) returns (outcome: Outcome)
    requires dumper.Valid() && dumper.off == 0 && restorer.Valid() && restorer.addNodeCount == 0
    requires restorer.nodeCount == |dumper.bridge.g.reg|
    requires Apart(dumper, restorer) && ByIno(restorer.bridge.g) == EMPTY
    requires WellFormed(dumper.bridge.g) && Mirrored(dumper.bridge.g)
    modifies dumper, restorer, restorer.bridge, restorer.bridge.Footprint()
    ensures dumper.Valid() && restorer.Valid() && dumper.bridge.g == old(dumper.bridge.g)
    ensures ByIno(restorer.bridge.g) == ByIno(dumper.bridge.g)
    ensures outcome == if 1 in dumper.bridge.g.reg then Done else RootMissing
    ensures 1 in dumper.bridge.g.reg ==>
              1 in restorer.bridge.g.reg && restorer.bridge.root == restorer.bridge.g.reg[1]
  {
    hide RawBridge.Valid, WellFormed, Mirrored, ByIno, Indexed, Enclosed, Listing;
    Feed(dumper, restorer);
    ByInoDomain(dumper.bridge.g);
    ByInoDomain(restorer.bridge.g);
    outcome := restorer.Finished();
  }

  /** A dumper of one bridge and a restorer of the other. */
  method Connect(sender: RawBridge, from: Handles.FileTable, receiver: RawBridge, to: Handles.FileTable)
    returns (dumper: InodeDumper, restorer: InodeRestorer)
    requires sender.Valid() && receiver.Valid() && WellFormed(sender.g) && Enclosed(sender.g) && from.Valid()
             && from != to
    requires {sender as object} + sender.Footprint() !! {receiver as object} + receiver.Footprint()
    modifies receiver`g, receiver`nodes, to
    ensures fresh(dumper) && fresh(restorer) && dumper.bridge == sender && restorer.bridge == receiver
    ensures sender.g == old(sender.g) && receiver.mem == old(receiver.mem)
    ensures dumper.Valid() && dumper.off == 0 && restorer.Valid() && restorer.addNodeCount == 0
    ensures restorer.nodeCount == |sender.g.reg| && ByIno(receiver.g) == EMPTY && Apart(dumper, restorer)
    ensures to.Valid() && to.View() == old(from.View())
    ensures forall i :: 0 <= i < |to.files| ==> to.files[i].Fields() == old(from.files[i].Fields())
  {
    hide RawBridge.Valid, WellFormed, ByIno, Indexed, Enclosed, Listing, Handles.Partitioned;
    Dumpable(sender.g);
    var data;
    data, dumper := Dump(sender, from);
    restorer := Restore(receiver, to, data, from.open);
  }

  /** Every record of the dump, one after the other. */
  method Feed(dumper: InodeDumper, restorer: InodeRestorer)
    requires dumper.Valid() && dumper.off == 0 && restorer.Valid() && restorer.addNodeCount == 0
    requires Apart(dumper, restorer) && ByIno(restorer.bridge.g) == EMPTY
    requires WellFormed(dumper.bridge.g) && Mirrored(dumper.bridge.g)
    modifies dumper, restorer, restorer.bridge, restorer.bridge.Footprint()
    ensures dumper.Valid() && restorer.Valid() && dumper.bridge.g == old(dumper.bridge.g)
    ensures ByIno(restorer.bridge.g) == ByIno(dumper.bridge.g)
    ensures restorer.addNodeCount == |dumper.bridge.g.reg|
    ensures fresh(restorer.bridge.Footprint() - old(restorer.bridge.Footprint()))
  {
    hide RawBridge.Valid, WellFormed, Mirrored, ByIno, Accepts, DumpsOf, AddAll, Indexed, Enclosed, Distinct, Numbers,
      DumpRestore.AddInode;
    var sender, receiver := dumper.bridge, restorer.bridge;
    ghost var ds := DumpsOf(sender.g, dumper.order);
    RoundTrip(sender.g, dumper.order);
    assert AddAll(EMPTY, ds[..0]) == EMPTY by { AddNothing(ds); }
    var data := dumper.Next();
    while data.Some?
      invariant dumper.Valid() && restorer.Valid() && Apart(dumper, restorer)
      invariant sender.g == old(sender.g) && ds == DumpsOf(sender.g, dumper.order)
      invariant fresh(receiver.Footprint() - old(receiver.Footprint()))
      invariant dumper.off == restorer.addNodeCount + (if data.Some? then 1 else 0)
      invariant data.None? ==> dumper.off == |ds|
      invariant data.Some? ==> data.value == ds[restorer.addNodeCount]
      invariant ByIno(receiver.g) == AddAll(EMPTY, ds[..restorer.addNodeCount])
      decreases |ds| - restorer.addNodeCount
    {
      FeedOne(dumper, restorer, data.value);
      data := dumper.Next();
    }
    assert ds[..|ds|] == ds;
  }

  method FeedOne(dumper: InodeDumper, restorer: InodeRestorer, record: DumpInode)
    requires dumper.Valid() && restorer.Valid() && Apart(dumper, restorer) && restorer.addNodeCount < |dumper.order|
    requires var ds, k := DumpsOf(dumper.bridge.g, dumper.order), restorer.addNodeCount;
             && record == ds[k] && ByIno(restorer.bridge.g) == AddAll(EMPTY, ds[..k])
             && Accepts(AddAll(EMPTY, ds[..k]), ds[k])
    modifies restorer`addNodeCount, restorer.bridge, restorer.bridge.Footprint()
    ensures dumper.Valid() && restorer.Valid() && Apart(dumper, restorer)
    ensures restorer.addNodeCount == old(restorer.addNodeCount) + 1
    ensures dumper.bridge.g == old(dumper.bridge.g)
    ensures ByIno(restorer.bridge.g) == AddAll(EMPTY, DumpsOf(dumper.bridge.g, dumper.order)[..restorer.addNodeCount])
    ensures fresh(restorer.bridge.Footprint() - old(restorer.bridge.Footprint()))
  {
    hide RawBridge.Valid, WellFormed, Mirrored, ByIno, Accepts, DumpsOf, AddAll, Indexed, Enclosed, Distinct, Numbers,
      DumpRestore.AddInode;
    ghost var k := restorer.addNodeCount;
    NextAdded(DumpsOf(dumper.bridge.g, dumper.order), k);
    DumpFits(dumper.bridge, dumper.order, k);
    restorer.AddInode(record);
  }

  /** Neither side can touch the other. */
  ghost predicate Apart(dumper: InodeDumper, restorer: InodeRestorer)
    reads dumper.bridge`mem, restorer.bridge`mem
  {
    && dumper.bridge != restorer.bridge
    && dumper.bridge.Footprint() !! restorer.bridge.Footprint()
  }

  lemma AddNothing(ds: seq<DumpInode>)
    ensures AddAll(EMPTY, ds[..0]) == EMPTY
  {
  }

  lemma Dumpable(g: Graph)
    requires WellFormed(g) && Enclosed(g)
    ensures Restorable(g)
  {
  }

  lemma NextAdded(ds: seq<DumpInode>, k: nat)
    requires k < |ds|
    ensures AddAll(EMPTY, ds[..k + 1]) == DumpRestore.AddInode(AddAll(EMPTY, ds[..k]), ds[k])
  {
    assert ds[..k + 1][..k] == ds[..k];
  }

  lemma DumpFits(b: RawBridge, order: seq<Ino>, k: nat)
    requires b.Valid() && Indexed(b.g) && k < |order| && forall i :: i in order ==> i in b.g.reg
    ensures DumpsOf(b.g, order)[k].revision < WORD && DumpsOf(b.g, order)[k].lookupCount < WORD
  {
  }
}
