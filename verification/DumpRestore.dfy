/**
  Dump and restore.  A dump is one record per registered inode, listing its parents
  by number, oldest first; children are not dumped.  Restoring rebuilds both edge
  directions from the parent lists alone, in whatever order the records arrive.
 */
module DumpRestore {
  import opened Types
  import opened Recency
  import opened InodeGraph

  /** The parents' `node` is an inode number here. */
  datatype DumpInode = DumpInode(ino: Ino, revision: nat, lookupCount: nat, parents: seq<Entry>, isDir: bool)

  // ----- a bridge seen by inode numbers -----

  function EntryByIno(g: Graph, e: Entry): Entry {
    if e.node in g.nodes then Entry(e.name, g.nodes[e.node].ino) else e
  }

  function EntriesByIno(g: Graph, l: seq<Entry>): (r: seq<Entry>)
    ensures |r| == |l| && forall i :: 0 <= i < |l| ==> r[i] == EntryByIno(g, l[i])
  {
    seq(|l|, i requires 0 <= i < |l| => EntryByIno(g, l[i]))
  }

  function KidsByIno(g: Graph, kids: map<string, Addr>): map<string, Ino> {
    map s | s in kids && kids[s] in g.nodes :: g.nodes[kids[s]].ino
  }

  function NodeByIno(g: Graph, n: Node): Node {
    n.(kids := KidsByIno(g, n.kids), parents := EntriesByIno(g, n.parents))
  }

  /** The registry names inodes of the graph, each under its own number. */
  ghost predicate Indexed(g: Graph) {
    && g.rev.Keys == g.nodes.Keys
    && forall i :: i in g.reg ==> g.reg[i] in g.nodes && g.nodes[g.reg[i]].ino == i
  }

  /** The registered inodes with numbers in place of addresses, revisions in 32 bits. */
  ghost function ByIno(g: Graph): Graph
    requires Indexed(g)
  {
    Graph(map i | i in g.reg :: NodeByIno(g, g.nodes[g.reg[i]]),
          map i | i in g.reg :: i,
          map i | i in g.reg :: Wrap(g.rev[g.reg[i]]))
  }

  /** InodeDumper.Next: the record of one inode. */
  function DumpOf(g: Graph, n: Addr): DumpInode
    requires n in g.nodes && n in g.rev
  {
    DumpInode(g.nodes[n].ino, Wrap(g.rev[n]), g.nodes[n].lookups,
              EntriesByIno(g, Reverse(g.nodes[n].parents)), g.nodes[n].dir)
  }

  // ----- restoring one record -----

  /** A node known by number only, as getDirInode and AddInode make it. */
  function Blank(ino: Ino, dir: bool): Node {
    Node(ino, 0, dir, map[], [])
  }

  function Ensure(r: Graph, i: Ino, dir: bool): Graph {
    if i in r.nodes then r else Graph(r.nodes[i := Blank(i, dir)], r.reg[i := i], r.rev[i := 0])
  }

  /** One parent of the record: its directory gets the child, the inode gets the parent. */
  function Attach(r: Graph, c: Ino, e: Entry): Graph
    requires c in r.nodes
  {
    AddParent(SetKid(Ensure(r, e.node, true), e.node, e.name, c), c, e)
  }

  function AttachAll(r: Graph, c: Ino, es: seq<Entry>): Graph
    requires c in r.nodes
    decreases |es|
  {
    if es == [] then r else AttachAll(Attach(r, c, es[0]), c, es[1..])
  }

  /** The inode of a record once its fields are set. */
  function WithFields(n: Node, d: DumpInode): Node {
    n.(lookups := d.lookupCount, dir := n.dir || d.isDir)
  }

  function SetFields(r: Graph, d: DumpInode): Graph {
    var r := Ensure(r, d.ino, false);
    r.(nodes := r.nodes[d.ino := WithFields(r.nodes[d.ino], d)], rev := r.rev[d.ino := d.revision])
  }

  function AddInode(r: Graph, d: DumpInode): Graph {
    AttachAll(SetFields(r, d), d.ino, d.parents)
  }

  /** No listed directory was restored as a file; otherwise the source panics. */
  ghost predicate Accepts(r: Graph, d: DumpInode) {
    var m := SetFields(r, d);
    forall e :: e in d.parents && e.node in m.nodes ==> m.nodes[e.node].dir
  }

  function AddAll(r: Graph, ds: seq<DumpInode>): Graph
    decreases |ds|
  {
    if ds == [] then r else AddInode(AddAll(r, ds[..|ds| - 1]), ds[|ds| - 1])
  }

  const EMPTY: Graph := Graph(map[], map[], map[])

  // ----- the effect of a parent list -----

  /** A graph whose addresses are the inode numbers. */
  ghost predicate Numbered(r: Graph) {
    && r.nodes.Keys == r.reg.Keys == r.rev.Keys
    && forall i :: i in r.nodes ==> r.nodes[i].ino == i == r.reg[i]
  }

  ghost predicate Lists(es: seq<Entry>, i: Ino) {
    exists s :: Entry(s, i) in es
  }

  /** What a number stands for before a record mentions it. */
  function NodeAt(r: Graph, i: Ino): Node {
    if i in r.nodes then r.nodes[i] else Blank(i, true)
  }

  function RevAt(r: Graph, i: Ino): nat {
    if i in r.rev then r.rev[i] else 0
  }

  /** The inodes of `h` are those of `r` and the listed directories. */
  ghost predicate AttachedDomain(r: Graph, h: Graph, es: seq<Entry>) {
    && Numbered(r) && Numbered(h)
    && forall i :: i in h.nodes <==> i in r.nodes || Lists(es, i)
  }

  /** Outside the children maps only the parents of `c` differ. */
  ghost predicate AttachedRecords(r: Graph, h: Graph, c: Ino, es: seq<Entry>) {
    forall i :: i in h.nodes ==>
      && h.nodes[i].lookups == NodeAt(r, i).lookups
      && h.nodes[i].dir == NodeAt(r, i).dir
      && RevAt(h, i) == RevAt(r, i)
      && h.nodes[i].parents == (if i == c then Replay(es, NodeAt(r, i).parents) else NodeAt(r, i).parents)
  }

  /** The listed slots lead to `c`. */
  ghost predicate AttachedKids(r: Graph, h: Graph, c: Ino, es: seq<Entry>) {
    forall i, s, x :: HasKid(h, i, s, x) <==> if Entry(s, i) in es then x == c else HasKid(r, i, s, x)
  }

  ghost predicate Attached(r: Graph, h: Graph, c: Ino, es: seq<Entry>) {
    AttachedDomain(r, h, es) && AttachedRecords(r, h, c, es) && AttachedKids(r, h, c, es)
  }

  lemma AttachDomain(r: Graph, c: Ino, e: Entry)
    requires Numbered(r) && c in r.nodes
    ensures AttachedDomain(r, Attach(r, c, e), [e])
  {
  }

  lemma AttachRecords(r: Graph, c: Ino, e: Entry)
    requires Numbered(r) && c in r.nodes
    ensures AttachedRecords(r, Attach(r, c, e), c, [e])
  {
    hide MoveToFront;
    assert Replay([e], r.nodes[c].parents) == MoveToFront(r.nodes[c].parents, e);
  }

  lemma AttachKids(r: Graph, c: Ino, e: Entry)
    requires Numbered(r) && c in r.nodes
    ensures AttachedKids(r, Attach(r, c, e), c, [e])
  {
  }

  lemma AttachEffect(r: Graph, c: Ino, e: Entry)
    requires Numbered(r) && c in r.nodes
    ensures Attached(r, Attach(r, c, e), c, [e])
  {
    hide *;
    AttachDomain(r, c, e);
    AttachRecords(r, c, e);
    AttachKids(r, c, e);
    AttachedParts(r, Attach(r, c, e), c, [e]);
  }

  lemma AttachedParts(r: Graph, h: Graph, c: Ino, es: seq<Entry>)
    requires AttachedDomain(r, h, es) && AttachedRecords(r, h, c, es) && AttachedKids(r, h, c, es)
    ensures Attached(r, h, c, es)
  {
  }

  lemma AttachedDomainTrans(r: Graph, m: Graph, h: Graph, e: Entry, es: seq<Entry>)
    requires es != [] && e == es[0] && AttachedDomain(r, m, [e]) && AttachedDomain(m, h, es[1..])
    ensures AttachedDomain(r, h, es)
  {
  }

  lemma ReplayHead(es: seq<Entry>, l: seq<Entry>)
    requires es != []
    ensures Replay(es, l) == Replay(es[1..], Replay([es[0]], l))
  {
  }

  lemma AttachedRecordsTrans(r: Graph, m: Graph, h: Graph, c: Ino, e: Entry, es: seq<Entry>)
    requires es != [] && e == es[0] && c in r.nodes && AttachedDomain(r, m, [e]) && AttachedDomain(m, h, es[1..])
    requires AttachedRecords(r, m, c, [e]) && AttachedRecords(m, h, c, es[1..])
    ensures AttachedRecords(r, h, c, es)
  {
    hide Replay, Lists;
    ReplayHead(es, r.nodes[c].parents);
    forall i | i in h.nodes
      ensures && h.nodes[i].lookups == NodeAt(r, i).lookups && h.nodes[i].dir == NodeAt(r, i).dir
              && RevAt(h, i) == RevAt(r, i)
              && h.nodes[i].parents == (if i == c then Replay(es, NodeAt(r, i).parents) else NodeAt(r, i).parents)
    {
      assert i !in m.nodes ==> i !in r.nodes;
    }
  }

  lemma AttachedKidsTrans(r: Graph, m: Graph, h: Graph, c: Ino, e: Entry, es: seq<Entry>)
    requires es != [] && e == es[0] && AttachedKids(r, m, c, [e]) && AttachedKids(m, h, c, es[1..])
    ensures AttachedKids(r, h, c, es)
  {
  }

  lemma {:induction false} AttachAllEffect(r: Graph, c: Ino, es: seq<Entry>)
    requires Numbered(r) && c in r.nodes
    ensures Attached(r, AttachAll(r, c, es), c, es)
    decreases |es|
  {
    hide Attach, AttachedRecords, AttachedKids;
    if es == [] {
      AttachNothing(r, c);
    } else {
      var m := Attach(r, c, es[0]);
      AttachEffect(r, c, es[0]);
      AttachAllEffect(m, c, es[1..]);
      var h := AttachAll(r, c, es);
      AttachedDomainTrans(r, m, h, es[0], es);
      AttachedRecordsTrans(r, m, h, c, es[0], es);
      AttachedKidsTrans(r, m, h, c, es[0], es);
    }
  }

  lemma AttachNothing(r: Graph, c: Ino)
    requires Numbered(r)
    ensures Attached(r, r, c, [])
  {
  }

  // ----- the effect of a record -----

  /** The record of `i` in a graph numbered by inode. */
  function RecordOf(G: Graph, i: Ino): DumpInode
    requires i in G.nodes && i in G.rev
  {
    DumpInode(i, G.rev[i], G.nodes[i].lookups, Reverse(G.nodes[i].parents), G.nodes[i].dir)
  }

  /** A graph of inode numbers whose two edge directions agree. */
  ghost predicate Whole(G: Graph) {
    WellFormed(G) && Numbered(G) && Symmetric(G)
  }

  /** `i` is a directory of an inode in `done`. */
  ghost predicate Touched(G: Graph, done: set<Ino>, i: Ino) {
    exists s, x :: x in done && HasKid(G, i, s, x)
  }

  /** `r` is what the records of `done`, in any order, amount to. */
  ghost predicate RestoredDomain(G: Graph, done: set<Ino>, r: Graph) {
    && Numbered(r)
    && forall i :: i in r.nodes <==> i in done || Touched(G, done, i)
  }

  ghost predicate RestoredRecord(G: Graph, done: set<Ino>, r: Graph, i: Ino)
    requires i in done ==> i in G.nodes
    requires i in r.nodes
  {
    if i in done then
      && r.nodes[i].lookups == G.nodes[i].lookups && r.nodes[i].dir == G.nodes[i].dir
      && r.nodes[i].parents == G.nodes[i].parents && RevAt(r, i) == RevAt(G, i)
    else
      && r.nodes[i].lookups == 0 && r.nodes[i].dir && r.nodes[i].parents == [] && RevAt(r, i) == 0
  }

  ghost predicate RestoredRecords(G: Graph, done: set<Ino>, r: Graph)
    requires done <= G.nodes.Keys
  {
    forall i :: i in r.nodes ==> RestoredRecord(G, done, r, i)
  }

  ghost predicate RestoredKids(G: Graph, done: set<Ino>, r: Graph) {
    forall i, s, x :: HasKid(r, i, s, x) <==> x in done && HasKid(G, i, s, x)
  }

  ghost predicate Restored(G: Graph, done: set<Ino>, r: Graph)
    requires done <= G.nodes.Keys
  {
    RestoredDomain(G, done, r) && RestoredRecords(G, done, r) && RestoredKids(G, done, r)
  }

  lemma SetFieldsEffect(r: Graph, d: DumpInode)
    requires Numbered(r)
    ensures var m, n := SetFields(r, d), if d.ino in r.nodes then r.nodes[d.ino] else Blank(d.ino, false);
            && Numbered(m) && m.nodes == r.nodes[d.ino := WithFields(n, d)] && m.rev == r.rev[d.ino := d.revision]
  {
  }

  lemma SetFieldsKids(r: Graph, d: DumpInode)
    requires Numbered(r)
    ensures forall i, s, x :: HasKid(SetFields(r, d), i, s, x) <==> HasKid(r, i, s, x)
  {
  }

  lemma EntriesOf(G: Graph, c: Ino)
    requires Whole(G) && c in G.nodes
    ensures forall i, s :: Entry(s, i) in RecordOf(G, c).parents <==> HasKid(G, i, s, c)
    ensures forall i :: Lists(RecordOf(G, c).parents, i) <==> exists s :: HasKid(G, i, s, c)
    ensures Replay(RecordOf(G, c).parents, []) == G.nodes[c].parents
  {
    ReplayReverse(G.nodes[c].parents);
    var es := RecordOf(G, c).parents;
    forall i, s ensures Entry(s, i) in es <==> HasKid(G, i, s, c) {
      assert HasKid(G, i, s, c) <==> HasEntry(G, c, s, i);
    }
    forall i ensures Lists(es, i) <==> exists s :: HasKid(G, i, s, c) {
      if Lists(es, i) {
        var s :| Entry(s, i) in es;
        assert HasKid(G, i, s, c);
      }
      if s :| HasKid(G, i, s, c) {
        assert Entry(s, i) in es;
      }
    }
  }

  lemma AddedDomain(G: Graph, done: set<Ino>, r: Graph, c: Ino, m: Graph, h: Graph, es: seq<Entry>)
    requires RestoredDomain(G, done, r) && m.nodes.Keys == r.nodes.Keys + {c} && AttachedDomain(m, h, es)
    requires forall i :: Lists(es, i) <==> exists s :: HasKid(G, i, s, c)
    ensures RestoredDomain(G, done + {c}, h)
  {
  }

  lemma AddedKids(G: Graph, done: set<Ino>, r: Graph, c: Ino, m: Graph, h: Graph, es: seq<Entry>)
    requires RestoredKids(G, done, r) && AttachedKids(m, h, c, es)
    requires forall i, s, x :: HasKid(m, i, s, x) <==> HasKid(r, i, s, x)
    requires forall i, s :: Entry(s, i) in es <==> HasKid(G, i, s, c)
    ensures RestoredKids(G, done + {c}, h)
  {
  }

  lemma TouchedIsDir(G: Graph, done: set<Ino>, i: Ino)
    requires Whole(G) && Touched(G, done, i)
    ensures i in G.nodes && G.nodes[i].dir
  {
  }

  lemma AddedRecords(G: Graph, done: set<Ino>, r: Graph, c: Ino, h: Graph)
    requires Whole(G) && c in G.nodes && c !in done && done <= G.nodes.Keys
    requires RestoredDomain(G, done, r) && RestoredRecords(G, done, r)
    requires var m, es := SetFields(r, RecordOf(G, c)), RecordOf(G, c).parents;
             AttachedDomain(m, h, es) && AttachedRecords(m, h, c, es)
    ensures RestoredRecords(G, done + {c}, h)
  {
    hide SetFields, Symmetric, WellFormed, RecordOf, Replay, Touched, Lists;
    var d := RecordOf(G, c);
    var m := SetFields(r, d);
    SetFieldsEffect(r, d);
    EntriesOf(G, c);
    RecordFields(G, c);
    forall i | i in h.nodes ensures RestoredRecord(G, done + {c}, h, i) {
      if i == c {
        if c in r.nodes {
          assert RestoredRecord(G, done, r, c);
          TouchedIsDir(G, done, c);
        }
        assert NodeAt(m, c).parents == [];
      } else if i in r.nodes {
        assert RestoredRecord(G, done, r, i);
        assert RestoredRecord(G, done, m, i);
      } else {
        assert NodeAt(m, i) == Blank(i, true);
      }
    }
  }

  lemma RecordFields(G: Graph, c: Ino)
    requires c in G.nodes && c in G.rev
    ensures var d := RecordOf(G, c);
            d.ino == c && d.revision == RevAt(G, c) && d.lookupCount == G.nodes[c].lookups && d.isDir == G.nodes[c].dir
  {
  }

  /** One more record, whatever came before it. */
  lemma AddInodeEffect(G: Graph, done: set<Ino>, r: Graph, c: Ino)
    requires Whole(G) && c in G.nodes && c !in done && done <= G.nodes.Keys
    requires Restored(G, done, r)
    ensures Restored(G, done + {c}, AddInode(r, RecordOf(G, c)))
  {
    hide SetFields, AttachAll, WellFormed, Symmetric, AttachedDomain, AttachedRecords, AttachedKids, RestoredKids,
      RestoredRecords;
    var d := RecordOf(G, c);
    var m := SetFields(r, d);
    SetFieldsEffect(r, d);
    SetFieldsKids(r, d);
    var h := AttachAll(m, c, d.parents);
    EntriesOf(G, c);
    AttachAllEffect(m, c, d.parents);
    AddedDomain(G, done, r, c, m, h, d.parents);
    AddedKids(G, done, r, c, m, h, d.parents);
    AddedRecords(G, done, r, c, h);
  }

  /** Records of a whole graph are accepted in any order. */
  lemma RecordAccepted(G: Graph, done: set<Ino>, r: Graph, c: Ino)
    requires Whole(G) && c in G.nodes && c !in done && done <= G.nodes.Keys
    requires Restored(G, done, r)
    ensures Accepts(r, RecordOf(G, c))
  {
    hide SetFields, RecordOf;
    var d := RecordOf(G, c);
    var m := SetFields(r, d);
    SetFieldsEffect(r, d);
    RecordFields(G, c);
    forall e | e in d.parents && e.node in m.nodes ensures m.nodes[e.node].dir {
      EntriesOf(G, c);
      assert HasKid(G, e.node, e.name, c);
      if e.node != c {
        assert RestoredRecord(G, done, r, e.node);
      }
    }
  }

  // ----- all records, in any order -----

  ghost function RecordsOf(G: Graph, order: seq<Ino>): (ds: seq<DumpInode>)
    requires G.nodes.Keys == G.rev.Keys && forall i :: i in order ==> i in G.nodes
    ensures |ds| == |order|
  {
    seq(|order|, k requires 0 <= k < |order| => RecordOf(G, order[k]))
  }

  ghost function Numbers(order: seq<Ino>): set<Ino> {
    set i | i in order
  }

  lemma NumbersSnoc(order: seq<Ino>)
    requires order != []
    ensures var n := |order| - 1; Numbers(order) == Numbers(order[..n]) + {order[n]} && order[n] in order
    ensures Distinct(order) ==> var n := |order| - 1; Distinct(order[..n]) && order[n] !in Numbers(order[..n])
  {
  }

  lemma {:induction false} DistinctCount(order: seq<Ino>)
    requires Distinct(order)
    ensures |Numbers(order)| == |order|
  {
    if order != [] {
      NumbersSnoc(order);
      DistinctCount(order[..|order| - 1]);
    } else {
      assert Numbers(order) == {};
    }
  }

  lemma AddAllSnoc(G: Graph, order: seq<Ino>)
    requires G.nodes.Keys == G.rev.Keys && order != [] && forall i :: i in order ==> i in G.nodes
    ensures var n := |order| - 1;
            AddAll(EMPTY, RecordsOf(G, order)) == AddInode(AddAll(EMPTY, RecordsOf(G, order[..n])),
                                                           RecordOf(G, order[n]))
  {
    var n := |order| - 1;
    assert RecordsOf(G, order)[..n] == RecordsOf(G, order[..n]);
  }

  lemma RecordsPrefix(G: Graph, order: seq<Ino>, k: nat)
    requires G.nodes.Keys == G.rev.Keys && k < |order| && forall i :: i in order ==> i in G.nodes
    ensures RecordsOf(G, order)[k] == RecordOf(G, order[k])
    ensures RecordsOf(G, order)[..k] == RecordsOf(G, order[..k])
    ensures var n := |order| - 1; k < n ==>
            RecordsOf(G, order[..n])[k] == RecordsOf(G, order)[k]
              && RecordsOf(G, order[..n])[..k] == RecordsOf(G, order)[..k]
  {
  }

  lemma {:induction false} AddAllEffect(G: Graph, order: seq<Ino>)
    requires Whole(G) && Distinct(order) && forall i :: i in order ==> i in G.nodes
    ensures Numbers(order) <= G.nodes.Keys
    ensures Restored(G, Numbers(order), AddAll(EMPTY, RecordsOf(G, order)))
    ensures forall k :: 0 <= k < |order| ==> Accepts(AddAll(EMPTY, RecordsOf(G, order)[..k]), RecordsOf(G, order)[k])
  {
    hide Symmetric, Restored, AddInode, AddAll, RecordOf, RecordsOf, Numbers, Accepts;
    if order == [] {
      EmptyRestored(G);
    } else {
      var n := |order| - 1;
      AddAllEffect(G, order[..n]);
      NumbersSnoc(order);
      AddAllSnoc(G, order);
      var r := AddAll(EMPTY, RecordsOf(G, order[..n]));
      RecordAccepted(G, Numbers(order[..n]), r, order[n]);
      AddInodeEffect(G, Numbers(order[..n]), r, order[n]);
      forall k | 0 <= k < |order|
        ensures Accepts(AddAll(EMPTY, RecordsOf(G, order)[..k]), RecordsOf(G, order)[k])
      {
        RecordsPrefix(G, order, k);
      }
    }
  }

  lemma EmptyRestored(G: Graph)
    requires G.nodes.Keys == G.rev.Keys
    ensures Numbers([]) == {} && RecordsOf(G, []) == [] && Restored(G, {}, AddAll(EMPTY, RecordsOf(G, [])))
  {
  }

  /** With every record in, the graph is the one that was dumped. */
  lemma RestoredAll(G: Graph, r: Graph)
    requires Whole(G) && Restored(G, G.nodes.Keys, r)
    ensures r == G
  {
    forall i ensures i in r.nodes <==> i in G.nodes {
      if Touched(G, G.nodes.Keys, i) {
        TouchedIsDir(G, G.nodes.Keys, i);
      }
    }
    forall i | i in G.nodes ensures r.nodes[i] == G.nodes[i] && r.rev[i] == G.rev[i] {
      assert RestoredRecord(G, G.nodes.Keys, r, i);
      assert forall s, x :: HasKid(r, i, s, x) <==> HasKid(G, i, s, x);
      SameKids(r, G, i);
    }
  }

  lemma SameKids(r: Graph, G: Graph, i: Ino)
    requires i in r.nodes && i in G.nodes
    requires forall s, x :: HasKid(r, i, s, x) <==> HasKid(G, i, s, x)
    ensures r.nodes[i].kids == G.nodes[i].kids
  {
    var a, b := r.nodes[i].kids, G.nodes[i].kids;
    forall s ensures s in a <==> s in b {
      if s in a { assert HasKid(r, i, s, a[s]); }
      if s in b { assert HasKid(G, i, s, b[s]); }
    }
    forall s | s in a ensures a[s] == b[s] {
      assert HasKid(r, i, s, a[s]);
    }
  }

  // ----- a bridge and its numbers -----

  /** Registered inodes have edges to registered inodes only. */
  ghost predicate Enclosed(g: Graph) {
    && (forall d, s, x :: HasKid(g, d, s, x) && d in g.reg.Values ==> x in g.reg.Values)
    && (forall c, s, d :: HasEntry(g, c, s, d) && c in g.reg.Values ==> d in g.reg.Values)
  }

  /** What sequential use with coherent adds maintains can be dumped. */
  lemma CoherentEnclosed(g: Graph)
    requires Coherent(g)
    ensures Indexed(g) && Mirrored(g) && Enclosed(g)
  {
  }

  /** Between registered inodes the two edge directions agree. */
  ghost predicate Mirrored(g: Graph) {
    forall d, s, c :: d in g.reg.Values && c in g.reg.Values ==> (HasKid(g, d, s, c) <==> HasEntry(g, c, s, d))
  }

  lemma NumberOf(g: Graph, n: Addr)
    requires Indexed(g) && n in g.reg.Values
    ensures n in g.nodes && g.nodes[n].ino in g.reg && g.reg[g.nodes[n].ino] == n
  {
  }

  lemma KidByIno(g: Graph, i: Ino, s: string, x: Ino)
    requires Indexed(g) && Enclosed(g)
    ensures HasKid(ByIno(g), i, s, x) <==> i in g.reg && x in g.reg && HasKid(g, g.reg[i], s, g.reg[x])
  {
    if HasKid(ByIno(g), i, s, x) {
      var k := g.nodes[g.reg[i]].kids[s];
      assert HasKid(g, g.reg[i], s, k);
      NumberOf(g, k);
    }
  }

  lemma EntryNumber(g: Graph, i: Ino, s: string, x: Ino)
    requires Indexed(g) && Enclosed(g)
    ensures HasEntry(ByIno(g), i, s, x) <==> i in g.reg && x in g.reg && HasEntry(g, g.reg[i], s, g.reg[x])
  {
    if HasEntry(ByIno(g), i, s, x) {
      var l := g.nodes[g.reg[i]].parents;
      var k :| 0 <= k < |l| && EntryByIno(g, l[k]) == Entry(s, x);
      assert HasEntry(g, g.reg[i], l[k].name, l[k].node);
      NumberOf(g, l[k].node);
    }
    if i in g.reg && x in g.reg && HasEntry(g, g.reg[i], s, g.reg[x]) {
      var l := g.nodes[g.reg[i]].parents;
      var k :| 0 <= k < |l| && l[k] == Entry(s, g.reg[x]);
      assert EntriesByIno(g, l)[k] == Entry(s, x);
    }
  }

  ghost predicate AllRegistered(g: Graph, l: seq<Entry>) {
    forall e :: e in l ==> e.node in g.reg.Values
  }

  lemma EntryInjective(g: Graph, e: Entry, f: Entry)
    requires Indexed(g) && e.node in g.reg.Values && f.node in g.reg.Values
    ensures EntryByIno(g, e) == EntryByIno(g, f) <==> e == f
  {
  }

  lemma MemberByIno(g: Graph, l: seq<Entry>, e: Entry)
    requires Indexed(g) && AllRegistered(g, l) && e.node in g.reg.Values
    ensures EntryByIno(g, e) in EntriesByIno(g, l) <==> e in l
  {
  }

  lemma {:induction false} NoDupByIno(g: Graph, l: seq<Entry>)
    requires Indexed(g) && AllRegistered(g, l) && NoDup(l)
    ensures NoDup(EntriesByIno(g, l))
  {
    if l != [] {
      NoDupByIno(g, l[1..]);
      assert EntriesByIno(g, l)[1..] == EntriesByIno(g, l[1..]);
      MemberByIno(g, l[1..], l[0]);
    }
  }

  lemma ConsByIno(g: Graph, e: Entry, l: seq<Entry>)
    ensures EntriesByIno(g, [e] + l) == [EntryByIno(g, e)] + EntriesByIno(g, l)
  {
  }

  lemma {:induction false} RemoveByIno(g: Graph, l: seq<Entry>, e: Entry)
    requires Indexed(g) && AllRegistered(g, l) && e.node in g.reg.Values
    ensures EntriesByIno(g, Remove(l, e)) == Remove(EntriesByIno(g, l), EntryByIno(g, e))
  {
    if l != [] {
      hide EntryByIno, Indexed;
      RemoveByIno(g, l[1..], e);
      assert EntriesByIno(g, l)[1..] == EntriesByIno(g, l[1..]);
      EntryInjective(g, e, l[0]);
      ConsByIno(g, l[0], Remove(l[1..], e));
    }
  }

  lemma MoveToFrontByIno(g: Graph, l: seq<Entry>, e: Entry)
    requires Indexed(g) && AllRegistered(g, l) && e.node in g.reg.Values
    ensures EntriesByIno(g, MoveToFront(l, e)) == MoveToFront(EntriesByIno(g, l), EntryByIno(g, e))
  {
    RemoveByIno(g, l, e);
    ConsByIno(g, e, Remove(l, e));
  }

  lemma {:induction false} ReverseByIno(g: Graph, l: seq<Entry>)
    ensures EntriesByIno(g, Reverse(l)) == Reverse(EntriesByIno(g, l))
  {
    if l != [] {
      ReverseByIno(g, l[1..]);
      assert EntriesByIno(g, l)[1..] == EntriesByIno(g, l[1..]);
      assert EntriesByIno(g, Reverse(l[1..]) + [l[0]]) == EntriesByIno(g, Reverse(l[1..])) + [EntryByIno(g, l[0])];
    }
  }

  lemma ParentsRegistered(g: Graph, n: Addr)
    requires Indexed(g) && Enclosed(g) && n in g.reg.Values
    ensures n in g.nodes && AllRegistered(g, g.nodes[n].parents)
  {
    forall e | e in g.nodes[n].parents ensures e.node in g.reg.Values {
      assert HasEntry(g, n, e.name, e.node);
    }
  }

  lemma ByInoWhole(g: Graph)
    requires WellFormed(g) && Mirrored(g) && Enclosed(g)
    ensures Whole(ByIno(g))
  {
    hide NoDup, NodeByIno;
    var G := ByIno(g);
    forall i, s, x
      ensures HasKid(G, i, s, x) <==> i in g.reg && x in g.reg && HasKid(g, g.reg[i], s, g.reg[x])
      ensures HasEntry(G, x, s, i) <==> i in g.reg && x in g.reg && HasEntry(g, g.reg[x], s, g.reg[i])
    {
      KidByIno(g, i, s, x);
      EntryNumber(g, x, s, i);
    }
    forall i | i in G.nodes
      ensures G.nodes[i].ino == i && G.nodes[i].dir == g.nodes[g.reg[i]].dir
      ensures NoDup(G.nodes[i].parents) && (!G.nodes[i].dir ==> G.nodes[i].kids == map[])
    {
      NodeNumbers(g, g.nodes[g.reg[i]]);
      ParentsRegistered(g, g.reg[i]);
      NoDupByIno(g, g.nodes[g.reg[i]].parents);
    }
  }

  lemma NodeNumbers(g: Graph, n: Node)
    ensures var m := NodeByIno(g, n);
            && m.ino == n.ino && m.dir == n.dir && m.lookups == n.lookups
            && m.parents == EntriesByIno(g, n.parents) && (n.kids == map[] ==> m.kids == map[])
  {
  }

  lemma DumpIsRecord(g: Graph, i: Ino)
    requires Indexed(g) && i in g.reg
    ensures DumpOf(g, g.reg[i]) == RecordOf(ByIno(g), i)
  {
    ReverseByIno(g, g.nodes[g.reg[i]].parents);
  }

  // ----- the round trip -----

  /** The dump of the registered inodes, met in the order `order`. */
  ghost function DumpsOf(g: Graph, order: seq<Ino>): (ds: seq<DumpInode>)
    requires Indexed(g) && forall i :: i in order ==> i in g.reg
    ensures |ds| == |order|
  {
    seq(|order|, k requires 0 <= k < |order| => DumpOf(g, g.reg[order[k]]))
  }

  lemma DumpsAreRecords(g: Graph, order: seq<Ino>)
    requires Indexed(g) && forall i :: i in order ==> i in g.reg
    ensures DumpsOf(g, order) == RecordsOf(ByIno(g), order)
  {
    hide ByIno, DumpOf, RecordOf;
    ByInoDomain(g);
    forall i | i in order ensures i in ByIno(g).nodes && DumpOf(g, g.reg[i]) == RecordOf(ByIno(g), i) {
      DumpIsRecord(g, i);
    }
  }

  lemma ByInoDomain(g: Graph)
    requires Indexed(g)
    ensures ByIno(g).nodes.Keys == ByIno(g).rev.Keys == g.reg.Keys
    ensures ByIno(g).reg == map i | i in g.reg :: i
  {
  }

  /**
    Restoring the dumped inodes in any order is accepted and rebuilds the graph:
    numbers, kinds, revisions, lookup counts, children and the recency order of parents.
   */
  lemma RoundTrip(g: Graph, order: seq<Ino>)
    requires WellFormed(g) && Mirrored(g) && Enclosed(g)
    requires Distinct(order) && Numbers(order) == g.reg.Keys
    ensures forall i :: i in order ==> i in g.reg
    ensures |order| == |g.reg| && AddAll(EMPTY, DumpsOf(g, order)) == ByIno(g)
    ensures forall k :: 0 <= k < |order| ==> Accepts(AddAll(EMPTY, DumpsOf(g, order)[..k]), DumpsOf(g, order)[k])
  {
    hide Mirrored, Enclosed, NoDup, ByIno, RecordsOf, DumpsOf, Accepts, AddAll, Restored;
    forall i | i in order ensures i in g.reg {
      assert i in Numbers(order);
    }
    ByInoWhole(g);
    ByInoDomain(g);
    DumpsAreRecords(g, order);
    DistinctCount(order);
    AddAllEffect(ByIno(g), order);
    RestoredAll(ByIno(g), AddAll(EMPTY, RecordsOf(ByIno(g), order)));
  }

  // ----- which graphs come back -----

  /** `k` is the last record that lists directory `i` and name `s`. */
  ghost predicate Settles(ds: seq<DumpInode>, k: int, s: string, i: Ino) {
    && 0 <= k < |ds| && Entry(s, i) in ds[k].parents
    && forall j :: k < j < |ds| ==> Entry(s, i) !in ds[j].parents
  }

  ghost predicate Wins(ds: seq<DumpInode>, i: Ino, s: string, x: Ino) {
    exists k :: Settles(ds, k, s, i) && ds[k].ino == x
  }

  lemma WinsSnoc(ds: seq<DumpInode>, d: DumpInode, i: Ino, s: string, x: Ino)
    ensures Wins(ds + [d], i, s, x) <==> if Entry(s, i) in d.parents then x == d.ino else Wins(ds, i, s, x)
  {
    var all := ds + [d];
    if Entry(s, i) in d.parents {
      assert Settles(all, |ds|, s, i);
    } else {
      if Wins(ds, i, s, x) {
        var k :| Settles(ds, k, s, i) && ds[k].ino == x;
        assert Settles(all, k, s, i);
      }
      if Wins(all, i, s, x) {
        var k :| Settles(all, k, s, i) && all[k].ino == x;
        assert forall j :: 0 <= j < |ds| ==> ds[j] == all[j];
        assert Settles(ds, k, s, i);
      }
    }
  }

  /** Whatever records are restored, a slot leads to the last inode whose record lists it. */
  lemma {:induction false} LastListedWins(ds: seq<DumpInode>)
    ensures Numbered(AddAll(EMPTY, ds))
    ensures forall i, s, x :: HasKid(AddAll(EMPTY, ds), i, s, x) <==> Wins(ds, i, s, x)
  {
    hide AddInode, Wins, HasKid;
    if ds == [] {
      NobodyWins();
    } else {
      var n := |ds| - 1;
      var r, d := AddAll(EMPTY, ds[..n]), ds[n];
      LastListedWins(ds[..n]);
      AddInodeKids(r, d);
      assert ds == ds[..n] + [d];
      forall i, s, x ensures HasKid(AddAll(EMPTY, ds), i, s, x) <==> Wins(ds, i, s, x) {
        WinsSnoc(ds[..n], d, i, s, x);
      }
    }
  }

  lemma AddInodeKids(r: Graph, d: DumpInode)
    requires Numbered(r)
    ensures Numbered(AddInode(r, d))
    ensures forall i, s, x ::
              HasKid(AddInode(r, d), i, s, x) <==> if Entry(s, i) in d.parents then x == d.ino else HasKid(r, i, s, x)
  {
    hide SetFields, AttachAll, HasKid;
    SetFieldsEffect(r, d);
    SetFieldsKids(r, d);
    AttachAllEffect(SetFields(r, d), d.ino, d.parents);
  }

  lemma NobodyWins()
    ensures forall i, s, x :: !Wins([], i, s, x) && !HasKid(EMPTY, i, s, x)
  {
  }

  /** A complete order that ends with `x`. */
  lemma OrderEndingIn(all: set<Ino>, x: Ino) returns (order: seq<Ino>)
    requires x in all
    ensures Distinct(order) && Numbers(order) == all && order != [] && order[|order| - 1] == x
  {
    var rest := OrderOf(all - {x});
    order := rest + [x];
    assert order[..|order| - 1] == rest;
    assert x !in Numbers(rest);
    NumbersSnoc(order);
  }

  lemma {:induction false} OrderOf(all: set<Ino>) returns (order: seq<Ino>)
    ensures Distinct(order) && Numbers(order) == all
    decreases all
  {
    order := [];
    if all != {} {
      var x :| x in all;
      var rest := OrderOf(all - {x});
      order := rest + [x];
      assert order[..|order| - 1] == rest;
      assert x !in Numbers(rest);
      NumbersSnoc(order);
    }
  }

  /** The dump, met in this order, brings the graph back. */
  ghost predicate Rebuilds(g: Graph, order: seq<Ino>)
    requires Indexed(g)
  {
    (forall i :: i in order ==> i in g.reg) && AddAll(EMPTY, DumpsOf(g, order)) == ByIno(g)
  }

  /** A record lists exactly the entries of its inode. */
  lemma DumpLists(g: Graph, x: Ino, s: string, i: Ino)
    requires Indexed(g) && Enclosed(g) && x in g.reg
    ensures Entry(s, i) in DumpOf(g, g.reg[x]).parents <==> i in g.reg && HasEntry(g, g.reg[x], s, g.reg[i])
  {
    DumpIsRecord(g, x);
    EntryNumber(g, x, s, i);
  }

  /** Restored in an order that ends with `x`, the slots that `x` lists lead to it. */
  lemma RebuiltEdge(g: Graph, order: seq<Ino>, d: Addr, s: string, c: Addr)
    requires WellFormed(g) && Enclosed(g) && d in g.reg.Values && c in g.reg.Values && g.nodes[c].ino in order
    requires Rebuilds(g, order) && order != [] && order[|order| - 1] == g.nodes[c].ino
    ensures HasKid(g, d, s, c) <==> HasEntry(g, c, s, d)
  {
    hide DumpOf, ByIno, NoDup;
    var i, x := g.nodes[d].ino, g.nodes[c].ino;
    NumberOf(g, d);
    NumberOf(g, c);
    var ds := DumpsOf(g, order);
    LastListedWins(ds);
    KidByIno(g, i, s, x);
    DumpLists(g, x, s, i);
    assert HasKid(g, d, s, c) <==> Wins(ds, i, s, x);
    if HasEntry(g, c, s, d) {
      assert Settles(ds, |order| - 1, s, i);
      DumpNumber(g, x);
    }
    if Wins(ds, i, s, x) {
      var k :| Settles(ds, k, s, i) && ds[k].ino == x;
      DumpNumber(g, order[k]);
    }
  }

  lemma DumpNumber(g: Graph, x: Ino)
    requires Indexed(g) && x in g.reg
    ensures DumpOf(g, g.reg[x]).ino == x
  {
  }

  /** Every order of the records brings the graph back exactly when the two directions agree. */
  lemma RoundTripExact(g: Graph)
    requires WellFormed(g) && Enclosed(g)
    ensures (forall order: seq<Ino> :: Distinct(order) && Numbers(order) == g.reg.Keys ==> Rebuilds(g, order)) <==>
            Mirrored(g)
  {
    hide NoDup, ByIno, DumpsOf, AddAll, Accepts;
    if Mirrored(g) {
      forall order: seq<Ino> | Distinct(order) && Numbers(order) == g.reg.Keys ensures Rebuilds(g, order) {
        RoundTrip(g, order);
      }
    }
    if forall order: seq<Ino> :: Distinct(order) && Numbers(order) == g.reg.Keys ==> Rebuilds(g, order) {
      forall d, s, c | d in g.reg.Values && c in g.reg.Values ensures HasKid(g, d, s, c) <==> HasEntry(g, c, s, d) {
        NumberOf(g, c);
        var order := OrderEndingIn(g.reg.Keys, g.nodes[c].ino);
        RebuiltEdge(g, order, d, s, c);
      }
    }
  }

  /** addChild of a number that is not registered yet. */
  lemma AddNew(g: Graph, h: Graph, p: Addr, name: string, ino: Ino, spare: Addr)
    requires WellFormed(g) && Forward(g) && p in g.nodes && g.nodes[p].dir && ino !in g.reg && spare !in g.nodes
    requires h == AddStep(g, p, name, ino, false, spare)
    ensures WellFormed(h) && Forward(h) && h.reg == g.reg[ino := spare]
            && h.nodes.Keys == h.rev.Keys == g.nodes.Keys + {spare}
    ensures p in h.nodes && h.nodes[p].dir && HasEntry(h, spare, name, p)
    ensures forall c, s, d :: HasEntry(g, c, s, d) ==> HasEntry(h, c, s, d)
  {
    hide AddStep, NoDup;
    AddEffect(g, h, p, name, ino, false, spare);
  }

  lemma AllEnclosed(g: Graph)
    requires WellFormed(g) && g.nodes.Keys == g.reg.Values
    ensures Enclosed(g) && Indexed(g)
  {
  }

  lemma OnlyRoot(g: Graph)
    requires g == Graph(map[0 := Node(1, 1, true, map[], [])], map[1 := 0], map[0 := 0])
    ensures WellFormed(g) && Forward(g) && g.reg == map[1 := 0] && g.nodes.Keys == {0} && g.nodes[0].dir
  {
  }

  /** Two inodes looked up under one name: which of them has the slot depends on the order. */
  lemma OrderMatters() returns (g0: Graph, g1: Graph, g: Graph)
    ensures g0 == Graph(map[0 := Node(1, 1, true, map[], [])], map[1 := 0], map[0 := 0])
    ensures g0.rev.Keys == g0.nodes.Keys && 0 in g0.nodes && 2 !in g0.reg && g1 == AddStep(g0, 0, "a", 2, false, 1)
    ensures g1.rev.Keys == g1.nodes.Keys && 0 in g1.nodes && 3 !in g1.reg && g == AddStep(g1, 0, "a", 3, false, 2)
    ensures Indexed(g) && g.reg == map[1 := 0, 2 := 1, 3 := 2]
    ensures HasKid(AddAll(EMPTY, DumpsOf(g, [1, 2, 3])), 1, "a", 3)
    ensures HasKid(AddAll(EMPTY, DumpsOf(g, [1, 3, 2])), 1, "a", 2)
    ensures WellFormed(g) && Forward(g) && Enclosed(g)
  {
    hide WellFormed, Forward, HasEntry, AddStep, Enclosed, AddAll, DumpsOf, HasKid, Indexed;
    g0 := Graph(map[0 := Node(1, 1, true, map[], [])], map[1 := 0], map[0 := 0]);
    OnlyRoot(g0);
    g1 := AddStep(g0, 0, "a", 2, false, 1);
    AddNew(g0, g1, 0, "a", 2, 1);
    g := AddStep(g1, 0, "a", 3, false, 2);
    AddNew(g1, g, 0, "a", 3, 2);
    assert g.reg == map[1 := 0, 2 := 1, 3 := 2];
    assert g.reg[1] == 0 && g.reg[2] == 1 && g.reg[3] == 2;
    assert g.reg.Values == {0, 1, 2};
    AllEnclosed(g);
    LastHas(g, [1, 2, 3], 1, "a");
    LastHas(g, [1, 3, 2], 1, "a");
  }

  /** The last inode of the order has the slots it lists. */
  lemma LastHas(g: Graph, order: seq<Ino>, i: Ino, s: string)
    requires Indexed(g) && Enclosed(g) && order != [] && forall x :: x in order ==> x in g.reg
    requires i in g.reg && HasEntry(g, g.reg[order[|order| - 1]], s, g.reg[i])
    ensures HasKid(AddAll(EMPTY, DumpsOf(g, order)), i, s, order[|order| - 1])
  {
    hide DumpOf, ByIno;
    var ds, x := DumpsOf(g, order), order[|order| - 1];
    LastListedWins(ds);
    DumpLists(g, x, s, i);
    DumpNumber(g, x);
    assert Settles(ds, |order| - 1, s, i);
  }

  // ----- assignments to inodes, seen by number -----

  ghost predicate Restorable(g: Graph) {
    Indexed(g) && Enclosed(g)
  }

  /** Only the record of the inode registered under `i` differs. */
  ghost predicate OneRecord(g: Graph, h: Graph, i: Ino)
    requires i in g.reg
  {
    && h.reg == g.reg
    && g.reg[i] in h.nodes && g.reg[i] in h.rev
    && h.nodes == g.nodes[g.reg[i] := h.nodes[g.reg[i]]]
    && h.rev == g.rev[g.reg[i] := h.rev[g.reg[i]]]
    && g.reg[i] in g.nodes && h.nodes[g.reg[i]].ino == g.nodes[g.reg[i]].ino
  }

  lemma OneRecordByIno(g: Graph, h: Graph, i: Ino)
    requires Restorable(g) && i in g.reg && OneRecord(g, h, i)
    requires forall s :: s in h.nodes[h.reg[i]].kids ==> h.nodes[h.reg[i]].kids[s] in g.reg.Values
    requires AllRegistered(g, h.nodes[h.reg[i]].parents)
    ensures Restorable(h) && ByIno(g).nodes.Keys == ByIno(g).rev.Keys == g.reg.Keys
    ensures ByIno(h) == Graph(ByIno(g).nodes[i := NodeByIno(g, h.nodes[h.reg[i]])], ByIno(g).reg,
                              ByIno(g).rev[i := Wrap(h.rev[h.reg[i]])])
  {
    hide NodeByIno, ByIno, Enclosed, AllRegistered;
    OneRecordEnclosed(g, h, i);
    ByInoDomain(g);
    ByInoDomain(h);
    forall j | j in g.reg
      ensures ByIno(h).nodes[j] == if j == i then NodeByIno(g, h.nodes[h.reg[i]]) else ByIno(g).nodes[j]
      ensures ByIno(h).rev[j] == if j == i then Wrap(h.rev[h.reg[i]]) else ByIno(g).rev[j]
    {
      ByInoAt(g, j);
      ByInoAt(h, j);
      SameNumbers(g, h, h.nodes[h.reg[j]]);
      if j != i {
        assert g.nodes[g.reg[j]].ino == j && g.reg[j] != g.reg[i];
      }
    }
    Replaced(ByIno(g), ByIno(h), i, NodeByIno(g, h.nodes[h.reg[i]]), Wrap(h.rev[h.reg[i]]));
  }

  /** Equal but for one record. */
  lemma Replaced(r: Graph, h: Graph, i: Ino, n: Node, rev: nat)
    requires r.nodes.Keys == r.rev.Keys == h.nodes.Keys == h.rev.Keys && r.reg == h.reg && i in r.nodes
    requires forall j :: j in r.nodes ==> h.nodes[j] == if j == i then n else r.nodes[j]
    requires forall j :: j in r.rev ==> h.rev[j] == if j == i then rev else r.rev[j]
    ensures h == Graph(r.nodes[i := n], r.reg, r.rev[i := rev])
  {
  }

  lemma OneRecordEnclosed(g: Graph, h: Graph, i: Ino)
    requires Restorable(g) && i in g.reg && OneRecord(g, h, i)
    requires forall s :: s in h.nodes[h.reg[i]].kids ==> h.nodes[h.reg[i]].kids[s] in g.reg.Values
    requires AllRegistered(g, h.nodes[h.reg[i]].parents)
    ensures Restorable(h)
  {
    forall d, s, x | HasKid(h, d, s, x) && d in h.reg.Values ensures x in h.reg.Values {
      assert d == g.reg[i] || HasKid(g, d, s, x);
    }
    forall c, s, d | HasEntry(h, c, s, d) && c in h.reg.Values ensures d in h.reg.Values {
      assert if c == g.reg[i] then Entry(s, d) in h.nodes[h.reg[i]].parents else HasEntry(g, c, s, d);
    }
  }

  /** The numbers of inodes did not change. */
  lemma SameNumbers(g: Graph, h: Graph, n: Node)
    requires g.nodes.Keys == h.nodes.Keys && forall a :: a in g.nodes ==> h.nodes[a].ino == g.nodes[a].ino
    ensures NodeByIno(h, n) == NodeByIno(g, n)
  {
  }

  lemma FieldsByIno(g: Graph, i: Ino, d: DumpInode)
    requires Restorable(g) && i in g.reg && d.ino == i && d.revision < WORD
    ensures i in ByIno(g).nodes
    ensures var c := g.reg[i];
            var h := g.(nodes := g.nodes[c := WithFields(g.nodes[c], d)], rev := g.rev[c := d.revision]);
            Restorable(h) && ByIno(h) == SetFields(ByIno(g), d)
  {
    hide SetFields;
    var c := g.reg[i];
    var h := g.(nodes := g.nodes[c := WithFields(g.nodes[c], d)], rev := g.rev[c := d.revision]);
    EdgesRegistered(g, i);
    OneRecordByIno(g, h, i);
    SetFieldsAt(ByIno(g), d);
    assert NodeByIno(g, h.nodes[c]) == WithFields(NodeByIno(g, g.nodes[c]), d);
  }

  lemma SetFieldsAt(r: Graph, d: DumpInode)
    requires d.ino in r.nodes
    ensures SetFields(r, d) == Graph(r.nodes[d.ino := WithFields(r.nodes[d.ino], d)], r.reg, r.rev[d.ino := d.revision])
  {
  }

  lemma EdgesRegistered(g: Graph, i: Ino)
    requires Restorable(g) && i in g.reg
    ensures forall s :: s in g.nodes[g.reg[i]].kids ==> g.nodes[g.reg[i]].kids[s] in g.reg.Values
    ensures AllRegistered(g, g.nodes[g.reg[i]].parents)
  {
    ParentsRegistered(g, g.reg[i]);
    forall s | s in g.nodes[g.reg[i]].kids ensures g.nodes[g.reg[i]].kids[s] in g.reg.Values {
      assert HasKid(g, g.reg[i], s, g.nodes[g.reg[i]].kids[s]);
    }
  }

  lemma ByInoAt(g: Graph, i: Ino)
    requires Indexed(g) && i in g.reg
    ensures i in ByIno(g).nodes && ByIno(g).nodes[i] == NodeByIno(g, g.nodes[g.reg[i]])
    ensures i in ByIno(g).rev && ByIno(g).rev[i] == Wrap(g.rev[g.reg[i]])
  {
  }

  lemma KidsByInoSet(g: Graph, kids: map<string, Addr>, s: string, c: Addr)
    requires c in g.nodes
    ensures KidsByIno(g, kids[s := c]) == KidsByIno(g, kids)[s := g.nodes[c].ino]
  {
  }

  lemma SetKidByIno(g: Graph, i: Ino, s: string, x: Ino)
    requires Restorable(g) && i in g.reg && x in g.reg
    ensures i in ByIno(g).nodes
    ensures var h := SetKid(g, g.reg[i], s, g.reg[x]);
            Restorable(h) && ByIno(h) == SetKid(ByIno(g), i, s, x)
  {
    hide ByIno, KidsByIno, EntriesByIno, AllRegistered;
    var h := SetKid(g, g.reg[i], s, g.reg[x]);
    ByInoAt(g, i);
    EdgesRegistered(g, i);
    OneRecordByIno(g, h, i);
    KidsByInoSet(g, g.nodes[g.reg[i]].kids, s, g.reg[x]);
  }

  lemma AddParentByIno(g: Graph, c: Ino, s: string, d: Ino)
    requires Restorable(g) && c in g.reg && d in g.reg
    ensures c in ByIno(g).nodes
    ensures var h := AddParent(g, g.reg[c], Entry(s, g.reg[d]));
            Restorable(h) && ByIno(h) == AddParent(ByIno(g), c, Entry(s, d))
  {
    hide MoveToFront;
    var e := Entry(s, g.reg[d]);
    var h := AddParent(g, g.reg[c], e);
    EdgesRegistered(g, c);
    MoveToFrontByIno(g, g.nodes[g.reg[c]].parents, e);
    assert forall x :: x in MoveToFront(g.nodes[g.reg[c]].parents, e) <==> x in g.nodes[g.reg[c]].parents || x == e;
    OneRecordByIno(g, h, c);
  }

  /** A new inode of a number that is not registered yet. */
  lemma MadeByIno(g: Graph, at: Addr, i: Ino, dir: bool)
    requires Restorable(g) && i !in g.reg && at !in g.nodes
    ensures var h := Register(NewNode(g, at, i, dir), i, at);
            Restorable(h) && ByIno(h) == Ensure(ByIno(g), i, dir)
  {
    hide NodeByIno, ByIno, Enclosed, EntriesByIno, AllRegistered;
    var h := Register(NewNode(g, at, i, dir), i, at);
    MadeEnclosed(g, h, at, i, dir);
    forall j | j in g.reg
      ensures NodeByIno(h, h.nodes[h.reg[j]]) == NodeByIno(g, g.nodes[g.reg[j]]) && h.rev[h.reg[j]] == g.rev[g.reg[j]]
    {
      EdgesRegistered(g, j);
      GrownNumbers(g, h, g.nodes[g.reg[j]]);
    }
    NodeNumbers(h, h.nodes[at]);
    OneMore(g, h, at, i, dir);
  }

  lemma OneMore(g: Graph, h: Graph, at: Addr, i: Ino, dir: bool)
    requires Indexed(g) && Indexed(h) && i !in g.reg && h.reg == g.reg[i := at] && at in h.nodes && at in h.rev
    requires forall j :: j in g.reg ==>
               NodeByIno(h, h.nodes[h.reg[j]]) == NodeByIno(g, g.nodes[g.reg[j]]) && h.rev[h.reg[j]] == g.rev[g.reg[j]]
    requires NodeByIno(h, h.nodes[at]) == Blank(i, dir) && h.rev[at] == 0
    ensures ByIno(h) == Ensure(ByIno(g), i, dir)
  {
    hide ByIno, NodeByIno, Ensure;
    ByInoDomain(g);
    ByInoDomain(h);
    forall j | j in h.reg ensures ByIno(h).nodes[j] == (if j == i then Blank(i, dir) else ByIno(g).nodes[j])
                               && ByIno(h).rev[j] == (if j == i then 0 else ByIno(g).rev[j]) {
      ByInoAt(h, j);
      if j != i {
        ByInoAt(g, j);
      }
    }
    Ensured(ByIno(g), ByIno(h), i, dir);
  }

  lemma Ensured(r: Graph, h: Graph, i: Ino, dir: bool)
    requires i !in r.nodes && h.nodes.Keys == h.reg.Keys == h.rev.Keys && h.nodes.Keys == r.nodes.Keys + {i}
    requires r.nodes.Keys == r.reg.Keys == r.rev.Keys
    requires forall j :: j in h.reg ==> h.reg[j] == (if j == i then i else r.reg[j])
    requires forall j :: j in h.nodes ==> h.nodes[j] == (if j == i then Blank(i, dir) else r.nodes[j])
    requires forall j :: j in h.rev ==> h.rev[j] == (if j == i then 0 else r.rev[j])
    ensures h == Ensure(r, i, dir)
  {
  }

  lemma MadeEnclosed(g: Graph, h: Graph, at: Addr, i: Ino, dir: bool)
    requires Restorable(g) && i !in g.reg && at !in g.nodes && h == Register(NewNode(g, at, i, dir), i, at)
    ensures Restorable(h)
  {
    forall x | x in g.reg.Values ensures x in h.reg.Values {
      var j :| j in g.reg && g.reg[j] == x;
      assert h.reg[j] == x;
    }
    forall d, s, x | HasKid(h, d, s, x) && d in h.reg.Values ensures x in h.reg.Values {
      assert HasKid(g, d, s, x);
    }
    forall c, s, d | HasEntry(h, c, s, d) && c in h.reg.Values ensures d in h.reg.Values {
      assert HasEntry(g, c, s, d);
    }
  }

  lemma GrownNumbers(g: Graph, h: Graph, n: Node)
    requires Indexed(g) && g.nodes.Keys <= h.nodes.Keys && forall a :: a in g.nodes ==> h.nodes[a].ino == g.nodes[a].ino
    requires forall s :: s in n.kids ==> n.kids[s] in g.reg.Values
    requires AllRegistered(g, n.parents)
    ensures NodeByIno(h, n) == NodeByIno(g, n)
  {
  }
}
