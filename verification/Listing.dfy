/** ReadDirPlus: a directory listing that looks every listed entry up. */
module Listing {
  import opened Types
  import opened InodeGraph
  import opened Bridge
  import opened Handlers
  import opened AskedPaths
  import opened Handles
  import Kernel
  import Paths

  // ----- what a listing amounts to -----

  /** The entries that fit: empty names are skipped, and the first refusal ends the listing. */
  function Appended(entries: seq<string>, room: nat): seq<string> {
    if entries == [] then []
    else if entries[0] == "" then Appended(entries[1..], room)
    else if room == 0 then []
    else [entries[0]] + Appended(entries[1..], room - 1)
  }

  /** Every entry of a stretch of the stream that has a name. */
  function Nonempty(entries: seq<string>): (r: seq<string>)
    ensures forall i :: 0 <= i < |r| ==> r[i] != ""
  {
    if entries == [] then []
    else if entries[0] == "" then Nonempty(entries[1..])
    else [entries[0]] + Nonempty(entries[1..])
  }

  lemma {:induction false} NonemptyConcat(a: seq<string>, b: seq<string>)
    ensures Nonempty(a + b) == Nonempty(a) + Nonempty(b)
  {
    if a == [] {
      assert a + b == b;
    } else {
      assert (a + b)[1..] == a[1..] + b;
      NonemptyConcat(a[1..], b);
    }
  }

  /** Exactly the stretches without nameless entries are handed over as they are. */
  lemma {:induction false} NonemptyExact(entries: seq<string>)
    ensures |Nonempty(entries)| <= |entries|
    ensures |Nonempty(entries)| == |entries| <==> "" !in entries
    ensures "" !in entries ==> Nonempty(entries) == entries
  {
    if entries != [] {
      NonemptyExact(entries[1..]);
      assert entries == [entries[0]] + entries[1..];
    }
  }

  /**
    A listing that starts at `from` and is at `to` when it ends: it handed over the named
    entries in between, and ended because the stream did or because there was no more
    room for the entry at `to`.
   */
  ghost predicate Stretch(stream: seq<string>, from: nat, to: nat, room: nat, handed: seq<string>) {
    && from <= to <= |stream| && handed == Nonempty(stream[from..to]) && |handed| <= room
    && (to == |stream| || (|handed| == room && stream[to] != ""))
  }

  lemma {:induction false} AppendedStretch(stream: seq<string>, from: nat, room: nat) returns (to: nat)
    requires from <= |stream|
    ensures Stretch(stream, from, to, room, Appended(stream[from..], room))
    decreases |stream| - from
  {
    to := from;
    assert stream[from..from] == [];
    if from < |stream| {
      var rest := stream[from + 1..];
      assert stream[from..] == [stream[from]] + rest;
      if stream[from] == "" {
        to := AppendedStretch(stream, from + 1, room);
      } else if room > 0 {
        to := AppendedStretch(stream, from + 1, room - 1);
      }
      if to > from {
        assert stream[from..to] == [stream[from]] + stream[from + 1..to];
      }
    }
  }

  /** A stretch determines what is handed over. */
  lemma {:induction false} StretchUnique(stream: seq<string>, from: nat, to: nat, room: nat, handed: seq<string>)
    requires Stretch(stream, from, to, room, handed)
    ensures handed == Appended(stream[from..], room)
    decreases |stream| - from
  {
    if from < |stream| {
      assert stream[from..] == [stream[from]] + stream[from + 1..];
      if from < to {
        assert stream[from..to] == [stream[from]] + stream[from + 1..to];
        assert stream[from] == "" || handed[1..] == Nonempty(stream[from + 1..to]);
        StretchUnique(stream, from + 1, to, if stream[from] == "" then room else room - 1,
                      if stream[from] == "" then handed else handed[1..]);
      } else {
        assert stream[from..to] == [];
      }
    } else {
      assert stream[from..] == [] && stream[from..to] == [];
    }
  }

  /** Listings of which each goes on where the one before it ended. */
  ghost predicate Resumed(stream: seq<string>, stops: seq<nat>, rooms: seq<nat>, parts: seq<seq<string>>) {
    && |stops| == |parts| + 1 && |rooms| == |parts| && stops[0] == 0
    && forall i :: 0 <= i < |parts| ==> Stretch(stream, stops[i], stops[i + 1], rooms[i], parts[i])
  }

  function Concat(parts: seq<seq<string>>): seq<string> {
    if parts == [] then [] else Concat(parts[..|parts| - 1]) + parts[|parts| - 1]
  }

  /** However a directory is read in parts, they add up to every named entry up to there, once and in order. */
  lemma {:induction false} ResumedComplete(stream: seq<string>, stops: seq<nat>, rooms: seq<nat>,
                                           parts: seq<seq<string>>)
    requires Resumed(stream, stops, rooms, parts)
    ensures stops[|parts|] <= |stream| && Concat(parts) == Nonempty(stream[..stops[|parts|]])
    ensures stops[|parts|] == |stream| ==> Concat(parts) == Nonempty(stream)
  {
    if parts == [] {
      assert stream[..0] == [];
    } else {
      var n := |parts| - 1;
      ResumedComplete(stream, stops[..n + 1], rooms[..n], parts[..n]);
      assert stream[..stops[n + 1]] == stream[..stops[n]] + stream[stops[n]..stops[n + 1]];
      NonemptyConcat(stream[..stops[n]], stream[stops[n]..stops[n + 1]]);
    }
    assert stream[..|stream|] == stream;
  }

  /** Counting the entries handed over tells where a listing ended exactly when none it passed was nameless. */
  lemma StopCounted(stream: seq<string>, from: nat, to: nat, room: nat, handed: seq<string>)
    requires Stretch(stream, from, to, room, handed)
    ensures to == from + |handed| <==> "" !in stream[from..to]
  {
    NonemptyExact(stream[from..to]);
  }

  /** The lookups they count as: all but the two virtual entries, where the file system finds something. */
  function Lookups(dir: Ino, names: seq<string>, path: Paths.PathResult, fs: Paths.PathResult -> Option<(Ino, bool)>):
    seq<Kernel.Event>
  {
    if names == [] then []
    else
      var rest := Lookups(dir, names[1..], path, fs);
      var answer := fs(EntryPath(path, names[0]));
      if names[0] == "." || names[0] == ".." || answer.None? then rest
      else [Kernel.Lookup(dir, names[0], answer)] + rest
  }

  /** The file system finds this entry of the listed directory, and it is not a virtual one. */
  predicate Found(path: Paths.PathResult, fs: Paths.PathResult -> Option<(Ino, bool)>, name: string,
                  answer: Option<(Ino, bool)>)
  {
    name != "." && name != ".." && answer.Some? && answer == fs(EntryPath(path, name))
  }

  /** Each entry handed over and found is looked up once for each time it was handed over, and nothing else is. */
  lemma {:induction false} LookupsCount(dir: Ino, names: seq<string>, path: Paths.PathResult,
                                        fs: Paths.PathResult -> Option<(Ino, bool)>)
    ensures forall name, answer :: multiset(Lookups(dir, names, path, fs))[Kernel.Lookup(dir, name, answer)] ==
              if Found(path, fs, name, answer) then multiset(names)[name] else 0
    ensures forall e :: e in Lookups(dir, names, path, fs) ==> e.Lookup? && e.parent == dir
  {
    if names != [] {
      LookupsCount(dir, names[1..], path, fs);
      assert names == [names[0]] + names[1..];
    }
  }

  /** Every number the file system may report is usable. */
  ghost predicate Usable(fs: Paths.PathResult -> Option<(Ino, bool)>) {
    forall p :: fs(p).Some? ==> fs(p).value.0 != RESERVED
  }

  /** The directory has to be listed anew: nothing is cached, or the listing starts over. */
  predicate Relists(cached: Option<seq<string>>, offset: nat) {
    cached.None? || offset == 0
  }

  // ----- one entry -----

  ghost predicate Ready(b: RawBridge, dir: Ino)
    reads b, b.Footprint()
  {
    b.Valid() && WellFormed(b.g) && Forward(b.g) && dir in b.g.reg && b.g.reg[dir] in b.g.nodes
      && b.g.nodes[b.g.reg[dir]].dir
  }

  lemma RunNothing(g: Graph)
    ensures Kernel.Run([g], [])
  {
  }

  lemma {:induction false} RunSnoc(gs: seq<Graph>, es: seq<Kernel.Event>, e: Kernel.Event, h: Graph)
    requires Kernel.Run(gs, es) && |gs| == |es| + 1 && WellFormed(gs[|es|]) && Kernel.Transition(gs[|es|], e, h)
    ensures Kernel.Run(gs + [h], es + [e])
  {
    hide WellFormed, Kernel.Transition;
    var fs, ds := gs + [h], es + [e];
    forall i | 0 <= i < |ds| ensures WellFormed(fs[i]) && Kernel.Transition(fs[i], ds[i], fs[i + 1]) {
    }
  }

  /** lookup: the entry is added when the file system finds it, and left alone when not. */
  method Add(b: RawBridge, dir: Ino, name: string, answer: (Ino, bool))
    requires Ready(b, dir) && name != "." && name != ".." && answer.0 != RESERVED
    modifies b, b.Footprint()
    ensures Ready(b, dir) && b.g.reg[dir] == old(b.g.reg[dir])
    ensures Kernel.Transition(old(b.g), Kernel.Lookup(dir, name, Some(answer)), b.g)
    ensures fresh(b.Footprint() - old(b.Footprint()))
  {
    hide RawBridge.Valid, WellFormed, Forward, AddStep, Kernel.Transition, NoGarbage, RawBridge.Footprint;
    var (ino, isDir) := answer;
    b.Known();
    var free := FreshAddress(b.mem.Keys);
    var spare: Addr :| spare !in b.mem;
    var directory := b.nodes[dir];
    AddForward(b.g, directory, name, ino, isDir, spare);
    AddKeepsDirectory(b.g, directory, name, ino, isDir, spare);
    var child := b.AddChild(directory, name, ino, isDir, spare);
    FoundTransition(old(b.g), dir, name, ino, isDir, spare);
  }

  lemma AddKeepsDirectory(g: Graph, p: Addr, name: string, ino: Ino, dir: bool, spare: Addr)
    requires WellFormed(g) && Spare(g, ino, spare) && p in g.nodes && g.nodes[p].dir
    ensures g.rev.Keys == g.nodes.Keys && (ino in g.reg ==> g.reg[ino] in g.nodes)
    ensures var h := AddStep(g, p, name, ino, dir, spare);
            && p in h.nodes && h.nodes[p].dir && h.reg == g.reg[ino := ChildFor(g, ino, spare)]
  {
  }

  // ----- the listing -----

  /**
    Lists a directory from `offset` on into a buffer with room for `room` entries.
    The path asked about is that of the open file `d`, found before anything changes; the
    bridge runs exactly the lookups of the entries that were handed over.  A listing
    that fails leaves the stream cached in `d` as it was.
   */
  method ReadDirPlus(b: RawBridge, dir: Ino, d: FileEntry, lsdir: Paths.PathResult -> Option<seq<string>>,
                     offset: nat, room: nat, fs: Paths.PathResult -> Option<(Ino, bool)>, ghost c: seq<Addr>)
    returns (ok: bool, handed: seq<string>, ghost stop: nat, ghost gs: seq<Graph>, ghost es: seq<Kernel.Event>)
    requires Ready(b, dir) && Usable(fs)
    requires d.path == "" ==> Paths.Chain(b.g, b.root, b.g.reg[dir], c)
    modifies b, b.Footprint(), d`stream
    ensures Ready(b, dir)
    ensures var path := if old(d.path) == "" then old(Paths.PathOf(b.g, b.root, b.g.reg[dir], c))
            else Paths.Path(old(d.path));
            var listed := lsdir(path);
            && (ok <==> !Relists(old(d.stream), offset) || listed.Some?)
            && d.stream == (if ok && Relists(old(d.stream), offset) then Some(listed.value + [".", ".."])
                            else old(d.stream))
            && (ok ==> d.stream.Some?)
            && (!ok || offset >= |d.stream.value| ==> handed == [])
            && (ok && offset < |d.stream.value| ==> Stretch(d.stream.value, offset, stop, room, handed))
            && (ok && offset < |d.stream.value| && d.stream.value[offset] != "" && room > 0 ==>
                  handed != [] && handed[0] == d.stream.value[offset])
            && es == Lookups(dir, handed, path, fs)
            && (forall name, answer :: multiset(es)[Kernel.Lookup(dir, name, answer)] ==
                  if Found(path, fs, name, answer) then multiset(handed)[name] else 0)
    ensures Kernel.Run(gs, es) && |gs| == |es| + 1 && gs[0] == old(b.g) && gs[|es|] == b.g
  {
    hide WellFormed, Forward, RawBridge.Valid, Found, Lookups, Appended, Paths.Chain;
    b.Known();
    NotOfBridge(b, d);
    var path := FilePathOf(b, b.nodes[dir], d.path, c);
    ok, handed, stop, gs, es := true, [], offset, [b.g], [];
    LookupsNone(dir, path, fs);
    LookupsCount(dir, [], path, fs);
    if d.stream.None? || offset == 0 {
      var stream := lsdir(path);
      if stream.None? {
        ok := false;
        return;
      }
      d.stream := Some(stream.value + [".", ".."]);
    }
    if offset > |d.stream.value| {
      return;
    }
    handed, gs, es := HandOver(b, dir, d.stream.value[offset..], room, path, fs);
    LookupsCount(dir, handed, path, fs);
    stop := AppendedStretch(d.stream.value, offset, room);
    StretchStart(d.stream.value, offset, stop, room, handed);
  }

  /** A listing begins with the entry it was asked to resume at. */
  lemma StretchStart(stream: seq<string>, from: nat, to: nat, room: nat, handed: seq<string>)
    requires Stretch(stream, from, to, room, handed)
    ensures from == |stream| ==> handed == []
    ensures from < |stream| && stream[from] != "" && room > 0 ==> handed != [] && handed[0] == stream[from]
  {
    assert from == to ==> stream[from..to] == [];
    assert from < to ==> stream[from..to][0] == stream[from];
  }

  /** An open file is not among the bridge's inodes. */
  lemma NotOfBridge(b: RawBridge, d: FileEntry)
    requires b.Valid()
    ensures d !in b.Footprint()
  {
  }

  /** The loop over the entries. */
  method HandOver(b: RawBridge, dir: Ino, entries: seq<string>, room: nat, path: Paths.PathResult,
                  fs: Paths.PathResult -> Option<(Ino, bool)>)
    returns (handed: seq<string>, ghost gs: seq<Graph>, ghost es: seq<Kernel.Event>)
    requires Ready(b, dir) && Usable(fs)
    modifies b, b.Footprint()
    ensures Ready(b, dir) && handed == Appended(entries, room) && es == Lookups(dir, handed, path, fs)
    ensures Kernel.Run(gs, es) && |gs| == |es| + 1 && gs[0] == old(b.g) && gs[|es|] == b.g
  {
    hide WellFormed, Forward, Kernel.Transition, Kernel.Run, RawBridge.Valid, Lookups, EntryPath, Appended;
    RunNothing(b.g);
    handed, gs, es := [], [b.g], [];
    LookupsNone(dir, path, fs);
    var i, left := 0, room;
    while i < |entries|
      invariant 0 <= i <= |entries| && Ready(b, dir)
      invariant handed + Appended(entries[i..], left) == Appended(entries, room)
      invariant es == Lookups(dir, handed, path, fs)
      invariant Kernel.Run(gs, es) && |gs| == |es| + 1 && gs[0] == old(b.g) && gs[|es|] == b.g
      invariant fresh(b.Footprint() - old(b.Footprint()))
    {
      var name := entries[i];
      AppendedStep(entries, i, left);
      if name != "" {
        if left == 0 {
          break;
        }
        LookupsSnoc(dir, handed, name, path, fs);
        handed, left := handed + [name], left - 1;
        if name != "." && name != ".." {
          var answer := fs(EntryPath(path, name));
          if answer.Some? {
            Add(b, dir, name, answer.value);
            RunSnoc(gs, es, Kernel.Lookup(dir, name, answer), b.g);
            gs, es := gs + [b.g], es + [Kernel.Lookup(dir, name, answer)];
          }
        }
      }
      i := i + 1;
    }
    AppendedNone(left);
    assert i == |entries| ==> entries[i..] == [];
    assert Appended(entries[i..], left) == [];
  }

  lemma AppendedNone(room: nat)
    ensures Appended([], room) == []
  {
  }

  lemma AppendedStep(entries: seq<string>, i: nat, room: nat)
    requires i < |entries|
    ensures Appended(entries[i..], room) ==
            if entries[i] == "" then Appended(entries[i + 1..], room)
            else if room == 0 then []
            else [entries[i]] + Appended(entries[i + 1..], room - 1)
  {
  }

  lemma LookupsNone(dir: Ino, path: Paths.PathResult, fs: Paths.PathResult -> Option<(Ino, bool)>)
    ensures Lookups(dir, [], path, fs) == []
  {
  }

  lemma {:induction false} LookupsSnoc(dir: Ino, names: seq<string>, name: string, path: Paths.PathResult,
                                       fs: Paths.PathResult -> Option<(Ino, bool)>)
    ensures Lookups(dir, names + [name], path, fs) ==
            if name == "." || name == ".." || fs(EntryPath(path, name)).None? then Lookups(dir, names, path, fs)
            else Lookups(dir, names, path, fs) + [Kernel.Lookup(dir, name, fs(EntryPath(path, name)))]
    decreases |names|
  {
    if names == [] {
      assert [] + [name] == [name];
    } else {
      LookupsSnoc(dir, names[1..], name, path, fs);
      assert (names + [name])[1..] == names[1..] + [name];
    }
  }
}
