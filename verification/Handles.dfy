/**
  The table of open files and directories.  A handle is an index into it; released
  handles are reused, the last released first.
 */
module Handles {
  import opened Types

  // ----- the table as a value -----

  /** `open` is what the kernel holds; the program keeps the other two. */
  datatype State = State(len: nat, free: seq<nat>, open: set<nat>)

  datatype Op = Register | Unregister(fh: nat)

  /** The handle that the next registration returns. */
  function Handle(s: State): nat {
    if |s.free| > 0 then s.free[|s.free| - 1] else Wrap(s.len)
  }

  function Next(s: State, op: Op): State {
    match op
    case Register =>
      var open := s.open + {Handle(s)};
      if |s.free| > 0 then State(s.len, s.free[..|s.free| - 1], open) else State(s.len + 1, s.free, open)
    case Unregister(fh) =>
      if fh == 0 then s else State(s.len, s.free + [fh], s.open - {fh})
  }

  /** Only open handles are released, and a new handle fits into 32 bits. */
  ghost predicate Allowed(s: State, op: Op) {
    match op
    case Register => s.free == [] ==> s.len < WORD
    case Unregister(fh) => fh == 0 || fh in s.open
  }

  /** Handle 0 means no file. */
  const INITIAL: State := State(1, [], {})

  /** Free and open handles partition the indices from 1 on. */
  ghost predicate Partitioned(s: State) {
    && s.len > 0 && Distinct(s.free)
    && (forall fh :: fh in s.free ==> fh !in s.open)
    && (forall fh :: fh in s.free || fh in s.open <==> 1 <= fh < s.len)
  }

  lemma FreshHandle(s: State)
    requires Partitioned(s) && Allowed(s, Register)
    ensures Handle(s) != 0 && Handle(s) !in s.open
  {
  }

  lemma NextPartitioned(s: State, op: Op)
    requires Partitioned(s) && Allowed(s, op)
    ensures Partitioned(Next(s, op))
  {
  }

  /** Exactly the allowed operations keep the partition. */
  lemma NextPartitionedExact(s: State, op: Op)
    requires Partitioned(s)
    ensures Partitioned(Next(s, op)) <==> Allowed(s, op)
  {
    if Allowed(s, op) {
      NextPartitioned(s, op);
    } else {
      var t := Next(s, op);
      match op
      case Register =>
        assert s.len !in t.free && s.len !in t.open && 1 <= s.len < t.len;
      case Unregister(fh) =>
        assert t.free[|s.free|] == fh;
        if fh in s.free {
          var i :| 0 <= i < |s.free| && s.free[i] == fh;
          assert t.free[i] == fh;
        } else {
          assert fh in t.free;
        }
    }
  }

  lemma {:induction false} RangeCount(n: nat, s: set<nat>)
    requires forall fh :: fh in s <==> 1 <= fh <= n
    ensures |s| == n
  {
    if n > 0 {
      RangeCount(n - 1, s - {n});
    } else {
      assert s == {};
    }
  }

  lemma {:induction false} OpenCount(s: State)
    requires Partitioned(s)
    ensures |s.open| + |s.free| == s.len - 1
    decreases |s.free|
  {
    if s.free == [] {
      RangeCount(s.len - 1, s.open);
    } else {
      var n := |s.free| - 1;
      FreshWhenFree(s);
      var t := Next(s, Register);
      RegisterFree(s);
      OpenCount(t);
    }
  }

  lemma FreshWhenFree(s: State)
    requires Partitioned(s) && s.free != []
    ensures Handle(s) in s.free && Handle(s) !in s.open
  {
  }

  lemma RegisterFree(s: State)
    requires Partitioned(s) && s.free != []
    ensures Partitioned(Next(s, Register)) && |Next(s, Register).open| == |s.open| + 1
  {
  }

  // ----- runs -----

  function After(ops: seq<Op>): State {
    if ops == [] then INITIAL else Next(After(ops[..|ops| - 1]), ops[|ops| - 1])
  }

  ghost predicate AllowedRun(ops: seq<Op>) {
    forall i :: 0 <= i < |ops| ==> Allowed(After(ops[..i]), ops[i])
  }

  /** The most handles that were open at one time. */
  function Peak(ops: seq<Op>): nat {
    if ops == [] then 0
    else
      var before := Peak(ops[..|ops| - 1]);
      if |After(ops).open| > before then |After(ops).open| else before
  }

  /**
    After any allowed run the handles are partitioned, the table is as long as the
    peak demanded, and the next registration returns a handle that is not open.
   */
  lemma {:induction false} RunKeeps(ops: seq<Op>)
    requires AllowedRun(ops)
    ensures Partitioned(After(ops))
    ensures After(ops).len == 1 + Peak(ops)
    ensures Allowed(After(ops), Register) ==> Handle(After(ops)) != 0 && Handle(After(ops)) !in After(ops).open
  {
    if ops == [] {
      assert Partitioned(INITIAL);
    } else {
      var n := |ops| - 1;
      var s := After(ops[..n]);
      AllowedPrefix(ops, n);
      RunKeeps(ops[..n]);
      NextPartitioned(s, ops[n]);
      OpenCount(s);
      OpenCount(After(ops));
    }
    if Allowed(After(ops), Register) {
      FreshHandle(After(ops));
    }
  }

  /** A run keeps the partition all along if and only if it is allowed. */
  lemma {:induction false} RunPartitionedExact(ops: seq<Op>)
    ensures (forall i :: 0 <= i <= |ops| ==> Partitioned(After(ops[..i]))) <==> AllowedRun(ops)
  {
    if AllowedRun(ops) {
      forall i | 0 <= i <= |ops| ensures Partitioned(After(ops[..i])) {
        AllowedPrefix(ops, i);
        RunKeeps(ops[..i]);
      }
    }
    if forall i :: 0 <= i <= |ops| ==> Partitioned(After(ops[..i])) {
      forall i | 0 <= i < |ops| ensures Allowed(After(ops[..i]), ops[i]) {
        assert ops[..i + 1][..i] == ops[..i] && After(ops[..i + 1]) == Next(After(ops[..i]), ops[i]);
        assert Partitioned(After(ops[..i])) && Partitioned(After(ops[..i + 1]));
        NextPartitionedExact(After(ops[..i]), ops[i]);
      }
    }
  }

  lemma AllowedPrefix(ops: seq<Op>, n: nat)
    requires AllowedRun(ops) && n <= |ops|
    ensures AllowedRun(ops[..n])
  {
    forall i | 0 <= i < n ensures Allowed(After(ops[..n][..i]), ops[..n][i]) {
      assert ops[..n][..i] == ops[..i];
    }
  }

  /** Releasing a handle twice is not harmless: two later sessions share it. */
  lemma ReleasedTwice(s: State, fh: nat)
    requires Partitioned(s) && fh in s.open
    ensures var t := Next(Next(s, Unregister(fh)), Unregister(fh));
            Handle(t) == fh && Handle(Next(t, Register)) == fh && fh in Next(t, Register).open
  {
  }

  // ----- the table as objects -----

  /** The fields of an entry, as a dump carries them. */
  datatype DumpFileEntry = DumpFileEntry(opener: nat, path: string, uFh: nat, stream: Option<seq<string>>)

  class FileEntry {
    var opener: nat
    var path: string
    var uFh: nat
    var stream: Option<seq<string>>

    constructor ()
      ensures opener == 0 && path == "" && uFh == 0 && stream == None
    {
      opener, path, uFh, stream := 0, "", 0, None;
    }

    function Fields(): DumpFileEntry
      reads this
    {
      DumpFileEntry(opener, path, uFh, stream)
    }

    method Load(d: DumpFileEntry)
      modifies this
      ensures Fields() == d
    {
      opener, path, uFh, stream := d.opener, d.path, d.uFh, d.stream;
    }
  }

  class FileTable {
    var files: seq<FileEntry>
    var freeFiles: seq<nat>
    ghost var open: set<nat>
    /** The entries that have been given to a session. */
    ghost var served: set<FileEntry>

    ghost function View(): State
      reads this
    {
      State(|files|, freeFiles, open)
    }

    /** What the operations need whatever was released: free handles have entries, and entries are not shared. */
    predicate InRange()
      reads this
    {
      && |files| > 0 && (forall fh :: fh in freeFiles ==> fh < |files|)
      && (forall i, j :: 0 <= i < j < |files| ==> files[i] != files[j])
    }

    /** Entries are not shared, and only open handles have one that was given out. */
    ghost predicate Valid()
      reads this
    {
      && Partitioned(View())
      && (forall i, j :: 0 <= i < j < |files| ==> files[i] != files[j])
      && (forall i :: 0 <= i < |files| ==> (files[i] in served <==> i in open))
    }

    constructor ()
      ensures Valid() && View() == INITIAL && served == {} && fresh(files[0])
    {
      var none := new FileEntry();
      files, freeFiles, open, served := [none], [], {}, {};
    }

    /** Opens a session.  While handles are used properly its entry never served another one. */
    method RegisterFile(opener: nat, path: string, uFh: nat, stream: Option<seq<string>>) returns (fh: nat)
      requires InRange()
      modifies this, files
      ensures InRange() && View() == Next(old(View()), Register)
      ensures fh == Handle(old(View())) && fh < |files| && served == old(served) + {files[fh]}
      ensures files[fh].Fields() == DumpFileEntry(opener, path, uFh, stream)
      ensures forall i :: 0 <= i < |old(files)| ==> files[i] == old(files[i])
      ensures forall e :: e in old(files) && e != files[fh] ==> unchanged(e)
      ensures old(Valid() && Allowed(View(), Register)) ==>
                Valid() && fh > 0 && fh !in old(open) && files[fh] !in old(served)
    {
      hide Partitioned;
      if Valid() && Allowed(View(), Register) {
        NextPartitioned(View(), Register);
        FreshHandle(View());
      }
      if |freeFiles| > 0 {
        var last := |freeFiles| - 1;
        fh := freeFiles[last];
        assert fh in freeFiles;
        freeFiles := freeFiles[..last];
        assert forall x :: x in freeFiles ==> x in old(freeFiles);
      } else {
        fh := Wrap(|files|);
        var made := new FileEntry();
        files := files + [made];
      }
      var entry := files[fh];
      entry.opener := opener;
      entry.path := path;
      entry.uFh := uFh;
      entry.stream := stream;
      open, served := open + {fh}, served + {entry};
    }

    /** Ends a session; a later session with this handle gets another entry. */
    method UnregisterFile(fh: nat)
      requires InRange() && fh < |files|
      modifies this
      ensures InRange() && View() == Next(old(View()), Unregister(fh)) && served == old(served)
      ensures forall i :: 0 <= i < |files| && i != fh ==> files[i] == old(files[i])
      ensures fh == 0 ==> files == old(files)
      ensures fh != 0 ==> fresh(files[fh])
      ensures old(Valid() && Allowed(View(), Unregister(fh))) ==> Valid()
    {
      if fh == 0 {
        return;
      }
      if Valid() && Allowed(View(), Unregister(fh)) {
        NextPartitioned(View(), Unregister(fh));
      }
      var made := new FileEntry();
      files := files[fh := made];
      freeFiles := freeFiles + [fh];
      open := open - {fh};
    }

    /** The entries and the free handles. */
    method Dump() returns (data: seq<DumpFileEntry>, free: seq<nat>)
      requires Valid()
      ensures |data| == |files| && forall i :: 0 <= i < |files| ==> data[i] == files[i].Fields()
      ensures free == freeFiles
    {
      data, free := [], freeFiles;
      for i := 0 to |files|
        invariant |data| == i && forall j :: 0 <= j < i ==> data[j] == files[j].Fields()
      {
        data := data + [files[i].Fields()];
      }
    }

    /** A dumped table comes back with the same entries, and hands out the same handles. */
    method Restore(data: seq<DumpFileEntry>, free: seq<nat>, ghost open: set<nat>)
      requires Partitioned(State(|data|, free, open))
      modifies this
      ensures Valid() && View() == State(|data|, free, open)
      ensures forall i :: 0 <= i < |data| ==> fresh(files[i]) && files[i].Fields() == data[i]
    {
      var made: seq<FileEntry> := [];
      for i := 0 to |data|
        invariant |made| == i && forall j :: 0 <= j < i ==> fresh(made[j]) && made[j].Fields() == data[j]
        invariant forall j, k :: 0 <= j < k < i ==> made[j] != made[k]
      {
        var entry := new FileEntry();
        entry.Load(data[i]);
        made := made + [entry];
      }
      files, freeFiles := made, free;
      this.open, served := open, set i | i in open :: made[i];
    }
  }
}
