/**
  Lists of attribute names: written with a NUL after every name, and split again by
  the decoder.
 */
module XAttr {
  import opened Types
  import opened Splitting

  type Name = seq<bv8>

  const NUL: bv8 := 0

  // ----- the encoding as a value -----

  function Encode(names: seq<Name>): seq<bv8> {
    if names == [] then [] else names[0] + [NUL] + Encode(names[1..])
  }

  /** The decoder: no bytes are no names; otherwise the last NUL is dropped first. */
  function Decode(s: seq<bv8>): seq<Name> {
    if s == [] then [] else Split(s[..|s| - 1], NUL)
  }

  lemma {:induction false} EncodeSnoc(names: seq<Name>)
    requires names != []
    ensures Encode(names) == Encode(names[..|names| - 1]) + names[|names| - 1] + [NUL]
  {
    var n := |names| - 1;
    if n == 0 {
      assert names[..0] == [] && names[1..] == [];
    } else {
      EncodeSnoc(names[1..]);
      assert names[1..][..n - 1] == names[..n][1..];
      assert Encode(names[..n]) == names[0] + [NUL] + Encode(names[..n][1..]);
    }
  }

  function Total(names: seq<Name>): nat {
    if names == [] then 0 else |names[0]| + 1 + Total(names[1..])
  }

  /** Byte by byte: each name stands where the ones before it end, and a zero byte follows it. */
  ghost predicate Written(names: seq<Name>, s: seq<bv8>) {
    && Total(names) <= |s|
    && (names != [] ==>
          && s[..|names[0]|] == names[0] && s[|names[0]|] == 0
          && Written(names[1..], s[|names[0]| + 1..]))
  }

  lemma {:induction false} EncodeWritten(names: seq<Name>, tail: seq<bv8>)
    ensures |Encode(names)| == Total(names) && Written(names, Encode(names) + tail)
  {
    if names != [] {
      var s := Encode(names) + tail;
      EncodeWritten(names[1..], tail);
      assert s == names[0] + [NUL] + (Encode(names[1..]) + tail);
      assert s[|names[0]| + 1..] == Encode(names[1..]) + tail;
    }
  }

  lemma {:induction false} SplitEncode(names: seq<Name>)
    requires names != [] && forall v: Name :: v in names ==> NUL !in v
    ensures Encode(names) != [] && Split(Encode(names)[..|Encode(names)| - 1], NUL) == names
  {
    var s := Encode(names);
    assert names[0] in names;
    if |names| == 1 {
      assert Encode(names[1..]) == [];
      assert s == names[0] + [NUL];
      assert s[..|s| - 1] == names[0];
      SplitHead(names[0], NUL, []);
    } else {
      var rest := Encode(names[1..]);
      SplitEncode(names[1..]);
      SplitHead(names[0], NUL, rest[..|rest| - 1]);
      assert s[..|s| - 1] == names[0] + [NUL] + rest[..|rest| - 1];
    }
  }

  /** Names without NULs survive the round trip; the empty list does too. */
  lemma RoundTrip(names: seq<Name>)
    requires forall v: Name :: v in names ==> NUL !in v
    ensures Decode(Encode(names)) == names
  {
    if names != [] {
      SplitEncode(names);
    }
  }

  /** Exactly the names without NULs do. */
  lemma RoundTripExact(names: seq<Name>)
    ensures Decode(Encode(names)) == names <==> forall v: Name :: v in names ==> NUL !in v
  {
    if forall v: Name :: v in names ==> NUL !in v {
      RoundTrip(names);
    } else if Encode(names) != [] {
      PartsAreFree(Encode(names)[..|Encode(names)| - 1], NUL);
    }
  }

  // ----- what the decoder answers -----

  /** OutOfRange is the panic of slicing to a negative length. */
  datatype Listed = Names(names: Option<seq<Name>>) | Failed | OutOfRange

  /** The encoded names of the file at each call of the system, or None when that call fails. */
  type File = nat -> Option<seq<bv8>>

  /**
    The decoder's answer.  The first call asks for the size, the second reads; what was
    read may have changed in between.  `bad` is the size that comes with an error.
   */
  function Answer(held: File, bad: int): Listed {
    match held(0)
    case None => Failed
    case Some(first) =>
      if first == [] then Names(None)
      else
        match held(1)
        case Some(second) =>
          if |second| > |first| then AfterError(bad)
          else if second == [] then Names(None)
          else Names(Some(Decode(second)))
        case None => AfterError(bad)
  }

  /** The error of the second call gets lost when it comes with a negative size. */
  function AfterError(bad: int): Listed {
    if bad == 0 then Failed else OutOfRange
  }

  /** The list of names of a file, or nil. */
  function Nil(names: seq<Name>): Option<seq<Name>> {
    if names == [] then None else Some(names)
  }

  /**
    With the file's names before and after the first call, or an error, and NUL-free
    names: the decoder answers the names that were there last exactly when they fit
    what it allocated.
   */
  lemma AnswerExact(held: File, before: seq<Name>, after: Option<seq<Name>>, bad: int)
    requires forall v: Name :: v in before ==> NUL !in v
    requires after.Some? ==> forall v: Name :: v in after.value ==> NUL !in v
    requires held(0) == Some(Encode(before))
    requires held(1) == if after.Some? then Some(Encode(after.value)) else None
    ensures Answer(held, bad) ==
            if before == [] then Names(None)
            else if after.Some? && |Encode(after.value)| <= |Encode(before)| then Names(Nil(after.value))
            else AfterError(bad)
  {
    if before != [] {
      SplitEncode(before);
    }
    if after.Some? {
      RoundTrip(after.value);
      if after.value != [] {
        SplitEncode(after.value);
      }
    }
  }

  /** While the names stay the same the decoder answers what was written, and nil for no names. */
  lemma WrittenIsRead(names: seq<Name>, bad: int)
    requires forall v: Name :: v in names ==> NUL !in v
    ensures Answer(_ => Some(Encode(names)), bad) == Names(Nil(names))
  {
    AnswerExact(_ => Some(Encode(names)), names, Some(names), bad);
  }

  // ----- the two programs -----

  datatype Listing = Fitted(size: nat) | TooSmall(size: nat)

  /** Writes the names into `dest` when they fit; the size is that of the encoding either way. */
  method ListXAttr(attrs: seq<Name>, dest: array<bv8>) returns (r: Listing)
    modifies dest
    ensures r == if |Encode(attrs)| > dest.Length then TooSmall(Wrap(|Encode(attrs)|))
            else Fitted(Wrap(|Encode(attrs)|))
    ensures r.TooSmall? <==> Total(attrs) > dest.Length
    ensures r.Fitted? ==> Written(attrs, dest[..])
    ensures r.TooSmall? ==> dest[..] == old(dest[..])
    ensures r.Fitted? ==>
              dest[..|Encode(attrs)|] == Encode(attrs) && dest[|Encode(attrs)|..] == old(dest[|Encode(attrs)|..])
  {
    var sz := Size(attrs);
    EncodeWritten(attrs, []);
    if sz > dest.Length {
      return TooSmall(Wrap(sz));
    }
    var len := 0;
    for i := 0 to |attrs|
      invariant len == |Encode(attrs[..i])| && len <= sz
      invariant dest[..len] == Encode(attrs[..i])
      invariant forall k :: sz <= k < dest.Length ==> dest[k] == old(dest[k])
    {
      assert attrs[..i + 1][..i] == attrs[..i];
      EncodeSnoc(attrs[..i + 1]);
      PrefixFits(attrs, i + 1);
      len := Append(dest, len, attrs[i]);
      len := Append(dest, len, [NUL]);
    }
    assert attrs[..|attrs|] == attrs;
    assert dest[..] == Encode(attrs) + dest[len..];
    EncodeWritten(attrs, dest[len..]);
    return Fitted(Wrap(sz));
  }

  lemma {:induction false} PrefixFits(attrs: seq<Name>, i: nat)
    requires i <= |attrs|
    ensures |Encode(attrs[..i])| <= |Encode(attrs)|
  {
    if i < |attrs| {
      var n := |attrs| - 1;
      EncodeSnoc(attrs);
      PrefixFits(attrs[..n], i);
      assert attrs[..n][..i] == attrs[..i];
    } else {
      assert attrs[..i] == attrs;
    }
  }

  method Size(attrs: seq<Name>) returns (sz: nat)
    ensures sz == |Encode(attrs)|
  {
    sz := 0;
    for i := 0 to |attrs|
      invariant sz == |Encode(attrs[..i])|
    {
      assert attrs[..i + 1][..i] == attrs[..i];
      EncodeSnoc(attrs[..i + 1]);
      sz := sz + |attrs[i]| + 1;
    }
    assert attrs[..|attrs|] == attrs;
  }

  /** `append` within the capacity: the bytes go behind the first `len`. */
  method Append(dest: array<bv8>, len: nat, s: seq<bv8>) returns (r: nat)
    requires len + |s| <= dest.Length
    modifies dest
    ensures r == len + |s|
    ensures dest[..r] == old(dest[..len]) + s
    ensures forall k :: r <= k < dest.Length ==> dest[k] == old(dest[k])
  {
    for i := 0 to |s|
      invariant dest[..len + i] == old(dest[..len]) + s[..i]
      invariant forall k :: len + i <= k < dest.Length ==> dest[k] == old(dest[k])
    {
      dest[len + i] := s[i];
    }
    r := len + |s|;
  }

  /**
    The system call, for a file whose encoded names are `held` just then: an empty
    buffer asks for the size, a buffer that is too small is an error.
   */
  method Syscall(held: Option<seq<bv8>>, bad: int, dest: array<bv8>) returns (sz: int, err: bool)
    modifies dest
    ensures err <==> held.None? || (|held.value| > dest.Length && dest.Length > 0)
    ensures sz == if err then bad else |held.value|
    ensures !err && |held.value| <= dest.Length ==> dest[..|held.value|] == held.value
  {
    if held.None? || (|held.value| > dest.Length && dest.Length > 0) {
      return bad, true;
    }
    if |held.value| <= dest.Length {
      var r := Append(dest, 0, held.value);
    }
    return |held.value|, false;
  }

  /** The decoder: asks for the size, allocates, reads and splits. */
  method ReadNames(held: File, bad: int) returns (r: Listed)
    requires bad <= 0
    ensures r == Answer(held, bad)
  {
    var dest := new bv8[0];
    var sz, err := Syscall(held(0), bad, dest);
    if err {
      return Failed;
    }
    var calls := 1;
    while sz > dest.Length && !err
      invariant held(0).Some? && fresh(dest) && 1 <= calls <= 2
      invariant calls == 1 ==> !err && dest.Length == 0 && sz == |held(0).value|
      invariant calls == 2 ==> dest.Length == |held(0).value| > 0
      invariant calls == 2 ==> (err <==> held(1).None? || |held(1).value| > dest.Length)
      invariant calls == 2 ==> sz == if err then bad else |held(1).value|
      invariant calls == 2 && !err ==> dest[..sz] == held(1).value
      decreases 2 - calls
    {
      dest := new bv8[sz](_ => NUL);
      sz, err := Syscall(held(calls), bad, dest);
      calls := calls + 1;
    }
    if sz == 0 {
      return if err then Failed else Names(None);
    }
    if sz < 0 {
      return OutOfRange;
    }
    assert dest[..sz - 1] == held(1).value[..sz - 1];
    var parts := Split(dest[..sz - 1], NUL);
    var names: seq<Name> := [];
    for i := 0 to |parts|
      invariant names == parts[..i]
    {
      names := names + [parts[i]];
    }
    assert parts[..|parts|] == parts;
    return Names(Some(names));
  }
}
