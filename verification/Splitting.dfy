/** Cutting a sequence at a separator (strings and bytes alike). */
module Splitting {
  /** The parts of `s` between separators. */
  function Split<T(==)>(s: seq<T>, sep: T): (parts: seq<seq<T>>)
    ensures parts != []
  {
    if s == [] then [[]]
    else if s[0] == sep then [[]] + Split(s[1..], sep)
    else var rest := Split(s[1..], sep); [[s[0]] + rest[0]] + rest[1..]
  }

  /** A part without separators is the first part, and the rest is split on its own. */
  lemma {:induction false} SplitHead<T>(part: seq<T>, sep: T, rest: seq<T>)
    requires sep !in part
    ensures Split(part + [sep] + rest, sep) == [part] + Split(rest, sep)
    ensures Split(part, sep) == [part]
  {
    if part == [] {
      assert part + [sep] + rest == [sep] + rest;
    } else {
      SplitHead(part[1..], sep, rest);
      assert (part + [sep] + rest)[1..] == part[1..] + [sep] + rest;
      assert [part[0]] + part[1..] == part;
    }
  }

  lemma {:induction false} PartsAreFree<T>(s: seq<T>, sep: T)
    ensures forall v :: v in Split(s, sep) ==> sep !in v
  {
    if s != [] {
      PartsAreFree(s[1..], sep);
      assert Split(s[1..], sep)[0] in Split(s[1..], sep);
    }
  }
}
