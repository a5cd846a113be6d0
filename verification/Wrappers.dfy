// Small notions that several modules share.

module Wrappers {
  datatype Option<+T> = None | Some(value: T)
}

module Numbers {
  type Byte = n: int | 0 <= n < 256

  function Pow256(k: nat): (r: nat)
    ensures r > 0
    ensures k > 0 ==> r % 2 == 0 && r >= 256
  {
    if k == 0 then 1 else 256 * Pow256(k - 1)
  }

  lemma ModRange(v: int, m: int)
    requires m > 0
    ensures 0 <= v % m < m
    ensures 0 <= v < m ==> v % m == v
    ensures -m <= v < 0 ==> v % m == v + m
  {
    if -m <= v < 0 { assert v % m == (v + m) % m; }
  }
}

module Texts {
  // A C string ends at its length or at an earlier NUL.
  predicate AtEnd(js: string, p: nat) {
    p >= |js| || js[p] == '\0'
  }

  function Joined<T>(pieces: seq<seq<T>>): seq<T> {
    if pieces == [] then [] else pieces[0] + Joined(pieces[1..])
  }

  lemma {:induction false} JoinedLast<T>(pieces: seq<seq<T>>, last: seq<T>)
    ensures Joined(pieces + [last]) == Joined(pieces) + last
  {
    if pieces == [] {
      assert (pieces + [last])[1..] == [];
    } else {
      assert (pieces + [last])[1..] == pieces[1..] + [last];
      JoinedLast(pieces[1..], last);
    }
  }
}
