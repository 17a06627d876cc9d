/** Taking one element out of a sequence, as unlinking one node of a list does. */
module Removal {

  /** s without its element i. */
  function Removed<T>(s: seq<T>, i: nat): (r: seq<T>)
    requires i < |s|
    ensures |r| == |s| - 1
  {
    seq(|s| - 1, k requires 0 <= k < |s| - 1 => s[Before(i, k)])
  }

  function Before(i: nat, k: nat): nat {
    if k < i then k else k + 1
  }

  lemma RemovedIsSplit<T>(s: seq<T>, i: nat)
    requires i < |s|
    ensures Removed(s, i) == s[..i] + s[i + 1..]
  {
  }

  lemma RemovedAt<T>(a: seq<T>, b: seq<T>)
    requires b != []
    ensures Removed(a + b, |a|) == a + b[1..]
  {
  }

  lemma RemovedHead<T>(s: seq<T>)
    requires s != []
    ensures Removed(s, 0) == s[1..]
  {
  }

  lemma RemovedBehindHead<T>(s: seq<T>, i: nat)
    requires 0 < i < |s|
    ensures Removed(s, i) == [s[0]] + Removed(s[1..], i - 1)
  {
  }

  /** The index behind k in a chain that goes past index i. */
  function Past(i: nat, k: nat): nat {
    if k + 1 == i then k + 2 else k + 1
  }
}
