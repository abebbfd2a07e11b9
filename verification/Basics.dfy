/** Types shared by the models. */
module Basics {

  newtype byte = x: int | 0 <= x < 256

  datatype Option<+T> = None | Some(value: T)
  {
    predicate IsFailure() { None? }
    function PropagateFailure<U>(): Option<U> requires None? { None }
    function Extract(): T requires Some? { value }
  }

  function Lookup<K, V>(m: map<K, V>, key: K): Option<V> {
    if key in m then Some(m[key]) else None
  }

  /** All blocks, one after the other. */
  function Concat<T>(blocks: seq<seq<T>>): seq<T> {
    if blocks == [] then [] else blocks[0] + Concat(blocks[1..])
  }

  lemma {:induction false} ConcatAppend<T>(blocks: seq<seq<T>>, last: seq<T>)
    ensures Concat(blocks + [last]) == Concat(blocks) + last
  {
    if blocks == [] {
      assert blocks + [last] == [last];
    } else {
      assert (blocks + [last])[1..] == blocks[1..] + [last];
      ConcatAppend(blocks[1..], last);
    }
  }

  lemma ConcatTake<T>(blocks: seq<seq<T>>, k: nat)
    requires k < |blocks|
    ensures Concat(blocks[..k + 1]) == Concat(blocks[..k]) + blocks[k]
    ensures |Concat(blocks[..k + 1])| <= |Concat(blocks)|
  {
    assert blocks[..k + 1] == blocks[..k] + [blocks[k]];
    ConcatAppend(blocks[..k], blocks[k]);
    ConcatSplit(blocks, k + 1);
  }

  lemma {:induction false} ConcatSplit<T>(blocks: seq<seq<T>>, k: nat)
    requires k <= |blocks|
    ensures Concat(blocks) == Concat(blocks[..k]) + Concat(blocks[k..])
  {
    if k == 0 {
      assert blocks[0..] == blocks;
    } else {
      assert blocks[..k][1..] == blocks[1..][..k - 1];
      assert blocks[k..] == blocks[1..][k - 1..];
      ConcatSplit(blocks[1..], k - 1);
    }
  }

  /** Taking the next `n` elements after a prefix gives a longer prefix. */
  lemma PrefixGrows<T>(all: seq<T>, from: nat, got: seq<T>, n: nat)
    requires from <= |all| && got <= all[from..] && from + |got| + n <= |all|
    ensures got + all[from + |got|..from + |got| + n] <= all[from..]
  {
    assert all[from..][..|got|] == got;
    assert all[from..][..|got| + n] == got + all[from + |got|..from + |got| + n];
  }
}
