/** What outstanding batches hold, read off in order. */
module Queues {
  import opened Wrappers
  import opened Pipeline

  /** What `held` finds in each batch, joined. */
  function Gather<T>(batches: seq<Batch>, held: Batch -> seq<T>): seq<T> {
    if batches == [] then [] else held(batches[0]) + Gather(batches[1..], held)
  }

  lemma {:induction false} GatherAppend<T>(a: seq<Batch>, b: seq<Batch>, held: Batch -> seq<T>)
    ensures Gather(a + b, held) == Gather(a, held) + Gather(b, held)
  {
    if a == [] {
      assert a + b == b;
    } else {
      GatherAppend(a[1..], b, held);
      assert (a + b)[1..] == a[1..] + b;
      Associative(held(a[0]), Gather(a[1..], held), Gather(b, held));
    }
  }

  lemma GatherOneMore<T>(batches: seq<Batch>, batch: Batch, held: Batch -> seq<T>)
    ensures Gather(batches + [batch], held) == Gather(batches, held) + held(batch)
  {
    GatherAppend(batches, [batch], held);
    assert [batch][1..] == [];
  }

  lemma NothingBetween<T>(a: seq<T>, m: seq<T>, b: seq<T>)
    ensures m == [] ==> a + m + b == a + b
  {
    if m == [] { assert a + m == a; }
  }

  lemma Split<T>(s: seq<T>, k: nat)
    requires k < |s|
    ensures s == (s[..k] + [s[k]]) + s[k + 1..]
  {
  }

  /** The queue with batch `k`, and without it. */
  lemma GatherAround<T>(batches: seq<Batch>, k: nat, held: Batch -> seq<T>)
    requires k < |batches|
    ensures Gather(batches, held) == Gather(batches[..k], held) + held(batches[k]) + Gather(batches[k + 1..], held)
    ensures Gather(batches[..k] + batches[k + 1..], held) == Gather(batches[..k], held) + Gather(batches[k + 1..], held)
    ensures held(batches[k]) == [] ==> Gather(batches[..k] + batches[k + 1..], held) == Gather(batches, held)
  {
    Split(batches, k);
    GatherAppend(batches[..k] + [batches[k]], batches[k + 1..], held);
    GatherOneMore(batches[..k], batches[k], held);
    GatherAppend(batches[..k], batches[k + 1..], held);
    NothingBetween(Gather(batches[..k], held), held(batches[k]), Gather(batches[k + 1..], held));
  }
}
