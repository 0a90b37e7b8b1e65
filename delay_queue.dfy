/**
 * What the relay relies on from java.util.concurrent.DelayQueue: take hands
 * out an item that no other queued item precedes under CompareTo, and only
 * once GetDelay of that item is no longer positive. The queue itself is a
 * library; only this contract is modelled, over the queue's contents as a
 * sequence in insertion order.
 */
module DelayQueue {
  import opened Sockets
  import opened TcpDataMillis
  import opened TcpDataReader

  /** q[i] is an item take may hand out first: nothing queued compares before it. */
  predicate IsHead(q: seq<TcpData>, i: int) {
    0 <= i < |q| && forall j | 0 <= j < |q| :: CompareTo(q[i], q[j]) <= 0
  }

  /** take returns q[i] at clock value now. */
  predicate CanTake(q: seq<TcpData>, i: int, now: int) {
    IsHead(q, i) && GetDelay(q[i], now) <= 0
  }

  /** Non-decreasing due instants in insertion order. */
  predicate SortedByDue(q: seq<TcpData>) {
    forall i, j | 0 <= i < j < |q| :: q[i].delayedUntil <= q[j].delayedUntil
  }

  /**
   * The head a take that breaks ties by insertion order would hand out: the
   * first of the items with the smallest due instant.
   */
  function Earliest(q: seq<TcpData>): (i: nat)
    requires |q| > 0
    ensures IsHead(q, i)
    ensures forall j | 0 <= j < i :: CompareTo(q[j], q[i]) > 0
  {
    if |q| == 1 then 0
    else
      var k := Earliest(q[..|q| - 1]);
      if CompareTo(q[|q| - 1], q[k]) < 0 then |q| - 1 else k
  }

  /** No item is handed out before its due instant. */
  lemma TakeIsNeverEarly(q: seq<TcpData>, i: int, now: int)
    requires CanTake(q, i, now)
    ensures now >= q[i].delayedUntil
  {
  }

  /**
   * Items that stay behind, and items added later with a due instant no
   * earlier than the one taken, are never due before it: successive takes
   * hand out non-decreasing due instants.
   */
  lemma TakesAreNonDecreasing(q: seq<TcpData>, i: int, added: seq<TcpData>, k: int)
    requires IsHead(q, i)
    requires forall a | a in added :: a.delayedUntil >= q[i].delayedUntil
    requires IsHead(q[..i] + q[i + 1..] + added, k)
    ensures (q[..i] + q[i + 1..] + added)[k].delayedUntil >= q[i].delayedUntil
  {
  }

  /** On a queue filled in due order, the insertion-order head is the oldest item. */
  lemma SortedQueueTakesOldestFirst(q: seq<TcpData>)
    requires |q| > 0 && SortedByDue(q)
    ensures Earliest(q) == 0
  {
  }

  /**
   * As written, CompareTo reports items with equal due instants as equal, so
   * once an earlier item has been taken, the contract lets take hand out a
   * close signal for x before the data chunk for x queued ahead of it.
   */
  lemma TiedCloseMayOvertakeData(x: Socket)
    ensures var first := TcpData([1], 1, x, 0);
            var chunk := TcpData([7], 1, x, 0);
            var close := TcpData([], -1, x, 0);
            var q := [first, chunk, close];
            && WellFormed(first) && WellFormed(chunk) && WellFormed(close)
            && SortedByDue(q) && CanTake(q, 0, 0)
            && CanTake(q[1..], 1, 0) && Earliest(q[1..]) == 0
  {
  }
}
