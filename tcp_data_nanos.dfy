/**
 * The delayed item of the relay (src/main/java/org/tcpdelay/TCPData.java): a chunk of
 * bytes, its length (-1 signals "close the destination's output"), the
 * destination socket (null when the pair was unknown) and the instant, in
 * nanoseconds, from which it may be relayed. The record is immutable, so its
 * accessors are the datatype's destructors.
 */
module TcpDataNanos {
  import opened Sockets

  datatype TcpData = TcpData(buffer: seq<byte>, len: int, channel: Socket?, delayedUntilNanos: int)

  /** Remaining delay in nanoseconds against the clock value nowNanos. */
  function GetDelay(d: TcpData, nowNanos: int): (r: int)
    ensures r <= 0 <==> nowNanos >= d.delayedUntilNanos
    ensures nowNanos + r == d.delayedUntilNanos
  {
    d.delayedUntilNanos - nowNanos
  }

  /** Orders items by their due instant only. */
  function CompareTo(a: TcpData, b: TcpData): (r: int)
    ensures r == -1 <==> a.delayedUntilNanos < b.delayedUntilNanos
    ensures r == 0 <==> a.delayedUntilNanos == b.delayedUntilNanos
    ensures r == 1 <==> a.delayedUntilNanos > b.delayedUntilNanos
  {
    if a.delayedUntilNanos < b.delayedUntilNanos then -1
    else if a.delayedUntilNanos > b.delayedUntilNanos then 1
    else 0
  }

  /** Buffer, length and destination take no part in the comparison. */
  lemma CompareToIgnoresPayload(a: TcpData, b: TcpData, a': TcpData, b': TcpData)
    requires a.delayedUntilNanos == a'.delayedUntilNanos && b.delayedUntilNanos == b'.delayedUntilNanos
    ensures CompareTo(a, b) == CompareTo(a', b')
  {
  }

  lemma CompareToAntisymmetric(a: TcpData, b: TcpData)
    ensures CompareTo(a, b) == -CompareTo(b, a)
  {
  }

  /** Together with reflexivity and totality, CompareTo is a total preorder. */
  lemma CompareToTransitive(a: TcpData, b: TcpData, c: TcpData)
    ensures CompareTo(a, b) <= 0 && CompareTo(b, c) <= 0 ==> CompareTo(a, c) <= 0
    ensures CompareTo(a, b) < 0 && CompareTo(b, c) < 0 ==> CompareTo(a, c) < 0
    ensures CompareTo(a, b) == 0 && CompareTo(b, c) == 0 ==> CompareTo(a, c) == 0
  {
  }

  /** Once due, an item stays due as the clock advances. */
  lemma GetDelayMonotone(d: TcpData, now: int, later: int)
    requires now <= later
    ensures GetDelay(d, later) <= GetDelay(d, now)
    ensures GetDelay(d, now) <= 0 ==> GetDelay(d, later) <= 0
  {
  }

  /**
   * An item stamped 0 is due at every non-negative clock value. System.nanoTime
   * has an arbitrary origin and may be negative, so this says nothing for
   * such clock values.
   */
  lemma StampedZeroIsDue(d: TcpData, nowNanos: int)
    requires d.delayedUntilNanos == 0 && nowNanos >= 0
    ensures GetDelay(d, nowNanos) <= 0
  {
  }
}
