/**
 * The delayed item of the relay (src/org/tcpdelay/TCPData.java): a chunk of
 * bytes, its length (-1 signals "close the destination's output"), the
 * destination socket (null when the pair was unknown) and the instant, in
 * milliseconds, from which it may be relayed. The record is immutable, so its
 * accessors are the datatype's destructors.
 */
module TcpDataMillis {
  import opened Sockets

  datatype TcpData = TcpData(buffer: seq<byte>, len: int, channel: Socket?, delayedUntil: int)

  /** Remaining delay in milliseconds against the clock value nowMillis. */
  function GetDelay(d: TcpData, nowMillis: int): (r: int)
    ensures r <= 0 <==> nowMillis >= d.delayedUntil
    ensures nowMillis + r == d.delayedUntil
  {
    d.delayedUntil - nowMillis
  }

  /** Orders items by their due instant only. */
  function CompareTo(a: TcpData, b: TcpData): (r: int)
    ensures r == -1 <==> a.delayedUntil < b.delayedUntil
    ensures r == 0 <==> a.delayedUntil == b.delayedUntil
    ensures r == 1 <==> a.delayedUntil > b.delayedUntil
  {
    if a.delayedUntil < b.delayedUntil then -1
    else if a.delayedUntil > b.delayedUntil then 1
    else 0
  }

  /** Buffer, length and destination take no part in the comparison. */
  lemma CompareToIgnoresPayload(a: TcpData, b: TcpData, a': TcpData, b': TcpData)
    requires a.delayedUntil == a'.delayedUntil && b.delayedUntil == b'.delayedUntil
    ensures CompareTo(a, b) == CompareTo(a', b')
  {
  }

  lemma CompareToAntisymmetric(a: TcpData, b: TcpData)
    ensures CompareTo(a, b) == -CompareTo(b, a)
  {
  }

  /** Together with reflexivity and totality, CompareTo is a total preorder. */
  lemma CompareToTransitive(a: TcpData, b: TcpData, c: TcpData)
    ensures CompareTo(a, b) <= 0 && CompareTo(b, c) <= 0 ==> CompareTo(a, c) <= 0
    ensures CompareTo(a, b) < 0 && CompareTo(b, c) < 0 ==> CompareTo(a, c) < 0
    ensures CompareTo(a, b) == 0 && CompareTo(b, c) == 0 ==> CompareTo(a, c) == 0
  {
  }

  /** Once due, an item stays due as the clock advances. */
  lemma GetDelayMonotone(d: TcpData, now: int, later: int)
    requires now <= later
    ensures GetDelay(d, later) <= GetDelay(d, now)
    ensures GetDelay(d, now) <= 0 ==> GetDelay(d, later) <= 0
  {
  }

  /** An item stamped 0 (no delay configured) is due at every non-negative clock value. */
  lemma StampedZeroIsDue(d: TcpData, nowMillis: int)
    requires d.delayedUntil == 0 && nowMillis >= 0
    ensures GetDelay(d, nowMillis) <= 0
  {
  }
}
