/**
 * The decision rules of TCPDataReader (src/org/tcpdelay/TCPDataReader.java):
 * the connection-pair table filled on accept, the rule that turns one read
 * outcome into one queued item, the due-instant stamp, and closeInput.
 * The selector loop, the sockets' own I/O and the clock are outside the
 * model: the outcome of each accept and read, and the select time, are
 * parameters.
 */
module TcpDataReader {
  import opened Optional
  import opened Sockets
  import opened TcpDataMillis

  /** Capacity of the buffer each read fills. */
  const BufferSize := 16384

  /** What SocketChannel.read did: returned bytes (possibly none), returned -1, or threw. */
  datatype ReadResult = Bytes(data: seq<byte>) | EndOfStream | ReadThrew

  /**
   * How far handleConnection got: accept threw; accepting worked but opening
   * or configuring the remote side threw; both table entries were put but
   * registering with the selector threw; or everything succeeded.
   */
  datatype ConnectStep = AcceptFails | RemoteFails | RegisterFails | Connected

  /** Map.get: the paired socket, or null. */
  function Lookup(pairs: map<Socket, Socket>, sc: Socket): Socket? {
    if sc in pairs then pairs[sc] else null
  }

  /** The direction read from sc ends: the read threw, hit end of stream, or sc has no pair. */
  predicate ReadEnds(pair: Socket?, r: ReadResult) {
    !r.Bytes? || pair == null
  }

  /** Due instant of an item read at selectTime: no delay stamps 0. */
  function DelayedUntil(selectTime: int, delayMs: int): int {
    if delayMs > 0 then selectTime + delayMs else 0
  }

  /** The item handleRead queues for a read on a socket whose looked-up pair is pair. */
  function QueuedItem(pair: Socket?, r: ReadResult, selectTime: int, delayMs: int): (d: TcpData)
    ensures d.len < 0 <==> r.ReadThrew? || r.EndOfStream? || pair == null
    ensures d.len < 0 ==> d.len == -1
    ensures d.len >= 0 ==> r.Bytes? && d.len == |r.data| && d.buffer == r.data && d.channel != null
    ensures d.channel == pair
  {
    var (len, threw) := match r
      case Bytes(data) => (|data|, false)
      case EndOfStream => (-1, false)
      case ReadThrew => (0, true);
    var close := threw || len < 0 || pair == null;
    TcpData(if r.Bytes? then r.data else [], if close then -1 else len, pair,
            DelayedUntil(selectTime, delayMs))
  }

  /** A queued item the writer can act on: a close signal, or a full chunk for a known socket. */
  predicate WellFormed(d: TcpData) {
    if d.len < 0 then d.len == -1 else d.channel != null && d.len == |d.buffer| <= BufferSize
  }

  /**
   * The pair table is a partial matching: no socket is paired with itself,
   * no two sockets share a partner, and when both entries of a pair are
   * present they point at each other.
   */
  ghost predicate Matching(pairs: map<Socket, Socket>) {
    && (forall s | s in pairs :: pairs[s] != s && (pairs[s] in pairs ==> pairs[pairs[s]] == s))
    && (forall s, t | s in pairs && t in pairs && pairs[s] == pairs[t] :: s == t)
  }

  /** closeInput on a socket in state s. */
  function CloseInputState(s: SocketState): (r: SocketState)
    ensures InputEnded(r)
    ensures r.outputShut == s.outputShut
    ensures r.closed <==> s.closed || s.outputShut
    ensures s.closed ==> r == s
  {
    if s.closed then s
    else if s.outputShut then s.(closed := true)
    else if !s.inputShut then s.(inputShut := true)
    else s
  }

  method CloseInput(sc: Socket)
    modifies sc
    ensures sc.State() == CloseInputState(old(sc.State())) && sc.sent == old(sc.sent)
  {
    if sc.closed {
      return;
    }
    if sc.outputShut {
      sc.Close();
    } else if !sc.inputShut {
      sc.ShutdownInput();
    }
  }

  /** Read outcomes never queue a malformed item. */
  lemma QueuedItemWellFormed(pair: Socket?, r: ReadResult, selectTime: int, delayMs: int)
    requires r.Bytes? ==> |r.data| <= BufferSize
    ensures WellFormed(QueuedItem(pair, r, selectTime, delayMs))
  {
  }

  /** A read of zero bytes on a paired socket is data, not a close. */
  lemma EmptyReadIsNotClose(pair: Socket, selectTime: int, delayMs: int)
    ensures !ReadEnds(pair, Bytes([]))
    ensures QueuedItem(pair, Bytes([]), selectTime, delayMs).len == 0
  {
  }

  /**
   * The stamped item becomes due exactly delayMs after the select when a
   * delay is configured, and immediately otherwise.
   */
  lemma QueuedItemDueAfterDelay(pair: Socket?, r: ReadResult, selectTime: int, delayMs: int, now: int)
    ensures var d := QueuedItem(pair, r, selectTime, delayMs);
            (delayMs > 0 ==> (GetDelay(d, now) <= 0 <==> now - selectTime >= delayMs))
            && (delayMs <= 0 && now >= 0 ==> GetDelay(d, now) <= 0)
  {
  }

  /** With a fixed delay, later selects never stamp earlier due instants. */
  lemma DelayedUntilMonotone(t1: int, t2: int, delayMs: int)
    requires t1 <= t2
    ensures DelayedUntil(t1, delayMs) <= DelayedUntil(t2, delayMs)
  {
  }

  class Reader {
    const localPort: int
    const remoteHost: Option<string>
    const remotePort: int
    const delayMs: int
    /** channelPairs: each socket of an established connection to the other one. */
    var channelPairs: map<Socket, Socket>
    /** Every item handed to the delivery queue, in order. */
    var queue: seq<TcpData>

    ghost predicate Valid()
      reads this
    {
      Matching(channelPairs) && forall d | d in queue :: WellFormed(d)
    }

    constructor (localPort: int, remoteHost: Option<string>, remotePort: int, delayMs: int)
      ensures Valid()
      ensures this.localPort == localPort && this.remoteHost == remoteHost
      ensures this.remotePort == remotePort && this.delayMs == delayMs
      ensures channelPairs == map[] && queue == []
    {
      this.localPort := localPort;
      this.remoteHost := remoteHost;
      this.remotePort := remotePort;
      this.delayMs := delayMs;
      channelPairs := map[];
      queue := [];
    }

    /** new InetSocketAddress(remoteHost, remotePort) throws for a null host or a port outside 0..65535. */
    predicate RemoteAddressValid()
      reads this
    {
      remoteHost.Some? && 0 <= remotePort <= 65535
    }

    /**
     * Accepts a client and connects it to the remote endpoint. On success
     * both table entries are put; when opening the remote side fails the
     * client is closed and the table is unchanged; when registration fails
     * the client is closed but the entries already put stay.
     */
    method HandleConnection(step: ConnectStep) returns (client: Socket?, remote: Socket?)
      requires Valid()
      requires step.RegisterFails? || step.Connected? ==> RemoteAddressValid()
      modifies this`channelPairs
      ensures Valid() && queue == old(queue)
      ensures step.AcceptFails? ==> client == null && remote == null && channelPairs == old(channelPairs)
      ensures !step.AcceptFails? ==> client != null && fresh(client) && client.sent == []
      ensures step.RemoteFails? ==>
                remote == null && client.State() == Open.(closed := true)
                && channelPairs == old(channelPairs)
      ensures step.RegisterFails? || step.Connected? ==>
                remote != null && fresh(remote) && remote.sent == [] && remote.State() == Open
                && channelPairs == old(channelPairs)[client := remote][remote := client]
                && channelPairs[client] == remote && channelPairs[remote] == client
      ensures step.RegisterFails? ==> client.State() == Open.(closed := true)
      ensures step.Connected? ==> client.State() == Open
    {
      if step.AcceptFails? {
        return null, null;
      }
      var sc := new Socket();
      client := sc;
      if step.RemoteFails? {
        sc.Close();
        return sc, null;
      }
      var pairSc := new Socket();
      channelPairs := channelPairs[sc := pairSc];
      channelPairs := channelPairs[pairSc := sc];
      if step.RegisterFails? {
        sc.Close();
      }
      remote := pairSc;
    }

    /**
     * One read on sc at selectTime. Exactly one item is queued whatever the
     * outcome; when the direction ends, sc's input is closed and only the
     * entry keyed by sc leaves the table.
     */
    method HandleRead(sc: Socket, r: ReadResult, selectTime: int)
      requires Valid()
      requires r.Bytes? ==> |r.data| <= BufferSize
      modifies this`channelPairs, this`queue, sc
      ensures Valid()
      ensures var pair := Lookup(old(channelPairs), sc);
              && queue == old(queue) + [QueuedItem(pair, r, selectTime, delayMs)]
              && channelPairs == (if ReadEnds(pair, r) then old(channelPairs) - {sc} else old(channelPairs))
              && sc.State() == (if ReadEnds(pair, r) then CloseInputState(old(sc.State())) else old(sc.State()))
      ensures sc.sent == old(sc.sent)
    {
      var close := false;
      var buffer: seq<byte> := [];
      var len := 0;
      var pairSc := Lookup(channelPairs, sc);
      match r {
        case Bytes(data) =>
          buffer, len := data, |data|;
          if pairSc == null {
            close := true;
          }
        case EndOfStream =>
          len := -1;
          close := true;
        case ReadThrew =>
          close := true;
      }
      if close {
        len := -1;
        CloseInput(sc);
        channelPairs := channelPairs - {sc};
      }
      var delayedUntil := 0;
      if delayMs > 0 {
        delayedUntil := selectTime + delayMs;
      }
      var item := TcpData(buffer, len, pairSc, delayedUntil);
      QueuedItemWellFormed(pairSc, r, selectTime, delayMs);
      queue := queue + [item];
    }
  }
}
