/**
 * The per-item body of TCPDataWriter.run (src/org/tcpdelay/TCPDataWriter.java):
 * a negative length closes the destination's output; otherwise the buffer is
 * written in a loop until the whole length has gone out, and any exception
 * closes the destination's output. Each SocketChannel.write is an abstract
 * step: it either throws or accepts some of the bytes still to be written.
 */
module TcpDataWriter {
  import opened Sockets
  import opened TcpDataMillis
  import opened DelayQueue

  /** Outcome of one SocketChannel.write call. */
  datatype WriteResult = Wrote(n: nat) | WriteThrew

  /**
   * The writes available to a loop that still has remaining bytes to write
   * either finish the job or throw first, and each successful write accepts
   * at least one and at most the remaining bytes.
   */
  predicate Progresses(writes: seq<WriteResult>, remaining: nat)
    decreases |writes|
  {
    remaining == 0 ||
    (|writes| > 0 &&
     match writes[0]
     case WriteThrew => true
     case Wrote(n) => 0 < n <= remaining && Progresses(writes[1..], remaining - n))
  }

  /** A write throws before the remaining bytes have all been written. */
  predicate ThrowsBefore(writes: seq<WriteResult>, remaining: nat)
    requires Progresses(writes, remaining)
    decreases |writes|
  {
    remaining > 0 &&
    match writes[0]
    case WriteThrew => true
    case Wrote(n) => ThrowsBefore(writes[1..], remaining - n)
  }

  /** closeOutput on a socket in state s. */
  function CloseOutputState(s: SocketState): (r: SocketState)
    ensures OutputEnded(r)
    ensures r.inputShut == s.inputShut
    ensures r.closed <==> s.closed || s.inputShut
    ensures s.closed ==> r == s
  {
    if s.closed then s
    else if s.inputShut then s.(closed := true)
    else if !s.outputShut then s.(outputShut := true)
    else s
  }

  method CloseOutput(sc: Socket)
    modifies sc
    ensures sc.State() == CloseOutputState(old(sc.State())) && sc.sent == old(sc.sent)
  {
    if sc.closed {
      return;
    }
    if sc.inputShut {
      sc.Close();
    } else if !sc.outputShut {
      sc.ShutdownOutput();
    }
  }

  /**
   * The partial-write loop after buffer.flip(): writes are issued while
   * fewer than len bytes have been written. Returns the bytes the channel
   * accepted, the number of write calls and whether one threw.
   */
  method WriteAll(buffer: seq<byte>, len: nat, writes: seq<WriteResult>)
      returns (written: seq<byte>, calls: nat, failed: bool)
    requires len <= |buffer|
    requires Progresses(writes, len)
    ensures failed == ThrowsBefore(writes, len)
    ensures !failed ==> written == buffer[..len]
    ensures |written| <= len && written == buffer[..|written|]
    ensures calls <= |writes| && (len == 0 ==> calls == 0)
    ensures failed ==> calls > 0 && writes[calls - 1] == WriteThrew
  {
    var totalWritten := 0;
    written, calls, failed := [], 0, false;
    while totalWritten < len && !failed
      invariant totalWritten <= len && calls <= |writes|
      invariant written == buffer[..totalWritten]
      invariant !failed ==> Progresses(writes[calls..], len - totalWritten)
      invariant ThrowsBefore(writes, len) == (failed || ThrowsBefore(writes[calls..], len - totalWritten))
      invariant failed ==> calls > 0 && writes[calls - 1] == WriteThrew
      invariant len == 0 ==> calls == 0
      decreases len - totalWritten, !failed
    {
      assert writes[calls..][1..] == writes[calls + 1..];
      match writes[calls] {
        case WriteThrew =>
          failed := true;
        case Wrote(n) =>
          written := written + buffer[totalWritten..totalWritten + n];
          totalWritten := totalWritten + n;
      }
      calls := calls + 1;
    }
  }

  /**
   * Relays one item taken from the queue to its destination. Returns the
   * bytes delivered and whether closeOutput was called on the destination.
   * A write to a socket whose output has ended throws, as
   * SocketChannel.write does on a closed or output-shut channel, and a
   * write to a null destination throws before reaching any socket.
   */
  method RelayItem(data: TcpData, writes: seq<WriteResult>) returns (delivered: seq<byte>, closedOutput: bool)
    requires data.len >= 0 ==> data.len <= |data.buffer| && Progresses(writes, data.len)
    modifies data.channel
    ensures data.len < 0 ==> delivered == [] && (closedOutput <==> data.channel != null)
    ensures data.len == 0 ==> delivered == [] && !closedOutput
    ensures data.channel == null ==> delivered == []
    ensures data.len >= 0 ==> |delivered| <= data.len && delivered == data.buffer[..|delivered|]
    ensures data.len > 0 && data.channel != null ==>
              closedOutput == (OutputEnded(old(data.channel.State())) || ThrowsBefore(writes, data.len))
    ensures data.len > 0 && data.channel != null && !closedOutput ==> delivered == data.buffer[..data.len]
    ensures data.channel != null && OutputEnded(old(data.channel.State())) ==> delivered == []
    ensures data.channel != null ==>
              && data.channel.sent == old(data.channel.sent) + delivered
              && data.channel.State() == (if closedOutput then CloseOutputState(old(data.channel.State()))
                                          else old(data.channel.State()))
  {
    var pairSc := data.channel;
    var close := false;
    delivered := [];
    if data.len < 0 {
      close := true;
    } else if data.len > 0 {
      if pairSc == null || OutputEnded(pairSc.State()) {
        close := true;
      } else {
        var calls;
        delivered, calls, close := WriteAll(data.buffer, data.len, writes);
        pairSc.Append(delivered);
      }
    }
    closedOutput := close && pairSc != null;
    if closedOutput {
      CloseOutput(pairSc);
    }
  }

  /** One pass of run's loop: take was interrupted, or it returned an item (with the outcomes of its writes). */
  datatype Take = Interrupted | Took(item: TcpData, writes: seq<WriteResult>)

  /** Every item taken can be relayed: a full buffer and writes that make progress. */
  predicate Relayable(takes: seq<Take>) {
    forall t | t in takes && t.Took? ::
      t.item.len >= 0 ==> t.item.len <= |t.item.buffer| && Progresses(t.writes, t.item.len)
  }

  /** The items taken, in order. */
  function Items(takes: seq<Take>): seq<TcpData> {
    if takes == [] then []
    else Items(takes[..|takes| - 1]) + (if takes[|takes| - 1].Took? then [takes[|takes| - 1].item] else [])
  }

  /** The bytes the taken items carry for destination x, in order. */
  function Payload(takes: seq<Take>, x: Socket): seq<byte> {
    if takes == [] then []
    else
      var t := takes[|takes| - 1];
      Payload(takes[..|takes| - 1], x)
      + (if t.Took? && t.item.channel == x && 0 <= t.item.len <= |t.item.buffer| then t.item.buffer[..t.item.len] else [])
  }

  /** No item for x is a close signal and no write to x throws. */
  predicate CleanFor(takes: seq<Take>, x: Socket)
    requires Relayable(takes)
  {
    forall t | t in takes && t.Took? && t.item.channel == x ::
      t.item.len >= 0 && !ThrowsBefore(t.writes, t.item.len)
  }

  /** The destinations of the taken items. */
  function Destinations(takes: seq<Take>): set<Socket?> {
    set t | t in takes && t.Took? :: t.item.channel
  }

  /**
   * Each item taken is one DelayQueue.take may hand out: at pass k the queue
   * held queues[k], the clock read times[k], and the item is queues[k][heads[k]].
   */
  ghost predicate TakenByContract(takes: seq<Take>, queues: seq<seq<TcpData>>, times: seq<int>, heads: seq<int>) {
    |queues| == |takes| && |times| == |takes| && |heads| == |takes|
    && forall k | 0 <= k < |takes| && takes[k].Took? ::
         CanTake(queues[k], heads[k], times[k]) && queues[k][heads[k]] == takes[k].item
  }

  /**
   * A finite stretch of run: an interrupted take is retried and processes
   * nothing; every other pass relays exactly one item, never before it is
   * due. A destination whose output is open and whose items neither close
   * it nor fail receives exactly the bytes of its items, in the order they
   * were taken.
   */
  method Run(takes: seq<Take>, ghost queues: seq<seq<TcpData>>, ghost times: seq<int>, ghost heads: seq<int>,
             ghost x: Socket) returns (processed: seq<TcpData>)
    requires Relayable(takes)
    requires TakenByContract(takes, queues, times, heads)
    modifies Destinations(takes)
    ensures processed == Items(takes) && |processed| <= |takes|
    ensures forall k | 0 <= k < |takes| && takes[k].Took? :: times[k] >= takes[k].item.delayedUntil
    ensures !OutputEnded(old(x.State())) && CleanFor(takes, x) ==>
              x.sent == old(x.sent) + Payload(takes, x) && x.State() == old(x.State())
  {
    processed := [];
    var k := 0;
    ghost var clean := !OutputEnded(x.State()) && CleanFor(takes, x);
    while k < |takes|
      invariant k <= |takes|
      invariant processed == Items(takes[..k]) && |processed| <= k
      invariant forall j | 0 <= j < k && takes[j].Took? :: times[j] >= takes[j].item.delayedUntil
      invariant clean ==> x.sent == old(x.sent) + Payload(takes[..k], x) && x.State() == old(x.State())
    {
      assert takes[..k + 1][..k] == takes[..k];
      var t := takes[k];
      if t.Took? {
        TakeIsNeverEarly(queues[k], heads[k], times[k]);
        if t.item.channel != null {
          assert t.item.channel in Destinations(takes);
        }
        var delivered, closedOutput := RelayItem(t.item, t.writes);
        processed := processed + [t.item];
      }
      k := k + 1;
    }
    assert takes[..k] == takes;
  }
}
