/**
 * The part of a TCP socket the relay looks at: whether it is closed, whether
 * its input and its output have been shut down, and the bytes written to it.
 */
module Sockets {
  newtype byte = x: int | 0 <= x < 256

  /** The three flags java.net.Socket reports through isClosed, isInputShutdown and isOutputShutdown. */
  datatype SocketState = SocketState(closed: bool, inputShut: bool, outputShut: bool)

  /** A freshly connected socket: both directions usable. */
  const Open := SocketState(false, false, false)

  /** No more bytes will be read from the socket. */
  predicate InputEnded(s: SocketState) { s.closed || s.inputShut }

  /** No more bytes can be written to the socket. */
  predicate OutputEnded(s: SocketState) { s.closed || s.outputShut }

  class Socket {
    var closed: bool
    var inputShut: bool
    var outputShut: bool
    /** Every byte written to this socket so far, in order. */
    var sent: seq<byte>

    constructor ()
      ensures State() == Open && sent == []
    {
      closed, inputShut, outputShut := false, false, false;
      sent := [];
    }

    function State(): SocketState
      reads this
    {
      SocketState(closed, inputShut, outputShut)
    }

    /** Socket.close: the socket is closed, the shutdown flags keep their values. */
    method Close()
      modifies this
      ensures State() == old(State()).(closed := true) && sent == old(sent)
    {
      closed := true;
    }

    /** Socket.shutdownInput on a socket that is open. */
    method ShutdownInput()
      requires !closed
      modifies this
      ensures State() == old(State()).(inputShut := true) && sent == old(sent)
    {
      inputShut := true;
    }

    /** Socket.shutdownOutput on a socket that is open. */
    method ShutdownOutput()
      requires !closed
      modifies this
      ensures State() == old(State()).(outputShut := true) && sent == old(sent)
    {
      outputShut := true;
    }

    /** One successful write: the bytes are appended to what the peer will read. */
    method Append(bytes: seq<byte>)
      modifies this
      ensures State() == old(State()) && sent == old(sent) + bytes
    {
      sent := sent + bytes;
    }
  }
}
