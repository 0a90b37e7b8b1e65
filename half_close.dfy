/**
 * closeInput (reader side) and closeOutput (writer side) together: a socket
 * is fully closed once both of its directions have ended, in either order,
 * and each procedure is idempotent and the mirror image of the other.
 */
module HalfClose {
  import opened Sockets
  import opened TcpDataReader
  import opened TcpDataWriter

  /** The state with the roles of input and output exchanged. */
  function Mirror(s: SocketState): SocketState {
    SocketState(s.closed, s.outputShut, s.inputShut)
  }

  lemma CloseInputIdempotent(s: SocketState)
    ensures CloseInputState(CloseInputState(s)) == CloseInputState(s)
  {
  }

  lemma CloseOutputIdempotent(s: SocketState)
    ensures CloseOutputState(CloseOutputState(s)) == CloseOutputState(s)
  {
  }

  /** closeOutput is closeInput with input and output exchanged. */
  lemma CloseOutputMirrorsCloseInput(s: SocketState)
    ensures CloseOutputState(s) == Mirror(CloseInputState(Mirror(s)))
  {
  }

  /** Ending both directions, whichever ends first, fully closes the socket. */
  lemma BothDirectionsEndedCloses(s: SocketState)
    ensures CloseOutputState(CloseInputState(s)).closed
    ensures CloseInputState(CloseOutputState(s)).closed
  {
  }

  /** Ending one direction of an open socket leaves the other usable. */
  lemma OneDirectionKeepsTheOther(s: SocketState)
    requires s == Open
    ensures !OutputEnded(CloseInputState(s)) && InputEnded(CloseInputState(s))
    ensures !InputEnded(CloseOutputState(s)) && OutputEnded(CloseOutputState(s))
  {
  }
}
