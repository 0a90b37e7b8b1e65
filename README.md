# tcpdelay relay rules in Dafny

tcpdelay is a TCP proxy that relays bytes between a client and a remote
service and can hold every chunk back by a fixed delay. One thread (the
reader) accepts connections, pairs each client socket with a new socket to
the remote endpoint, reads chunks and queues them in a `DelayQueue`; a
second thread (the writer) takes each chunk once it is due and writes it to
the paired socket. This project models the decision rules underneath that
plumbing, with sockets, the clock and the outcome of each I/O call as
parameters:

- `TcpDataMillis` and `TcpDataNanos`: the two copies of the delayed item
  (`TCPData`), an immutable record ordered by its due instant alone, with
  its remaining delay measured against a clock value passed in. Being a
  datatype, its accessors return exactly the constructor arguments and
  nothing can change a field.
- `DelayQueue`: the contract the relay relies on from the library queue:
  take hands out an item no other item precedes, and only once it is due.
- `TcpDataReader`: the `Reader` class holds the connection-pair table
  (`channelPairs`, a map from socket to socket) and the items queued so far;
  `HandleConnection` and `HandleRead` update them as the source does, and
  `CloseInput` is the reader's half of the half-close state machine.
- `TcpDataWriter`: the per-item body of the writer loop (close signal,
  partial-write loop, close on failure), `CloseOutput`, and a finite
  stretch of the writer loop.
- `HalfClose`: closeInput and closeOutput together.
- `Launcher`: flag lookup, the required-flag check, the log-level mapping
  and the parsing of ports and delay, with the exits as result values.
- `Sockets`: the three flags of a socket (closed, input shut, output shut)
  and the bytes written to it; `Optional`: Java's null as `None`.

## Model

| member | source | states |
|---|---|---|
| TcpDataMillis.GetDelay | src/org/tcpdelay/TCPData.java:53-55 | the remaining delay is what is left of the clock until the due instant; it is non-positive exactly when the clock has reached the due instant |
| TcpDataMillis.CompareTo | src/org/tcpdelay/TCPData.java:57-65 | -1, 0 or 1 exactly when the due instant is before, equal to or after the other's |
| TcpDataMillis.CompareToIgnoresPayload | src/org/tcpdelay/TCPData.java:57-65 | buffer, length and destination take no part in the ordering; equal due instants compare equal with no tie-break |
| TcpDataMillis.CompareToAntisymmetric | src/org/tcpdelay/TCPData.java:57-65 | comparing b with a gives the negation of comparing a with b |
| TcpDataMillis.CompareToTransitive | src/org/tcpdelay/TCPData.java:59-64 | the ordering is transitive for before-or-equal, strictly-before and equal, so it is a total preorder |
| TcpDataMillis.GetDelayMonotone | src/org/tcpdelay/TCPData.java:53-55 | the remaining delay never grows as the clock advances, so a due item stays due |
| TcpDataMillis.StampedZeroIsDue | src/org/tcpdelay/TCPData.java:53-55 | an item stamped 0 is due at every non-negative clock value |
| TcpDataNanos.GetDelay | src/main/java/org/tcpdelay/TCPData.java:53-55 | remaining delay in nanoseconds; non-positive exactly when the clock has reached the due instant |
| TcpDataNanos.CompareTo | src/main/java/org/tcpdelay/TCPData.java:57-66 | -1, 0 or 1 exactly when the due instant is before, equal to or after the other's |
| TcpDataNanos.CompareToIgnoresPayload | src/main/java/org/tcpdelay/TCPData.java:63-64 | equal due instants compare as 0 whatever the length, buffer or destination |
| TcpDataNanos.CompareToAntisymmetric | src/main/java/org/tcpdelay/TCPData.java:57-66 | comparing b with a gives the negation of comparing a with b |
| TcpDataNanos.CompareToTransitive | src/main/java/org/tcpdelay/TCPData.java:57-66 | the ordering is transitive, a total preorder |
| TcpDataNanos.GetDelayMonotone | src/main/java/org/tcpdelay/TCPData.java:53-55 | a due item stays due as the clock advances |
| TcpDataNanos.StampedZeroIsDue | src/main/java/org/tcpdelay/TCPData.java:53-55 | an item stamped 0 is due at every non-negative clock value |
| DelayQueue.TakeIsNeverEarly | src/org/tcpdelay/TCPDataWriter.java:47 | an item take may return is never handed out before its due instant |
| DelayQueue.TakesAreNonDecreasing | src/org/tcpdelay/TCPDataWriter.java:47 | after a take, what stays queued and what is added no earlier is never due before the item taken, so takes hand out non-decreasing due instants |
| DelayQueue.Earliest | src/org/tcpdelay/TCPDataReader.java:66-69 | every non-empty queue has a head; with ties broken by insertion order it is the first item with the smallest due instant |
| DelayQueue.SortedQueueTakesOldestFirst | src/org/tcpdelay/TCPDataReader.java:66-69 | on a queue filled in due order, the insertion-order head is the oldest item: the queue acts as a delay-shifted FIFO |
| DelayQueue.TiedCloseMayOvertakeData | src/org/tcpdelay/TCPData.java:57-65 | with equal due instants, once an earlier item is taken the ordering lets take return a close signal for a socket before the data chunk for it queued ahead |
| TcpDataReader.QueuedItem | src/org/tcpdelay/TCPDataReader.java:129-151 | the queued length is -1 exactly when the read threw, hit end of stream or the socket had no pair; otherwise it is the number of bytes read, the buffer holds them and the destination is the non-null pair |
| TcpDataReader.QueuedItemWellFormed | src/org/tcpdelay/TCPDataReader.java:127-151 | every queued item is either a close signal or a chunk of at most 16384 bytes for a known socket |
| TcpDataReader.EmptyReadIsNotClose | src/org/tcpdelay/TCPDataReader.java:133 | a read of zero bytes on a paired socket ends nothing and queues a zero-length chunk |
| TcpDataReader.QueuedItemDueAfterDelay | src/org/tcpdelay/TCPDataReader.java:146-149 | with a positive delay the item becomes due exactly delayMs after the select time; otherwise it is due at once |
| TcpDataReader.DelayedUntilMonotone | src/org/tcpdelay/TCPDataReader.java:146-149 | with one delay for all items, a later select never stamps an earlier due instant |
| TcpDataReader.CloseInputState | src/org/tcpdelay/TCPDataReader.java:193-213 | afterwards the input has ended; the output flag is untouched; the socket is closed exactly when it was closed already or its output had been shut; a closed socket is left alone |
| TcpDataReader.CloseInput | src/org/tcpdelay/TCPDataReader.java:193-213 | the socket's new flags are those CloseInputState gives, and nothing is written to it |
| TcpDataReader.Reader.constructor | src/org/tcpdelay/TCPDataReader.java:53-60 | keeps the configuration; the table and the queue start empty |
| TcpDataReader.Reader.HandleConnection | src/org/tcpdelay/TCPDataReader.java:161-191 | success puts both entries, so the pair is symmetric; a failure opening the remote side closes the client and adds nothing; a failure registering closes the client and keeps the entries; a null host or a port outside 0..65535 always fails the remote side; the table stays a matching |
| TcpDataReader.Reader.HandleRead | src/org/tcpdelay/TCPDataReader.java:125-156 | exactly one item is queued per read; when the direction ends the reading socket's input is closed and only its own entry leaves the table; the table stays a matching |
| TcpDataWriter.CloseOutputState | src/org/tcpdelay/TCPDataWriter.java:79-99 | afterwards the output has ended; the input flag is never touched; the socket is closed exactly when it was closed already or its input had been shut |
| TcpDataWriter.CloseOutput | src/org/tcpdelay/TCPDataWriter.java:79-99 | the socket's new flags are those CloseOutputState gives, and nothing is written to it |
| TcpDataWriter.WriteAll | src/org/tcpdelay/TCPDataWriter.java:60-67 | the loop writes until len bytes are out: without an exception exactly the first len bytes of the buffer, in order; with one, a prefix of them; no write is issued for len 0 |
| TcpDataWriter.RelayItem | src/org/tcpdelay/TCPDataWriter.java:52-75 | a negative length writes nothing and closes the destination's output iff it is non-null; length 0 writes and closes nothing; otherwise the delivered bytes are a prefix of the buffer, all of it unless a write fails, and a failure closes the destination's output |
| TcpDataWriter.Run | src/org/tcpdelay/TCPDataWriter.java:44-76 | an interrupted take processes nothing and every other pass exactly one item; when each item taken is one the DelayQueue take contract admits, none is relayed before it is due; a destination whose items neither close it nor fail receives exactly their bytes, in take order, with no gap or duplicate |
| HalfClose.CloseInputIdempotent | src/org/tcpdelay/TCPDataReader.java:193-213 | a second closeInput changes nothing |
| HalfClose.CloseOutputIdempotent | src/org/tcpdelay/TCPDataWriter.java:79-99 | a second closeOutput changes nothing |
| HalfClose.CloseOutputMirrorsCloseInput | src/org/tcpdelay/TCPDataWriter.java:79-99 | closeOutput is closeInput with the input and output flags exchanged |
| HalfClose.BothDirectionsEndedCloses | src/org/tcpdelay/TCPDataWriter.java:79-99 | closeInput then closeOutput, or the other way round, leaves any socket fully closed |
| HalfClose.OneDirectionKeepsTheOther | src/org/tcpdelay/TCPDataReader.java:193-213 | ending one direction of an open socket leaves the other direction usable |
| Launcher.HasArg | src/org/tcpdelay/Launcher.java:102-109 | true exactly when some argument equals the flag ignoring case |
| Launcher.GetArgDataFrom | src/org/tcpdelay/Launcher.java:111-118 | the scan from index i returns the argument after the first match that has one, and none when there is no such match |
| Launcher.GetArgData | src/org/tcpdelay/Launcher.java:111-118 | the argument after the first match that is not in the last position, or null when there is none |
| Launcher.ArgDataImpliesHasArg | src/org/tcpdelay/Launcher.java:102-118 | a flag that yields a value is present |
| Launcher.TrailingFlagHasNoData | src/org/tcpdelay/Launcher.java:113 | a flag given only in the last position is present yet yields null |
| Launcher.LevelNamesDistinct | src/org/tcpdelay/Launcher.java:49-55 | no value names two of DEBUG, INFO and ERROR ignoring case |
| Launcher.LevelNamed | src/org/tcpdelay/Launcher.java:49-57 | DEBUG maps to FINE, INFO to INFO, ERROR to SEVERE, ignoring case; null and anything else to none |
| Launcher.Launch | src/org/tcpdelay/Launcher.java:38-87 | usage exit exactly when -help is given or a required flag is missing; then an invalid log level, local port, remote port or delay exits with its message, in that order, and a port or delay flag with no value after it exits with the message ending in null; the relay starts exactly when none of these holds, with level INFO when -logLevel is absent, the parsed ports, the host value (possibly null) and delay 0 when -delayMs is absent |

## Findings

| source | as written | input that shows it | evidently intended | confidence | as-written member | corrected member |
|---|---|---|---|---|---|---|
| src/org/tcpdelay/TCPData.java:57-65 | compareTo reports items with equal due instants as equal and DelayQueue breaks such ties in no particular order, so an item may be taken before one queued ahead of it | delayMs 0 (every item stamped 0): three items are queued, an earlier item, then a chunk and then the close signal for the same destination; after the first is taken the ordering lets take return the close signal before the chunk (the binary heap of the JDK priority queue does so for this input), after which the chunk's write fails on a shut output | items leave in the order the reader queued them, as the comment at TCPDataReader.java:67-68 says | medium; not executed | DelayQueue.TiedCloseMayOvertakeData | DelayQueue.Earliest |

## Left out

- The selector loop in `TCPDataReader.run`, `keys.clear()`, binding the listen socket, and the fatal `System.exit(1)` on setup failure: I/O plumbing. Each accept and read is a parameter (`ConnectStep`, `ReadResult`) and the select time is an argument.
- The two threads and the hand-off between them: concurrency. The reader's `queue` field is the sequence of items added; `TcpDataWriter.Run` receives, as ghost arguments, the queue contents and clock value at each take and requires each item taken to satisfy the take contract of `DelayQueue`; it does not tie those queue contents to what the reader added.
- The internals of `java.util.concurrent.DelayQueue` (its binary heap and how it breaks ties): library code. Only the ordering and due-time contract is modelled.
- `TimeUnit.convert` in `getDelay`: each item reports its delay in its own unit (milliseconds or nanoseconds). The conversion is a library call; into a finer unit, such as the nanoseconds `DelayQueue.take` asks for, it keeps the sign, but into a coarser unit it truncates toward zero (500 ms left reads as 0 seconds).
- 64-bit `long` and 32-bit `int` wrap-around: clock values, `selectTime + delayMs` and byte counts are unbounded integers, since realistic clocks and 16 KiB chunks stay far from the limits.
- The unit mismatch between the millisecond select time of the reader and the nanosecond item of `src/main/java`: each file is modelled as written; the reader uses the millisecond item.
- Clock reads, logging, `Utils.logVarArgs`, `getConsoleHandler` and console output: side effects with no bearing on the rules.
- Exceptions thrown by `Socket.close`, `shutdownInput` and `shutdownOutput` inside closeInput and closeOutput: the source ignores them; the model lets those calls succeed.
- `key.cancel()` in handleRead and the selector registration in handleConnection: the registration failure is the `RegisterFails` outcome.
- The remote socket opened when only its `configureBlocking` call fails is not returned by `HandleConnection`: the source leaks it and nothing refers to it again.
- A failure of `queue.add`: an unbounded `DelayQueue` never rejects an item, so every read queues one.
- Termination of the partial-write loop when a write accepts 0 bytes: `Progresses` assumes every write accepts at least one byte or throws.
- `TcpDataWriter.Run` is a finite stretch of the loop, which itself never ends.
- `Integer.parseInt` is a parameter (`None` for NumberFormatException), and `equalsIgnoreCase` folds ASCII letters only.
