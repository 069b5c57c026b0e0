/**
 * What the two lightweight reliable multicast channels (the transport-neutral
 * one and the JXTA one) share: peer references, the error kinds their
 * operations throw, the open/bound state check, and the time padding.
 */
module LwrCommon {
  import opened Wrappers

  type PeerId = string

  /** A peer id as a Java reference: a message without a source element has a null source. */
  type PeerRef = Option<PeerId>

  /** The name of the listener object registered with `joinGroup`. */
  type Listener = string

  const ACKTAG: string := "ACK"
  const SEQTAG: string := "SEQ"
  const SRCIDTAG: string := "SRCID"

  /** Milliseconds added to every socket timeout. */
  const PADDING: int := 250
  const DEFAULT_TIMEOUT: int := 5000 + PADDING

  /** The exceptions the channels throw. */
  datatype Error =
    | IllegalArgument(message: string)
    | IOError(message: string)
    | SocketTimeout(threshold: int)
    | NumberFormat(text: string)

  const CLOSED_MESSAGE: string := "LWRMulticast is closed"
  const NOT_BOUND_MESSAGE: string := "LWRMulticast not bound"
  const NULL_LISTENER_MESSAGE: string := "msgListener can not be null"
  /** What `Object.wait` throws on a negative timeout. */
  const NEGATIVE_WAIT_MESSAGE: string := "timeout value is negative"

  /**
   * `checkState`: a channel may send only while open and bound, and a
   * closed channel reports "closed" whether or not it is still bound.
   */
  function CheckState(closed: bool, bound: bool): (r: Outcome<Error>)
    ensures r.Pass? <==> !closed && bound
    ensures closed ==> r == Fail(IOError(CLOSED_MESSAGE))
    ensures !closed && !bound ==> r == Fail(IOError(NOT_BOUND_MESSAGE))
  {
    if closed then Fail(IOError(CLOSED_MESSAGE))
    else if !bound then Fail(IOError(NOT_BOUND_MESSAGE))
    else Pass
  }

  /**
   * `processAck`'s decision to wake the sender: the peer was not yet
   * counted and, counted now, brings the set to the threshold.
   */
  predicate AckWakes(ackSet: set<PeerRef>, id: PeerRef, threshold: int)
  {
    id !in ackSet && |ackSet + {id}| >= threshold
  }
}
