/**
 * The transport-neutral lightweight reliable multicast channel: messages
 * are multicast (or unicast to a set of peers) and the sender waits until
 * a threshold number of distinct peers acknowledged the message or the
 * socket timeout passed. Receivers acknowledge every data message and hand
 * it to the registered listener.
 *
 * The network is the parameter `net`: whether a unicast or multicast
 * sender exists and which sends it accepts. Transport calls are appended
 * to `outbox`, listener calls to `delivered`. The wait for acks is one
 * step: `arrived` holds the peers whose acks `processAck` counted while
 * the sender waited, and `interrupted` says whether the wait ended with an
 * `InterruptedException`.
 */
module LwrMulticast {
  import opened Wrappers
  import opened LwrCommon

  /** A message element: the channel stores longs and peer ids; anything else an application added is `OtherElem`. */
  datatype Element = LongElem(n: int) | PeerElem(id: PeerId) | OtherElem(text: string)

  /** A message: its elements by tag. */
  type Message = map<string, Element>

  /** The senders the network manager offers: `None` is a null sender; a unicast sender accepts sends to `reachable` peers. */
  datatype Transport = Transport(unicast: Option<set<PeerId>>, multicast: Option<bool>)

  /** One call into a sender. */
  datatype Transmission = Unicast(to: PeerId, message: Message) | Broadcast(message: Message)

  const NO_SENDER_MESSAGE: string := "message sender is null"
  const NO_MULTICAST_SENDER_MESSAGE: string := "multicast sender is null"

  /** `getSource`: the peer in the SRCID element, or null. */
  function GetSource(msg: Message): PeerRef
  {
    if SRCIDTAG in msg && msg[SRCIDTAG].PeerElem? then Some(msg[SRCIDTAG].id) else None
  }

  /** `getSequenceID`: the long in the SEQ element, or -1. */
  function GetSequenceID(msg: Message): int
  {
    if SEQTAG in msg && msg[SEQTAG].LongElem? then msg[SEQTAG].n else -1
  }

  /** A data message as `send(msg, threshold)` stamps it: the sender's id and the sequence number. */
  function Stamped(msg: Message, src: PeerId, number: int): Message
  {
    msg[SRCIDTAG := PeerElem(src)][SEQTAG := LongElem(number)]
  }

  /** The acknowledgement `ackMessage` builds. */
  function AckMessageOf(src: PeerId, number: int): Message
  {
    map[SRCIDTAG := PeerElem(src), ACKTAG := LongElem(number)]
  }

  /** How `receiveMessageEvent` reads an inbound message. */
  datatype Inbound = Dropped | AckFrom(src: PeerRef, number: int) | DataFrom(src: PeerRef, number: int)

  /**
   * A null message and a message from the local peer itself are dropped;
   * an ACK element that is a long makes an ack; otherwise a SEQ element
   * that is a long makes a data message; anything else is ignored.
   */
  function Classify(message: Option<Message>, local: PeerId): (r: Inbound)
    ensures r.AckFrom? || r.DataFrom? ==> message.Some? && r.src == GetSource(message.value) && r.src != Some(local)
    ensures r.DataFrom? ==> r.number == GetSequenceID(message.value)
  {
    if message.None? then Dropped
    else
      var m := message.value;
      var src := GetSource(m);
      if src == Some(local) then Dropped
      else if ACKTAG in m && m[ACKTAG].LongElem? then AckFrom(src, m[ACKTAG].n)
      else if SEQTAG in m && m[SEQTAG].LongElem? then DataFrom(src, m[SEQTAG].n)
      else Dropped
  }

  /** The peer that stamped a message can read back its own id and sequence number from it. */
  lemma StampedReadBack(msg: Message, src: PeerId, number: int)
    ensures GetSource(Stamped(msg, src, number)) == Some(src)
    ensures GetSequenceID(Stamped(msg, src, number)) == number
  {
    assert Stamped(msg, src, number)[SRCIDTAG] == PeerElem(src);
  }

  /**
   * Every other peer reads a stamped message as data from its sender with
   * its sequence number, unless the application itself put a long ACK
   * element in it; the sender drops its own copy.
   */
  lemma DataRoundTrip(msg: Message, src: PeerId, number: int, receiver: PeerId)
    requires !(ACKTAG in msg && msg[ACKTAG].LongElem?)
    ensures receiver != src ==> Classify(Some(Stamped(msg, src, number)), receiver) == DataFrom(Some(src), number)
    ensures Classify(Some(Stamped(msg, src, number)), src) == Dropped
  {
    StampedReadBack(msg, src, number);
    assert ACKTAG != SRCIDTAG && ACKTAG != SEQTAG;
    assert ACKTAG in Stamped(msg, src, number) <==> ACKTAG in msg;
  }

  /** The data message's receiver reads the acknowledgement it sends back as an ack from itself. */
  lemma AckRoundTrip(src: PeerId, number: int, receiver: PeerId)
    ensures receiver != src ==> Classify(Some(AckMessageOf(src, number)), receiver) == AckFrom(Some(src), number)
    ensures Classify(Some(AckMessageOf(src, number)), src) == Dropped
  {
    assert AckMessageOf(src, number)[SRCIDTAG] == PeerElem(src);
    assert AckMessageOf(src, number)[ACKTAG] == LongElem(number);
  }

  /**
   * The result of `send(pid, msg)`: the state check first, then the
   * sender (unicast for a peer, multicast for null); the sender's own
   * result is returned.
   */
  function Transmit(closed: bool, bound: bool, pid: PeerRef, net: Transport): (r: Result<bool, Error>)
    ensures r.Success? ==> !closed && bound
    ensures r.Success? && pid.Some? ==> net.unicast.Some? && r.value == (pid.value in net.unicast.value)
    ensures r.Success? && pid.None? ==> net.multicast == Some(r.value)
    ensures r.Failure? ==> r.error.IOError?
  {
    var st := CheckState(closed, bound);
    if st.Fail? then Failure(st.error)
    else if pid.Some? then
      if net.unicast.None? then Failure(IOError(NO_SENDER_MESSAGE))
      else Success(pid.value in net.unicast.value)
    else
      if net.multicast.None? then Failure(IOError(NO_MULTICAST_SENDER_MESSAGE))
      else Success(net.multicast.value)
  }

  function TransmissionTo(pid: PeerRef, msg: Message): Transmission
  {
    if pid.Some? then Unicast(pid.value, msg) else Broadcast(msg)
  }

  /** The unicasts of one message to `peers`, in order. */
  function Unicasts(peers: seq<PeerId>, msg: Message): (r: seq<Transmission>)
    ensures |r| == |peers|
  {
    if |peers| == 0 then [] else Unicasts(peers[..|peers| - 1], msg) + [Unicast(peers[|peers| - 1], msg)]
  }

  class Multicast {
    var closed: bool
    var bound: bool
    /** The socket timeout in milliseconds, padding included. */
    var timeout: int
    /** The next sequence number. */
    var sequence: nat
    /** The number of acks the current send waits for. */
    var threshold: int
    /** The peers that acknowledged the current send. */
    var ackSet: set<PeerRef>
    /** The acks of the last completed wait. */
    var ackList: set<PeerRef>
    var localPeerID: PeerId
    var msgListener: Listener
    /** The calls made into the senders, oldest first. */
    var outbox: seq<Transmission>
    /** The messages handed to the listener, oldest first. */
    var delivered: seq<Message>

    /**
     * `new LWRMulticast(manager, msgListener)`: a null listener makes
     * `joinGroup` throw, so no channel exists; otherwise a bound channel.
     */
    static method Open(localPeerID: PeerId, msgListener: Option<Listener>) returns (r: Result<Multicast, Error>)
      ensures msgListener.None? ==> r == Failure(IllegalArgument(NULL_LISTENER_MESSAGE))
      ensures msgListener.Some? ==>
                r.Success? && fresh(r.value)
                && !r.value.closed && r.value.bound && r.value.sequence == 0
                && r.value.localPeerID == localPeerID && r.value.msgListener == msgListener.value
                && r.value.outbox == [] && r.value.delivered == []
    {
      if msgListener.None? {
        return Failure(IllegalArgument(NULL_LISTENER_MESSAGE));
      }
      var c := new Multicast(localPeerID, msgListener.value);
      r := Success(c);
    }

    /** The constructor for a non-null listener (`Open` covers the null one). */
    constructor(localPeerID: PeerId, msgListener: Listener)
      ensures !closed && bound && timeout == DEFAULT_TIMEOUT && sequence == 0 && threshold == 0
      ensures ackSet == {} && ackList == {}
      ensures this.localPeerID == localPeerID && this.msgListener == msgListener
      ensures outbox == [] && delivered == []
    {
      closed := false;
      timeout := DEFAULT_TIMEOUT;
      sequence := 0;
      threshold := 0;
      ackSet := {};
      ackList := {};
      outbox := [];
      delivered := [];
      this.localPeerID := localPeerID;
      this.msgListener := msgListener;
      bound := true;
    }

    /** `joinGroup`: a null listener is refused; otherwise the channel takes the peer id and listener and is bound. */
    method JoinGroup(localPeerID: PeerId, msgListener: Option<Listener>) returns (r: Outcome<Error>)
      modifies this`localPeerID, this`msgListener, this`bound
      ensures msgListener.None? ==> r == Fail(IllegalArgument(NULL_LISTENER_MESSAGE)) && unchanged(this)
      ensures msgListener.Some? ==> r.Pass? && bound && this.localPeerID == localPeerID && this.msgListener == msgListener.value
    {
      if msgListener.None? {
        return Fail(IllegalArgument(NULL_LISTENER_MESSAGE));
      }
      this.localPeerID := localPeerID;
      this.msgListener := msgListener.value;
      bound := true;
      r := Pass;
    }

    /** `close`: the first call unbinds and closes the channel; later calls do nothing. */
    method Close()
      modifies this`closed, this`bound
      ensures old(closed) ==> unchanged(this)
      ensures !old(closed) ==> closed && !bound
    {
      if closed {
        return;
      }
      bound := false;
      closed := true;
    }

    /** `setSoTimeout`: only an open, bound channel takes the new timeout, padded by 250 ms. */
    method SetSoTimeout(t: int) returns (r: Outcome<Error>)
      modifies this`timeout
      ensures r == CheckState(closed, bound)
      ensures r.Pass? ==> timeout == t + PADDING
      ensures r.Fail? ==> timeout == old(timeout)
    {
      r := CheckState(closed, bound);
      if r.Fail? {
        return;
      }
      timeout := t + PADDING;
    }

    /** `processAck`: counts a peer at most once and wakes the sender when the count reaches the threshold. */
    method ProcessAck(id: PeerRef) returns (wakes: bool)
      modifies this`ackSet
      ensures ackSet == old(ackSet) + {id}
      ensures wakes == AckWakes(old(ackSet), id, threshold)
    {
      wakes := false;
      if id !in ackSet {
        ackSet := ackSet + {id};
        if |ackSet| >= threshold {
          wakes := true;
        }
      }
    }

    /** `send(pid, msg)`: one call into a sender when the channel is usable and the sender exists. */
    method SendTo(pid: PeerRef, msg: Message, net: Transport) returns (r: Result<bool, Error>)
      modifies this`outbox
      ensures r == Transmit(closed, bound, pid, net)
      ensures outbox == old(outbox) + if r.Success? then [TransmissionTo(pid, msg)] else []
    {
      var st := CheckState(closed, bound);
      if st.Fail? {
        return Failure(st.error);
      }
      if pid.Some? {
        if net.unicast.None? {
          return Failure(IOError(NO_SENDER_MESSAGE));
        }
        outbox := outbox + [Unicast(pid.value, msg)];
        r := Success(pid.value in net.unicast.value);
      } else {
        if net.multicast.None? {
          return Failure(IOError(NO_MULTICAST_SENDER_MESSAGE));
        }
        outbox := outbox + [Broadcast(msg)];
        r := Success(net.multicast.value);
      }
    }

    /** `ackMessage`: send the acknowledgement back to the data message's source; an I/O error is swallowed. */
    method AckMessage(id: PeerRef, number: int, net: Transport)
      modifies this`outbox
      ensures outbox == old(outbox)
                        + if Transmit(closed, bound, id, net).Success? then [TransmissionTo(id, AckMessageOf(localPeerID, number))] else []
    {
      var msg := AckMessageOf(localPeerID, number);
      var _ := SendTo(id, msg, net);
    }

    /**
     * `receiveMessageEvent`: an ack is counted; a data message is
     * acknowledged to its source and handed to the listener (whose
     * exceptions are swallowed); anything else changes nothing.
     */
    method ReceiveMessageEvent(message: Option<Message>, net: Transport)
      modifies this`ackSet, this`outbox, this`delivered
      ensures Classify(message, localPeerID).Dropped? ==> unchanged(this)
      ensures Classify(message, localPeerID).AckFrom? ==>
                ackSet == old(ackSet) + {Classify(message, localPeerID).src}
                && outbox == old(outbox) && delivered == old(delivered)
      ensures Classify(message, localPeerID).DataFrom? ==>
                var src := Classify(message, localPeerID).src;
                var ack := AckMessageOf(localPeerID, Classify(message, localPeerID).number);
                ackSet == old(ackSet)
                && outbox == old(outbox) + (if Transmit(closed, bound, src, net).Success? then [TransmissionTo(src, ack)] else [])
                && delivered == old(delivered) + [message.value]
    {
      if message.None? {
        return;
      }
      var m := message.value;
      var id := GetSource(m);
      if id == Some(localPeerID) {
        return;
      }
      if ACKTAG in m && m[ACKTAG].LongElem? {
        var _ := ProcessAck(id);
      } else if SEQTAG in m && m[SEQTAG].LongElem? {
        AckMessage(id, m[SEQTAG].n, net);
        delivered := delivered + [m];
      }
    }

    /**
     * `send(msg, threshold)`: a negative threshold is refused. Otherwise the
     * message is stamped with the next sequence number, which is consumed
     * even when the multicast then fails. With a positive threshold the
     * sender waits; afterwards `ackList` is the snapshot of the acks and
     * `ackSet` is empty, and the send times out exactly when fewer than
     * `threshold` peers acknowledged, whether or not the wait was
     * interrupted.
     */
    method Send(msg: Message, threshold: int, net: Transport, arrived: set<PeerRef>, interrupted: bool) returns (r: Outcome<Error>)
      modifies this`threshold, this`sequence, this`ackSet, this`ackList, this`outbox
      ensures threshold < 0 ==> r.Fail? && r.error.IllegalArgument? && unchanged(this)
      ensures threshold >= 0 ==>
                var sent := Transmit(closed, bound, None, net);
                this.threshold == threshold
                && sequence == old(sequence) + 1
                && outbox == old(outbox) + (if sent.Success? then [Broadcast(Stamped(msg, localPeerID, old(sequence)))] else [])
                && (sent.Failure? ==> r == Fail(sent.error) && ackSet == old(ackSet) && ackList == {})
                && (sent.Success? && threshold == 0 ==> r == Pass && ackSet == old(ackSet) && ackList == {})
                && (sent.Success? && threshold > 0 && timeout < 0 ==>
                      r == Fail(IllegalArgument(NEGATIVE_WAIT_MESSAGE)) && ackSet == old(ackSet) + arrived && ackList == {})
                && (sent.Success? && threshold > 0 && timeout >= 0 ==>
                      ackSet == {} && ackList == old(ackSet) + arrived
                      && (r.Fail? <==> |ackList| < threshold)
                      && (r.Fail? ==> r.error == SocketTimeout(threshold)))
    {
      if threshold < 0 {
        return Fail(IllegalArgument("Invalid threshold must be >= 0"));
      }
      this.threshold := threshold;
      var number := sequence;
      sequence := sequence + 1;
      var stamped := Stamped(msg, localPeerID, number);
      ackList := {};
      var sent := SendTo(None, stamped, net);
      if sent.Failure? {
        return Fail(sent.error);
      }
      if threshold == 0 {
        return Pass;
      }
      r := AwaitAcks(arrived, interrupted);
    }

    /**
     * The wait of `send(msg, threshold)` for a positive threshold, entered
     * with `ackList` empty: the acks counted meanwhile join `ackSet`, then
     * the snapshot is taken whichever way the wait ended.
     */
    method AwaitAcks(arrived: set<PeerRef>, interrupted: bool) returns (r: Outcome<Error>)
      requires ackList == {}
      modifies this`ackSet, this`ackList
      ensures timeout < 0 ==> r == Fail(IllegalArgument(NEGATIVE_WAIT_MESSAGE)) && ackSet == old(ackSet) + arrived && ackList == {}
      ensures timeout >= 0 ==>
                ackSet == {} && ackList == old(ackSet) + arrived
                && (r.Fail? <==> |ackList| < threshold)
                && (r.Fail? ==> r.error == SocketTimeout(threshold))
    {
      // the wait: acks counted meanwhile, then a wake-up
      ackSet := ackSet + arrived;
      if timeout < 0 {
        return Fail(IllegalArgument(NEGATIVE_WAIT_MESSAGE));
      }
      if !interrupted && |ackSet| >= threshold {
        ackList := ackSet;
        ackSet := {};
        return Pass;
      }
      ackList := ackSet;
      ackSet := {};
      if |ackList| < threshold {
        return Fail(SocketTimeout(threshold));
      }
      r := Pass;
    }

    /**
     * `send(ids, msg)`: unicasts the message to every peer in `ids` (in
     * the order `order`), waiting for all of them to acknowledge. Both ack
     * sets start empty and the threshold is the number of peers. An empty
     * set succeeds at once; a refused unicast makes the result false after
     * every peer was tried. After the wait no ack is lost: a timeout
     * leaves them in `ackList`; a full count is snapshot into `ackList`,
     * or, when the wait was interrupted, stays in `ackSet`.
     */
    method SendToSet(ids: set<PeerId>, msg: Message, net: Transport, arrived: set<PeerRef>, interrupted: bool)
      returns (r: Result<bool, Error>, ghost order: seq<PeerId>)
      modifies this`threshold, this`ackSet, this`ackList, this`outbox
      ensures CheckState(closed, bound).Fail? ==> r == Failure(CheckState(closed, bound).error) && unchanged(this)
      ensures CheckState(closed, bound).Pass? ==>
                this.threshold == |ids|
                && (ids == {} ==> r == Success(true) && ackSet == {} && ackList == {} && outbox == old(outbox))
                && (ids != {} && net.unicast.None? ==>
                      r == Failure(IOError(NO_SENDER_MESSAGE)) && ackSet == {} && ackList == {} && outbox == old(outbox))
      ensures CheckState(closed, bound).Pass? && ids != {} && net.unicast.Some? ==>
                (forall p :: p in order <==> p in ids)
                && (forall j, k :: 0 <= j < k < |order| ==> order[j] != order[k])
                && outbox == old(outbox) + Unicasts(order, msg)
                && (!(ids <= net.unicast.value) ==> r == Success(false) && ackSet == {} && ackList == {})
                && (ids <= net.unicast.value && timeout < 0 ==>
                      r == Failure(IllegalArgument(NEGATIVE_WAIT_MESSAGE)) && ackSet == arrived && ackList == {})
                && (ids <= net.unicast.value && timeout >= 0 ==>
                      ackSet + ackList == arrived
                      && (r.Failure? <==> |arrived| < |ids|)
                      && (r.Failure? ==> r.error == SocketTimeout(|ids|) && ackSet == {})
                      && (r.Success? ==> r.value && if interrupted then ackList == {} else ackSet == {}))
    {
      order := [];
      var st := CheckState(closed, bound);
      if st.Fail? {
        return Failure(st.error), order;
      }
      var sent := true;
      threshold := |ids|;
      ackList := {};
      ackSet := {};
      if ids == {} {
        return Success(sent), order;
      }
      if net.unicast.None? {
        return Failure(IOError(NO_SENDER_MESSAGE)), order;
      }
      sent, order := UnicastAll(ids, msg, net.unicast.value);
      if !sent {
        return Success(sent), order;
      }
      r := AwaitAll(arrived, interrupted);
    }

    /** The unicast loop of `send(ids, msg)`: every peer is sent the message, and the result says whether all accepted it. */
    method UnicastAll(ids: set<PeerId>, msg: Message, reachable: set<PeerId>) returns (sent: bool, ghost order: seq<PeerId>)
      modifies this`outbox
      ensures forall p :: p in order <==> p in ids
      ensures forall j, k :: 0 <= j < k < |order| ==> order[j] != order[k]
      ensures outbox == old(outbox) + Unicasts(order, msg)
      ensures sent <==> ids <= reachable
    {
      var peers := Enumerate(ids);
      order := peers;
      sent := true;
      var i := 0;
      while i < |peers|
        invariant 0 <= i <= |peers|
        invariant outbox == old(outbox) + Unicasts(peers[..i], msg)
        invariant sent <==> forall k :: 0 <= k < i ==> peers[k] in reachable
      {
        assert peers[..i + 1] == peers[..i] + [peers[i]];
        UnicastsSnoc(peers[..i], peers[i], msg);
        outbox := outbox + [Unicast(peers[i], msg)];
        if peers[i] !in reachable {
          sent := false;
        }
        i := i + 1;
      }
      assert peers[..|peers|] == peers;
    }

    /** The wait of `send(ids, msg)`, entered with both ack sets empty and every unicast accepted. */
    method AwaitAll(arrived: set<PeerRef>, interrupted: bool) returns (r: Result<bool, Error>)
      requires ackSet == {} && ackList == {}
      modifies this`ackSet, this`ackList
      ensures timeout < 0 ==> r == Failure(IllegalArgument(NEGATIVE_WAIT_MESSAGE)) && ackSet == arrived && ackList == {}
      ensures timeout >= 0 ==>
                ackSet + ackList == arrived
                && (r.Failure? <==> |arrived| < threshold)
                && (r.Failure? ==> r.error == SocketTimeout(threshold) && ackSet == {})
                && (r.Success? ==> r.value && if interrupted then ackList == {} else ackSet == {})
    {
      // the wait: acks counted meanwhile, then a wake-up
      ackSet := ackSet + arrived;
      if timeout < 0 {
        return Failure(IllegalArgument(NEGATIVE_WAIT_MESSAGE));
      }
      if !interrupted && |ackSet| >= threshold {
        ackList := ackSet;
        ackSet := {};
        return Success(true);
      }
      if |ackSet| < threshold {
        ackList := ackSet;
        ackSet := {};
        return Failure(SocketTimeout(threshold));
      }
      r := Success(true);
    }
  }

  /** The iteration order of a Java set: its elements, each once, in an order the model leaves open. */
  method Enumerate(ids: set<PeerId>) returns (peers: seq<PeerId>)
    ensures forall p :: p in peers <==> p in ids
    ensures forall j, k :: 0 <= j < k < |peers| ==> peers[j] != peers[k]
  {
    peers := [];
    var remaining := ids;
    while remaining != {}
      invariant forall p :: p in peers <==> p in ids - remaining
      invariant forall j, k :: 0 <= j < k < |peers| ==> peers[j] != peers[k]
      invariant remaining <= ids
      decreases remaining
    {
      var p :| p in remaining;
      assert p !in peers;
      peers := peers + [p];
      remaining := remaining - {p};
    }
  }

  lemma UnicastsSnoc(peers: seq<PeerId>, p: PeerId, msg: Message)
    ensures Unicasts(peers + [p], msg) == Unicasts(peers, msg) + [Unicast(p, msg)]
  {
    assert (peers + [p])[..|peers|] == peers;
  }
}
