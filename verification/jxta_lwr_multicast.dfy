/**
 * The JXTA lightweight reliable multicast channel: the same ack-threshold
 * protocol as the transport-neutral channel, over a propagate pipe for
 * multicast and per-peer output pipes for unicast. Message elements are
 * text in the channel's namespace; sequence numbers travel as decimal
 * text. The first messages a peer sends also carry its route
 * advertisement, so receivers learn how to reach it.
 *
 * Pipe creation is recorded, not performed: `pipeCache` maps each peer to
 * the kind of pipe created for it, and pipe sends are appended to
 * `outbox`. Routes received are appended to `routesLearned`. The wait for
 * acks is one step, as in the transport-neutral channel: `arrived` holds
 * the peers whose acks were counted while the sender waited.
 */
module JxtaLwrMulticast {
  import opened Wrappers
  import opened JavaStrings
  import opened JavaInts
  import opened LwrCommon

  /** A message: its text elements in the channel's namespace, by tag. */
  type Message = map<string, string>

  const ROUTEADV: string := "ROUTE"

  /** `PipeService.PropagateType`, the type name of a propagate pipe in JXTA. */
  const PROPAGATE_TYPE: string := "JxtaPropagate"

  /** A pipe advertisement: its type and pipe id, either of which may be null. */
  datatype PipeAdv = PipeAdv(pipeType: Option<string>, pipeID: Option<string>)

  /** An output pipe to one peer: over the peer's cached route, or a plain unicast pipe. */
  datatype Pipe = WirePipe(to: PeerId) | DatagramPipe(to: PeerId)

  /** One message leaving the channel. */
  datatype Transmission =
    | OnPipe(pipe: Pipe, message: Message)
    | Propagated(message: Message)
    | ToPeers(ids: set<PeerId>, message: Message)

  const UNSUPPORTED_PIPE_MESSAGE: string := "Only propagate pipe advertisements are supported"
  const INVALID_PIPE_MESSAGE: string := "Invalid pipe advertisement"

  /**
   * `joinGroup`'s checks, in order: a pipe type other than propagate, then a
   * missing pipe id, then a null listener.
   */
  function JoinCheck(pipeAd: PipeAdv, msgListener: Option<Listener>): (r: Outcome<Error>)
    ensures r.Pass? <==> (pipeAd.pipeType.None? || pipeAd.pipeType == Some(PROPAGATE_TYPE)) && pipeAd.pipeID.Some? && msgListener.Some?
    ensures pipeAd.pipeType.Some? && pipeAd.pipeType != Some(PROPAGATE_TYPE) ==> r == Fail(IOError(UNSUPPORTED_PIPE_MESSAGE))
    ensures r.Fail? && msgListener.Some? ==> r.error.IOError?
  {
    if pipeAd.pipeType.Some? && pipeAd.pipeType.value != PROPAGATE_TYPE then Fail(IOError(UNSUPPORTED_PIPE_MESSAGE))
    else if pipeAd.pipeID.None? then Fail(IOError(INVALID_PIPE_MESSAGE))
    else if msgListener.None? then Fail(IllegalArgument(NULL_LISTENER_MESSAGE))
    else Pass
  }

  // ---------------------------------------------------------------------
  // The route advertisement on outgoing messages

  /**
   * The test as written: the counter is narrowed with `intValue()`, so it
   * passes again once the counter reaches 2^31.
   */
  predicate RouteAttachedAsWritten(routeAdv: Option<string>, routeControl: bool, sequence: nat)
  {
    routeAdv.Some? && routeControl && ToInt32(sequence) < 2
  }

  /** The intended test: the route rides on the first two messages only. */
  predicate RouteAttached(routeAdv: Option<string>, routeControl: bool, sequence: nat)
  {
    routeAdv.Some? && routeControl && sequence < 2
  }

  /**
   * The counters the test as written lets through: within each block of
   * 2^32 values, the first two and the whole upper half.
   */
  lemma RouteAttachedAsWrittenRange(routeAdv: Option<string>, routeControl: bool, sequence: nat)
    ensures RouteAttachedAsWritten(routeAdv, routeControl, sequence) <==>
              routeAdv.Some? && routeControl && (sequence % TWO_32 < 2 || sequence % TWO_32 >= TWO_31)
  {
    ToInt32Range(sequence);
    var k := sequence % TWO_32;
    assert sequence == (sequence / TWO_32) * TWO_32 + k;
    if k < TWO_31 {
      assert (sequence + TWO_31) % TWO_32 == k + TWO_31;
    } else {
      assert (sequence + TWO_31) % TWO_32 == k - TWO_31;
    }
  }

  /** The two tests agree while the counter is below 2^31. */
  lemma RouteTestsAgree(routeAdv: Option<string>, routeControl: bool, sequence: nat)
    requires sequence < TWO_31
    ensures RouteAttachedAsWritten(routeAdv, routeControl, sequence) == RouteAttached(routeAdv, routeControl, sequence)
  {
    ToInt32Range(sequence);
  }

  /** `msg` with the route element added when the test as written passes for `sequence`. */
  function WithRoute(msg: Message, routeAdv: Option<string>, routeControl: bool, sequence: nat): Message
  {
    if RouteAttachedAsWritten(routeAdv, routeControl, sequence) then msg[ROUTEADV := routeAdv.value] else msg
  }

  /**
   * A data message as `send(msg, threshold)` builds it: the route (tested
   * before the counter moves), the source id, the sequence number as
   * decimal text, and the route again (tested inside `send(null, msg)`,
   * after the counter moved).
   */
  function Stamped(msg: Message, routeAdv: Option<string>, routeControl: bool, src: PeerId, number: nat): Message
  {
    WithRoute(WithRoute(msg, routeAdv, routeControl, number)[SRCIDTAG := src][SEQTAG := Decimal(number)],
              routeAdv, routeControl, number + 1)
  }

  /** The data message as intended: the route is tested on the long counter. */
  function StampedIntended(msg: Message, routeAdv: Option<string>, routeControl: bool, src: PeerId, number: nat): Message
  {
    var m := if RouteAttached(routeAdv, routeControl, number) || RouteAttached(routeAdv, routeControl, number + 1)
             then msg[ROUTEADV := routeAdv.value] else msg;
    m[SRCIDTAG := src][SEQTAG := Decimal(number)]
  }

  /** `getSource`: the peer named by the SRCID element, or null. */
  function GetSource(msg: Message): PeerRef
  {
    if SRCIDTAG in msg then Some(msg[SRCIDTAG]) else None
  }

  /**
   * `getSequenceID`: the SEQ element parsed as a long, or -1 without one;
   * a SEQ element that is not a long makes a `NumberFormatException`.
   */
  function GetSequenceID(msg: Message): (r: Result<int, Error>)
    ensures SEQTAG !in msg ==> r == Success(-1)
    ensures r.Failure? <==> SEQTAG in msg && ParseLong(msg[SEQTAG]).None?
    ensures r.Failure? ==> r.error == NumberFormat(msg[SEQTAG])
    ensures r.Success? && SEQTAG in msg ==> ParseLong(msg[SEQTAG]) == Some(r.value)
  {
    if SEQTAG in msg then
      var v := ParseLong(msg[SEQTAG]);
      if v.Some? then Success(v.value) else Failure(NumberFormat(msg[SEQTAG]))
    else Success(-1)
  }

  /**
   * A stamped message carries its sender and its sequence number, which
   * reads back as the number itself, and carries the route exactly when
   * the application put one there or the test as written passed before or
   * after the counter moved.
   */
  lemma StampedReadBack(msg: Message, routeAdv: Option<string>, routeControl: bool, src: PeerId, number: nat)
    requires number <= LONG_MAX
    ensures GetSource(Stamped(msg, routeAdv, routeControl, src, number)) == Some(src)
    ensures GetSequenceID(Stamped(msg, routeAdv, routeControl, src, number)) == Success(number)
    ensures ROUTEADV in Stamped(msg, routeAdv, routeControl, src, number) <==>
              ROUTEADV in msg || RouteAttachedAsWritten(routeAdv, routeControl, number)
              || RouteAttachedAsWritten(routeAdv, routeControl, number + 1)
  {
    var m := Stamped(msg, routeAdv, routeControl, src, number);
    assert m[SRCIDTAG] == src && m[SEQTAG] == Decimal(number);
    ParseDecimal(number);
  }

  /**
   * The intended message reads back the same way, and carries the route
   * exactly when the application put one there or it is message 0 or 1.
   */
  lemma StampedIntendedReadBack(msg: Message, routeAdv: Option<string>, routeControl: bool, src: PeerId, number: nat)
    requires number <= LONG_MAX
    ensures GetSource(StampedIntended(msg, routeAdv, routeControl, src, number)) == Some(src)
    ensures GetSequenceID(StampedIntended(msg, routeAdv, routeControl, src, number)) == Success(number)
    ensures ROUTEADV in StampedIntended(msg, routeAdv, routeControl, src, number) <==>
              ROUTEADV in msg || (routeAdv.Some? && routeControl && (number == 0 || number == 1))
  {
    var m := StampedIntended(msg, routeAdv, routeControl, src, number);
    assert m[SRCIDTAG] == src && m[SEQTAG] == Decimal(number);
    ParseDecimal(number);
  }

  /** Until the counter nears 2^31 the channel sends exactly the intended message. */
  lemma StampedAgreeBeforeWrap(msg: Message, routeAdv: Option<string>, routeControl: bool, src: PeerId, number: nat)
    requires number + 1 < TWO_31
    ensures Stamped(msg, routeAdv, routeControl, src, number) == StampedIntended(msg, routeAdv, routeControl, src, number)
  {
    RouteTestsAgree(routeAdv, routeControl, number);
    RouteTestsAgree(routeAdv, routeControl, number + 1);
  }

  /**
   * With the narrowing, message 2^31 - 1 carries the route again (the test
   * after the counter moved reads -2^31), and so does message 2^32 + 1,
   * where the intended message carries none.
   */
  lemma RouteReattachedAfterWrap(msg: Message, route: string, src: PeerId)
    requires ROUTEADV !in msg
    ensures ROUTEADV in Stamped(msg, Some(route), true, src, TWO_31 - 1)
    ensures ROUTEADV !in StampedIntended(msg, Some(route), true, src, TWO_31 - 1)
    ensures ROUTEADV in Stamped(msg, Some(route), true, src, TWO_32 + 1)
    ensures ROUTEADV !in StampedIntended(msg, Some(route), true, src, TWO_32 + 1)
  {
    assert ToInt32(TWO_31) == -TWO_31;
    assert ToInt32(TWO_32 + 1) == 1;
    assert ROUTEADV != SRCIDTAG && ROUTEADV != SEQTAG;
  }

  /** The acknowledgement `ackMessage` builds, before the route is considered. */
  function AckMessageOf(src: PeerId, number: string): Message
  {
    map[SRCIDTAG := src, ACKTAG := number]
  }

  /** How `pipeMsgEvent` reads an inbound message. */
  datatype Inbound = Dropped | AckFrom(src: PeerRef) | DataFrom(src: PeerRef, number: string) | NoData

  /**
   * A null message and the local peer's own message are dropped; an ACK
   * element makes an ack; otherwise a SEQ element makes a data message;
   * a message with neither is only searched for a route.
   */
  function Classify(message: Option<Message>, local: PeerId): (r: Inbound)
    ensures !r.Dropped? ==> message.Some? && GetSource(message.value) != Some(local)
    ensures r.AckFrom? || r.DataFrom? ==> r.src == GetSource(message.value)
    ensures r.DataFrom? ==> SEQTAG in message.value && r.number == message.value[SEQTAG]
  {
    if message.None? then Dropped
    else
      var m := message.value;
      var src := GetSource(m);
      if src == Some(local) then Dropped
      else if ACKTAG in m then AckFrom(src)
      else if SEQTAG in m then DataFrom(src, m[SEQTAG])
      else NoData
  }

  /** Every other peer reads a stamped message as data from its sender; the sender drops its own copy. */
  lemma DataRoundTrip(msg: Message, routeAdv: Option<string>, routeControl: bool, src: PeerId, number: nat, receiver: PeerId)
    requires ACKTAG !in msg
    ensures receiver != src ==>
              Classify(Some(Stamped(msg, routeAdv, routeControl, src, number)), receiver) == DataFrom(Some(src), Decimal(number))
    ensures Classify(Some(Stamped(msg, routeAdv, routeControl, src, number)), src) == Dropped
  {
    var m := Stamped(msg, routeAdv, routeControl, src, number);
    assert m[SRCIDTAG] == src && m[SEQTAG] == Decimal(number);
    assert ACKTAG != ROUTEADV && ACKTAG != SRCIDTAG && ACKTAG != SEQTAG;
    assert ACKTAG !in m;
  }

  /** The data message's receiver reads the acknowledgement it sends back as an ack from itself. */
  lemma AckRoundTrip(src: PeerId, number: string, routeAdv: Option<string>, routeControl: bool, sequence: nat, receiver: PeerId)
    ensures receiver != src ==>
              Classify(Some(WithRoute(AckMessageOf(src, number), routeAdv, routeControl, sequence)), receiver) == AckFrom(Some(src))
    ensures Classify(Some(WithRoute(AckMessageOf(src, number), routeAdv, routeControl, sequence)), src) == Dropped
  {
    var m := WithRoute(AckMessageOf(src, number), routeAdv, routeControl, sequence);
    assert m[SRCIDTAG] == src;
    assert ACKTAG in m;
  }

  /** The pipe `send(pid, msg)` creates for a peer it has no pipe for yet. */
  function NewPipe(pid: PeerId, knownRoutes: set<PeerId>): (p: Pipe)
    ensures p.to == pid
  {
    if pid in knownRoutes then WirePipe(pid) else DatagramPipe(pid)
  }

  /**
   * The pipe cache after `send(pid, msg)`: a peer addressed for the first
   * time gets a new pipe; cached pipes are kept as they are.
   */
  function PipesAfter(cache: map<PeerId, Pipe>, pid: PeerRef, knownRoutes: set<PeerId>): (r: map<PeerId, Pipe>)
    ensures forall p :: p in cache ==> p in r && r[p] == cache[p]
    ensures pid.Some? ==> pid.value in r && (pid.value !in cache ==> r[pid.value] == NewPipe(pid.value, knownRoutes))
    ensures r.Keys == cache.Keys + (if pid.Some? then {pid.value} else {})
  {
    if pid.None? || pid.value in cache then cache else cache[pid.value := NewPipe(pid.value, knownRoutes)]
  }

  /** How `send(pid, msg)` transmits: on the propagate pipe for null, else on the peer's cached pipe. */
  function TransmissionFor(pid: PeerRef, cache: map<PeerId, Pipe>, m: Message): (t: Transmission)
    requires pid.Some? ==> pid.value in cache
    ensures t.message == m
    ensures t.Propagated? <==> pid.None?
    ensures t.OnPipe? ==> t.pipe == cache[pid.value]
  {
    if pid.None? then Propagated(m) else OnPipe(cache[pid.value], m)
  }

  class JxtaMulticast {
    var closed: bool
    var bound: bool
    var timeout: int
    var sequence: nat
    var threshold: int
    var ackSet: set<PeerRef>
    var ackList: set<PeerRef>
    /** The output pipe created for each peer, reused for every later unicast to it. */
    var pipeCache: map<PeerId, Pipe>
    /** Whether the endpoint router's route control was obtained. */
    var routeControl: bool
    /** The local route advertisement, when the router had one. */
    var routeAdv: Option<string>
    var localPeerID: PeerId
    var msgListener: Listener
    var pipeAdv: PipeAdv
    /** Whether the input pipe and the propagate output pipe are open. */
    var inputOpen: bool
    var outputOpen: bool
    var outbox: seq<Transmission>
    var delivered: seq<Message>
    /** Routes taken from inbound messages and handed to the route control. */
    var routesLearned: seq<string>

    /** Every cached pipe leads to the peer it is cached under, and a route element needs the route control. */
    ghost predicate Valid()
      reads this
    {
      (forall p :: p in pipeCache ==> pipeCache[p].to == p)
      && (routeAdv.Some? ==> routeControl)
    }

    /**
     * The constructor for arguments `joinGroup` accepts (`Open` covers the
     * arguments it refuses). `router`
     * is the endpoint router: `None` when there is none, else the local
     * route it reports.
     */
    constructor(localPeerID: PeerId, pipeAd: PipeAdv, msgListener: Listener, router: Option<Option<string>>)
      requires JoinCheck(pipeAd, Some(msgListener)).Pass?
      ensures Valid()
      ensures !closed && bound && inputOpen && outputOpen
      ensures timeout == DEFAULT_TIMEOUT && sequence == 0 && threshold == 0
      ensures ackSet == {} && ackList == {} && pipeCache == map[]
      ensures routeControl == router.Some? && routeAdv == (if router.Some? then router.value else None)
      ensures this.localPeerID == localPeerID && this.msgListener == msgListener && pipeAdv == pipeAd
      ensures outbox == [] && delivered == [] && routesLearned == []
    {
      closed := false;
      timeout := DEFAULT_TIMEOUT;
      sequence := 0;
      threshold := 0;
      ackSet := {};
      ackList := {};
      pipeCache := map[];
      outbox := [];
      delivered := [];
      routesLearned := [];
      this.localPeerID := localPeerID;
      routeControl := router.Some?;
      routeAdv := if router.Some? then router.value else None;
      this.msgListener := msgListener;
      pipeAdv := pipeAd;
      inputOpen := true;
      outputOpen := true;
      bound := true;
    }

    /**
     * `new LWRMulticast(manager, pipeAd, msgListener)`: a channel exists only
     * when `joinGroup`'s checks pass; otherwise the exception they throw
     * escapes the constructor.
     */
    static method Open(localPeerID: PeerId, pipeAd: PipeAdv, msgListener: Option<Listener>, router: Option<Option<string>>)
      returns (r: Result<JxtaMulticast, Error>)
      ensures r.Failure? <==> JoinCheck(pipeAd, msgListener).Fail?
      ensures r.Failure? ==> r.error == JoinCheck(pipeAd, msgListener).error
      ensures r.Success? ==>
                fresh(r.value) && r.value.Valid()
                && !r.value.closed && r.value.bound && r.value.sequence == 0
                && r.value.localPeerID == localPeerID && r.value.msgListener == msgListener.value
                && r.value.pipeAdv == pipeAd && r.value.routeControl == router.Some?
                && r.value.outbox == [] && r.value.delivered == []
    {
      var check := JoinCheck(pipeAd, msgListener);
      if check.Fail? {
        return Failure(check.error);
      }
      var c := new JxtaMulticast(localPeerID, pipeAd, msgListener.value, router);
      r := Success(c);
    }

    /**
     * `joinGroup`: the checks of `JoinCheck`; when they pass the channel
     * takes the peer id, listener and advertisement, opens its pipes and is
     * bound. Without a router the route fields keep their values, and a
     * router without a local route keeps the old route element.
     */
    method JoinGroup(localPeerID: PeerId, pipeAd: PipeAdv, msgListener: Option<Listener>, router: Option<Option<string>>)
      returns (r: Outcome<Error>)
      requires Valid()
      modifies this`localPeerID, this`msgListener, this`pipeAdv, this`routeControl, this`routeAdv,
               this`inputOpen, this`outputOpen, this`bound
      ensures Valid()
      ensures r == JoinCheck(pipeAd, msgListener)
      ensures r.Fail? ==> unchanged(this)
      ensures r.Pass? ==>
                bound && inputOpen && outputOpen
                && this.localPeerID == localPeerID && this.msgListener == msgListener.value && pipeAdv == pipeAd
                && routeControl == (old(routeControl) || router.Some?)
                && routeAdv == (if router.Some? && router.value.Some? then router.value else old(routeAdv))
    {
      r := JoinCheck(pipeAd, msgListener);
      if r.Fail? {
        return;
      }
      this.localPeerID := localPeerID;
      if router.Some? {
        routeControl := true;
        if router.value.Some? {
          routeAdv := router.value;
        }
      }
      this.msgListener := msgListener.value;
      pipeAdv := pipeAd;
      inputOpen := true;
      outputOpen := true;
      bound := true;
    }

    /** `close`: the first call unbinds and closes the channel and its pipes; later calls do nothing. */
    method Close()
      modifies this`closed, this`bound, this`inputOpen, this`outputOpen
      ensures old(closed) ==> unchanged(this)
      ensures !old(closed) ==> closed && !bound && !inputOpen && !outputOpen
    {
      if closed {
        return;
      }
      bound := false;
      closed := true;
      inputOpen := false;
      outputOpen := false;
    }

    /** `setSoTimeout`: only an open, bound channel takes the new timeout, padded by 250 ms. */
    method SetSoTimeout(t: int) returns (r: Outcome<Error>)
      modifies this`timeout
      ensures r == CheckState(closed, bound)
      ensures r.Pass? ==> timeout == t + PADDING
      ensures r.Fail? ==> timeout == old(timeout)
    {
      r := CheckState(closed, bound);
      if r.Fail? {
        return;
      }
      timeout := t + PADDING;
    }

    /** `processAck`: counts a peer at most once and wakes the sender when the count reaches the threshold. */
    method ProcessAck(id: PeerRef) returns (wakes: bool)
      modifies this`ackSet
      ensures ackSet == old(ackSet) + {id}
      ensures wakes == AckWakes(old(ackSet), id, threshold)
    {
      wakes := false;
      if id !in ackSet {
        ackSet := ackSet + {id};
        if |ackSet| >= threshold {
          wakes := true;
        }
      }
    }

    /**
     * `send(pid, msg)`: on an open, bound channel the message (with the
     * route while the counter allows it) goes out on the propagate pipe
     * for null, or on the peer's pipe, created the first time the peer is
     * addressed and reused afterwards.
     */
    method SendTo(pid: PeerRef, msg: Message, knownRoutes: set<PeerId>) returns (r: Outcome<Error>)
      requires Valid()
      modifies this`pipeCache, this`outbox
      ensures Valid()
      ensures r == CheckState(closed, bound)
      ensures r.Fail? ==> unchanged(this)
      ensures forall p :: p in old(pipeCache) ==> p in pipeCache && pipeCache[p] == old(pipeCache)[p]
      ensures r.Pass? ==>
                pipeCache == PipesAfter(old(pipeCache), pid, knownRoutes)
                && outbox == old(outbox) + [TransmissionFor(pid, pipeCache, WithRoute(msg, routeAdv, routeControl, sequence))]
    {
      r := CheckState(closed, bound);
      if r.Fail? {
        return;
      }
      var m := WithRoute(msg, routeAdv, routeControl, sequence);
      if pid.Some? {
        var op: Pipe;
        if pid.value !in pipeCache {
          op := NewPipe(pid.value, knownRoutes);
          pipeCache := pipeCache[pid.value := op];
        } else {
          op := pipeCache[pid.value];
        }
        outbox := outbox + [OnPipe(op, m)];
      } else {
        outbox := outbox + [Propagated(m)];
      }
    }

    /** `ackMessage`: send the acknowledgement back to the data message's source; a refused send is swallowed. */
    method AckMessage(id: PeerRef, number: string, knownRoutes: set<PeerId>)
      requires Valid()
      modifies this`pipeCache, this`outbox
      ensures Valid()
      ensures CheckState(closed, bound).Fail? ==> unchanged(this)
      ensures CheckState(closed, bound).Pass? ==>
                pipeCache == PipesAfter(old(pipeCache), id, knownRoutes)
                && outbox == old(outbox) + [TransmissionFor(id, pipeCache, WithRoute(AckMessageOf(localPeerID, number), routeAdv, routeControl, sequence))]
    {
      var msg := AckMessageOf(localPeerID, number);
      var _ := SendTo(id, msg, knownRoutes);
    }

    /** `processRoute`: a route element is handed to the route control, when there is one. */
    method ProcessRoute(msg: Message)
      modifies this`routesLearned
      ensures routesLearned == old(routesLearned) + if ROUTEADV in msg && routeControl then [msg[ROUTEADV]] else []
    {
      if ROUTEADV in msg && routeControl {
        routesLearned := routesLearned + [msg[ROUTEADV]];
      }
    }

    /**
     * `pipeMsgEvent`: an ack is counted; a data message is acknowledged to
     * its source and handed to the listener (whose exceptions are
     * swallowed); every message not dropped is then searched for a route.
     */
    method PipeMsgEvent(message: Option<Message>, knownRoutes: set<PeerId>)
      requires Valid()
      modifies this`ackSet, this`pipeCache, this`outbox, this`delivered, this`routesLearned
      ensures Valid()
      ensures Classify(message, localPeerID).Dropped? ==> unchanged(this)
      ensures !Classify(message, localPeerID).Dropped? ==>
                var m := message.value;
                routesLearned == old(routesLearned) + (if ROUTEADV in m && routeControl then [m[ROUTEADV]] else [])
      ensures Classify(message, localPeerID).AckFrom? ==>
                ackSet == old(ackSet) + {Classify(message, localPeerID).src}
                && outbox == old(outbox) && delivered == old(delivered) && pipeCache == old(pipeCache)
      ensures Classify(message, localPeerID).DataFrom? ==>
                var src := Classify(message, localPeerID).src;
                ackSet == old(ackSet) && delivered == old(delivered) + [message.value]
                && (CheckState(closed, bound).Pass? ==>
                      pipeCache == PipesAfter(old(pipeCache), src, knownRoutes)
                      && outbox == old(outbox)
                                   + [TransmissionFor(src, pipeCache,
                                        WithRoute(AckMessageOf(localPeerID, Classify(message, localPeerID).number), routeAdv, routeControl, sequence))])
                && (CheckState(closed, bound).Fail? ==> pipeCache == old(pipeCache) && outbox == old(outbox))
      ensures Classify(message, localPeerID).NoData? ==>
                ackSet == old(ackSet) && outbox == old(outbox) && delivered == old(delivered) && pipeCache == old(pipeCache)
    {
      if message.None? {
        return;
      }
      var m := message.value;
      var id := GetSource(m);
      if id == Some(localPeerID) {
        return;
      }
      if ACKTAG in m {
        var _ := ProcessAck(id);
      } else if SEQTAG in m {
        AckMessage(id, m[SEQTAG], knownRoutes);
        delivered := delivered + [m];
      }
      ProcessRoute(m);
    }

    /**
     * `send(msg, threshold)`: a negative threshold is refused. Otherwise the
     * message is stamped with the next sequence number, which is consumed
     * even when the channel then refuses to send. With a positive threshold
     * the sender waits; afterwards `ackList` is the snapshot of the acks
     * and `ackSet` is empty, and the send times out exactly when fewer than
     * `threshold` peers acknowledged, whether or not the wait was
     * interrupted.
     */
    method Send(msg: Message, threshold: int, arrived: set<PeerRef>, interrupted: bool) returns (r: Outcome<Error>)
      requires Valid()
      modifies this`threshold, this`sequence, this`ackSet, this`ackList, this`pipeCache, this`outbox
      ensures Valid()
      ensures pipeCache == old(pipeCache)
      ensures threshold < 0 ==> r.Fail? && r.error.IllegalArgument? && unchanged(this)
      ensures threshold >= 0 ==> this.threshold == threshold && sequence == old(sequence) + 1
      ensures threshold >= 0 && CheckState(closed, bound).Fail? ==>
                r == CheckState(closed, bound) && outbox == old(outbox) && ackSet == old(ackSet) && ackList == {}
      ensures threshold >= 0 && CheckState(closed, bound).Pass? ==>
                outbox == old(outbox) + [Propagated(Stamped(msg, routeAdv, routeControl, localPeerID, old(sequence)))]
      ensures threshold == 0 && CheckState(closed, bound).Pass? ==> r == Pass && ackSet == old(ackSet) && ackList == {}
      ensures threshold > 0 && CheckState(closed, bound).Pass? && timeout < 0 ==>
                r == Fail(IllegalArgument(NEGATIVE_WAIT_MESSAGE)) && ackSet == old(ackSet) + arrived && ackList == {}
      ensures threshold > 0 && CheckState(closed, bound).Pass? && timeout >= 0 ==>
                ackSet == {} && ackList == old(ackSet) + arrived
                && (r.Fail? <==> |ackList| < threshold)
                && (r.Fail? ==> r.error == SocketTimeout(threshold))
    {
      if threshold < 0 {
        return Fail(IllegalArgument("Invalid threshold must be >= 0"));
      }
      r := Publish(msg, threshold);
      if r.Fail? {
        return;
      }
      if threshold == 0 {
        return Pass;
      }
      r := AwaitAcks(arrived, interrupted);
    }

    /**
     * The first half of `send(msg, threshold)`: stamp the message with the
     * route, the source and the next sequence number, clear the ack
     * snapshot, and propagate the message to the group.
     */
    method Publish(msg: Message, threshold: int) returns (r: Outcome<Error>)
      requires Valid()
      modifies this`threshold, this`sequence, this`ackList, this`pipeCache, this`outbox
      ensures Valid()
      ensures r == CheckState(closed, bound)
      ensures this.threshold == threshold && sequence == old(sequence) + 1 && ackList == {}
      ensures pipeCache == old(pipeCache)
      ensures outbox == old(outbox) + if r.Pass? then [Propagated(Stamped(msg, routeAdv, routeControl, localPeerID, old(sequence)))] else []
    {
      var m := WithRoute(msg, routeAdv, routeControl, sequence);
      this.threshold := threshold;
      m := m[SRCIDTAG := localPeerID];
      var number := sequence;
      sequence := sequence + 1;
      m := m[SEQTAG := Decimal(number)];
      ackList := {};
      r := SendTo(None, m, {});
    }

    /**
     * The wait of `send(msg, threshold)` for a positive threshold, entered
     * with `ackList` empty: the acks counted meanwhile join `ackSet`, then
     * the snapshot is taken whichever way the wait ended.
     */
    method AwaitAcks(arrived: set<PeerRef>, interrupted: bool) returns (r: Outcome<Error>)
      requires ackList == {}
      modifies this`ackSet, this`ackList
      ensures timeout < 0 ==> r == Fail(IllegalArgument(NEGATIVE_WAIT_MESSAGE)) && ackSet == old(ackSet) + arrived && ackList == {}
      ensures timeout >= 0 ==>
                ackSet == {} && ackList == old(ackSet) + arrived
                && (r.Fail? <==> |ackList| < threshold)
                && (r.Fail? ==> r.error == SocketTimeout(threshold))
    {
      // the wait: acks counted meanwhile, then a wake-up
      ackSet := ackSet + arrived;
      if timeout < 0 {
        return Fail(IllegalArgument(NEGATIVE_WAIT_MESSAGE));
      }
      if !interrupted && |ackSet| >= threshold {
        ackList := ackSet;
        ackSet := {};
        return Pass;
      }
      ackList := ackSet;
      ackSet := {};
      if |ackList| < threshold {
        return Fail(SocketTimeout(threshold));
      }
      r := Pass;
    }

    /**
     * `send(ids, msg)`: one pipe to all of `ids` carries the message, and
     * the sender waits for all of them. Both ack sets start empty; an empty
     * set returns at once. After the wait no ack is lost: a timeout leaves
     * them in `ackList`; a full count is snapshot into `ackList`, or, when
     * the wait was interrupted, stays in `ackSet`.
     */
    method SendToSet(ids: set<PeerId>, msg: Message, arrived: set<PeerRef>, interrupted: bool) returns (r: Outcome<Error>)
      modifies this`threshold, this`ackSet, this`ackList, this`outbox
      ensures CheckState(closed, bound).Fail? ==> r == CheckState(closed, bound) && unchanged(this)
      ensures CheckState(closed, bound).Pass? ==>
                this.threshold == |ids|
                && (ids == {} ==> r == Pass && ackSet == {} && ackList == {} && outbox == old(outbox))
                && (ids != {} ==> outbox == old(outbox) + [ToPeers(ids, WithRoute(msg, routeAdv, routeControl, sequence))])
                && (ids != {} && timeout < 0 ==>
                      r == Fail(IllegalArgument(NEGATIVE_WAIT_MESSAGE)) && ackSet == arrived && ackList == {})
                && (ids != {} && timeout >= 0 ==>
                      ackSet + ackList == arrived
                      && (r.Fail? <==> |arrived| < |ids|)
                      && (r.Fail? ==> r.error == SocketTimeout(|ids|) && ackSet == {})
                      && (r.Pass? ==> if interrupted then ackList == {} else ackSet == {}))
    {
      r := CheckState(closed, bound);
      if r.Fail? {
        return;
      }
      threshold := |ids|;
      ackList := {};
      ackSet := {};
      var m := WithRoute(msg, routeAdv, routeControl, sequence);
      if ids != {} {
        outbox := outbox + [ToPeers(ids, m)];
        r := AwaitAll(arrived, interrupted);
      }
    }

    /** The wait of `send(ids, msg)`, entered with both ack sets empty. */
    method AwaitAll(arrived: set<PeerRef>, interrupted: bool) returns (r: Outcome<Error>)
      requires ackSet == {} && ackList == {}
      modifies this`ackSet, this`ackList
      ensures timeout < 0 ==> r == Fail(IllegalArgument(NEGATIVE_WAIT_MESSAGE)) && ackSet == arrived && ackList == {}
      ensures timeout >= 0 ==>
                ackSet + ackList == arrived
                && (r.Fail? <==> |arrived| < threshold)
                && (r.Fail? ==> r.error == SocketTimeout(threshold) && ackSet == {})
                && (r.Pass? ==> if interrupted then ackList == {} else ackSet == {})
    {
      // the wait: acks counted meanwhile, then a wake-up
      ackSet := ackSet + arrived;
      if timeout < 0 {
        return Fail(IllegalArgument(NEGATIVE_WAIT_MESSAGE));
      }
      if !interrupted && |ackSet| >= threshold {
        ackList := ackSet;
        ackSet := {};
        return Pass;
      }
      if |ackSet| < threshold {
        ackList := ackSet;
        ackSet := {};
        return Fail(SocketTimeout(threshold));
      }
      r := Pass;
    }
  }
}
