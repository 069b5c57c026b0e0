/**
 * The part of the network manager every transport shares: the list of
 * registered message listeners and the dispatch of an inbound message to
 * them, framed by the transport's before and after hooks. Also the rule
 * that names the network manager class to load when the service loader
 * finds none.
 *
 * Listener and hook calls are appended to `dispatched`; an exception any
 * of them throws is caught and logged, so it leaves no other trace.
 */
module NetworkManager {
  import opened Wrappers

  /** A peer id: the group it belongs to and the instance within it. */
  datatype PeerID = PeerID(groupName: string, instanceName: string)

  /** A message element: a peer id, or anything else. */
  datatype Element = PeerElem(id: PeerID) | OtherElem(text: string)

  /** An inbound message: its type and its elements by tag. */
  datatype Message = Message(messageType: int, elements: map<string, Element>)

  /** A message listener: its identity and the message type it accepts. */
  datatype Listener = Listener(name: string, listenerType: int)

  const SOURCE_PEER_ID_TAG: string := "sourcePeerId"
  const TARGET_PEER_ID_TAG: string := "targetPeerId"

  /** What a listener or hook is handed: the message (possibly null) with its source and target. */
  datatype MessageEvent = MessageEvent(message: Option<Message>, source: Option<PeerID>, target: Option<PeerID>)

  /** One call made while dispatching. */
  datatype Dispatch =
    | BeforeDispatching(event: MessageEvent)
    | Delivered(listener: Listener, event: MessageEvent)
    | AfterDispatching(event: MessageEvent)

  datatype Error = NullPointer

  /** The peer id in element `tag` of a non-null message, or null. */
  function PeerElement(message: Option<Message>, tag: string): Option<PeerID>
  {
    if message.Some? && tag in message.value.elements && message.value.elements[tag].PeerElem? then
      Some(message.value.elements[tag].id)
    else None
  }

  /** The listeners of `listeners` that accept messages of type `t`, in registration order. */
  function Matching(listeners: seq<Listener>, t: int): (r: seq<Listener>)
    ensures |r| <= |listeners|
  {
    if |listeners| == 0 then []
    else
      var last := listeners[|listeners| - 1];
      Matching(listeners[..|listeners| - 1], t) + if last.listenerType == t then [last] else []
  }

  /** Exactly the registered listeners of the message's type receive it. */
  lemma {:induction false} MatchingMembers(listeners: seq<Listener>, t: int)
    ensures forall l :: l in Matching(listeners, t) <==> l in listeners && l.listenerType == t
  {
    if |listeners| > 0 {
      var init := listeners[..|listeners| - 1];
      MatchingMembers(init, t);
      assert listeners == init + [listeners[|listeners| - 1]];
    }
  }

  /** A listener registered after another of the same type is called after it. */
  lemma {:induction false} MatchingKeepsOrder(a: seq<Listener>, b: seq<Listener>, t: int)
    ensures Matching(a + b, t) == Matching(a, t) + Matching(b, t)
    decreases |b|
  {
    if |b| == 0 {
      assert a + b == a;
    } else {
      var init := b[..|b| - 1];
      assert (a + b)[..|a + b| - 1] == a + init;
      MatchingKeepsOrder(a, init, t);
    }
  }

  /** One delivery of `event` to each of `listeners`, in order. */
  function Deliveries(listeners: seq<Listener>, event: MessageEvent): (r: seq<Dispatch>)
    ensures |r| == |listeners|
  {
    if |listeners| == 0 then [] else Deliveries(listeners[..|listeners| - 1], event) + [Delivered(listeners[|listeners| - 1], event)]
  }

  /** The k-th delivery goes to the k-th listener. */
  lemma {:induction false} DeliveriesAt(listeners: seq<Listener>, event: MessageEvent)
    ensures forall k :: 0 <= k < |listeners| ==> Deliveries(listeners, event)[k] == Delivered(listeners[k], event)
  {
    if |listeners| > 0 {
      DeliveriesAt(listeners[..|listeners| - 1], event);
    }
  }

  /** The list after `remove(l)`: its first occurrence is taken out, if there is one. */
  function RemoveFirst(listeners: seq<Listener>, l: Listener): (r: seq<Listener>)
    ensures l !in listeners ==> r == listeners
    ensures l in listeners ==> |r| == |listeners| - 1
    ensures forall x :: x in r ==> x in listeners
  {
    if |listeners| == 0 then []
    else if listeners[0] == l then listeners[1..]
    else [listeners[0]] + RemoveFirst(listeners[1..], l)
  }

  /** Removing a listener that was just added, and was not registered before, restores the list. */
  lemma {:induction false} RemoveUndoesAdd(listeners: seq<Listener>, l: Listener)
    requires l !in listeners
    ensures RemoveFirst(listeners + [l], l) == listeners
  {
    if |listeners| > 0 {
      assert (listeners + [l])[1..] == listeners[1..] + [l];
      RemoveUndoesAdd(listeners[1..], l);
    }
  }

  /** Removal keeps the other listeners in their order. */
  lemma {:induction false} RemoveFirstSplits(listeners: seq<Listener>, l: Listener, i: nat)
    requires i < |listeners| && listeners[i] == l && l !in listeners[..i]
    ensures RemoveFirst(listeners, l) == listeners[..i] + listeners[i + 1..]
  {
    if i == 0 {
      assert listeners[..0] + listeners[1..] == listeners[1..];
    } else {
      var rest := listeners[1..];
      assert listeners[0] == listeners[..i][0];
      assert rest[..i - 1] == listeners[1..i];
      RemoveFirstSplits(rest, l, i - 1);
      assert rest[i..] == listeners[i + 1..];
      assert listeners[..i] == [listeners[0]] + listeners[1..i];
    }
  }

  // ---------------------------------------------------------------------
  // getInstance's fallback class name

  const GRIZZLY_TRANSPORT_BASE_DIR: string := "com.sun.enterprise.mgmt.transport.grizzly."
  const JXTA_NETWORK_MANAGER: string := "com.sun.enterprise.mgmt.transport.jxta.JxtaNetworkManager"

  predicate StartsWith(s: string, prefix: string)
  {
    |prefix| <= |s| && s[..|prefix|] == prefix
  }

  /** The transports that have a Grizzly network manager of their own. */
  predicate IsGrizzly(transport: string)
  {
    StartsWith(transport, "grizzly2") || StartsWith(transport, "grizzly1_9")
  }

  /** The class `getInstance` loads when the service loader found no network manager. */
  function FallbackClassName(transport: string): string
  {
    if StartsWith(transport, "grizzly2") then GRIZZLY_TRANSPORT_BASE_DIR + transport + ".GrizzlyNetworkManager2"
    else if StartsWith(transport, "grizzly1_9") then GRIZZLY_TRANSPORT_BASE_DIR + transport + ".GrizzlyNetworkManager1_9"
    else JXTA_NETWORK_MANAGER
  }

  /**
   * Grizzly transports get a class of the Grizzly package, named after the
   * transport, and any two of them get different classes; every other
   * transport falls back to the JXTA network manager.
   */
  lemma FallbackClassNameDistinct(a: string, b: string)
    ensures IsGrizzly(a) <==> StartsWith(FallbackClassName(a), GRIZZLY_TRANSPORT_BASE_DIR)
    ensures !IsGrizzly(a) ==> FallbackClassName(a) == JXTA_NETWORK_MANAGER
    ensures IsGrizzly(a) && IsGrizzly(b) && FallbackClassName(a) == FallbackClassName(b) ==> a == b
  {
    var base := GRIZZLY_TRANSPORT_BASE_DIR;
    var n := FallbackClassName(a);
    if IsGrizzly(a) {
      assert n[..|base|] == base;
    } else {
      assert JXTA_NETWORK_MANAGER[34] != base[34];
      assert n[34] != base[34];
    }
    if IsGrizzly(a) && IsGrizzly(b) && FallbackClassName(a) == n == FallbackClassName(b) {
      SuffixCancel(a, b);
    }
  }

  /** A Grizzly class name determines its transport: the name ends in "2" or "9" and the transport sits between base and suffix. */
  lemma SuffixCancel(a: string, b: string)
    requires IsGrizzly(a) && IsGrizzly(b) && FallbackClassName(a) == FallbackClassName(b)
    ensures a == b
  {
    var base := GRIZZLY_TRANSPORT_BASE_DIR;
    var s2 := ".GrizzlyNetworkManager2";
    var s19 := ".GrizzlyNetworkManager1_9";
    var n := FallbackClassName(a);
    var sa := if StartsWith(a, "grizzly2") then s2 else s19;
    var sb := if StartsWith(b, "grizzly2") then s2 else s19;
    assert n == base + a + sa;
    assert n == base + b + sb;
    assert n[|n| - 1] == sa[|sa| - 1] == sb[|sb| - 1];
    assert sa == sb;
    assert a == n[|base|..|n| - |sa|];
    assert b == n[|base|..|n| - |sb|];
  }

  class NetworkManager {
    var localPeerID: Option<PeerID>
    /** The registered listeners, in registration order. */
    var messageListeners: seq<Listener>
    /** The hook and listener calls made by `receiveMessage`, oldest first. */
    var dispatched: seq<Dispatch>

    constructor(localPeerID: Option<PeerID>)
      ensures this.localPeerID == localPeerID && messageListeners == [] && dispatched == []
    {
      this.localPeerID := localPeerID;
      messageListeners := [];
      dispatched := [];
    }

    /** `stop`: every listener is dropped. */
    method Stop()
      modifies this`messageListeners
      ensures messageListeners == []
    {
      messageListeners := [];
    }

    /** `addMessageListener`: a listener is appended; null is ignored. */
    method AddMessageListener(listener: Option<Listener>)
      modifies this`messageListeners
      ensures listener.None? ==> messageListeners == old(messageListeners)
      ensures listener.Some? ==> messageListeners == old(messageListeners) + [listener.value]
    {
      if listener.Some? {
        messageListeners := messageListeners + [listener.value];
      }
    }

    /** `removeMessageListener`: the first registration of the listener is removed; null is ignored. */
    method RemoveMessageListener(listener: Option<Listener>)
      modifies this`messageListeners
      ensures listener.None? ==> messageListeners == old(messageListeners)
      ensures listener.Some? ==> messageListeners == RemoveFirst(old(messageListeners), listener.value)
    {
      if listener.Some? {
        messageListeners := RemoveFirst(messageListeners, listener.value);
      }
    }

    /**
     * `receiveMessage`: a message whose source peer is of another group is
     * dropped before any hook runs. Otherwise the before hook, then every
     * listener of the message's type in registration order, then the after
     * hook are called with the same event. A null message reaches no
     * listener: reading its type throws as soon as a listener is
     * registered, after the before hook ran.
     */
    method ReceiveMessage(message: Option<Message>) returns (r: Outcome<Error>)
      modifies this`dispatched
      ensures var src := PeerElement(message, SOURCE_PEER_ID_TAG);
              var event := MessageEvent(message, src, PeerElement(message, TARGET_PEER_ID_TAG));
              && (src.Some? && localPeerID.None? ==> r == Fail(NullPointer) && dispatched == old(dispatched))
              && (src.Some? && localPeerID.Some? && localPeerID.value.groupName != src.value.groupName ==>
                    r.Pass? && dispatched == old(dispatched))
              && ((src.None? || (localPeerID.Some? && localPeerID.value.groupName == src.value.groupName)) ==>
                    (message.None? && messageListeners != [] ==>
                       r == Fail(NullPointer) && dispatched == old(dispatched) + [BeforeDispatching(event)])
                    && (message.Some? || messageListeners == [] ==>
                          r.Pass?
                          && dispatched == old(dispatched) + [BeforeDispatching(event)]
                                           + Deliveries(if message.Some? then Matching(messageListeners, message.value.messageType) else [], event)
                                           + [AfterDispatching(event)]))
    {
      var sourcePeerID := PeerElement(message, SOURCE_PEER_ID_TAG);
      var targetPeerID := PeerElement(message, TARGET_PEER_ID_TAG);
      if sourcePeerID.Some? {
        if localPeerID.None? {
          return Fail(NullPointer);
        }
        if localPeerID.value.groupName != sourcePeerID.value.groupName {
          return Pass;
        }
      }
      var event := MessageEvent(message, sourcePeerID, targetPeerID);
      dispatched := dispatched + [BeforeDispatching(event)];
      if message.None? && messageListeners != [] {
        return Fail(NullPointer);
      }
      if message.Some? {
        DispatchToListeners(message.value, event);
      }
      dispatched := dispatched + [AfterDispatching(event)];
      r := Pass;
    }

    /** The listener loop of `receiveMessage`: each listener of the message's type is called, in order. */
    method DispatchToListeners(message: Message, event: MessageEvent)
      modifies this`dispatched
      ensures dispatched == old(dispatched) + Deliveries(Matching(messageListeners, message.messageType), event)
    {
      var listeners := messageListeners;
      var t := message.messageType;
      var calls: seq<Dispatch> := [];
      var i := 0;
      while i < |listeners|
        invariant 0 <= i <= |listeners|
        invariant calls == Deliveries(Matching(listeners[..i], t), event)
      {
        calls := DispatchStep(listeners, i, t, event, calls);
        i := i + 1;
      }
      assert listeners[..i] == listeners;
      dispatched := dispatched + calls;
    }
  }

  /** One turn of the listener loop: the i-th listener is called when it accepts messages of type `t`. */
  function DispatchStep(listeners: seq<Listener>, i: nat, t: int, event: MessageEvent, calls: seq<Dispatch>): (r: seq<Dispatch>)
    requires i < |listeners|
    requires calls == Deliveries(Matching(listeners[..i], t), event)
    ensures r == Deliveries(Matching(listeners[..i + 1], t), event)
  {
    MatchingStep(listeners, i, t);
    var matched := Matching(listeners[..i], t);
    if listeners[i].listenerType == t then
      DeliveriesSnoc(matched, listeners[i], event);
      calls + [Delivered(listeners[i], event)]
    else
      assert Matching(listeners[..i + 1], t) == matched;
      calls
  }

  lemma MatchingStep(listeners: seq<Listener>, i: nat, t: int)
    requires i < |listeners|
    ensures Matching(listeners[..i + 1], t)
            == Matching(listeners[..i], t) + if listeners[i].listenerType == t then [listeners[i]] else []
  {
    assert listeners[..i + 1][..i] == listeners[..i];
  }

  lemma DeliveriesSnoc(listeners: seq<Listener>, l: Listener, event: MessageEvent)
    ensures Deliveries(listeners + [l], event) == Deliveries(listeners, event) + [Delivered(l, event)]
  {
    assert (listeners + [l])[..|listeners|] == listeners;
  }
}
