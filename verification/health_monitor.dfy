/**
 * The JXTA health monitor: a cache from peer id to the latest health entry
 * heard about that peer, fed by inbound health messages, scanned for peers
 * that stopped sending heartbeats (in-doubt detection), and verified
 * (in-doubt peers that stayed silent are declared dead).
 *
 * The threads, waits and sleeps are gone: `Process`, `ScanInDoubt` and
 * `Verify` are single steps, the clock is the parameter `now`, and the
 * master node's status is an input. Everything the monitor does outside
 * its cache (messages sent, view changes, listener calls, master
 * re-election) is appended to the action log `actions`.
 */
module HealthMonitor {
  import opened Wrappers
  import opened JavaInts

  type PeerId = string

  /** The system advertisement of a peer. */
  datatype Adv = Adv(id: PeerId, name: string)

  /** A health entry: the state reported for peer `id`, when it was recorded, and the peer's advertisement. */
  datatype Entry = Entry(id: PeerId, state: HealthState, timestamp: int, adv: Option<Adv>)

  /** A health message: the sender and the entries it carries. */
  datatype HealthMessage = HealthMessage(srcID: PeerId, entries: seq<Entry>)

  /** What the master node reports; it is not changed within one step. */
  datatype MasterStatus = MasterStatus(isMaster: bool, isMasterAssigned: bool, masterNodeID: PeerId)

  datatype ViewEvent = FAILURE_EVENT | PEER_STOP_EVENT | CLUSTER_STOP_EVENT

  /** The calls `notifyLocalListeners` can make on the cluster view manager. */
  datatype ListenerCall =
    | SetInDoubtPeerState
    | SetPeerNoLongerInDoubtState
    | SetClusterStoppingState
    | SetPeerStoppingState

  /** An effect of the monitor outside its cache. */
  datatype Action =
    | ProbeNode(entry: Entry)                               // masterNode.probeNode
    | ReportMyState(state: HealthState, dest: Option<PeerId>)    // health message about the local peer; None = broadcast
    | ReportOtherPeerState(state: HealthState, adv: Option<Adv>) // broadcast about another peer
    | RemoveFromView(id: PeerId)                            // clusterViewManager.remove
    | NotifyListeners(event: ViewEvent, about: Adv)         // clusterViewManager.notifyListeners
    | ViewChanged(event: ViewEvent, subject: Option<Adv>)   // masterNode.viewChanged
    | ResetMaster
    | AppointMasterNode
    | LocalNotify(call: ListenerCall, target: Option<Adv>)
    | NotifyVerifier                                        // wakes the failure verifier

  /** The health states a peer can report. */
  datatype HealthState =
    STARTING | STARTED | ALIVE | CLUSTERSTOPPING | PEERSTOPPING | STOPPED | DEAD | INDOUBT | UNKNOWN

  /** The name a state travels under on the wire and is reported by `getState`. */
  function Name(st: HealthState): (n: string)
  {
    match st
    case STARTING => "starting"
    case STARTED => "started"
    case ALIVE => "alive"
    case CLUSTERSTOPPING => "clusterstopping"
    case PEERSTOPPING => "peerstopping"
    case STOPPED => "stopped"
    case DEAD => "dead"
    case INDOUBT => "indoubt"
    case UNKNOWN => "unknown"
  }

  predicate IsStopState(state: HealthState)
  {
    state == PEERSTOPPING || state == CLUSTERSTOPPING
  }

  // ---------------------------------------------------------------------
  // Arithmetic of the missed-beat count

  /** `computeMissedBeat`: whole timeout periods since the entry's timestamp. */
  function MissedBeats(now: int, timestamp: int, timeout: int): int
    requires timeout > 0
  {
    ToInt32(JavaDiv(now - timestamp, timeout))
  }

  /**
   * With a non-negative elapsed time short enough that the beat count fits
   * in an int, more than `maxMissedBeats` beats are missed exactly when at
   * least `(maxMissedBeats + 1) * timeout` milliseconds have passed.
   */
  lemma MissedBeatsThreshold(now: int, timestamp: int, timeout: int, maxMissedBeats: int)
    requires timeout > 0 && maxMissedBeats >= 0
    requires 0 <= now - timestamp < TWO_31 * timeout
    ensures MissedBeats(now, timestamp, timeout) > maxMissedBeats
            <==> now - timestamp >= (maxMissedBeats + 1) * timeout
  {
    var d := now - timestamp;
    var q := JavaDiv(d, timeout);
    JavaDivBounds(d, timeout);
    QuotientBelow(d, timeout, q, TWO_31);
    ToInt32Range(q);
    QuotientThreshold(d, timeout, q, maxMissedBeats);
  }

  lemma MulMono(a: int, b: int, c: int)
    requires a <= b && c >= 0
    ensures a * c <= b * c
  {
  }

  /** A quotient of a dividend below `n * t` is below `n`. */
  lemma QuotientBelow(d: int, t: int, q: int, n: int)
    requires t > 0 && q * t <= d < n * t
    ensures q < n
  {
    if q >= n {
      MulMono(n, q, t);
    }
  }

  /** With `q` the quotient of `d` by `t`, `q > m` exactly when `d` reaches `(m + 1) * t`. */
  lemma QuotientThreshold(d: int, t: int, q: int, m: int)
    requires t > 0 && q * t <= d < q * t + t
    ensures q > m <==> d >= (m + 1) * t
  {
    if q > m {
      MulMono(m + 1, q, t);
    } else {
      MulMono(q + 1, m + 1, t);
      assert (q + 1) * t == q * t + t;
    }
  }

  /** An entry timestamped in the future is never in doubt (while the count fits in an int). */
  lemma FutureEntryNeverMissed(now: int, timestamp: int, timeout: int)
    requires timeout > 0
    requires -TWO_31 * timeout < now - timestamp < 0
    ensures MissedBeats(now, timestamp, timeout) <= 0
  {
    var d := now - timestamp;
    var q := JavaDiv(d, timeout);
    JavaDivBounds(d, timeout);
    ToInt32Range(q);
    assert q <= 0;
    assert q > -TWO_31 by {
      if q <= -TWO_31 {
        MulMono(q, -TWO_31, timeout);
      }
    }
    assert ToInt32(q) == q;
  }

  // ---------------------------------------------------------------------
  // The cache

  /** The cache after `cache.put(e.id, e)` for each entry of `es` in order. */
  function PutAll(c: map<PeerId, Entry>, es: seq<Entry>): map<PeerId, Entry>
  {
    if |es| == 0 then c
    else
      var e := es[|es| - 1];
      PutAll(c, es[..|es| - 1])[e.id := e]
  }

  /** Each id ends up holding the last entry about it. */
  lemma {:induction false} PutAllLastWins(c: map<PeerId, Entry>, es: seq<Entry>, k: nat)
    requires k < |es|
    requires forall j :: k < j < |es| ==> es[j].id != es[k].id
    ensures es[k].id in PutAll(c, es) && PutAll(c, es)[es[k].id] == es[k]
  {
    if k < |es| - 1 {
      var init := es[..|es| - 1];
      assert init[k] == es[k];
      assert forall j :: k < j < |init| ==> init[j] == es[j];
      PutAllLastWins(c, init, k);
    }
  }

  /** An id no entry mentions keeps its slot (or its absence). */
  lemma {:induction false} PutAllUntouched(c: map<PeerId, Entry>, es: seq<Entry>, id: PeerId)
    requires forall k :: 0 <= k < |es| ==> es[k].id != id
    ensures id in PutAll(c, es) <==> id in c
    ensures id in c ==> PutAll(c, es)[id] == c[id]
  {
    if |es| > 0 {
      var init := es[..|es| - 1];
      assert forall k :: 0 <= k < |init| ==> init[k] == es[k];
      PutAllUntouched(c, init, id);
    }
  }

  /** Entries whose handling throws: a stop entry without advertisement dereferences null. */
  predicate Aborts(e: Entry)
  {
    IsStopState(e.state) && e.adv.None?
  }

  /**
   * How many entries of a message are handled: all of them, or up to and
   * including the first one whose stop handling throws (the exception
   * leaves `process` and is swallowed by `pipeMsgEvent`).
   */
  function Handled(es: seq<Entry>): (n: nat)
    ensures n <= |es|
    ensures forall k :: 0 <= k < n - 1 ==> !Aborts(es[k])
    ensures n == |es| || (n >= 1 && Aborts(es[n - 1]))
  {
    if |es| == 0 then 0
    else if Aborts(es[0]) then 1
    else
      var n := 1 + Handled(es[1..]);
      assert forall k :: 1 <= k < |es| ==> es[k] == es[1..][k - 1];
      n
  }

  /** The handled count is the only count with the two properties of `Handled`. */
  lemma {:induction false} HandledUnique(es: seq<Entry>, n: nat)
    requires n <= |es|
    requires forall k :: 0 <= k < n - 1 ==> !Aborts(es[k])
    requires n == |es| || (n >= 1 && Aborts(es[n - 1]))
    ensures Handled(es) == n
  {
    if |es| > 0 && !Aborts(es[0]) {
      assert n >= 1;
      assert forall k :: 1 <= k < |es| ==> es[k] == es[1..][k - 1];
      HandledUnique(es[1..], n - 1);
    }
  }

  // ---------------------------------------------------------------------
  // Effects

  /** `notifyLocalListeners`: the cluster view manager call for a state, if any. */
  function NotifyLocalListeners(state: HealthState, adv: Option<Adv>): (r: seq<Action>)
    ensures |r| <= 1
    ensures |r| == 1 <==> state in {INDOUBT, ALIVE, CLUSTERSTOPPING, PEERSTOPPING}
    ensures |r| == 1 ==> r[0].LocalNotify? && r[0].target == adv
  {
    if state == INDOUBT then [LocalNotify(SetInDoubtPeerState, adv)]
    else if state == ALIVE then [LocalNotify(SetPeerNoLongerInDoubtState, adv)]
    else if state == CLUSTERSTOPPING then [LocalNotify(SetClusterStoppingState, adv)]
    else if state == PEERSTOPPING then [LocalNotify(SetPeerStoppingState, adv)]
    else []
  }

  /** `removeMasterAdv`: remove from the view, then tell the view listeners why, if the advertisement is known. */
  function RemoveMasterAdv(e: Entry, state: HealthState): (r: seq<Action>)
    ensures |r| >= 1 && r[0] == RemoveFromView(e.id)
    ensures forall k :: 1 <= k < |r| ==> r[k].NotifyListeners? && e.adv == Some(r[k].about)
  {
    [RemoveFromView(e.id)]
    + if e.adv.None? then []
      else if state == DEAD then [NotifyListeners(FAILURE_EVENT, e.adv.value)]
      else if state == PEERSTOPPING then [NotifyListeners(PEER_STOP_EVENT, e.adv.value)]
      else if state == CLUSTERSTOPPING then [NotifyListeners(CLUSTER_STOP_EVENT, e.adv.value)]
      else []
  }

  /** `handleStopEvent` for an entry with an advertisement. */
  function HandleStopEvent(e: Entry, ms: MasterStatus): seq<Action>
  {
    if e.adv.None? then []
    else
      var stateCode := if e.state == CLUSTERSTOPPING then CLUSTERSTOPPING else PEERSTOPPING;
      if e.adv.value.id == ms.masterNodeID then
        RemoveMasterAdv(e, stateCode) + [ResetMaster, AppointMasterNode]
      else if ms.isMaster && ms.isMasterAssigned then
        var event := if e.state == CLUSTERSTOPPING then CLUSTER_STOP_EVENT else PEER_STOP_EVENT;
        RemoveMasterAdv(e, stateCode) + [ViewChanged(event, e.adv)]
      else []
  }

  /**
   * A stop entry changes the view only when the stopping peer is the master
   * (then the master is reset and reappointed) or the local node is the
   * assigned master (then a stop event naming the reported kind is emitted).
   */
  lemma StopEventEffects(e: Entry, ms: MasterStatus)
    requires IsStopState(e.state) && e.adv.Some?
    ensures var r := HandleStopEvent(e, ms);
            (|r| > 0 <==> e.adv.value.id == ms.masterNodeID || (ms.isMaster && ms.isMasterAssigned))
            && (|r| > 0 ==> r[0] == RemoveFromView(e.id))
            && (ResetMaster in r <==> e.adv.value.id == ms.masterNodeID)
            && (ViewChanged(CLUSTER_STOP_EVENT, e.adv) in r <==>
                  e.adv.value.id != ms.masterNodeID && ms.isMaster && ms.isMasterAssigned
                  && e.state == CLUSTERSTOPPING)
            && (ViewChanged(PEER_STOP_EVENT, e.adv) in r <==>
                  e.adv.value.id != ms.masterNodeID && ms.isMaster && ms.isMasterAssigned
                  && e.state == PEERSTOPPING)
  {
    var stateCode := if e.state == CLUSTERSTOPPING then CLUSTERSTOPPING else PEERSTOPPING;
    var rm := RemoveMasterAdv(e, stateCode);
    assert ResetMaster !in rm && ViewChanged(CLUSTER_STOP_EVENT, e.adv) !in rm && ViewChanged(PEER_STOP_EVENT, e.adv) !in rm by {
      assert forall k :: 0 <= k < |rm| ==> rm[k].RemoveFromView? || rm[k].NotifyListeners?;
    }
  }

  /** The effects of handling one inbound entry from `src` (after it is cached). */
  function EntryActions(e: Entry, src: PeerId, local: PeerId, view: set<PeerId>, ms: MasterStatus): seq<Action>
  {
    (if e.id !in view then [ProbeNode(e)] else [])
    + (if IsStopState(e.state) then HandleStopEvent(e, ms) else [])
    + (if e.state == INDOUBT || e.state == DEAD then
         (if e.id == local then [ReportMyState(ALIVE, Some(src))]
          else if e.state == INDOUBT then NotifyLocalListeners(e.state, e.adv)
          else [])
       else [])
  }

  /** The effects of handling the entries `es` in order. */
  function ProcessActions(es: seq<Entry>, src: PeerId, local: PeerId, view: set<PeerId>, ms: MasterStatus): seq<Action>
  {
    if |es| == 0 then []
    else ProcessActions(es[..|es| - 1], src, local, view, ms) + EntryActions(es[|es| - 1], src, local, view, ms)
  }

  /** Handling one more entry extends the cache updates and the effects by that entry's. */
  lemma PrefixStep(es: seq<Entry>, i: nat, c: map<PeerId, Entry>, src: PeerId, local: PeerId, view: set<PeerId>, ms: MasterStatus)
    requires i < |es|
    ensures PutAll(c, es[..i + 1]) == PutAll(c, es[..i])[es[i].id := es[i]]
    ensures ProcessActions(es[..i + 1], src, local, view, ms)
            == ProcessActions(es[..i], src, local, view, ms) + EntryActions(es[i], src, local, view, ms)
  {
    assert es[..i + 1][..i] == es[..i] && es[..i + 1][i] == es[i];
  }

  /** Visiting one more peer extends the log by that peer's effects. */
  lemma ScanLogStep(c: map<PeerId, Entry>, order: seq<PeerId>, id: PeerId, ms: MasterStatus, failure: bool)
    requires forall x :: x in order ==> x in c
    requires id in c
    ensures forall x :: x in order + [id] ==> x in c
    ensures ScanLog(c, order + [id], ms, failure)
            == ScanLog(c, order, ms, failure) + if failure then FailureActions(c[id], ms) else InDoubtActions(c[id], ms)
  {
    assert (order + [id])[..|order|] == order;
  }

  /** No peer is visited twice. */
  predicate NoRepeats(ids: seq<PeerId>)
  {
    forall j, k :: 0 <= j < k < |ids| ==> ids[j] != ids[k]
  }

  lemma NoRepeatsSnoc(ids: seq<PeerId>, id: PeerId)
    requires NoRepeats(ids) && id !in ids
    ensures NoRepeats(ids + [id])
  {
  }

  /**
   * `npe` is raised exactly when the last peer visited made the report
   * throw, and no earlier one did: a pass ends at its first throw.
   */
  predicate StopsAtThrow(c: map<PeerId, Entry>, order: seq<PeerId>, ms: MasterStatus, npe: bool)
  {
    (forall id :: id in order ==> id in c)
    && (npe <==> |order| > 0 && ReportThrows(c[order[|order| - 1]], ms))
    && forall k :: 0 <= k < |order| - 1 ==> !ReportThrows(c[order[k]], ms)
  }

  lemma StopsAtThrowSnoc(c: map<PeerId, Entry>, order: seq<PeerId>, id: PeerId, ms: MasterStatus)
    requires StopsAtThrow(c, order, ms, false) && id in c
    ensures StopsAtThrow(c, order + [id], ms, ReportThrows(c[id], ms))
  {
    var o := order + [id];
    assert forall k :: 0 <= k < |order| ==> o[k] == order[k];
  }

  lemma AppendAssoc(a: seq<Action>, b: seq<Action>, c: seq<Action>)
    ensures (a + b) + c == a + (b + c)
  {
  }

  /** One entry draws the ALIVE reply exactly when it reports the local peer INDOUBT or DEAD. */
  lemma EntryReply(e: Entry, src: PeerId, local: PeerId, view: set<PeerId>, ms: MasterStatus)
    ensures var r := EntryActions(e, src, local, view, ms);
            (ReportMyState(ALIVE, Some(src)) in r <==> e.id == local && (e.state == INDOUBT || e.state == DEAD))
            && forall a :: a in r && a.ReportMyState? ==> a == ReportMyState(ALIVE, Some(src))
  {
    var stop := if IsStopState(e.state) then HandleStopEvent(e, ms) else [];
    assert forall a :: a in stop ==> !a.ReportMyState? by {
      if IsStopState(e.state) && e.adv.Some? {
        var stateCode := if e.state == CLUSTERSTOPPING then CLUSTERSTOPPING else PEERSTOPPING;
        var rm := RemoveMasterAdv(e, stateCode);
        assert forall k :: 0 <= k < |rm| ==> rm[k].RemoveFromView? || rm[k].NotifyListeners?;
      }
    }
    var doubt := if e.state == INDOUBT || e.state == DEAD then
                   (if e.id == local then [ReportMyState(ALIVE, Some(src))]
                    else if e.state == INDOUBT then NotifyLocalListeners(e.state, e.adv)
                    else [])
                 else [];
    assert EntryActions(e, src, local, view, ms) == (if e.id !in view then [ProbeNode(e)] else []) + stop + doubt;
    assert forall a :: a in doubt ==> a.LocalNotify? || a == ReportMyState(ALIVE, Some(src));
  }

  /**
   * A sender that reports the local peer INDOUBT or DEAD gets a unicast
   * ALIVE reply, and that is the only reply `process` ever sends.
   */
  lemma {:induction false} SelfSuspicionAnswered(es: seq<Entry>, src: PeerId, local: PeerId, view: set<PeerId>, ms: MasterStatus)
    ensures var r := ProcessActions(es, src, local, view, ms);
            (ReportMyState(ALIVE, Some(src)) in r <==>
               exists k :: 0 <= k < |es| && es[k].id == local
                                && (es[k].state == INDOUBT || es[k].state == DEAD))
            && forall a :: a in r && a.ReportMyState? ==> a == ReportMyState(ALIVE, Some(src))
  {
    if |es| > 0 {
      var init := es[..|es| - 1];
      var e := es[|es| - 1];
      SelfSuspicionAnswered(init, src, local, view, ms);
      EntryReply(e, src, local, view, ms);
      var before := exists k :: 0 <= k < |init| && init[k].id == local && (init[k].state == INDOUBT || init[k].state == DEAD);
      var now := exists k :: 0 <= k < |es| && es[k].id == local && (es[k].state == INDOUBT || es[k].state == DEAD);
      assert now <==> before || (e.id == local && (e.state == INDOUBT || e.state == DEAD)) by {
        if now {
          var k :| 0 <= k < |es| && es[k].id == local && (es[k].state == INDOUBT || es[k].state == DEAD);
          if k < |init| {
            assert init[k] == es[k];
          }
        }
        if before {
          var k :| 0 <= k < |init| && init[k].id == local && (init[k].state == INDOUBT || init[k].state == DEAD);
          assert es[k] == init[k];
        }
      }
    }
  }

  /** Whether one scan designates `e` in doubt. */
  predicate Suspect(e: Entry, now: int, timeout: int, maxMissedBeats: int, ms: MasterStatus)
    requires timeout > 0
  {
    e.state == ALIVE
    && MissedBeats(now, e.timestamp, timeout) > maxMissedBeats
    && CanProcessInDoubt(e, ms)
  }

  /** `canProcessInDoubt`: only the master, or anyone about the master, may suspect a peer. */
  predicate CanProcessInDoubt(e: Entry, ms: MasterStatus)
  {
    ms.masterNodeID == e.id || ms.isMaster
  }

  /**
   * The cache after one in-doubt scan: unless the monitor is stopped,
   * suspected ALIVE entries become INDOUBT; nothing else changes.
   */
  function InDoubtScan(c: map<PeerId, Entry>, now: int, timeout: int, maxMissedBeats: int, ms: MasterStatus, stopped: bool): map<PeerId, Entry>
    requires timeout > 0
  {
    map id | id in c :: ScanSlot(c[id], now, timeout, maxMissedBeats, ms, stopped)
  }

  /** One cache slot after the scan. */
  function ScanSlot(e: Entry, now: int, timeout: int, maxMissedBeats: int, ms: MasterStatus, stopped: bool): Entry
    requires timeout > 0
  {
    if !stopped && Suspect(e, now, timeout, maxMissedBeats, ms) then e.(state := INDOUBT) else e
  }

  /** The cache part-way through the scan: the slots in `pending` are still untouched. */
  ghost function ScanPartial(c: map<PeerId, Entry>, pending: set<PeerId>, now: int, timeout: int, maxMissedBeats: int, ms: MasterStatus, stopped: bool): map<PeerId, Entry>
    requires timeout > 0
  {
    map id | id in c :: if id in pending then c[id] else ScanSlot(c[id], now, timeout, maxMissedBeats, ms, stopped)
  }

  /** Before the scan nothing is touched; after it, `InDoubtScan` holds; peer ids stay where they were. */
  lemma ScanPartialEnds(c: map<PeerId, Entry>, now: int, timeout: int, maxMissedBeats: int, ms: MasterStatus, stopped: bool)
    requires timeout > 0
    ensures ScanPartial(c, c.Keys, now, timeout, maxMissedBeats, ms, stopped) == c
    ensures ScanPartial(c, {}, now, timeout, maxMissedBeats, ms, stopped) == InDoubtScan(c, now, timeout, maxMissedBeats, ms, stopped)
    ensures forall id :: id in c && c[id].id == id ==> InDoubtScan(c, now, timeout, maxMissedBeats, ms, stopped)[id].id == id
  {
  }

  /**
   * Visiting one more pending peer keeps the scan's bookkeeping: the
   * cache, the suspects in visiting order and the log grow by that peer's
   * slot, suspicion and effects.
   */
  lemma ScanVisit(c: map<PeerId, Entry>, pending: set<PeerId>, order: seq<PeerId>, id: PeerId,
                  now: int, timeout: int, maxMissedBeats: int, ms: MasterStatus, stopped: bool)
    requires timeout > 0 && id in c && id in pending
    requires ScannedOrder(c, pending, order, now, timeout, maxMissedBeats, ms, stopped)
    requires NoRepeats(order) && StopsAtThrow(c, order, ms, false)
    ensures var suspected := !stopped && Suspect(c[id], now, timeout, maxMissedBeats, ms);
            var next := if suspected then order + [id] else order;
            ScannedOrder(c, pending - {id}, next, now, timeout, maxMissedBeats, ms, stopped)
            && NoRepeats(next)
            && StopsAtThrow(c, next, ms, suspected && ReportThrows(c[id], ms))
            && ScanLog(c, next, ms, false) == ScanLog(c, order, ms, false) + (if suspected then InDoubtActions(c[id], ms) else [])
            && ScanPartial(c, pending - {id}, now, timeout, maxMissedBeats, ms, stopped)
               == ScanPartial(c, pending, now, timeout, maxMissedBeats, ms, stopped)[id := ScanSlot(c[id], now, timeout, maxMissedBeats, ms, stopped)]
  {
    ScannedOrderStep(c, pending, order, id, now, timeout, maxMissedBeats, ms, stopped);
    ScanPartialStep(c, pending, id, now, timeout, maxMissedBeats, ms, stopped);
    if !stopped && Suspect(c[id], now, timeout, maxMissedBeats, ms) {
      ScanLogStep(c, order, id, ms, false);
      NoRepeatsSnoc(order, id);
      StopsAtThrowSnoc(c, order, id, ms);
    }
  }

  /** The scan keeps every slot's peer id. */
  lemma ScanPartialKeepsIds(c: map<PeerId, Entry>, pending: set<PeerId>, now: int, timeout: int, maxMissedBeats: int, ms: MasterStatus, stopped: bool)
    requires timeout > 0
    requires forall id :: id in c ==> c[id].id == id
    ensures forall id :: id in ScanPartial(c, pending, now, timeout, maxMissedBeats, ms, stopped) ==>
              ScanPartial(c, pending, now, timeout, maxMissedBeats, ms, stopped)[id].id == id
  {
  }

  /** Scanning one more pending slot. */
  lemma ScanPartialStep(c: map<PeerId, Entry>, pending: set<PeerId>, id: PeerId, now: int, timeout: int, maxMissedBeats: int, ms: MasterStatus, stopped: bool)
    requires timeout > 0 && id in c
    ensures ScanPartial(c, pending - {id}, now, timeout, maxMissedBeats, ms, stopped)
            == ScanPartial(c, pending, now, timeout, maxMissedBeats, ms, stopped)[id := ScanSlot(c[id], now, timeout, maxMissedBeats, ms, stopped)]
  {
  }

  /** The peers the scan has designated in doubt so far: the suspected ones among those already visited. */
  ghost predicate ScannedOrder(c: map<PeerId, Entry>, pending: set<PeerId>, order: seq<PeerId>, now: int, timeout: int, maxMissedBeats: int, ms: MasterStatus, stopped: bool)
    requires timeout > 0
  {
    forall id :: id in order <==> id in c && id !in pending && !stopped && Suspect(c[id], now, timeout, maxMissedBeats, ms)
  }

  /** Visiting one more pending peer appends it to the order exactly when it is suspected. */
  lemma ScannedOrderStep(c: map<PeerId, Entry>, pending: set<PeerId>, order: seq<PeerId>, id: PeerId, now: int, timeout: int, maxMissedBeats: int, ms: MasterStatus, stopped: bool)
    requires timeout > 0 && id in c && id in pending
    requires ScannedOrder(c, pending, order, now, timeout, maxMissedBeats, ms, stopped)
    ensures id !in order
    ensures var suspected := !stopped && Suspect(c[id], now, timeout, maxMissedBeats, ms);
            ScannedOrder(c, pending - {id}, if suspected then order + [id] else order, now, timeout, maxMissedBeats, ms, stopped)
  {
  }

  /**
   * Whether `reportOtherPeerState` throws for `e`: only a master reports,
   * and it dereferences the advertisement, so a missing one throws before
   * anything is sent.
   */
  predicate ReportThrows(e: Entry, ms: MasterStatus)
  {
    ms.isMaster && e.adv.None?
  }

  /** `designateInDoubtState`'s effects besides the cache update; none when the report throws. */
  function DesignateActions(e: Entry, ms: MasterStatus): seq<Action>
  {
    if ReportThrows(e, ms) then []
    else
      (if ms.isMaster then [ReportOtherPeerState(INDOUBT, e.adv)] else [])
      + NotifyLocalListeners(INDOUBT, e.adv)
  }

  /** The effects of suspecting `e`: the designation, then waking the failure verifier, unless the report throws. */
  function InDoubtActions(e: Entry, ms: MasterStatus): seq<Action>
  {
    if ReportThrows(e, ms) then [] else DesignateActions(e, ms) + [NotifyVerifier]
  }

  /**
   * Suspecting a peer tells the group exactly when this node is the master,
   * always tells the local listeners and wakes the verifier, and does
   * nothing at all when the master's report throws.
   */
  lemma InDoubtEffects(e: Entry, ms: MasterStatus)
    ensures ReportThrows(e, ms) ==> InDoubtActions(e, ms) == []
    ensures !ReportThrows(e, ms) ==>
              var r := InDoubtActions(e, ms);
              (ReportOtherPeerState(INDOUBT, e.adv) in r <==> ms.isMaster)
              && LocalNotify(SetInDoubtPeerState, e.adv) in r
              && r[|r| - 1] == NotifyVerifier
  {
    if !ReportThrows(e, ms) {
      var r := InDoubtActions(e, ms);
      assert LocalNotify(SetInDoubtPeerState, e.adv) == r[|r| - 2];
    }
  }

  /** The cache after one verification: every entry not ALIVE becomes DEAD. */
  function MarkDead(c: map<PeerId, Entry>): map<PeerId, Entry>
  {
    map id | id in c :: if c[id].state != ALIVE then c[id].(state := DEAD) else c[id]
  }

  /** The cache part-way through a verification pass: the slots in `pending` are still untouched. */
  ghost function MarkDeadPartial(c: map<PeerId, Entry>, pending: set<PeerId>): map<PeerId, Entry>
  {
    map id | id in c :: if id !in pending && c[id].state != ALIVE then c[id].(state := DEAD) else c[id]
  }

  /** Before the pass nothing is marked; after it, `MarkDead` holds; peer ids stay where they were. */
  lemma MarkDeadPartialEnds(c: map<PeerId, Entry>)
    ensures MarkDeadPartial(c, c.Keys) == c
    ensures MarkDeadPartial(c, {}) == MarkDead(c)
    ensures forall id :: id in c && c[id].id == id ==> MarkDead(c)[id].id == id
  {
  }

  /** Marking one more pending slot. */
  lemma MarkDeadPartialStep(c: map<PeerId, Entry>, pending: set<PeerId>, id: PeerId)
    requires id in c
    ensures MarkDeadPartial(c, pending - {id})
            == MarkDeadPartial(c, pending)[id := if c[id].state != ALIVE then c[id].(state := DEAD) else c[id]]
  {
  }

  /** `assignAndReportFailure`'s effects besides the cache update; none when the report throws. */
  function FailureActions(e: Entry, ms: MasterStatus): seq<Action>
  {
    if ReportThrows(e, ms) then []
    else
      (if ms.isMaster then [ReportOtherPeerState(DEAD, e.adv)] else [])
      + if ms.isMaster && ms.isMasterAssigned then
          RemoveMasterAdv(e, DEAD) + [ViewChanged(FAILURE_EVENT, e.adv)]
        else if ms.masterNodeID == e.id then
          RemoveMasterAdv(e, DEAD) + [ResetMaster, AppointMasterNode]
        else []
  }

  /** The concatenated effects of `f` over the entries of `order`, in that order. */
  function ScanLog(c: map<PeerId, Entry>, order: seq<PeerId>, ms: MasterStatus, failure: bool): seq<Action>
    requires forall id :: id in order ==> id in c
  {
    if |order| == 0 then []
    else
      var e := c[order[|order| - 1]];
      ScanLog(c, order[..|order| - 1], ms, failure)
      + if failure then FailureActions(e, ms) else InDoubtActions(e, ms)
  }

  /**
   * A failed peer leaves the view only when the local node is the
   * assigned master (with a FAILURE_EVENT) or the failed peer was the
   * master (followed by a master reset and reappointment). On a master, a
   * peer without advertisement makes the report throw first, so nothing
   * is reported and the view is left alone.
   */
  lemma FailureEffects(e: Entry, ms: MasterStatus)
    ensures ReportThrows(e, ms) ==> FailureActions(e, ms) == []
    ensures !ReportThrows(e, ms) ==>
            var r := FailureActions(e, ms);
            (RemoveFromView(e.id) in r <==> (ms.isMaster && ms.isMasterAssigned) || ms.masterNodeID == e.id)
            && (ViewChanged(FAILURE_EVENT, e.adv) in r <==> ms.isMaster && ms.isMasterAssigned)
            && (ResetMaster in r <==> !(ms.isMaster && ms.isMasterAssigned) && ms.masterNodeID == e.id)
            && (ReportOtherPeerState(DEAD, e.adv) in r <==> ms.isMaster)
  {
    var rm := RemoveMasterAdv(e, DEAD);
    assert forall k :: 0 <= k < |rm| ==> rm[k].RemoveFromView? || rm[k].NotifyListeners?;
  }

  /** Verification leaves every cached peer ALIVE or DEAD, touches no ALIVE entry, and is idempotent. */
  lemma MarkDeadOutcome(c: map<PeerId, Entry>)
    ensures MarkDead(c).Keys == c.Keys
    ensures forall id :: id in c ==> MarkDead(c)[id].state in {ALIVE, DEAD}
    ensures forall id :: id in c && c[id].state == ALIVE ==> MarkDead(c)[id] == c[id]
    ensures MarkDead(MarkDead(c)) == MarkDead(c)
  {
  }

  /**
   * A peer designated in doubt that sends an ALIVE heartbeat before the
   * verification (the last entry about it in a handled inbound message) is
   * not declared dead.
   */
  lemma LateHeartbeatSurvives(c: map<PeerId, Entry>, now: int, timeout: int, maxMissedBeats: int, ms: MasterStatus,
                              hm: HealthMessage, local: PeerId, p: PeerId, k: nat)
    requires timeout > 0
    requires hm.srcID != local
    requires k < Handled(hm.entries)
    requires hm.entries[k].id == p && hm.entries[k].state == ALIVE
    requires forall j :: k < j < Handled(hm.entries) ==> hm.entries[j].id != p
    ensures var scanned := InDoubtScan(c, now, timeout, maxMissedBeats, ms, false);
            var refreshed := PutAll(scanned, hm.entries[..Handled(hm.entries)]);
            p in MarkDead(refreshed) && MarkDead(refreshed)[p] == hm.entries[k]
  {
    var scanned := InDoubtScan(c, now, timeout, maxMissedBeats, ms, false);
    var es := hm.entries[..Handled(hm.entries)];
    assert es[k] == hm.entries[k];
    assert forall j :: k < j < |es| ==> es[j] == hm.entries[j];
    PutAllLastWins(scanned, es, k);
  }

  /** A suspected peer that sends nothing before the verification is declared dead. */
  lemma SilentSuspectDies(c: map<PeerId, Entry>, now: int, timeout: int, maxMissedBeats: int, ms: MasterStatus, p: PeerId)
    requires timeout > 0
    requires p in c && Suspect(c[p], now, timeout, maxMissedBeats, ms)
    ensures var after := MarkDead(InDoubtScan(c, now, timeout, maxMissedBeats, ms, false));
            p in after && after[p].state == DEAD && after[p].timestamp == c[p].timestamp
  {
  }

  // ---------------------------------------------------------------------
  // The monitor

  class HealthMonitor {
    const localPeerID: PeerId
    const timeout: int          // heartbeat period, in milliseconds
    const maxMissedBeats: int
    const verifyTimeout: int
    var cache: map<PeerId, Entry>
    var actions: seq<Action>
    var stop: bool

    ghost predicate Valid()
      reads this
    {
      timeout > 0 && forall id :: id in cache ==> cache[id].id == id
    }

    constructor(localPeerID: PeerId, timeout: int, maxMissedBeats: int, verifyTimeout: int)
      requires timeout > 0
      ensures Valid()
      ensures this.localPeerID == localPeerID && this.timeout == timeout
      ensures this.maxMissedBeats == maxMissedBeats && this.verifyTimeout == verifyTimeout
      ensures cache == map[] && actions == [] && !stop
    {
      this.localPeerID := localPeerID;
      this.timeout := timeout;
      this.maxMissedBeats := maxMissedBeats;
      this.verifyTimeout := verifyTimeout;
      cache := map[];
      actions := [];
      stop := false;
    }

    /** `getState`: the cached state, or "dead" for a peer never heard of. */
    function GetState(id: PeerId): (s: string)
      reads this
      ensures id !in cache ==> s == Name(DEAD)
      ensures id in cache ==> s == Name(cache[id].state)
    {
      if id in cache then Name(cache[id].state) else Name(DEAD)
    }

    /**
     * The body of `process` for one entry from `src`: cache it, probe a
     * peer that is not in the view, handle a stop report, answer a report
     * that the local peer is in doubt or dead, pass on a report that
     * another peer is in doubt. `aborted` is a stop entry without
     * advertisement, on which the stop handler throws.
     */
    method ProcessEntry(e: Entry, src: PeerId, view: set<PeerId>, ms: MasterStatus) returns (aborted: bool)
      requires Valid()
      modifies this`cache, this`actions
      ensures Valid()
      ensures cache == old(cache)[e.id := e]
      ensures actions == old(actions) + EntryActions(e, src, localPeerID, view, ms)
      ensures aborted == Aborts(e)
    {
      aborted := false;
      cache := cache[e.id := e];
      var acts: seq<Action> := [];
      if e.id !in view {
        acts := acts + [ProbeNode(e)];
      }
      if IsStopState(e.state) {
        if e.adv.None? {
          // the stop handler dereferences the missing advertisement
          actions := actions + acts;
          aborted := true;
          return;
        }
        acts := acts + HandleStopEvent(e, ms);
      }
      if e.state == INDOUBT || e.state == DEAD {
        if e.id == localPeerID {
          acts := acts + [ReportMyState(ALIVE, Some(src))];
        } else if e.state == INDOUBT {
          acts := acts + NotifyLocalListeners(e.state, e.adv);
        }
      }
      actions := actions + acts;
    }

    /**
     * `process`: a message from another peer overwrites the cache slot of
     * every entry it carries and reacts to it; a loopback message is
     * ignored. `npe` reports a stop entry without advertisement, which
     * ends the processing of the message after that entry.
     */
    method Process(hm: HealthMessage, view: set<PeerId>, ms: MasterStatus) returns (npe: bool)
      requires Valid()
      modifies this`cache, this`actions
      ensures Valid()
      ensures hm.srcID == localPeerID ==> cache == old(cache) && actions == old(actions) && !npe
      ensures hm.srcID != localPeerID ==>
                var es := hm.entries[..Handled(hm.entries)];
                cache == PutAll(old(cache), es)
                && actions == old(actions) + ProcessActions(es, hm.srcID, localPeerID, view, ms)
                && (npe <==> exists k :: 0 <= k < |hm.entries| && Aborts(hm.entries[k]))
    {
      npe := false;
      if hm.srcID == localPeerID {
        return;
      }
      var es := hm.entries;
      ghost var c0 := cache;
      ghost var a0 := actions;
      var i := 0;
      // a throwing entry ends the loop: the exception leaves `process`
      while i < |es| && !npe
        invariant 0 <= i <= |es|
        invariant forall k :: 0 <= k < i - 1 ==> !Aborts(es[k])
        invariant npe <==> i >= 1 && Aborts(es[i - 1])
        invariant Valid()
        invariant cache == PutAll(c0, es[..i])
        invariant actions == a0 + ProcessActions(es[..i], hm.srcID, localPeerID, view, ms)
      {
        PrefixStep(es, i, c0, hm.srcID, localPeerID, view, ms);
        ghost var done := ProcessActions(es[..i], hm.srcID, localPeerID, view, ms);
        npe := ProcessEntry(es[i], hm.srcID, view, ms);
        AppendAssoc(a0, done, EntryActions(es[i], hm.srcID, localPeerID, view, ms));
        i := i + 1;
      }
      HandledUnique(es, i);
    }

    /**
     * `designateInDoubtState`: mark the entry INDOUBT in the cache, tell the
     * group if master, tell local listeners. `npe`: the report to the group
     * threw on a missing advertisement, after the cache update.
     */
    method DesignateInDoubtState(entry: Entry, ms: MasterStatus) returns (npe: bool)
      modifies this`cache, this`actions
      ensures npe == ReportThrows(entry, ms)
      ensures cache == old(cache)[entry.id := entry.(state := INDOUBT)]
      ensures actions == old(actions) + DesignateActions(entry, ms)
    {
      npe := false;
      var designated := entry.(state := INDOUBT);
      cache := cache[entry.id := designated];
      if ms.isMaster {
        if entry.adv.None? {
          // reportOtherPeerState dereferences the missing advertisement
          npe := true;
          return;
        }
        actions := actions + [ReportOtherPeerState(INDOUBT, entry.adv)];
      }
      actions := actions + NotifyLocalListeners(designated.state, designated.adv);
    }

    /**
     * One pass of the in-doubt detector at time `now` (`processCacheUpdate`
     * with `determineInDoubtPeers` on each entry): every ALIVE entry that
     * missed more than `maxMissedBeats` beats, and that this node may
     * judge, becomes INDOUBT. `order` lists those peers in the order the
     * pass visited them (the Hashtable's iteration order, left open). A
     * report that throws (`npe`, on the last peer of `order`) ends the pass:
     * the peers in `unvisited` keep their entries.
     */
    method ScanInDoubt(now: int, ms: MasterStatus) returns (order: seq<PeerId>, npe: bool, unvisited: set<PeerId>)
      requires Valid()
      modifies this`cache, this`actions
      ensures Valid()
      ensures unvisited <= old(cache).Keys
      ensures cache == ScanPartial(old(cache), unvisited, now, timeout, maxMissedBeats, ms, stop)
      ensures ScannedOrder(old(cache), unvisited, order, now, timeout, maxMissedBeats, ms, stop)
      ensures NoRepeats(order)
      ensures actions == old(actions) + ScanLog(old(cache), order, ms, false)
      ensures StopsAtThrow(old(cache), order, ms, npe)
      ensures !npe ==> unvisited == {} && cache == InDoubtScan(old(cache), now, timeout, maxMissedBeats, ms, stop)
    {
      order := [];
      npe := false;
      ghost var c0 := cache;
      ghost var a0 := actions;
      assert ScanPartial(c0, c0.Keys, now, timeout, maxMissedBeats, ms, stop) == c0;
      var remaining := cache.Keys;
      while remaining != {}
        invariant remaining <= c0.Keys
        invariant cache == ScanPartial(c0, remaining, now, timeout, maxMissedBeats, ms, stop)
        invariant ScannedOrder(c0, remaining, order, now, timeout, maxMissedBeats, ms, stop)
        invariant NoRepeats(order)
        invariant actions == a0 + ScanLog(c0, order, ms, false)
        invariant StopsAtThrow(c0, order, ms, false)
        decreases remaining
      {
        var id :| id in remaining;
        var thrown;
        order, thrown := ScanTurn(id, now, ms, c0, a0, remaining, order);
        remaining := remaining - {id};
        if thrown {
          // the exception leaves the pass
          npe := true;
          break;
        }
      }
      unvisited := remaining;
      ScanPartialKeepsIds(c0, unvisited, now, timeout, maxMissedBeats, ms, stop);
      ScanPartialEnds(c0, now, timeout, maxMissedBeats, ms, stop);
    }

    /**
     * One turn of the in-doubt scan: visit `id`, a peer still pending, and
     * append it to the suspects when it is suspected.
     */
    method ScanTurn(id: PeerId, now: int, ms: MasterStatus, ghost c0: map<PeerId, Entry>, ghost a0: seq<Action>,
                    ghost pending: set<PeerId>, order: seq<PeerId>) returns (next: seq<PeerId>, thrown: bool)
      requires timeout > 0 && id in pending && pending <= c0.Keys
      requires forall x :: x in c0 ==> c0[x].id == x
      requires cache == ScanPartial(c0, pending, now, timeout, maxMissedBeats, ms, stop)
      requires ScannedOrder(c0, pending, order, now, timeout, maxMissedBeats, ms, stop)
      requires NoRepeats(order) && StopsAtThrow(c0, order, ms, false)
      requires actions == a0 + ScanLog(c0, order, ms, false)
      modifies this`cache, this`actions
      ensures cache == ScanPartial(c0, pending - {id}, now, timeout, maxMissedBeats, ms, stop)
      ensures ScannedOrder(c0, pending - {id}, next, now, timeout, maxMissedBeats, ms, stop)
      ensures NoRepeats(next) && StopsAtThrow(c0, next, ms, thrown)
      ensures actions == a0 + ScanLog(c0, next, ms, false)
    {
      assert cache[id] == c0[id];
      ScanVisit(c0, pending, order, id, now, timeout, maxMissedBeats, ms, stop);
      ghost var done := ScanLog(c0, order, ms, false);
      var suspected;
      suspected, thrown := DetermineInDoubtPeer(id, now, ms);
      next := order;
      if suspected {
        AppendAssoc(a0, done, InDoubtActions(c0[id], ms));
        next := order + [id];
      }
    }

    /**
     * The scan of one cached entry (`determineInDoubtPeers` on an ALIVE
     * entry): designate it in doubt and wake the failure verifier when it
     * missed too many beats and this node may judge it. `npe`: the
     * designation's report threw, so the verifier is not woken.
     */
    method DetermineInDoubtPeer(id: PeerId, now: int, ms: MasterStatus) returns (suspected: bool, npe: bool)
      requires timeout > 0 && id in cache && cache[id].id == id
      modifies this`cache, this`actions
      ensures suspected == (!stop && Suspect(old(cache)[id], now, timeout, maxMissedBeats, ms))
      ensures npe == (suspected && ReportThrows(old(cache)[id], ms))
      ensures cache == old(cache)[id := ScanSlot(old(cache)[id], now, timeout, maxMissedBeats, ms, stop)]
      ensures actions == old(actions) + if suspected then InDoubtActions(old(cache)[id], ms) else []
    {
      suspected := false;
      npe := false;
      var entry := cache[id];
      if entry.state == ALIVE && !stop {
        if MissedBeats(now, entry.timestamp, timeout) > maxMissedBeats && (ms.masterNodeID == entry.id || ms.isMaster) {
          suspected := true;
          npe := DesignateInDoubtState(entry, ms);
          if npe {
            return;
          }
          // wake the failure verifier
          actions := actions + [NotifyVerifier];
        }
      }
    }

    /**
     * `assignAndReportFailure`: mark the entry DEAD in the cache and report
     * the failure. `npe`: the report to the group threw on a missing
     * advertisement, after the cache update and before the view changed.
     */
    method AssignAndReportFailure(entry: Entry, ms: MasterStatus) returns (npe: bool)
      modifies this`cache, this`actions
      ensures npe == ReportThrows(entry, ms)
      ensures cache == old(cache)[entry.id := entry.(state := DEAD)]
      ensures actions == old(actions) + FailureActions(entry, ms)
    {
      npe := false;
      cache := cache[entry.id := entry.(state := DEAD)];
      var acts: seq<Action> := [];
      if ms.isMaster {
        if entry.adv.None? {
          // reportOtherPeerState dereferences the missing advertisement
          npe := true;
          return;
        }
        acts := acts + [ReportOtherPeerState(DEAD, entry.adv)];
      }
      var masterFailed := ms.masterNodeID == entry.id;
      if ms.isMaster && ms.isMasterAssigned {
        acts := acts + RemoveMasterAdv(entry, DEAD) + [ViewChanged(FAILURE_EVENT, entry.adv)];
      } else if masterFailed {
        acts := acts + RemoveMasterAdv(entry, DEAD) + [ResetMaster, AppointMasterNode];
      }
      actions := actions + acts;
    }

    /**
     * One verification pass (`FailureVerifier.verify`): every entry that is
     * not ALIVE is assigned DEAD and reported as failed. `order` lists those
     * peers in the order the pass visited them. A report that throws
     * (`npe`, on the last peer of `order`) ends the pass: the peers in
     * `unvisited` keep their entries.
     */
    method Verify(ms: MasterStatus) returns (order: seq<PeerId>, npe: bool, unvisited: set<PeerId>)
      requires Valid()
      modifies this`cache, this`actions
      ensures Valid()
      ensures unvisited <= old(cache).Keys
      ensures cache == MarkDeadPartial(old(cache), unvisited)
      ensures forall id :: id in order <==> id in old(cache) && id !in unvisited && old(cache)[id].state != ALIVE
      ensures NoRepeats(order)
      ensures actions == old(actions) + ScanLog(old(cache), order, ms, true)
      ensures StopsAtThrow(old(cache), order, ms, npe)
      ensures !npe ==> unvisited == {} && cache == MarkDead(old(cache))
    {
      order := [];
      npe := false;
      ghost var c0 := cache;
      ghost var a0 := actions;
      MarkDeadPartialEnds(c0);
      var remaining := cache.Keys;
      // a throwing report ends the loop: the exception leaves the pass
      while remaining != {} && !npe
        invariant remaining <= c0.Keys
        invariant cache == MarkDeadPartial(c0, remaining)
        invariant forall id :: id in order <==> id in c0 && id !in remaining && c0[id].state != ALIVE
        invariant NoRepeats(order)
        invariant actions == a0 + ScanLog(c0, order, ms, true)
        invariant StopsAtThrow(c0, order, ms, npe)
        decreases remaining
      {
        var id :| id in remaining;
        assert id !in order && cache[id] == c0[id];
        MarkDeadPartialStep(c0, remaining, id);
        remaining := remaining - {id};
        ghost var done := ScanLog(c0, order, ms, true);
        var failed, thrown := VerifyPeer(id, ms);
        if failed {
          ScanLogStep(c0, order, id, ms, true);
          NoRepeatsSnoc(order, id);
          AppendAssoc(a0, done, FailureActions(c0[id], ms));
          StopsAtThrowSnoc(c0, order, id, ms);
          order := order + [id];
        }
        npe := thrown;
      }
      unvisited := remaining;
    }

    /**
     * The verification of one cached entry: an entry that is not ALIVE is
     * assigned DEAD and reported. `npe`: the report threw.
     */
    method VerifyPeer(id: PeerId, ms: MasterStatus) returns (failed: bool, npe: bool)
      requires id in cache && cache[id].id == id
      modifies this`cache, this`actions
      ensures failed == (old(cache)[id].state != ALIVE)
      ensures npe == (failed && ReportThrows(old(cache)[id], ms))
      ensures cache == old(cache)[id := if failed then old(cache)[id].(state := DEAD) else old(cache)[id]]
      ensures actions == old(actions) + if failed then FailureActions(old(cache)[id], ms) else []
    {
      npe := false;
      var entry := cache[id];
      failed := entry.state != ALIVE;
      if failed {
        npe := AssignAndReportFailure(entry, ms);
      }
    }

    /** `announceStop`: broadcast CLUSTERSTOPPING or PEERSTOPPING about the local peer. */
    method AnnounceStop(isClusterShutdown: bool)
      modifies this
      ensures isClusterShutdown ==> actions == old(actions) + [ReportMyState(CLUSTERSTOPPING, None)]
      ensures !isClusterShutdown ==> actions == old(actions) + [ReportMyState(PEERSTOPPING, None)]
      ensures cache == old(cache) && stop == old(stop)
    {
      if isClusterShutdown {
        actions := actions + [ReportMyState(CLUSTERSTOPPING, None)];
      } else {
        actions := actions + [ReportMyState(PEERSTOPPING, None)];
      }
    }

    /** `stop`: broadcast STOPPED and raise the stop flag, which turns later in-doubt scans into no-ops. */
    method Stop()
      modifies this
      ensures actions == old(actions) + [ReportMyState(STOPPED, None)]
      ensures stop && cache == old(cache)
    {
      actions := actions + [ReportMyState(STOPPED, None)];
      stop := true;
    }
  }
}
