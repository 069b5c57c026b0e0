/**
 * Selection of the member that performs recovery for a failed member.
 *
 * Every member of the group runs the same selection over the same inputs:
 * the view that existed before the failure, the failed member's token, the
 * suspect list and the current members. The context lookups of the Java
 * class (its own token, suspects, current members, watchdog flag, the
 * registered recovery components) are explicit parameters here, and the
 * writes into the distributed state cache are returned as a list of records.
 */
module RecoveryTargetSelector {
  import opened Wrappers
  import opened JavaStrings

  /** The member type string that marks a CORE member. */
  const CORE_TYPE := "CORE"
  const RECOVERY_SERVER_APPOINTED := "RECOVERY_SERVER_APPOINTED"

  /** A member of the view cached before the failure. */
  datatype Member = Member(token: string, memberType: string)

  datatype Mode = SIMPLESELECT | HOSTSELECT | FIRSTLIVESELECT

  /** The mode used when the caller passes null. */
  const DEFAULT_MODE := SIMPLESELECT

  /** What the group context supplies to one evaluation. */
  datatype Context = Context(
    self: string,                 // this process's identity token
    suspects: seq<string>,        // the suspect (exclusion) list
    currentMembers: seq<string>,  // all current members of the group
    isWatchdog: bool,
    components: seq<string>,      // registered failure-recovery components
    rejecting: set<string>,       // components whose cache write raises GMSException
    now: nat)                     // the wall clock, in milliseconds

  /** One `addToCache(component, recoverer, failed, state)` call on the distributed state cache. */
  datatype CacheWrite = CacheWrite(
    component: string, recoverer: string, failed: string, state: string, accepted: bool)

  function EffectiveMode(mode: Option<Mode>): (m: Mode)
    ensures mode.None? ==> m == SIMPLESELECT
    ensures mode.Some? ==> m == mode.value
  {
    if mode.None? then DEFAULT_MODE else mode.value
  }

  /** Tokens of the CORE members of the view, in view order. */
  function CoreTokens(view: seq<Member>): (r: seq<string>)
    ensures |r| <= |view|
    ensures forall t :: t in r <==> exists k :: 0 <= k < |view| && view[k].memberType == CORE_TYPE && view[k].token == t
  {
    if |view| == 0 then []
    else
      var rest := CoreTokens(view[1..]);
      assert forall k :: 0 < k < |view| ==> view[k] == view[1..][k - 1];
      if view[0].memberType == CORE_TYPE then [view[0].token] + rest else rest
  }

  /** The tokens of `xs` that are current members and not suspected, in the order of `xs`. */
  function LiveFilter(xs: seq<string>, suspects: seq<string>, current: seq<string>): (r: seq<string>)
    ensures |r| <= |xs|
    ensures forall t :: t in r <==> t in xs && t in current && t !in suspects
  {
    if |xs| == 0 then []
    else
      var rest := LiveFilter(xs[1..], suspects, current);
      assert forall t :: t in xs <==> t == xs[0] || t in xs[1..];
      if xs[0] in current && xs[0] !in suspects then [xs[0]] + rest else rest
  }

  /**
   * The live cache: tokens of CORE members of the prior view that are
   * current and not suspected, in prior-view order.
   */
  function LiveTokens(view: seq<Member>, suspects: seq<string>, current: seq<string>): (r: seq<string>)
  {
    if |view| == 0 then []
    else
      var rest := LiveTokens(view[1..], suspects, current);
      var m := view[0];
      if m.memberType == CORE_TYPE && m.token in current && m.token !in suspects then [m.token] + rest else rest
  }

  /** The live cache is the core list filtered by "current and not suspected", order preserved. */
  lemma {:induction false} LiveTokensFilterCore(view: seq<Member>, suspects: seq<string>, current: seq<string>)
    ensures LiveTokens(view, suspects, current) == LiveFilter(CoreTokens(view), suspects, current)
  {
    if |view| > 0 {
      LiveTokensFilterCore(view[1..], suspects, current);
      if view[0].memberType == CORE_TYPE {
        assert CoreTokens(view) == [view[0].token] + CoreTokens(view[1..]);
        assert CoreTokens(view)[1..] == CoreTokens(view[1..]);
      }
    }
  }

  /** The first element of `xs` that is in `live`, or None. */
  function FirstLive(xs: seq<string>, live: seq<string>): (r: Option<string>)
    ensures r.None? <==> forall k :: 0 <= k < |xs| ==> xs[k] !in live
    ensures r.Some? ==> r.value in live && r.value in xs
  {
    if |xs| == 0 then None
    else if xs[0] in live then Some(xs[0])
    else
      assert forall k :: 0 < k < |xs| ==> xs[k] == xs[1..][k - 1];
      FirstLive(xs[1..], live)
  }

  /** FirstLive picks the live element of lowest index: every element before it is not live. */
  lemma {:induction false} FirstLiveIsFirst(xs: seq<string>, live: seq<string>)
    ensures var r := FirstLive(xs, live);
            r.Some? ==> exists k :: 0 <= k < |xs| && xs[k] == r.value
                                    && forall j :: 0 <= j < k ==> xs[j] !in live
  {
    if |xs| > 0 && xs[0] !in live {
      FirstLiveIsFirst(xs[1..], live);
      var r := FirstLive(xs, live);
      if r.Some? {
        var k :| 0 <= k < |xs[1..]| && xs[1..][k] == r.value && forall j :: 0 <= j < k ==> xs[1..][j] !in live;
        assert xs[k + 1] == r.value;
        assert forall j :: 0 <= j < k + 1 ==> xs[j] !in live by {
          assert forall j :: 1 <= j < k + 1 ==> xs[j] == xs[1..][j - 1];
        }
      }
    }
  }

  /**
   * One pass of the SIMPLESELECT loop from index `i` on, with `acc` the
   * recoverer chosen so far. The loop does not stop at a match: a later
   * occurrence of the failed token can overwrite an earlier choice, and a
   * match that finds no live successor keeps the earlier choice.
   */
  function SimpleScan(core: seq<string>, live: seq<string>, failed: string, i: nat, acc: Option<string>): (r: Option<string>)
    requires i <= |core|
    ensures r.Some? ==> r == acc || (r.value in live && r.value in core)
    decreases |core| - i
  {
    if i == |core| then acc
    else
      var next :=
        if core[i] != failed then acc
        else if i == |core| - 1 then
          (if core[0] in live then Some(core[0]) else acc)
        else
          var f := FirstLive(core[i + 1..], live);
          if f.Some? then f else acc;
      SimpleScan(core, live, failed, i + 1, next)
  }

  /** SIMPLESELECT: the chronological successor of the failed member, with the first-live fallback. */
  function SimpleRecoverer(core: seq<string>, live: seq<string>, failed: string): (r: Option<string>)
    ensures r.Some? ==> r.value in live && r.value in core
    ensures r.None? <==> forall k :: 0 <= k < |core| ==> core[k] !in live
  {
    var scanned := SimpleScan(core, live, failed, 0, None);
    if scanned.None? then FirstLive(core, live) else scanned
  }

  /** The recoverer chosen in `mode`; HOSTSELECT chooses nobody. */
  function Recoverer(mode: Mode, view: seq<Member>, failed: string, suspects: seq<string>, current: seq<string>): Option<string>
  {
    var core := CoreTokens(view);
    var live := LiveTokens(view, suspects, current);
    match mode
    case SIMPLESELECT => SimpleRecoverer(core, live, failed)
    case FIRSTLIVESELECT => FirstLive(core, live)
    case HOSTSELECT => None
  }

  /** The recovery state string `RECOVERY_SERVER_APPOINTED|<millis>`. */
  function AppointedState(now: nat): (s: string)
    ensures |s| > |RECOVERY_SERVER_APPOINTED| + 1
    ensures s[..|RECOVERY_SERVER_APPOINTED| + 1] == RECOVERY_SERVER_APPOINTED + "|"
    ensures forall k :: |RECOVERY_SERVER_APPOINTED| + 1 <= k < |s| ==> '0' <= s[k] <= '9'
  {
    RECOVERY_SERVER_APPOINTED + "|" + Decimal(now)
  }

  /**
   * The writes made to record `recoverer` for `failed`: none for a watchdog,
   * otherwise one per registered component, in registration order, each
   * attempted whether or not an earlier one was rejected.
   */
  predicate SelectionLog(writes: seq<CacheWrite>, recoverer: string, failed: string, ctx: Context)
  {
    |writes| == (if ctx.isWatchdog then 0 else |ctx.components|)
    && forall k :: 0 <= k < |writes| ==>
         writes[k] == CacheWrite(ctx.components[k], recoverer, failed, AppointedState(ctx.now),
                                 ctx.components[k] !in ctx.rejecting)
  }

  /** `setRecoverySelectionState`: writes the selection into the distributed state cache. */
  method SetRecoverySelectionState(recoverer: string, failed: string, ctx: Context) returns (writes: seq<CacheWrite>)
    ensures SelectionLog(writes, recoverer, failed, ctx)
  {
    writes := [];
    if ctx.isWatchdog {
      return;
    }
    var state := AppointedState(ctx.now);
    var i := 0;
    while i < |ctx.components|
      invariant 0 <= i <= |ctx.components|
      invariant |writes| == i
      invariant forall k :: 0 <= k < i ==>
                  writes[k] == CacheWrite(ctx.components[k], recoverer, failed, state,
                                          ctx.components[k] !in ctx.rejecting)
    {
      var component := ctx.components[i];
      // a GMSException from addToCache is logged and the loop goes on
      var accepted := component !in ctx.rejecting;
      writes := writes + [CacheWrite(component, recoverer, failed, state, accepted)];
      i := i + 1;
    }
  }

  /**
   * `resolveRecoveryTarget`: true iff this process is the recoverer. Every
   * member that finds a recoverer records the selection, whether or not it
   * is that recoverer itself.
   */
  method ResolveRecoveryTarget(mode: Option<Mode>, view: seq<Member>, failed: string, ctx: Context)
    returns (recover: bool, writes: seq<CacheWrite>)
    ensures var r := Recoverer(EffectiveMode(mode), view, failed, ctx.suspects, ctx.currentMembers);
            && (recover <==> r == Some(ctx.self))
            && (r.None? ==> writes == [])
            && (r.Some? ==> SelectionLog(writes, r.value, failed, ctx))
    ensures EffectiveMode(mode) == HOSTSELECT ==> !recover && writes == []
  {
    var m := if mode.None? then DEFAULT_MODE else mode.value;
    var core := CoreTokens(view);
    var live := LiveTokens(view, ctx.suspects, ctx.currentMembers);
    var recoverer: Option<string>;
    match m {
      case SIMPLESELECT =>
        recoverer := SimpleRecoverer(core, live, failed);
      case FIRSTLIVESELECT =>
        recoverer := FirstLive(core, live);
      case HOSTSELECT =>
        recover := false;
        writes := [];
        return;
    }
    recover := false;
    writes := [];
    if recoverer.Some? {
      if recoverer.value == ctx.self {
        recover := true;
      }
      writes := SetRecoverySelectionState(recoverer.value, failed, ctx);
    }
  }

  // ---------------------------------------------------------------------
  // Properties of the selection

  /** Any recoverer is a live CORE member of the prior view: current and not suspected. */
  lemma RecovererIsLiveCore(mode: Mode, view: seq<Member>, failed: string, suspects: seq<string>, current: seq<string>)
    ensures var r := Recoverer(mode, view, failed, suspects, current);
            r.Some? ==> r.value in CoreTokens(view) && r.value in current && r.value !in suspects
  {
    LiveTokensFilterCore(view, suspects, current);
  }

  /** In SIMPLESELECT and FIRSTLIVESELECT a recoverer exists iff the live cache is non-empty. */
  lemma RecovererExistsIffLive(mode: Mode, view: seq<Member>, failed: string, suspects: seq<string>, current: seq<string>)
    requires mode != HOSTSELECT
    ensures Recoverer(mode, view, failed, suspects, current).Some? <==> |LiveTokens(view, suspects, current)| > 0
  {
    var core := CoreTokens(view);
    var live := LiveTokens(view, suspects, current);
    LiveTokensFilterCore(view, suspects, current);
    if |live| > 0 {
      assert live[0] in core;
      var k :| 0 <= k < |core| && core[k] == live[0];
      assert core[k] in live;
    }
  }

  /**
   * Members that evaluate the same inputs agree: when the live cache is
   * non-empty, exactly one token makes the evaluation return true, and it
   * is a live token.
   */
  lemma ExactlyOneRecoverer(mode: Mode, view: seq<Member>, failed: string, suspects: seq<string>, current: seq<string>)
    requires mode != HOSTSELECT
    requires |LiveTokens(view, suspects, current)| > 0
    ensures exists s :: s in LiveTokens(view, suspects, current)
                        && Recoverer(mode, view, failed, suspects, current) == Some(s)
                        && forall s' :: Recoverer(mode, view, failed, suspects, current) == Some(s') ==> s' == s
  {
    RecovererExistsIffLive(mode, view, failed, suspects, current);
    var r := Recoverer(mode, view, failed, suspects, current);
    LiveTokensFilterCore(view, suspects, current);
    assert r.value in LiveTokens(view, suspects, current);
  }

  /** Indices that do not hold the failed token leave the SIMPLESELECT choice unchanged. */
  lemma {:induction false} ScanSkips(core: seq<string>, live: seq<string>, failed: string, i: nat, acc: Option<string>)
    requires i <= |core|
    requires forall j :: i <= j < |core| ==> core[j] != failed
    ensures SimpleScan(core, live, failed, i, acc) == acc
    decreases |core| - i
  {
    if i < |core| {
      ScanSkips(core, live, failed, i + 1, acc);
    }
  }

  /** The scan result when the failed token occurs exactly once, at index `p`. */
  lemma ScanSingle(core: seq<string>, live: seq<string>, failed: string, p: nat)
    requires p < |core| && core[p] == failed
    requires forall j :: 0 <= j < |core| && j != p ==> core[j] != failed
    ensures SimpleScan(core, live, failed, 0, None) ==
              if p == |core| - 1 then (if core[0] in live then Some(core[0]) else None)
              else FirstLive(core[p + 1..], live)
  {
    ScanSkipsPrefix(core, live, failed, 0, p);
    var next :=
      if p == |core| - 1 then (if core[0] in live then Some(core[0]) else None)
      else FirstLive(core[p + 1..], live);
    ScanSkips(core, live, failed, p + 1, next);
  }

  /** Scanning the indices before the single match, all different from `failed`, keeps None. */
  lemma {:induction false} ScanSkipsPrefix(core: seq<string>, live: seq<string>, failed: string, i: nat, p: nat)
    requires i <= p < |core|
    requires forall j :: i <= j < p ==> core[j] != failed
    ensures SimpleScan(core, live, failed, i, None) == SimpleScan(core, live, failed, p, None)
    decreases p - i
  {
    if i < p {
      ScanSkipsPrefix(core, live, failed, i + 1, p);
    }
  }

  /**
   * SIMPLESELECT, failed member at a non-last core index `p`: the first live
   * core member after `p`; if there is none, the first live core member.
   */
  lemma SimpleSelectNonLast(view: seq<Member>, failed: string, suspects: seq<string>, current: seq<string>, p: nat)
    requires var core := CoreTokens(view);
             p < |core| - 1 && core[p] == failed
             && forall j :: 0 <= j < |core| && j != p ==> core[j] != failed
    ensures var core := CoreTokens(view);
            var live := LiveTokens(view, suspects, current);
            var after := FirstLive(core[p + 1..], live);
            Recoverer(SIMPLESELECT, view, failed, suspects, current) ==
              if after.Some? then after else FirstLive(core, live)
  {
    ScanSingle(CoreTokens(view), LiveTokens(view, suspects, current), failed, p);
  }

  /**
   * SIMPLESELECT, failed member last in the core list: core element 0 if it
   * is live, otherwise the first live core member (which is then also what
   * the fallback yields).
   */
  lemma SimpleSelectLast(view: seq<Member>, failed: string, suspects: seq<string>, current: seq<string>)
    requires var core := CoreTokens(view);
             |core| > 0 && core[|core| - 1] == failed
             && forall j :: 0 <= j < |core| - 1 ==> core[j] != failed
    ensures var core := CoreTokens(view);
            var live := LiveTokens(view, suspects, current);
            Recoverer(SIMPLESELECT, view, failed, suspects, current) ==
              if core[0] in live then Some(core[0]) else FirstLive(core, live)
  {
    var core := CoreTokens(view);
    ScanSingle(core, LiveTokens(view, suspects, current), failed, |core| - 1);
  }

  /** SIMPLESELECT, failed token absent from the core list: the first live core member. */
  lemma SimpleSelectAbsent(view: seq<Member>, failed: string, suspects: seq<string>, current: seq<string>)
    requires failed !in CoreTokens(view)
    ensures Recoverer(SIMPLESELECT, view, failed, suspects, current)
              == FirstLive(CoreTokens(view), LiveTokens(view, suspects, current))
  {
    ScanSkips(CoreTokens(view), LiveTokens(view, suspects, current), failed, 0, None);
  }

  /** FIRSTLIVESELECT: the first live core member in prior-view order, whatever failed. */
  lemma FirstLiveSelectIgnoresFailed(view: seq<Member>, failed1: string, failed2: string, suspects: seq<string>, current: seq<string>)
    ensures Recoverer(FIRSTLIVESELECT, view, failed1, suspects, current)
              == Recoverer(FIRSTLIVESELECT, view, failed2, suspects, current)
    ensures var r := Recoverer(FIRSTLIVESELECT, view, failed1, suspects, current);
            var core := CoreTokens(view);
            r.Some? ==> exists k :: 0 <= k < |core| && core[k] == r.value
                                    && forall j :: 0 <= j < k ==> core[j] !in current || core[j] in suspects
  {
    LiveTokensFilterCore(view, suspects, current);
    FirstLiveIsFirst(CoreTokens(view), LiveTokens(view, suspects, current));
  }
}
