/**
 * DefaultKeyMapper: maps an application key to the member that owns it and
 * to its replica choice, by indexing arrays that are rebuilt on every view
 * change. Keys are represented by their hash identity only; the
 * read/write lock is left out, so each call is one atomic step.
 */
module KeyMapper {
  import opened Wrappers
  import opened JavaStrings

  /** `_EMPTY_REPLICAS`: the replica-choice string used for an empty view. */
  const EMPTY_REPLICAS: string := ""

  /** The hard-coded `choiceLimit` of the replica-choice loop. */
  const CHOICE_LIMIT: nat := 1

  /** The delimiter between replica choices. */
  const DELIM: char := ':'

  /**
   * What the mapper sees of a key: `key.hashCode()`, and for a HashableKey
   * also `getHashKey().hashCode()` when `getHashKey()` is not null.
   */
  datatype Key =
    | PlainKey(hashCode: int)
    | HashableKey(hashCode: int, hashKeyHash: Option<int>)

  /**
   * `getHashCodeForKey`: the hash key's hash when the key supplies one,
   * the key's own hash otherwise. All three lookups use this one rule.
   */
  function EffectiveHash(key: Key): (hc: int)
    ensures key.HashableKey? && key.hashKeyHash.Some? ==> hc == key.hashKeyHash.value
    ensures key.PlainKey? || key.hashKeyHash.None? ==> hc == key.hashCode
  {
    match key
    case PlainKey(h) => h
    case HashableKey(h, hk) => if hk.Some? then hk.value else h
  }

  /** Java's `%` on int: the remainder takes the sign of the dividend. */
  function JavaRem(a: int, n: int): int
    requires n > 0
  {
    if a >= 0 then a % n else -((-a) % n)
  }

  function Abs(a: int): nat
  {
    if a < 0 then -a else a
  }

  /** `Math.abs(hc % n)`: the array index a hash selects. */
  function Slot(hc: int, n: int): (i: nat)
    requires n > 0
    ensures i < n
    ensures i == Abs(hc) % n
  {
    Abs(JavaRem(hc, n))
  }

  /** The member tokens a replica-choice string names, starting at `i` and wrapping. */
  function Choices(m: seq<string>, i: nat, count: nat): (r: seq<string>)
    requires |m| > 0
    ensures |r| == count
    ensures forall t :: 0 <= t < count ==> r[t] == m[(i + t) % |m|]
  {
    seq(count, t requires 0 <= t < count => m[(i + t) % |m|])
  }

  lemma {:induction false} JoinSnoc(ts: seq<string>, x: string, d: char)
    requires |ts| >= 1
    ensures Join(ts + [x], d) == Join(ts, d) + [d] + x
    decreases |ts|
  {
    if |ts| == 1 {
      assert ts + [x] == [ts[0], x];
    } else {
      assert (ts + [x])[1..] == ts[1..] + [x];
      JoinSnoc(ts[1..], x, d);
    }
  }

  /** How many choices the loop collects for a view of `n` members. */
  function ChoiceCount(n: nat, choiceLimit: nat): nat
  {
    if n < choiceLimit then n else choiceLimit
  }

  /**
   * With the hard-coded limit of one choice, the choice string at index `i`
   * is the member at `i` itself, not the next member of the ring.
   */
  lemma ChoiceIsSelf(m: seq<string>, i: nat)
    requires i < |m|
    ensures Join(Choices(m, i, ChoiceCount(|m|, CHOICE_LIMIT)), DELIM) == m[i]
  {
    assert Choices(m, i, 1) == [m[i % |m|]];
  }

  /** The three arrays a mapper holds. */
  datatype KeyMapperState = KeyMapperState(
    members: seq<string>,
    replicaChoices: seq<string>,
    previousMembers: seq<string>)

  /**
   * What `onViewChange` leaves behind, stated without reference to how it
   * is computed: sorted distinct current members without the local name,
   * one choice string per member (the sentinel for an empty view), sorted
   * distinct previous members without the departed member on a leave.
   */
  ghost predicate ViewChangeResult(myName: string, memberName: string,
                                   current: seq<string>, previous: seq<string>,
                                   isJoinEvent: bool, st: KeyMapperState)
  {
    && SortedSetOf(st.members, (set x | x in current) - {myName})
    && (|st.members| == 0 ==> st.replicaChoices == [EMPTY_REPLICAS])
    && (|st.members| > 0 ==>
          |st.replicaChoices| == |st.members|
          && forall i :: 0 <= i < |st.members| ==> st.replicaChoices[i] == st.members[i])
    && SortedSetOf(st.previousMembers,
                   (set x | x in previous) - (if isJoinEvent then {} else {memberName}))
  }

  /**
   * The outcome of a view change depends only on the sets of names passed
   * in: not on their order, not on duplicates, not on the mapper's state
   * before the call. In particular a repeated call changes nothing.
   */
  lemma ViewChangeDeterministic(myName: string, memberName: string,
                                current1: seq<string>, current2: seq<string>,
                                previous1: seq<string>, previous2: seq<string>,
                                isJoinEvent: bool, st1: KeyMapperState, st2: KeyMapperState)
    requires (set x | x in current1) == (set x | x in current2)
    requires (set x | x in previous1) == (set x | x in previous2)
    requires ViewChangeResult(myName, memberName, current1, previous1, isJoinEvent, st1)
    requires ViewChangeResult(myName, memberName, current2, previous2, isJoinEvent, st2)
    ensures st1 == st2
  {
    SortedSetUnique(st1.members, st2.members, (set x | x in current1) - {myName});
    SortedSetUnique(st1.previousMembers, st2.previousMembers,
                    (set x | x in previous1) - (if isJoinEvent then {} else {memberName}));
    if |st1.members| > 0 {
      assert st1.replicaChoices == st2.replicaChoices;
    }
  }

  /**
   * The inner loop of `onViewChange`: walks `limit` members forward from
   * `i`, wrapping, joining them with ':'. The loop condition
   * `j < memSz && choiceLimit-- > 0` decrements even when it fails.
   * `onViewChange` runs it with the hard-coded limit CHOICE_LIMIT.
   */
  method BuildChoiceString(members: seq<string>, i: nat, limit: nat) returns (sb: string)
    requires i < |members|
    ensures sb == Join(Choices(members, i, ChoiceCount(|members|, limit)), DELIM)
  {
    var memSz := |members|;
    var count := ChoiceCount(memSz, limit);
    sb := "";
    var index := i;
    var delim := "";
    var choiceLimit: int := limit;
    var j := 0;
    while true
      invariant 0 <= j <= count
      invariant index == i + j
      invariant choiceLimit == limit - j
      invariant delim == if j == 0 then "" else [DELIM]
      invariant sb == Join(Choices(members, i, j), DELIM)
      decreases memSz - j
    {
      if !(j < memSz) {
        break;
      }
      var c := choiceLimit;
      choiceLimit := choiceLimit - 1;
      if !(c > 0) {
        break;
      }
      if j > 0 {
        JoinSnoc(Choices(members, i, j), members[index % memSz], DELIM);
        assert Choices(members, i, j + 1) == Choices(members, i, j) + [members[index % memSz]];
      } else {
        assert Choices(members, i, 1) == [members[index % memSz]];
      }
      sb := sb + delim + members[index % memSz];
      index := index + 1;
      delim := [DELIM];
      j := j + 1;
    }
  }

  /**
   * The replica-choice array of `onViewChange`: the sentinel alone for an
   * empty view, else one choice string per member index.
   */
  method BuildReplicaChoices(members: seq<string>, limit: nat) returns (replicaChoices: seq<string>)
    ensures |members| == 0 ==> replicaChoices == [EMPTY_REPLICAS]
    ensures |members| > 0 ==>
              |replicaChoices| == |members|
              && forall i :: 0 <= i < |members| ==>
                   replicaChoices[i] == Join(Choices(members, i, ChoiceCount(|members|, limit)), DELIM)
  {
    var memSz := |members|;
    if memSz == 0 {
      replicaChoices := [EMPTY_REPLICAS];
    } else {
      var choices := new string[memSz];
      for i := 0 to memSz
        invariant forall k :: 0 <= k < i ==> choices[k] == Join(Choices(members, k, ChoiceCount(memSz, limit)), DELIM)
      {
        choices[i] := BuildChoiceString(members, i, limit);
      }
      replicaChoices := choices[..];
    }
  }

  class DefaultKeyMapper {
    const myName: string
    const groupName: string
    var members: seq<string>
    /** `previuousAliveAndReadyMembers` */
    var previousMembers: seq<string>
    var replicaChoices: seq<string>

    ghost predicate Valid()
      reads this
    {
      && StrictlySorted(members)
      && myName !in members
      && (|members| > 0 ==>
            |replicaChoices| == |members|
            && forall i :: 0 <= i < |members| ==> replicaChoices[i] == members[i])
      && StrictlySorted(previousMembers)
    }

    function State(): KeyMapperState
      reads this
    {
      KeyMapperState(members, replicaChoices, previousMembers)
    }

    constructor (myName: string, groupName: string)
      ensures Valid()
      ensures this.myName == myName && this.groupName == groupName
      ensures members == [] && previousMembers == [] && replicaChoices == []
    {
      this.myName := myName;
      this.groupName := groupName;
      members := [];
      previousMembers := [];
      replicaChoices := [];
    }

    /**
     * `getMappedInstance`: no owner (null) for an empty view, otherwise the
     * member at `|hc % n|`, which is a current member and never the local one.
     */
    function GetMappedInstance(key: Key): (r: Option<string>)
      reads this
      requires Valid()
      ensures r.None? <==> |members| == 0
      ensures r.Some? ==> r.value in members && r.value != myName
      ensures r.Some? ==> r.value == members[Slot(EffectiveHash(key), |members|)]
    {
      if |members| == 0 then None
      else Some(members[Slot(EffectiveHash(key), |members|)])
    }

    /**
     * `getReplicaChoices`: the sentinel "" for an empty view, otherwise the
     * choice string at the same index as the owner, which is the owner.
     */
    function GetReplicaChoices(key: Key): (r: string)
      reads this
      requires Valid()
      ensures |members| == 0 ==> r == EMPTY_REPLICAS
      ensures |members| > 0 ==> GetMappedInstance(key) == Some(r)
    {
      if |members| == 0 then EMPTY_REPLICAS
      else replicaChoices[Slot(EffectiveHash(key), |members|)]
    }

    /**
     * `findReplicaInstance`: a caller's hint is split on ':'; without one,
     * the key is looked up in the previous view, "" standing for none.
     */
    function FindReplicaInstance(key: Key, keyMappingInfo: Option<string>): (r: seq<string>)
      reads this
      ensures keyMappingInfo.Some? ==> r == Split(keyMappingInfo.value, DELIM)
      ensures keyMappingInfo.None? && |previousMembers| == 0 ==> r == [EMPTY_REPLICAS]
      ensures keyMappingInfo.None? && |previousMembers| > 0 ==>
                |r| == 1 && r[0] in previousMembers
                && r[0] == previousMembers[Slot(EffectiveHash(key), |previousMembers|)]
    {
      if keyMappingInfo.Some? then Split(keyMappingInfo.value, DELIM)
      else if |previousMembers| == 0 then [EMPTY_REPLICAS]
      else [previousMembers[Slot(EffectiveHash(key), |previousMembers|)]]
    }

    /**
     * `onViewChange`: rebuilds the member array, the replica-choice array
     * (nested loops over a StringBuilder) and the previous-view array.
     */
    method OnViewChange(memberName: string, current: seq<string>, previous: seq<string>,
                        isJoinEvent: bool)
      modifies this
      ensures Valid()
      ensures ViewChangeResult(myName, memberName, current, previous, isJoinEvent, State())
      ensures |members| > 0 ==>
                forall i :: 0 <= i < |members| ==>
                  replicaChoices[i] ==
                    Join(Choices(members, i, ChoiceCount(|members|, CHOICE_LIMIT)), DELIM)
    {
      var currentMemberSet := SortedDistinct(current);
      currentMemberSet := RemoveSorted(currentMemberSet, myName);
      members := currentMemberSet;

      replicaChoices := BuildReplicaChoices(members, CHOICE_LIMIT);
      if |members| > 0 {
        forall i | 0 <= i < |members|
          ensures replicaChoices[i] == members[i]
        {
          ChoiceIsSelf(members, i);
        }
      }

      var previousView := SortedDistinct(previous);
      if !isJoinEvent {
        previousView := RemoveSorted(previousView, memberName);
      }
      previousMembers := previousView;
    }
  }

  /**
   * Two identical view changes in a row: the second leaves all three arrays
   * as the first left them.
   */
  method RepeatViewChange(m: DefaultKeyMapper, memberName: string,
                          current: seq<string>, previous: seq<string>, isJoinEvent: bool)
    returns (afterFirst: KeyMapperState)
    modifies m
    ensures m.Valid()
    ensures afterFirst == m.State()
  {
    m.OnViewChange(memberName, current, previous, isJoinEvent);
    afterFirst := m.State();
    m.OnViewChange(memberName, current, previous, isJoinEvent);
    ViewChangeDeterministic(m.myName, memberName, current, current, previous, previous,
                            isJoinEvent, afterFirst, m.State());
  }
}
