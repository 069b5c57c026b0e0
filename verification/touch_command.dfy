/**
 * The replication command that refreshes an entry's access time on its
 * replica: it carries the entry's version, access time and maximum idle
 * time, picks its target from the key mapper's replica choices before it
 * is sent, and serialises only the three longs.
 *
 * The key mapper's answer is the parameter `choices`; the serialised form
 * is the byte sequence the custom `writeObject` writes into its object
 * stream (the stream's own block framing is not modelled); the replica
 * store `execute` looks at is a parameter.
 */
module TouchCommand {
  import opened Wrappers
  import opened JavaStrings
  import opened JavaInts

  type Byte = x: int | 0 <= x < 256

  /** The replication opcodes (only the one this command uses is modelled). */
  datatype Opcode = TOUCH

  /** The exceptions this command throws. */
  datatype Error = ArrayIndexOutOfBounds(index: int) | EOF

  const DELIM: char := ':'
  const TWO_64: int := 0x1_0000_0000_0000_0000

  // ---------------------------------------------------------------------
  // DataOutput.writeLong / DataInput.readLong

  function Pow256(n: nat): (p: nat)
    ensures p >= 1
  {
    if n == 0 then 1 else 256 * Pow256(n - 1)
  }

  /** The low `n` bytes of `u`, most significant first. */
  function BigEndian(u: nat, n: nat): (r: seq<Byte>)
    ensures |r| == n
  {
    if n == 0 then [] else BigEndian(u / 256, n - 1) + [u % 256]
  }

  /** The unsigned value of a big-endian byte sequence. */
  function Unsigned(bs: seq<Byte>): nat
  {
    if |bs| == 0 then 0 else Unsigned(bs[..|bs| - 1]) * 256 + bs[|bs| - 1]
  }

  /** Reading back `n` big-endian bytes gives any value below 256^n. */
  lemma {:induction false} UnsignedOfBigEndian(u: nat, n: nat)
    requires u < Pow256(n)
    ensures Unsigned(BigEndian(u, n)) == u
  {
    if n > 0 {
      var bs := BigEndian(u, n);
      var q, d := u / 256, u % 256;
      assert bs[..n - 1] == BigEndian(q, n - 1) && bs[n - 1] == d;
      assert q < Pow256(n - 1) by {
        assert u == q * 256 + d && d >= 0;
      }
      UnsignedOfBigEndian(q, n - 1);
      assert Unsigned(bs) == q * 256 + d;
    }
  }

  /** `writeLong`: the two's-complement value in eight bytes, high byte first. */
  function WriteLong(x: int): (r: seq<Byte>)
    requires LONG_MIN <= x <= LONG_MAX
    ensures |r| == 8
  {
    BigEndian(if x < 0 then x + TWO_64 else x, 8)
  }

  /** `readLong`: eight bytes, high byte first, as a two's-complement long. */
  function ReadLong(bs: seq<Byte>): (x: int)
    requires |bs| == 8
  {
    var u := Unsigned(bs);
    if u >= TWO_64 / 2 then u - TWO_64 else u
  }

  /** `readLong` undoes `writeLong` for every long. */
  lemma ReadWriteLong(x: int)
    requires LONG_MIN <= x <= LONG_MAX
    ensures ReadLong(WriteLong(x)) == x
  {
    assert Pow256(8) == TWO_64;
    UnsignedOfBigEndian(if x < 0 then x + TWO_64 else x, 8);
  }

  predicate IsLong(x: int)
  {
    LONG_MIN <= x <= LONG_MAX
  }

  /** The serialised form: version, access time and maximum idle time, eight bytes each. */
  function Serialized(version: int, accessTime: int, maxIdleTime: int): (r: seq<Byte>)
    requires IsLong(version) && IsLong(accessTime) && IsLong(maxIdleTime)
    ensures |r| == 24
  {
    WriteLong(version) + WriteLong(accessTime) + WriteLong(maxIdleTime)
  }

  /** Reading the three longs back, in the order they were written, gives the three values. */
  lemma SerializedRoundTrip(version: int, accessTime: int, maxIdleTime: int)
    requires IsLong(version) && IsLong(accessTime) && IsLong(maxIdleTime)
    ensures var bs := Serialized(version, accessTime, maxIdleTime);
            ReadLong(bs[0..8]) == version && ReadLong(bs[8..16]) == accessTime && ReadLong(bs[16..24]) == maxIdleTime
  {
    var bs := Serialized(version, accessTime, maxIdleTime);
    assert bs[0..8] == WriteLong(version);
    assert bs[8..16] == WriteLong(accessTime);
    assert bs[16..24] == WriteLong(maxIdleTime);
    ReadWriteLong(version);
    ReadWriteLong(accessTime);
    ReadWriteLong(maxIdleTime);
  }

  // ---------------------------------------------------------------------
  // The replica target

  /**
   * The target `beforeTransmit` picks from the replica choices: null for
   * null choices, else the first field of the colon-separated list; a list
   * that splits into nothing (only colons) has no element 0.
   */
  function FirstChoice(choices: Option<string>): (r: Result<Option<string>, Error>)
    ensures choices.None? ==> r == Success(None)
    ensures choices.Some? && |Split(choices.value, DELIM)| > 0 ==> r == Success(Some(Split(choices.value, DELIM)[0]))
    ensures r.Failure? <==> choices.Some? && |Split(choices.value, DELIM)| == 0
  {
    if choices.None? then Success(None)
    else
      var fields := Split(choices.value, DELIM);
      if |fields| == 0 then Failure(ArrayIndexOutOfBounds(0)) else Success(Some(fields[0]))
  }

  /** For a list the key mapper joins from non-empty instance names, the target is the first name. */
  lemma FirstChoiceOfJoined(names: seq<string>)
    requires |names| >= 1
    requires forall k :: 0 <= k < |names| ==> names[k] != "" && DELIM !in names[k]
    ensures FirstChoice(Some(Join(names, DELIM))) == Success(Some(names[0]))
  {
    SplitJoin(names, DELIM);
  }

  /** A list made only of colons splits into nothing, so picking the target fails. */
  lemma OnlyDelimitersFail()
    ensures FirstChoice(Some([DELIM])).Failure?
  {
    assert Fields([DELIM], DELIM) == ["", ""] by {
      assert IndexOf([DELIM], DELIM) == 0;
      assert [DELIM][1..] == "";
    }
    assert DropTrailingEmpty(["", ""]) == [] by {
      assert ["", ""][..1] == [""];
      assert [""][..0] == [];
    }
  }

  class TouchCommand {
    const opcode: Opcode
    var key: Option<string>
    var version: int
    var accessTime: int
    var maxIdleTime: int
    var replicaChoices: Option<string>
    var targetName: Option<string>

    /** The no-argument constructor used by deserialisation: a TOUCH command with no key. */
    constructor Empty()
      ensures opcode == TOUCH && key.None? && version == 0 && accessTime == 0 && maxIdleTime == 0
      ensures replicaChoices.None? && targetName.None?
    {
      opcode := TOUCH;
      key := None;
      version := 0;
      accessTime := 0;
      maxIdleTime := 0;
      replicaChoices := None;
      targetName := None;
    }

    /** A TOUCH command for key `k` with the entry's version, access time and maximum idle time. */
    constructor(k: string, version: int, accessTime: int, maxIdleTime: int)
      ensures opcode == TOUCH && key == Some(k)
      ensures this.version == version && this.accessTime == accessTime && this.maxIdleTime == maxIdleTime
      ensures replicaChoices.None? && targetName.None?
    {
      opcode := TOUCH;
      key := Some(k);
      this.version := version;
      this.accessTime := accessTime;
      this.maxIdleTime := maxIdleTime;
      replicaChoices := None;
      targetName := None;
    }

    /**
     * `beforeTransmit`: records the key mapper's replica choices, targets
     * the first of them, and reports whether there is a target; choices
     * made only of colons throw.
     */
    method BeforeTransmit(choices: Option<string>) returns (r: Result<bool, Error>)
      modifies this`replicaChoices, this`targetName
      ensures replicaChoices == choices
      ensures FirstChoice(choices).Failure? ==> r == Failure(FirstChoice(choices).error) && targetName == old(targetName)
      ensures FirstChoice(choices).Success? ==>
                targetName == FirstChoice(choices).value && r == Success(targetName.Some?)
      ensures r == Success(true) <==> choices.Some? && |Split(choices.value, DELIM)| > 0
    {
      replicaChoices := choices;
      if choices.None? {
        targetName := None;
      } else {
        var fields := Split(choices.value, DELIM);
        if |fields| == 0 {
          return Failure(ArrayIndexOutOfBounds(0));
        }
        targetName := Some(fields[0]);
      }
      r := Success(targetName.Some?);
    }

    /** `writeObject`: only the three longs are written; the key and the replica choices are not. */
    method WriteObject() returns (bytes: seq<Byte>)
      requires IsLong(version) && IsLong(accessTime) && IsLong(maxIdleTime)
      ensures bytes == Serialized(version, accessTime, maxIdleTime)
    {
      bytes := [];
      bytes := bytes + WriteLong(version);
      bytes := bytes + WriteLong(accessTime);
      bytes := bytes + WriteLong(maxIdleTime);
    }

    /**
     * `readObject`: reads the three longs in order; a stream that ends
     * early throws, after the longs read so far were stored.
     */
    method ReadObject(input: seq<Byte>) returns (r: Outcome<Error>)
      modifies this`version, this`accessTime, this`maxIdleTime
      ensures r.Pass? <==> |input| >= 24
      ensures r.Fail? ==> r.error == EOF
      ensures version == if |input| >= 8 then ReadLong(input[0..8]) else old(version)
      ensures accessTime == if |input| >= 16 then ReadLong(input[8..16]) else old(accessTime)
      ensures maxIdleTime == if |input| >= 24 then ReadLong(input[16..24]) else old(maxIdleTime)
    {
      if |input| < 8 {
        return Fail(EOF);
      }
      version := ReadLong(input[0..8]);
      if |input| < 16 {
        return Fail(EOF);
      }
      accessTime := ReadLong(input[8..16]);
      if |input| < 24 {
        return Fail(EOF);
      }
      maxIdleTime := ReadLong(input[16..24]);
      r := Pass;
    }

    /** `execute`: looks the key up in the replica store and changes nothing, found or not. */
    method Execute(initiator: string, replicaStore: map<string, int>) returns (store: map<string, int>)
      ensures store == replicaStore
    {
      store := replicaStore;
      if key.Some? && key.value in replicaStore {
        // the entry's state update is not implemented
      }
    }
  }
}
