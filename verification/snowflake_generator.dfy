/** The snowflake id generator object: the constants of its class, the four mutable sequencer fields
    and an injected millisecond clock. One class covers the three Java generators; the factory
    methods at the end pick their layouts. */
module SnowflakeIdGenerator {
  import opened Wrappers
  import opened Arith
  import opened SnowflakeSpec

  class SnowflakeGenerator {
    const layout: Layout
    /** `START_EPOCH`: final, assigned once when the generator is built. */
    const startEpoch: int
    const machineId: int
    const backupMachineId: int

    /** The injected clock: the readings `currentMillisTimestamp()` returns, in order, and the index
        of the next one. Advancing `clockPos` is the passage of time. */
    const clock: seq<int>
    var clockPos: nat

    var lastTimestamp: int
    var curMillSequence: int
    var backupMachineLastTimestamp: int
    var backupMachineCurMillSequence: int

    /** Every id returned so far by the primary and by the backup sequencer. */
    ghost var issued: set<int>
    ghost var backupIssued: set<int>

    function Config(): SnowflakeSpec.Config {
      SnowflakeSpec.Config(layout, startEpoch, machineId, backupMachineId)
    }

    function Primary(): Sequencer reads this { Sequencer(lastTimestamp, curMillSequence) }

    function Backup(): Sequencer reads this { Sequencer(backupMachineLastTimestamp, backupMachineCurMillSequence) }

    /** The object invariant: validated machine ids, sequences in range, and every id issued so far
        carries its role's machine field and is at most the id of that role's current state. */
    ghost predicate Valid()
      reads this
    {
      && ValidConfig(Config())
      && InRange(layout, Primary()) && InRange(layout, Backup())
      && clockPos <= |clock|
      && (forall id :: id in issued ==>
            MachineOf(layout, id) == machineId && id <= IdOf(Config(), machineId, Primary()))
      && (forall id :: id in backupIssued ==>
            MachineOf(layout, id) == backupMachineId && id <= IdOf(Config(), backupMachineId, Backup()))
    }

    constructor (layout: Layout, machineId: int, backupMachineId: int, startEpoch: int, clock: seq<int>)
      requires layout.machineBits >= 1 && ConstructionError(layout, machineId, backupMachineId) == None
      ensures Valid()
      ensures this.layout == layout && this.startEpoch == startEpoch && this.clock == clock
      ensures this.machineId == machineId && this.backupMachineId == backupMachineId
      ensures Primary() == Fresh && Backup() == Fresh && clockPos == 0
      ensures issued == {} && backupIssued == {}
    {
      this.layout := layout;
      this.startEpoch := startEpoch;
      this.machineId := machineId;
      this.backupMachineId := backupMachineId;
      this.clock := clock;
      clockPos := 0;
      lastTimestamp := -1;
      curMillSequence := 0;
      backupMachineLastTimestamp := -1;
      backupMachineCurMillSequence := 0;
      issued := {};
      backupIssued := {};
    }

    /** `currentMillisTimestamp()`: the next clock reading. */
    method CurrentMillisTimestamp() returns (t: int)
      requires clockPos < |clock|
      modifies this`clockPos
      ensures clockPos == old(clockPos) + 1 && t == clock[old(clockPos)]
    {
      t := clock[clockPos];
      clockPos := clockPos + 1;
    }

    /** `untilNextMillis(last)`: busy-wait for the first reading strictly after `last`. It changes no
        field of the generator; only time (the clock index) moves on. */
    method UntilNextMillis(last: int) returns (t: int)
      requires ExceedsLater(clock, clockPos, last)
      modifies this`clockPos
      ensures t > last
      ensures clockPos == FirstAfter(clock, old(clockPos), last) + 1 && t == clock[clockPos - 1]
    {
      t := CurrentMillisTimestamp();
      while t <= last
        invariant old(clockPos) < clockPos <= |clock| && t == clock[clockPos - 1]
        invariant forall k :: old(clockPos) <= k < clockPos - 1 ==> clock[k] <= last
        invariant t <= last ==> ExceedsLater(clock, clockPos, last)
        decreases |clock| - clockPos
      {
        t := CurrentMillisTimestamp();
      }
    }

    /** `generateId()` returns exactly what `nextId()` returns. */
    method GenerateId() returns (r: Result<int, GeneratorError>)
      requires Valid() && CanStep(clock, clockPos, Primary(), Backup())
      modifies this
      ensures Valid()
      ensures var s := NextStep(Config(), old(Primary()), old(Backup()), clock, old(clockPos));
        r == s.id && Primary() == s.primary && Backup() == s.backup && clockPos == s.pos
      ensures r.Success? ==> r.value !in old(issued) + old(backupIssued)
      ensures issued + backupIssued == old(issued) + old(backupIssued) + (if r.Success? then {r.value} else {})
    {
      r := NextId();
    }

    /** `nextId()`: one id, from the primary sequencer or, after a clock rollback, from the backup.
        Every id returned differs from every id returned before by this generator. */
    method NextId() returns (r: Result<int, GeneratorError>)
      requires Valid() && CanStep(clock, clockPos, Primary(), Backup())
      modifies this
      ensures Valid()
      ensures var s := NextStep(Config(), old(Primary()), old(Backup()), clock, old(clockPos));
        r == s.id && Primary() == s.primary && Backup() == s.backup && clockPos == s.pos
      ensures r.Success? ==> r.value !in old(issued) + old(backupIssued)
      ensures issued + backupIssued == old(issued) + old(backupIssued) + (if r.Success? then {r.value} else {})
    {
      ghost var p0, b0, pos0 := Primary(), Backup(), clockPos;
      ghost var issued0 := issued;
      assert forall x :: x in issued0 ==> MachineOf(layout, x) == machineId && x <= IdOf(Config(), machineId, p0);
      var curTimestamp := CurrentMillisTimestamp();
      if curTimestamp < lastTimestamp {
        r := NextBackId(curTimestamp);
        RollbackPath(Config(), p0, b0, clock, pos0);
        return;
      }
      AdvancePrimary(curTimestamp);
      var id := Pack(layout, lastTimestamp - startEpoch, machineId, curMillSequence);
      assert Primary() == NextStep(Config(), p0, b0, clock, pos0).primary;
      PrimaryPath(Config(), p0, b0, clock, pos0);
      RolesNeverCollide(Config(), Primary(), b0);
      issued := issued + {id};
      forall x | x in issued
        ensures MachineOf(layout, x) == machineId && x <= IdOf(Config(), machineId, Primary())
      {
      }
      r := Success(id);
    }

    /** `nextBackId(curTimestamp)`: the backup sequencer. Beyond the tolerated backward drift it
        throws and changes nothing. */
    method NextBackId(curTimestamp: int) returns (r: Result<int, GeneratorError>)
      requires Valid() && curTimestamp < lastTimestamp && ExceedsLater(clock, clockPos, backupMachineLastTimestamp)
      modifies this
      ensures Valid()
      ensures var s := NextBackStep(Config(), old(Primary()), old(Backup()), curTimestamp, clock, old(clockPos));
        r == s.id && Primary() == s.primary && Backup() == s.backup && clockPos == s.pos
      ensures r.Success? ==> r.value !in old(issued) + old(backupIssued)
      ensures issued + backupIssued == old(issued) + old(backupIssued) + (if r.Success? then {r.value} else {})
    {
      ghost var p0, b0, pos0 := Primary(), Backup(), clockPos;
      ghost var backupIssued0 := backupIssued;
      assert forall x :: x in backupIssued0 ==>
        MachineOf(layout, x) == backupMachineId && x <= IdOf(Config(), backupMachineId, b0);
      BackPath(Config(), p0, b0, curTimestamp, clock, pos0);
      var now := curTimestamp;
      if now < backupMachineLastTimestamp {
        if backupMachineLastTimestamp - now > layout.maxBackward {
          return Failure(ClockMovedBackwards);
        }
        match layout.policy {
          case Extrapolate =>
            backupMachineLastTimestamp := backupMachineLastTimestamp + (backupMachineLastTimestamp - now);
            now := backupMachineLastTimestamp;
            backupMachineCurMillSequence := 0;
          case Clamp =>
            now := backupMachineLastTimestamp;
            AdvanceBackup(now);
        }
      } else {
        AdvanceBackup(now);
      }
      var id := Pack(layout, backupMachineLastTimestamp - startEpoch, backupMachineId, backupMachineCurMillSequence);
      assert Backup() == NextBackStep(Config(), p0, b0, curTimestamp, clock, pos0).backup;
      RolesNeverCollide(Config(), Primary(), Backup());
      backupIssued := backupIssued + {id};
      forall x | x in backupIssued
        ensures MachineOf(layout, x) == backupMachineId && x <= IdOf(Config(), backupMachineId, Backup())
      {
      }
      r := Success(id);
    }

    /** The same-millisecond and later-millisecond branches of `nextId`. */
    method AdvancePrimary(now: int)
      requires InRange(layout, Primary()) && now >= lastTimestamp
      requires ExceedsLater(clock, clockPos, lastTimestamp)
      modifies this`clockPos, this`lastTimestamp, this`curMillSequence
      ensures (Primary(), clockPos) == Advance(layout, old(Primary()), now, clock, old(clockPos))
    {
      if now == lastTimestamp {
        ModSucc(curMillSequence, Pow2(layout.sequenceBits));
        curMillSequence := (curMillSequence + 1) % Pow2(layout.sequenceBits);
        if curMillSequence == 0 {
          var t := UntilNextMillis(lastTimestamp);
          lastTimestamp := t;
        }
      } else {
        lastTimestamp := now;
        curMillSequence := 0;
      }
    }

    /** The same-millisecond and later-millisecond branches of `nextBackId`. */
    method AdvanceBackup(now: int)
      requires InRange(layout, Backup()) && now >= backupMachineLastTimestamp
      requires ExceedsLater(clock, clockPos, backupMachineLastTimestamp)
      modifies this`clockPos, this`backupMachineLastTimestamp, this`backupMachineCurMillSequence
      ensures (Backup(), clockPos) == Advance(layout, old(Backup()), now, clock, old(clockPos))
    {
      if now == backupMachineLastTimestamp {
        ModSucc(backupMachineCurMillSequence, Pow2(layout.sequenceBits));
        backupMachineCurMillSequence := (backupMachineCurMillSequence + 1) % Pow2(layout.sequenceBits);
        if backupMachineCurMillSequence == 0 {
          var t := UntilNextMillis(backupMachineLastTimestamp);
          backupMachineLastTimestamp := t;
        }
      } else {
        backupMachineLastTimestamp := now;
        backupMachineCurMillSequence := 0;
      }
    }
  }

  /** The throwing constructor: the machine ids are range-checked before anything else happens. */
  method Create(layout: Layout, machineId: int, backupMachineId: int, startEpoch: int, clock: seq<int>)
    returns (r: Result<SnowflakeGenerator, GeneratorError>)
    requires layout.machineBits >= 1
    ensures r.Failure? <==> ConstructionError(layout, machineId, backupMachineId).Some?
    ensures r.Failure? ==> Some(r.error) == ConstructionError(layout, machineId, backupMachineId)
    ensures r.Success? ==> (
      fresh(r.value) && r.value.Valid() && r.value.layout == layout
      && r.value.startEpoch == startEpoch && r.value.clock == clock && r.value.clockPos == 0
      && r.value.machineId == machineId && r.value.backupMachineId == backupMachineId
      && r.value.Primary() == Fresh && r.value.Backup() == Fresh
      && r.value.issued == {} && r.value.backupIssued == {})
  {
    var err := ConstructionError(layout, machineId, backupMachineId);
    if err.Some? {
      return Failure(err.value);
    }
    var g := new SnowflakeGenerator(layout, machineId, backupMachineId, startEpoch, clock);
    return Success(g);
  }

  /** `new SnowFlakeIdGenerator54(machineId, backupMachineId)`: machine ids 0..7, backup ids 8..15. */
  method NewSnowFlakeIdGenerator54(machineId: int, backupMachineId: int, startEpoch: int, clock: seq<int>)
    returns (r: Result<SnowflakeGenerator, GeneratorError>)
    ensures r.Success? <==> 0 <= machineId <= 7 && 8 <= backupMachineId <= 15
    ensures r.Success? ==> (
      fresh(r.value) && r.value.Valid() && r.value.layout == Layout54
      && r.value.startEpoch == startEpoch && r.value.Primary() == Fresh && r.value.Backup() == Fresh)
  {
    ConstructionRanges54(machineId, backupMachineId);
    r := Create(Layout54, machineId, backupMachineId, startEpoch, clock);
  }

  /** `new idgenerator.SnowFlakeIdGenerator64(machineId, backupMachineId)`: 0..511 and 512..1023. */
  method NewSnowFlakeIdGenerator64(machineId: int, backupMachineId: int, startEpoch: int, clock: seq<int>)
    returns (r: Result<SnowflakeGenerator, GeneratorError>)
    ensures r.Success? <==> 0 <= machineId <= 511 && 512 <= backupMachineId <= 1023
    ensures r.Success? ==> (
      fresh(r.value) && r.value.Valid() && r.value.layout == Layout64
      && r.value.startEpoch == startEpoch && r.value.Primary() == Fresh && r.value.Backup() == Fresh)
  {
    ConstructionRanges64(machineId, backupMachineId);
    r := Create(Layout64, machineId, backupMachineId, startEpoch, clock);
  }

  /** `new impl.snowflakeidgenerator.SnowFlakeIdGenerator64(machineId, backupMachineId, startTime)`:
      0..255 and 256..511. */
  method NewSnowFlakeIdGenerator64Impl(machineId: int, backupMachineId: int, startEpoch: int, clock: seq<int>)
    returns (r: Result<SnowflakeGenerator, GeneratorError>)
    ensures r.Success? <==> 0 <= machineId <= 255 && 256 <= backupMachineId <= 511
    ensures r.Success? ==> (
      fresh(r.value) && r.value.Valid() && r.value.layout == Layout64Impl
      && r.value.startEpoch == startEpoch && r.value.Primary() == Fresh && r.value.Backup() == Fresh)
  {
    ConstructionRanges64Impl(machineId, backupMachineId);
    r := Create(Layout64Impl, machineId, backupMachineId, startEpoch, clock);
  }
}
