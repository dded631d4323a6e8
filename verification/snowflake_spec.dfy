/** The snowflake id layout and one `nextId` step of the generators, as pure functions.

    An id is `(ts - START_EPOCH) << (machineBits + sequenceBits) | machine << sequenceBits | sequence`.
    Integers here are unbounded: `Pack` below equals the shift-and-or of the Java code whenever the
    value fits a Java `long` and the machine and sequence fields are in range. */
module SnowflakeSpec {
  import opened Wrappers
  import opened Arith

  /** What the backup sequencer does when the clock is behind its own last timestamp by no more
      than the tolerated drift. */
  datatype RollbackPolicy =
    | Extrapolate  // backupLast := backupLast + drift and the sequence restarts at 0
    | Clamp        // the reading is replaced by backupLast, then the same-millisecond rule applies

  /** The constants of one generator class. */
  datatype Layout = Layout(machineBits: nat, sequenceBits: nat, maxBackward: nat, policy: RollbackPolicy)

  /** idgenerator/SnowFlakeIdGenerator54: 4 machine bits, 12 sequence bits, 1000 ms, extrapolating. */
  const Layout54 := Layout(4, 12, 1000, Extrapolate)
  /** idgenerator/SnowFlakeIdGenerator64: 10 machine bits, 13 sequence bits, 1000 ms, clamping. */
  const Layout64 := Layout(10, 13, 1000, Clamp)
  /** idgenerator/impl/snowflakeidgenerator/SnowFlakeIdGenerator64: 9, 14, 800 ms, extrapolating. */
  const Layout64Impl := Layout(9, 14, 800, Extrapolate)

  datatype GeneratorError =
    | MachineIdOutOfRange        // IllegalArgumentException from the constructor
    | BackupMachineIdOutOfRange  // IllegalArgumentException from the constructor
    | ClockMovedBackwards        // IllegalStateException from nextBackId

  function Pow2(n: nat): (r: nat)
    ensures r >= 1
  {
    if n == 0 then 1 else 2 * Pow2(n - 1)
  }

  lemma {:induction false} Pow2Add(a: nat, b: nat)
    ensures Pow2(a + b) == Pow2(a) * Pow2(b)
  {
    if a > 0 {
      Pow2Add(a - 1, b);
      assert Pow2(a + b) == 2 * Pow2(a - 1 + b);
    }
  }

  /** `MAX_MACHINE_ID = ((1L << MACHINE_ID_BIT) - 1) >> 1` */
  function MaxMachineId(l: Layout): int { (Pow2(l.machineBits) - 1) / 2 }
  /** `MIN_BACKUP_MACHINE_ID = (1L << MACHINE_ID_BIT) >> 1` */
  function MinBackupMachineId(l: Layout): int { Pow2(l.machineBits) / 2 }
  /** `MAX_BACKUP_MACHINE_ID = ~(-1L << MACHINE_ID_BIT)` */
  function MaxBackupMachineId(l: Layout): int { Pow2(l.machineBits) - 1 }

  /** The constructor's range checks, in the order the constructor makes them; `None` means the
      generator is built. */
  function ConstructionError(l: Layout, machineId: int, backupMachineId: int): (r: Option<GeneratorError>)
    requires l.machineBits >= 1
    ensures r == None <==>
      0 <= machineId < Pow2(l.machineBits - 1) <= backupMachineId < Pow2(l.machineBits)
    ensures r == Some(MachineIdOutOfRange) <==> !(0 <= machineId < Pow2(l.machineBits - 1))
  {
    if machineId < 0 || machineId > MaxMachineId(l) then Some(MachineIdOutOfRange)
    else if backupMachineId < MinBackupMachineId(l) || backupMachineId > MaxBackupMachineId(l) then
      Some(BackupMachineIdOutOfRange)
    else None
  }

  lemma ConstructionRanges54(machineId: int, backupMachineId: int)
    ensures ConstructionError(Layout54, machineId, backupMachineId) == None <==>
      0 <= machineId <= 7 && 8 <= backupMachineId <= 15
  {
    assert Pow2(3) == 8 && Pow2(4) == 16;
  }

  lemma ConstructionRanges64(machineId: int, backupMachineId: int)
    ensures ConstructionError(Layout64, machineId, backupMachineId) == None <==>
      0 <= machineId <= 511 && 512 <= backupMachineId <= 1023
  {
    assert Pow2(9) == 512 && Pow2(10) == 1024;
  }

  lemma ConstructionRanges64Impl(machineId: int, backupMachineId: int)
    ensures ConstructionError(Layout64Impl, machineId, backupMachineId) == None <==>
      0 <= machineId <= 255 && 256 <= backupMachineId <= 511
  {
    assert Pow2(8) == 256 && Pow2(9) == 512;
  }

  // ----- bit layout -----

  /** The id for timestamp offset `ts`, machine field `machine` and sequence `sequence`. */
  function Pack(l: Layout, ts: int, machine: int, sequence: int): int {
    ts * Pow2(l.machineBits + l.sequenceBits) + machine * Pow2(l.sequenceBits) + sequence
  }

  /** `id & MAX_INCR_SEQUENCE_BIT` */
  function SequenceOf(l: Layout, id: int): int { id % Pow2(l.sequenceBits) }
  /** `(id >> MACHINE_ID_SHIFT) & ((1 << MACHINE_ID_BIT) - 1)` */
  function MachineOf(l: Layout, id: int): int { (id / Pow2(l.sequenceBits)) % Pow2(l.machineBits) }
  /** `id >> TIMESTAMP_SHIFT` */
  function TimestampOf(l: Layout, id: int): int { id / Pow2(l.machineBits + l.sequenceBits) }

  /** Decomposing a packed id gives back its three fields. */
  lemma PackRoundTrip(l: Layout, ts: int, machine: int, sequence: int)
    requires 0 <= machine < Pow2(l.machineBits) && 0 <= sequence < Pow2(l.sequenceBits)
    ensures SequenceOf(l, Pack(l, ts, machine, sequence)) == sequence
    ensures MachineOf(l, Pack(l, ts, machine, sequence)) == machine
    ensures TimestampOf(l, Pack(l, ts, machine, sequence)) == ts
  {
    Pow2Add(l.machineBits, l.sequenceBits);
    MixedRadix(ts, machine, sequence, Pow2(l.machineBits), Pow2(l.sequenceBits));
  }

  /** The arithmetic behind PackRoundTrip, for any radices M and S. */
  lemma MixedRadix(ts: int, machine: int, sequence: int, M: int, S: int)
    requires 0 <= machine < M && 0 <= sequence < S
    ensures var id := ts * (M * S) + machine * S + sequence;
      id % S == sequence && (id / S) % M == machine && id / (M * S) == ts
  {
    var id := ts * (M * S) + machine * S + sequence;
    var upper := ts * M + machine;
    assert id == upper * S + sequence by {
      assert ts * (M * S) == (ts * M) * S;
      assert (ts * M + machine) * S == (ts * M) * S + machine * S;
    }
    DivModUnique(id, S, upper, sequence);
    DivModUnique(upper, M, ts, machine);
    DigitBound(machine, M, sequence, S);
    DivModUnique(id, M * S, ts, machine * S + sequence);
  }

  /** The packing is strictly monotone in (timestamp, sequence) lexicographically, for a fixed machine. */
  lemma PackMonotone(l: Layout, ts1: int, seq1: int, ts2: int, seq2: int, machine: int)
    requires 0 <= machine < Pow2(l.machineBits)
    requires 0 <= seq1 < Pow2(l.sequenceBits) && 0 <= seq2 < Pow2(l.sequenceBits)
    requires ts1 < ts2 || (ts1 == ts2 && seq1 < seq2)
    ensures Pack(l, ts1, machine, seq1) < Pack(l, ts2, machine, seq2)
  {
    Pow2Add(l.machineBits, l.sequenceBits);
    MixedRadixMonotone(ts1, seq1, ts2, seq2, machine, Pow2(l.machineBits), Pow2(l.sequenceBits));
  }

  lemma MixedRadixMonotone(ts1: int, seq1: int, ts2: int, seq2: int, machine: int, M: int, S: int)
    requires 0 <= machine < M && 0 <= seq1 < S && 0 <= seq2 < S
    requires ts1 < ts2 || (ts1 == ts2 && seq1 < seq2)
    ensures ts1 * (M * S) + machine * S + seq1 < ts2 * (M * S) + machine * S + seq2
  {
    if ts1 < ts2 {
      DigitBound(machine, M, seq1, S);
      MulLe(ts1 + 1, ts2, M * S);
      assert (ts1 + 1) * (M * S) == ts1 * (M * S) + M * S;
    }
  }

  /** Ids packed with different machine fields never coincide. */
  lemma PackMachinesDisjoint(l: Layout, ts1: int, m1: int, seq1: int, ts2: int, m2: int, seq2: int)
    requires 0 <= m1 < Pow2(l.machineBits) && 0 <= m2 < Pow2(l.machineBits) && m1 != m2
    requires 0 <= seq1 < Pow2(l.sequenceBits) && 0 <= seq2 < Pow2(l.sequenceBits)
    ensures Pack(l, ts1, m1, seq1) != Pack(l, ts2, m2, seq2)
  {
    PackRoundTrip(l, ts1, m1, seq1);
    PackRoundTrip(l, ts2, m2, seq2);
  }

  /** With a timestamp offset of `tsBits` bits the id is non-negative and below 2^(tsBits + machineBits + sequenceBits). */
  lemma PackFits(l: Layout, tsBits: nat, ts: int, machine: int, sequence: int)
    requires 0 <= ts < Pow2(tsBits)
    requires 0 <= machine < Pow2(l.machineBits) && 0 <= sequence < Pow2(l.sequenceBits)
    ensures 0 <= Pack(l, ts, machine, sequence) < Pow2(tsBits + l.machineBits + l.sequenceBits)
  {
    Pow2Add(l.machineBits, l.sequenceBits);
    Pow2Add(tsBits, l.machineBits + l.sequenceBits);
    var M, S := Pow2(l.machineBits), Pow2(l.sequenceBits);
    DigitBound(machine, M, sequence, S);
    DigitBound(ts, Pow2(tsBits), machine * S + sequence, M * S);
  }

  /** The 54-bit generator: a 37-bit timestamp offset gives an id in [0, 2^53 - 1]. */
  lemma Ids54Fit53Bits(ts: int, machine: int, sequence: int)
    requires 0 <= ts < Pow2(37) && 0 <= machine < 16 && 0 <= sequence < 4096
    ensures 0 <= Pack(Layout54, ts, machine, sequence) <= Pow2(53) - 1
  {
    assert Pow2(4) == 16 && Pow2(12) == 4096;
    PackFits(Layout54, 37, ts, machine, sequence);
  }

  /** Both 64-bit generators: a 40-bit timestamp offset gives a non-negative Java `long`. */
  lemma Ids64Fit63Bits(l: Layout, ts: int, machine: int, sequence: int)
    requires l == Layout64 || l == Layout64Impl
    requires 0 <= ts < Pow2(40)
    requires 0 <= machine < Pow2(l.machineBits) && 0 <= sequence < Pow2(l.sequenceBits)
    ensures 0 <= Pack(l, ts, machine, sequence) <= Pow2(63) - 1
  {
    assert 40 + l.machineBits + l.sequenceBits == 63;
    PackFits(l, 40, ts, machine, sequence);
  }

  // ----- the clock and the busy-wait -----

  /** Some reading at or after index `from` exceeds `t`: the busy-wait on `t` ends. */
  ghost predicate ExceedsLater(clock: seq<int>, from: nat, t: int) {
    exists j :: from <= j < |clock| && clock[j] > t
  }

  /** The index of the reading `untilNextMillis(t)` returns when it starts reading at `from`. */
  function FirstAfter(clock: seq<int>, from: nat, t: int): (j: nat)
    requires ExceedsLater(clock, from, t)
    ensures from <= j < |clock| && clock[j] > t
    ensures forall k :: from <= k < j ==> clock[k] <= t
    decreases |clock| - from
  {
    if clock[from] > t then from else FirstAfter(clock, from + 1, t)
  }

  // ----- one sequencer (primary or backup) -----

  /** A role's last timestamp and its sequence number within that millisecond. */
  datatype Sequencer = Sequencer(last: int, sequence: int)

  /** The state before the first id: `lastTimestamp = -1L`, sequence `0L`. */
  const Fresh := Sequencer(-1, 0)

  predicate InRange(l: Layout, s: Sequencer) { 0 <= s.sequence < Pow2(l.sequenceBits) }

  /** `a` comes strictly before `b`: lexicographic order on (last, sequence). */
  predicate Before(a: Sequencer, b: Sequencer) {
    a.last < b.last || (a.last == b.last && a.sequence < b.sequence)
  }

  /** The reading `now` is not behind the role's last timestamp. In the same millisecond the sequence
      advances (`(++seq) & MAX`); when it wraps to 0 the role busy-waits from clock index `pos` for a
      later millisecond. A later millisecond is adopted with sequence 0. Returns the new state and the
      clock index after any waiting. */
  function Advance(l: Layout, s: Sequencer, now: int, clock: seq<int>, pos: nat): (Sequencer, nat)
    requires now >= s.last
    requires ExceedsLater(clock, pos, s.last)
  {
    if now == s.last then
      var next := (s.sequence + 1) % Pow2(l.sequenceBits);
      if next == 0 then
        var j := FirstAfter(clock, pos, s.last);
        (Sequencer(clock[j], 0), j + 1)
      else (Sequencer(s.last, next), pos)
    else (Sequencer(now, 0), pos)
  }

  /** Every advance moves the role strictly forward, keeps the sequence in range and consumes
      readings only while busy-waiting. */
  lemma AdvanceMovesForward(l: Layout, s: Sequencer, now: int, clock: seq<int>, pos: nat)
    requires InRange(l, s) && now >= s.last && ExceedsLater(clock, pos, s.last)
    ensures var (s', pos') := Advance(l, s, now, clock, pos);
      Before(s, s') && InRange(l, s') && pos <= pos' <= |clock| && s'.last >= now
  {
    ModSucc(s.sequence, Pow2(l.sequenceBits));
  }

  /** Same millisecond: the sequence becomes (seq + 1) mod 2^sequenceBits; on wrap-around the new last
      timestamp is the first later reading that exceeds the old one, and everything read before it
      was not beyond the old timestamp. */
  lemma AdvanceSameMillisecond(l: Layout, s: Sequencer, clock: seq<int>, pos: nat)
    requires InRange(l, s) && ExceedsLater(clock, pos, s.last)
    ensures var (s', pos') := Advance(l, s, s.last, clock, pos);
      if s.sequence + 1 < Pow2(l.sequenceBits) then s' == Sequencer(s.last, s.sequence + 1) && pos' == pos
      else
        && s'.sequence == 0 && s'.last > s.last && pos < pos' && s'.last == clock[pos' - 1]
        && forall k :: pos <= k < pos' - 1 ==> clock[k] <= s.last
  {
    ModSucc(s.sequence, Pow2(l.sequenceBits));
  }

  // ----- one nextId call -----

  /** The immutable part of a generator. */
  datatype Config = Config(layout: Layout, startEpoch: int, machineId: int, backupMachineId: int)

  predicate ValidConfig(c: Config) {
    c.layout.machineBits >= 1 && ConstructionError(c.layout, c.machineId, c.backupMachineId) == None
  }

  /** The id a role emits from its state. */
  function IdOf(c: Config, machine: int, s: Sequencer): int {
    Pack(c.layout, s.last - c.startEpoch, machine, s.sequence)
  }

  /** What one call returns and leaves behind: the id or the exception, both sequencers and the
      clock index of the next reading. */
  datatype Step = Step(id: Result<int, GeneratorError>, primary: Sequencer, backup: Sequencer, pos: nat)

  /** A reading is available and the busy-wait of the role that reading selects ends: the primary's
      when the reading is not behind it, the backup's on a rollback. */
  ghost predicate CanStep(clock: seq<int>, pos: nat, primary: Sequencer, backup: Sequencer) {
    && pos < |clock|
    && (clock[pos] >= primary.last ==> ExceedsLater(clock, pos + 1, primary.last))
    && (clock[pos] < primary.last ==> ExceedsLater(clock, pos + 1, backup.last))
  }

  /** `nextId`: read the clock once; a reading behind the primary's last timestamp goes to the backup
      sequencer, any other advances the primary. */
  function NextStep(c: Config, primary: Sequencer, backup: Sequencer, clock: seq<int>, pos: nat): Step
    requires CanStep(clock, pos, primary, backup)
  {
    var now := clock[pos];
    if now < primary.last then NextBackStep(c, primary, backup, now, clock, pos + 1)
    else
      var (p, pos') := Advance(c.layout, primary, now, clock, pos + 1);
      Step(Success(IdOf(c, c.machineId, p)), p, backup, pos')
  }

  /** `nextBackId(now)`: the backup sequencer, entered on a clock rollback. */
  function NextBackStep(c: Config, primary: Sequencer, backup: Sequencer, now: int, clock: seq<int>, pos: nat): Step
    requires ExceedsLater(clock, pos, backup.last)
  {
    if now < backup.last then
      if backup.last - now > c.layout.maxBackward then Step(Failure(ClockMovedBackwards), primary, backup, pos)
      else
        match c.layout.policy
        case Extrapolate =>
          var b := Sequencer(backup.last + (backup.last - now), 0);
          Step(Success(IdOf(c, c.backupMachineId, b)), primary, b, pos)
        case Clamp =>
          var (b, pos') := Advance(c.layout, backup, backup.last, clock, pos);
          Step(Success(IdOf(c, c.backupMachineId, b)), primary, b, pos')
    else
      var (b, pos') := Advance(c.layout, backup, now, clock, pos);
      Step(Success(IdOf(c, c.backupMachineId, b)), primary, b, pos')
  }

  /** A reading not behind `lastTimestamp` always yields a primary id: the primary moves strictly
      forward, the backup is untouched, and the id carries the new primary state and `machineId`. */
  lemma PrimaryPath(c: Config, primary: Sequencer, backup: Sequencer, clock: seq<int>, pos: nat)
    requires ValidConfig(c) && InRange(c.layout, primary)
    requires CanStep(clock, pos, primary, backup) && clock[pos] >= primary.last
    ensures var s := NextStep(c, primary, backup, clock, pos);
      && s.id == Success(IdOf(c, c.machineId, s.primary))
      && Before(primary, s.primary) && InRange(c.layout, s.primary)
      && s.backup == backup && pos < s.pos <= |clock|
      && s.id.value > IdOf(c, c.machineId, primary)
      && MachineOf(c.layout, s.id.value) == c.machineId
  {
    var s := NextStep(c, primary, backup, clock, pos);
    AdvanceMovesForward(c.layout, primary, clock[pos], clock, pos + 1);
    MachinesInRange(c);
    PackMonotone(c.layout, primary.last - c.startEpoch, primary.sequence,
                 s.primary.last - c.startEpoch, s.primary.sequence, c.machineId);
    PackRoundTrip(c.layout, s.primary.last - c.startEpoch, c.machineId, s.primary.sequence);
  }

  lemma MachinesInRange(c: Config)
    requires ValidConfig(c)
    ensures 0 <= c.machineId < c.backupMachineId < Pow2(c.layout.machineBits)
  {
  }

  /** A reading behind `lastTimestamp` never touches the primary state. It fails exactly when the
      reading is also behind the backup's last timestamp by more than the tolerated drift, and then
      nothing changes. Otherwise the backup moves strictly forward and the id carries it and
      `backupMachineId`. */
  lemma RollbackPath(c: Config, primary: Sequencer, backup: Sequencer, clock: seq<int>, pos: nat)
    requires ValidConfig(c) && InRange(c.layout, backup)
    requires CanStep(clock, pos, primary, backup) && clock[pos] < primary.last
    ensures var s := NextStep(c, primary, backup, clock, pos);
      && s.primary == primary
      && (s.id.Failure? <==> clock[pos] < backup.last && backup.last - clock[pos] > c.layout.maxBackward)
      && (s.id.Failure? ==> s.id.error == ClockMovedBackwards && s.backup == backup && s.pos == pos + 1)
      && (s.id.Success? ==>
            && s.id.value == IdOf(c, c.backupMachineId, s.backup)
            && Before(backup, s.backup) && InRange(c.layout, s.backup) && pos < s.pos <= |clock|
            && s.id.value > IdOf(c, c.backupMachineId, backup)
            && MachineOf(c.layout, s.id.value) == c.backupMachineId)
  {
    BackPath(c, primary, backup, clock[pos], clock, pos + 1);
  }

  /** `nextBackId(now)` on its own, for any reading `now`: the same facts as `RollbackPath`. */
  lemma BackPath(c: Config, primary: Sequencer, backup: Sequencer, now: int, clock: seq<int>, pos: nat)
    requires ValidConfig(c) && InRange(c.layout, backup)
    requires pos <= |clock| && ExceedsLater(clock, pos, backup.last)
    ensures var s := NextBackStep(c, primary, backup, now, clock, pos);
      && s.primary == primary
      && (s.id.Failure? <==> now < backup.last && backup.last - now > c.layout.maxBackward)
      && (s.id.Failure? ==> s.id.error == ClockMovedBackwards && s.backup == backup && s.pos == pos)
      && (s.id.Success? ==>
            && s.id.value == IdOf(c, c.backupMachineId, s.backup)
            && Before(backup, s.backup) && InRange(c.layout, s.backup) && pos <= s.pos <= |clock|
            && s.id.value > IdOf(c, c.backupMachineId, backup)
            && MachineOf(c.layout, s.id.value) == c.backupMachineId)
  {
    var s := NextBackStep(c, primary, backup, now, clock, pos);
    MachinesInRange(c);
    if s.id.Success? {
      if now >= backup.last {
        AdvanceMovesForward(c.layout, backup, now, clock, pos);
      } else if c.layout.policy == Clamp {
        AdvanceMovesForward(c.layout, backup, backup.last, clock, pos);
      }
      PackMonotone(c.layout, backup.last - c.startEpoch, backup.sequence,
                   s.backup.last - c.startEpoch, s.backup.sequence, c.backupMachineId);
      PackRoundTrip(c.layout, s.backup.last - c.startEpoch, c.backupMachineId, s.backup.sequence);
    }
  }

  /** Extrapolating generators, drift within tolerance: backupLast := backupLast + drift, sequence 0. */
  lemma ExtrapolatedRollback(c: Config, primary: Sequencer, backup: Sequencer, now: int, clock: seq<int>, pos: nat)
    requires c.layout.policy == Extrapolate && ExceedsLater(clock, pos, backup.last)
    requires now < backup.last && backup.last - now <= c.layout.maxBackward
    ensures NextBackStep(c, primary, backup, now, clock, pos).backup
         == Sequencer(backup.last + (backup.last - now), 0)
  {
  }

  /** Clamping generators, drift within tolerance: the reading is replaced by backupLast, so the
      backup sequence is incremented rather than reset (waiting for a later millisecond on wrap). */
  lemma ClampedRollback(c: Config, primary: Sequencer, backup: Sequencer, now: int, clock: seq<int>, pos: nat)
    requires c.layout.policy == Clamp && InRange(c.layout, backup) && ExceedsLater(clock, pos, backup.last)
    requires now < backup.last && backup.last - now <= c.layout.maxBackward
    ensures var b := NextBackStep(c, primary, backup, now, clock, pos).backup;
      if backup.sequence + 1 < Pow2(c.layout.sequenceBits) then b == Sequencer(backup.last, backup.sequence + 1)
      else b.sequence == 0 && b.last > backup.last
  {
    AdvanceSameMillisecond(c.layout, backup, clock, pos);
  }

  /** Ids from the two roles never coincide: the primary's machine field is at most MAX_MACHINE_ID
      and the backup's at least MIN_BACKUP_MACHINE_ID. */
  lemma RolesNeverCollide(c: Config, p: Sequencer, b: Sequencer)
    requires ValidConfig(c) && InRange(c.layout, p) && InRange(c.layout, b)
    ensures IdOf(c, c.machineId, p) != IdOf(c, c.backupMachineId, b)
    ensures MachineOf(c.layout, IdOf(c, c.machineId, p)) <= MaxMachineId(c.layout)
              < MinBackupMachineId(c.layout) <= MachineOf(c.layout, IdOf(c, c.backupMachineId, b))
  {
    MachinesInRange(c);
    PackRoundTrip(c.layout, p.last - c.startEpoch, c.machineId, p.sequence);
    PackRoundTrip(c.layout, b.last - c.startEpoch, c.backupMachineId, b.sequence);
  }
}
