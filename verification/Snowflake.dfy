/** The snowflake generator (src/models/snowflake.cpp): a clocked state machine that packs a
    timestamp, a machine id, a process id and a sequence number into one 64-bit id.

    Time is an input: each call of `NextId` is given the clock readings it makes, in order. A call
    whose readings run out has not returned. */
module Snowflake {
  import opened Bits

  const EPOCH: int := 1738022400000
  const MACHINE_ID_BITS := 10
  const PROCESS_ID_BITS := 5
  const SEQUENCE_BITS := 8
  const MAX_MACHINE_ID: int := 1023
  const MAX_PROCESS_ID: int := 31
  const MAX_SEQUENCE := 255

  /** The readings for which the shifted timestamp does not overflow a signed 64-bit id. */
  const CLOCK_SPAN: int := 0x100_0000_0000

  /** What a generator holds. */
  datatype Gen = Gen(machineId: nat, processId: nat, lastTimestamp: int, sequence: nat) {
    predicate Valid() {
      && machineId <= MAX_MACHINE_ID
      && processId <= MAX_PROCESS_ID
      && sequence <= MAX_SEQUENCE
    }
  }

  datatype Outcome = Issued(id: int) | ClockMovedBackwards | NotReturned

  /** The fields of an id. */
  datatype Fields = Fields(timestamp: int, machineId: int, processId: int, sequence: int)

  predicate InSpan(timestamp: int) {
    EPOCH - CLOCK_SPAN <= timestamp < EPOCH + CLOCK_SPAN
  }

  /** The 64-bit pattern of the returned expression, operator by operator. */
  function Pattern(g: Gen): uint64
    requires g.Valid()
  {
    PatternFits(g);
    Or(Or(Or(Shl64(g.lastTimestamp - EPOCH, MACHINE_ID_BITS + PROCESS_ID_BITS + SEQUENCE_BITS),
             Shl64(g.machineId, PROCESS_ID_BITS + SEQUENCE_BITS)),
          Shl64(g.processId, SEQUENCE_BITS)),
       g.sequence)
  }

  /** The id that a generator in state `g` has just returned. */
  function Pack(g: Gen): int
    requires g.Valid()
  {
    Signed64(Pattern(g))
  }

  /** The first reading later than `last`, if the readings contain one. */
  function FirstAfter(clock: seq<int>, last: int): (r: seq<int>)
    ensures |r| <= 1
    ensures r == [] <==> forall i :: 0 <= i < |clock| ==> clock[i] <= last
    ensures r != [] ==> r[0] > last && r[0] in clock
  {
    if clock == [] then []
    else if clock[0] > last then [clock[0]]
    else FirstAfter(clock[1..], last)
  }

  /** One call of `nextId`, given the readings of the clock it makes. */
  function Next(g: Gen, clock: seq<int>): (r: (Outcome, Gen))
    requires g.Valid()
    ensures r.1.Valid()
  {
    if clock == [] then (NotReturned, g)
    else if clock[0] < g.lastTimestamp then (ClockMovedBackwards, g)
    else if clock[0] > g.lastTimestamp then
      var g' := g.(lastTimestamp := clock[0], sequence := 0);
      (Issued(Pack(g')), g')
    else
      var sequence := (g.sequence + 1) % (MAX_SEQUENCE + 1);
      if sequence != 0 then
        var g' := g.(sequence := sequence);
        (Issued(Pack(g')), g')
      else
        var later := FirstAfter(clock[1..], g.lastTimestamp);
        if later == [] then (NotReturned, g.(sequence := 0))
        else
          var g' := g.(lastTimestamp := later[0], sequence := 0);
          (Issued(Pack(g')), g')
  }

  /** The ids issued by a run of calls. A call that throws leaves the generator usable; one that
      never returns keeps the lock, so the run ends there. */
  function RunIds(g: Gen, calls: seq<seq<int>>): seq<int>
    requires g.Valid()
    decreases |calls|
  {
    if calls == [] then []
    else
      var (outcome, g') := Next(g, calls[0]);
      match outcome
      case Issued(id) => [id] + RunIds(g', calls[1..])
      case ClockMovedBackwards => RunIds(g', calls[1..])
      case NotReturned => []
  }

  predicate CallsInSpan(calls: seq<seq<int>>) {
    forall i, j :: 0 <= i < |calls| && 0 <= j < |calls[i]| ==> InSpan(calls[i][j])
  }

  /** The arithmetic reading of an id. */
  function Unpack(id: int): Fields {
    Fields(id / 0x80_0000 + EPOCH, id / 0x2000 % 0x400, id / 0x100 % 0x20, id % 0x100)
  }

  /* The layout */

  lemma {:induction false} Powers()
    ensures Pow2(8) == 0x100 && Pow2(10) == 0x400 && Pow2(5) == 0x20
    ensures Pow2(13) == 0x2000 && Pow2(23) == 0x80_0000
  {
    assert Pow2(4) == 16;
    assert Pow2(8) == 0x100;
    assert Pow2(12) == 0x1000;
    assert Pow2(16) == 0x1_0000;
    assert Pow2(20) == 0x10_0000;
  }

  /** The three `|` fill disjoint bit fields, one after another. */
  lemma {:induction false} FieldsDisjoint(d: nat, m: nat, p: nat, s: nat)
    requires m < 0x400 && p < 0x20 && s < 0x100
    ensures Or(Or(Or(d * 0x80_0000, m * 0x2000), p * 0x100), s)
         == d * 0x80_0000 + m * 0x2000 + p * 0x100 + s
  {
    Powers();
    var a, b, c := d * 0x80_0000, m * 0x2000, p * 0x100;
    OrBelow(a, d, b, 23);
    OrBelow(a + b, d * 0x400 + m, c, 13);
    OrBelow(a + b + c, (d * 0x400 + m) * 0x20 + p, s, 8);
  }

  /** So the pattern is a sum, whatever the timestamp. */
  lemma {:induction false} PatternIsSum(g: Gen)
    requires g.Valid()
    ensures Or(Or(Or(Shl64(g.lastTimestamp - EPOCH, 23), Shl64(g.machineId, 13)),
                  Shl64(g.processId, 8)), g.sequence)
         == (g.lastTimestamp - EPOCH) % 0x200_0000_0000 * 0x80_0000
            + g.machineId * 0x2000 + g.processId * 0x100 + g.sequence
  {
    Powers();
    var d := (g.lastTimestamp - EPOCH) % 0x200_0000_0000;
    assert Shl64(g.lastTimestamp - EPOCH, 23) == d * 0x80_0000;
    assert Shl64(g.machineId, 13) == g.machineId * 0x2000;
    assert Shl64(g.processId, 8) == g.processId * 0x100;
    FieldsDisjoint(d, g.machineId, g.processId, g.sequence);
  }

  lemma {:induction false} PatternFits(g: Gen)
    requires g.Valid()
    ensures 0 <= Or(Or(Or(Shl64(g.lastTimestamp - EPOCH, 23), Shl64(g.machineId, 13)),
                       Shl64(g.processId, 8)), g.sequence) < TWO_64
  {
    PatternIsSum(g);
  }

  /** In the clock's span the signed id is the sum of its fields, with no wrap-around. */
  lemma {:induction false} PackIsSum(g: Gen)
    requires g.Valid() && InSpan(g.lastTimestamp)
    ensures Pack(g) == (g.lastTimestamp - EPOCH) * 0x80_0000
                       + g.machineId * 0x2000 + g.processId * 0x100 + g.sequence
  {
    PatternIsSum(g);
    SignedSum(Pattern(g), g.lastTimestamp - EPOCH, g.machineId * 0x2000 + g.processId * 0x100 + g.sequence);
  }

  lemma {:induction false} SignedSum(x: uint64, t: int, low: nat)
    requires -CLOCK_SPAN <= t < CLOCK_SPAN && low < 0x80_0000
    requires x == t % 0x200_0000_0000 * 0x80_0000 + low
    ensures Signed64(x) == t * 0x80_0000 + low
  {
    assert t % 0x200_0000_0000 == if t >= 0 then t else t + 0x200_0000_0000;
  }

  lemma {:induction false} UnpackSum(id: int, t: int, m: nat, p: nat, s: nat)
    requires m <= MAX_MACHINE_ID && p <= MAX_PROCESS_ID && s <= MAX_SEQUENCE
    requires id == t * 0x80_0000 + m * 0x2000 + p * 0x100 + s
    ensures Unpack(id) == Fields(t + EPOCH, m, p, s)
  {
    assert id % 0x100 == s && id / 0x100 == t * 0x8000 + m * 0x20 + p;
    assert id / 0x2000 == t * 0x400 + m;
  }

  /** Field recovery: an issued id is non-negative exactly for a clock at or after the epoch, it
      fits in 63 bits, and it decodes to the fields it was packed from. */
  lemma {:induction false} FieldRecovery(g: Gen)
    requires g.Valid() && InSpan(g.lastTimestamp)
    ensures Unpack(Pack(g)) == Fields(g.lastTimestamp, g.machineId, g.processId, g.sequence)
    ensures Pack(g) >= 0 <==> g.lastTimestamp >= EPOCH
    ensures Pack(g) < 0x8000_0000_0000_0000
  {
    PackIsSum(g);
    UnpackSum(Pack(g), g.lastTimestamp - EPOCH, g.machineId, g.processId, g.sequence);
  }

  /** The machine and process fields survive any clock, wrapped or not. */
  lemma {:induction false} NodeRecovery(g: Gen)
    requires g.Valid()
    ensures Unpack(Pack(g)).machineId == g.machineId && Unpack(Pack(g)).processId == g.processId
  {
    PatternIsSum(g);
    UnpackWrapped(Pattern(g), (g.lastTimestamp - EPOCH) % 0x200_0000_0000, g.machineId, g.processId, g.sequence);
  }

  lemma {:induction false} UnpackWrapped(x: uint64, t: nat, m: nat, p: nat, s: nat)
    requires m <= MAX_MACHINE_ID && p <= MAX_PROCESS_ID && s <= MAX_SEQUENCE
    requires x == t * 0x80_0000 + m * 0x2000 + p * 0x100 + s
    ensures Unpack(Signed64(x)).machineId == m && Unpack(Signed64(x)).processId == p
  {
    var y: int := x;
    UnpackSum(y, t, m, p, s);
    UnpackSum(y - TWO_64, t - 0x200_0000_0000, m, p, s);
  }

  /* One call */

  /** What a call may do: it issues the id of its new state, which has the next sequence number of the
      old timestamp, or sequence number 0 of a later one; or it throws and leaves the generator as it was;
      or it is still spinning, which happens only when no reading is later than the last timestamp. */
  lemma {:induction false} NextMeaning(g: Gen, clock: seq<int>)
    requires g.Valid()
    ensures var (outcome, g') := Next(g, clock);
      && g'.machineId == g.machineId && g'.processId == g.processId
      && match outcome {
        case Issued(id) =>
          && id == Pack(g') && g'.lastTimestamp in clock
          && if g'.lastTimestamp == g.lastTimestamp then g'.sequence == g.sequence + 1
             else g'.lastTimestamp > g.lastTimestamp && g'.sequence == 0
        case ClockMovedBackwards => g' == g && clock != [] && clock[0] < g.lastTimestamp
        case NotReturned =>
          forall i :: 0 <= i < |clock| ==> clock[i] <= g.lastTimestamp
      }
  {
  }

  lemma {:induction false} FirstLater(clock: seq<int>, last: int, j: nat)
    requires j < |clock| && clock[j] > last && forall i :: 0 <= i < j ==> clock[i] <= last
    ensures FirstAfter(clock, last) == [clock[j]]
  {
    if j > 0 {
      FirstLater(clock[1..], last, j - 1);
    }
  }

  /** Which reading `j` a call ends with, and how: the first one, if it is later than the last timestamp,
      or the same with sequence numbers left; an earlier one throws; and with none left the call waits for
      the first later one. */
  lemma {:induction false} NextReading(g: Gen, clock: seq<int>, j: nat)
    requires g.Valid() && j < |clock|
    ensures var (outcome, g') := Next(g, clock);
      var full := clock[0] == g.lastTimestamp && g.sequence == MAX_SEQUENCE;
      && (clock[0] < g.lastTimestamp <==> outcome == ClockMovedBackwards)
      && (clock[0] >= g.lastTimestamp && !full ==> outcome.Issued? && g'.lastTimestamp == clock[0])
      && (full && clock[j] > g.lastTimestamp && (forall i :: 0 <= i < j ==> clock[i] <= g.lastTimestamp) ==>
            outcome.Issued? && g'.lastTimestamp == clock[j])
  {
    if clock[0] == g.lastTimestamp && clock[j] > g.lastTimestamp
       && forall i :: 0 <= i < j ==> clock[i] <= g.lastTimestamp {
      FirstLater(clock[1..], g.lastTimestamp, j - 1);
    }
  }

  /** Progress: the spin on a wrapped sequence ends for every clock that at some point exceeds the
      last timestamp, however long it stalls first. */
  lemma {:induction false} SpinTerminates(g: Gen, clock: seq<int>, i: nat)
    requires g.Valid()
    requires i < |clock| && clock[i] > g.lastTimestamp
    ensures Next(g, clock).0 != NotReturned
  {
    NextMeaning(g, clock);
  }

  /* Runs */

  lemma {:induction false} PackMonotone(g: Gen, h: Gen)
    requires g.Valid() && h.Valid()
    requires g.machineId == h.machineId && g.processId == h.processId
    requires InSpan(g.lastTimestamp) && InSpan(h.lastTimestamp)
    requires g.lastTimestamp < h.lastTimestamp
             || (g.lastTimestamp == h.lastTimestamp && g.sequence < h.sequence)
    ensures Pack(g) < Pack(h)
  {
    PackIsSum(g);
    PackIsSum(h);
  }

  /** Every id of a run is larger than any the generator issued before it. */
  lemma {:induction false} RunAbove(g: Gen, calls: seq<seq<int>>, j: nat)
    requires g.Valid() && InSpan(g.lastTimestamp) && CallsInSpan(calls)
    requires j < |RunIds(g, calls)|
    ensures RunIds(g, calls)[j] > Pack(g)
    decreases |calls|
  {
    var (outcome, g') := Next(g, calls[0]);
    NextMeaning(g, calls[0]);
    if outcome.Issued? {
      assert InSpan(g'.lastTimestamp);
      PackMonotone(g, g');
      if j > 0 {
        RunAbove(g', calls[1..], j - 1);
      }
    } else {
      RunAbove(g', calls[1..], j);
    }
  }

  /** Monotonicity: over any run of calls, with repeated readings, spins and backward jumps that
      throw, the issued ids are strictly increasing. The generator may be in any state, in
      particular the initial one, whose last timestamp is -1. */
  lemma {:induction false} RunIncreasing(g: Gen, calls: seq<seq<int>>, i: nat, j: nat)
    requires g.Valid() && CallsInSpan(calls)
    requires i < j < |RunIds(g, calls)|
    ensures RunIds(g, calls)[i] < RunIds(g, calls)[j]
    decreases |calls|
  {
    var (outcome, g') := Next(g, calls[0]);
    NextMeaning(g, calls[0]);
    if outcome.Issued? {
      if i > 0 {
        RunIncreasing(g', calls[1..], i - 1, j - 1);
      } else {
        assert InSpan(g'.lastTimestamp);
        RunAbove(g', calls[1..], j - 1);
      }
    } else {
      RunIncreasing(g', calls[1..], i, j);
    }
  }

  lemma {:induction false} RunSpread(g: Gen, calls: seq<seq<int>>, i: nat, j: nat)
    requires g.Valid() && CallsInSpan(calls)
    requires i <= j < |RunIds(g, calls)|
    ensures RunIds(g, calls)[j] - RunIds(g, calls)[i] >= j - i
    decreases j - i
  {
    if i < j {
      RunSpread(g, calls, i, j - 1);
      RunIncreasing(g, calls, j - 1, j);
    }
  }

  /** Every id of a run carries the generator's own machine and process, at any clock. */
  lemma {:induction false} RunNode(g: Gen, calls: seq<seq<int>>, i: nat)
    requires g.Valid() && i < |RunIds(g, calls)|
    ensures Unpack(RunIds(g, calls)[i]).machineId == g.machineId
    ensures Unpack(RunIds(g, calls)[i]).processId == g.processId
    decreases |calls|
  {
    var (outcome, g') := Next(g, calls[0]);
    NextMeaning(g, calls[0]);
    if outcome.Issued? {
      NodeRecovery(g');
      if i > 0 {
        RunNode(g', calls[1..], i - 1);
      }
    } else {
      RunNode(g', calls[1..], i);
    }
  }

  /** Rate: two ids with the same timestamp are fewer than 256 positions apart, so no run carries a
      timestamp more than 256 times. */
  lemma {:induction false} AtMost256PerMillisecond(g: Gen, calls: seq<seq<int>>, i: nat, j: nat)
    requires g.Valid() && CallsInSpan(calls)
    requires i <= j < |RunIds(g, calls)|
    requires Unpack(RunIds(g, calls)[i]).timestamp == Unpack(RunIds(g, calls)[j]).timestamp
    ensures j - i < 256
  {
    RunSpread(g, calls, i, j);
    RunNode(g, calls, i);
    RunNode(g, calls, j);
    SameMillisecond(RunIds(g, calls)[i], RunIds(g, calls)[j]);
  }

  lemma {:induction false} SameMillisecond(a: int, b: int)
    requires Unpack(a).timestamp == Unpack(b).timestamp
    requires Unpack(a).machineId == Unpack(b).machineId && Unpack(a).processId == Unpack(b).processId
    ensures b - a < 256
  {
    Regroup(a);
    Regroup(b);
  }

  lemma {:induction false} Regroup(a: int)
    ensures a / 0x100 == (a / 0x80_0000 * 0x400 + a / 0x2000 % 0x400) * 0x20 + a / 0x100 % 0x20
  {
    assert a / 0x100 / 0x20 == a / 0x2000;
    assert a / 0x2000 / 0x400 == a / 0x80_0000;
  }

  /* Sequence numbers */

  /** How many of some ids carry timestamp `t`. */
  function CountAt(ids: seq<int>, t: int): nat {
    if ids == [] then 0 else (if Unpack(ids[0]).timestamp == t then 1 else 0) + CountAt(ids[1..], t)
  }

  /** The timestamps of a run do not decrease. */
  lemma {:induction false} RunLater(g: Gen, calls: seq<seq<int>>, i: nat)
    requires g.Valid() && CallsInSpan(calls) && i < |RunIds(g, calls)|
    ensures Unpack(RunIds(g, calls)[i]).timestamp >= g.lastTimestamp
    decreases |calls|
  {
    var (outcome, g') := Next(g, calls[0]);
    NextMeaning(g, calls[0]);
    if outcome.Issued? {
      assert InSpan(g'.lastTimestamp);
      FieldRecovery(g');
      if i > 0 {
        RunLater(g', calls[1..], i - 1);
      }
    } else {
      RunLater(g', calls[1..], i);
    }
  }

  /** Every timestamp of a run is numbered from 0 without gaps, except that the generator's own last
      timestamp is continued: an id's sequence number is the number of ids of its timestamp before it. */
  lemma {:induction false} RunNumbered(g: Gen, calls: seq<seq<int>>, i: nat)
    requires g.Valid() && CallsInSpan(calls) && i < |RunIds(g, calls)|
    ensures var f := Unpack(RunIds(g, calls)[i]);
      f.sequence == CountAt(RunIds(g, calls)[..i], f.timestamp)
                    + if f.timestamp == g.lastTimestamp then g.sequence + 1 else 0
    decreases |calls|
  {
    var (outcome, g') := Next(g, calls[0]);
    NextMeaning(g, calls[0]);
    if outcome.Issued? {
      assert InSpan(g'.lastTimestamp);
      FieldRecovery(g');
      if i > 0 {
        RunNumbered(g', calls[1..], i - 1);
        RunLater(g', calls[1..], i - 1);
        assert RunIds(g, calls)[..i][1..] == RunIds(g', calls[1..])[..i - 1];
      }
    } else {
      RunNumbered(g', calls[1..], i);
    }
  }

  predicate AllReturn(g: Gen, calls: seq<seq<int>>)
    requires g.Valid()
    decreases |calls|
  {
    calls == [] || (Next(g, calls[0]).0 != NotReturned && AllReturn(Next(g, calls[0]).1, calls[1..]))
  }

  function RunGen(g: Gen, calls: seq<seq<int>>): (h: Gen)
    requires g.Valid()
    ensures h.Valid()
    decreases |calls|
  {
    if calls == [] then g else RunGen(Next(g, calls[0]).1, calls[1..])
  }

  lemma {:induction false} RunGenLater(g: Gen, calls: seq<seq<int>>)
    requires g.Valid() && AllReturn(g, calls)
    ensures RunGen(g, calls).lastTimestamp >= g.lastTimestamp
    decreases |calls|
  {
    if calls != [] {
      NextMeaning(g, calls[0]);
      RunGenLater(Next(g, calls[0]).1, calls[1..]);
    }
  }

  /** After a run the generator's sequence number tells how many ids its last timestamp has. */
  lemma {:induction false} RunSequence(g: Gen, calls: seq<seq<int>>)
    requires g.Valid() && CallsInSpan(calls) && AllReturn(g, calls)
    ensures var h := RunGen(g, calls);
      h.sequence + 1 == CountAt(RunIds(g, calls), h.lastTimestamp)
                        + if h.lastTimestamp == g.lastTimestamp then g.sequence + 1 else 0
    decreases |calls|
  {
    if calls != [] {
      var (outcome, g') := Next(g, calls[0]);
      NextMeaning(g, calls[0]);
      RunSequence(g', calls[1..]);
      RunGenLater(g', calls[1..]);
      if outcome.Issued? {
        assert InSpan(g'.lastTimestamp);
        FieldRecovery(g');
        assert RunIds(g, calls)[1..] == RunIds(g', calls[1..]);
      }
    }
  }

  /** A second reading of the last timestamp. */
  lemma {:induction false} SameReading(h: Gen)
    requires h.Valid() && InSpan(h.lastTimestamp)
    ensures var outcome := Next(h, [h.lastTimestamp]).0;
      if h.sequence == MAX_SEQUENCE then outcome == NotReturned
      else outcome.Issued? && Unpack(outcome.id)
           == Fields(h.lastTimestamp, h.machineId, h.processId, h.sequence + 1)
  {
    NextReading(h, [h.lastTimestamp], 0);
    var h' := Next(h, [h.lastTimestamp]).1;
    NextMeaning(h, [h.lastTimestamp]);
    if h.sequence != MAX_SEQUENCE {
      FieldRecovery(h');
    }
  }

  /** A call that reads the last timestamp of a new generator's run has to wait exactly if 256 ids carry
      that timestamp already; otherwise its id is the next of them. */
  lemma {:induction false} WaitsAfter256(g: Gen, calls: seq<seq<int>>)
    requires g.Valid() && g.lastTimestamp == -1 && CallsInSpan(calls) && AllReturn(g, calls)
    requires InSpan(RunGen(g, calls).lastTimestamp)
    ensures var h := RunGen(g, calls);
      var outcome, n := Next(h, [h.lastTimestamp]).0, CountAt(RunIds(g, calls), h.lastTimestamp);
      if n == 256 then outcome == NotReturned
      else outcome.Issued? && Unpack(outcome.id).timestamp == h.lastTimestamp && Unpack(outcome.id).sequence == n
  {
    RunSequence(g, calls);
    SameReading(RunGen(g, calls));
  }

  /** Disjointness: generators with different (machineId, processId) pairs never share an id,
      whatever their clocks read. */
  lemma {:induction false} DisjointRuns(g: Gen, calls: seq<seq<int>>, i: nat,
                                        h: Gen, calls': seq<seq<int>>, j: nat)
    requires g.Valid() && h.Valid()
    requires g.machineId != h.machineId || g.processId != h.processId
    requires i < |RunIds(g, calls)| && j < |RunIds(h, calls')|
    ensures RunIds(g, calls)[i] != RunIds(h, calls')[j]
  {
    RunNode(g, calls, i);
    RunNode(h, calls', j);
  }

  /* The generator object */

  class SnowflakeIDGenerator {
    var machineId: int
    var processId: int
    var lastTimestamp: int
    var sequence: int

    ghost predicate Valid()
      reads this
    {
      0 <= machineId <= MAX_MACHINE_ID && 0 <= processId <= MAX_PROCESS_ID && 0 <= sequence <= MAX_SEQUENCE
    }

    function State(): (g: Gen)
      requires Valid()
      reads this
      ensures g.Valid()
    {
      Gen(machineId, processId, lastTimestamp, sequence)
    }

    constructor (machineId: int, processId: int)
      requires 0 <= machineId <= MAX_MACHINE_ID && 0 <= processId <= MAX_PROCESS_ID
      ensures Valid() && State() == Gen(machineId, processId, -1, 0)
    {
      this.machineId, this.processId := machineId, processId;
      lastTimestamp, sequence := -1, 0;
    }

    /** The range checks of the source's constructor; null where it throws. */
    static method Create(machineId: int, processId: int) returns (g: SnowflakeIDGenerator?)
      ensures g == null <==> !(0 <= machineId <= MAX_MACHINE_ID && 0 <= processId <= MAX_PROCESS_ID)
      ensures g != null ==> fresh(g) && g.Valid() && g.State() == Gen(machineId, processId, -1, 0)
    {
      if machineId > MAX_MACHINE_ID || machineId < 0 {
        return null;
      }
      if processId > MAX_PROCESS_ID || processId < 0 {
        return null;
      }
      g := new SnowflakeIDGenerator(machineId, processId);
    }

    /** Makes one call, consuming clock readings in order. */
    method NextId(clock: seq<int>) returns (outcome: Outcome)
      requires Valid()
      modifies this
      ensures Valid() && (outcome, State()) == Next(old(State()), clock)
    {
      if clock == [] {
        return NotReturned;
      }
      var timestamp := clock[0];
      if timestamp < lastTimestamp {
        return ClockMovedBackwards;
      }
      if timestamp == lastTimestamp {
        sequence := Masked(sequence + 1);
        if sequence == 0 {
          var read := 1;
          while timestamp <= lastTimestamp
            invariant 1 <= read <= |clock|
            invariant timestamp <= lastTimestamp ==>
              FirstAfter(clock[1..], lastTimestamp) == FirstAfter(clock[read..], lastTimestamp)
            invariant timestamp > lastTimestamp ==>
              FirstAfter(clock[1..], lastTimestamp) == [timestamp]
            decreases |clock| - read
          {
            if read == |clock| {
              return NotReturned;
            }
            timestamp := clock[read];
            read := read + 1;
          }
        }
      } else {
        sequence := 0;
      }
      lastTimestamp := timestamp;
      outcome := Issued(Pack(State()));
    }
  }

  /** `sequence & maxSequence` wraps at 256. */
  function Masked(n: nat): (r: nat)
    ensures r == n % 256
  {
    AndMask(n, 8);
    Powers();
    And(n, MAX_SEQUENCE)
  }
}
