/** The snowflake key generator: ids packed from a millisecond clock, a worker number and a
    per-tick sequence number. The clock is an arbitrary infinite list of readings. */
module Snowflake {
  import opened Bits

  const EPOCH: int := 1609459200000
  const MAX_WORKER: nat := 1023
  const MAX_SEQ: nat := 4095
  const TWO_41: int := 0x200_0000_0000

  type Clock = nat -> int

  /** What one generator remembers between calls. */
  datatype State = State(lastTime: int, sequence: nat)

  const INITIAL := State(0, 0)

  /** int64 shifts by 22 and by 12 places. */
  function Shl22(x: int): int {
    Wrap64(x * 0x40_0000)
  }

  function Shl12(x: nat): nat
  {
    x * 0x1000
  }

  /** The id as the code packs it: shifts, a mask and two ORs. */
  function Pack(time: int, worker: int, seqNo: nat): int {
    BitOr(BitOr(Shl22(time - EPOCH), Shl12(BitAnd(worker, MAX_WORKER))), seqNo)
  }

  /** Index of the first reading at or after i that is past t; adv is a witness that one exists. */
  function FirstPast(clock: Clock, t: int, i: nat, ghost adv: nat): (k: nat)
    requires i <= adv && clock(adv) > t
    ensures i <= k <= adv && clock(k) > t
    ensures forall j :: i <= j < k ==> clock(j) <= t
    decreases adv - i
  {
    if clock(i) > t then i else FirstPast(clock, t, i + 1, adv)
  }

  predicate Overflows(s: State, reading: int) {
    reading <= s.lastTime && s.sequence == MAX_SEQ
  }

  /** The clock advances past every time it has shown. */
  ghost predicate Advances(clock: Clock) {
    forall t: int, i: nat :: PastLater(clock, t, i)
  }

  ghost predicate PastLater(clock: Clock, t: int, i: nat) {
    exists k: nat {:trigger PastAt(clock, t, i, k)} :: PastAt(clock, t, i, k)
  }

  ghost predicate PastAt(clock: Clock, t: int, i: nat, k: nat) {
    i <= k && clock(k) > t
  }

  /** One call: the next state and the next clock position. */
  ghost function Next(s: State, clock: Clock, pos: nat): (r: (State, nat))
    requires Advances(clock)
  {
    if Overflows(s, clock(pos)) then
      assert PastLater(clock, s.lastTime, pos + 1);
      var adv: nat :| PastAt(clock, s.lastTime, pos + 1, adv);
      var k := FirstPast(clock, s.lastTime, pos + 1, adv);
      (State(clock(k), 0), k + 1)
    else if clock(pos) <= s.lastTime then (State(s.lastTime, s.sequence + 1), pos + 1)
    else (State(clock(pos), 0), pos + 1)
  }

  method NextSequence(n: nat) returns (r: nat)
    requires n <= MAX_SEQ
    ensures r == (n + 1) % (MAX_SEQ + 1)
  {
    Powers();
    AndMaskOf(n + 1, 12, 4096);
    r := BitAnd(n + 1, MAX_SEQ);
  }

  /** The overflow spin: reads the clock until it shows a time past last. */
  method Spin(clock: Clock, last: int, pos: nat, ghost adv: nat) returns (curTime: int, next: nat)
    requires pos <= adv && clock(adv) > last
    ensures pos < next && curTime == clock(next - 1) > last
    ensures forall j :: pos <= j < next - 1 ==> clock(j) <= last
  {
    next := pos;
    curTime := last;
    while curTime <= last
      invariant pos <= next
      invariant curTime <= last ==> next <= adv
      invariant curTime > last ==> next > pos && curTime == clock(next - 1)
      invariant forall j :: pos <= j < next - (if curTime > last then 1 else 0) ==> clock(j) <= last
      decreases adv + 1 - next, curTime <= last
    {
      curTime := clock(next);
      next := next + 1;
    }
  }

  class Generator {
    const workerID: int
    var lastTime: int
    var sequence: nat

    constructor (workerID: int)
      ensures this.workerID == workerID
      ensures Valid() && Now() == INITIAL
    {
      this.workerID := workerID;
      lastTime, sequence := 0, 0;
    }

    ghost predicate Valid()
      reads this
    {
      sequence <= MAX_SEQ
    }

    ghost function Now(): State
      reads this
    {
      State(lastTime, sequence)
    }

    /** pos is the number of clock readings taken before the call. The spin loop ends because
        the clock advances; next is the number of readings taken after the call. */
    method Generate(clock: Clock, pos: nat) returns (id: int, next: nat)
      requires Valid() && Advances(clock)
      modifies this
      ensures Valid()
      ensures (Now(), next) == Next(old(Now()), clock, pos)
      ensures id == Pack(lastTime, workerID, sequence)
    {
      var curTime := clock(pos);
      next := pos + 1;
      if curTime < lastTime {
        curTime := lastTime;
      }
      if curTime == lastTime {
        sequence := NextSequence(sequence);
        if sequence == 0 {
          assert PastLater(clock, lastTime, pos + 1);
          ghost var adv: nat :| PastAt(clock, lastTime, pos + 1, adv);
          curTime, next := Spin(clock, lastTime, pos + 1, adv);
        }
      } else {
        sequence := 0;
      }
      lastTime := curTime;
      id := Pack(curTime, workerID, sequence);
    }
  }

  lemma PackedSum(time: int, worker: int, seqNo: nat)
    requires -TWO_41 <= time - EPOCH < TWO_41 && seqNo <= MAX_SEQ
    ensures Pack(time, worker, seqNo) == (time - EPOCH) * 0x40_0000 + worker % 1024 * 4096 + seqNo
  {
    Powers();
    var shifted := (time - EPOCH) * 0x40_0000;
    assert Shl22(time - EPOCH) == shifted;
    AndMaskOf(worker, 10, 1024);
    OrLowOf(shifted, worker % 1024 * 4096, 22, 0x40_0000);
    OrLowOf(shifted + worker % 1024 * 4096, seqNo, 12, 4096);
  }

  /** Packing is the arithmetic sum, so the three fields can be read back. */
  lemma PackIsSum(time: int, worker: int, seqNo: nat)
    requires -TWO_41 <= time - EPOCH < TWO_41 && seqNo <= MAX_SEQ
    ensures Pack(time, worker, seqNo) == (time - EPOCH) * 0x40_0000 + worker % 1024 * 4096 + seqNo
    ensures Pack(time, worker, seqNo) / 0x40_0000 + EPOCH == time
    ensures Pack(time, worker, seqNo) / 4096 % 1024 == worker % 1024
    ensures Pack(time, worker, seqNo) % 4096 == seqNo
  {
    PackedSum(time, worker, seqNo);
    Fields(Pack(time, worker, seqNo), time - EPOCH, worker % 1024, seqNo);
  }

  lemma Fields(id: int, t: int, w: nat, n: nat)
    requires id == t * 0x40_0000 + w * 4096 + n && w < 1024 && n < 4096
    ensures id / 0x40_0000 == t && id / 4096 % 1024 == w && id % 4096 == n
  {
    assert id / 4096 == t * 1024 + w;
  }

  /** The bound on the time is needed: at 2^41 milliseconds after the epoch the shift leaves the
      int64 range and a later id is smaller than an earlier one. */
  lemma PackWrapsAtTwo41(worker: int)
    ensures Pack(EPOCH + TWO_41, worker, 0) < Pack(EPOCH + TWO_41 - 1, worker, 0)
  {
    Powers();
    assert Shl22(TWO_41) == -TWO_63;
    AndMaskOf(worker, 10, 1024);
    OrLowOf(-TWO_63, worker % 1024 * 4096, 22, 0x40_0000);
    OrLowOf(-TWO_63 + worker % 1024 * 4096, 0, 12, 4096);
    PackIsSum(EPOCH + TWO_41 - 1, worker, 0);
  }

  // ---------- runs of one generator ----------

  /** The states after each of n calls, starting in s with the clock at pos. */
  ghost function Run(s: State, clock: Clock, pos: nat, n: nat): (r: seq<State>)
    requires Advances(clock)
    ensures |r| == n
    decreases n
  {
    if n == 0 then [] else
      var (s', pos') := Next(s, clock, pos);
      [s'] + Run(s', clock, pos', n - 1)
  }

  predicate Before(a: State, b: State) {
    a.lastTime < b.lastTime || (a.lastTime == b.lastTime && a.sequence < b.sequence)
  }

  lemma NextIsLater(s: State, clock: Clock, pos: nat)
    requires Advances(clock) && s.sequence <= MAX_SEQ
    ensures Before(s, Next(s, clock, pos).0)
    ensures Next(s, clock, pos).0.sequence <= MAX_SEQ
    ensures pos < Next(s, clock, pos).1
  {
  }

  lemma {:induction false} RunIsLater(s: State, clock: Clock, pos: nat, n: nat, j: nat)
    requires Advances(clock) && s.sequence <= MAX_SEQ && j < n
    ensures Before(s, Run(s, clock, pos, n)[j])
    ensures Run(s, clock, pos, n)[j].sequence <= MAX_SEQ
    decreases n
  {
    NextIsLater(s, clock, pos);
    var (s', pos') := Next(s, clock, pos);
    if j > 0 {
      RunIsLater(s', clock, pos', n - 1, j - 1);
    }
  }

  lemma {:induction false} RunIncreases(s: State, clock: Clock, pos: nat, n: nat, i: nat, j: nat)
    requires Advances(clock) && s.sequence <= MAX_SEQ && i < j < n
    ensures Before(Run(s, clock, pos, n)[i], Run(s, clock, pos, n)[j])
    decreases n
  {
    NextIsLater(s, clock, pos);
    var (s', pos') := Next(s, clock, pos);
    if i > 0 {
      RunIncreases(s', clock, pos', n - 1, i - 1, j - 1);
    } else {
      RunIsLater(s', clock, pos', n - 1, j - 1);
    }
  }

  ghost predicate InRange(s: State) {
    -TWO_41 <= s.lastTime - EPOCH < TWO_41
  }

  function Id(s: State, worker: int): int {
    Pack(s.lastTime, worker, s.sequence)
  }

  lemma IdOrder(a: State, b: State, worker: int)
    requires InRange(a) && InRange(b) && a.sequence <= MAX_SEQ && b.sequence <= MAX_SEQ
    requires Before(a, b)
    ensures Id(a, worker) < Id(b, worker)
  {
    PackIsSum(a.lastTime, worker, a.sequence);
    PackIsSum(b.lastTime, worker, b.sequence);
  }

  /** Over any run, with any clock readings, the ids of one generator strictly increase. */
  lemma IdsStrictlyIncrease(worker: int, clock: Clock, pos: nat, n: nat, i: nat, j: nat)
    requires Advances(clock) && i < j < n
    requires InRange(Run(INITIAL, clock, pos, n)[i]) && InRange(Run(INITIAL, clock, pos, n)[j])
    ensures Id(Run(INITIAL, clock, pos, n)[i], worker) < Id(Run(INITIAL, clock, pos, n)[j], worker)
  {
    var run := Run(INITIAL, clock, pos, n);
    RunIncreases(INITIAL, clock, pos, n, i, j);
    RunIsLater(INITIAL, clock, pos, n, i);
    RunIsLater(INITIAL, clock, pos, n, j);
    IdOrder(run[i], run[j], worker);
  }

  /** Generators whose worker numbers differ modulo 1024 never produce the same id, whatever
      their clocks show. */
  lemma WorkersNeverCollide(w1: int, w2: int, c1: Clock, c2: Clock, p1: nat, p2: nat, n: nat, i: nat, j: nat)
    requires Advances(c1) && Advances(c2) && i < n && j < n
    requires w1 % 1024 != w2 % 1024
    requires InRange(Run(INITIAL, c1, p1, n)[i]) && InRange(Run(INITIAL, c2, p2, n)[j])
    ensures Id(Run(INITIAL, c1, p1, n)[i], w1) != Id(Run(INITIAL, c2, p2, n)[j], w2)
  {
    RunIsLater(INITIAL, c1, p1, n, i);
    RunIsLater(INITIAL, c2, p2, n, j);
    var a, b := Run(INITIAL, c1, p1, n)[i], Run(INITIAL, c2, p2, n)[j];
    PackIsSum(a.lastTime, w1, a.sequence);
    PackIsSum(b.lastTime, w2, b.sequence);
  }

  /** Between two calls that use the same tick lie fewer than 4096 calls, so no tick carries
      more than 4096 ids. */
  lemma {:induction false} SameTickIsShort(s: State, clock: Clock, pos: nat, n: nat, i: nat, j: nat)
    requires Advances(clock) && s.sequence <= MAX_SEQ && i <= j < n
    requires Run(s, clock, pos, n)[i].lastTime == Run(s, clock, pos, n)[j].lastTime
    ensures j - i == Run(s, clock, pos, n)[j].sequence - Run(s, clock, pos, n)[i].sequence
    ensures j - i <= MAX_SEQ
    decreases j
  {
    var run := Run(s, clock, pos, n);
    RunIsLater(s, clock, pos, n, j);
    if i < j {
      RunStep(s, clock, pos, n, j - 1);
      if i < j - 1 {
        RunIncreases(s, clock, pos, n, i, j - 1);
      }
      RunIncreases(s, clock, pos, n, j - 1, j);
      assert run[i].lastTime == run[j - 1].lastTime;
      SameTickIsShort(s, clock, pos, n, i, j - 1);
    }
  }

  /** Inside a run, a state is one call away from the previous one. */
  lemma {:induction false} RunStep(s: State, clock: Clock, pos: nat, n: nat, i: nat)
    requires Advances(clock) && s.sequence <= MAX_SEQ && i + 1 < n
    ensures exists p: nat :: Run(s, clock, pos, n)[i + 1] == Next(Run(s, clock, pos, n)[i], clock, p).0
    decreases n
  {
    NextIsLater(s, clock, pos);
    var (s', pos') := Next(s, clock, pos);
    var run := Run(s, clock, pos, n);
    var rest := Run(s', clock, pos', n - 1);
    assert run[i + 1] == rest[i];
    if i > 0 {
      RunStep(s', clock, pos', n - 1, i - 1);
      var p: nat :| rest[i] == Next(rest[i - 1], clock, p).0;
      assert run[i] == rest[i - 1];
    } else {
      assert run[0] == s';
      assert rest[0] == Next(s', clock, pos').0;
    }
  }
}
