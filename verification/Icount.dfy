/**
 Instruction counting: the budget of a time slice, split into a 16-bit decrementer and
 the rest, consumed by translation blocks and folded back into the global counter.
 */
module Icount {
  import opened Wire

  const MAX_LOW := 0xffff
  const CF_COUNT_MASK := 0x7fff

  // ---- the counters as a value ----------------------------------------------------------------

  /** The counters, the interrupt flag in the upper half of the decrementer, and
      whether a slice is running; `retired` counts the instructions executed. */
  datatype Counters = Counters(icount: int, low: nat, extra: int, high: bool, running: bool, retired: nat) {
    /** The decrementer read as a signed 32-bit number. */
    function Left(): int {
      if high then low - 0x10000 else low
    }

    /** cpu_get_icount, in units of 2^shift from the bias on. */
    function Time(bias: int, shift: nat): int {
      bias + (icount - (low + extra)) * Pow2(shift)
    }

    ghost predicate Valid() {
      low <= MAX_LOW && extra >= 0
    }
  }

  function Min(a: int, b: int): int {
    if a < b then a else b
  }

  /** qemu_icount_round: instructions that last at least until a deadline. */
  function Rounded(deadline: nat, shift: nat): (n: nat)
    ensures deadline <= n * Pow2(shift) < deadline + Pow2(shift)
  {
    var n := (deadline + Pow2(shift) - 1) / Pow2(shift);
    Divides(deadline + Pow2(shift) - 1, Pow2(shift));
    n
  }

  lemma Divides(a: int, b: int)
    requires b > 0
    ensures a == (a / b) * b + a % b && 0 <= a % b < b
    ensures a >= 0 ==> a / b >= 0
  {
  }

  datatype Event =
    | Start(count: nat)
    | Block(size: nat, done: nat, last: nat)
    | Interrupt
    | Finish

  function Spent(c: Counters, n: nat): Counters
    requires n <= c.low
  {
    c.(low := c.low - n, retired := c.retired + n)
  }

  /** Start of a slice: fold back what is left, then grant `count` instructions. */
  function Started(c: Counters, count: nat): Counters {
    var low := Min(count, MAX_LOW);
    c.(icount := c.icount - (c.low + c.extra) + count, low := low, extra := count - low, running := true)
  }

  /** The counter expired before a block: refill and go on, or execute the last
      few instructions (`last` of them, as far as there are that many) and stop. */
  function Expired(c: Counters, last: nat): Counters
    requires c.Valid()
  {
    var left := c.Left();
    if c.extra != 0 && left >= 0 then
      var all := c.extra + left;
      var low := Min(all, MAX_LOW);
      c.(extra := all - low, low := low)
    else if left > 0 then Spent(c, Min(Min(left, CF_COUNT_MASK), last)).(running := false)
    else c.(running := false)
  }

  /** A block of `size` instructions, of which `done` are executed before an
      exception, if it is started at all. */
  function Ran(c: Counters, size: nat, done: nat, last: nat): Counters
    requires c.Valid()
  {
    if c.Left() - size < 0 then Expired(c, last)
    else Spent(c, Min(done, size))
  }

  function Finished(c: Counters): Counters {
    c.(icount := c.icount - (c.low + c.extra), low := 0, extra := 0, high := false, running := false)
  }

  function Step(c: Counters, e: Event): Counters
    requires c.Valid()
  {
    match e
    case Start(count) => Started(c, count)
    case Block(size, done, last) => if c.running then Ran(c, size, done, last) else c
    case Interrupt => c.(high := true)
    case Finish => Finished(c)
  }

  // ---- conservation ------------------------------------------------------------------------------

  /** Every step keeps the counters in range, and what the global counter shows
      beyond the outstanding budget moves exactly with the instructions retired. */
  lemma StepConserves(c: Counters, e: Event)
    requires c.Valid()
    ensures var d := Step(c, e);
            && d.Valid()
            && d.icount - (d.low + d.extra) - d.retired == c.icount - (c.low + c.extra) - c.retired
            && d.retired >= c.retired
  {
  }

  ghost function Run(c: Counters, es: seq<Event>): (d: Counters)
    requires c.Valid()
    ensures d.Valid()
    decreases |es|
  {
    if es == [] then c
    else
      StepConserves(c, es[0]);
      Run(Step(c, es[0]), es[1..])
  }

  lemma {:induction false} RunConserves(c: Counters, es: seq<Event>)
    requires c.Valid()
    ensures var d := Run(c, es);
            && d.icount - (d.low + d.extra) - d.retired == c.icount - (c.low + c.extra) - c.retired
            && d.retired >= c.retired
    decreases |es|
  {
    hide Step;
    if es != [] {
      StepConserves(c, es[0]);
      RunConserves(Step(c, es[0]), es[1..]);
    }
  }

  /** A slice never retires more than it was granted: from its start on, up to the
      next start, whatever blocks, refills and interrupts there are. */
  lemma SliceWithinBudget(c: Counters, count: nat, es: seq<Event>)
    requires c.Valid() && forall e <- es :: !e.Start?
    ensures Run(c, [Start(count)] + es).retired - c.retired <= count
  {
    hide Run;
    var d := Step(c, Start(count));
    StepConserves(c, Start(count));
    RunFirst(c, Start(count), es);
    BudgetLasts(d, es);
  }

  lemma RunFirst(c: Counters, e: Event, es: seq<Event>)
    requires c.Valid() && Step(c, e).Valid()
    ensures Run(c, [e] + es) == Run(Step(c, e), es)
  {
    assert ([e] + es)[1..] == es;
  }

  /** What is retired comes out of what was outstanding. */
  lemma {:induction false} BudgetLasts(c: Counters, es: seq<Event>)
    requires c.Valid() && forall e <- es :: !e.Start?
    ensures Run(c, es).retired - c.retired <= c.low + c.extra
    decreases |es|
  {
    if es != [] {
      StepConserves(c, es[0]);
      BudgetLasts(Step(c, es[0]), es[1..]);
    }
  }

  /** A slice gets exactly what it is granted, as much of it as fits in the decrementer. */
  lemma StartGrants(c: Counters, count: nat)
    requires c.Valid()
    ensures var d := Step(c, Start(count));
            && d.low + d.extra == count && (d.extra > 0 ==> d.low == MAX_LOW) && d.running
            && d.icount - count == c.icount - (c.low + c.extra) && d.retired == c.retired && d.high == c.high
  {
  }

  /** A block that is executed whole if it fits, and of which the end of the budget
      is executed if it does not. */
  predicate Whole(e: Event) {
    e.Block? && 0 < e.size <= CF_COUNT_MASK && e.done >= e.size && e.last >= e.size
  }

  /** How many more blocks there can be: at most one refill between two blocks. */
  ghost function Turns(c: Counters): int {
    2 * (c.low + c.extra) + (if c.extra != 0 && c.low < CF_COUNT_MASK then 1 else 0) + (if c.running then 1 else 0)
  }

  lemma WholeBlock(c: Counters, e: Event)
    requires c.Valid() && !c.high && Whole(e) && (!c.running ==> c.low + c.extra == 0)
    ensures var d := Step(c, e);
            && d.Valid() && !d.high && (!d.running ==> d.low + d.extra == 0)
            && (c.running ==> Turns(d) < Turns(c)) && (!c.running ==> d == c)
  {
  }

  lemma {:induction false} WholeBlocks(c: Counters, es: seq<Event>)
    requires c.Valid() && !c.high && (forall e <- es :: Whole(e)) && (!c.running ==> c.low + c.extra == 0)
    ensures var d := Run(c, es);
            (!d.running ==> d.low + d.extra == 0) && (|es| >= Turns(c) ==> !d.running)
    decreases |es|
  {
    hide Step, Whole, Turns;
    if es == [] {
      TurnsRunning(c);
    } else {
      WholeBlock(c, es[0]);
      WholeBlocks(Step(c, es[0]), es[1..]);
      if !c.running {
        StaysStopped(c, es);
      }
    }
  }

  lemma TurnsRunning(c: Counters)
    requires c.Valid()
    ensures Turns(c) >= if c.running then 1 else 0
  {
  }

  lemma {:induction false} StaysStopped(c: Counters, es: seq<Event>)
    requires c.Valid() && !c.running && forall e <- es :: Whole(e)
    ensures Run(c, es) == c
    decreases |es|
  {
    if es != [] {
      assert Whole(es[0]);
      StaysStopped(c, es[1..]);
    }
  }

  /** Without interrupts a slice of whole blocks ends, after at most two turns for
      every instruction granted, and then it has retired exactly its grant. */
  lemma SliceUsesGrant(c: Counters, count: nat, es: seq<Event>)
    requires c.Valid() && !c.high && forall e <- es :: Whole(e)
    ensures var d := Run(c, [Start(count)] + es);
            && (!d.running ==> d.retired - c.retired == count)
            && (|es| >= 2 * count + 2 ==> !d.running)
  {
    hide Run, Whole;
    var d := Step(c, Start(count));
    StepConserves(c, Start(count));
    StartGrants(c, count);
    RunFirst(c, Start(count), es);
    WholeBlocks(d, es);
    RunConserves(d, es);
    NoFolding(d, es);
  }

  /** Without a start or an end of a slice the global counter stands still. */
  lemma {:induction false} NoFolding(c: Counters, es: seq<Event>)
    requires c.Valid() && forall e <- es :: Whole(e)
    ensures Run(c, es).icount == c.icount
    decreases |es|
  {
    if es != [] {
      assert Whole(es[0]);
      StepConserves(c, es[0]);
      NoFolding(Step(c, es[0]), es[1..]);
    }
  }

  /** Such a slice, granted the instructions to a deadline, ends at the deadline or
      less than one instruction behind it. */
  lemma SliceReachesDeadline(c: Counters, deadline: nat, es: seq<Event>, bias: int, shift: nat)
    requires c.Valid() && !c.high && (forall e <- es :: Whole(e)) && |es| >= 2 * Rounded(deadline, shift) + 2
    ensures var d := Run(c, [Start(Rounded(deadline, shift))] + es);
            deadline <= d.Time(bias, shift) - c.Time(bias, shift) < deadline + Pow2(shift)
  {
    hide Run, Whole, Rounded;
    SliceUsesGrant(c, Rounded(deadline, shift), es);
    ReachesDeadline(c, [Start(Rounded(deadline, shift))] + es, deadline, bias, shift);
  }

  /** At the end of a slice everything is folded back: the global counter has moved
      by the instructions retired, and no request to stop is left. */
  lemma FinishFolds(c: Counters, es: seq<Event>)
    requires c.Valid()
    ensures var d := Run(c, es + [Finish]);
            && d.low == 0 && d.extra == 0 && !d.high && !d.running
            && d.icount - (c.icount - (c.low + c.extra)) == d.retired - c.retired
  {
    hide Run;
    RunConserves(c, es + [Finish]);
    RunLast(c, es, Finish);
  }

  lemma {:induction false} RunLast(c: Counters, es: seq<Event>, e: Event)
    requires c.Valid()
    ensures Run(c, es + [e]) == Step(Run(c, es), e)
    decreases |es|
  {
    hide Step;
    if es == [] {
      assert [] + [e] == [e];
      StepConserves(c, e);
      assert Run(Step(c, e), []) == Step(c, e);
    } else {
      StepConserves(c, es[0]);
      assert (es + [e])[1..] == es[1..] + [e];
      RunLast(Step(c, es[0]), es[1..], e);
    }
  }

  /** After an interrupt nothing more is retired in this slice, and its next block stops it. */
  lemma InterruptEnds(c: Counters, es: seq<Event>)
    requires c.Valid() && forall e <- es :: e.Block? || e.Interrupt?
    ensures var d := Run(c, [Interrupt] + es);
            d.retired == c.retired && ((exists e <- es :: e.Block?) ==> !d.running)
  {
    hide Run, Step;
    assert Step(c, Interrupt).high && Step(c, Interrupt).retired == c.retired by { Raised(c); }
    StepConserves(c, Interrupt);
    RunFirst(c, Interrupt, es);
    HighEnds(Step(c, Interrupt), es);
  }

  lemma Raised(c: Counters)
    requires c.Valid()
    ensures Step(c, Interrupt).high && Step(c, Interrupt).retired == c.retired
  {
  }

  lemma {:induction false} HighEnds(c: Counters, es: seq<Event>)
    requires c.Valid() && c.high && forall e <- es :: e.Block? || e.Interrupt?
    ensures var d := Run(c, es);
            && d.retired == c.retired && (!c.running ==> !d.running)
            && ((exists e <- es :: e.Block?) ==> !d.running)
    decreases |es|
  {
    if es != [] {
      StepConserves(c, es[0]);
      HighEnds(Step(c, es[0]), es[1..]);
      if exists e <- es :: e.Block? {
        var e :| e in es && e.Block?;
        assert e == es[0] || e in es[1..];
      }
    }
  }

  /** A block that fits retires what is executed of it, at most the whole block; one
      that does not fit in the last of the budget retires what is left, as far as a
      block can hold it and it is executed. */
  lemma BlockRetires(c: Counters, size: nat, done: nat, last: nat)
    requires c.Valid() && c.running && !c.high
    ensures var d := Step(c, Block(size, done, last));
            && (size <= c.low && done <= size ==> d.retired == c.retired + done)
            && (size <= c.low && done > size ==> d.retired == c.retired + size)
            && (size > c.low && c.extra > 0 ==> d.retired == c.retired && d.low == Min(c.low + c.extra, MAX_LOW))
            && (size > c.low && c.extra == 0 && last >= c.low && c.low <= 0x7fff ==> d.retired == c.retired + c.low)
            && (size > c.low && c.extra == 0 && last < c.low && last <= 0x7fff ==> d.retired == c.retired + last)
            && (size > c.low && c.extra == 0 && last > 0x7fff && c.low > 0x7fff ==> d.retired == c.retired + 0x7fff)
  {
  }

  /** Virtual time advances by exactly the time of the instructions retired: it
      never goes back, whatever the slices, blocks and interrupts were. */
  lemma TimeIsInstructions(c: Counters, es: seq<Event>, bias: int, shift: nat)
    requires c.Valid()
    ensures var d := Run(c, es);
            && d.Time(bias, shift) - c.Time(bias, shift) == (d.retired - c.retired) * Pow2(shift)
            && d.Time(bias, shift) >= c.Time(bias, shift)
  {
    hide Run, Pow2;
    RunConserves(c, es);
    var d, p := Run(c, es), Pow2(shift);
    var n := d.retired - c.retired;
    Scaled(c.icount - (c.low + c.extra), n, p);
  }

  /** From counters that start at zero, the time is the bias and 2^shift units for every instruction retired. */
  lemma TimeFromZero(es: seq<Event>, bias: int, shift: nat)
    ensures var c := Counters(0, 0, 0, false, false, 0);
            c.Valid() && Run(c, es).Time(bias, shift) == bias + Run(c, es).retired * Pow2(shift)
  {
    hide Run, Pow2;
    TimeIsInstructions(Counters(0, 0, 0, false, false, 0), es, bias, shift);
  }

  lemma Scaled(a: int, n: nat, p: nat)
    ensures (a + n) * p == a * p + n * p && n * p >= 0
  {
  }

  /** Without an interrupt a slice stops only for a block that no longer fits in
      what is left of the whole budget. */
  lemma StopsForALongBlock(c: Counters, size: nat, done: nat, last: nat)
    requires c.Valid() && c.running && !c.high
    ensures !Ran(c, size, done, last).running <==> c.extra == 0 && c.low < size
  {
  }

  /** With the flag set, the next block is not started, nothing is retired and the slice stops. */
  lemma InterruptStops(c: Counters, size: nat, done: nat, last: nat)
    requires c.Valid() && c.running && c.high
    ensures Ran(c, size, done, last) == c.(running := false)
  {
  }

  /** A run that retires as many instructions as are granted for a deadline moves
      the time to the deadline, and less than one instruction beyond it. */
  lemma ReachesDeadline(c: Counters, es: seq<Event>, deadline: nat, bias: int, shift: nat)
    requires c.Valid() && Run(c, es).retired - c.retired == Rounded(deadline, shift)
    ensures deadline <= Run(c, es).Time(bias, shift) - c.Time(bias, shift) < deadline + Pow2(shift)
  {
    TimeIsInstructions(c, es, bias, shift);
  }

  // ---- several CPUs ------------------------------------------------------------------------------

  /** qemu_icount is shared; the rest belongs to each CPU. */
  datatype Machine = Machine(icount: int, cpus: seq<Counters>) {
    ghost predicate Valid() {
      forall i :: 0 <= i < |cpus| ==> cpus[i].Valid()
    }
  }

  /** Instructions granted to the CPUs and not retired, and those retired. */
  function Outstanding(cpus: seq<Counters>): int {
    if cpus == [] then 0 else Outstanding(cpus[..|cpus| - 1]) + cpus[|cpus| - 1].low + cpus[|cpus| - 1].extra
  }

  function Retired(cpus: seq<Counters>): int {
    if cpus == [] then 0 else Retired(cpus[..|cpus| - 1]) + cpus[|cpus| - 1].retired
  }

  /** A step of CPU i, on the shared counter. */
  function MachineStep(m: Machine, i: nat, e: Event): Machine
    requires m.Valid() && i < |m.cpus|
  {
    var c := Step(m.cpus[i].(icount := m.icount), e);
    Machine(c.icount, m.cpus[i := c])
  }

  lemma {:induction false} SumUpdate(cpus: seq<Counters>, i: nat, c: Counters)
    requires i < |cpus|
    ensures Outstanding(cpus[i := c]) == Outstanding(cpus) + c.low + c.extra - cpus[i].low - cpus[i].extra
    ensures Retired(cpus[i := c]) == Retired(cpus) + c.retired - cpus[i].retired
    decreases |cpus|
  {
    var n := |cpus| - 1;
    if i == n {
      assert cpus[i := c][..n] == cpus[..n];
    } else {
      assert cpus[i := c][..n] == cpus[..n][i := c];
      SumUpdate(cpus[..n], i, c);
    }
  }

  lemma MachineConserves(m: Machine, i: nat, e: Event)
    requires m.Valid() && i < |m.cpus|
    ensures var m' := MachineStep(m, i, e);
            && m'.Valid() && |m'.cpus| == |m.cpus|
            && m'.icount - Outstanding(m'.cpus) - Retired(m'.cpus) == m.icount - Outstanding(m.cpus) - Retired(m.cpus)
  {
    hide Step;
    var c := m.cpus[i].(icount := m.icount);
    StepConserves(c, e);
    SumUpdate(m.cpus, i, Step(c, e));
  }

  ghost function MachineRun(m: Machine, es: seq<(nat, Event)>): (m': Machine)
    requires m.Valid() && forall e <- es :: e.0 < |m.cpus|
    ensures m'.Valid()
    decreases |es|
  {
    if es == [] then m
    else
      MachineConserves(m, es[0].0, es[0].1);
      MachineRun(MachineStep(m, es[0].0, es[0].1), es[1..])
  }

  /** Over all slices of all CPUs, in any interleaving: the shared counter beyond
      what is outstanding moves exactly with the instructions retired by all. */
  lemma {:induction false} MachineRunConserves(m: Machine, es: seq<(nat, Event)>)
    requires m.Valid() && forall e <- es :: e.0 < |m.cpus|
    ensures var m' := MachineRun(m, es);
            m'.icount - Outstanding(m'.cpus) - Retired(m'.cpus) == m.icount - Outstanding(m.cpus) - Retired(m.cpus)
    decreases |es|
  {
    hide MachineStep;
    if es != [] {
      MachineConserves(m, es[0].0, es[0].1);
      MachineRunConserves(MachineStep(m, es[0].0, es[0].1), es[1..]);
    }
  }

  // ---- the code ------------------------------------------------------------------------------------

  class Cpu {
    var qemuIcount: int
    var low: nat
    var high: nat
    var icountExtra: int
    var running: bool
    ghost var retired: nat

    ghost predicate Valid()
      reads this
    {
      (high == 0 || high == 0xffff) && Abs().Valid()
    }

    ghost function Abs(): Counters
      reads this
    {
      Counters(qemuIcount, low, icountExtra, high != 0, running, retired)
    }

    constructor ()
      ensures Valid() && Abs() == Counters(0, 0, 0, false, false, 0)
    {
      qemuIcount, low, high, icountExtra, running := 0, 0, 0, 0, false;
      retired := 0;
    }

    /** The part of qemu_cpu_exec before the slice. */
    method StartSlice(deadline: nat, shift: nat)
      requires Valid()
      modifies this
      ensures Valid() && Abs() == Step(old(Abs()), Start(Rounded(deadline, shift)))
    {
      hide Rounded;
      qemuIcount := qemuIcount - (low + icountExtra);
      low := 0;
      icountExtra := 0;
      var count := Rounded(deadline, shift);
      qemuIcount := qemuIcount + count;
      var decr := if count > 0xffff then 0xffff else count;
      count := count - decr;
      low := decr;
      icountExtra := count;
      running := true;
    }

    /** Instructions leave the decrementer as they are executed. */
    method Execute(n: nat)
      requires Valid() && n <= low
      modifies this`low, this`retired
      ensures Abs() == Spent(old(Abs()), n)
    {
      low := low - n;
      retired := retired + n;
    }

    /** One block in the main loop, with the check at its start, and what happens
        when the counter has expired. */
    method RunBlock(size: nat, done: nat, last: nat)
      requires Valid() && running
      modifies this
      ensures Valid() && Abs() == Step(old(Abs()), Block(size, done, last))
    {
      var insnsLeft: int := if high == 0 then low else low - 0x10000;
      if insnsLeft - size >= 0 {
        Execute(if done < size then done else size);
      } else if icountExtra != 0 && insnsLeft >= 0 {
        icountExtra := icountExtra + insnsLeft;
        insnsLeft := if icountExtra > 0xffff then 0xffff else icountExtra;
        icountExtra := icountExtra - insnsLeft;
        low := insnsLeft;
      } else {
        if insnsLeft > 0 {
          var cycles := if insnsLeft > CF_COUNT_MASK then CF_COUNT_MASK else insnsLeft;
          Execute(if last < cycles then last else cycles);
        }
        running := false;
      }
    }

    /** cpu_interrupt, for instruction counting. */
    method RaiseInterrupt()
      requires Valid()
      modifies this`high
      ensures Valid() && Abs() == Step(old(Abs()), Interrupt)
    {
      high := 0xffff;
    }

    /** The part of qemu_cpu_exec after the slice. */
    method FinishSlice()
      requires Valid()
      modifies this
      ensures Valid() && Abs() == Step(old(Abs()), Finish)
    {
      qemuIcount := qemuIcount - (low + icountExtra);
      low, high := 0, 0;
      icountExtra := 0;
      running := false;
    }

    /** cpu_get_icount, while this CPU runs. */
    method GetIcount(bias: int, shift: nat) returns (time: int)
      requires Valid()
      ensures time == Abs().Time(bias, shift)
    {
      var icount := qemuIcount;
      icount := icount - (low + icountExtra);
      time := bias + icount * Pow2(shift);
    }
  }
}
