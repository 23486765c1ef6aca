/**
 Several threads racing through the half-open gate. The gate is one atomic machine word:
 a caller adds one and looks at the old value, and a caller that came too late takes its
 addition back in a second atomic step. Recording an outcome stores zero at any moment.
 */
module HalfOpenGate {
  import opened Words

  // Where a thread is: before its addition, between addition and subtraction, or done.
  datatype Pc = Ready | Backing | Granted | Refused

  datatype Gate = Gate(counter: nat, pcs: seq<Pc>)

  datatype Step = Advance(thread: nat) | Reset

  function Next(max: nat, g: Gate, s: Step): Gate {
    match s
    case Reset => g.(counter := 0)
    case Advance(i) =>
      if i >= |g.pcs| then g
      else match g.pcs[i]
        case Ready =>
          Gate((g.counter + 1) % WORD, g.pcs[i := if g.counter < max then Granted else Backing])
        case Backing => Gate((g.counter - 1) % WORD, g.pcs[i := Refused])
        case _ => g
  }

  function Run(max: nat, g: Gate, schedule: seq<Step>): Gate
    decreases |schedule|
  {
    if schedule == [] then g else Run(max, Next(max, g, schedule[0]), schedule[1..])
  }

  function Count(pcs: seq<Pc>, pc: Pc): nat {
    if pcs == [] then 0 else (if pcs[0] == pc then 1 else 0) + Count(pcs[1..], pc)
  }

  lemma {:induction false} CountUpdate(pcs: seq<Pc>, i: nat, now: Pc, pc: Pc)
    requires i < |pcs|
    ensures Count(pcs[i := now], pc)
            == Count(pcs, pc) - (if pcs[i] == pc then 1 else 0) + (if now == pc then 1 else 0)
    decreases pcs
  {
    if i > 0 {
      CountUpdate(pcs[1..], i - 1, now, pc);
      assert pcs[i := now][1..] == pcs[1..][i - 1 := now];
    } else {
      assert pcs[0 := now][1..] == pcs[1..];
    }
  }

  lemma {:induction false} CountAll(pcs: seq<Pc>)
    ensures Count(pcs, Ready) + Count(pcs, Backing) + Count(pcs, Granted) + Count(pcs, Refused) == |pcs|
  {
    if pcs != [] {
      CountAll(pcs[1..]);
    }
  }

  // How many threads moved from one state of the gate to another.
  lemma {:induction false} MoveCounts(pcs: seq<Pc>, i: nat, now: Pc)
    requires i < |pcs|
    ensures forall pc :: Count(pcs[i := now], pc)
                         == Count(pcs, pc) - (if pcs[i] == pc then 1 else 0) + (if now == pc then 1 else 0)
  {
    forall pc
      ensures Count(pcs[i := now], pc)
              == Count(pcs, pc) - (if pcs[i] == pc then 1 else 0) + (if now == pc then 1 else 0)
    {
      CountUpdate(pcs, i, now, pc);
    }
  }

  // ------------------------------------------------------------------- one epoch

  // An epoch starts with nobody between addition and subtraction, and the counter
  // showing the slots already taken.
  ghost predicate EpochStart(max: nat, g: Gate) {
    Count(g.pcs, Backing) == 0 && g.counter <= max && g.counter + |g.pcs| < WORD
  }

  ghost predicate NoReset(schedule: seq<Step>) {
    forall i | 0 <= i < |schedule| :: schedule[i].Advance?
  }

  ghost predicate AllAnswered(g: Gate) {
    forall i | 0 <= i < |g.pcs| :: g.pcs[i] != Ready && g.pcs[i] != Backing
  }

  function NewlyGranted(start: Gate, g: Gate): int {
    Count(g.pcs, Granted) - Count(start.pcs, Granted)
  }

  function NewlyRefused(start: Gate, g: Gate): int {
    Count(g.pcs, Refused) - Count(start.pcs, Refused)
  }

  ghost predicate EpochInvariant(max: nat, start: Gate, g: Gate) {
    && |g.pcs| == |start.pcs|
    && NewlyGranted(start, g) >= 0 && NewlyRefused(start, g) >= 0
    && g.counter == start.counter + NewlyGranted(start, g) + Count(g.pcs, Backing)
    && start.counter + NewlyGranted(start, g) <= max
    && (Count(g.pcs, Backing) + NewlyRefused(start, g) > 0 ==> start.counter + NewlyGranted(start, g) == max)
  }

  lemma {:induction false} StepKeepsInvariant(max: nat, start: Gate, g: Gate, i: nat)
    requires EpochStart(max, start) && EpochInvariant(max, start, g)
    ensures EpochInvariant(max, start, Next(max, g, Advance(i)))
  {
    if i < |g.pcs| && g.pcs[i].Ready? {
      AddKeepsInvariant(max, start, g, i);
    } else if i < |g.pcs| && g.pcs[i].Backing? {
      SubtractKeepsInvariant(max, start, g, i);
    }
  }

  lemma {:induction false} AddKeepsInvariant(max: nat, start: Gate, g: Gate, i: nat)
    requires EpochStart(max, start) && EpochInvariant(max, start, g) && i < |g.pcs| && g.pcs[i].Ready?
    ensures EpochInvariant(max, start, Next(max, g, Advance(i)))
  {
    var now := if g.counter < max then Granted else Backing;
    CountUpdate(g.pcs, i, now, Ready);
    CountUpdate(g.pcs, i, now, Granted);
    CountUpdate(g.pcs, i, now, Backing);
    CountUpdate(g.pcs, i, now, Refused);
    CountAll(g.pcs[i := now]);
    assert g.counter + 1 < WORD;
  }

  lemma {:induction false} SubtractKeepsInvariant(max: nat, start: Gate, g: Gate, i: nat)
    requires EpochStart(max, start) && EpochInvariant(max, start, g) && i < |g.pcs| && g.pcs[i].Backing?
    ensures EpochInvariant(max, start, Next(max, g, Advance(i)))
  {
    CountUpdate(g.pcs, i, Refused, Granted);
    CountUpdate(g.pcs, i, Refused, Backing);
    CountUpdate(g.pcs, i, Refused, Refused);
    CountAll(g.pcs);
    assert 1 <= g.counter <= WORD;
  }

  lemma {:induction false} RunKeepsInvariant(max: nat, start: Gate, g: Gate, schedule: seq<Step>)
    requires EpochStart(max, start) && EpochInvariant(max, start, g) && NoReset(schedule)
    ensures EpochInvariant(max, start, Run(max, g, schedule))
    decreases |schedule|
  {
    if schedule != [] {
      StepKeepsInvariant(max, start, g, schedule[0].thread);
      RunKeepsInvariant(max, start, Next(max, g, schedule[0]), schedule[1..]);
    }
  }

  /** In every interleaving, despite the transient overshoot: the counter is the slots taken
      plus the threads between add and subtract, at most `max` are admitted, and nobody is
      being turned away or was turned away unless every slot is granted. */
  lemma {:induction false} RefusedOnlyWhenFull(max: nat, start: Gate, schedule: seq<Step>)
    requires EpochStart(max, start) && NoReset(schedule)
    ensures var g := Run(max, start, schedule);
            var taken := start.counter + NewlyGranted(start, g);
            && g.counter == taken + Count(g.pcs, Backing)
            && taken <= max
            && (Count(g.pcs, Backing) + NewlyRefused(start, g) > 0 ==> taken == max)
  {
    RunKeepsInvariant(max, start, start, schedule);
  }

  lemma {:induction false} CountZero(pcs: seq<Pc>, pc: Pc)
    requires forall i | 0 <= i < |pcs| :: pcs[i] != pc
    ensures Count(pcs, pc) == 0
  {
    if pcs != [] {
      CountZero(pcs[1..], pc);
    }
  }

  /** Once every thread has its answer, exactly min(threads, free slots) were admitted, and
      the counter again shows the slots taken. */
  lemma {:induction false} ExactAdmission(max: nat, start: Gate, schedule: seq<Step>)
    requires EpochStart(max, start) && NoReset(schedule)
    requires AllAnswered(Run(max, start, schedule))
    ensures var g := Run(max, start, schedule);
            var callers, free := Count(start.pcs, Ready), max - start.counter;
            && NewlyGranted(start, g) == (if callers <= free then callers else free)
            && g.counter == start.counter + NewlyGranted(start, g)
  {
    var g := Run(max, start, schedule);
    RunKeepsInvariant(max, start, start, schedule);
    CountZero(g.pcs, Ready);
    CountZero(g.pcs, Backing);
    CountAll(g.pcs);
    CountAll(start.pcs);
  }

  // --------------------------------------------------------------- across a reset

  lemma {:induction false} DriftStep(max: nat, start: Gate, g: Gate, schedule: seq<Step>, drift: int)
    requires NoReset(schedule)
    requires g.counter == (NewlyGranted(start, g) + Count(g.pcs, Backing) - drift) % WORD
    ensures var g' := Run(max, g, schedule);
            g'.counter == (NewlyGranted(start, g') + Count(g'.pcs, Backing) - drift) % WORD
    decreases |schedule|
  {
    if schedule != [] {
      var i := schedule[0].thread;
      var g' := Next(max, g, schedule[0]);
      if i < |g.pcs| && (g.pcs[i].Ready? || g.pcs[i].Backing?) {
        MoveCounts(g.pcs, i, g'.pcs[i]);
        var x := NewlyGranted(start, g) + Count(g.pcs, Backing) - drift;
        ModPlus(x, 1);
        ModPlus(x, -1);
      }
      DriftStep(max, start, g', schedule[1..], drift);
    }
  }

  lemma {:induction false} ModPlus(x: int, d: int)
    ensures (x % WORD + d) % WORD == (x + d) % WORD
  {
    assert x == x / WORD * WORD + x % WORD;
    var q := x / WORD;
    var y := x % WORD + d;
    assert x + d == y + q * WORD;
    ModShift(y, q);
  }

  lemma ModShift(y: int, q: int)
    ensures (y + q * WORD) % WORD == y % WORD
  {
  }

  /** A stored zero forgets the threads that are between their add and their subtract: from
      then on the counter is short by exactly their number, modulo the word size. */
  lemma {:induction false} ResetDrift(max: nat, g: Gate, schedule: seq<Step>)
    requires NoReset(schedule)
    ensures var start := Next(max, g, Reset);
            var g' := Run(max, start, schedule);
            g'.counter == (NewlyGranted(start, g') + Count(g'.pcs, Backing) - Count(g.pcs, Backing)) % WORD
  {
    var start := Next(max, g, Reset);
    DriftStep(max, start, start, schedule, Count(g.pcs, Backing));
  }

  /** So the gate's accounting survives a reset iff nobody was between add and subtract. */
  lemma {:induction false} ResetIsCleanIff(max: nat, g: Gate, schedule: seq<Step>)
    requires NoReset(schedule) && |g.pcs| < WORD
    ensures var start := Next(max, g, Reset);
            var g' := Run(max, start, schedule);
            g'.counter == (NewlyGranted(start, g') + Count(g'.pcs, Backing)) % WORD <==> Count(g.pcs, Backing) == 0
  {
    var start := Next(max, g, Reset);
    var g' := Run(max, start, schedule);
    var b := Count(g.pcs, Backing);
    var x := NewlyGranted(start, g') + Count(g'.pcs, Backing);
    ResetDrift(max, g, schedule);
    CountAll(g.pcs);
    if 0 < b {
      ModDiffers(x, b);
    }
  }

  lemma {:induction false} ModDiffers(x: int, b: int)
    requires 0 < b < WORD
    ensures (x - b) % WORD != x % WORD
  {
    ModPlus(x, -b);
  }

  // After a reset with b threads between add and subtract: more of them only once the slots are
  // gone, and never more than b admissions too many.
  ghost predicate ResetInvariant(max: nat, start: Gate, g: Gate, b: nat) {
    && |g.pcs| == |start.pcs|
    && g.counter == Unwrapped(start, g, b) % WORD
    && 0 <= NewlyGranted(start, g) <= max + b
    && (Count(g.pcs, Backing) <= b || NewlyGranted(start, g) >= max)
  }

  // The counter is below zero, and so beyond every maximum, or it is what it seems.
  lemma {:induction false} WrappedCounter(x: int, max: nat, n: int)
    requires -n <= x <= n && n + max < WORD
    ensures x < 0 ==> x % WORD >= max
    ensures x >= 0 ==> x % WORD == x
  {
    if x < 0 {
      ModShift(x, 1);
    }
  }

  // Where the counter stands before it wraps.
  function Unwrapped(start: Gate, g: Gate, b: nat): int {
    NewlyGranted(start, g) + Count(g.pcs, Backing) - b
  }

  lemma {:induction false} UnwrappedRange(start: Gate, g: Gate, b: nat, max: nat)
    requires NewlyGranted(start, g) >= 0 && |g.pcs| + max < WORD && b <= |g.pcs|
    ensures var x := Unwrapped(start, g, b);
            (x < 0 ==> x % WORD >= max) && (x >= 0 ==> x % WORD == x)
  {
    CountAll(g.pcs);
    WrappedCounter(Unwrapped(start, g, b), max, |g.pcs|);
  }

  lemma {:induction false} ResetAdd(max: nat, start: Gate, g: Gate, i: nat, b: nat)
    requires ResetInvariant(max, start, g, b) && |g.pcs| + max < WORD && b <= |g.pcs|
    requires i < |g.pcs| && g.pcs[i].Ready?
    ensures ResetInvariant(max, start, Next(max, g, Advance(i)), b)
  {
    var now := if g.counter < max then Granted else Backing;
    CountUpdate(g.pcs, i, now, Granted);
    CountUpdate(g.pcs, i, now, Backing);
    ModPlus(Unwrapped(start, g, b), 1);
    UnwrappedRange(start, g, b, max);
  }

  lemma {:induction false} ResetSubtract(max: nat, start: Gate, g: Gate, i: nat, b: nat)
    requires ResetInvariant(max, start, g, b) && i < |g.pcs| && g.pcs[i].Backing?
    ensures ResetInvariant(max, start, Next(max, g, Advance(i)), b)
  {
    CountUpdate(g.pcs, i, Refused, Granted);
    CountUpdate(g.pcs, i, Refused, Backing);
    ModPlus(Unwrapped(start, g, b), -1);
  }

  lemma {:induction false} ResetStep(max: nat, start: Gate, g: Gate, i: nat, b: nat)
    requires ResetInvariant(max, start, g, b) && |g.pcs| + max < WORD && b <= |g.pcs|
    ensures ResetInvariant(max, start, Next(max, g, Advance(i)), b)
  {
    if i < |g.pcs| && g.pcs[i].Ready? {
      ResetAdd(max, start, g, i, b);
    } else if i < |g.pcs| && g.pcs[i].Backing? {
      ResetSubtract(max, start, g, i, b);
    }
  }

  lemma {:induction false} ResetRun(max: nat, start: Gate, g: Gate, schedule: seq<Step>, b: nat)
    requires ResetInvariant(max, start, g, b) && |g.pcs| + max < WORD && b <= |g.pcs| && NoReset(schedule)
    ensures ResetInvariant(max, start, Run(max, g, schedule), b)
    decreases |schedule|
  {
    if schedule != [] {
      ResetStep(max, start, g, schedule[0].thread, b);
      ResetRun(max, start, Next(max, g, schedule[0]), schedule[1..], b);
    }
  }

  /** What a reset with b threads between add and subtract does to every later interleaving: a
      caller that finds a free slot is sent back iff fewer than b threads were granted or are
      between add and subtract again, and at most b callers too many are let in. */
  lemma {:induction false} AfterReset(max: nat, g: Gate, schedule: seq<Step>)
    requires NoReset(schedule) && |g.pcs| + max < WORD
    ensures var start, b := Next(max, g, Reset), Count(g.pcs, Backing);
            var g' := Run(max, start, schedule);
            var granted := NewlyGranted(start, g');
            && granted <= max + b
            && forall i | 0 <= i < |g'.pcs| && g'.pcs[i].Ready? && granted < max ::
                 Next(max, g', Advance(i)).pcs[i].Backing? <==> granted + Count(g'.pcs, Backing) < b
  {
    var start, b := Next(max, g, Reset), Count(g.pcs, Backing);
    var g' := Run(max, start, schedule);
    CountAll(g.pcs);
    ResetRun(max, start, start, schedule, b);
    UnwrappedRange(start, g', b, max);
  }

  /** The bound is reached: with one slot and one thread between add and subtract at the reset,
      two callers are let in. */
  lemma {:induction false} ResetAdmitsTooMany()
    ensures var g := Gate(2, [Granted, Backing, Ready, Ready]);
            Run(1, g, [Reset, Advance(2), Advance(1), Advance(3)]) == Gate(1, [Granted, Refused, Granted, Granted])
  {
    var steps := [Reset, Advance(2), Advance(1), Advance(3)];
    assert steps[1..] == [Advance(2), Advance(1), Advance(3)];
    assert steps[1..][1..] == [Advance(1), Advance(3)];
    assert steps[1..][1..][1..] == [Advance(3)];
    var g1, g2 := Gate(0, [Granted, Backing, Ready, Ready]), Gate(1, [Granted, Backing, Granted, Ready]);
    var g3, g4 := Gate(0, [Granted, Refused, Granted, Ready]), Gate(1, [Granted, Refused, Granted, Granted]);
    assert Next(1, g1, Advance(2)) == g2 && Next(1, g2, Advance(1)) == g3 && Next(1, g3, Advance(3)) == g4;
    assert Run(1, g3, [Advance(3)]) == Run(1, g4, []) == g4;
    assert Run(1, g2, [Advance(1), Advance(3)]) == g4;
    assert Run(1, g1, [Advance(2), Advance(1), Advance(3)]) == g4;
  }

  /** The wrap: an outcome recorded between another thread's add and subtract leaves the
      counter at the largest word, and the next caller is refused although every slot is free. */
  lemma {:induction false} WrapRefusesFreeSlot()
    ensures var start := Gate(0, [Ready, Ready, Ready]);
            var late := [Advance(0), Advance(1), Reset, Advance(1)];
            var g := Run(1, start, late);
            var g' := Run(1, start, late + [Advance(2)]);
            && g.counter == WORD - 1 && g.pcs == [Granted, Refused, Ready]
            && g'.pcs == [Granted, Refused, Backing]
  {
    var g1 := Gate(1, [Granted, Ready, Ready]);
    var g2 := Gate(2, [Granted, Backing, Ready]);
    var g3 := Gate(0, [Granted, Backing, Ready]);
    var g4 := Gate(WORD - 1, [Granted, Refused, Ready]);
    var late := [Advance(0), Advance(1), Reset, Advance(1)];
    assert Next(1, Gate(0, [Ready, Ready, Ready]), Advance(0)) == g1;
    assert Next(1, g1, Advance(1)) == g2;
    assert Next(1, g3, Advance(1)) == g4;
    assert late[1..] == [Advance(1), Reset, Advance(1)];
    assert late[1..][1..] == [Reset, Advance(1)];
    assert late[1..][1..][1..] == [Advance(1)];
    assert Run(1, g3, [Advance(1)]) == Run(1, g4, []) == g4;
    assert Run(1, g2, [Reset, Advance(1)]) == g4;
    assert Run(1, g1, [Advance(1), Reset, Advance(1)]) == g4;
    RunAppend(1, Gate(0, [Ready, Ready, Ready]), late, Advance(2));
  }

  lemma {:induction false} RunAppend(max: nat, g: Gate, schedule: seq<Step>, s: Step)
    ensures Run(max, g, schedule + [s]) == Next(max, Run(max, g, schedule), s)
    decreases |schedule|
  {
    if schedule == [] {
      assert schedule + [s] == [s];
      assert Run(max, Next(max, g, s), [s][1..]) == Next(max, g, s);
    } else {
      assert (schedule + [s])[1..] == schedule[1..] + [s];
      RunAppend(max, Next(max, g, schedule[0]), schedule[1..], s);
    }
  }
}
