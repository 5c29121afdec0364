/**
 * 5_pwm: Timer/Counter0 drives OC0A (PORTD pin 6) in fast PWM mode, and the
 * main loop sweeps the duty cycle in OCR0A up from 0 to 255 and back down,
 * one step per iteration, with a counted delay loop between steps.
 */
module PwmFade {
  import opened Registers

  /** OC0A is pin 6 of port D. */
  const OC0A: BitIndex := 6

  /** TCCR0A: `(1 << 7) | (1 << 6) | (1 << 1) | (1 << 0)`. */
  const TCCR0A_SETTING: bv8 := 0xC3
  /** TCCR0B: `(1 << 0) | (1 << 2)`. */
  const TCCR0B_SETTING: bv8 := 0x05

  /** The delay loop's iteration count. */
  const DELAY_COUNT := 10000

  /** The fast-PWM, inverting-output configuration at clock/1024. */
  lemma ControlSettings()
    ensures TCCR0A_SETTING == Mask(7) | Mask(6) | Mask(1) | Mask(0)
    ensures TCCR0B_SETTING == Mask(0) | Mask(2)
    ensures ClockDivisor(TCCR0B_SETTING) == 1024
  {
  }

  /** The loop's state: the duty cycle in OCR0A and the `uint8_t` step. */
  datatype Fade = Fade(duty: bv8, step: bv8)

  /** The state on entry to the loop. */
  const START := Fade(0, 1)

  /**
   * One iteration: `OCR0A += step` in 8-bit arithmetic, then `step = -step`
   * when the new duty cycle reads 255 or 0.
   */
  function Next(f: Fade): (g: Fade)
    ensures g.duty == f.duty + f.step
    ensures g.step == f.step || g.step == -f.step
  {
    var d := f.duty + f.step;
    Fade(d, Turned(d, f.step))
  }

  /** The step after the test `OCR0A == 255 || OCR0A == 0` on duty `d`. */
  function Turned(d: bv8, step: bv8): bv8
  {
    if d == 255 || d == 0 then -step else step
  }

  /** The state after `n` iterations. */
  function After(n: nat): Fade
  {
    if n == 0 then START else Next(After(n - 1))
  }

  /**
   * The states of a sweep: going up (step 1) below the top, or going down
   * (step 255, that is -1) above the bottom.
   */
  predicate Sweeping(f: Fade)
  {
    (f.step == 1 && f.duty != 255) || (f.step == 255 && f.duty != 0)
  }

  lemma IncrementNoWrap(d: bv8)
    requires d != 255
    ensures (d + 1) as int == d as int + 1
  {
  }

  lemma DecrementNoWrap(d: bv8)
    requires d != 0
    ensures (d + 255) as int == d as int - 1
  {
  }

  /**
   * A sweep step never wraps: the duty cycle moves by exactly one, it turns
   * around exactly when it reaches 0 or 255, and the sweep goes on.
   */
  lemma NextKeepsSweeping(f: Fade)
    requires Sweeping(f)
    ensures Sweeping(Next(f))
    ensures f.step == 1 ==> Next(f).duty as int == f.duty as int + 1
    ensures f.step == 255 ==> Next(f).duty as int == f.duty as int - 1
    ensures Next(f).step != f.step <==> Next(f).duty == 255 || Next(f).duty == 0
  {
    if f.step == 1 {
      IncrementNoWrap(f.duty);
    } else {
      DecrementNoWrap(f.duty);
    }
  }

  /**
   * The closed form of the sweep, a triangle wave of period 510: the duty
   * cycle after `n` iterations rises from 0 to 255 and falls back to 0 ...
   */
  function Level(n: nat): (d: int)
    ensures 0 <= d <= 255
  {
    var m := n % 510;
    if m < 255 then m else 510 - m
  }

  /** ... and the step is 1 on the way up, 255 (that is -1) on the way down. */
  function Direction(n: nat): bv8
  {
    if n % 510 < 255 then 1 else 255
  }

  lemma RemainderOf(a: int, q: int, r: int)
    requires a == 510 * q + r && 0 <= r < 510
    ensures a % 510 == r
  {
    QuotientUnique(a, 510, q, r);
  }

  /** The wave one position on: it moves by one and turns at 255 and at 0. */
  lemma LevelStep(n: nat)
    ensures var m := n % 510;
      (m < 254 ==> Level(n + 1) == m + 1 && Direction(n + 1) == 1) &&
      (m == 254 ==> Level(n + 1) == 255 && Direction(n + 1) == 255) &&
      (255 <= m < 509 ==> Level(n + 1) == 510 - m - 1 && Direction(n + 1) == 255) &&
      (m == 509 ==> Level(n + 1) == 0 && Direction(n + 1) == 1)
  {
    var m := n % 510;
    var q := n / 510;
    if m < 509 {
      RemainderOf(n + 1, q, m + 1);
    } else {
      RemainderOf(n + 1, q + 1, 0);
    }
  }

  /** A state on the wave at position `n` steps to the wave at position `n + 1`. */
  lemma NextFollowsWave(f: Fade, n: nat)
    requires f.duty as int == Level(n) && f.step == Direction(n)
    ensures Next(f).duty as int == Level(n + 1) && Next(f).step == Direction(n + 1)
  {
    LevelStep(n);
    var d := f.duty + f.step;
    if f.step == 1 {
      IncrementNoWrap(f.duty);
      if d as int == 255 {
        ByteFromValue(d, 255);
      }
    } else {
      DecrementNoWrap(f.duty);
      if d as int == 0 {
        ByteFromValue(d, 0);
      }
    }
  }

  /** After `n` iterations the loop is at position `n` of the triangle wave. */
  lemma {:induction false} AfterIsTriangle(n: nat)
    ensures After(n).duty as int == Level(n) && After(n).step == Direction(n)
  {
    if n > 0 {
      AfterIsTriangle(n - 1);
      NextFollowsWave(After(n - 1), n - 1);
    }
  }

  /**
   * Every state the loop reaches is on a sweep, so each iteration moves the
   * duty cycle by exactly one and turns around exactly at 255 and at 0.
   */
  lemma AfterIsSweeping(n: nat)
    ensures Sweeping(After(n))
    ensures After(n + 1).step != After(n).step <==> After(n + 1).duty == 255 || After(n + 1).duty == 0
  {
    AfterIsTriangle(n);
    NextKeepsSweeping(After(n));
  }

  /**
   * The sweep peaks at full duty after 255 steps, and returns to the start
   * every 510 steps.
   */
  lemma SweepPeriod(k: nat)
    ensures After(255 + 510 * k) == Fade(255, 255)
    ensures After(510 * k) == START
  {
    RemainderOf(255 + 510 * k, k, 255);
    RemainderOf(510 * k, k, 0);
    AfterIsTriangle(255 + 510 * k);
    AfterIsTriangle(510 * k);
    ByteFromValue(After(255 + 510 * k).duty, 255);
    ByteFromValue(After(510 * k).duty, 0);
  }

  /** The duty cycle stays within one step of the previous one, forever. */
  lemma DutyNeverJumps(n: nat)
    ensures var d0, d1 := After(n).duty as int, After(n + 1).duty as int;
      d1 == d0 + 1 || d1 == d0 - 1
  {
    AfterIsTriangle(n);
    AfterIsTriangle(n + 1);
    LevelStep(n);
  }

  /** The delay loop: counts from 0 up to DELAY_COUNT, touching no register. */
  method Delay() returns (i: int)
    ensures i == DELAY_COUNT
  {
    i := 0;
    while i < DELAY_COUNT
      invariant i <= DELAY_COUNT
    {
      i := i + 1;
    }
  }

  /** The register contents after the setup, starting from `m`. */
  function Configured(m: Regs): Regs
  {
    m[DDRD := WithBitSet(m[DDRD], OC0A)]
     [TCCR0A := TCCR0A_SETTING]
     [TCCR0B := TCCR0B_SETTING]
     [OCR0A := START.duty]
  }

  /**
   * Setup: pin 6 of port D an output, fast PWM at clock/1024, duty cycle 0;
   * returns the initial step.
   */
  method Setup(rf: RegisterFile) returns (step: bv8)
    requires rf.Valid()
    modifies rf
    ensures rf.Valid()
    ensures rf.mem == Configured(old(rf.mem))
    ensures Fade(rf.mem[OCR0A], step) == START
    ensures var d := old(rf.mem)[DDRD];
      rf.trace == old(rf.trace) + [Read(DDRD, d), Write(DDRD, WithBitSet(d, OC0A)),
        Write(TCCR0A, TCCR0A_SETTING), Write(TCCR0B, TCCR0B_SETTING), Write(OCR0A, 0)]
  {
    ControlSettings();
    rf.SetBit(DDRD, OC0A);
    rf.Put(TCCR0A, Mask(7) | Mask(6) | Mask(1) | Mask(0));
    rf.Put(TCCR0B, Mask(0) | Mask(2));
    rf.Put(OCR0A, 0);
    step := 1;
  }

  /** The reads of the turn-around test `OCR0A == 255 || OCR0A == 0` when OCR0A holds `e`. */
  function TestTrace(e: bv8): seq<Access>
  {
    if e == 255 then [Read(OCR0A, e)] else [Read(OCR0A, e), Read(OCR0A, e)]
  }

  /**
   * The test `if (OCR0A == 255 || OCR0A == 0) step = -step;`: OCR0A is read
   * once, and a second time only when the first comparison fails.
   */
  method TurnAround(rf: RegisterFile, step: bv8) returns (step': bv8)
    requires rf.Valid()
    modifies rf
    ensures rf.Valid() && rf.mem == old(rf.mem)
    ensures step' == Turned(old(rf.mem)[OCR0A], step)
    ensures rf.trace == old(rf.trace) + TestTrace(old(rf.mem)[OCR0A])
  {
    step' := step;
    var atTop := rf.Get(OCR0A);
    if atTop == 255 {
      step' := -step;
    } else {
      var atBottom := rf.Get(OCR0A);
      if atBottom == 0 {
        step' := -step;
      }
      assert rf.trace == old(rf.trace) + [Read(OCR0A, atTop)] + [Read(OCR0A, atTop)];
    }
  }

  /** `OCR0A += step`: read OCR0A, add in 8 bits, write it back. */
  method Advance(rf: RegisterFile, step: bv8)
    requires rf.Valid()
    modifies rf
    ensures rf.Valid()
    ensures rf.mem == old(rf.mem)[OCR0A := old(rf.mem)[OCR0A] + step]
    ensures var d := old(rf.mem)[OCR0A];
      rf.trace == old(rf.trace) + [Read(OCR0A, d), Write(OCR0A, d + step)]
  {
    var duty := rf.Get(OCR0A);
    var sum := duty + step;
    rf.Put(OCR0A, sum);
  }

  /**
   * One iteration of the main loop: advance the duty cycle, the turn-around
   * test, then the delay.
   */
  method Iterate(rf: RegisterFile, step: bv8) returns (step': bv8)
    requires rf.Valid()
    modifies rf
    ensures rf.Valid()
    ensures Fade(rf.mem[OCR0A], step') == Next(Fade(old(rf.mem)[OCR0A], step))
    ensures rf.mem == old(rf.mem)[OCR0A := rf.mem[OCR0A]]
    ensures var d := old(rf.mem)[OCR0A];
      rf.trace == old(rf.trace) + [Read(OCR0A, d), Write(OCR0A, d + step)] + TestTrace(d + step)
  {
    ghost var e := old(rf.mem)[OCR0A] + step;
    Advance(rf, step);
    assert rf.mem[OCR0A] == e;
    ghost var t1 := rf.trace;
    step' := TurnAround(rf, step);
    assert rf.trace == t1 + TestTrace(e);
    var _ := Delay();
  }

  /** Setup followed by `n` iterations: OCR0A follows the triangle wave. */
  method Run(rf: RegisterFile, n: nat) returns (step: bv8)
    requires rf.Valid()
    modifies rf
    ensures rf.Valid()
    ensures Fade(rf.mem[OCR0A], step) == After(n)
    ensures rf.mem[OCR0A] as int == Level(n) && step == Direction(n)
    ensures rf.mem == Configured(old(rf.mem))[OCR0A := rf.mem[OCR0A]]
  {
    step := Setup(rf);
    ghost var start := rf.mem;
    var k := 0;
    while k < n
      invariant 0 <= k <= n
      invariant rf.Valid()
      invariant Fade(rf.mem[OCR0A], step) == After(k)
      invariant rf.mem == start[OCR0A := rf.mem[OCR0A]]
    {
      step := Iterate(rf, step);
      k := k + 1;
    }
    AfterIsTriangle(n);
  }
}
