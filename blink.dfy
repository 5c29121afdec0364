/**
 * 1_blink: PORTB pin 5 (the on-board LED) becomes an output, then the main
 * loop toggles it and spins a counted delay loop, forever.
 */
module Blink {
  import opened Registers

  /** The LED is on pin 5 of port B. */
  const LED: BitIndex := 5

  /** The start value of the delay loop's down-counter. */
  const DELAY_COUNT := 2000000

  /** The register contents after one loop iteration: PORTB bit 5 flipped. */
  function Toggled(m: Regs): Regs
  {
    m[PORTB := WithBitToggled(m[PORTB], LED)]
  }

  /** The register contents after `n` loop iterations. */
  function Blinked(m: Regs, n: nat): Regs
  {
    if n == 0 then m else Toggled(Blinked(m, n - 1))
  }

  /**
   * After `n` iterations the LED bit has flipped `n` times; no other bit of
   * PORTB and no other register has changed.
   */
  lemma {:induction false} BlinkedLevel(m: Regs, n: nat)
    ensures ReadBit(Blinked(m, n)[PORTB], LED) == (ReadBit(m[PORTB], LED) + n) % 2
    ensures forall k: BitIndex :: k != LED ==> ReadBit(Blinked(m, n)[PORTB], k) == ReadBit(m[PORTB], k)
    ensures forall a: Addr :: a != PORTB ==> Blinked(m, n)[a] == m[a]
  {
    if n > 0 {
      BlinkedLevel(m, n - 1);
    }
  }

  /** Every two iterations restore the register contents. */
  lemma {:induction false} BlinkPeriod(m: Regs, n: nat)
    ensures Blinked(m, 2 * n) == m
  {
    if n > 0 {
      BlinkPeriod(m, n - 1);
      var before := Blinked(m, 2 * (n - 1));
      assert Blinked(m, 2 * n) == Toggled(Toggled(before));
      ToggleBitTwiceRestores(before[PORTB], LED);
      assert Toggled(Toggled(before)) == before;
    }
  }

  /** Setup: `IO_PIN(0x04) |= (1 << 5)` makes DDRB pin 5 an output. */
  method Setup(rf: RegisterFile)
    requires rf.Valid()
    modifies rf
    ensures rf.Valid()
    ensures rf.mem == old(rf.mem)[DDRB := WithBitSet(old(rf.mem)[DDRB], LED)]
    ensures rf.trace == old(rf.trace) + [Read(DDRB, old(rf.mem)[DDRB]), Write(DDRB, WithBitSet(old(rf.mem)[DDRB], LED))]
  {
    rf.SetBit(IoReg(0x04), LED);
  }

  /** The NOP loop: counts a long down from DELAY_COUNT to 0, touching no register. */
  method Delay() returns (i: int)
    ensures i == 0
  {
    i := DELAY_COUNT;
    while i > 0
      invariant i >= 0
    {
      i := i - 1;
    }
  }

  /** One iteration of the main loop: `IO_PIN(0x05) ^= (1 << 5)`, then the delay. */
  method Step(rf: RegisterFile)
    requires rf.Valid()
    modifies rf
    ensures rf.Valid()
    ensures rf.mem == Toggled(old(rf.mem))
    ensures rf.trace == old(rf.trace) + [Read(PORTB, old(rf.mem)[PORTB]), Write(PORTB, WithBitToggled(old(rf.mem)[PORTB], LED))]
  {
    rf.ToggleBit(IoReg(0x05), LED);
    var _ := Delay();
  }

  /** Setup followed by `n` iterations of the endless main loop. */
  method Run(rf: RegisterFile, n: nat)
    requires rf.Valid()
    modifies rf
    ensures rf.Valid()
    ensures rf.mem == Blinked(old(rf.mem)[DDRB := WithBitSet(old(rf.mem)[DDRB], LED)], n)
  {
    Setup(rf);
    ghost var start := rf.mem;
    var k := 0;
    while k < n
      invariant 0 <= k <= n
      invariant rf.Valid()
      invariant rf.mem == Blinked(start, k)
    {
      Step(rf);
      k := k + 1;
    }
  }
}
