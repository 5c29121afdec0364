/**
 * 2_button_polling: PORTB pin 5 drives the LED and PORTB pin 0 reads the
 * button; the main loop copies the button's input level onto the LED, forever.
 */
module ButtonPolling {
  import opened Registers

  const LED: BitIndex := 5
  const BUTTON: BitIndex := 0

  /** DDRB after setup: pin 5 an output, pin 0 an input. */
  function Directions(ddrb: bv8): (r: bv8)
    ensures ReadBit(r, LED) == 1 && ReadBit(r, BUTTON) == 0
    ensures forall k: BitIndex :: k != LED && k != BUTTON ==> ReadBit(r, k) == ReadBit(ddrb, k)
  {
    WithBitCleared(WithBitSet(ddrb, LED), BUTTON)
  }

  /** PORTB after one iteration that read `pinb` from PINB. */
  function Mirror(portb: bv8, pinb: bv8): (r: bv8)
    ensures ReadBit(r, LED) == ReadBit(pinb, BUTTON)
    ensures forall k: BitIndex :: k != LED ==> ReadBit(r, k) == ReadBit(portb, k)
  {
    if pinb & Mask(BUTTON) != 0 then WithBitSet(portb, LED) else WithBitCleared(portb, LED)
  }

  /** The register contents after one iteration that saw `pinb` on the input pins. */
  function Polled(m: Regs, pinb: bv8): Regs
  {
    m[PINB := pinb][PORTB := Mirror(m[PORTB], pinb)]
  }

  /** Polling again with the same input level changes nothing. */
  lemma PollIdempotent(m: Regs, pinb: bv8)
    ensures Polled(Polled(m, pinb), pinb) == Polled(m, pinb)
  {
    var p := Mirror(m[PORTB], pinb);
    BitsDetermineByte(Mirror(p, pinb), p);
  }

  /**
   * Setup: `IO_PIN(0x04) |= (1 << 5)`, then `IO_PIN(0x04) &= ~(1 << 0)`.
   */
  method Setup(rf: RegisterFile)
    requires rf.Valid()
    modifies rf
    ensures rf.Valid()
    ensures rf.mem == old(rf.mem)[DDRB := Directions(old(rf.mem)[DDRB])]
    ensures var d := old(rf.mem)[DDRB];
      rf.trace == old(rf.trace) + [Read(DDRB, d), Write(DDRB, WithBitSet(d, LED)),
                                   Read(DDRB, WithBitSet(d, LED)), Write(DDRB, Directions(d))]
  {
    rf.SetBit(IoReg(0x04), LED);
    rf.UnsetBit(IoReg(0x04), BUTTON);
  }

  /**
   * One iteration of the main loop: read PINB (the hardware shows `pinb`),
   * then set or clear PORTB bit 5 as PINB bit 0 is set or clear.
   */
  method Step(rf: RegisterFile, pinb: bv8)
    requires rf.Valid()
    modifies rf
    ensures rf.Valid()
    ensures rf.mem == Polled(old(rf.mem), pinb)
    ensures var p := old(rf.mem)[PORTB];
      rf.trace == old(rf.trace) + [Read(PINB, pinb), Read(PORTB, p), Write(PORTB, Mirror(p, pinb))]
  {
    var input := rf.Sample(IoReg(0x03), pinb);
    if input & Mask(BUTTON) != 0 {
      rf.SetBit(IoReg(0x05), LED);
    } else {
      rf.UnsetBit(IoReg(0x05), LED);
    }
  }
}
