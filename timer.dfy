/**
 * 4_timer: Timer/Counter1 toggles OC1A (PORTB pin 1) on every compare match
 * in clear-timer-on-compare mode; the compare value makes the match happen
 * once a second. After the setup the main loop does nothing.
 */
module Timer1 {
  import opened Registers

  /** OC1A is pin 1 of port B. */
  const OC1A: BitIndex := 1

  /** COM1A0 (bit 6 of TCCR1A): toggle OC1A on compare match. */
  const COM1A0: BitIndex := 6
  /** WGM12 (bit 3 of TCCR1B): clear the counter on a match with OCR1A. */
  const WGM12: BitIndex := 3

  /** The value stored in TCCR1A: `1 << 6`. */
  const TCCR1A_SETTING: bv8 := 0x40
  /** The value stored in TCCR1B: `(1 << 2) | (1 << 0) | (1 << 3)`. */
  const TCCR1B_SETTING: bv8 := 0x0D

  /** The division factor the program means to select. */
  const PRESCALER := 1024

  /** The compare value for one match per second: clock / prescaler - 1. */
  function CompareValue(cpu: nat, prescaler: nat): int
    requires prescaler > 0
  {
    cpu / prescaler - 1
  }

  const COMPARE: U16 := CompareValue(CPU_CLOCK, PRESCALER)

  /** The bytes of the compare value, as stored in OCR1AH and OCR1AL. */
  const COMPARE_HIGH: bv8 := 0x3D
  const COMPARE_LOW: bv8 := 0x08

  /** The compare value is 15624, fits `uint16_t`, and is split 0x3D:0x08. */
  lemma CompareValueBytes()
    ensures COMPARE == 15624
    ensures HighByte(COMPARE) == COMPARE_HIGH && LowByte(COMPARE) == COMPARE_LOW
    ensures Word(LowByte(COMPARE), HighByte(COMPARE)) == COMPARE
  {
    WordOfBytes(COMPARE);
  }

  /** The control values select CTC mode, toggling OC1A, at clock/1024. */
  lemma ControlSettings()
    ensures TCCR1A_SETTING == Mask(COM1A0) && ReadBit(TCCR1A_SETTING, COM1A0) == 1
    ensures TCCR1B_SETTING == Mask(2) | Mask(0) | Mask(WGM12) && ReadBit(TCCR1B_SETTING, WGM12) == 1
    ensures ClockDivisor(TCCR1B_SETTING) == PRESCALER
  {
  }

  /** The register contents the setup leaves behind, starting from `m`. */
  function Configured(m: Regs): Regs
  {
    m[DDRB := WithBitSet(m[DDRB], OC1A)]
     [TCCR1A := TCCR1A_SETTING]
     [TCCR1B := TCCR1B_SETTING]
     [OCR1AH := COMPARE_HIGH]
     [OCR1AL := COMPARE_LOW]
  }

  /**
   * After the setup OC1A is an output, the timer toggles it on a match, and
   * a match comes every (OCR1A + 1) * divisor = CPU_CLOCK cycles: once a
   * second. Nothing outside the five configured registers changes.
   */
  lemma ConfiguredTogglesEverySecond(m: Regs)
    ensures var c := Configured(m);
      ReadBit(c[DDRB], OC1A) == 1 &&
      ReadBit(c[TCCR1A], COM1A0) == 1 && ReadBit(c[TCCR1B], WGM12) == 1 &&
      (Word(c[OCR1AL], c[OCR1AH]) + 1) * ClockDivisor(c[TCCR1B]) == CPU_CLOCK
    ensures forall a: Addr :: a !in {DDRB, TCCR1A, TCCR1B, OCR1AH, OCR1AL} ==> Configured(m)[a] == m[a]
  {
    CompareValueBytes();
    ControlSettings();
  }

  /** The accesses of the setup, DDRB holding `ddrb` beforehand. */
  function SetupTrace(ddrb: bv8): seq<Access>
  {
    [Read(DDRB, ddrb), Write(DDRB, WithBitSet(ddrb, OC1A)),
     Write(TCCR1A, TCCR1A_SETTING), Write(TCCR1B, TCCR1B_SETTING),
     Write(OCR1AH, COMPARE_HIGH), Write(OCR1AL, COMPARE_LOW)]
  }

  /**
   * OCR1A is written high byte first, as the 16-bit register's shared
   * temporary byte requires, and each half is written exactly once.
   */
  lemma HighByteWrittenFirst(ddrb: bv8)
    ensures var t := SetupTrace(ddrb);
      forall i, j :: 0 <= i < |t| && 0 <= j < |t| && t[i] == Write(OCR1AH, t[i].value) && t[j] == Write(OCR1AL, t[j].value) ==> i < j
    ensures var t := SetupTrace(ddrb);
      exists i :: 0 <= i < |t| && t[i] == Write(OCR1AH, HighByte(COMPARE))
    ensures var t := SetupTrace(ddrb);
      exists j :: 0 <= j < |t| && t[j] == Write(OCR1AL, LowByte(COMPARE))
  {
    CompareValueBytes();
    var t := SetupTrace(ddrb);
    assert t[4] == Write(OCR1AH, HighByte(COMPARE));
    assert t[5] == Write(OCR1AL, LowByte(COMPARE));
  }

  /** The whole program: configure the pin and the timer, then idle. */
  method Setup(rf: RegisterFile)
    requires rf.Valid()
    modifies rf
    ensures rf.Valid()
    ensures rf.mem == Configured(old(rf.mem))
    ensures rf.trace == old(rf.trace) + SetupTrace(old(rf.mem)[DDRB])
  {
    CompareValueBytes();
    ControlSettings();
    rf.SetBit(DDRB, OC1A);
    rf.Put(IoReg(0x60), Mask(COM1A0));
    rf.Put(IoReg(0x61), Mask(2) | Mask(0) | Mask(WGM12));
    assert rf.trace == old(rf.trace) + SetupTrace(old(rf.mem)[DDRB])[..4];
    var compareValue: U16 := CPU_CLOCK / PRESCALER - 1;
    rf.Put(IoReg(0x69), HighByte(compareValue));
    rf.Put(IoReg(0x68), LowByte(compareValue));
  }
}
