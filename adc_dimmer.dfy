/**
 * 6_adc: a potentiometer on ADC channel 0 sets the brightness of the LED on
 * OC0A (PORTD pin 6). Each loop iteration converts once, maps the 10-bit
 * reading 0..1023 onto the 8-bit duty cycle 0..255 and stores it in OCR0A.
 */
module AdcDimmer {
  import opened Registers
  import opened Adc

  /** OC0A is pin 6 of port D. */
  const OC0A: BitIndex := 6

  /** TCCR0A: `(1 << 7) | (1 << 1) | (1 << 0)`, fast PWM clearing OC0A on match. */
  const TCCR0A_SETTING: bv8 := 0x83
  /** TCCR0B: `(1 << 0) | (1 << 2)`, clock / 1024. */
  const TCCR0B_SETTING: bv8 := 0x05

  lemma TimerSettings()
    ensures TCCR0A_SETTING == Mask(7) | Mask(1) | Mask(0)
    ensures TCCR0B_SETTING == Mask(0) | Mask(2)
    ensures ClockDivisor(TCCR0B_SETTING) == 1024
  {
  }

  /**
   * `((uint32_t)adc * 255) / 1023`: the reading scaled from 0..1023 onto
   * 0..255, rounded down.
   */
  function DutyCycle(adc: U16): (r: nat)
    ensures r * 1023 <= adc * 255 < (r + 1) * 1023
  {
    adc * 255 / 1023
  }

  /** The product never overflows `uint32_t`, and the quotient fits `uint16_t`. */
  lemma DutyCycleFits(adc: U16)
    ensures adc * 255 < 0x1_0000_0000
    ensures DutyCycle(adc) < 0x1_0000
  {
  }

  /** A 10-bit reading maps into 0..255, the bottom to 0 and the top to 255. */
  lemma DutyCycleRange(adc: U16)
    requires adc <= 1023
    ensures DutyCycle(adc) <= 255
    ensures DutyCycle(adc) == 0 <==> adc <= 4
    ensures DutyCycle(adc) == 255 <==> adc == 1023
  {
  }

  /** Turning the potentiometer up never dims the LED. */
  lemma DutyCycleMonotone(a: U16, b: U16)
    requires a <= b
    ensures DutyCycle(a) <= DutyCycle(b)
  {
  }

  /**
   * For a 10-bit reading the `uint8_t` store into OCR0A keeps the whole
   * duty cycle: no truncation happens.
   */
  lemma StoredDutyIsExact(adc: U16)
    requires adc <= 1023
    ensures LowByte(DutyCycle(adc)) as int == DutyCycle(adc)
  {
    var d := DutyCycle(adc);
    DutyCycleRange(adc);
    assert 0 <= d < 256;
    QuotientUnique(d, 256, 0, d);
  }

  /** The register contents the setup leaves behind, starting from `m`. */
  function Configured(m: Regs): Regs
  {
    m[DDRD := WithBitSet(m[DDRD], OC0A)]
     [ADMUX := ADMUX_SETTING][ADCSRA := ADCSRA_SETTING]
     [TCCR0A := TCCR0A_SETTING][TCCR0B := TCCR0B_SETTING]
  }

  /** Setup: the LED pin an output, the converter and the PWM timer configured. */
  method Setup(rf: RegisterFile)
    requires rf.Valid()
    modifies rf
    ensures rf.Valid()
    ensures rf.mem == Configured(old(rf.mem))
    ensures var d := old(rf.mem)[DDRD];
      rf.trace == old(rf.trace) + [Read(DDRD, d), Write(DDRD, WithBitSet(d, OC0A)),
        Write(ADMUX, ADMUX_SETTING), Write(ADCSRA, ADCSRA_SETTING),
        Write(TCCR0A, TCCR0A_SETTING), Write(TCCR0B, TCCR0B_SETTING)]
  {
    TimerSettings();
    rf.SetBit(DDRD, OC0A);
    Init(rf);
    rf.Put(TCCR0A, Mask(7) | Mask(1) | Mask(0));
    rf.Put(TCCR0B, Mask(0) | Mask(2));
  }

  /** The duty cycle one iteration stores, the result registers reading `lo` and `hi`. */
  function StoredDuty(lo: bv8, hi: bv8): bv8
  {
    DutyCycleFits(Word(lo, hi));
    LowByte(DutyCycle(Word(lo, hi)))
  }

  /**
   * One iteration of the main loop: convert (the waits seeing `obs`, the
   * result registers `lo` and `hi`), scale, and store the duty cycle.
   */
  method Step(rf: RegisterFile, obs: seq<bv8>, lo: bv8, hi: bv8)
    requires rf.Valid() && Reaches(obs, ADSC, 0)
    modifies rf
    ensures rf.Valid()
    ensures rf.mem == old(rf.mem)[ADCSRA := obs[FirstHit(obs, ADSC, 0)]][ADCL := lo][ADCH := hi][OCR0A := StoredDuty(lo, hi)]
    ensures rf.trace == old(rf.trace) + ConversionTrace(old(rf.mem)[ADCSRA], obs, lo, hi) + [Write(OCR0A, StoredDuty(lo, hi))]
  {
    var adcRead := Convert(rf, obs, lo, hi);
    DutyCycleFits(adcRead);
    var dutyCycle := DutyCycle(adcRead);
    rf.Put(OCR0A, LowByte(dutyCycle));
  }

  /**
   * What one iteration does for a 10-bit reading: OCR0A ends up holding the
   * reading scaled onto 0..255, exactly.
   */
  lemma StepStoresScaledReading(lo: bv8, hi: bv8)
    requires hi as int <= 3
    ensures StoredDuty(lo, hi) as int == DutyCycle(Word(lo, hi)) <= 255
    ensures StoredDuty(lo, hi) as int * 1023 <= Word(lo, hi) * 255 < (StoredDuty(lo, hi) as int + 1) * 1023
  {
    TenBitResult(lo, hi);
    StoredDutyIsExact(Word(lo, hi));
    DutyCycleRange(Word(lo, hi));
  }
}
