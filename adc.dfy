/**
 * The analog-to-digital converter as 6_adc and 7_uart drive it: AVcc
 * reference, converter enabled with the clock divided by 128, one
 * conversion started by ADSC and awaited until the hardware clears ADSC,
 * then the 10-bit result read from ADCL and ADCH.
 */
module Adc {
  import opened Registers

  /** REFS0 (bit 6 of ADMUX): AVcc is the reference voltage. */
  const REFS0: BitIndex := 6
  /** ADSC (bit 6 of ADCSRA): start a conversion; reads 1 until it is done. */
  const ADSC: BitIndex := 6
  /** ADIF (bit 4 of ADCSRA): a conversion has completed. */
  const ADIF: BitIndex := 4
  /** ADEN (bit 7 of ADCSRA): the converter is enabled. */
  const ADEN: BitIndex := 7

  /** ADMUX: `1 << 6`. */
  const ADMUX_SETTING: bv8 := 0x40
  /** ADCSRA: `(1 << 7) | (1 << 2) | (1 << 1) | (1 << 0)`. */
  const ADCSRA_SETTING: bv8 := 0x87

  /** The division factor the prescaler bits ADPS2..ADPS0 (bits 2..0 of ADCSRA) select. */
  function AdcDivisor(adcsra: bv8): (r: nat)
    ensures r in {2, 4, 8, 16, 32, 64, 128}
    ensures r == 128 <==> adcsra & 7 == 7
  {
    var ps := adcsra & 7;
    if ps <= 1 then 2 else if ps == 2 then 4 else if ps == 3 then 8 else if ps == 4 then 16
    else if ps == 5 then 32 else if ps == 6 then 64 else 128
  }

  /**
   * The settings select the AVcc reference with channel 0, enable the
   * converter, and clock it at 16 MHz / 128 = 125 kHz.
   */
  lemma Settings()
    ensures ADMUX_SETTING == Mask(REFS0) && ReadBit(ADMUX_SETTING, REFS0) == 1
    ensures ADCSRA_SETTING == Mask(ADEN) | Mask(2) | Mask(1) | Mask(0) && ReadBit(ADCSRA_SETTING, ADEN) == 1
    ensures CPU_CLOCK / AdcDivisor(ADCSRA_SETTING) == 125000
  {
  }

  /** `(admux & 0xF0) | (pin & 0x0F)`: keep the reference bits, select channel `pin`. */
  function SelectChannel(admux: bv8, pin: bv8): (r: bv8)
    ensures forall k: BitIndex :: 4 <= k ==> ReadBit(r, k) == ReadBit(admux, k)
    ensures forall k: BitIndex :: k < 4 ==> ReadBit(r, k) == ReadBit(pin, k)
  {
    (admux & 0xF0) | (pin & 0x0F)
  }

  /** Selecting the same channel twice is selecting it once. */
  lemma SelectChannelIdempotent(admux: bv8, pin: bv8)
    ensures SelectChannel(SelectChannel(admux, pin), pin) == SelectChannel(admux, pin)
  {
    var once := SelectChannel(admux, pin);
    BitsDetermineByte(SelectChannel(once, pin), once);
  }

  /** Selecting channel 0 after the setup keeps the AVcc reference. */
  lemma ChannelZeroKeepsReference()
    ensures SelectChannel(ADMUX_SETTING, 0) == ADMUX_SETTING
    ensures ReadBit(SelectChannel(ADMUX_SETTING, 0), REFS0) == 1
  {
  }

  /** The registers a conversion on a selected channel writes or reads back: ADMUX, ADCSRA, ADCL, ADCH. */
  predicate Converting(a: Addr)
  {
    a == ADMUX || a == ADCSRA || a == ADCL || a == ADCH
  }

  /** A right-adjusted 10-bit result (ADCH holds bits 9 and 8) is at most 1023. */
  lemma TenBitResult(lo: bv8, hi: bv8)
    requires hi as int <= 3
    ensures Word(lo, hi) <= 1023
  {
  }

  /**
   * The accesses of one conversion: ADSC set by read-modify-write, the wait
   * until ADSC reads 0, then ADCL and ADCH read in that order.
   */
  function ConversionTrace(adcsra: bv8, obs: seq<bv8>, lo: bv8, hi: bv8): seq<Access>
    requires Reaches(obs, ADSC, 0)
  {
    [Read(ADCSRA, adcsra), Write(ADCSRA, WithBitSet(adcsra, ADSC))]
      + PollTrace(ADCSRA, ADSC, 0, obs)
      + [Read(ADCL, lo), Read(ADCH, hi)]
  }

  /** ADC_init (6_adc and 7_uart): the reference, then enable and prescaler. */
  method Init(rf: RegisterFile)
    requires rf.Valid()
    modifies rf
    ensures rf.Valid()
    ensures rf.mem == old(rf.mem)[ADMUX := ADMUX_SETTING][ADCSRA := ADCSRA_SETTING]
    ensures rf.trace == old(rf.trace) + [Write(ADMUX, ADMUX_SETTING), Write(ADCSRA, ADCSRA_SETTING)]
  {
    Settings();
    rf.Put(ADMUX, Mask(REFS0));
    rf.Put(ADCSRA, Mask(ADEN) | Mask(2) | Mask(1) | Mask(0));
  }

  /** `ADCSRA |= (1 << 6)`, then busy-wait while ADSC reads 1 (the k-th read seeing `obs[k]`). */
  method StartAndWait(rf: RegisterFile, obs: seq<bv8>)
    requires rf.Valid() && Reaches(obs, ADSC, 0)
    modifies rf
    ensures rf.Valid()
    ensures rf.mem == old(rf.mem)[ADCSRA := obs[FirstHit(obs, ADSC, 0)]]
    ensures var adcsra := old(rf.mem)[ADCSRA];
      rf.trace == old(rf.trace) + [Read(ADCSRA, adcsra), Write(ADCSRA, WithBitSet(adcsra, ADSC))]
        + PollTrace(ADCSRA, ADSC, 0, obs)
  {
    rf.SetBit(ADCSRA, ADSC);
    var _ := rf.PollBit(ADCSRA, ADSC, 0, obs);
  }

  /** `(uint16_t)ADCL | ((uint16_t)ADCH << 8)`, ADCL read first (seeing `lo`), then ADCH (seeing `hi`). */
  method ReadResult(rf: RegisterFile, lo: bv8, hi: bv8) returns (result: U16)
    requires rf.Valid()
    modifies rf
    ensures rf.Valid()
    ensures result == Word(lo, hi)
    ensures rf.mem == old(rf.mem)[ADCL := lo][ADCH := hi]
    ensures rf.trace == old(rf.trace) + [Read(ADCL, lo), Read(ADCH, hi)]
  {
    var low := rf.Sample(ADCL, lo);
    var high := rf.Sample(ADCH, hi);
    result := Word(low, high);
  }

  /** One conversion: start it, wait for it, read its result. */
  method Convert(rf: RegisterFile, obs: seq<bv8>, lo: bv8, hi: bv8) returns (result: U16)
    requires rf.Valid() && Reaches(obs, ADSC, 0)
    modifies rf
    ensures rf.Valid()
    ensures result == Word(lo, hi)
    ensures rf.mem == old(rf.mem)[ADCSRA := obs[FirstHit(obs, ADSC, 0)]][ADCL := lo][ADCH := hi]
    ensures rf.trace == old(rf.trace) + ConversionTrace(old(rf.mem)[ADCSRA], obs, lo, hi)
  {
    StartAndWait(rf, obs);
    result := ReadResult(rf, lo, hi);
  }
}
