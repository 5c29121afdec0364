/**
 * 7_usart: after a greeting, report the potentiometer on ADC channel 0 over
 * USART0, but only when its reading differs from the last one reported.
 * The converter runs with auto trigger enabled; each read waits for the
 * conversion-complete flag ADIF and then clears it by writing a 1 to it.
 * Every register is set bit by bit with SET_BIT.
 */
module UsartReporter {
  import opened Registers
  import opened Serial
  import opened Adc

  /** ADATE (bit 5 of ADCSRA): auto trigger enable. */
  const ADATE: BitIndex := 5

  /** `char buff[8]`. */
  const BUFF_SIZE := 8

  /** `last_pot_val` before the first iteration. */
  const INITIAL_LAST: U16 := 0

  // ---------------------------------------------------------------------
  // ADC_init
  // ---------------------------------------------------------------------

  /** ADCSRA after SET_BIT on ADPS0, ADPS1, ADPS2, ADATE, ADEN and ADSC in turn, from `v`. */
  function AdcsraAfterInit(v: bv8): (r: bv8)
    ensures forall k: BitIndex :: ReadBit(r, k) == (if k == 3 || k == 4 then ReadBit(v, k) else 1)
  {
    WithBitSet(WithBitSet(WithBitSet(WithBitSet(WithBitSet(WithBitSet(v, 0), 1), 2), ADATE), ADEN), ADSC)
  }

  /** The accesses of ADC_init, ADMUX and ADCSRA holding `admux` and `adcsra` beforehand. */
  function AdcInitTrace(admux: bv8, adcsra: bv8): seq<Access>
  {
    var v1 := WithBitSet(adcsra, 0);
    var v2 := WithBitSet(v1, 1);
    var v3 := WithBitSet(v2, 2);
    var v4 := WithBitSet(v3, ADATE);
    var v5 := WithBitSet(v4, ADEN);
    SetBitAccesses(ADMUX, admux, REFS0) + SetBitAccesses(ADCSRA, adcsra, 0) + SetBitAccesses(ADCSRA, v1, 1)
      + SetBitAccesses(ADCSRA, v2, 2) + SetBitAccesses(ADCSRA, v3, ADATE) + SetBitAccesses(ADCSRA, v4, ADEN)
      + SetBitAccesses(ADCSRA, v5, ADSC)
  }

  /**
   * ADC_init: SET_BIT(ADMUX, 6), then SET_BIT(ADCSRA, b) for b = 0, 1, 2, 5,
   * 7, 6 in that order, each a read of the register and a write back.
   */
  method AdcInit(rf: RegisterFile)
    requires rf.Valid()
    modifies rf
    ensures rf.Valid()
    ensures rf.mem == old(rf.mem)[ADMUX := WithBitSet(old(rf.mem)[ADMUX], REFS0)]
      [ADCSRA := AdcsraAfterInit(old(rf.mem)[ADCSRA])]
    ensures rf.trace == old(rf.trace) + AdcInitTrace(old(rf.mem)[ADMUX], old(rf.mem)[ADCSRA])
  {
    ghost var done := [];
    assert rf.trace == old(rf.trace) + done;
    done := SetBitNext(rf, ADMUX, REFS0, old(rf.trace), done);
    done := SetBitNext(rf, ADCSRA, 0, old(rf.trace), done);
    done := SetBitNext(rf, ADCSRA, 1, old(rf.trace), done);
    done := SetBitNext(rf, ADCSRA, 2, old(rf.trace), done);
    done := SetBitNext(rf, ADCSRA, ADATE, old(rf.trace), done);
    done := SetBitNext(rf, ADCSRA, ADEN, old(rf.trace), done);
    done := SetBitNext(rf, ADCSRA, ADSC, old(rf.trace), done);
    assert [] + SetBitAccesses(ADMUX, old(rf.mem)[ADMUX], REFS0) == SetBitAccesses(ADMUX, old(rf.mem)[ADMUX], REFS0);
  }

  /**
   * After ADC_init the reference is AVcc, the converter is enabled with auto
   * trigger and a conversion started, and its clock is 16 MHz / 128.
   */
  lemma AdcInitConfigures(admux: bv8, adcsra: bv8)
    ensures ReadBit(WithBitSet(admux, REFS0), REFS0) == 1
    ensures var c := AdcsraAfterInit(adcsra);
      ReadBit(c, ADEN) == 1 && ReadBit(c, ADATE) == 1 && ReadBit(c, ADSC) == 1 &&
      CPU_CLOCK / AdcDivisor(c) == 125000
  {
    var c := AdcsraAfterInit(adcsra);
    forall k: BitIndex | k < 3
      ensures ReadBit(c & 7, k) == ReadBit(7, k)
    {
    }
    forall k: BitIndex | 3 <= k
      ensures ReadBit(c & 7, k) == ReadBit(7, k)
    {
    }
    BitsDetermineByte(c & 7, 7);
  }

  // ---------------------------------------------------------------------
  // ADC_read
  // ---------------------------------------------------------------------

  /**
   * The accesses of ADC_read after the channel select: the wait until ADIF
   * reads 1 (the k-th read seeing `flags[k]`), ADCL then ADCH, and the
   * SET_BIT that writes a 1 to ADIF.
   */
  function ConversionTrace(flags: seq<bv8>, lo: bv8, hi: bv8): seq<Access>
    requires Reaches(flags, ADIF, 1)
  {
    var done := flags[FirstHit(flags, ADIF, 1)];
    PollTrace(ADCSRA, ADIF, 1, flags)
      + [Read(ADCL, lo), Read(ADCH, hi), Read(ADCSRA, done), Write(ADCSRA, WithBitSet(done, ADIF))]
  }

  /** The accesses of ADC_read(pin). */
  function ReadTrace(admux: bv8, pin: bv8, flags: seq<bv8>, lo: bv8, hi: bv8): seq<Access>
    requires Reaches(flags, ADIF, 1)
  {
    [Read(ADMUX, admux), Write(ADMUX, SelectChannel(admux, pin))] + ConversionTrace(flags, lo, hi)
  }

  /** The part of ADC_read after the channel select. */
  method Convert(rf: RegisterFile, flags: seq<bv8>, lo: bv8, hi: bv8) returns (value: U16)
    requires rf.Valid() && Reaches(flags, ADIF, 1)
    modifies rf
    ensures rf.Valid()
    ensures value == Word(lo, hi)
    ensures rf.mem == old(rf.mem)[ADCL := lo][ADCH := hi][ADCSRA := WithBitSet(flags[FirstHit(flags, ADIF, 1)], ADIF)]
    ensures rf.trace == old(rf.trace) + ConversionTrace(flags, lo, hi)
  {
    ghost var done := flags[FirstHit(flags, ADIF, 1)];
    var _ := rf.PollBit(ADCSRA, ADIF, 1, flags);
    value := ReadResult(rf, lo, hi);
    AppendAssociates(old(rf.trace), PollTrace(ADCSRA, ADIF, 1, flags),
      [Read(ADCL, lo), Read(ADCH, hi), Read(ADCSRA, done), Write(ADCSRA, WithBitSet(done, ADIF))]);
  }

  /** ADCL, then ADCH, then the SET_BIT that clears ADIF. */
  method ReadResult(rf: RegisterFile, lo: bv8, hi: bv8) returns (value: U16)
    requires rf.Valid()
    modifies rf
    ensures rf.Valid()
    ensures value == Word(lo, hi)
    ensures rf.mem == old(rf.mem)[ADCL := lo][ADCH := hi][ADCSRA := WithBitSet(old(rf.mem)[ADCSRA], ADIF)]
    ensures rf.trace == old(rf.trace) + [Read(ADCL, lo), Read(ADCH, hi),
      Read(ADCSRA, old(rf.mem)[ADCSRA]), Write(ADCSRA, WithBitSet(old(rf.mem)[ADCSRA], ADIF))]
  {
    var low := rf.Sample(ADCL, lo);
    var high := rf.Sample(ADCH, hi);
    value := Word(low, high);
    rf.SetBit(ADCSRA, ADIF);
  }

  /**
   * ADC_read(pin): select channel `pin`, wait for ADIF, read ADCL (seeing
   * `lo`) and then ADCH (seeing `hi`), clear ADIF by writing a 1 to it, and
   * return ADCL | ADCH << 8.
   */
  method AdcRead(rf: RegisterFile, pin: bv8, flags: seq<bv8>, lo: bv8, hi: bv8) returns (value: U16)
    requires rf.Valid() && Reaches(flags, ADIF, 1)
    modifies rf
    ensures rf.Valid()
    ensures value == Word(lo, hi)
    ensures rf.mem == old(rf.mem)[ADMUX := SelectChannel(old(rf.mem)[ADMUX], pin)]
      [ADCL := lo][ADCH := hi][ADCSRA := WithBitSet(flags[FirstHit(flags, ADIF, 1)], ADIF)]
    ensures rf.trace == old(rf.trace) + ReadTrace(old(rf.mem)[ADMUX], pin, flags, lo, hi)
  {
    var admux := rf.Get(ADMUX);
    rf.Put(ADMUX, SelectChannel(admux, pin));
    ghost var selected := rf.trace;
    value := Convert(rf, flags, lo, hi);
    AppendAssociates(old(rf.trace), [Read(ADMUX, admux), Write(ADMUX, SelectChannel(admux, pin))],
      ConversionTrace(flags, lo, hi));
  }

  /**
   * ADC_read touches ADCL only once ADIF has read 1 and no earlier read saw
   * it: every read before is a read of ADCSRA with ADIF 0. ADCL is read
   * before ADCH; then SET_BIT reads ADCSRA again and writes back what it
   * held with a 1 in ADIF.
   */
  lemma ReadWaitsForConversion(admux: bv8, pin: bv8, flags: seq<bv8>, lo: bv8, hi: bv8)
    requires Reaches(flags, ADIF, 1)
    ensures var t := ReadTrace(admux, pin, flags, lo, hi); var n := |t|;
      n >= 7 && t[n - 5].addr == ADCSRA && t[n - 5].Read? && ReadBit(t[n - 5].value, ADIF) == 1 &&
      (forall i :: 2 <= i < n - 5 ==> t[i].addr == ADCSRA && t[i].Read? && ReadBit(t[i].value, ADIF) == 0) &&
      t[n - 4] == Read(ADCL, lo) && t[n - 3] == Read(ADCH, hi) &&
      t[n - 2] == Read(ADCSRA, t[n - 5].value) && t[n - 1] == Write(ADCSRA, WithBitSet(t[n - 5].value, ADIF))
  {
    var t := ReadTrace(admux, pin, flags, lo, hi);
    var poll := PollTrace(ADCSRA, ADIF, 1, flags);
    var done := flags[FirstHit(flags, ADIF, 1)];
    var finish := [Read(ADCL, lo), Read(ADCH, hi), Read(ADCSRA, done), Write(ADCSRA, WithBitSet(done, ADIF))];
    PollTraceShape(ADCSRA, ADIF, 1, flags);
    var n := |t|;
    assert n == |poll| + 6;
    assert t == [t[0], t[1]] + (poll + finish);
    forall i | 2 <= i < n - 5
      ensures t[i].addr == ADCSRA && t[i].Read? && ReadBit(t[i].value, ADIF) == 0
    {
      assert t[i] == poll[i - 2];
    }
    assert t[n - 5] == poll[|poll| - 1] == Read(ADCSRA, done);
    assert t[n - 4] == finish[0] && t[n - 3] == finish[1];
    assert t[n - 2] == finish[2] && t[n - 1] == finish[3];
  }

  /** ADC_read sends nothing on the USART. */
  lemma ReadSendsNothing(admux: bv8, pin: bv8, flags: seq<bv8>, lo: bv8, hi: bv8)
    requires Reaches(flags, ADIF, 1)
    ensures NoData(ReadTrace(admux, pin, flags, lo, hi))
  {
    var poll := PollTrace(ADCSRA, ADIF, 1, flags);
    assert NoData(poll);
  }

  // ---------------------------------------------------------------------
  // The start of main
  // ---------------------------------------------------------------------

  /**
   * The USART set-up at the start of main: the divisor low byte first, then
   * SET_BIT on DOR0 in UCSR0A, TXEN0 in UCSR0B, UCSZ00 and UCSZ01 in UCSR0C.
   */
  function UsartSetupTrace(ucsr0a: bv8, ucsr0b: bv8, ucsr0c: bv8): seq<Access>
  {
    [Write(UBRR0L, UBRR_LOW), Write(UBRR0H, UBRR_HIGH)] + SetBitAccesses(UCSR0A, ucsr0a, DOR0)
      + SetBitAccesses(UCSR0B, ucsr0b, TXEN0) + SetBitAccesses(UCSR0C, ucsr0c, UCSZ00)
      + SetBitAccesses(UCSR0C, WithBitSet(ucsr0c, UCSZ00), UCSZ01)
  }

  method UsartSetup(rf: RegisterFile)
    requires rf.Valid()
    modifies rf
    ensures rf.Valid()
    ensures rf.mem == old(rf.mem)[UBRR0L := UBRR_LOW][UBRR0H := UBRR_HIGH]
      [UCSR0A := WithBitSet(old(rf.mem)[UCSR0A], DOR0)]
      [UCSR0B := WithBitSet(old(rf.mem)[UCSR0B], TXEN0)]
      [UCSR0C := WithBitSet(WithBitSet(old(rf.mem)[UCSR0C], UCSZ00), UCSZ01)]
    ensures rf.trace == old(rf.trace) + UsartSetupTrace(old(rf.mem)[UCSR0A], old(rf.mem)[UCSR0B], old(rf.mem)[UCSR0C])
  {
    UbrrValue();
    var ubrr: U16 := CPU_CLOCK / 16 / BAUD - 1;
    assert ubrr == UBRR;
    rf.Put(UBRR0L, LowByte(ubrr));
    rf.Put(UBRR0H, HighByte(ubrr));
    ghost var done := [Write(UBRR0L, UBRR_LOW), Write(UBRR0H, UBRR_HIGH)];
    assert rf.trace == old(rf.trace) + done;
    assert rf.mem == old(rf.mem)[UBRR0L := UBRR_LOW][UBRR0H := UBRR_HIGH];
    done := SetBitNext(rf, UCSR0A, DOR0, old(rf.trace), done);
    done := SetBitNext(rf, UCSR0B, TXEN0, old(rf.trace), done);
    done := SetBitNext(rf, UCSR0C, UCSZ00, old(rf.trace), done);
    done := SetBitNext(rf, UCSR0C, UCSZ01, old(rf.trace), done);
  }

  /** The accesses from the start of main to the loop. */
  function StartTrace(ucsr0a: bv8, ucsr0b: bv8, ucsr0c: bv8, admux: bv8, adcsra: bv8, waits: seq<seq<bv8>>): seq<Access>
    requires ReadyFor(waits, |GREETING|)
  {
    UsartSetupTrace(ucsr0a, ucsr0b, ucsr0c) + (StringTrace(GREETING, waits) + AdcInitTrace(admux, adcsra))
  }

  /** The registers the start of main configures, apart from UCSR0A. */
  predicate ConfiguredReg(a: Addr)
  {
    a == UBRR0L || a == UBRR0H || a == UCSR0B || a == UCSR0C || a == ADMUX || a == ADCSRA
  }

  /** The start of main: the USART set-up, the greeting, then ADC_init. */
  method Start(rf: RegisterFile, waits: seq<seq<bv8>>)
    requires rf.Valid() && ReadyFor(waits, |GREETING|)
    modifies rf
    ensures rf.Valid()
    ensures rf.mem[UBRR0L] == UBRR_LOW && rf.mem[UBRR0H] == UBRR_HIGH
    ensures rf.mem[UCSR0B] == WithBitSet(old(rf.mem)[UCSR0B], TXEN0)
    ensures rf.mem[UCSR0C] == WithBitSet(WithBitSet(old(rf.mem)[UCSR0C], UCSZ00), UCSZ01)
    ensures rf.mem[ADMUX] == WithBitSet(old(rf.mem)[ADMUX], REFS0)
    ensures rf.mem[ADCSRA] == AdcsraAfterInit(old(rf.mem)[ADCSRA])
    ensures forall a: Addr :: a != UCSR0A && a != UDR0 && !ConfiguredReg(a) ==> rf.mem[a] == old(rf.mem)[a]
    ensures rf.trace == old(rf.trace) + StartTrace(old(rf.mem)[UCSR0A], old(rf.mem)[UCSR0B],
      old(rf.mem)[UCSR0C], old(rf.mem)[ADMUX], old(rf.mem)[ADCSRA], waits)
  {
    UsartSetup(rf);
    ghost var m1, t1 := rf.mem, rf.trace;
    var greeting := GreetingLiteral();
    TransmitString(rf, greeting, waits);
    ghost var m2, t2 := rf.mem, rf.trace;
    AdcInit(rf);
    StartComposes(old(rf.mem), m1, m2, rf.mem, old(rf.trace), t1, t2, rf.trace,
      UsartSetupTrace(old(rf.mem)[UCSR0A], old(rf.mem)[UCSR0B], old(rf.mem)[UCSR0C]),
      StringTrace(GREETING, waits), AdcInitTrace(m2[ADMUX], m2[ADCSRA]),
      WithBitSet(old(rf.mem)[UCSR0A], DOR0), WithBitSet(old(rf.mem)[UCSR0B], TXEN0),
      WithBitSet(WithBitSet(old(rf.mem)[UCSR0C], UCSZ00), UCSZ01),
      WithBitSet(m2[ADMUX], REFS0), AdcsraAfterInit(m2[ADCSRA]));
  }

  /** How the three steps of the start of main add up, for any values they store. */
  lemma StartComposes(m0: Regs, m1: Regs, m2: Regs, m3: Regs,
                      t0: seq<Access>, t1: seq<Access>, t2: seq<Access>, t3: seq<Access>,
                      usart: seq<Access>, text: seq<Access>, adc: seq<Access>,
                      a: bv8, b: bv8, c: bv8, mux: bv8, sra: bv8)
    requires m1 == m0[UBRR0L := UBRR_LOW][UBRR0H := UBRR_HIGH][UCSR0A := a][UCSR0B := b][UCSR0C := c]
    requires forall r: Addr :: r != UCSR0A && r != UDR0 ==> m2[r] == m1[r]
    requires m3 == m2[ADMUX := mux][ADCSRA := sra]
    requires t1 == t0 + usart && t2 == t1 + text && t3 == t2 + adc
    ensures m2[ADMUX] == m0[ADMUX] && m2[ADCSRA] == m0[ADCSRA]
    ensures m3[UBRR0L] == UBRR_LOW && m3[UBRR0H] == UBRR_HIGH && m3[UCSR0B] == b && m3[UCSR0C] == c
    ensures m3[ADMUX] == mux && m3[ADCSRA] == sra
    ensures forall r: Addr :: r != UCSR0A && r != UDR0 && !ConfiguredReg(r) ==> m3[r] == m0[r]
    ensures t3 == t0 + (usart + (text + adc))
  {
    AppendAssociates(t1, text, adc);
    AppendAssociates(t0, usart, text + adc);
  }

  /** The start of main sends the greeting and nothing else, every byte after UDRE0 read 1. */
  lemma StartSendsGreeting(ucsr0a: bv8, ucsr0b: bv8, ucsr0c: bv8, admux: bv8, adcsra: bv8, waits: seq<seq<bv8>>)
    requires ReadyFor(waits, |GREETING|)
    ensures Sent(StartTrace(ucsr0a, ucsr0b, ucsr0c, admux, adcsra, waits)) == GREETING
    ensures WritesAfterReady(StartTrace(ucsr0a, ucsr0b, ucsr0c, admux, adcsra, waits))
  {
    var usart := UsartSetupTrace(ucsr0a, ucsr0b, ucsr0c);
    var text := StringTrace(GREETING, waits);
    var adc := AdcInitTrace(admux, adcsra);
    UsartSetupSendsNothing(ucsr0a, ucsr0b, ucsr0c);
    AdcInitSendsNothing(admux, adcsra);
    SentOfStringTrace(GREETING, waits);
    StringWritesAfterReady(GREETING, waits);
    SentAppend(text, adc);
    WritesAfterReadyAppend(text, adc);
    SentAppend(usart, text + adc);
    WritesAfterReadyAppend(usart, text + adc);
  }

  lemma UsartSetupSendsNothing(ucsr0a: bv8, ucsr0b: bv8, ucsr0c: bv8)
    ensures Sent(UsartSetupTrace(ucsr0a, ucsr0b, ucsr0c)) == []
    ensures WritesAfterReady(UsartSetupTrace(ucsr0a, ucsr0b, ucsr0c))
  {
    assert NoData(UsartSetupTrace(ucsr0a, ucsr0b, ucsr0c));
    SentOfNoData(UsartSetupTrace(ucsr0a, ucsr0b, ucsr0c));
  }

  lemma AdcInitSendsNothing(admux: bv8, adcsra: bv8)
    ensures Sent(AdcInitTrace(admux, adcsra)) == [] && WritesAfterReady(AdcInitTrace(admux, adcsra))
  {
    assert NoData(AdcInitTrace(admux, adcsra));
    SentOfNoData(AdcInitTrace(admux, adcsra));
  }

  // ---------------------------------------------------------------------
  // The main loop: report only changes
  // ---------------------------------------------------------------------

  /** What one iteration sends: nothing for an unchanged reading, else its text and "\r\n". */
  function Report(last: U16, pot: U16): seq<bv8>
  {
    if pot == last then [] else DecimalText(pot) + CRLF
  }

  /**
   * An iteration sends something exactly when the reading changed, and then
   * the text before "\r\n" reads back as the new reading.
   */
  lemma ReportIffChanged(last: U16, pot: U16)
    ensures Report(last, pot) == [] <==> pot == last
    ensures var r := Report(last, pot);
      pot != last ==> (|r| >= 3 && r[|r| - 2..] == CRLF &&
        (forall i :: 0 <= i < |r| - 2 ==> IsDigit(r[i])) && ParseDecimal(r[..|r| - 2]) == pot)
  {
    if pot != last {
      var r := Report(last, pot);
      assert r[..|r| - 2] == DecimalText(pot);
      assert r[|r| - 2..] == CRLF;
      ParseDecimalText(pot);
    }
  }

  /** What a run of iterations sends, `last` being `last_pot_val` before the first. */
  function Reports(last: U16, readings: seq<U16>): seq<bv8>
    decreases |readings|
  {
    if readings == [] then [] else Report(last, readings[0]) + Reports(readings[0], readings[1..])
  }

  /** `last_pot_val` after a run of iterations. */
  function LastOf(last: U16, readings: seq<U16>): (r: U16)
    ensures readings != [] ==> r == readings[|readings| - 1]
    ensures readings == [] ==> r == last
  {
    if readings == [] then last else readings[|readings| - 1]
  }

  lemma {:induction false} ReportsSnoc(last: U16, readings: seq<U16>, pot: U16)
    ensures Reports(last, readings + [pot]) == Reports(last, readings) + Report(LastOf(last, readings), pot)
    decreases |readings|
  {
    if readings == [] {
      assert [pot][1..] == [];
    } else {
      var rest := readings[1..];
      assert (readings + [pot])[1..] == rest + [pot];
      assert Reports(last, readings + [pot]) == Report(last, readings[0]) + Reports(readings[0], rest + [pot]);
      ReportsSnoc(readings[0], rest, pot);
      assert LastOf(readings[0], rest) == LastOf(last, readings);
      AppendAssociates(Report(last, readings[0]), Reports(readings[0], rest), Report(LastOf(last, readings), pot));
    }
  }

  /** A run sends nothing exactly when every reading equals the last value reported before it. */
  lemma {:induction false} ReportsSilentIffSteady(last: U16, readings: seq<U16>)
    ensures Reports(last, readings) == [] <==> forall i :: 0 <= i < |readings| ==> readings[i] == last
    decreases |readings|
  {
    if readings != [] {
      ReportIffChanged(last, readings[0]);
      ReportsSilentIffSteady(readings[0], readings[1..]);
      if forall i :: 0 <= i < |readings| ==> readings[i] == last {
        assert forall i :: 0 <= i < |readings[1..]| ==> readings[1..][i] == readings[i + 1];
      }
      if Reports(last, readings) == [] {
        forall i | 0 <= i < |readings| ensures readings[i] == last {
          if i > 0 {
            assert readings[1..][i - 1] == readings[i];
          }
        }
      }
    }
  }

  /**
   * One iteration's hardware observations: the ADIF flag values its wait
   * sees, the result bytes, and the UDRE0 waits of the text and of "\r\n".
   */
  datatype Round = Round(flags: seq<bv8>, lo: bv8, hi: bv8,
                         digitWaits: seq<seq<bv8>>, crlfWaits: seq<seq<bv8>>)

  /** The reading of a round: ADCL | ADCH << 8. */
  function Reading(r: Round): U16
  {
    Word(r.lo, r.hi)
  }

  function Readings(rounds: seq<Round>): (r: seq<U16>)
    ensures |r| == |rounds| && forall i :: 0 <= i < |rounds| ==> r[i] == Reading(rounds[i])
  {
    seq(|rounds|, i requires 0 <= i < |rounds| => Reading(rounds[i]))
  }

  /** Every wait of the round ends: ADIF is seen set, and UDRE0 before each byte. */
  predicate Feasible(r: Round)
  {
    Reaches(r.flags, ADIF, 1) &&
    ReadyFor(r.digitWaits, |DecimalText(Reading(r))|) && ReadyFor(r.crlfWaits, |CRLF|)
  }

  /** The accesses of one iteration, ADMUX holding `admux` and `last_pot_val` being `last`. */
  function IterationTrace(admux: bv8, last: U16, r: Round): seq<Access>
    requires Feasible(r)
  {
    ReadTrace(admux, 0, r.flags, r.lo, r.hi) +
      (if Reading(r) == last then []
       else StringTrace(DecimalText(Reading(r)), r.digitWaits) + StringTrace(CRLF, r.crlfWaits))
  }

  /** `m'` holds what `m` held in every register but the ADC's, UCSR0A and UDR0. */
  predicate LoopFrame(m: Regs, m': Regs)
  {
    forall a: Addr :: a != UCSR0A && a != UDR0 && !Converting(a) ==> m'[a] == m[a]
  }

  lemma LoopFrameTransitive(m: Regs, m': Regs, m'': Regs)
    requires LoopFrame(m, m') && LoopFrame(m', m'')
    ensures LoopFrame(m, m'')
  {
  }

  /** The body of the `if`: utoa into `buff`, then the text and "\r\n". */
  method SendReading(rf: RegisterFile, value: U16, buff: seq<bv8>, digitWaits: seq<seq<bv8>>, crlfWaits: seq<seq<bv8>>)
    returns (buff': seq<bv8>)
    requires rf.Valid() && |buff| == BUFF_SIZE
    requires ReadyFor(digitWaits, |DecimalText(value)|) && ReadyFor(crlfWaits, |CRLF|)
    modifies rf
    ensures rf.Valid()
    ensures buff' == Utoa(value, buff)
    ensures rf.mem[ADMUX] == old(rf.mem)[ADMUX] && LoopFrame(old(rf.mem), rf.mem)
    ensures rf.trace == old(rf.trace) + (StringTrace(DecimalText(value), digitWaits) + StringTrace(CRLF, crlfWaits))
  {
    buff' := Utoa(value, buff);
    SendLine(rf, buff', digitWaits, crlfWaits);
  }

  /**
   * One iteration of the main loop: read channel 0; if the reading differs
   * from `last`, remember it, convert it into `buff` with utoa and send the
   * text and "\r\n".
   */
  method Iterate(rf: RegisterFile, last: U16, buff: seq<bv8>, r: Round) returns (last': U16, buff': seq<bv8>)
    requires rf.Valid() && |buff| == BUFF_SIZE && Feasible(r)
    modifies rf
    ensures rf.Valid()
    ensures last' == Reading(r)
    ensures Reading(r) == last ==> buff' == buff
    ensures Reading(r) != last ==> buff' == Utoa(Reading(r), buff)
    ensures rf.mem[ADMUX] == SelectChannel(old(rf.mem)[ADMUX], 0)
    ensures LoopFrame(old(rf.mem), rf.mem)
    ensures rf.trace == old(rf.trace) + IterationTrace(old(rf.mem)[ADMUX], last, r)
  {
    var potVal := AdcRead(rf, 0, r.flags, r.lo, r.hi);
    ghost var read := rf.trace;
    ghost var m := rf.mem;
    if potVal != last {
      last' := potVal;
      buff' := SendReading(rf, potVal, buff, r.digitWaits, r.crlfWaits);
    } else {
      last' := last;
      buff' := buff;
    }
    ReadFrame(old(rf.mem), m, rf.mem, SelectChannel(old(rf.mem)[ADMUX], 0), r.lo, r.hi,
      WithBitSet(r.flags[FirstHit(r.flags, ADIF, 1)], ADIF));
    IterationComposes(old(rf.mem)[ADMUX], last, r, old(rf.trace), read, rf.trace);
  }

  /** ADC_read and then anything that keeps ADMUX and the loop's frame keep the loop's frame. */
  lemma ReadFrame(m0: Regs, m1: Regs, m2: Regs, admux: bv8, lo: bv8, hi: bv8, adcsra: bv8)
    requires m1 == m0[ADMUX := admux][ADCL := lo][ADCH := hi][ADCSRA := adcsra]
    requires m2[ADMUX] == m1[ADMUX] && LoopFrame(m1, m2)
    ensures m2[ADMUX] == admux && LoopFrame(m0, m2)
  {
    assert LoopFrame(m0, m1);
    LoopFrameTransitive(m0, m1, m2);
  }

  /** The read, then the report if the reading changed, make up the iteration's accesses. */
  lemma IterationComposes(admux: bv8, last: U16, r: Round, t0: seq<Access>, t1: seq<Access>, t2: seq<Access>)
    requires Feasible(r)
    requires t1 == t0 + ReadTrace(admux, 0, r.flags, r.lo, r.hi)
    requires Reading(r) == last ==> t2 == t1
    requires Reading(r) != last ==>
      t2 == t1 + (StringTrace(DecimalText(Reading(r)), r.digitWaits) + StringTrace(CRLF, r.crlfWaits))
    ensures t2 == t0 + IterationTrace(admux, last, r)
  {
    var read := ReadTrace(admux, 0, r.flags, r.lo, r.hi);
    if Reading(r) == last {
      assert read + [] == read;
    } else {
      AppendAssociates(t0, read, StringTrace(DecimalText(Reading(r)), r.digitWaits) + StringTrace(CRLF, r.crlfWaits));
    }
  }

  /** An iteration sends exactly its report, every byte after UDRE0 read 1. */
  lemma IterationSendsReport(admux: bv8, last: U16, r: Round)
    requires Feasible(r)
    ensures Sent(IterationTrace(admux, last, r)) == Report(last, Reading(r))
    ensures WritesAfterReady(IterationTrace(admux, last, r))
  {
    var read := ReadTrace(admux, 0, r.flags, r.lo, r.hi);
    ReadSendsNothing(admux, 0, r.flags, r.lo, r.hi);
    if Reading(r) == last {
      assert IterationTrace(admux, last, r) == read;
      SentOfNoData(read);
    } else {
      QuietThenLine(read, DecimalText(Reading(r)), r.digitWaits, r.crlfWaits);
    }
  }

  /** ADMUX before iteration `i`: as left by the start, then channel 0 selected. */
  function AdmuxBefore(admux: bv8, i: nat): bv8
  {
    if i == 0 then admux else SelectChannel(admux, 0)
  }

  /** Every round's waits end. */
  predicate AllFeasible(rounds: seq<Round>)
  {
    forall k :: 0 <= k < |rounds| ==> Feasible(rounds[k])
  }

  /** `last_pot_val` before round `n`: `last` at first, then the previous round's reading. */
  function LastBefore(last: U16, rounds: seq<Round>, n: nat): U16
    requires n <= |rounds|
  {
    if n == 0 then last else Reading(rounds[n - 1])
  }

  /** The accesses of the first `n` rounds: those of the first `n - 1`, then round `n - 1`'s. */
  function RunTrace(admux: bv8, last: U16, rounds: seq<Round>, n: nat): seq<Access>
    requires n <= |rounds| && AllFeasible(rounds)
    decreases n
  {
    if n == 0 then []
    else RunTrace(admux, last, rounds, n - 1) + IterationTrace(AdmuxBefore(admux, n - 1), LastBefore(last, rounds, n - 1), rounds[n - 1])
  }

  /**
   * Where the main loop stands after the first `i` rounds, started from
   * registers `m0` and accesses `t0`: `last` is `last_pot_val`, ADMUX
   * selects channel 0 once a round has run, only the ADC's registers,
   * UCSR0A and UDR0 have changed, and the accesses are the rounds'.
   */
  ghost predicate Progress(m0: Regs, t0: seq<Access>, rounds: seq<Round>, i: nat, last: U16, m: Regs, t: seq<Access>)
    requires i <= |rounds| && AllFeasible(rounds)
  {
    last == LastBefore(INITIAL_LAST, rounds, i) && m[ADMUX] == AdmuxBefore(m0[ADMUX], i) &&
    LoopFrame(m0, m) && t == t0 + RunTrace(m0[ADMUX], INITIAL_LAST, rounds, i)
  }

  /** One more iteration carries the main loop from round `i` to round `i + 1`. */
  lemma ProgressStep(m0: Regs, t0: seq<Access>, rounds: seq<Round>, i: nat, last: U16, m: Regs, t: seq<Access>,
                     last': U16, m': Regs, t': seq<Access>)
    requires i < |rounds| && AllFeasible(rounds) && Progress(m0, t0, rounds, i, last, m, t)
    requires last' == Reading(rounds[i]) && m'[ADMUX] == SelectChannel(m[ADMUX], 0) && LoopFrame(m, m')
    requires t' == t + IterationTrace(m[ADMUX], last, rounds[i])
    ensures Progress(m0, t0, rounds, i + 1, last', m', t')
  {
    var admux := m0[ADMUX];
    SelectChannelIdempotent(admux, 0);
    AppendAssociates(t0, RunTrace(admux, INITIAL_LAST, rounds, i), IterationTrace(AdmuxBefore(admux, i), last, rounds[i]));
    LoopFrameTransitive(m0, m, m');
  }

  /** The readings of the first `n + 1` rounds extend those of the first `n`, which end in `last_pot_val`. */
  lemma ReadingsStep(last: U16, rounds: seq<Round>, n: nat)
    requires n < |rounds|
    ensures Readings(rounds)[..n + 1] == Readings(rounds)[..n] + [Reading(rounds[n])]
    ensures LastBefore(last, rounds, n) == LastOf(last, Readings(rounds)[..n])
  {
  }

  /** The first `n` rounds send exactly the reports of their changed readings. */
  lemma {:induction false} RunSendsReports(admux: bv8, last: U16, rounds: seq<Round>, n: nat)
    requires n <= |rounds| && AllFeasible(rounds)
    ensures Sent(RunTrace(admux, last, rounds, n)) == Reports(last, Readings(rounds)[..n])
    ensures WritesAfterReady(RunTrace(admux, last, rounds, n))
    decreases n
  {
    if n == 0 {
      SentOfNoData([]);
    } else {
      var k := n - 1;
      var before := RunTrace(admux, last, rounds, k);
      var final := IterationTrace(AdmuxBefore(admux, k), LastBefore(last, rounds, k), rounds[k]);
      RunSendsReports(admux, last, rounds, k);
      IterationSendsReport(AdmuxBefore(admux, k), LastBefore(last, rounds, k), rounds[k]);
      SentAppend(before, final);
      WritesAfterReadyAppend(before, final);
      ReadingsStep(last, rounds, k);
      ReportsSnoc(last, Readings(rounds)[..k], Reading(rounds[k]));
    }
  }

  /** A whole run sends exactly the reports of its changed readings. */
  lemma LoopSendsReports(admux: bv8, last: U16, rounds: seq<Round>)
    requires AllFeasible(rounds)
    ensures Sent(RunTrace(admux, last, rounds, |rounds|)) == Reports(last, Readings(rounds))
    ensures WritesAfterReady(RunTrace(admux, last, rounds, |rounds|))
  {
    RunSendsReports(admux, last, rounds, |rounds|);
    assert Readings(rounds)[..|rounds|] == Readings(rounds);
  }

  /**
   * `while (1)` in main, for the iterations of `rounds`: starting from
   * `last_pot_val = 0`, each iteration reads, compares and reports. `buff`
   * is the uninitialised buffer's initial contents.
   */
  method MainLoop(rf: RegisterFile, buff: seq<bv8>, rounds: seq<Round>) returns (last: U16)
    requires rf.Valid() && |buff| == BUFF_SIZE && AllFeasible(rounds)
    modifies rf
    ensures rf.Valid()
    ensures last == LastBefore(INITIAL_LAST, rounds, |rounds|)
    ensures LoopFrame(old(rf.mem), rf.mem)
    ensures rf.trace == old(rf.trace) + RunTrace(old(rf.mem)[ADMUX], INITIAL_LAST, rounds, |rounds|)
  {
    last := INITIAL_LAST;
    var buf := buff;
    ghost var m0 := rf.mem;
    ghost var t0 := rf.trace;
    var i := 0;
    while i < |rounds|
      invariant i <= |rounds| && |buf| == BUFF_SIZE && rf.Valid()
      invariant Progress(m0, t0, rounds, i, last, rf.mem, rf.trace)
    {
      ghost var m := rf.mem;
      ghost var t := rf.trace;
      ghost var before := last;
      last, buf := Iterate(rf, last, buf, rounds[i]);
      ProgressStep(m0, t0, rounds, i, before, m, t, last, rf.mem, rf.trace);
      i := i + 1;
    }
  }
}
