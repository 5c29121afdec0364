/**
 * 7_uart: read a potentiometer on ADC channel 0 and send every reading over
 * USART0 as decimal text followed by "\r\n", after a greeting sent once at
 * start-up. The registers are reached through `IO_PIN` names the file
 * defines itself; they are the header's addresses.
 */
module UartReporter {
  import opened Registers
  import opened Serial
  import opened Adc

  /** UCSR0B: `1 << 3`, the transmitter alone. */
  const UCSR0B_SETTING: bv8 := 0x08
  /** UCSR0C: `(1 << 2) | (1 << 1)`, 8-bit characters. */
  const UCSR0C_SETTING: bv8 := 0x06

  /** `char buf[8 * sizeof(uint16_t) + 1]`. */
  const BUF_SIZE := 8 * 2 + 1

  /** The control values enable the transmitter alone, with 8-bit characters. */
  lemma UsartSettings()
    ensures UCSR0B_SETTING == Mask(TXEN0) && ReadBit(UCSR0B_SETTING, TXEN0) == 1
    ensures UCSR0C_SETTING == Mask(UCSZ01) | Mask(UCSZ00) && ReadBit(UCSR0C_SETTING, UCSZ01) == 1 && ReadBit(UCSR0C_SETTING, UCSZ00) == 1
  {
  }

  /** The buffer holds the decimal text of any `uint16_t` together with its NUL. */
  lemma BufferHoldsAnyReading(v: U16)
    ensures |DecimalText(v)| + 1 <= BUF_SIZE
  {
    U16TextFits(v);
  }

  /** The accesses of ADC_read: the channel select, then one conversion. */
  function ReadTrace(admux: bv8, adcsra: bv8, pin: bv8, obs: seq<bv8>, lo: bv8, hi: bv8): seq<Access>
    requires Reaches(obs, ADSC, 0)
  {
    [Read(ADMUX, admux), Write(ADMUX, SelectChannel(admux, pin))] + ConversionTrace(adcsra, obs, lo, hi)
  }

  /**
   * ADC_read(pin): select channel `pin` in the low nibble of ADMUX, start a
   * conversion and wait for ADSC to read 0 (the k-th read seeing `obs[k]`),
   * then return ADCL | ADCH << 8, the result registers reading `lo` and `hi`.
   */
  method AdcRead(rf: RegisterFile, pin: bv8, obs: seq<bv8>, lo: bv8, hi: bv8) returns (value: U16)
    requires rf.Valid() && Reaches(obs, ADSC, 0)
    modifies rf
    ensures rf.Valid()
    ensures value == Word(lo, hi)
    ensures rf.mem == old(rf.mem)[ADMUX := SelectChannel(old(rf.mem)[ADMUX], pin)]
      [ADCSRA := obs[FirstHit(obs, ADSC, 0)]][ADCL := lo][ADCH := hi]
    ensures rf.trace == old(rf.trace) + ReadTrace(old(rf.mem)[ADMUX], old(rf.mem)[ADCSRA], pin, obs, lo, hi)
  {
    var admux := rf.Get(ADMUX);
    rf.Put(ADMUX, SelectChannel(admux, pin));
    value := Convert(rf, obs, lo, hi);
  }

  /** A conversion writes nothing to UDR0. */
  lemma ReadSendsNothing(admux: bv8, adcsra: bv8, pin: bv8, obs: seq<bv8>, lo: bv8, hi: bv8)
    requires Reaches(obs, ADSC, 0)
    ensures NoData(ReadTrace(admux, adcsra, pin, obs, lo, hi))
  {
    var poll := PollTrace(ADCSRA, ADSC, 0, obs);
    assert NoData(poll);
  }

  /** The register writes of the start-up, before the greeting. */
  const CONFIG_TRACE: seq<Access> :=
    [Write(ADMUX, ADMUX_SETTING), Write(ADCSRA, ADCSRA_SETTING),
     Write(UBRR0H, UBRR_HIGH), Write(UBRR0L, UBRR_LOW),
     Write(UCSR0B, UCSR0B_SETTING), Write(UCSR0C, UCSR0C_SETTING)]

  /** The accesses of the start-up, the greeting's waits seeing `waits`. */
  function StartTrace(waits: seq<seq<bv8>>): seq<Access>
    requires ReadyFor(waits, |GREETING|)
  {
    CONFIG_TRACE + StringTrace(GREETING, waits)
  }

  /** What the start-up leaves in the registers it configures. */
  ghost predicate StartedUp(m: Regs)
  {
    m[ADMUX] == ADMUX_SETTING && m[ADCSRA] == ADCSRA_SETTING &&
    m[UBRR0H] == UBRR_HIGH && m[UBRR0L] == UBRR_LOW &&
    m[UCSR0B] == UCSR0B_SETTING && m[UCSR0C] == UCSR0C_SETTING
  }

  /** ADC_init, the baud divisor (high byte first), the transmitter and the frame format. */
  method Configure(rf: RegisterFile)
    requires rf.Valid()
    modifies rf
    ensures rf.Valid()
    ensures rf.mem == old(rf.mem)[ADMUX := ADMUX_SETTING][ADCSRA := ADCSRA_SETTING]
      [UBRR0H := UBRR_HIGH][UBRR0L := UBRR_LOW]
      [UCSR0B := UCSR0B_SETTING][UCSR0C := UCSR0C_SETTING]
    ensures rf.trace == old(rf.trace) + CONFIG_TRACE
  {
    UsartSettings();
    UbrrValue();
    Init(rf);
    var ubrr: U16 := CPU_CLOCK / 16 / BAUD - 1;
    rf.Put(UBRR0H, HighByte(ubrr));
    rf.Put(UBRR0L, LowByte(ubrr));
    rf.Put(UCSR0B, Mask(TXEN0));
    rf.Put(UCSR0C, Mask(UCSZ01) | Mask(UCSZ00));
  }

  /** The start of `main`: the configuration, then the greeting. */
  method Start(rf: RegisterFile, waits: seq<seq<bv8>>)
    requires rf.Valid() && ReadyFor(waits, |GREETING|)
    modifies rf
    ensures rf.Valid()
    ensures StartedUp(rf.mem)
    ensures forall a: Addr :: a != UCSR0A && a != UDR0 && !Started(a) ==> rf.mem[a] == old(rf.mem)[a]
    ensures rf.trace == old(rf.trace) + StartTrace(waits)
  {
    Configure(rf);
    ghost var configured := rf.mem;
    var greeting := GreetingLiteral();
    TransmitString(rf, greeting, waits);
    AppendAssociates(old(rf.trace), CONFIG_TRACE, StringTrace(GREETING, waits));
    GreetingKeepsConfiguration(old(rf.mem), configured, rf.mem);
  }

  /** Sending the greeting, which touches only UCSR0A and UDR0, keeps the configuration. */
  lemma GreetingKeepsConfiguration(before: Regs, configured: Regs, after: Regs)
    requires configured == before[ADMUX := ADMUX_SETTING][ADCSRA := ADCSRA_SETTING]
      [UBRR0H := UBRR_HIGH][UBRR0L := UBRR_LOW]
      [UCSR0B := UCSR0B_SETTING][UCSR0C := UCSR0C_SETTING]
    requires forall a: Addr :: a != UCSR0A && a != UDR0 ==> after[a] == configured[a]
    ensures StartedUp(after)
    ensures forall a: Addr :: a != UCSR0A && a != UDR0 && !Started(a) ==> after[a] == before[a]
  {
  }

  /** The registers the start-up writes, apart from the transmitter's own. */
  predicate Started(a: Addr)
  {
    a == ADMUX || a == ADCSRA || a == UBRR0H || a == UBRR0L || a == UCSR0B || a == UCSR0C
  }

  /** The start-up sends the greeting, every byte only after UDRE0 read 1. */
  lemma StartSendsGreeting(waits: seq<seq<bv8>>)
    requires ReadyFor(waits, |GREETING|)
    ensures Sent(StartTrace(waits)) == GREETING
    ensures WritesAfterReady(StartTrace(waits))
  {
    ConfigurationThenText(GREETING, waits);
  }

  /** Whatever text follows the configuration writes is exactly what is sent. */
  lemma ConfigurationThenText(text: seq<bv8>, waits: seq<seq<bv8>>)
    requires ReadyFor(waits, |text|)
    ensures Sent(CONFIG_TRACE + StringTrace(text, waits)) == text
    ensures WritesAfterReady(CONFIG_TRACE + StringTrace(text, waits))
  {
    var sending := StringTrace(text, waits);
    ConfigurationSendsNothing();
    SentAppend(CONFIG_TRACE, sending);
    SentOfStringTrace(text, waits);
    StringWritesAfterReady(text, waits);
    WritesAfterReadyAppend(CONFIG_TRACE, sending);
  }

  /** The configuration writes send nothing. */
  lemma ConfigurationSendsNothing()
    ensures Sent(CONFIG_TRACE) == [] && WritesAfterReady(CONFIG_TRACE)
  {
    assert NoData(CONFIG_TRACE);
    SentOfNoData(CONFIG_TRACE);
  }

  /** The accesses of one loop iteration. */
  function IterationTrace(admux: bv8, adcsra: bv8, obs: seq<bv8>, lo: bv8, hi: bv8,
                          digitWaits: seq<seq<bv8>>, crlfWaits: seq<seq<bv8>>): seq<Access>
    requires Reaches(obs, ADSC, 0)
    requires ReadyFor(digitWaits, |DecimalText(Word(lo, hi))|) && ReadyFor(crlfWaits, |CRLF|)
  {
    ReadTrace(admux, adcsra, 0, obs, lo, hi)
      + (StringTrace(DecimalText(Word(lo, hi)), digitWaits) + StringTrace(CRLF, crlfWaits))
  }

  /**
   * One iteration of the main loop: read channel 0, convert the reading
   * into `buf` with utoa, send the text, then send "\r\n".
   */
  method Step(rf: RegisterFile, buf: seq<bv8>, obs: seq<bv8>, lo: bv8, hi: bv8,
              digitWaits: seq<seq<bv8>>, crlfWaits: seq<seq<bv8>>)
    returns (potVal: U16, buf': seq<bv8>)
    requires rf.Valid() && |buf| == BUF_SIZE && Reaches(obs, ADSC, 0)
    requires ReadyFor(digitWaits, |DecimalText(Word(lo, hi))|) && ReadyFor(crlfWaits, |CRLF|)
    modifies rf
    ensures rf.Valid()
    ensures potVal == Word(lo, hi) && buf' == Utoa(potVal, buf)
    ensures rf.mem[ADMUX] == SelectChannel(old(rf.mem)[ADMUX], 0)
    ensures rf.mem[ADCL] == lo && rf.mem[ADCH] == hi
    ensures forall a: Addr :: a != UCSR0A && a != UDR0 && !Converting(a) ==> rf.mem[a] == old(rf.mem)[a]
    ensures rf.trace == old(rf.trace) + IterationTrace(old(rf.mem)[ADMUX], old(rf.mem)[ADCSRA], obs, lo, hi, digitWaits, crlfWaits)
  {
    potVal := AdcRead(rf, 0, obs, lo, hi);
    buf' := Utoa(potVal, buf);
    SendLine(rf, buf', digitWaits, crlfWaits);
    var read := ReadTrace(old(rf.mem)[ADMUX], old(rf.mem)[ADCSRA], 0, obs, lo, hi);
    var digits := StringTrace(DecimalText(potVal), digitWaits);
    var crlf := StringTrace(CRLF, crlfWaits);
    AppendAssociates(old(rf.trace), read, digits + crlf);
  }

  /**
   * Each iteration sends exactly the decimal text of the reading and then
   * "\r\n", every byte only after UDRE0 read 1; reading the text back gives
   * the reading.
   */
  lemma IterationSendsReading(admux: bv8, adcsra: bv8, obs: seq<bv8>, lo: bv8, hi: bv8,
                              digitWaits: seq<seq<bv8>>, crlfWaits: seq<seq<bv8>>)
    requires Reaches(obs, ADSC, 0)
    requires ReadyFor(digitWaits, |DecimalText(Word(lo, hi))|) && ReadyFor(crlfWaits, |CRLF|)
    ensures var sent := Sent(IterationTrace(admux, adcsra, obs, lo, hi, digitWaits, crlfWaits));
      sent == DecimalText(Word(lo, hi)) + CRLF &&
      ParseDecimal(sent[..|sent| - 2]) == Word(lo, hi)
    ensures WritesAfterReady(IterationTrace(admux, adcsra, obs, lo, hi, digitWaits, crlfWaits))
  {
    var text := DecimalText(Word(lo, hi));
    ReadSendsNothing(admux, adcsra, 0, obs, lo, hi);
    QuietThenLine(ReadTrace(admux, adcsra, 0, obs, lo, hi), text, digitWaits, crlfWaits);
    var sent := text + CRLF;
    assert sent[..|sent| - 2] == text;
    ParseDecimalText(Word(lo, hi));
  }
}
