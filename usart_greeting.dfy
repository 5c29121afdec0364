/**
 * 8_i2c: configure USART0 for 9600 baud, 8-bit characters, transmitter on,
 * send the greeting once, then idle forever. Despite the file's name it
 * drives no TWI (I2C) register: USART_init, USART_write_byte and
 * USART_print are its only routines.
 */
module UsartGreeting {
  import opened Registers
  import opened Serial

  /**
   * The accesses of USART_init: the divisor low byte, its high byte, then
   * SET_BIT on bits 1 and 2 of UCSR0C (UCSZ00, UCSZ01) and bit 3 of UCSR0B
   * (TXEN0), UCSR0B and UCSR0C holding `ucsr0b` and `ucsr0c` at first.
   */
  function InitTrace(ucsr0b: bv8, ucsr0c: bv8): seq<Access>
  {
    [Write(UBRR0L, UBRR_LOW), Write(UBRR0H, UBRR_HIGH)] + SetBitAccesses(UCSR0C, ucsr0c, UCSZ00)
      + SetBitAccesses(UCSR0C, WithBitSet(ucsr0c, UCSZ00), UCSZ01) + SetBitAccesses(UCSR0B, ucsr0b, TXEN0)
  }

  /** UCSR0C after USART_init, from `v`. */
  function FrameFormat(v: bv8): bv8
  {
    WithBitSet(WithBitSet(v, UCSZ00), UCSZ01)
  }

  /**
   * USART_init: UBRR0L gets UBRR truncated to a byte, UBRR0H gets UBRR >> 8,
   * then the character size and transmitter bits are set.
   */
  method UsartInit(rf: RegisterFile)
    requires rf.Valid()
    modifies rf
    ensures rf.Valid()
    ensures rf.mem == old(rf.mem)[UBRR0L := UBRR_LOW][UBRR0H := UBRR_HIGH]
      [UCSR0C := FrameFormat(old(rf.mem)[UCSR0C])][UCSR0B := WithBitSet(old(rf.mem)[UCSR0B], TXEN0)]
    ensures rf.trace == old(rf.trace) + InitTrace(old(rf.mem)[UCSR0B], old(rf.mem)[UCSR0C])
  {
    UbrrValue();
    var ubrr: U16 := CPU_CLOCK / 16 / BAUD - 1;
    assert ubrr == UBRR;
    rf.Put(UBRR0L, LowByte(ubrr));
    rf.Put(UBRR0H, HighByte(ubrr));
    ghost var done := [Write(UBRR0L, UBRR_LOW), Write(UBRR0H, UBRR_HIGH)];
    assert rf.trace == old(rf.trace) + done;
    assert rf.mem == old(rf.mem)[UBRR0L := UBRR_LOW][UBRR0H := UBRR_HIGH];
    done := SetBitNext(rf, UCSR0C, UCSZ00, old(rf.trace), done);
    done := SetBitNext(rf, UCSR0C, UCSZ01, old(rf.trace), done);
    done := SetBitNext(rf, UCSR0B, TXEN0, old(rf.trace), done);
  }

  /**
   * What USART_init leaves configured, whatever UCSR0B and UCSR0C held:
   * the divisor bytes join to UBRR, UCSZ01:UCSZ00 select 8-bit characters,
   * the transmitter is on, and every other bit of both registers is kept.
   */
  lemma UsartInitConfigures(ucsr0b: bv8, ucsr0c: bv8)
    ensures Word(UBRR_LOW, UBRR_HIGH) == UBRR
    ensures (FrameFormat(ucsr0c) >> 1) & 3 == 3
    ensures ReadBit(WithBitSet(ucsr0b, TXEN0), TXEN0) == 1
    ensures forall k: BitIndex :: k != UCSZ00 && k != UCSZ01 ==> ReadBit(FrameFormat(ucsr0c), k) == ReadBit(ucsr0c, k)
    ensures forall k: BitIndex :: k != TXEN0 ==> ReadBit(WithBitSet(ucsr0b, TXEN0), k) == ReadBit(ucsr0b, k)
  {
    UbrrValue();
    var c := FrameFormat(ucsr0c);
    assert ReadBit(c, UCSZ00) == 1 && ReadBit(c, UCSZ01) == 1;
    assert (c >> 1) & 1 == 1 && (c >> 2) & 1 == 1;
  }

  /** USART_init writes nothing to UDR0. */
  lemma InitSendsNothing(ucsr0b: bv8, ucsr0c: bv8)
    ensures Sent(InitTrace(ucsr0b, ucsr0c)) == [] && WritesAfterReady(InitTrace(ucsr0b, ucsr0c))
  {
    assert NoData(InitTrace(ucsr0b, ucsr0c));
    SentOfNoData(InitTrace(ucsr0b, ucsr0c));
  }

  /** The accesses of main: USART_init, then USART_print of the greeting. */
  function MainTrace(ucsr0b: bv8, ucsr0c: bv8, waits: seq<seq<bv8>>): seq<Access>
    requires ReadyFor(waits, |GREETING|)
  {
    InitTrace(ucsr0b, ucsr0c) + StringTrace(GREETING, waits)
  }

  /**
   * main up to its idle loop: USART_init, then USART_print of the greeting,
   * the i-th byte's wait seeing `waits[i]`. The idle loop touches nothing.
   */
  method Greet(rf: RegisterFile, waits: seq<seq<bv8>>)
    requires rf.Valid() && ReadyFor(waits, |GREETING|)
    modifies rf
    ensures rf.Valid()
    ensures rf.mem[UBRR0L] == UBRR_LOW && rf.mem[UBRR0H] == UBRR_HIGH
    ensures rf.mem[UCSR0C] == FrameFormat(old(rf.mem)[UCSR0C])
    ensures rf.mem[UCSR0B] == WithBitSet(old(rf.mem)[UCSR0B], TXEN0)
    ensures forall a: Addr :: a != UCSR0A && a != UDR0 && a != UBRR0L && a != UBRR0H && a != UCSR0B && a != UCSR0C ==>
      rf.mem[a] == old(rf.mem)[a]
    ensures rf.trace == old(rf.trace) + MainTrace(old(rf.mem)[UCSR0B], old(rf.mem)[UCSR0C], waits)
  {
    UsartInit(rf);
    ghost var m1, t1 := rf.mem, rf.trace;
    var greeting := GreetingLiteral();
    TransmitString(rf, greeting, waits);
    MainComposes(old(rf.mem), m1, rf.mem, old(rf.trace), t1, rf.trace,
      InitTrace(old(rf.mem)[UCSR0B], old(rf.mem)[UCSR0C]), StringTrace(GREETING, waits),
      WithBitSet(old(rf.mem)[UCSR0B], TXEN0), FrameFormat(old(rf.mem)[UCSR0C]));
  }

  /** How USART_init and USART_print add up, for any values they store and accesses they make. */
  lemma MainComposes(m0: Regs, m1: Regs, m2: Regs, t0: seq<Access>, t1: seq<Access>, t2: seq<Access>,
                     init: seq<Access>, text: seq<Access>, b: bv8, c: bv8)
    requires m1 == m0[UBRR0L := UBRR_LOW][UBRR0H := UBRR_HIGH][UCSR0C := c][UCSR0B := b]
    requires forall r: Addr :: r != UCSR0A && r != UDR0 ==> m2[r] == m1[r]
    requires t1 == t0 + init && t2 == t1 + text
    ensures m2[UBRR0L] == UBRR_LOW && m2[UBRR0H] == UBRR_HIGH && m2[UCSR0C] == c && m2[UCSR0B] == b
    ensures forall a: Addr :: a != UCSR0A && a != UDR0 && a != UBRR0L && a != UBRR0H && a != UCSR0B && a != UCSR0C ==>
      m2[a] == m0[a]
    ensures t2 == t0 + (init + text)
  {
    AppendAssociates(t0, init, text);
  }

  /** main sends exactly the greeting, every byte after UDRE0 read 1. */
  lemma MainSendsGreeting(ucsr0b: bv8, ucsr0c: bv8, waits: seq<seq<bv8>>)
    requires ReadyFor(waits, |GREETING|)
    ensures Sent(MainTrace(ucsr0b, ucsr0c, waits)) == GREETING
    ensures WritesAfterReady(MainTrace(ucsr0b, ucsr0c, waits))
  {
    var init := InitTrace(ucsr0b, ucsr0c);
    var text := StringTrace(GREETING, waits);
    InitSendsNothing(ucsr0b, ucsr0c);
    SentOfStringTrace(GREETING, waits);
    StringWritesAfterReady(GREETING, waits);
    SentAppend(init, text);
    WritesAfterReadyAppend(init, text);
  }
}
