/**
 * USART0 transmission shared by the serial examples: the baud-rate divisor,
 * NUL-terminated byte strings, the radix-10 text `utoa` produces, and the
 * polled transmitter (wait for the data-register-empty flag, then write the
 * data register), one byte and a whole string at a time.
 *
 * The same transmit and string routines appear three times in the sources
 * with the same behaviour; they are modelled once here.
 */
module Serial {
  import opened Registers

  /** UDRE0: the data-register-empty flag, bit 5 of UCSR0A. */
  const UDRE0: BitIndex := 5

  const BAUD := 9600

  /** DOR0 (bit 3 of UCSR0A): data overrun. */
  const DOR0: BitIndex := 3
  /** TXEN0 (bit 3 of UCSR0B): transmitter enable. */
  const TXEN0: BitIndex := 3
  /** UCSZ00 and UCSZ01 (bits 1 and 2 of UCSR0C): together, 8-bit characters. */
  const UCSZ00: BitIndex := 1
  const UCSZ01: BitIndex := 2

  /** The asynchronous normal-mode divisor: CPU clock / 16 / baud, minus one. */
  function UbrrFor(cpu: nat, baud: nat): int
    requires baud > 0
  {
    cpu / 16 / baud - 1
  }

  /** The divisor every serial example computes at 16 MHz and 9600 baud. */
  const UBRR: U16 := UbrrFor(CPU_CLOCK, BAUD)

  /** The bytes of the divisor, as stored in UBRR0H and UBRR0L. */
  const UBRR_HIGH: bv8 := 0
  const UBRR_LOW: bv8 := 103

  /** The divisor is 103; it fits UBRR0L, so UBRR0H is 0. */
  lemma UbrrValue()
    ensures UBRR == 103
    ensures HighByte(UBRR) == UBRR_HIGH && LowByte(UBRR) == UBRR_LOW
    ensures Word(LowByte(UBRR), HighByte(UBRR)) == UBRR
  {
    WordOfBytes(UBRR);
  }

  /** The baud rate the divisor yields is within 1% of the requested one. */
  lemma UbrrBaudError()
    ensures var actual := CPU_CLOCK / (16 * (UBRR + 1));
      actual == 9615 && (actual - BAUD) * 100 < BAUD
  {
  }

  // ---------------------------------------------------------------------
  // NUL-terminated strings
  // ---------------------------------------------------------------------

  /** The bytes of a C string: everything before the first NUL. */
  function CString(s: seq<bv8>): (r: seq<bv8>)
    requires 0 in s
    ensures |r| < |s| && s[|r|] == 0
    ensures r == s[..|r|] && 0 !in r
    decreases |s|
  {
    if s[0] == 0 then [] else [s[0]] + CString(s[1..])
  }

  /** A NUL-free text followed by a NUL reads back as that text, whatever follows. */
  lemma {:induction false} CStringOfTerminated(text: seq<bv8>, rest: seq<bv8>)
    requires 0 !in text
    ensures CString(text + [0] + rest) == text
    decreases |text|
  {
    var s := text + [0] + rest;
    if text != [] {
      assert s[0] == text[0];
      assert s[1..] == text[1..] + [0] + rest;
      CStringOfTerminated(text[1..], rest);
      assert text == [text[0]] + text[1..];
    }
  }

  /** Carriage return, line feed. */
  const CRLF: seq<bv8> := [0x0D, 0x0A]

  /** The greeting the serial examples send once at start-up. */
  const GREETING_TEXT: string := "Hello from ATmega328P\r\n"

  /** The bytes of the greeting. */
  const GREETING: seq<bv8> :=
    [0x48, 0x65, 0x6C, 0x6C, 0x6F, 0x20, 0x66, 0x72, 0x6F, 0x6D, 0x20,
     0x41, 0x54, 0x6D, 0x65, 0x67, 0x61, 0x33, 0x32, 0x38, 0x50, 0x0D, 0x0A]

  /** The greeting bytes are the ASCII codes of the greeting text, 23 of them. */
  lemma GreetingIsAscii()
    ensures |GREETING| == |GREETING_TEXT| == 23
    ensures forall i :: 0 <= i < |GREETING| ==> GREETING[i] as int == GREETING_TEXT[i] as int
  {
    assert forall i :: 0 <= i < 8 ==> GREETING[i] as int == GREETING_TEXT[i] as int;
    assert forall i :: 8 <= i < 16 ==> GREETING[i] as int == GREETING_TEXT[i] as int;
    assert forall i :: 16 <= i < 23 ==> GREETING[i] as int == GREETING_TEXT[i] as int;
  }

  /** The greeting as a C string literal: its 23 bytes, then the NUL. */
  function GreetingLiteral(): (r: seq<bv8>)
    ensures 0 in r
    ensures CString(r) == GREETING
  {
    CStringOfTerminated(GREETING, []);
    GREETING + [0] + []
  }

  /** The "\r\n" literal: two bytes, then the NUL. */
  function CrlfLiteral(): (r: seq<bv8>)
    ensures 0 in r
    ensures CString(r) == CRLF
  {
    CStringOfTerminated(CRLF, []);
    CRLF + [0] + []
  }

  // ---------------------------------------------------------------------
  // Radix-10 text of an unsigned value, as utoa(value, buf, 10) writes it
  // ---------------------------------------------------------------------

  predicate IsDigit(c: bv8)
  {
    0x30 <= c <= 0x39
  }

  /** The ASCII digit of `d`. */
  function Digit(d: int): (c: bv8)
    requires 0 <= d < 10
    ensures IsDigit(c) && c as int - 0x30 == d
  {
    ToByte(0x30 + d)
  }

  /** The value of an ASCII digit. */
  function DigitValue(c: bv8): (d: int)
    requires IsDigit(c)
    ensures 0 <= d < 10 && Digit(d) == c
  {
    var d := c as int - 0x30;
    ByteFromValue(Digit(d), c);
    d
  }

  /** The decimal digits of `n`, most significant first, without leading zeros. */
  function DecimalText(n: nat): (r: seq<bv8>)
    ensures |r| >= 1
    ensures forall i :: 0 <= i < |r| ==> IsDigit(r[i])
    ensures r[0] == Digit(0) ==> n == 0
    decreases n
  {
    if n < 10 then [Digit(n)] else DecimalText(n / 10) + [Digit(n % 10)]
  }

  /** The value a string of ASCII digits spells in radix 10. */
  function ParseDecimal(s: seq<bv8>): nat
    requires forall i :: 0 <= i < |s| ==> IsDigit(s[i])
    decreases |s|
  {
    if s == [] then 0
    else 10 * ParseDecimal(s[..|s| - 1]) + DigitValue(s[|s| - 1])
  }

  /** Reading the text back gives the value: the text loses nothing. */
  lemma {:induction false} ParseDecimalText(n: nat)
    ensures ParseDecimal(DecimalText(n)) == n
    decreases n
  {
    var r := DecimalText(n);
    if n < 10 {
      assert r[..0] == [];
      assert DigitValue(Digit(n)) == n by {
        ByteFromValue(Digit(DigitValue(Digit(n))), Digit(n));
      }
    } else {
      ParseDecimalText(n / 10);
      assert r[..|r| - 1] == DecimalText(n / 10);
      assert DigitValue(Digit(n % 10)) == n % 10 by {
        DigitValueOfDigit(n % 10);
      }
    }
  }

  lemma DigitValueOfDigit(d: int)
    requires 0 <= d < 10
    ensures DigitValue(Digit(d)) == d
  {
    var c := Digit(d);
    assert c as int - 0x30 == d;
  }

  /** A value below 10^k has at most k digits. */
  lemma {:induction false} DecimalTextLength(n: nat, k: nat)
    requires k >= 1 && n < Pow10(k)
    ensures |DecimalText(n)| <= k
    decreases n
  {
    if n >= 10 {
      assert k >= 2;
      assert n / 10 < Pow10(k - 1);
      DecimalTextLength(n / 10, k - 1);
    }
  }

  function Pow10(k: nat): (r: nat)
    ensures r >= 1
  {
    if k == 0 then 1 else 10 * Pow10(k - 1)
  }

  /** Any `uint16_t` has at most five digits, so six bytes hold its C string. */
  lemma U16TextFits(v: U16)
    ensures |DecimalText(v)| <= 5
  {
    assert Pow10(5) == 100000;
    DecimalTextLength(v, 5);
  }

  /**
   * `utoa(v, buf, 10)`: the digits of `v` and a NUL at the start of `buf`;
   * the rest of the buffer is left as it was. Six bytes hold any `uint16_t`.
   */
  function Utoa(v: U16, buf: seq<bv8>): (r: seq<bv8>)
    requires |buf| >= 6
    ensures |r| == |buf| && 0 in r
    ensures CString(r) == DecimalText(v)
  {
    U16TextFits(v);
    var text := DecimalText(v);
    var rest := buf[|text| + 1..];
    assert 0 !in text by {
      forall i | 0 <= i < |text| ensures text[i] != 0 {
        assert IsDigit(text[i]);
      }
    }
    CStringOfTerminated(text, rest);
    text + [0] + rest
  }

  // ---------------------------------------------------------------------
  // The polled transmitter
  // ---------------------------------------------------------------------

  /** The accesses of one byte's transmission: the UDRE0 wait, then the UDR0 write. */
  function TransmitTrace(byte: bv8, obs: seq<bv8>): seq<Access>
    requires Reaches(obs, UDRE0, 1)
  {
    PollTrace(UCSR0A, UDRE0, 1, obs) + [Write(UDR0, byte)]
  }

  /** Each of the first `n` waits eventually sees UDRE0 set. */
  predicate ReadyFor(waits: seq<seq<bv8>>, n: nat)
  {
    n <= |waits| && forall i :: 0 <= i < n ==> Reaches(waits[i], UDRE0, 1)
  }

  /** The accesses of sending `bytes`, the i-th byte's wait seeing `waits[i]`. */
  function StringTrace(bytes: seq<bv8>, waits: seq<seq<bv8>>): seq<Access>
    requires ReadyFor(waits, |bytes|)
    decreases |bytes|
  {
    if bytes == [] then []
    else TransmitTrace(bytes[0], waits[0]) + StringTrace(bytes[1..], waits[1..])
  }

  /** Sending one more byte appends its transmission. */
  lemma {:induction false} StringTraceSnoc(bytes: seq<bv8>, waits: seq<seq<bv8>>, i: nat)
    requires i < |bytes| && ReadyFor(waits, |bytes|)
    ensures StringTrace(bytes[..i + 1], waits) == StringTrace(bytes[..i], waits) + TransmitTrace(bytes[i], waits[i])
    decreases i
  {
    if i == 0 {
      assert bytes[..1][1..] == [];
    } else {
      assert bytes[..i + 1][1..] == bytes[1..][..i];
      assert bytes[..i][1..] == bytes[1..][..i - 1];
      StringTraceSnoc(bytes[1..], waits[1..], i - 1);
    }
  }

  /** The bytes written to UDR0, in order: what goes out on the serial line. */
  function Sent(t: seq<Access>): seq<bv8>
    decreases |t|
  {
    if t == [] then [] else Data(t[0]) + Sent(t[1..])
  }

  /** The byte one access puts on the line: the value of a write to UDR0. */
  function Data(a: Access): (r: seq<bv8>)
    ensures |r| <= 1
    ensures r != [] <==> a.Write? && a.addr == UDR0
  {
    if a == Write(UDR0, a.value) then [a.value] else []
  }

  lemma {:induction false} SentAppend(t: seq<Access>, u: seq<Access>)
    ensures Sent(t + u) == Sent(t) + Sent(u)
    decreases |t|
  {
    if t == [] {
      assert t + u == u;
    } else {
      assert (t + u)[0] == t[0] && (t + u)[1..] == t[1..] + u;
      SentAppend(t[1..], u);
      assert Data(t[0]) + (Sent(t[1..]) + Sent(u)) == Data(t[0]) + Sent(t[1..]) + Sent(u);
    }
  }

  /** No access of `t` writes UDR0. */
  predicate NoData(t: seq<Access>)
  {
    forall i :: 0 <= i < |t| ==> t[i].Read? || t[i].addr != UDR0
  }

  /** Accesses that write nothing to UDR0 send nothing. */
  lemma {:induction false} SentOfNoData(t: seq<Access>)
    requires NoData(t)
    ensures Sent(t) == [] && WritesAfterReady(t)
    decreases |t|
  {
    if t != [] {
      assert forall i :: 0 <= i < |t[1..]| ==> t[1..][i] == t[i + 1];
      SentOfNoData(t[1..]);
    }
  }

  /** Reads send nothing. */
  lemma SentOfSamples(a: Addr, s: seq<bv8>)
    ensures Sent(Samples(a, s)) == []
  {
    SentOfNoData(Samples(a, s));
  }

  /** One transmission sends its byte and nothing else. */
  lemma SentOfTransmitTrace(byte: bv8, obs: seq<bv8>)
    requires Reaches(obs, UDRE0, 1)
    ensures Sent(TransmitTrace(byte, obs)) == [byte]
  {
    var poll := PollTrace(UCSR0A, UDRE0, 1, obs);
    SentAppend(poll, [Write(UDR0, byte)]);
    SentOfSamples(UCSR0A, obs[..FirstHit(obs, UDRE0, 1) + 1]);
    assert [Write(UDR0, byte)][1..] == [];
  }

  /** Transmitting a string sends exactly its bytes, in order. */
  lemma {:induction false} SentOfStringTrace(bytes: seq<bv8>, waits: seq<seq<bv8>>)
    requires ReadyFor(waits, |bytes|)
    ensures Sent(StringTrace(bytes, waits)) == bytes
    decreases |bytes|
  {
    if bytes != [] {
      SentOfStringTrace(bytes[1..], waits[1..]);
      SentOfTransmitTrace(bytes[0], waits[0]);
      SentAppend(TransmitTrace(bytes[0], waits[0]), StringTrace(bytes[1..], waits[1..]));
      assert bytes == [bytes[0]] + bytes[1..];
    }
  }

  /** Every UDR0 write comes right after a read of UCSR0A that saw UDRE0 set. */
  ghost predicate WritesAfterReady(t: seq<Access>)
  {
    forall i :: 0 <= i < |t| && t[i] == Write(UDR0, t[i].value) ==>
      i > 0 && t[i - 1] == Read(UCSR0A, t[i - 1].value) && ReadBit(t[i - 1].value, UDRE0) == 1
  }

  lemma WritesAfterReadyAppend(t: seq<Access>, u: seq<Access>)
    requires WritesAfterReady(t) && WritesAfterReady(u)
    ensures WritesAfterReady(t + u)
  {
    forall i | 0 <= i < |t + u| && (t + u)[i] == Write(UDR0, (t + u)[i].value)
      ensures i > 0 && (t + u)[i - 1] == Read(UCSR0A, (t + u)[i - 1].value)
      ensures ReadBit((t + u)[i - 1].value, UDRE0) == 1
    {
      if i >= |t| {
        assert u[i - |t|] == (t + u)[i];
        assert i - |t| > 0;
        assert (t + u)[i - 1] == u[i - |t| - 1];
      }
    }
  }

  /** A transmission writes UDR0 only once the flag it waited for reads 1. */
  lemma TransmitWritesAfterReady(byte: bv8, obs: seq<bv8>)
    requires Reaches(obs, UDRE0, 1)
    ensures WritesAfterReady(TransmitTrace(byte, obs))
    ensures TransmitTrace(byte, obs)[0].Read?
  {
    var n := FirstHit(obs, UDRE0, 1);
    var t := TransmitTrace(byte, obs);
    assert |t| == n + 2;
    assert t[n] == Read(UCSR0A, obs[n]);
  }

  /** A whole string is sent with every byte written only after the flag read 1. */
  lemma {:induction false} StringWritesAfterReady(bytes: seq<bv8>, waits: seq<seq<bv8>>)
    requires ReadyFor(waits, |bytes|)
    ensures WritesAfterReady(StringTrace(bytes, waits))
    decreases |bytes|
  {
    if bytes != [] {
      StringWritesAfterReady(bytes[1..], waits[1..]);
      TransmitWritesAfterReady(bytes[0], waits[0]);
      WritesAfterReadyAppend(TransmitTrace(bytes[0], waits[0]), StringTrace(bytes[1..], waits[1..]));
    }
  }

  /**
   * USART_transmit / USART_write_byte: busy-wait until UCSR0A reads with
   * UDRE0 set (the k-th read seeing `obs[k]`), then write `byte` to UDR0.
   */
  method Transmit(rf: RegisterFile, byte: bv8, obs: seq<bv8>)
    requires rf.Valid() && Reaches(obs, UDRE0, 1)
    modifies rf
    ensures rf.Valid()
    ensures rf.mem == old(rf.mem)[UCSR0A := obs[FirstHit(obs, UDRE0, 1)]][UDR0 := byte]
    ensures forall a: Addr :: a != UCSR0A && a != UDR0 ==> rf.mem[a] == old(rf.mem)[a]
    ensures rf.trace == old(rf.trace) + TransmitTrace(byte, obs)
  {
    var _ := rf.PollBit(UCSR0A, UDRE0, 1, obs);
    rf.Put(UDR0, byte);
  }

  /**
   * USART_transmit_string / USART_print: transmit the bytes of the C
   * string `s` one after another, the i-th byte's wait seeing `waits[i]`.
   */
  method TransmitString(rf: RegisterFile, s: seq<bv8>, waits: seq<seq<bv8>>)
    requires rf.Valid() && 0 in s
    requires ReadyFor(waits, |CString(s)|)
    modifies rf
    ensures rf.Valid()
    ensures rf.trace == old(rf.trace) + StringTrace(CString(s), waits)
    ensures forall a: Addr :: a != UCSR0A && a != UDR0 ==> rf.mem[a] == old(rf.mem)[a]
  {
    ghost var text := CString(s);
    var i := 0;
    while s[i] != 0
      invariant 0 <= i <= |text|
      invariant rf.Valid()
      invariant forall a: Addr :: a != UCSR0A && a != UDR0 ==> rf.mem[a] == old(rf.mem)[a]
      invariant rf.trace == old(rf.trace) + StringTrace(text[..i], waits)
      decreases |text| - i
    {
      assert i < |text| && s[i] == text[i];
      StringTraceSnoc(text, waits, i);
      AppendAssociates(old(rf.trace), StringTrace(text[..i], waits), TransmitTrace(s[i], waits[i]));
      Transmit(rf, s[i], waits[i]);
      i := i + 1;
    }
    assert i == |text|;
    assert text[..i] == text;
  }

  /** The C string in `line`, then "\r\n". */
  method SendLine(rf: RegisterFile, line: seq<bv8>, waits: seq<seq<bv8>>, crlfWaits: seq<seq<bv8>>)
    requires rf.Valid() && 0 in line
    requires ReadyFor(waits, |CString(line)|) && ReadyFor(crlfWaits, |CRLF|)
    modifies rf
    ensures rf.Valid()
    ensures rf.trace == old(rf.trace) + (StringTrace(CString(line), waits) + StringTrace(CRLF, crlfWaits))
    ensures forall a: Addr :: a != UCSR0A && a != UDR0 ==> rf.mem[a] == old(rf.mem)[a]
  {
    TransmitString(rf, line, waits);
    TransmitString(rf, CrlfLiteral(), crlfWaits);
    AppendAssociates(old(rf.trace), StringTrace(CString(line), waits), StringTrace(CRLF, crlfWaits));
  }

  /** After accesses that send nothing, a line sends exactly its text and "\r\n". */
  lemma QuietThenLine(quiet: seq<Access>, text: seq<bv8>, waits: seq<seq<bv8>>, crlfWaits: seq<seq<bv8>>)
    requires NoData(quiet)
    requires ReadyFor(waits, |text|) && ReadyFor(crlfWaits, |CRLF|)
    ensures Sent(quiet + (StringTrace(text, waits) + StringTrace(CRLF, crlfWaits))) == text + CRLF
    ensures WritesAfterReady(quiet + (StringTrace(text, waits) + StringTrace(CRLF, crlfWaits)))
  {
    var line := StringTrace(text, waits) + StringTrace(CRLF, crlfWaits);
    LineSendsText(text, waits, crlfWaits);
    SentOfNoData(quiet);
    SentAppend(quiet, line);
    WritesAfterReadyAppend(quiet, line);
  }

  /** A line sends exactly its text and "\r\n", every byte after UDRE0 read 1. */
  lemma LineSendsText(text: seq<bv8>, waits: seq<seq<bv8>>, crlfWaits: seq<seq<bv8>>)
    requires ReadyFor(waits, |text|) && ReadyFor(crlfWaits, |CRLF|)
    ensures Sent(StringTrace(text, waits) + StringTrace(CRLF, crlfWaits)) == text + CRLF
    ensures WritesAfterReady(StringTrace(text, waits) + StringTrace(CRLF, crlfWaits))
  {
    var digits := StringTrace(text, waits);
    var crlf := StringTrace(CRLF, crlfWaits);
    SentOfStringTrace(text, waits);
    SentOfStringTrace(CRLF, crlfWaits);
    SentAppend(digits, crlf);
    StringWritesAfterReady(text, waits);
    StringWritesAfterReady(CRLF, crlfWaits);
    WritesAfterReadyAppend(digits, crlf);
  }
}
