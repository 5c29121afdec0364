/**
 * The register-access layer shared by the ATmega328P examples: byte-wide
 * memory-mapped registers at fixed data-space addresses, the header's
 * address constants, the bit macros SET_BIT, UNSET_BIT, TOGGLE_BIT and
 * READ_BIT, and the 16-bit register pairs written as two bytes.
 *
 * Every volatile access is recorded, in program order, in a ghost trace,
 * so that the examples can state what they write, what they read and in
 * which order. Values that the hardware puts into a register (status
 * flags, the ADC result, the input pins) reach the model as injected
 * observations through `Sample`.
 */
module Registers {

  /** An address of the register window of the data space (0x00..0xFF). */
  type Addr = a: int | 0 <= a < 0x100

  /** A bit position inside an 8-bit register, kept as a shift amount. */
  type BitIndex = b: bv8 | b < 8

  /** An unsigned 16-bit value (`uint16_t`). */
  type U16 = x: int | 0 <= x < 0x1_0000

  const CPU_CLOCK := 16000000

  // Port B and port D
  const PINB: Addr := 0x23
  const DDRB: Addr := 0x24
  const PORTB: Addr := 0x25
  const PIND: Addr := 0x29
  const DDRD: Addr := 0x2A
  const PORTD: Addr := 0x2B

  // External interrupts and status register
  const EIMSK: Addr := 0x3D
  const EICRA: Addr := 0x69
  const SREG: Addr := 0x5F

  // 8-bit Timer/Counter0
  const TCCR0A: Addr := 0x44
  const TCCR0B: Addr := 0x45
  const OCR0A: Addr := 0x47
  const TCNT0: Addr := 0x46
  const TIMSK0: Addr := 0x6E
  const TIFR0: Addr := 0x35

  // 16-bit Timer/Counter1
  const TCCR1A: Addr := 0x80
  const TCCR1B: Addr := 0x81
  const OCR1AL: Addr := 0x88
  const OCR1AH: Addr := 0x89

  // Analog-to-digital converter
  const ADCL: Addr := 0x78
  const ADCH: Addr := 0x79
  const ADCSRA: Addr := 0x7A
  const ADMUX: Addr := 0x7C

  // USART0
  const UCSR0A: Addr := 0xC0
  const UCSR0B: Addr := 0xC1
  const UCSR0C: Addr := 0xC2
  const UBRR0L: Addr := 0xC4
  const UBRR0H: Addr := 0xC5
  const UDR0: Addr := 0xC6

  // Two-wire interface: declared by the header, used by no example
  const TWBR: Addr := 0xB8
  const TWSR: Addr := 0xB9
  const TWAR: Addr := 0xBA
  const TWDR: Addr := 0xBB
  const TWCR: Addr := 0xBC
  const TWAMR: Addr := 0xBD

  /** The examples without the header reach a register by its I/O offset. */
  const IO_REG_OFFSET := 0x20

  /** `IO_PIN(offset)`: the data-space address of I/O register `offset`. */
  function IoReg(offset: int): Addr
    requires 0 <= offset < 0x100 - IO_REG_OFFSET
  {
    offset + IO_REG_OFFSET
  }

  /** The offsets the header-less examples use name the header's registers. */
  lemma IoRegNamesHeaderRegisters()
    ensures IoReg(0x03) == PINB && IoReg(0x04) == DDRB && IoReg(0x05) == PORTB
    ensures IoReg(0x0A) == DDRD
    ensures IoReg(0x24) == TCCR0A && IoReg(0x25) == TCCR0B && IoReg(0x27) == OCR0A
    ensures IoReg(0x60) == TCCR1A && IoReg(0x61) == TCCR1B
    ensures IoReg(0x68) == OCR1AL && IoReg(0x69) == OCR1AH
    ensures IoReg(0x58) == ADCL && IoReg(0x59) == ADCH
    ensures IoReg(0x5A) == ADCSRA && IoReg(0x5C) == ADMUX
    ensures IoReg(0xA0) == UCSR0A && IoReg(0xA1) == UCSR0B && IoReg(0xA2) == UCSR0C
    ensures IoReg(0xA4) == UBRR0L && IoReg(0xA5) == UBRR0H && IoReg(0xA6) == UDR0
  {
  }

  // ---------------------------------------------------------------------
  // Bits of one byte
  // ---------------------------------------------------------------------

  function Pow2(n: nat): (r: nat)
    ensures r >= 1
  {
    if n == 0 then 1 else 2 * Pow2(n - 1)
  }

  /** The mask `1 << bit`. */
  function Mask(b: BitIndex): bv8
  {
    1 << b
  }

  /** READ_BIT on a register holding `v`: shift right by `bit`, keep bit 0. */
  function ReadBit(v: bv8, b: BitIndex): (r: int)
    ensures r == 0 || r == 1
  {
    if (v >> b) & 1 == 0 then 0 else 1
  }

  /** The byte SET_BIT stores: `v | (1 << bit)`. */
  function WithBitSet(v: bv8, b: BitIndex): (r: bv8)
    ensures ReadBit(r, b) == 1
    ensures forall k: BitIndex :: k != b ==> ReadBit(r, k) == ReadBit(v, k)
  {
    v | Mask(b)
  }

  /** The byte UNSET_BIT stores: `v & ~(1 << bit)`. */
  function WithBitCleared(v: bv8, b: BitIndex): (r: bv8)
    ensures ReadBit(r, b) == 0
    ensures forall k: BitIndex :: k != b ==> ReadBit(r, k) == ReadBit(v, k)
  {
    v & !Mask(b)
  }

  /** The byte TOGGLE_BIT stores: `v ^ (1 << bit)`. */
  function WithBitToggled(v: bv8, b: BitIndex): (r: bv8)
    ensures ReadBit(r, b) == 1 - ReadBit(v, b)
    ensures forall k: BitIndex :: k != b ==> ReadBit(r, k) == ReadBit(v, k)
  {
    v ^ Mask(b)
  }

  /** Two bytes that agree on every bit are the same byte. */
  lemma BitsDetermineByte(x: bv8, y: bv8)
    requires forall k: BitIndex :: ReadBit(x, k) == ReadBit(y, k)
    ensures x == y
  {
    assert ReadBit(x, 0) == ReadBit(y, 0) && ReadBit(x, 1) == ReadBit(y, 1);
    assert ReadBit(x, 2) == ReadBit(y, 2) && ReadBit(x, 3) == ReadBit(y, 3);
    assert ReadBit(x, 4) == ReadBit(y, 4) && ReadBit(x, 5) == ReadBit(y, 5);
    assert ReadBit(x, 6) == ReadBit(y, 6) && ReadBit(x, 7) == ReadBit(y, 7);
  }

  /** READ_BIT is the `bit`-th binary digit of the register's value. */
  lemma ReadBitIsBinaryDigit(v: bv8, b: BitIndex)
    ensures ReadBit(v, b) == (v as int / Pow2(b as int)) % 2
  {
    ShiftIsDivision(v, b);
    assert ((v >> b) & 1 == 0) <==> (v >> b) as int % 2 == 0;
  }

  /** A right shift by `k` divides by 2^k. */
  lemma {:induction false} ShiftIsDivision(v: bv8, k: BitIndex)
    ensures (v >> k) as int == v as int / Pow2(k as int)
  {
    if k == 0 {
      assert v >> 0 == v;
    } else {
      ShiftIsDivision(v, k - 1);
      assert v >> k == (v >> (k - 1)) >> 1;
      assert ((v >> (k - 1)) >> 1) as int == (v >> (k - 1)) as int / 2;
      HalfOfQuotient(v as int, Pow2((k - 1) as int));
    }
  }

  lemma HalfOfQuotient(a: nat, p: nat)
    requires p >= 1
    ensures a / p / 2 == a / (2 * p)
  {
    var q, r := a / (2 * p), a % (2 * p);
    assert a == q * (2 * p) + r;
    var s, t := r / p, r % p;
    assert r == s * p + t;
    assert 0 <= s < 2 by {
      if s >= 2 {
        ProductAtLeast(s - 1, p);
      }
    }
    assert a == (2 * q + s) * p + t;
    QuotientUnique(a, p, 2 * q + s, t);
    QuotientUnique(2 * q + s, 2, q, s);
  }

  lemma QuotientUnique(a: int, d: int, q: int, r: int)
    requires d > 0 && a == q * d + r && 0 <= r < d
    ensures a / d == q
  {
    var q', r' := a / d, a % d;
    assert a == q' * d + r' && 0 <= r' < d;
    assert (q' - q) * d == r - r';
    if q' > q {
      ProductAtLeast(q' - q, d);
    } else if q' < q {
      ProductAtLeast(q - q', d);
    }
  }

  lemma ProductAtLeast(x: int, d: int)
    requires x >= 1 && d > 0
    ensures x * d >= d
  {
  }

  /** The test `(v & (1 << bit)) != 0` that some examples write asks READ_BIT. */
  lemma MaskTestIsReadBit(v: bv8, b: BitIndex)
    ensures (v & Mask(b) != 0) <==> ReadBit(v, b) == 1
  {
  }

  lemma SetBitIdempotent(v: bv8, b: BitIndex)
    ensures WithBitSet(WithBitSet(v, b), b) == WithBitSet(v, b)
  {
  }

  lemma UnsetBitIdempotent(v: bv8, b: BitIndex)
    ensures WithBitCleared(WithBitCleared(v, b), b) == WithBitCleared(v, b)
  {
  }

  lemma ToggleBitTwiceRestores(v: bv8, b: BitIndex)
    ensures WithBitToggled(WithBitToggled(v, b), b) == v
  {
  }

  /** The accesses of SET_BIT(a, b) on a register holding `v`: the read, then the write back. */
  function SetBitAccesses(a: Addr, v: bv8, b: BitIndex): (t: seq<Access>)
    ensures |t| == 2 && t[0].Read? && t[1].Write? && t[0].addr == a && t[1].addr == a
    ensures ReadBit(t[1].value, b) == 1
  {
    [Read(a, v), Write(a, WithBitSet(v, b))]
  }

  // ---------------------------------------------------------------------
  // Timer clock select
  // ---------------------------------------------------------------------

  /**
   * The clock division factor that the clock-select bits CSn2..CSn0 (bits 2..0
   * of TCCR0B or TCCR1B) give the timer/counter; 0 stands for a stopped
   * timer or an external clock source.
   */
  function ClockDivisor(tccrb: bv8): (r: nat)
    ensures r in {0, 1, 8, 64, 256, 1024}
    ensures r == 1024 <==> ReadBit(tccrb, 2) == 1 && ReadBit(tccrb, 1) == 0 && ReadBit(tccrb, 0) == 1
  {
    var cs := tccrb & 7;
    if cs == 1 then 1 else if cs == 2 then 8 else if cs == 3 then 64
    else if cs == 4 then 256 else if cs == 5 then 1024 else 0
  }

  // ---------------------------------------------------------------------
  // 16-bit values held in two byte registers
  // ---------------------------------------------------------------------

  /** The byte whose unsigned value is `n`: C's conversion of `n` to `uint8_t`. */
  function ToByte(n: int): (r: bv8)
    requires 0 <= n < 256
    ensures r as int == n
    decreases n
  {
    if n == 0 then 0
    else if n % 2 == 0 then Twice(ToByte(n / 2))
    else Succ(Twice(ToByte(n / 2)))
  }

  /** Twice a byte value, below the half-way point. */
  function Twice(b: bv8): (r: bv8)
    requires b < 128
    ensures r as int == 2 * b as int
  {
    b + b
  }

  /** The next byte value, below the top. */
  function Succ(b: bv8): (r: bv8)
    requires b < 255
    ensures r as int == b as int + 1
  {
    b + 1
  }

  /** `(uint8_t)x`, also written `x & 0xFF`: the low byte. */
  function LowByte(x: U16): (r: bv8)
    ensures r as int == x % 256
  {
    ToByte(x % 256)
  }

  /** `(uint8_t)(x >> 8)`: the high byte. */
  function HighByte(x: U16): (r: bv8)
    ensures r as int == x / 256
  {
    ToByte(x / 256)
  }

  /** A byte is determined by its unsigned value. */
  lemma ByteFromValue(x: bv8, y: bv8)
    requires x as int == y as int
    ensures x == y
  {
    assert (x as int) as bv8 == x && (y as int) as bv8 == y;
  }

  /** `lo | (hi << 8)` computed in 16 bits: the value of a register pair. */
  function Word(lo: bv8, hi: bv8): (r: U16)
    ensures r == lo as int + 256 * hi as int
  {
    ((lo as bv16) | ((hi as bv16) << 8)) as int
  }

  /** Splitting a 16-bit value into its two bytes and joining them gives it back. */
  lemma WordOfBytes(x: U16)
    ensures Word(LowByte(x), HighByte(x)) == x
  {
    assert x == (x / 256) * 256 + x % 256;
  }

  /** Joining two bytes and splitting the result gives back both bytes. */
  lemma BytesOfWord(lo: bv8, hi: bv8)
    ensures LowByte(Word(lo, hi)) == lo && HighByte(Word(lo, hi)) == hi
  {
    var w := Word(lo, hi);
    QuotientUnique(w, 256, hi as int, lo as int);
    assert w % 256 == lo as int;
    ByteFromValue(LowByte(w), lo);
    ByteFromValue(HighByte(w), hi);
  }

  // ---------------------------------------------------------------------
  // The register file and its access trace
  // ---------------------------------------------------------------------

  /** The contents of the window: the byte at each address, indexed by address. */
  type Regs = m: seq<bv8> | |m| == 0x100 witness seq(0x100, _ => 0)

  /** One volatile access, as the program performs it. */
  datatype Access = Read(addr: Addr, value: bv8) | Write(addr: Addr, value: bv8)

  /**
   * The register contents after a sequence of accesses: a write stores its
   * value, and a read shows the value the register held at that moment.
   */
  function Replay(m: Regs, t: seq<Access>): Regs
    decreases |t|
  {
    if t == [] then m
    else Replay(m[t[0].addr := t[0].value], t[1..])
  }

  /** Concatenation of access sequences associates. */
  lemma AppendAssociates<T>(t: seq<T>, u: seq<T>, v: seq<T>)
    ensures t + u + v == t + (u + v)
  {
  }

  /** One more access updates the replayed contents at its address. */
  lemma {:induction false} ReplaySnoc(m: Regs, t: seq<Access>, x: Access)
    ensures Replay(m, t + [x]) == Replay(m, t)[x.addr := x.value]
    decreases |t|
  {
    if t == [] {
      assert [x][1..] == [];
    } else {
      assert (t + [x])[1..] == t[1..] + [x];
      ReplaySnoc(m[t[0].addr := t[0].value], t[1..], x);
    }
  }

  /** The addresses a sequence of accesses reads or writes. */
  function Touched(t: seq<Access>): set<Addr>
  {
    set i | 0 <= i < |t| :: t[i].addr
  }

  /** Registers the accesses never name keep their contents. */
  lemma {:induction false} ReplayUntouched(m: Regs, t: seq<Access>)
    ensures forall a: Addr :: a !in Touched(t) ==> Replay(m, t)[a] == m[a]
    decreases |t|
  {
    if t != [] {
      var m' := m[t[0].addr := t[0].value];
      ReplayUntouched(m', t[1..]);
      forall a: Addr | a !in Touched(t) ensures Replay(m, t)[a] == m[a] {
        assert t[0].addr in Touched(t);
        assert a !in Touched(t[1..]) by {
          forall i | 0 <= i < |t[1..]| ensures t[1..][i].addr != a {
            assert t[1..][i] == t[i + 1];
          }
        }
      }
    }
  }

  /** Replaying two runs of accesses in turn is replaying them joined. */
  lemma {:induction false} ReplayAppend(m: Regs, t: seq<Access>, u: seq<Access>)
    ensures Replay(m, t + u) == Replay(Replay(m, t), u)
    decreases |t|
  {
    if t == [] {
      assert t + u == u;
    } else {
      assert (t + u)[1..] == t[1..] + u;
      ReplayAppend(m[t[0].addr := t[0].value], t[1..], u);
    }
  }

  /** The reads of register `a` that saw the values `s`, in order. */
  function Samples(a: Addr, s: seq<bv8>): (t: seq<Access>)
    ensures |t| == |s|
    ensures forall i :: 0 <= i < |s| ==> t[i] == Read(a, s[i])
  {
    seq(|s|, i requires 0 <= i < |s| => Read(a, s[i]))
  }

  /** Some value in `obs` has bit `b` equal to `want`. */
  predicate Reaches(obs: seq<bv8>, b: BitIndex, want: int)
    decreases |obs|
  {
    |obs| > 0 && (ReadBit(obs[0], b) == want || Reaches(obs[1..], b, want))
  }

  lemma {:induction false} ReachesIffSomeHit(obs: seq<bv8>, b: BitIndex, want: int)
    ensures Reaches(obs, b, want) <==> exists j :: 0 <= j < |obs| && ReadBit(obs[j], b) == want
    decreases |obs|
  {
    if |obs| > 0 {
      ReachesIffSomeHit(obs[1..], b, want);
      if exists j :: 0 <= j < |obs| && ReadBit(obs[j], b) == want {
        var j :| 0 <= j < |obs| && ReadBit(obs[j], b) == want;
        if j > 0 {
          assert obs[1..][j - 1] == obs[j];
        }
      }
      if Reaches(obs[1..], b, want) && ReadBit(obs[0], b) != want {
        var j :| 0 <= j < |obs[1..]| && ReadBit(obs[1..][j], b) == want;
        assert obs[j + 1] == obs[1..][j];
      }
    }
  }

  /** The position of the first value in `obs` whose bit `b` is `want`. */
  function FirstHit(obs: seq<bv8>, b: BitIndex, want: int): (n: nat)
    requires Reaches(obs, b, want)
    ensures n < |obs| && ReadBit(obs[n], b) == want
    ensures forall j :: 0 <= j < n ==> ReadBit(obs[j], b) != want
    decreases |obs|
  {
    if ReadBit(obs[0], b) == want then 0 else 1 + FirstHit(obs[1..], b, want)
  }

  lemma SamplesSnoc(a: Addr, obs: seq<bv8>, n: nat)
    requires n < |obs|
    ensures Samples(a, obs[..n + 1]) == Samples(a, obs[..n]) + [Read(a, obs[n])]
  {
  }

  /** The reads of a busy-wait on bit `b` of `a` that ends at the first hit. */
  function PollTrace(a: Addr, b: BitIndex, want: int, obs: seq<bv8>): seq<Access>
    requires Reaches(obs, b, want)
  {
    Samples(a, obs[..FirstHit(obs, b, want) + 1])
  }

  /**
   * The data space seen through byte-wide volatile accesses. `mem` holds
   * the current contents; `trace` records every access in program order.
   */
  class RegisterFile {
    var mem: Regs
    ghost var trace: seq<Access>
    ghost const initial: Regs

    /** The contents are what the recorded accesses leave behind. */
    ghost predicate Valid()
      reads this
    {
      mem == Replay(initial, trace)
    }

    constructor (contents: Regs)
      ensures Valid() && mem == contents && trace == []
    {
      mem := contents;
      initial := contents;
      trace := [];
    }

    /** `GET_ADDR(a)` read: the value the register holds. */
    method Get(a: Addr) returns (v: bv8)
      requires Valid()
      modifies this
      ensures Valid()
      ensures v == old(mem)[a] && mem == old(mem)
      ensures trace == old(trace) + [Read(a, v)]
    {
      v := mem[a];
      ReplaySnoc(initial, trace, Read(a, v));
      trace := trace + [Read(a, v)];
    }

    /**
     * A volatile read of a register the hardware has just set to `v` (a
     * status flag, the ADC result, an input pin).
     */
    method Sample(a: Addr, v: bv8) returns (r: bv8)
      requires Valid()
      modifies this
      ensures Valid()
      ensures r == v && mem == old(mem)[a := v]
      ensures trace == old(trace) + [Read(a, v)]
    {
      mem := mem[a := v];
      r := v;
      ReplaySnoc(initial, trace, Read(a, v));
      trace := trace + [Read(a, v)];
    }

    /** `GET_ADDR(a) = v`. */
    method Put(a: Addr, v: bv8)
      requires Valid()
      modifies this
      ensures Valid()
      ensures mem == old(mem)[a := v]
      ensures trace == old(trace) + [Write(a, v)]
    {
      mem := mem[a := v];
      ReplaySnoc(initial, trace, Write(a, v));
      trace := trace + [Write(a, v)];
    }

    /** SET_BIT(a, b): read the register, or in the mask, write it back. */
    method SetBit(a: Addr, b: BitIndex)
      requires Valid()
      modifies this
      ensures Valid()
      ensures mem == old(mem)[a := WithBitSet(old(mem)[a], b)]
      ensures trace == old(trace) + [Read(a, old(mem)[a]), Write(a, WithBitSet(old(mem)[a], b))]
    {
      var v := Get(a);
      Put(a, WithBitSet(v, b));
    }

    /** UNSET_BIT(a, b): read the register, and out the mask, write it back. */
    method UnsetBit(a: Addr, b: BitIndex)
      requires Valid()
      modifies this
      ensures Valid()
      ensures mem == old(mem)[a := WithBitCleared(old(mem)[a], b)]
      ensures trace == old(trace) + [Read(a, old(mem)[a]), Write(a, WithBitCleared(old(mem)[a], b))]
    {
      var v := Get(a);
      Put(a, WithBitCleared(v, b));
    }

    /** TOGGLE_BIT(a, b): read the register, xor the mask, write it back. */
    method ToggleBit(a: Addr, b: BitIndex)
      requires Valid()
      modifies this
      ensures Valid()
      ensures mem == old(mem)[a := WithBitToggled(old(mem)[a], b)]
      ensures trace == old(trace) + [Read(a, old(mem)[a]), Write(a, WithBitToggled(old(mem)[a], b))]
    {
      var v := Get(a);
      Put(a, WithBitToggled(v, b));
    }

    /**
     * A busy-wait that re-reads register `a` until READ_BIT(a, b) equals
     * `want`. The k-th read sees `obs[k]`, the value the hardware holds
     * there at that moment; the wait needs some read to see the bit.
     */
    method PollBit(a: Addr, b: BitIndex, want: int, obs: seq<bv8>) returns (n: nat)
      requires Valid()
      requires Reaches(obs, b, want)
      modifies this
      ensures Valid()
      ensures n == FirstHit(obs, b, want)
      ensures mem == old(mem)[a := obs[n]]
      ensures trace == old(trace) + PollTrace(a, b, want, obs)
    {
      n := 0;
      var v := Sample(a, obs[0]);
      while ReadBit(v, b) != want
        invariant Valid()
        invariant n <= FirstHit(obs, b, want) && v == obs[n]
        invariant mem == old(mem)[a := obs[n]]
        invariant trace == old(trace) + Samples(a, obs[..n + 1])
        decreases FirstHit(obs, b, want) - n
      {
        n := n + 1;
        v := Sample(a, obs[n]);
        SamplesSnoc(a, obs, n);
      }
      assert n == FirstHit(obs, b, want);
      assert PollTrace(a, b, want, obs) == Samples(a, obs[..n + 1]);
    }
  }

  /**
   * SET_BIT(a, b) within a series of accesses: `done` is what the series has
   * accessed since `start`, and comes back extended by this read and write.
   */
  method SetBitNext(rf: RegisterFile, a: Addr, b: BitIndex, ghost start: seq<Access>, ghost done: seq<Access>)
    returns (ghost done': seq<Access>)
    requires rf.Valid() && rf.trace == start + done
    modifies rf
    ensures rf.Valid()
    ensures rf.mem == old(rf.mem)[a := WithBitSet(old(rf.mem)[a], b)]
    ensures done' == done + SetBitAccesses(a, old(rf.mem)[a], b) && rf.trace == start + done'
  {
    rf.SetBit(a, b);
    AppendAssociates(start, done, SetBitAccesses(a, old(rf.mem)[a], b));
    done' := done + SetBitAccesses(a, old(rf.mem)[a], b);
  }

  /**
   * A busy-wait reads `a` once per observation up to the first hit: every
   * read before the last sees bit `b` differ from `want`, the last sees it equal.
   */
  lemma PollTraceShape(a: Addr, b: BitIndex, want: int, obs: seq<bv8>)
    requires Reaches(obs, b, want)
    ensures var p := PollTrace(a, b, want, obs);
      |p| == FirstHit(obs, b, want) + 1 &&
      (forall i :: 0 <= i < |p| ==> p[i] == Read(a, obs[i])) &&
      (forall i :: 0 <= i < |p| - 1 ==> ReadBit(p[i].value, b) != want) &&
      ReadBit(p[|p| - 1].value, b) == want
  {
  }
}
