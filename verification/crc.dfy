/**
 The `crc16` function of the payload builder, step for step: a 16-bit
 register kept in the 32-bit integers JavaScript's bitwise operators work on,
 one outer turn per UTF-16 code unit and eight shift steps per turn, rendered
 as four upper-case hexadecimal digits. It is proved to compute
 CRC-16/CCITT-FALSE (module CcittFalse) of the low bytes of the code units.
 */
module Crc {
  import opened Text
  import CcittFalse

  /** A JavaScript string: every character is one UTF-16 code unit, as `charCodeAt` reads it. */
  predicate IsCodeUnits(s: string) {
    Below(s, 0x10000)
  }

  /** A string whose character codes all fit in a byte, as ASCII text does. */
  predicate IsByteString(s: string) {
    Below(s, 0x100)
  }

  /** `charCodeAt` as a 32-bit value. */
  function CharCode(c: char): bv32
    requires c as int < 0x10000
  {
    (c as int) as bv32
  }

  /** One step of the inner loop: shift left, feed the polynomial back when bit 15 was set, keep 16 bits. */
  function ShiftStep(crc: bv32): (r: bv32)
    ensures r <= 0xFFFF
  {
    if crc & 0x8000 != 0 then ((crc << 1) ^ 0x1021) & 0xFFFF else (crc << 1) & 0xFFFF
  }

  /** `k` steps of the inner loop; after at least one step the register is back within 16 bits. */
  function ShiftSteps(crc: bv32, k: nat): (r: bv32)
    ensures k > 0 ==> r <= 0xFFFF
    decreases k
  {
    if k == 0 then crc else ShiftSteps(ShiftStep(crc), k - 1)
  }

  /** The first of `k` steps taken on its own. */
  lemma NextSteps(crc: bv32, k: nat)
    requires k > 0
    ensures ShiftSteps(crc, k) == ShiftSteps(ShiftStep(crc), k - 1)
  {
  }

  /** One turn of the outer loop: the code unit is XORed into bits 8 and up, then eight steps. */
  function FeedChar(crc: bv32, c: char): (r: bv32)
    requires c as int < 0x10000
    ensures r <= 0xFFFF
  {
    ShiftSteps(crc ^ (CharCode(c) << 8), 8)
  }

  /** The value the inner loop starts from, named. */
  lemma MixThenSteps(before: bv32, c: char, mixed: bv32)
    requires c as int < 0x10000 && mixed == before ^ (CharCode(c) << 8)
    ensures ShiftSteps(mixed, 8) == FeedChar(before, c)
  {
  }

  /** The register after the outer loop has consumed `s`, starting from `crc`. */
  function Register(crc: bv32, s: string): (r: bv32)
    requires crc <= 0xFFFF && IsCodeUnits(s)
    ensures r <= 0xFFFF
    decreases |s|
  {
    if |s| == 0 then crc else Register(FeedChar(crc, s[0]), s[1..])
  }

  /** A register value is determined by the number it denotes. */
  lemma NumberRoundTrip(a: bv32)
    ensures (a as nat) as bv32 == a
  {
  }

  lemma SameNumber(a: bv32, b: bv32)
    requires a as nat == b as nat
    ensures a == b
  {
    NumberRoundTrip(a);
    NumberRoundTrip(b);
  }

  /** Widening a reference register value keeps the number it denotes. */
  lemma WidenNumber(a: bv16)
    ensures (a as bv32) as nat == a as nat
  {
  }

  /** Four hexadecimal digits hold every 16-bit value. */
  lemma FourHexDigits()
    ensures Pow(16, 4) == 0x10000
  {
    assert Pow(16, 2) == 0x100;
  }

  /** `crc16(payload)`: the checksum of a JavaScript string as four upper-case hexadecimal digits. */
  function Crc16(payload: string): (r: string)
    requires IsCodeUnits(payload)
    ensures |r| == 4 && IsUpperHex(r) && IsDigitString(r, 16)
    ensures ParseRadix(r, 16) == Register(0xFFFF, payload) as nat
  {
    var crc := Register(0xFFFF, payload);
    FourHexDigits();
    PaddedUpperHex(crc as nat, 4)
  }

  /** One turn of the outer loop of `crc16` as written: the XOR, then the inner loop of eight steps. */
  method FeedCodeUnit(crc: bv32, c: char) returns (r: bv32)
    requires c as int < 0x10000
    ensures r == FeedChar(crc, c)
  {
    r := crc ^ (CharCode(c) << 8);
    MixThenSteps(crc, c, r);
    var j := 0;
    while j < 8
      invariant 0 <= j <= 8
      invariant ShiftSteps(r, 8 - j) == FeedChar(crc, c)
    {
      ghost var prev := r;
      if r & 0x8000 != 0 {
        r := ((r << 1) ^ 0x1021) & 0xFFFF;
      } else {
        r := (r << 1) & 0xFFFF;
      }
      assert r == ShiftStep(prev);
      NextSteps(prev, 8 - j);
      j := j + 1;
    }
  }

  /** The outer loop of `crc16` as written, then the rendering of the register. */
  method ComputeCrc16(payload: string) returns (r: string)
    requires IsCodeUnits(payload)
    ensures r == Crc16(payload)
  {
    var crc: bv32 := 0xFFFF;
    var i := 0;
    while i < |payload|
      invariant 0 <= i <= |payload|
      invariant crc <= 0xFFFF
      invariant Register(crc, payload[i..]) == Register(0xFFFF, payload)
    {
      crc := FeedCodeUnit(crc, payload[i]);
      assert payload[i..][1..] == payload[i + 1..];
      i := i + 1;
    }
    FourHexDigits();
    r := PaddedUpperHex(crc as nat, 4);
  }

  /** The register keeps only the low byte of each code unit. */
  function LowByte(c: char): bv8
    requires c as int < 0x10000
  {
    (CharCode(c) & 0xFF) as bv8
  }

  function LowBytes(s: string): (b: seq<bv8>)
    requires IsCodeUnits(s)
    ensures |b| == |s|
    ensures forall i :: 0 <= i < |s| ==> b[i] == LowByte(s[i])
  {
    seq(|s|, i requires 0 <= i < |s| => LowByte(s[i]))
  }

  /** The bytes of a byte string: each byte, widened, is the character's code. */
  function Bytes(s: string): (b: seq<bv8>)
    requires IsByteString(s)
    ensures |b| == |s|
    ensures forall i :: 0 <= i < |s| ==> b[i] as bv32 == CharCode(s[i])
  {
    NarrowCodes(s);
    seq(|s|, i requires 0 <= i < |s| => (s[i] as int) as bv8)
  }

  lemma NarrowCodes(s: string)
    requires IsByteString(s)
    ensures forall i :: 0 <= i < |s| ==> ((s[i] as int) as bv8) as bv32 == CharCode(s[i])
  {
    forall i | 0 <= i < |s| {
      NarrowCode(s[i] as int);
    }
  }

  lemma NarrowCode(n: int)
    requires 0 <= n < 0x100
    ensures n as bv32 == (n as bv8) as bv32
  {
  }

  lemma KeepByte(b: bv8)
    ensures ((b as bv32) & 0xFF) as bv8 == b
  {
  }

  /** On a byte string the register sees each character's code whole. */
  lemma LowBytesOfByteString(s: string)
    requires IsByteString(s)
    ensures IsCodeUnits(s) && LowBytes(s) == Bytes(s)
  {
    forall i | 0 <= i < |s|
      ensures LowByte(s[i]) == (s[i] as int) as bv8
    {
      NarrowCode(s[i] as int);
      KeepByte((s[i] as int) as bv8);
    }
  }

  /** The low 16 bits of a 32-bit value. */
  function Low16(x: bv32): bv16 {
    (x & 0xFFFF) as bv16
  }

  lemma Widen(y: bv16)
    ensures Low16(y as bv32) == y
  {
  }

  lemma SixteenBits(y: bv32)
    requires y <= 0xFFFF
    ensures Low16(y) as bv32 == y
  {
  }

  lemma ShiftStepTopSet(x: bv32)
    requires x & 0x8000 != 0
    ensures ShiftStep(x) == CcittFalse.Clock(Low16(x), false) as bv32
  {
  }

  lemma ShiftStepTopClear(x: bv32)
    requires x & 0x8000 == 0
    ensures ShiftStep(x) == CcittFalse.Clock(Low16(x), false) as bv32
  {
  }

  /** An inner step is a clock with no message bit applied to the low 16 bits; higher bits are dropped. */
  lemma ShiftStepIsClock(x: bv32)
    ensures Low16(ShiftStep(x)) == CcittFalse.Clock(Low16(x), false)
  {
    if x & 0x8000 != 0 {
      ShiftStepTopSet(x);
    } else {
      ShiftStepTopClear(x);
    }
    Widen(CcittFalse.Clock(Low16(x), false));
  }

  lemma ShiftPending(x: bv16, reg: bv16, pending: bv8)
    requires x == reg ^ ((pending as bv16) << 8)
    ensures x << 1 == (reg << 1) ^ (((pending << 1) as bv16) << 8)
  {
  }

  lemma TopOfPending(x: bv16, reg: bv16, pending: bv8)
    requires x == reg ^ ((pending as bv16) << 8)
    ensures (x & 0x8000 != 0) == ((reg & 0x8000 != 0) != (pending & 0x80 != 0))
  {
  }

  lemma FeedBackCommutes(a: bv16, b: bv16)
    ensures (a ^ b) ^ 0x1021 == (a ^ 0x1021) ^ b
  {
  }

  lemma PendingTopSet(x: bv16, reg: bv16, pending: bv8)
    requires x == reg ^ ((pending as bv16) << 8) && x & 0x8000 != 0
    ensures CcittFalse.Clock(x, false) ==
      CcittFalse.Clock(reg, pending & 0x80 != 0) ^ (((pending << 1) as bv16) << 8)
  {
    TopOfPending(x, reg, pending);
    ShiftPending(x, reg, pending);
    FeedBackCommutes(reg << 1, ((pending << 1) as bv16) << 8);
  }

  lemma PendingTopClear(x: bv16, reg: bv16, pending: bv8)
    requires x == reg ^ ((pending as bv16) << 8) && x & 0x8000 == 0
    ensures CcittFalse.Clock(x, false) ==
      CcittFalse.Clock(reg, pending & 0x80 != 0) ^ (((pending << 1) as bv16) << 8)
  {
    TopOfPending(x, reg, pending);
    ShiftPending(x, reg, pending);
  }

  /**
   How the loop's register tracks the reference register within one turn:
   its low 16 bits are the reference register with the message bits not yet
   clocked in (`pending`) XORed over bits 8-15.
   */
  predicate Tracks(x: bv32, reg: bv16, pending: bv8) {
    Low16(x) == reg ^ ((pending as bv16) << 8)
  }

  /** One inner step clocks the top pending bit into the reference register and shifts the rest up. */
  lemma StepIsClock(x: bv32, reg: bv16, pending: bv8)
    requires Tracks(x, reg, pending)
    ensures Tracks(ShiftStep(x), CcittFalse.Clock(reg, pending & 0x80 != 0), pending << 1)
  {
    ShiftStepIsClock(x);
    if Low16(x) & 0x8000 != 0 {
      PendingTopSet(Low16(x), reg, pending);
    } else {
      PendingTopClear(Low16(x), reg, pending);
    }
  }

  /** The top `n` bits of `p`, most significant first. */
  function TopBits(p: bv8, n: nat): (bits: seq<bool>)
    ensures |bits| == n
    decreases n
  {
    if n == 0 then [] else [p & 0x80 != 0] + TopBits(p << 1, n - 1)
  }

  /** `p` shifted left `n` times. */
  function ShiftOut(p: bv8, n: nat): bv8
    decreases n
  {
    if n == 0 then p else ShiftOut(p << 1, n - 1)
  }

  lemma ShiftOutNext(p: bv8, n: nat)
    requires n > 0 && ShiftOut(p, n) == 0
    ensures ShiftOut(p << 1, n - 1) == 0
  {
  }

  /** Eight shifts empty a byte. */
  lemma EmptiedByte(b: bv8)
    ensures ShiftOut(b, 8) == 0
  {
  }

  /** Bit `i` of `TopBits`, counted from the top, is the top bit after `i` shifts. */
  lemma {:induction false} TopBitsAt(p: bv8, n: nat, i: nat)
    requires i < n
    ensures TopBits(p, n)[i] == (ShiftOut(p, i) & 0x80 != 0)
    decreases i
  {
    if i > 0 {
      TopBitsAt(p << 1, n - 1, i - 1);
    }
  }

  /** Four shifts taken at once. */
  lemma ShiftOutFour(b: bv8, n: nat)
    requires n >= 4
    ensures ShiftOut(b, n) == ShiftOut(b << 1 << 1 << 1 << 1, n - 4)
  {
    assert ShiftOut(b, n) == ShiftOut(b << 1, n - 1);
    assert ShiftOut(b << 1, n - 1) == ShiftOut(b << 1 << 1, n - 2);
    assert ShiftOut(b << 1 << 1, n - 2) == ShiftOut(b << 1 << 1 << 1, n - 3);
  }

  /** After `i` shifts, bit `i` of a byte (counted from the top) is on top: the high nibble. */
  lemma HighBitOnTop(b: bv8, i: nat)
    requires i < 4
    ensures (ShiftOut(b, i) & 0x80 != 0) == CcittFalse.ByteBits(b)[i]
  {
    if i == 0 {
    } else if i == 1 {
    } else if i == 2 {
    } else {
      assert ShiftOut(b, 3) == ShiftOut(b << 1 << 1, 1);
    }
  }

  /** The same for the low nibble, which is four shifts further on. */
  lemma LowBitOnTop(b: bv8, i: nat)
    requires 4 <= i < 8
    ensures (ShiftOut(b, i) & 0x80 != 0) == CcittFalse.ByteBits(b)[i]
  {
    ShiftOutFour(b, i);
    HighBitOnTop(b << 1 << 1 << 1 << 1, i - 4);
  }

  lemma BitOnTop(b: bv8, i: nat)
    requires i < 8
    ensures (ShiftOut(b, i) & 0x80 != 0) == CcittFalse.ByteBits(b)[i]
  {
    if i < 4 {
      HighBitOnTop(b, i);
    } else {
      LowBitOnTop(b, i);
    }
  }

  /** The top eight bits of a byte are all its bits, most significant first. */
  lemma AllBits(b: bv8)
    ensures TopBits(b, 8) == CcittFalse.ByteBits(b)
  {
    forall i | 0 <= i < 8
      ensures TopBits(b, 8)[i] == CcittFalse.ByteBits(b)[i]
    {
      TopBitsAt(b, 8, i);
      BitOnTop(b, i);
    }
  }

  lemma NothingPending(x: bv32, reg: bv16, p: bv8)
    requires p == 0 && Tracks(x, reg, p)
    ensures Low16(x) == reg
  {
  }

  /**
   `n` inner steps clock the top `n` pending bits into the reference
   register, provided nothing else is pending after them.
   */
  lemma {:induction false} StepsAreClocks(x: bv32, reg: bv16, p: bv8, n: nat)
    requires ShiftOut(p, n) == 0 && Tracks(x, reg, p)
    ensures Low16(ShiftSteps(x, n)) == CcittFalse.Run(reg, TopBits(p, n))
    decreases n
  {
    if n == 0 {
      NothingPending(x, reg, p);
    } else {
      StepIsClock(x, reg, p);
      ShiftOutNext(p, n);
      StepsAreClocks(ShiftStep(x), CcittFalse.Clock(reg, p & 0x80 != 0), p << 1, n - 1);
    }
  }

  /** Mixing a code unit into the register makes its low byte the pending bits. */
  lemma MixLow(crc: bv32, c: char)
    requires crc <= 0xFFFF && c as int < 0x10000
    ensures Tracks(crc ^ (CharCode(c) << 8), Low16(crc), LowByte(c))
  {
  }

  /**
   One outer turn equals clocking the eight bits of the code unit's low byte
   into the reference register: the byte-at-a-time XOR is the bit-serial CRC.
   */
  lemma FeedCharIsEightClocks(crc: bv32, c: char)
    requires crc <= 0xFFFF && c as int < 0x10000
    ensures Low16(FeedChar(crc, c)) == CcittFalse.Run(Low16(crc), CcittFalse.ByteBits(LowByte(c)))
  {
    MixLow(crc, c);
    EmptiedByte(LowByte(c));
    AllBits(LowByte(c));
    StepsAreClocks(crc ^ (CharCode(c) << 8), Low16(crc), LowByte(c), 8);
  }

  lemma MessageBitsOfLowBytes(s: string)
    requires IsCodeUnits(s) && |s| > 0
    ensures CcittFalse.MessageBits(LowBytes(s)) ==
      CcittFalse.ByteBits(LowByte(s[0])) + CcittFalse.MessageBits(LowBytes(s[1..]))
  {
    assert LowBytes(s)[1..] == LowBytes(s[1..]);
  }

  /** The outer loop computes the reference register over the low bytes of the string. */
  lemma {:induction false} RegisterIsCcittFalse(crc: bv32, s: string)
    requires crc <= 0xFFFF && IsCodeUnits(s)
    ensures Low16(Register(crc, s)) == CcittFalse.Run(Low16(crc), CcittFalse.MessageBits(LowBytes(s)))
    decreases |s|
  {
    if |s| == 0 {
      assert LowBytes(s) == [];
    } else {
      MessageBitsOfLowBytes(s);
      CcittFalse.RunAppend(Low16(crc), CcittFalse.ByteBits(LowByte(s[0])), CcittFalse.MessageBits(LowBytes(s[1..])));
      FeedCharIsEightClocks(crc, s[0]);
      RegisterIsCcittFalse(FeedChar(crc, s[0]), s[1..]);
    }
  }

  /** The preset of the loop is the preset of the reference register. */
  lemma PresetFits()
    ensures Low16(0xFFFF) == 0xFFFF
  {
  }

  /** A register within 16 bits denotes the same number as its low 16 bits. */
  lemma SameValue(x: bv32)
    requires x <= 0xFFFF
    ensures x as nat == Low16(x) as nat
  {
    SixteenBits(x);
    WidenNumber(Low16(x));
  }

  /** On any JavaScript string, `crc16` renders CRC-16/CCITT-FALSE of the code units' low bytes. */
  lemma Crc16OfLowBytes(s: string)
    requires IsCodeUnits(s)
    ensures ParseRadix(Crc16(s), 16) == CcittFalse.Checksum(LowBytes(s)) as nat
  {
    var reg := Register(0xFFFF, s);
    RegisterIsCcittFalse(0xFFFF, s);
    PresetFits();
    SameValue(reg);
  }

  /** On byte strings, `crc16` renders CRC-16/CCITT-FALSE of exactly the string's bytes. */
  lemma Crc16IsCcittFalse(s: string)
    requires IsByteString(s)
    ensures IsCodeUnits(s)
    ensures ParseRadix(Crc16(s), 16) == CcittFalse.Checksum(Bytes(s)) as nat
  {
    LowBytesOfByteString(s);
    Crc16OfLowBytes(s);
  }

  /** The checksum text is determined by the register, so equal registers give equal text. */
  lemma Crc16Determined(s: string, t: string)
    requires IsCodeUnits(s) && IsCodeUnits(t)
    ensures Crc16(s) == Crc16(t) <==> Register(0xFFFF, s) == Register(0xFFFF, t)
  {
    if Register(0xFFFF, s) == Register(0xFFFF, t) {
      DigitsUnique(Crc16(s), Crc16(t), 16);
    }
    if Crc16(s) == Crc16(t) {
      SameNumber(Register(0xFFFF, s), Register(0xFFFF, t));
    }
  }

  lemma AllFsAreDigits()
    ensures IsUpperHex("FFFF") && IsDigitString("FFFF", 16)
  {
  }

  lemma AllFsValue()
    ensures ParseRadix("FFFF", 16) == 0xFFFF
  {
    assert "FFFF"[..3] == "FFF";
    assert "FFF"[..2] == "FF";
    assert "FF"[..1] == "F";
    assert "F"[..0] == "";
  }

  /** With no characters the loop never runs: the register keeps its preset. */
  lemma EmptyRegister(s: string)
    requires |s| == 0
    ensures ParseRadix(Crc16(s), 16) == 0xFFFF
  {
    assert Register(0xFFFF, s) as nat == 0xFFFF;
  }

  /** With no characters the preset is rendered. */
  lemma Crc16Empty()
    ensures Crc16("") == "FFFF"
  {
    EmptyText("");
  }

  lemma EmptyText(s: string)
    requires |s| == 0
    ensures Crc16(s) == "FFFF"
  {
    EmptyRegister(s);
    AllFsAreDigits();
    AllFsValue();
    DigitsUnique(Crc16(s), "FFFF", 16);
  }

  /** Running the loop over `a + b` continues from the register left by `a`. */
  lemma {:induction false} RegisterAppend(crc: bv32, a: string, b: string)
    requires crc <= 0xFFFF && IsCodeUnits(a) && IsCodeUnits(b)
    ensures IsCodeUnits(a + b)
    ensures Register(crc, a + b) == Register(Register(crc, a), b)
    decreases |a|
  {
    if |a| == 0 {
      assert a + b == b;
    } else {
      assert (a + b)[1..] == a[1..] + b;
      RegisterAppend(FeedChar(crc, a[0]), a[1..], b);
    }
  }

  /** The register after three characters, one outer turn at a time. */
  lemma RegisterOfThree(crc: bv32, s: string)
    requires crc <= 0xFFFF && |s| == 3 && IsCodeUnits(s)
    ensures Register(crc, s) == FeedChar(FeedChar(FeedChar(crc, s[0]), s[1]), s[2])
  {
    var r1 := FeedChar(crc, s[0]);
    var r2 := FeedChar(r1, s[1]);
    assert Register(crc, s) == Register(r1, s[1..]);
    var r3 := FeedChar(r2, s[2]);
    assert Register(r1, s[1..]) == Register(r2, s[2..]);
    assert Register(r2, s[2..]) == Register(r3, s[3..]);
    assert Register(r3, s[3..]) == r3;
  }

  lemma Feed1(c: char)
    requires c == '1'
    ensures FeedChar(0xFFFF, c) == 0xC782
  {
    assert CharCode(c) << 8 == 0x3100;
    MixThenSteps(0xFFFF, c, 0xCEFF);
    assert ShiftSteps(0xCEFF, 8) == ShiftSteps(0x8DDF, 7);
    assert ShiftSteps(0x8DDF, 7) == ShiftSteps(0x0B9F, 6);
    assert ShiftSteps(0x0B9F, 6) == ShiftSteps(0x173E, 5);
    assert ShiftSteps(0x173E, 5) == ShiftSteps(0x2E7C, 4);
    assert ShiftSteps(0x2E7C, 4) == ShiftSteps(0x5CF8, 3);
    assert ShiftSteps(0x5CF8, 3) == ShiftSteps(0xB9F0, 2);
    assert ShiftSteps(0xB9F0, 2) == ShiftSteps(0x63C1, 1);
    assert ShiftSteps(0x63C1, 1) == ShiftSteps(0xC782, 0);
  }

  lemma Feed2(c: char)
    requires c == '2'
    ensures FeedChar(0xC782, c) == 0x3DBA
  {
    assert CharCode(c) << 8 == 0x3200;
    MixThenSteps(0xC782, c, 0xF582);
    assert ShiftSteps(0xF582, 8) == ShiftSteps(0xFB25, 7);
    assert ShiftSteps(0xFB25, 7) == ShiftSteps(0xE66B, 6);
    assert ShiftSteps(0xE66B, 6) == ShiftSteps(0xDCF7, 5);
    assert ShiftSteps(0xDCF7, 5) == ShiftSteps(0xA9CF, 4);
    assert ShiftSteps(0xA9CF, 4) == ShiftSteps(0x43BF, 3);
    assert ShiftSteps(0x43BF, 3) == ShiftSteps(0x877E, 2);
    assert ShiftSteps(0x877E, 2) == ShiftSteps(0x1EDD, 1);
    assert ShiftSteps(0x1EDD, 1) == ShiftSteps(0x3DBA, 0);
  }

  lemma Feed3(c: char)
    requires c == '3'
    ensures FeedChar(0x3DBA, c) == 0x5BCE
  {
    assert CharCode(c) << 8 == 0x3300;
    MixThenSteps(0x3DBA, c, 0x0EBA);
    assert ShiftSteps(0x0EBA, 8) == ShiftSteps(0x1D74, 7);
    assert ShiftSteps(0x1D74, 7) == ShiftSteps(0x3AE8, 6);
    assert ShiftSteps(0x3AE8, 6) == ShiftSteps(0x75D0, 5);
    assert ShiftSteps(0x75D0, 5) == ShiftSteps(0xEBA0, 4);
    assert ShiftSteps(0xEBA0, 4) == ShiftSteps(0xC761, 3);
    assert ShiftSteps(0xC761, 3) == ShiftSteps(0x9EE3, 2);
    assert ShiftSteps(0x9EE3, 2) == ShiftSteps(0x2DE7, 1);
    assert ShiftSteps(0x2DE7, 1) == ShiftSteps(0x5BCE, 0);
  }

  lemma Feed4(c: char)
    requires c == '4'
    ensures FeedChar(0x5BCE, c) == 0x5349
  {
    assert CharCode(c) << 8 == 0x3400;
    MixThenSteps(0x5BCE, c, 0x6FCE);
    assert ShiftSteps(0x6FCE, 8) == ShiftSteps(0xDF9C, 7);
    assert ShiftSteps(0xDF9C, 7) == ShiftSteps(0xAF19, 6);
    assert ShiftSteps(0xAF19, 6) == ShiftSteps(0x4E13, 5);
    assert ShiftSteps(0x4E13, 5) == ShiftSteps(0x9C26, 4);
    assert ShiftSteps(0x9C26, 4) == ShiftSteps(0x286D, 3);
    assert ShiftSteps(0x286D, 3) == ShiftSteps(0x50DA, 2);
    assert ShiftSteps(0x50DA, 2) == ShiftSteps(0xA1B4, 1);
    assert ShiftSteps(0xA1B4, 1) == ShiftSteps(0x5349, 0);
  }

  lemma Feed5(c: char)
    requires c == '5'
    ensures FeedChar(0x5349, c) == 0x4560
  {
    assert CharCode(c) << 8 == 0x3500;
    MixThenSteps(0x5349, c, 0x6649);
    assert ShiftSteps(0x6649, 8) == ShiftSteps(0xCC92, 7);
    assert ShiftSteps(0xCC92, 7) == ShiftSteps(0x8905, 6);
    assert ShiftSteps(0x8905, 6) == ShiftSteps(0x022B, 5);
    assert ShiftSteps(0x022B, 5) == ShiftSteps(0x0456, 4);
    assert ShiftSteps(0x0456, 4) == ShiftSteps(0x08AC, 3);
    assert ShiftSteps(0x08AC, 3) == ShiftSteps(0x1158, 2);
    assert ShiftSteps(0x1158, 2) == ShiftSteps(0x22B0, 1);
    assert ShiftSteps(0x22B0, 1) == ShiftSteps(0x4560, 0);
  }

  lemma Feed6(c: char)
    requires c == '6'
    ensures FeedChar(0x4560, c) == 0x2EF4
  {
    assert CharCode(c) << 8 == 0x3600;
    MixThenSteps(0x4560, c, 0x7360);
    assert ShiftSteps(0x7360, 8) == ShiftSteps(0xE6C0, 7);
    assert ShiftSteps(0xE6C0, 7) == ShiftSteps(0xDDA1, 6);
    assert ShiftSteps(0xDDA1, 6) == ShiftSteps(0xAB63, 5);
    assert ShiftSteps(0xAB63, 5) == ShiftSteps(0x46E7, 4);
    assert ShiftSteps(0x46E7, 4) == ShiftSteps(0x8DCE, 3);
    assert ShiftSteps(0x8DCE, 3) == ShiftSteps(0x0BBD, 2);
    assert ShiftSteps(0x0BBD, 2) == ShiftSteps(0x177A, 1);
    assert ShiftSteps(0x177A, 1) == ShiftSteps(0x2EF4, 0);
  }

  lemma Feed7(c: char)
    requires c == '7'
    ensures FeedChar(0x2EF4, c) == 0x7718
  {
    assert CharCode(c) << 8 == 0x3700;
    MixThenSteps(0x2EF4, c, 0x19F4);
    assert ShiftSteps(0x19F4, 8) == ShiftSteps(0x33E8, 7);
    assert ShiftSteps(0x33E8, 7) == ShiftSteps(0x67D0, 6);
    assert ShiftSteps(0x67D0, 6) == ShiftSteps(0xCFA0, 5);
    assert ShiftSteps(0xCFA0, 5) == ShiftSteps(0x8F61, 4);
    assert ShiftSteps(0x8F61, 4) == ShiftSteps(0x0EE3, 3);
    assert ShiftSteps(0x0EE3, 3) == ShiftSteps(0x1DC6, 2);
    assert ShiftSteps(0x1DC6, 2) == ShiftSteps(0x3B8C, 1);
    assert ShiftSteps(0x3B8C, 1) == ShiftSteps(0x7718, 0);
  }

  lemma Feed8(c: char)
    requires c == '8'
    ensures FeedChar(0x7718, c) == 0xA12B
  {
    assert CharCode(c) << 8 == 0x3800;
    MixThenSteps(0x7718, c, 0x4F18);
    assert ShiftSteps(0x4F18, 8) == ShiftSteps(0x9E30, 7);
    assert ShiftSteps(0x9E30, 7) == ShiftSteps(0x2C41, 6);
    assert ShiftSteps(0x2C41, 6) == ShiftSteps(0x5882, 5);
    assert ShiftSteps(0x5882, 5) == ShiftSteps(0xB104, 4);
    assert ShiftSteps(0xB104, 4) == ShiftSteps(0x7229, 3);
    assert ShiftSteps(0x7229, 3) == ShiftSteps(0xE452, 2);
    assert ShiftSteps(0xE452, 2) == ShiftSteps(0xD885, 1);
    assert ShiftSteps(0xD885, 1) == ShiftSteps(0xA12B, 0);
  }

  lemma Feed9(c: char)
    requires c == '9'
    ensures FeedChar(0xA12B, c) == 0x29B1
  {
    assert CharCode(c) << 8 == 0x3900;
    MixThenSteps(0xA12B, c, 0x982B);
    assert ShiftSteps(0x982B, 8) == ShiftSteps(0x2077, 7);
    assert ShiftSteps(0x2077, 7) == ShiftSteps(0x40EE, 6);
    assert ShiftSteps(0x40EE, 6) == ShiftSteps(0x81DC, 5);
    assert ShiftSteps(0x81DC, 5) == ShiftSteps(0x1399, 4);
    assert ShiftSteps(0x1399, 4) == ShiftSteps(0x2732, 3);
    assert ShiftSteps(0x2732, 3) == ShiftSteps(0x4E64, 2);
    assert ShiftSteps(0x4E64, 2) == ShiftSteps(0x9CC8, 1);
    assert ShiftSteps(0x9CC8, 1) == ShiftSteps(0x29B1, 0);
  }

  lemma CheckDigits123(s: string)
    requires s == "123"
    ensures IsCodeUnits(s) && Register(0xFFFF, s) == 0x5BCE
  {
    RegisterOfThree(0xFFFF, s);
    assert s[0] == '1' && s[1] == '2' && s[2] == '3';
    Feed1(s[0]);
    Feed2(s[1]);
    Feed3(s[2]);
  }

  lemma CheckDigits456(s: string)
    requires s == "456"
    ensures IsCodeUnits(s) && Register(0x5BCE, s) == 0x2EF4
  {
    RegisterOfThree(0x5BCE, s);
    assert s[0] == '4' && s[1] == '5' && s[2] == '6';
    Feed4(s[0]);
    Feed5(s[1]);
    Feed6(s[2]);
  }

  lemma CheckDigits789(s: string)
    requires s == "789"
    ensures IsCodeUnits(s) && Register(0x2EF4, s) == 0x29B1
  {
    RegisterOfThree(0x2EF4, s);
    assert s[0] == '7' && s[1] == '8' && s[2] == '9';
    Feed7(s[0]);
    Feed8(s[1]);
    Feed9(s[2]);
  }

  lemma CheckDigitsAreHex()
    ensures IsUpperHex("29B1") && IsDigitString("29B1", 16)
  {
  }

  lemma CheckDigitsValue()
    ensures ParseRadix("29B1", 16) == 0x29B1
  {
    assert "29B1"[..3] == "29B";
    assert "29B"[..2] == "29";
    assert "29"[..1] == "2";
    assert "2"[..0] == "";
  }

  /** The register after the nine ASCII digits, three at a time. */
  lemma CheckRegister(a: string, b: string, c: string)
    requires a == "123" && b == "456" && c == "789"
    ensures IsCodeUnits(a + b + c) && Register(0xFFFF, a + b + c) == 0x29B1
  {
    CheckDigits123(a);
    CheckDigits456(b);
    CheckDigits789(c);
    RegisterAppend(0xFFFF, a, b);
    RegisterAppend(0xFFFF, a + b, c);
  }

  lemma CheckNumber(s: string)
    requires s == "123456789"
    ensures IsCodeUnits(s) && ParseRadix(Crc16(s), 16) == 0x29B1
  {
    CheckRegister(s[..3], s[3..6], s[6..]);
    assert s[..3] + s[3..6] + s[6..] == s;
  }

  /** The published check value of CRC-16/CCITT-FALSE: the ASCII digits "123456789" give 29B1. */
  lemma CheckValue()
    ensures Crc16("123456789") == "29B1"
  {
    CheckText("123456789");
  }

  lemma CheckText(s: string)
    requires s == "123456789"
    ensures IsCodeUnits(s) && Crc16(s) == "29B1"
  {
    CheckNumber(s);
    IsCheckDigits(Crc16(s));
  }

  /** The only four upper-case hexadecimal digits denoting 0x29B1. */
  lemma IsCheckDigits(c: string)
    requires |c| == 4 && IsUpperHex(c) && IsDigitString(c, 16) && ParseRadix(c, 16) == 0x29B1
    ensures c == "29B1"
  {
    CheckDigitsAreHex();
    CheckDigitsValue();
    DigitsUnique(c, "29B1", 16);
  }
}
