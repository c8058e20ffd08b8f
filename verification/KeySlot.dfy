/**
 Slot choice: the checksum of a key's hash tag, computed from a table, against the definition it
 stands for, the remainder of the key's bits under polynomial division by x^16 + x^12 + x^5 + 1.
 */
module KeySlot {

  const SLOT_NUM: bv16 := 16384
  const OPEN: bv8 := 0x7b
  const CLOSE: bv8 := 0x7d

  // ---------- polynomial division ----------

  /** Addition of polynomials over bits. */
  function Xor(a: bv16, b: bv16): bv16 {
    a ^ b
  }

  /** Multiplication by x, losing the term of degree 16. */
  function Double(r: bv16): bv16 {
    r << 1
  }

  predicate Top(r: bv16) {
    r & 0x8000 != 0
  }

  /** The divisor without its leading term. */
  function Poly(): bv16 {
    0x1021
  }

  function One(bit: bool): bv16 {
    if bit then 1 else 0
  }

  /** One step of long division: the next bit comes down, and the divisor is taken off if it fits. */
  function Bring(r: bv16, bit: bool): bv16 {
    var s := Xor(Double(r), One(bit));
    if Top(r) then Xor(s, Poly()) else s
  }

  function Divide(r: bv16, bits: seq<bool>): bv16 {
    if bits == [] then r else Bring(Divide(r, bits[..|bits| - 1]), bits[|bits| - 1])
  }

  function Bits(b: bv8): (s: seq<bool>)
    ensures |s| == 8
  {
    [b & 128 != 0, b & 64 != 0, b & 32 != 0, b & 16 != 0, b & 8 != 0, b & 4 != 0, b & 2 != 0, b & 1 != 0]
  }

  function AllBits(m: seq<bv8>): seq<bool> {
    if m == [] then [] else AllBits(m[..|m| - 1]) + Bits(m[|m| - 1])
  }

  function Zeros(n: nat): (s: seq<bool>)
    ensures |s| == n
  {
    seq(n, _ => false)
  }

  /** The remainder of the message, followed by 16 zero bits. */
  function Remainder(m: seq<bv8>): bv16 {
    Divide(0, AllBits(m) + Zeros(16))
  }

  // ---------- the shift register ----------

  function Shift1(r: bv16): bv16 {
    if Top(r) then Xor(Double(r), Poly()) else Double(r)
  }

  function Shift4(r: bv16): bv16 {
    Shift1(Shift1(Shift1(Shift1(r))))
  }

  function Shift8(r: bv16): bv16 {
    Shift4(Shift4(r))
  }

  /** A bit that enters the register at its high end. */
  function Enter(r: bv16, bit: bool): bv16 {
    if Top(r) != bit then Xor(Double(r), Poly()) else Double(r)
  }

  /** Sixteen zero bits brought down: the register ahead of the division. */
  function Ahead(r: bv16): bv16 {
    Shift8(Shift8(r))
  }

  lemma XorAssoc(x: bv16, y: bv16, z: bv16)
    ensures Xor(Xor(x, y), z) == Xor(x, Xor(y, z))
  {
  }

  lemma XorComm(x: bv16, y: bv16)
    ensures Xor(x, y) == Xor(y, x)
  {
  }

  lemma XorZero(x: bv16)
    ensures Xor(x, 0) == x && Xor(x, x) == 0
  {
  }

  lemma XorRegroup(x: bv16, y: bv16, p: bv16)
    ensures Xor(Xor(x, p), p) == x
    ensures Xor(Xor(x, p), y) == Xor(Xor(x, y), p)
    ensures Xor(x, Xor(y, p)) == Xor(Xor(x, y), p)
    ensures Xor(Xor(x, p), Xor(y, p)) == Xor(x, y)
  {
    hide Xor;
    XorAssoc(x, p, p);
    XorZero(p);
    XorZero(x);
    XorAssoc(x, p, y);
    XorComm(p, y);
    XorAssoc(x, y, p);
    XorAssoc(Xor(x, p), y, p);
    XorAssoc(Xor(x, y), p, p);
    XorZero(Xor(x, y));
  }

  lemma TopXor(a: bv16, b: bv16)
    ensures Top(Xor(a, b)) == (Top(a) != Top(b))
  {
  }

  lemma DoubleXor(a: bv16, b: bv16)
    ensures Double(Xor(a, b)) == Xor(Double(a), Double(b))
  {
  }

  /** The register is linear: shifting a sum is the sum of the shifts. */
  lemma Shift1Xor(a: bv16, b: bv16)
    ensures Shift1(Xor(a, b)) == Xor(Shift1(a), Shift1(b))
  {
    hide Xor, Double, Top, Poly;
    TopXor(a, b);
    DoubleXor(a, b);
    XorRegroup(Double(a), Double(b), Poly());
  }

  lemma Shift4Xor(a: bv16, b: bv16)
    ensures Shift4(Xor(a, b)) == Xor(Shift4(a), Shift4(b))
  {
    hide Shift1, Xor;
    Shift1Xor(a, b);
    Shift1Xor(Shift1(a), Shift1(b));
    Shift1Xor(Shift1(Shift1(a)), Shift1(Shift1(b)));
    Shift1Xor(Shift1(Shift1(Shift1(a))), Shift1(Shift1(Shift1(b))));
  }

  lemma Shift8Xor(a: bv16, b: bv16)
    ensures Shift8(Xor(a, b)) == Xor(Shift8(a), Shift8(b))
  {
    hide Shift4, Xor;
    Shift4Xor(a, b);
    Shift4Xor(Shift4(a), Shift4(b));
  }

  lemma AheadXor(a: bv16, b: bv16)
    ensures Ahead(Xor(a, b)) == Xor(Ahead(a), Ahead(b))
  {
    hide Shift8, Xor;
    Shift8Xor(a, b);
    Shift8Xor(Shift8(a), Shift8(b));
  }

  lemma AheadShift(r: bv16)
    ensures Ahead(Shift1(r)) == Shift1(Ahead(r))
  {
    hide Shift1;
  }

  /** A term 16 places up leaves the divisor as its remainder. */
  lemma AheadOne(bit: bool)
    ensures Ahead(One(bit)) == if bit then Poly() else 0
  {
  }

  lemma BringIsXor(r: bv16, bit: bool)
    ensures Bring(r, bit) == Xor(Shift1(r), One(bit))
  {
    hide Xor, Double, Top, Poly, One;
    XorRegroup(Double(r), One(bit), Poly());
  }

  lemma EnterIsXor(r: bv16, bit: bool)
    ensures Enter(r, bit) == Xor(Shift1(r), if bit then Poly() else 0)
  {
    hide Xor, Double, Top, Poly;
    XorRegroup(Double(r), Double(r), Poly());
    XorZero(Shift1(r));
  }

  lemma BringIsEnter(r: bv16, bit: bool)
    ensures Ahead(Bring(r, bit)) == Enter(Ahead(r), bit)
  {
    hide Ahead, Bring, Enter, Shift1, Xor, One, Poly;
    BringIsXor(r, bit);
    AheadXor(Shift1(r), One(bit));
    AheadShift(r);
    AheadOne(bit);
    EnterIsXor(Ahead(r), bit);
  }

  lemma BringZero(r: bv16)
    ensures Bring(r, false) == Shift1(r)
  {
    hide Bring, Shift1, Xor;
    BringIsXor(r, false);
    XorZero(Shift1(r));
  }

  lemma {:induction false} DivideConcat(r: bv16, a: seq<bool>, b: seq<bool>)
    ensures Divide(r, a + b) == Divide(Divide(r, a), b)
  {
    if b == [] {
      assert a + b == a;
    } else {
      assert (a + b)[..|a + b| - 1] == a + b[..|b| - 1];
      DivideConcat(r, a, b[..|b| - 1]);
    }
  }

  lemma DivideZeros4(r: bv16)
    ensures Divide(r, Zeros(4)) == Shift4(r)
  {
    hide Bring, Shift1;
    DivideZero(r, 0);
    DivideZero(r, 1);
    DivideZero(r, 2);
    DivideZero(r, 3);
    assert Zeros(0) == [];
  }

  lemma DivideZero(r: bv16, n: nat)
    ensures Divide(r, Zeros(n + 1)) == Shift1(Divide(r, Zeros(n)))
  {
    hide Bring, Shift1;
    assert Zeros(n + 1)[..n] == Zeros(n);
    BringZero(Divide(r, Zeros(n)));
  }

  lemma DivideZeros16(r: bv16)
    ensures Divide(r, Zeros(16)) == Ahead(r)
  {
    hide Bring, Shift8, Divide;
    DivideZeros8(r);
    DivideZeros8(Shift8(r));
    assert Zeros(16) == Zeros(8) + Zeros(8);
    DivideConcat(r, Zeros(8), Zeros(8));
  }

  lemma DivideZeros8(r: bv16)
    ensures Divide(r, Zeros(8)) == Shift8(r)
  {
    hide Bring, Shift4, Divide;
    DivideZeros4(r);
    DivideZeros4(Shift4(r));
    assert Zeros(8) == Zeros(4) + Zeros(4);
    DivideConcat(r, Zeros(4), Zeros(4));
  }

  /** A byte at the high end of the register. */
  function High(b: bv8): bv16 {
    (b as bv16) << 8
  }

  function Enter4(r: bv16, s0: bool, s1: bool, s2: bool, s3: bool): bv16 {
    Enter(Enter(Enter(Enter(r, s0), s1), s2), s3)
  }

  function Enter8(r: bv16, s: seq<bool>): bv16
    requires |s| == 8
  {
    Enter4(Enter4(r, s[0], s[1], s[2], s[3]), s[4], s[5], s[6], s[7])
  }

  /** A sum goes through the register as its first term does, with the top bit of the other entered. */
  lemma ShiftEnters(t: bv16, h: bv16)
    ensures Shift1(Xor(t, h)) == Xor(Enter(t, Top(h)), Double(h))
  {
    hide Xor, Double, Top, Poly;
    TopXor(t, h);
    DoubleXor(t, h);
    XorRegroup(Double(t), Double(h), Poly());
  }

  function Double4(h: bv16): bv16 {
    Double(Double(Double(Double(h))))
  }

  lemma Shift4Enters(t: bv16, h: bv16)
    ensures Shift4(Xor(t, h))
         == Xor(Enter4(t, Top(h), Top(Double(h)), Top(Double(Double(h))), Top(Double(Double(Double(h))))), Double4(h))
  {
    hide Shift1, Xor, Enter, Double, Top;
    var t1, h1 := Enter(t, Top(h)), Double(h);
    var t2, h2 := Enter(t1, Top(h1)), Double(h1);
    var t3, h3 := Enter(t2, Top(h2)), Double(h2);
    ShiftEnters(t, h);
    ShiftEnters(t1, h1);
    ShiftEnters(t2, h2);
    ShiftEnters(t3, h3);
  }

  lemma HighBits(b: bv8)
    ensures var h := High(b); Top(h) == (b & 128 != 0) && Top(Double(h)) == (b & 64 != 0)
  {
  }

  lemma HighBits2(b: bv8)
    ensures var h := Double(Double(High(b))); Top(h) == (b & 32 != 0) && Top(Double(h)) == (b & 16 != 0)
  {
  }

  lemma HighBits4(b: bv8)
    ensures var h := Double4(High(b)); Top(h) == (b & 8 != 0) && Top(Double(h)) == (b & 4 != 0)
  {
  }

  lemma HighBits6(b: bv8)
    ensures var h := Double(Double(Double4(High(b)))); Top(h) == (b & 2 != 0) && Top(Double(h)) == (b & 1 != 0)
  {
  }

  lemma HighGone(b: bv8)
    ensures Double4(Double4(High(b))) == 0
  {
  }

  /** Eight bits entered one by one are a byte combined into the register at once. */
  lemma EnterByte(r: bv16, b: bv8)
    ensures Enter8(r, Bits(b)) == Shift8(Xor(r, High(b)))
  {
    hide Shift4, Enter4, Xor, High, Double, Double4, Top;
    var h, s := High(b), Bits(b);
    HighBits(b);
    HighBits2(b);
    HighBits4(b);
    HighBits6(b);
    Shift4Enters(r, h);
    Shift4Enters(Enter4(r, s[0], s[1], s[2], s[3]), Double4(h));
    HighGone(b);
    XorZero(Enter8(r, s));
  }

  lemma DivideByte(r: bv16, b: bv8)
    ensures Ahead(Divide(r, Bits(b))) == Shift8(Xor(Ahead(r), High(b)))
  {
    hide Ahead, Bring, Enter, Shift8, Divide, Bits, Xor, High;
    DivideBits(r, Bits(b));
    EnterByte(Ahead(r), b);
    EnterAll8(Ahead(r), Bits(b));
  }

  function EnterAll(r: bv16, bits: seq<bool>): bv16 {
    if bits == [] then r else Enter(EnterAll(r, bits[..|bits| - 1]), bits[|bits| - 1])
  }

  lemma {:induction false} DivideBits(r: bv16, bits: seq<bool>)
    ensures Ahead(Divide(r, bits)) == EnterAll(Ahead(r), bits)
  {
    hide Ahead, Bring, Enter;
    if bits != [] {
      DivideBits(r, bits[..|bits| - 1]);
      BringIsEnter(Divide(r, bits[..|bits| - 1]), bits[|bits| - 1]);
    }
  }

  lemma EnterAllNext(r: bv16, s: seq<bool>, k: nat)
    requires k < |s|
    ensures EnterAll(r, s[..k + 1]) == Enter(EnterAll(r, s[..k]), s[k])
  {
    hide Enter;
    assert s[..k + 1][..k] == s[..k];
  }

  lemma EnterAll8(r: bv16, s: seq<bool>)
    requires |s| == 8
    ensures EnterAll(r, s) == Enter8(r, s)
  {
    hide Enter, EnterAll;
    EnterNothing(r);
    assert s[..0] == [] && s[..8] == s;
    EnterAllNext(r, s, 0);
    EnterAllNext(r, s, 1);
    EnterAllNext(r, s, 2);
    EnterAllNext(r, s, 3);
    EnterAllNext(r, s, 4);
    EnterAllNext(r, s, 5);
    EnterAllNext(r, s, 6);
    EnterAllNext(r, s, 7);
  }

  lemma EnterNothing(r: bv16)
    ensures EnterAll(r, []) == r
  {
  }

  // ---------- the table ----------

  function Row(k: bv16, a0: bv16, a1: bv16, a2: bv16, a3: bv16, a4: bv16, a5: bv16, a6: bv16, a7: bv16): bv16 {
    if k == 0 then a0 else if k == 1 then a1 else if k == 2 then a2 else if k == 3 then a3
    else if k == 4 then a4 else if k == 5 then a5 else if k == 6 then a6 else a7
  }

  function Quarter0(i: bv16): bv16 {
    if i < 8 then Row(i & 7, 0x0000, 0x1021, 0x2042, 0x3063, 0x4084, 0x50a5, 0x60c6, 0x70e7)
    else if i < 16 then Row(i & 7, 0x8108, 0x9129, 0xa14a, 0xb16b, 0xc18c, 0xd1ad, 0xe1ce, 0xf1ef)
    else if i < 24 then Row(i & 7, 0x1231, 0x0210, 0x3273, 0x2252, 0x52b5, 0x4294, 0x72f7, 0x62d6)
    else if i < 32 then Row(i & 7, 0x9339, 0x8318, 0xb37b, 0xa35a, 0xd3bd, 0xc39c, 0xf3ff, 0xe3de)
    else if i < 40 then Row(i & 7, 0x2462, 0x3443, 0x0420, 0x1401, 0x64e6, 0x74c7, 0x44a4, 0x5485)
    else if i < 48 then Row(i & 7, 0xa56a, 0xb54b, 0x8528, 0x9509, 0xe5ee, 0xf5cf, 0xc5ac, 0xd58d)
    else if i < 56 then Row(i & 7, 0x3653, 0x2672, 0x1611, 0x0630, 0x76d7, 0x66f6, 0x5695, 0x46b4)
    else Row(i & 7, 0xb75b, 0xa77a, 0x9719, 0x8738, 0xf7df, 0xe7fe, 0xd79d, 0xc7bc)
  }

  function Quarter1(i: bv16): bv16 {
    if i < 72 then Row(i & 7, 0x48c4, 0x58e5, 0x6886, 0x78a7, 0x0840, 0x1861, 0x2802, 0x3823)
    else if i < 80 then Row(i & 7, 0xc9cc, 0xd9ed, 0xe98e, 0xf9af, 0x8948, 0x9969, 0xa90a, 0xb92b)
    else if i < 88 then Row(i & 7, 0x5af5, 0x4ad4, 0x7ab7, 0x6a96, 0x1a71, 0x0a50, 0x3a33, 0x2a12)
    else if i < 96 then Row(i & 7, 0xdbfd, 0xcbdc, 0xfbbf, 0xeb9e, 0x9b79, 0x8b58, 0xbb3b, 0xab1a)
    else if i < 104 then Row(i & 7, 0x6ca6, 0x7c87, 0x4ce4, 0x5cc5, 0x2c22, 0x3c03, 0x0c60, 0x1c41)
    else if i < 112 then Row(i & 7, 0xedae, 0xfd8f, 0xcdec, 0xddcd, 0xad2a, 0xbd0b, 0x8d68, 0x9d49)
    else if i < 120 then Row(i & 7, 0x7e97, 0x6eb6, 0x5ed5, 0x4ef4, 0x3e13, 0x2e32, 0x1e51, 0x0e70)
    else Row(i & 7, 0xff9f, 0xefbe, 0xdfdd, 0xcffc, 0xbf1b, 0xaf3a, 0x9f59, 0x8f78)
  }

  function Quarter2(i: bv16): bv16 {
    if i < 136 then Row(i & 7, 0x9188, 0x81a9, 0xb1ca, 0xa1eb, 0xd10c, 0xc12d, 0xf14e, 0xe16f)
    else if i < 144 then Row(i & 7, 0x1080, 0x00a1, 0x30c2, 0x20e3, 0x5004, 0x4025, 0x7046, 0x6067)
    else if i < 152 then Row(i & 7, 0x83b9, 0x9398, 0xa3fb, 0xb3da, 0xc33d, 0xd31c, 0xe37f, 0xf35e)
    else if i < 160 then Row(i & 7, 0x02b1, 0x1290, 0x22f3, 0x32d2, 0x4235, 0x5214, 0x6277, 0x7256)
    else if i < 168 then Row(i & 7, 0xb5ea, 0xa5cb, 0x95a8, 0x8589, 0xf56e, 0xe54f, 0xd52c, 0xc50d)
    else if i < 176 then Row(i & 7, 0x34e2, 0x24c3, 0x14a0, 0x0481, 0x7466, 0x6447, 0x5424, 0x4405)
    else if i < 184 then Row(i & 7, 0xa7db, 0xb7fa, 0x8799, 0x97b8, 0xe75f, 0xf77e, 0xc71d, 0xd73c)
    else Row(i & 7, 0x26d3, 0x36f2, 0x0691, 0x16b0, 0x6657, 0x7676, 0x4615, 0x5634)
  }

  function Quarter3(i: bv16): bv16 {
    if i < 200 then Row(i & 7, 0xd94c, 0xc96d, 0xf90e, 0xe92f, 0x99c8, 0x89e9, 0xb98a, 0xa9ab)
    else if i < 208 then Row(i & 7, 0x5844, 0x4865, 0x7806, 0x6827, 0x18c0, 0x08e1, 0x3882, 0x28a3)
    else if i < 216 then Row(i & 7, 0xcb7d, 0xdb5c, 0xeb3f, 0xfb1e, 0x8bf9, 0x9bd8, 0xabbb, 0xbb9a)
    else if i < 224 then Row(i & 7, 0x4a75, 0x5a54, 0x6a37, 0x7a16, 0x0af1, 0x1ad0, 0x2ab3, 0x3a92)
    else if i < 232 then Row(i & 7, 0xfd2e, 0xed0f, 0xdd6c, 0xcd4d, 0xbdaa, 0xad8b, 0x9de8, 0x8dc9)
    else if i < 240 then Row(i & 7, 0x7c26, 0x6c07, 0x5c64, 0x4c45, 0x3ca2, 0x2c83, 0x1ce0, 0x0cc1)
    else if i < 248 then Row(i & 7, 0xef1f, 0xff3e, 0xcf5d, 0xdf7c, 0xaf9b, 0xbfba, 0x8fd9, 0x9ff8)
    else Row(i & 7, 0x6e17, 0x7e36, 0x4e55, 0x5e74, 0x2e93, 0x3eb2, 0x0ed1, 0x1ef0)
  }

  lemma Quarter0IsShift(i: bv16)
    requires 0 <= i < 64
    ensures Quarter0(i) == Shift8(i << 8)
  {
  }

  lemma Quarter1IsShift(i: bv16)
    requires 64 <= i < 128
    ensures Quarter1(i) == Shift8(i << 8)
  {
  }

  lemma Quarter2IsShift(i: bv16)
    requires 128 <= i < 192
    ensures Quarter2(i) == Shift8(i << 8)
  {
  }

  lemma Quarter3IsShift(i: bv16)
    requires 192 <= i < 256
    ensures Quarter3(i) == Shift8(i << 8)
  {
  }

  function Table(i: bv16): bv16
    requires i < 256
  {
    if i < 64 then Quarter0(i) else if i < 128 then Quarter1(i) else if i < 192 then Quarter2(i) else Quarter3(i)
  }

  /** Every entry is the byte pushed through the register. */
  lemma TableIsShift(i: bv16)
    requires i < 256
    ensures Table(i) == Shift8(i << 8)
  {
    hide Quarter0, Quarter1, Quarter2, Quarter3, Shift8;
    if i < 64 {
      Quarter0IsShift(i);
    } else if i < 128 {
      Quarter1IsShift(i);
    } else if i < 192 {
      Quarter2IsShift(i);
    } else {
      Quarter3IsShift(i);
    }
  }

  /** The high byte of the sum goes through the register, the low byte only moves up. */
  lemma ByteStep(r: bv16, b: bv8)
    ensures Xor(Up(r), Shift8(Index(r, b) << 8)) == Shift8(Xor(r, High(b)))
  {
    hide Xor, Shift8, High, Up, Low, Index;
    SumSplits(r, b);
    LowMovesUp(r);
    Shift8Xor(Low(r), Index(r, b) << 8);
  }

  function Low(r: bv16): bv16 {
    r & 0xff
  }

  function Up(r: bv16): bv16 {
    (r << 8) & 0xff00
  }

  /** Where the table is read. */
  function Index(r: bv16, b: bv8): bv16 {
    ((r >> 8) & 0xff) ^ (b as bv16)
  }

  lemma SumSplits(r: bv16, b: bv8)
    ensures Xor(r, High(b)) == Xor(Low(r), Index(r, b) << 8)
  {
  }

  lemma LowMovesUp(r: bv16)
    ensures Shift8(Low(r)) == Up(r)
  {
  }

  lemma IndexInTable(r: bv16, b: bv8)
    ensures Index(r, b) < 256
  {
  }

  /** One round of the checksum loop. */
  function Round(r: bv16, b: bv8): bv16 {
    IndexInTable(r, b);
    Xor(Up(r), Table(Index(r, b)))
  }

  lemma RoundIsShift(r: bv16, b: bv8)
    ensures Round(r, b) == Shift8(Xor(r, High(b)))
  {
    hide Table, Shift8, Xor, High, Up, Index;
    IndexInTable(r, b);
    TableIsShift(Index(r, b));
    ByteStep(r, b);
  }

  lemma RemainderNext(m: seq<bv8>, b: bv8)
    ensures Remainder(m + [b]) == Shift8(Xor(Remainder(m), High(b)))
  {
    hide Ahead, Divide, Shift8, Bits, Xor, High;
    assert (m + [b])[..|m|] == m;
    var r := Divide(0, AllBits(m));
    DivideConcat(0, AllBits(m), Zeros(16));
    DivideZeros16(r);
    DivideConcat(0, AllBits(m), Bits(b));
    DivideConcat(0, AllBits(m) + Bits(b), Zeros(16));
    DivideZeros16(Divide(r, Bits(b)));
    DivideByte(r, b);
  }

  lemma RemainderOfNothing()
    ensures Remainder([]) == 0
  {
    hide Divide, Ahead;
    assert AllBits([]) + Zeros(16) == Zeros(16);
    DivideZeros16(0);
    AheadOne(false);
  }

  /** The table-driven checksum of any byte string is the remainder of its polynomial division. */
  method Crc16(b: seq<bv8>) returns (crc: bv16)
    ensures crc == Remainder(b)
  {
    hide Remainder, Round, Shift8, Xor, High;
    crc := 0;
    RemainderOfNothing();
    var i := 0;
    assert b[..0] == [];
    while i < |b|
      invariant 0 <= i <= |b| && crc == Remainder(b[..i])
    {
      assert b[..i + 1] == b[..i] + [b[i]];
      RemainderNext(b[..i], b[i]);
      RoundIsShift(crc, b[i]);
      crc := Round(crc, b[i]);
      i := i + 1;
    }
    assert b[..i] == b;
  }

  // ---------- hash tags ----------

  /** The key holds a tag between the first opening brace and the first closing brace after it. */
  ghost predicate TagAt(key: seq<bv8>, i: nat, j: nat) {
    && i + 1 < j < |key| && key[i] == 0x7b && key[j] == 0x7d
    && 0x7b !in key[..i] && 0x7d !in key[i + 1..j]
  }

  /** What is hashed: the tag if there is one, else the whole key. */
  ghost predicate IsHashed(key: seq<bv8>, part: seq<bv8>) {
    || (exists i: nat, j: nat :: TagAt(key, i, j) && part == key[i + 1..j])
    || (part == key && !exists i: nat, j: nat :: TagAt(key, i, j))
  }

  method HashTag(b: seq<bv8>) returns (t: seq<bv8>)
    ensures IsHashed(b, t)
  {
    var n := |b|;
    var i := 0;
    while i < n && b[i] != OPEN
      invariant 0 <= i <= n && OPEN !in b[..i]
    {
      i := i + 1;
    }
    if i == n {
      assert b[..i] == b;
      return b;
    }
    var j := i + 1;
    while j < n && b[j] != CLOSE
      invariant i < j <= n && CLOSE !in b[i + 1..j]
    {
      j := j + 1;
    }
    FirstTag(b, i, j);
    if j == n || j == i + 1 {
      return b;
    }
    assert TagAt(b, i, j);
    return b[i + 1..j];
  }

  lemma FirstUnique(s: seq<bv8>, c: bv8, i: nat, x: nat)
    requires i <= |s| && c !in s[..i] && (i < |s| ==> s[i] == c)
    requires x < |s| && c !in s[..x] && s[x] == c
    ensures i == x
  {
    assert forall k :: 0 <= k < i ==> s[..i][k] == s[k];
    assert forall k :: 0 <= k < x ==> s[..x][k] == s[k];
  }

  /** Any tag of a key is where the two scans stop. */
  lemma FirstTag(b: seq<bv8>, i: nat, j: nat)
    requires i < j <= |b| && b[i] == OPEN && OPEN !in b[..i] && CLOSE !in b[i + 1..j]
    requires j < |b| ==> b[j] == CLOSE
    ensures forall x: nat, y: nat :: TagAt(b, x, y) ==> x == i && y == j
  {
    forall x: nat, y: nat | TagAt(b, x, y) ensures x == i && y == j {
      FirstUnique(b, OPEN, i, x);
      assert b[i + 1..][..j - i - 1] == b[i + 1..j] && b[i + 1..][..y - i - 1] == b[i + 1..y];
      FirstUnique(b[i + 1..], CLOSE, j - i - 1, y - i - 1);
    }
  }

  lemma HashedUnique(key: seq<bv8>, p: seq<bv8>, q: seq<bv8>)
    requires IsHashed(key, p) && IsHashed(key, q)
    ensures p == q
  {
    if exists i: nat, j: nat :: TagAt(key, i, j) {
      var i: nat, j: nat :| TagAt(key, i, j);
      FirstTag(key, i, j);
    }
  }

  /** The slot of a routing key. */
  method SlotOf(key: seq<bv8>) returns (slot: bv16)
    ensures slot < 16384
    ensures exists part :: IsHashed(key, part) && slot == Remainder(part) & 0x3fff
  {
    hide Remainder;
    var tag := HashTag(key);
    var hash := Crc16(tag);
    slot := hash & (SLOT_NUM - 1);
  }

  /** Keys with the same tag share a slot, whatever stands around it: the tag alone is hashed. */
  lemma SameTagSameSlot(before: seq<bv8>, tag: seq<bv8>, after: seq<bv8>, part: seq<bv8>)
    requires 0x7b !in before && tag != [] && 0x7d !in tag
    requires IsHashed(before + [0x7b] + tag + [0x7d] + after, part)
    ensures part == tag
  {
    var key := before + [OPEN] + tag + [CLOSE] + after;
    var i, j := |before|, |before| + 1 + |tag|;
    assert key[..i] == before && key[i + 1..j] == tag && key[i] == OPEN && key[j] == CLOSE;
    assert TagAt(key, i, j);
    FirstTag(key, i, j);
  }
}
