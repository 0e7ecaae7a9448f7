/**
 * CRC32C (src/core/cmq_crc32c.c): the byte loop, the eight-bytes-at-a-time loop of the
 * hardware path, and the checksum trailer. The instruction is taken at its bit-serial
 * meaning. The main result is that any change within 32 consecutive bits is caught.
 */
module Crc32c {
  import opened Common

  const POLY: bv32 := 0x82F63B78

  type Data = seq<bv8>

  // Named, so that most proofs need not look inside words.
  function Xor(a: bv32, b: bv32): bv32 { a ^ b }
  function Wide(b: bv8): bv32 { b as bv32 }
  function Double(y: bv32): bv32 { y << 1 }
  function Flip(c: bv32): bv32 { c ^ 0xFFFFFFFF }

  /** One turn of the shift register. */
  function Turn(c: bv32): bv32 { if c & 1 == 1 then (c >> 1) ^ POLY else c >> 1 }

  function Turns(n: nat, c: bv32): bv32 {
    if n == 0 then c else Turn(Turns(n - 1, c))
  }

  function ByteStep(c: bv32, b: bv8): bv32 { Turns(8, Xor(c, Wide(b))) }

  /** The register after some bytes. */
  function Raw(c: bv32, data: Data): bv32
    decreases |data|
  {
    if data == [] then c else Raw(ByteStep(c, data[0]), data[1..])
  }

  /** The checksum: inverted before and after. */
  function Crc(c: bv32, data: Data): bv32 {
    if data == [] then c else Flip(Raw(Flip(c), data))
  }

  lemma FlipTwice(c: bv32)
    ensures Flip(Flip(c)) == c
  {
  }

  lemma {:induction false} RawAppend(c: bv32, a: Data, b: Data)
    ensures Raw(c, a + b) == Raw(Raw(c, a), b)
    decreases |a|
  {
    hide ByteStep;
    if a == [] {
      assert a + b == b;
    } else {
      RawAppend(ByteStep(c, a[0]), a[1..], b);
      assert (a + b)[1..] == a[1..] + b;
    }
  }

  /** Checksums chain: over any split of the data the pieces give the whole. */
  lemma CrcChains(c: bv32, a: Data, b: Data)
    ensures Crc(Crc(c, a), b) == Crc(c, a + b)
  {
    hide Raw, Flip;
    if a == [] {
      assert a + b == b;
    } else if b == [] {
      assert a + b == a;
    } else {
      FlipTwice(Raw(Flip(c), a));
      RawAppend(Flip(c), a, b);
    }
  }

  // ---- the register never forgets a difference ----

  lemma TurnInjective(a: bv32, b: bv32)
    requires Turn(a) == Turn(b)
    ensures a == b
  {
  }

  lemma {:induction false} TurnsInjective(n: nat, a: bv32, b: bv32)
    requires Turns(n, a) == Turns(n, b)
    ensures a == b
  {
    hide Turn;
    if n > 0 {
      TurnInjective(Turns(n - 1, a), Turns(n - 1, b));
      TurnsInjective(n - 1, a, b);
    }
  }

  lemma XorInjective(a: bv32, b: bv32, x: bv32)
    requires Xor(a, x) == Xor(b, x)
    ensures a == b
  {
  }

  lemma XorSame(c: bv32, x: bv32, y: bv32)
    requires Xor(c, x) == Xor(c, y)
    ensures x == y
  {
  }

  lemma XorAssoc(a: bv32, b: bv32, c: bv32)
    ensures Xor(Xor(a, b), c) == Xor(a, Xor(b, c))
  {
  }

  // ---- turning ----

  /** What is above the bit being shifted out only moves down. */
  lemma TurnCommutes(x: bv32, y: bv32)
    requires Low(y)
    ensures Turn(Xor(x, Double(y))) == Xor(Turn(x), y)
  {
    hide Xor, Double, Low, Half, LowBit;
    KeepsLow(x, y);
    HalfMixed(x, y);
    TurnIs(x);
    TurnIs(Xor(x, Double(y)));
    hide Turn;
    Swap(Half(x), y, POLY);
  }

  lemma TurnIs(c: bv32)
    ensures Turn(c) == if LowBit(c) == 1 then Xor(Half(c), POLY) else Half(c)
  {
  }

  lemma KeepsLow(x: bv32, y: bv32)
    ensures LowBit(Xor(x, Double(y))) == LowBit(x)
  {
  }

  lemma HalfMixed(x: bv32, y: bv32)
    requires Low(y)
    ensures Half(Xor(x, Double(y))) == Xor(Half(x), y)
  {
  }

  lemma XorComm(a: bv32, b: bv32)
    ensures Xor(a, b) == Xor(b, a)
  {
  }

  lemma Swap(a: bv32, b: bv32, c: bv32)
    ensures Xor(Xor(a, b), c) == Xor(Xor(a, c), b)
  {
    hide Xor;
    XorAssoc(a, b, c);
    XorComm(b, c);
    XorAssoc(a, c, b);
  }

  /** Differences of sums are sums of differences. */
  lemma Mix(x: bv32, a: bv32, y: bv32, b: bv32)
    ensures Xor(Xor(x, a), Xor(y, b)) == Xor(Xor(x, y), Xor(a, b))
  {
    hide Xor;
    XorAssoc(Xor(x, a), y, b);
    Swap(x, a, y);
    XorAssoc(Xor(x, y), a, b);
  }

  /** Turning may be counted from either end. */
  lemma {:induction false} TurnsFirst(n: nat, c: bv32)
    requires n > 0
    ensures Turns(n, c) == Turns(n - 1, Turn(c))
  {
    hide Turn;
    if n > 1 { TurnsFirst(n - 1, c); }
  }

  predicate Low(y: bv32) { y < 0x80000000 }

  predicate Tiny(a: bv32) { a < 0x100 }

  lemma WideSmall(a: bv8)
    ensures Tiny(Wide(a))
  {
  }

  lemma WideInjective(a: bv8, b: bv8)
    requires Wide(a) == Wide(b)
    ensures a == b
  {
  }

  // ---- the instruction, bit by bit ----

  function Half(r: bv32): bv32 { r >> 1 }
  function LowBit(r: bv32): bv32 { r & 1 }

  /** The lowest n bits, lowest first. */
  function BitsOf(n: nat, r: bv32): seq<bool> {
    if n == 0 then [] else [LowBit(r) == 1] + BitsOf(n - 1, Half(r))
  }

  /** Nothing is left after n bits. */
  predicate Spent(n: nat, r: bv32) {
    if n == 0 then r == 0 else Spent(n - 1, Half(r))
  }

  /** The bit-serial register: each bit is mixed in at the bottom, then one turn. */
  function Serial(c: bv32, bits: seq<bool>): bv32
    decreases |bits|
  {
    if bits == [] then c else Serial(Turn(Xor(c, if bits[0] then 1 else 0)), bits[1..])
  }

  lemma Halves(r: bv32)
    ensures Low(Half(r)) && (LowBit(r) == 0 || LowBit(r) == 1) && Xor(LowBit(r), Double(Half(r))) == r
  {
  }

  lemma {:induction false} SerialIsTurns(n: nat, c: bv32, r: bv32)
    requires Spent(n, r)
    ensures Serial(c, BitsOf(n, r)) == Turns(n, Xor(c, r))
  {
    if n == 0 {
      XorNothing(c);
    } else {
      hide Turn, Xor, Half, LowBit, Double, Low;
      var b, t := LowBit(r), Half(r);
      Halves(r);
      TurnCommutes(Xor(c, b), t);
      XorAssoc(c, b, Double(t));
      TurnsFirst(n, Xor(c, r));
      SerialIsTurns(n - 1, Turn(Xor(c, b)), t);
      assert BitsOf(n, r)[1..] == BitsOf(n - 1, t);
    }
  }

  lemma XorNothing(c: bv32)
    ensures Xor(c, 0) == c
  {
  }

  function ByteBits(b: bv8): seq<bool> { BitsOf(8, Wide(b)) }

  /** Halved n times. */
  function Down(n: nat, r: bv32): bv32 {
    if n == 0 then r else Down(n - 1, Half(r))
  }

  lemma {:induction false} BitsAdd(m: nat, n: nat, r: bv32)
    ensures BitsOf(m + n, r) == BitsOf(m, r) + BitsOf(n, Down(m, r))
    ensures Spent(m + n, r) <==> Spent(n, Down(m, r))
    decreases m
  {
    hide Half, LowBit;
    if m > 0 { BitsAdd(m - 1, n, Half(r)); }
  }

  function Shr8(r: bv32): bv32 { r >> 8 }

  lemma EightHalves(r: bv32)
    ensures Down(8, r) == Shr8(r)
  {
    var a := Half(r);
    var b := Half(a);
    var c := Half(b);
    var d := Half(c);
    var e := Half(d);
    var f := Half(e);
    var g := Half(f);
    EightShifts(r, a, b, c, d, e, f, g, Half(g));
    hide Half;
    assert Down(8, r) == Down(6, b) == Down(4, d) == Down(2, f);
    assert Down(2, f) == Down(1, g) == Down(0, Half(g));
  }

  lemma EightShifts(r: bv32, a: bv32, b: bv32, c: bv32, d: bv32, e: bv32, f: bv32, g: bv32, h: bv32)
    requires a == Half(r) && b == Half(a) && c == Half(b) && d == Half(c)
    requires e == Half(d) && f == Half(e) && g == Half(f) && h == Half(g)
    ensures h == Shr8(r)
  {
  }

  lemma ByteSpent(r: bv32)
    requires Tiny(r)
    ensures Spent(8, r)
  {
    BitsAdd(8, 0, r);
    EightHalves(r);
    TinyGone(r);
    hide Half, Shr8;
    assert Spent(0, Shr8(r));
  }

  lemma TinyGone(r: bv32)
    requires Tiny(r)
    ensures Shr8(r) == 0
  {
  }

  /** The bits of some bytes: those of the word a processor loads from them. */
  function WordBits(w: Data): seq<bool> {
    if w == [] then [] else ByteBits(w[0]) + WordBits(w[1..])
  }

  lemma {:induction false} SerialAppend(c: bv32, a: seq<bool>, b: seq<bool>)
    ensures Serial(c, a + b) == Serial(Serial(c, a), b)
    decreases |a|
  {
    hide Turn, Xor;
    if a == [] {
      assert a + b == b;
    } else {
      assert (a + b)[1..] == a[1..] + b;
      SerialAppend(Turn(Xor(c, if a[0] then 1 else 0)), a[1..], b);
    }
  }

  /** The instruction over any bytes is the byte loop over them. */
  lemma {:induction false} InstructionIsBytes(c: bv32, w: Data)
    ensures Serial(c, WordBits(w)) == Raw(c, w)
    decreases |w|
  {
    if w != [] {
      hide Serial, BitsOf, Turns, Xor, Wide, Spent, Tiny;
      SerialAppend(c, ByteBits(w[0]), WordBits(w[1..]));
      WideSmall(w[0]);
      ByteSpent(Wide(w[0]));
      SerialIsTurns(8, c, Wide(w[0]));
      InstructionIsBytes(ByteStep(c, w[0]), w[1..]);
    } else {
      assert Serial(c, []) == c;
    }
  }

  // ---- every burst of 32 bits is seen ----

  /** Turning is linear: the difference of two registers turns like a register. */
  lemma TurnLinear(x: bv32, y: bv32)
    ensures Xor(Turn(x), Turn(y)) == Turn(Xor(x, y))
  {
    hide Xor, Half, LowBit;
    TurnIs(x);
    TurnIs(y);
    TurnIs(Xor(x, y));
    hide Turn;
    LowLinear(x, y);
    HalfLinear(x, y);
    Cancel(Half(x), Half(y), POLY);
  }

  lemma LowLinear(x: bv32, y: bv32)
    ensures LowBit(Xor(x, y)) == 1 <==> (LowBit(x) == 1) != (LowBit(y) == 1)
  {
  }

  lemma HalfLinear(x: bv32, y: bv32)
    ensures Half(Xor(x, y)) == Xor(Half(x), Half(y))
  {
  }

  lemma Cancel(a: bv32, b: bv32, p: bv32)
    ensures Xor(Xor(a, p), Xor(b, p)) == Xor(a, b)
    ensures Xor(Xor(a, p), b) == Xor(Xor(a, b), p)
    ensures Xor(a, Xor(b, p)) == Xor(Xor(a, b), p)
  {
    XorSelf(p);
    XorNothing(Xor(a, b));
    hide Xor;
    Mix(a, p, b, p);
    Swap(a, p, b);
    XorAssoc(a, b, p);
  }

  predicate AtLeast(d: bv32, f: bv32) { d >= f }

  lemma AtLeastTrans(a: bv32, b: bv32, c: bv32)
    requires AtLeast(a, b) && AtLeast(b, c)
    ensures AtLeast(a, c)
  {
  }

  const TOP: bv32 := 0x80000000

  /** 2^31, halved j times. */
  function Floor(j: nat): bv32 {
    if j == 0 then TOP else Half(Floor(j - 1))
  }

  lemma {:induction false} FloorFalls(j: nat, k: nat)
    requires j <= k
    ensures AtLeast(Floor(j), Floor(k))
    decreases k
  {
    if j < k {
      FloorNext(k - 1);
      HalfBelow(Floor(k - 1));
      hide Half, AtLeast, Floor;
      FloorFalls(j, k - 1);
      AtLeastTrans(Floor(j), Floor(k - 1), Floor(k));
    }
  }

  lemma HalfBelow(x: bv32)
    ensures AtLeast(x, Half(x))
  {
  }

  lemma FloorLast()
    ensures Floor(31) == 1
  {
    assert Floor(8) == 0x800000;
    assert Floor(16) == 0x8000;
    assert Floor(24) == 0x80;
  }

  function Bit(b: bool): bv32 { if b then 1 else 0 }

  /** A difference whose top bit is high enough survives a turn, whatever the next bits differ by. */
  lemma StaysUp(d: bv32, f: bv32, b: bool)
    requires AtLeast(d, f)
    ensures AtLeast(Turn(Xor(d, Bit(b))), Half(f))
  {
    var e := Xor(d, Bit(b));
    HalfKeeps(d, f, b);
    TopSet(Half(e));
    TurnIs(e);
    HalfTop(f);
    hide Turn, Xor, Half, Bit, LowBit, AtLeast, Low;
    if LowBit(e) == 1 { AtLeastTrans(Xor(Half(e), POLY), TOP, Half(f)); }
  }

  lemma HalfKeeps(d: bv32, f: bv32, b: bool)
    requires AtLeast(d, f)
    ensures AtLeast(Half(Xor(d, Bit(b))), Half(f)) && Low(Half(Xor(d, Bit(b))))
  {
  }

  lemma TopSet(h: bv32)
    ensures Low(h) ==> AtLeast(Xor(h, POLY), TOP)
  {
  }

  lemma HalfTop(f: bv32)
    ensures AtLeast(TOP, Half(f))
  {
  }

  lemma BitsDiffer(x: bv32, y: bv32, a: bool, b: bool)
    ensures Xor(Xor(x, Bit(a)), Xor(y, Bit(b))) == Xor(Xor(x, y), Bit(a != b))
  {
    assert Xor(Bit(a), Bit(b)) == Bit(a != b);
    hide Xor, Bit;
    Mix(x, Bit(a), y, Bit(b));
  }

  lemma SerialStep(c: bv32, v: seq<bool>)
    requires v != []
    ensures Serial(c, v) == Serial(Turn(Xor(c, Bit(v[0]))), v[1..])
  {
    hide Turn, Xor;
  }

  /** Registers that differ high enough still differ after the bits that follow. */
  lemma {:induction false} StillDiffer(x: bv32, y: bv32, v: seq<bool>, w: seq<bool>, j: nat)
    requires |v| == |w| && j + |v| <= 31 && AtLeast(Xor(x, y), Floor(j))
    ensures Serial(x, v) != Serial(y, w)
    decreases |v|
  {
    hide Turn, Floor, Bit, Half, Xor, Serial, AtLeast;
    if v == [] {
      FloorFalls(j, 31);
      LastDiffers(x, y, j);
      SerialNothing(x);
      SerialNothing(y);
    } else {
      FloorNext(j);
      SerialStep(x, v);
      SerialStep(y, w);
      TurnLinear(Xor(x, Bit(v[0])), Xor(y, Bit(w[0])));
      BitsDiffer(x, y, v[0], w[0]);
      StaysUp(Xor(x, y), Floor(j), v[0] != w[0]);
      StillDiffer(Turn(Xor(x, Bit(v[0]))), Turn(Xor(y, Bit(w[0]))), v[1..], w[1..], j + 1);
    }
  }

  lemma SerialNothing(c: bv32)
    ensures Serial(c, []) == c
  {
  }

  lemma LastDiffers(x: bv32, y: bv32, j: nat)
    requires AtLeast(Xor(x, y), Floor(j)) && AtLeast(Floor(j), Floor(31))
    ensures x != y
  {
    FloorLast();
    XorSelf(x);
    hide Floor, Xor;
    AtLeastTrans(Xor(x, y), Floor(j), Floor(31));
  }

  lemma XorSelf(x: bv32)
    ensures Xor(x, x) == 0
  {
  }

  lemma FloorNext(j: nat)
    ensures Floor(j + 1) == Half(Floor(j))
  {
    hide Half;
  }

  /** Two bits make a difference that reaches the top at once. */
  lemma FirstDifference(c: bv32, a: bool, b: bool)
    requires a != b
    ensures AtLeast(Xor(Turn(Xor(c, Bit(a))), Turn(Xor(c, Bit(b)))), TOP)
  {
    TurnLinear(Xor(c, Bit(a)), Xor(c, Bit(b)));
    BitsDiffer(c, c, a, b);
    XorSelf(c);
    hide Turn;
    TurnOfOne();
    assert Xor(0, Bit(true)) == 1;
  }

  lemma TurnOfOne()
    ensures Turn(1) == POLY
  {
  }

  /** Up to 32 bits are told apart, from any register. */
  lemma {:induction false} BurstDiffers(c: bv32, v: seq<bool>, w: seq<bool>)
    requires |v| == |w| <= 32 && v != w
    ensures Serial(c, v) != Serial(c, w)
    decreases |v|
  {
    hide Turn, Xor, Bit, Serial;
    SerialStep(c, v);
    SerialStep(c, w);
    if v[0] == w[0] {
      assert v == [v[0]] + v[1..] && w == [w[0]] + w[1..];
      BurstDiffers(Turn(Xor(c, Bit(v[0]))), v[1..], w[1..]);
    } else {
      FirstDifference(c, v[0], w[0]);
      assert Floor(0) == TOP;
      hide Floor;
      StillDiffer(Turn(Xor(c, Bit(v[0]))), Turn(Xor(c, Bit(w[0]))), v[1..], w[1..], 0);
    }
  }

  lemma {:induction false} SerialInjective(x: bv32, y: bv32, v: seq<bool>)
    requires Serial(x, v) == Serial(y, v)
    ensures x == y
    decreases |v|
  {
    hide Turn, Xor, Bit;
    if v != [] {
      SerialStep(x, v);
      SerialStep(y, v);
      SerialInjective(Turn(Xor(x, Bit(v[0]))), Turn(Xor(y, Bit(v[0]))), v[1..]);
      TurnInjective(Xor(x, Bit(v[0])), Xor(y, Bit(v[0])));
      XorInjective(x, y, Bit(v[0]));
    }
  }

  /**
   * Messages whose bits differ within 32 consecutive ones, wherever these start and however
   * long the messages are, have different checksums.
   */
  lemma BurstIsSeen(c: bv32, a: Data, b: Data, x: seq<bool>, v: seq<bool>, w: seq<bool>, y: seq<bool>)
    requires WordBits(a) == x + v + y && WordBits(b) == x + w + y && |v| == |w| <= 32 && v != w
    ensures Crc(c, a) != Crc(c, b)
  {
    hide Raw, Flip, Serial, WordBits;
    SomeBits(a);
    SomeBits(b);
    var r := Flip(c);
    FlipTwice(Raw(r, a));
    FlipTwice(Raw(r, b));
    InstructionIsBytes(r, a);
    InstructionIsBytes(r, b);
    SerialAppend(r, x + v, y);
    SerialAppend(r, x, v);
    SerialAppend(r, x + w, y);
    SerialAppend(r, x, w);
    BurstDiffers(Serial(r, x), v, w);
    if Serial(r, x + v + y) == Serial(r, x + w + y) {
      SerialInjective(Serial(r, x + v), Serial(r, x + w), y);
      assert false;
    }
  }

  lemma SomeBits(a: Data)
    ensures a == [] ==> WordBits(a) == []
  {
  }

  lemma {:induction false} WordBitsAppend(a: Data, b: Data)
    ensures WordBits(a + b) == WordBits(a) + WordBits(b)
    decreases |a|
  {
    hide ByteBits;
    if a == [] {
      assert a + b == b;
    } else {
      WordBitsAppend(a[1..], b);
      assert (a + b)[1..] == a[1..] + b;
    }
  }

  lemma {:induction false} WordBitsLength(a: Data)
    ensures |WordBits(a)| == 8 * |a|
  {
    if a != [] {
      WordBitsLength(a[1..]);
      BitsLength(8, Wide(a[0]));
    }
  }

  lemma {:induction false} BitsLength(n: nat, r: bv32)
    ensures |BitsOf(n, r)| == n
  {
    hide Half, LowBit;
    if n > 0 { BitsLength(n - 1, Half(r)); }
  }

  /** Different bytes have different bits. */
  lemma {:induction false} WordBitsInjective(v: Data, w: Data)
    requires |v| == |w| && WordBits(v) == WordBits(w)
    ensures v == w
    decreases |v|
  {
    if v != [] {
      BitsLength(8, Wide(v[0]));
      BitsLength(8, Wide(w[0]));
      hide BitsOf, Wide;
      assert ByteBits(v[0]) == WordBits(v)[..8] == ByteBits(w[0]);
      assert WordBits(v[1..]) == WordBits(v)[8..] == WordBits(w[1..]);
      ByteBitsInjective(v[0], w[0]);
      WordBitsInjective(v[1..], w[1..]);
      assert v == [v[0]] + v[1..] && w == [w[0]] + w[1..];
    }
  }

  lemma ByteBitsInjective(a: bv8, b: bv8)
    requires ByteBits(a) == ByteBits(b)
    ensures a == b
  {
    hide Serial, BitsOf, Turns, Xor, Wide, Spent, Tiny;
    WideSmall(a);
    WideSmall(b);
    ByteSpent(Wide(a));
    ByteSpent(Wide(b));
    SerialIsTurns(8, 0, Wide(a));
    SerialIsTurns(8, 0, Wide(b));
    TurnsInjective(8, Xor(0, Wide(a)), Xor(0, Wide(b)));
    XorSame(0, Wide(a), Wide(b));
    WideInjective(a, b);
  }

  /** So is any change within four consecutive bytes. */
  lemma ChangeIsSeen(c: bv32, before: Data, v: Data, w: Data, after: Data)
    requires |v| == |w| <= 4 && v != w
    ensures Crc(c, before + v + after) != Crc(c, before + w + after)
  {
    hide WordBits, Crc;
    WordBitsAppend(before + v, after);
    WordBitsAppend(before, v);
    WordBitsAppend(before + w, after);
    WordBitsAppend(before, w);
    WordBitsLength(v);
    WordBitsLength(w);
    if WordBits(v) == WordBits(w) {
      WordBitsInjective(v, w);
      assert false;
    }
    BurstIsSeen(c, before + v + after, before + w + after, WordBits(before), WordBits(v), WordBits(w), WordBits(after));
  }

  // ---- the code ----

  lemma TurnFormula(c: bv32)
    ensures (c >> 1) ^ (POLY & (0 - (c & 1))) == Turn(c)
  {
    ZeroOrOne(c);
    if c & 1 == 1 { AllOnes(POLY); } else { NoOnes(c >> 1, POLY); }
  }

  lemma ZeroOrOne(c: bv32)
    ensures c & 1 == 0 || c & 1 == 1
  {
  }

  lemma AllOnes(p: bv32)
    ensures p & (0 - 1) == p
  {
  }

  lemma NoOnes(h: bv32, p: bv32)
    ensures h ^ (p & (0 - 0)) == h
  {
  }

  /** The eight turns of the software path. */
  method TurnEight(c: bv32) returns (r: bv32)
    ensures r == Turns(8, c)
  {
    r := c;
    var j: nat := 0;
    while j < 8
      invariant j <= 8 && r == Turns(j, c)
    {
      r := TurnOnce(r);
      j := j + 1;
    }
  }

  method TurnOnce(c: bv32) returns (r: bv32)
    ensures r == Turn(c)
  {
    TurnFormula(c);
    r := (c >> 1) ^ (POLY & (0 - (c & 1)));
  }

  /** crc32c_tail, software path. */
  method Tail(c: bv32, data: Data) returns (crc: bv32)
    ensures crc == Raw(c, data)
  {
    hide Turns, Xor, Wide;
    crc := c;
    var i: nat := 0;
    assert data[0..] == data;
    while i < |data|
      invariant i <= |data| && Raw(crc, data[i..]) == Raw(c, data)
    {
      assert data[i..][1..] == data[i + 1..];
      crc := TurnEight(Xor(crc, Wide(data[i])));
      i := i + 1;
    }
  }

  /** cmq_crc32c_raw, hardware path: eight bytes an instruction, then the tail. */
  method RawByEights(c: bv32, data: Data) returns (crc: bv32)
    ensures crc == Raw(c, data)
  {
    hide Serial, WordBits, ByteStep;
    crc := c;
    var i: nat := 0;
    assert data[0..] == data;
    while |data| - i >= 8
      invariant i <= |data| && Raw(crc, data[i..]) == Raw(c, data)
    {
      var word := data[i..i + 8];
      InstructionIsBytes(crc, word);
      RawAppend(crc, word, data[i + 8..]);
      assert data[i..] == word + data[i + 8..];
      crc := Serial(crc, WordBits(word));
      i := i + 8;
    }
    crc := Tail(crc, data[i..]);
  }

  /** cmq_crc32c. */
  method Checksum(c: bv32, data: Data) returns (crc: bv32)
    ensures crc == Crc(c, data)
  {
    hide Raw, Flip;
    if |data| == 0 { return c; }
    crc := RawByEights(Flip(c), data);
    crc := Flip(crc);
  }

  function Shl8(y: bv32): bv32 { y << 8 }

  /** Bytes as a little-endian word; four fit. */
  function Word(w: Data): bv32 {
    if w == [] then 0 else Xor(Wide(w[0]), Shl8(Word(w[1..])))
  }

  /** The payload and, behind it, its checksum. */
  predicate Sealed(wire: Data) {
    |wire| >= 4 && Word(wire[|wire| - 4..]) == Crc(0, wire[..|wire| - 4])
  }

  function Le(a: bv32, b: bv32, c: bv32, d: bv32): bv32 { a | (b << 8) | (c << 16) | (d << 24) }

  lemma LeIsXor(a: bv32, b: bv32, c: bv32, d: bv32)
    requires Tiny(a) && Tiny(b) && Tiny(c) && Tiny(d)
    ensures Le(a, b, c, d) == Xor(a, Shl8(Xor(b, Shl8(Xor(c, Shl8(Xor(d, Shl8(0))))))))
  {
  }

  lemma LeIsWord(w: Data)
    requires |w| == 4
    ensures Le(Wide(w[0]), Wide(w[1]), Wide(w[2]), Wide(w[3])) == Word(w)
  {
    hide Le, Wide, Xor, Shl8, Tiny;
    WideSmall(w[0]);
    WideSmall(w[1]);
    WideSmall(w[2]);
    WideSmall(w[3]);
    LeIsXor(Wide(w[0]), Wide(w[1]), Wide(w[2]), Wide(w[3]));
    var a, b, c := w[1..], w[2..], w[3..];
    assert a[1..] == b && b[1..] == c && c[1..] == [];
    assert Word(c) == Xor(Wide(w[3]), Shl8(Word([]))) && Word([]) == 0;
    assert Word(b) == Xor(Wide(w[2]), Shl8(Word(c)));
    assert Word(a) == Xor(Wide(w[1]), Shl8(Word(b)));
  }

  /** cmq_checksum_consume: the payload length, or a refusal. */
  method Consume(checksummed: bool, wire: Data) returns (r: Option<nat>)
    ensures r == if !checksummed then Some(|wire|) else if Sealed(wire) then Some(|wire| - 4) else None
  {
    hide Crc, Word, Le, Wide;
    if !checksummed { return Some(|wire|); }
    if |wire| < 4 { return None; }
    var n := |wire| - 4;
    var expected := Le(Wide(wire[n]), Wide(wire[n + 1]), Wide(wire[n + 2]), Wide(wire[n + 3]));
    assert expected == Word(wire[n..]) by { LeIsWord(wire[n..]); }
    var got := Checksum(0, wire[..n]);
    r := if expected == got then Some(n) else None;
  }

  // ---- the register over a whole sealed message is a constant ----

  function Low8(r: bv32): bv32 { r & 0xFF }
  predicate Three(y: bv32) { y < 0x1000000 }

  /** The low byte and what is above it. */
  lemma Extract(a: bv32, y: bv32)
    requires Tiny(a) && Three(y)
    ensures Low8(Xor(a, Shl8(y))) == a && Shr8(Xor(a, Shl8(y))) == y
  {
  }

  function Mask(k: nat): bv32 {
    if k == 0 then 0 else if k == 1 then 1 else if k == 2 then 3 else if k == 3 then 7 else if k == 4 then 15
    else if k == 5 then 31 else if k == 6 then 63 else if k == 7 then 127 else 255
  }

  predicate Same(k: nat, p: bv32, q: bv32) { p & Mask(k) == q & Mask(k) }

  lemma SameStep(k: nat, p: bv32, q: bv32)
    requires 1 <= k <= 8 && Same(k, p, q)
    ensures LowBit(p) == LowBit(q) && Same(k - 1, Half(p), Half(q))
  {
  }

  lemma {:induction false} SameBits(k: nat, p: bv32, q: bv32)
    requires k <= 8 && Same(k, p, q)
    ensures BitsOf(k, p) == BitsOf(k, q)
  {
    hide Half, LowBit, Same;
    if k > 0 {
      SameStep(k, p, q);
      SameBits(k - 1, Half(p), Half(q));
    }
  }

  lemma LowSame(r: bv32)
    ensures Same(8, r, Low8(r))
  {
  }

  /** What is spent after three bytes is below 2^24. */
  lemma SpentThree(k: nat, y: bv32)
    requires k <= 3 && Spent(8 * k, y)
    ensures Three(y)
  {
    var a := Shr8(y);
    var b := Shr8(a);
    SpentByte(k, y);
    if k > 1 { SpentByte(k - 1, a); }
    if k > 2 { SpentByte(k - 2, b); }
    Topless(y, a, b, Shr8(b));
  }

  lemma SpentByte(k: nat, y: bv32)
    requires Spent(8 * k, y)
    ensures if k == 0 then y == 0 else Spent(8 * (k - 1), Shr8(y))
  {
    hide Half;
    if k > 0 {
      BitsAdd(8, 8 * (k - 1), y);
      EightHalves(y);
    }
  }

  lemma Topless(y: bv32, a: bv32, b: bv32, c: bv32)
    requires a == Shr8(y) && b == Shr8(a) && c == Shr8(b) && (y == 0 || a == 0 || b == 0 || c == 0)
    ensures Three(y)
  {
  }

  /** The bits of up to four bytes are those of their word. */
  lemma {:induction false} BitsOfWord(t: Data)
    requires |t| <= 4
    ensures BitsOf(8 * |t|, Word(t)) == WordBits(t) && Spent(8 * |t|, Word(t))
    decreases |t|
  {
    if t != [] {
      hide Half, LowBit, Wide, Xor, Shl8, Shr8, Low8, Three, Tiny, Same, BitsOf, Spent;
      var y, b, n := Word(t[1..]), Wide(t[0]), |t| - 1;
      BitsOfWord(t[1..]);
      SpentThree(n, y);
      WideSmall(t[0]);
      Extract(b, y);
      var r := Xor(b, Shl8(y));
      EightHalves(r);
      BitsAdd(8, 8 * n, r);
      LowSame(r);
      SameBits(8, r, b);
    }
  }

  /** Four bytes turn the register with their word mixed in at once. */
  lemma RawOfWord(c: bv32, t: Data)
    requires |t| == 4
    ensures Raw(c, t) == Turns(32, Xor(c, Word(t)))
  {
    hide Raw, Serial, WordBits, BitsOf, Spent, Turns, Xor, Word;
    InstructionIsBytes(c, t);
    BitsOfWord(t);
    SerialIsTurns(32, c, Word(t));
  }

  function Residue(): bv32 { Turns(32, 0xFFFFFFFF) }

  lemma FlipIff(r: bv32, w: bv32)
    ensures w == Flip(r) <==> Xor(r, w) == 0xFFFFFFFF
  {
    Opposite(r);
    hide Flip, Xor;
    if Xor(r, w) == 0xFFFFFFFF { XorSame(r, w, Flip(r)); }
  }

  lemma Opposite(r: bv32)
    ensures Xor(r, Flip(r)) == 0xFFFFFFFF
  {
  }

  lemma CrcIsFlip(data: Data)
    ensures Crc(0, data) == Flip(Raw(Flip(0), data))
  {
    hide ByteStep;
  }

  /** A message is sealed exactly when the register over all of it is that constant. */
  lemma SealedIff(wire: Data)
    requires |wire| >= 4
    ensures Sealed(wire) <==> Raw(Flip(0), wire) == Residue()
  {
    var n := |wire| - 4;
    var a, t := wire[..n], wire[n..];
    CrcIsFlip(a);
    hide Raw, Crc, Flip, Word, Turns, Xor;
    var r := Raw(Flip(0), a);
    assert wire == a + t;
    RawAppend(Flip(0), a, t);
    RawOfWord(r, t);
    FlipIff(r, Word(t));
    if Turns(32, Xor(r, Word(t))) == Turns(32, 0xFFFFFFFF) { TurnsInjective(32, Xor(r, Word(t)), 0xFFFFFFFF); }
  }

  /** So a sealed message with a burst of up to 32 changed bits anywhere, trailer included, is refused. */
  lemma BurstIsRejected(a: Data, b: Data, x: seq<bool>, v: seq<bool>, w: seq<bool>, y: seq<bool>)
    requires Sealed(a) && WordBits(a) == x + v + y && WordBits(b) == x + w + y && |v| == |w| <= 32 && v != w
    ensures !Sealed(b)
  {
    hide WordBits, Crc, Word, Raw, Flip, Residue;
    WordBitsLength(a);
    WordBitsLength(b);
    SealedIff(a);
    SealedIff(b);
    BurstIsSeen(0, a, b, x, v, w, y);
    CrcIsFlip(a);
    CrcIsFlip(b);
  }

  // ---- the check value ----

  lemma EightTurns(c: bv32)
    ensures Turns(8, c) == Turn(Turn(Turn(Turn(Turn(Turn(Turn(Turn(c))))))))
  {
    hide Turn;
    assert Turns(1, c) == Turn(c);
    assert Turns(3, c) == Turn(Turn(Turn(c)));
    assert Turns(5, c) == Turn(Turn(Turns(3, c)));
    assert Turns(7, c) == Turn(Turn(Turns(5, c)));
  }

  /** The register after each of the digits 1 to 9. */
  lemma DigitSteps()
    ensures ByteStep(0xFFFFFFFF, 0x31) == 0x6F0A661C
    ensures ByteStep(0x6F0A661C, 0x32) == 0x8CAA3B9F
    ensures ByteStep(0x8CAA3B9F, 0x33) == 0xEF84D04D
    ensures ByteStep(0xEF84D04D, 0x34) == 0x09C50B11
    ensures ByteStep(0x09C50B11, 0x35) == 0xE72EDCCA
    ensures ByteStep(0xE72EDCCA, 0x36) == 0xBECA8E79
    ensures ByteStep(0xBECA8E79, 0x37) == 0xEDBD6815
    ensures ByteStep(0xEDBD6815, 0x38) == 0x9F787F65
    ensures ByteStep(0x9F787F65, 0x39) == 0x1CF96D7C
  {
    EightTurns(0xFFFFFFCE);
    EightTurns(0x6F0A662E);
    EightTurns(0x8CAA3BAC);
    EightTurns(0xEF84D079);
    EightTurns(0x09C50B24);
    EightTurns(0xE72EDCFC);
    EightTurns(0xBECA8E4E);
    EightTurns(0xEDBD682D);
    EightTurns(0x9F787F5C);
    assert Xor(0xFFFFFFFF, Wide(0x31)) == 0xFFFFFFCE;
    assert Xor(0x6F0A661C, Wide(0x32)) == 0x6F0A662E;
    assert Xor(0x8CAA3B9F, Wide(0x33)) == 0x8CAA3BAC;
    assert Xor(0xEF84D04D, Wide(0x34)) == 0xEF84D079;
    assert Xor(0x09C50B11, Wide(0x35)) == 0x09C50B24;
    assert Xor(0xE72EDCCA, Wide(0x36)) == 0xE72EDCFC;
    assert Xor(0xBECA8E79, Wide(0x37)) == 0xBECA8E4E;
    assert Xor(0xEDBD6815, Wide(0x38)) == 0xEDBD682D;
    assert Xor(0x9F787F65, Wide(0x39)) == 0x9F787F5C;
  }

  /** "123456789" has the check value that is published for CRC32C. */
  lemma CheckValue()
    ensures Crc(0, [0x31, 0x32, 0x33, 0x34, 0x35, 0x36, 0x37, 0x38, 0x39]) == 0xE3069283
  {
    DigitSteps();
    hide ByteStep;
    assert [0x31, 0x32, 0x33, 0x34, 0x35, 0x36, 0x37, 0x38, 0x39][1..] ==
        [0x32, 0x33, 0x34, 0x35, 0x36, 0x37, 0x38, 0x39];
    assert [0x32, 0x33, 0x34, 0x35, 0x36, 0x37, 0x38, 0x39][1..] == [0x33, 0x34, 0x35, 0x36, 0x37, 0x38, 0x39];
    assert [0x33, 0x34, 0x35, 0x36, 0x37, 0x38, 0x39][1..] == [0x34, 0x35, 0x36, 0x37, 0x38, 0x39];
    assert [0x34, 0x35, 0x36, 0x37, 0x38, 0x39][1..] == [0x35, 0x36, 0x37, 0x38, 0x39];
    assert [0x35, 0x36, 0x37, 0x38, 0x39][1..] == [0x36, 0x37, 0x38, 0x39];
    assert [0x36, 0x37, 0x38, 0x39][1..] == [0x37, 0x38, 0x39];
    assert [0x37, 0x38, 0x39][1..] == [0x38, 0x39];
    assert [0x38, 0x39][1..] == [0x39];
  }
}
