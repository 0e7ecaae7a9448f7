/**
 * What the Huffman decoder of src/server/cmq_hpack.c does when its 64-bit accumulator is too
 * small. With the table of RFC 7541 Appendix B this happens exactly after 30 ones that no text
 * has: then bits of the input fall out at the top, and the decoder goes on with a symbol the
 * input does not have, or shifts by 64 and more, which the language leaves undefined.
 */
module HuffmanOverrun {
  import opened Common
  import opened Bits
  import opened Huffman
  import opened HuffmanTable

  // ---- texts that start the same bits ----

  lemma {:induction false} StreamsComparable(t: Table, bs: BitString, x: seq<Byte>, y: seq<Byte>)
    requires Good(t) && Stream(t, x) <= bs && Stream(t, y) <= bs
    ensures x <= y || y <= x
    decreases |x|
  {
    hide CodeBits, PrefixFree;
    if x != [] {
      var k := |x| - 1;
      var z := x[..k];
      StreamSnoc(t, x);
      hide Stream, Good;
      PrefixParts(Stream(t, z), CodeBits(t, x[k]), bs);
      StreamsComparable(t, bs, z, y);
      if k < |y| {
        SplitAt(z, y, k);
        SameNext(t, bs, z, x[k], y[k..]);
      }
      LongerBy(x, y, k);
    }
  }

  lemma SplitAt(z: seq<Byte>, y: seq<Byte>, k: nat)
    requires |z| == k <= |y| && (z <= y || y <= z)
    ensures y == z + y[k..]
  {
  }

  lemma LongerBy(x: seq<Byte>, y: seq<Byte>, k: nat)
    requires |x| == k + 1 && (x[..k] <= y || y <= x[..k]) && (k < |y| ==> y[k] == x[k])
    ensures x <= y || y <= x
  {
    if k < |y| { assert x == x[..k] + [x[k]]; }
  }

  lemma SameNext(t: Table, bs: BitString, z: seq<Byte>, a: Byte, rest: seq<Byte>)
    requires Good(t) && rest != [] && Stream(t, z) + CodeBits(t, a) <= bs && Stream(t, z + rest) <= bs
    ensures rest[0] == a
  {
    hide Stream, CodeBits, PrefixFree;
    NextCode(t, bs, z, rest);
    PrefixParts(Stream(t, z), CodeBits(t, a), bs);
    SameSymbol(t, a, rest[0], bs[|Stream(t, z)|..]);
  }

  /** After the codes of a text's first part come those of the rest. */
  lemma NextCode(t: Table, bs: BitString, z: seq<Byte>, rest: seq<Byte>)
    requires WellSized(t) && rest != [] && Stream(t, z + rest) <= bs
    ensures |Stream(t, z)| <= |bs| && CodeBits(t, rest[0]) <= bs[|Stream(t, z)|..]
  {
    hide Stream, CodeBits;
    StreamAppend(t, z, rest);
    StreamHead(t, rest);
    var a, c := Stream(t, z), CodeBits(t, rest[0]);
    assert a + c <= a + Stream(t, rest) by { assert c <= Stream(t, rest); }
    PrefixParts(a, c, bs);
  }

  /** Where 30 bits and more start with no code, no longer text starts the bits. */
  lemma StuckBound(t: Table, bs: BitString, x: seq<Byte>, p: BitString, y: seq<Byte>)
    requires Good(t) && Stream(t, x) + p <= bs && NoHead(t, p) && |p| >= 30 && Stream(t, y) <= bs
    ensures y <= x
  {
    hide Stream, CodeBits, PrefixFree;
    PrefixParts(Stream(t, x), p, bs);
    StreamsComparable(t, bs, x, y);
    if |x| < |y| {
      var rest := y[|x|..];
      assert y == x + rest;
      NextCode(t, bs, x, rest);
      CodeLength(t, rest[0]);
      Comparable(CodeBits(t, rest[0]), p, bs[|Stream(t, x)|..]);
      assert false;
    }
  }

  /** One reading of the same bits: the text is as long as it can be. */
  lemma ReadingUnique(t: Table, bs: BitString, x: seq<Byte>, p: BitString, y: seq<Byte>, q: BitString)
    requires Good(t) && Reading(t, bs, x, p) && NoHead(t, p) && Reading(t, bs, y, q) && NoHead(t, q)
    ensures x == y && p == q
  {
    hide Stream, CodeBits, PrefixFree, NoHead;
    StreamsComparable(t, bs, x, y);
    if x <= y { NotLonger(t, bs, x, p, y); } else { NotLonger(t, bs, y, q, x); }
    assert p == bs[|Stream(t, x)|..] && q == bs[|Stream(t, y)|..];
  }

  lemma NotLonger(t: Table, bs: BitString, x: seq<Byte>, p: BitString, y: seq<Byte>)
    requires WellSized(t) && Reading(t, bs, x, p) && NoHead(t, p) && x <= y && Stream(t, y) <= bs
    ensures x == y
  {
    hide Stream, CodeBits, NoHead;
    if |x| < |y| {
      var rest := y[|x|..];
      assert y == x + rest;
      NextCode(t, bs, x, rest);
      assert bs[|Stream(t, x)|..] == p;
      HasHead(t, p, rest[0]);
      assert false;
    }
  }

  // ---- one byte too many ----

  /** The symbol whose code is so many zeros and then ones. */
  function Spurious(m: nat): Byte {
    if m == 1 then 57 else if m == 2 then 111 else if m == 3 then 97 else if m == 4 then 49 else 48
  }

  lemma SpuriousCode(m: nat, q: BitString)
    requires WellSized(AppendixB()) && 1 <= m <= 8 && |q| >= 30 && q[..30] == Zeros(m) + Ones(30 - m)
    ensures CodeBits(AppendixB(), Spurious(m)) <= q
    ensures 5 <= AppendixB()[Spurious(m)].len <= 6 && (m >= 2 ==> AppendixB()[Spurious(m)].len == 5)
  {
    SpuriousIs(m);
    hide Spurious;
    var b, n := q[..30], AppendixB()[Spurious(m)].len;
    assert forall i :: 0 <= i < 6 ==> q[i] == b[i] && b[i] == (i >= m);
    var c := CodeBits(AppendixB(), Spurious(m));
    hide CodeBits, AppendixB;
    assert forall i :: 0 <= i < n ==> c[i] == q[i];
  }

  lemma SpuriousIs(m: nat)
    requires WellSized(AppendixB()) && 1 <= m <= 8
    ensures var n, c := AppendixB()[Spurious(m)].len, CodeBits(AppendixB(), Spurious(m));
            5 <= n == |c| <= 6 && (m >= 2 ==> n == 5) && forall i :: 0 <= i < n ==> c[i] == (i >= m)
  {
    assert CodeOf(57) == Code(0x1f, 6) && CodeOf(111) == Code(0x7, 5) && CodeOf(97) == Code(0x3, 5);
    assert CodeOf(49) == Code(0x1, 5) && CodeOf(48) == Code(0x0, 5);
    hide CodeOf;
    ShortCodes();
    hide BitsOf;
  }

  lemma ShortCodes()
    ensures BitsOf(0x1f, 6) == [false, true, true, true, true, true]
    ensures BitsOf(0x7, 5) == [false, false, true, true, true]
    ensures BitsOf(0x3, 5) == [false, false, false, true, true]
    ensures BitsOf(0x1, 5) == [false, false, false, false, true]
    ensures BitsOf(0x0, 5) == [false, false, false, false, false]
  {
    OneBit();
    hide BitsOf;
    Digit(0x0, 1);
    Digit(0x0, 2);
    Digit(0x0, 3);
    Digit(0x0, 4);
    Digit(0x1, 2);
    Digit(0x1, 3);
    Digit(0x1, 4);
    Digit(0x1, 1);
    Digit(0x3, 2);
    Digit(0x3, 3);
    Digit(0x3, 4);
    Digit(0x7, 3);
    Digit(0x7, 4);
    Digit(0xf, 4);
    Digit(0x1f, 5);
  }

  lemma OneBit()
    ensures BitsOf(0, 1) == [false] && BitsOf(1, 1) == [true]
  {
  }

  lemma Digit(v: nat, n: nat)
    ensures BitsOf(v, n + 1) == BitsOf(v / 2, n) + [v % 2 == 1]
  {
  }

  /** Stuck bits with a byte more: what is lost at the top are ones that now read as zeros. */
  lemma LostOnes(p: BitString, c: Byte)
    requires 56 < |p| <= 64 && AllOnes(p[..30])
    ensures var q := Clip(p + BitsOf(c, 8)); var m := |p| - 56;
            |q| == 64 + m && q[..30] == Zeros(m) + Ones(30 - m) && q[m..] == (p + BitsOf(c, 8))[m..]
  {
    hide BitsOf;
    var m, w := |p| - 56, p + BitsOf(c, 8);
    var q := Clip(w);
    assert q == Zeros(m) + w[m..];
    assert forall i :: m <= i < 30 ==> q[i] == w[i] && w[i] == p[..30][i];
    assert forall i :: 0 <= i < 30 ==> q[..30][i] == (Zeros(m) + Ones(30 - m))[i];
  }

  /** A scan that reaches a code short enough for a shift of 64 is undefined. */
  lemma {:induction false} ScanUndefined(t: Table, q: BitString, s: nat, u: Byte)
    requires WellSized(t) && s <= u && |q| >= t[u].len + ACC_BITS
    requires forall a: Byte :: a < u ==> !(CodeBits(t, a) <= q)
    ensures Scan(t, q, s) == Hit.Undefined
    decreases u - s
  {
    hide CodeBits;
    if s < u { ScanUndefined(t, q, s + 1, u); }
  }

  /** A byte for a decoder with more than 60 pending bits: undefined. */
  lemma WideOverrun(x: seq<Byte>, p: BitString, c: Byte, cap: nat)
    requires Good(AppendixB()) && NoHead(AppendixB(), p) && 60 < |p| <= 64
    ensures Feed(AppendixB(), Going(x, p), c, cap) == Stopped(Decoding.Undefined)
  {
    hide CodeBits, NoHead, PrefixFree, BitsOf, AppendixB, Scan, Clip;
    var t, q, m := AppendixB(), Clip(p + BitsOf(c, 8)), |p| - 56;
    StuckIsOnes(p);
    LostOnes(p, c);
    SpuriousCode(m, q);
    forall a: Byte | a < 48 ensures !(CodeBits(t, a) <= q) {
      if CodeBits(t, a) <= q { SameSymbol(t, a, 48, q); }
    }
    ScanUndefined(t, q, 0, 48);
  }

  /** With 57 to 60: a symbol that the input does not have, and its bits are gone from the input. */
  lemma NarrowOverrun(x: seq<Byte>, p: BitString, c: Byte, cap: nat)
    requires Good(AppendixB()) && NoHead(AppendixB(), p) && 56 < |p| <= 60
    ensures var s := Spurious(|p| - 56); var n := AppendixB()[s].len;
            5 <= n <= 6 &&
            Feed(AppendixB(), Going(x, p), c, cap) ==
            if |x| + 1 >= cap then Stopped(Malformed)
            else Take(AppendixB(), x + [s], (p + BitsOf(c, 8))[n..], cap)
  {
    hide CodeBits, NoHead, PrefixFree, BitsOf, AppendixB, Scan, Clip;
    var t, w, m := AppendixB(), p + BitsOf(c, 8), |p| - 56;
    var q, s := Clip(w), Spurious(m);
    var n := t[s].len;
    StuckIsOnes(p);
    LostOnes(p, c);
    SpuriousCode(m, q);
    ScanFinds(t, q, s);
    TakeOne(t, x, q, s, cap);
    assert q[n..] == q[m..][n - m..] == w[m..][n - m..] == w[n..];
  }

  lemma TakeOne(t: Table, x: seq<Byte>, q: BitString, s: Byte, cap: nat)
    requires WellSized(t) && Scan(t, q, 0) == At(s) && |q| >= t[s].len
    ensures Take(t, x, q, cap) == if |x| + 1 >= cap then Stopped(Malformed) else Take(t, x + [s], q[t[s].len..], cap)
  {
    hide Scan;
  }

  /** With up to 56 nothing is lost. */
  lemma NoOverrun(t: Table, x: seq<Byte>, p: BitString, c: Byte, cap: nat)
    requires WellSized(t) && |p| <= 56
    ensures Feed(t, Going(x, p), c, cap) == Take(t, x, p + BitsOf(c, 8), cap)
  {
    hide Take, BitsOf;
  }

  // ---- whole runs ----

  /** The loop only adds to the text, shortens the bits, and stops where no code starts them. */
  lemma {:induction false} TakeOk(t: Table, x: seq<Byte>, p: BitString, cap: nat)
    requires WellSized(t) && |p| < ACC_BITS + 5
    ensures var st := Take(t, x, p, cap);
            if st.Stopped? then st.outcome == Malformed
            else x <= st.text && |st.pending| <= |p| && NoHead(t, st.pending)
    decreases |p|
  {
    hide Scan, CodeBits, NoHead;
    ScanIs(t, p, 0);
    ScanStuck(t, p);
    if Scan(t, p, 0).At? {
      var s := Scan(t, p, 0).symbol;
      CodeLength(t, s);
      TakeOne(t, x, p, s, cap);
      TakeOk(t, x + [s], p[t[s].len..], cap);
    }
  }

  ghost predicate StateOk(st: State)
    requires WellSized(AppendixB())
  {
    st.Going? ==> NoHead(AppendixB(), st.pending) && |st.pending| <= ACC_BITS
  }

  /** A byte adds to the text, and past 56 pending bits a symbol the input does not have. */
  lemma FeedOk(x: seq<Byte>, p: BitString, c: Byte, cap: nat)
    requires Good(AppendixB()) && StateOk(Going(x, p))
    ensures var st := Feed(AppendixB(), Going(x, p), c, cap);
            && StateOk(st) && (st.Going? ==> x <= st.text && (|p| > 56 ==> |x| < |st.text|))
            && (st == Stopped(Decoding.Undefined) <==> |p| > 60)
  {
    hide NoHead, PrefixFree, BitsOf, AppendixB, Take, Feed;
    if |p| > 60 {
      WideOverrun(x, p, c, cap);
    } else if |p| > 56 {
      NarrowOverrun(x, p, c, cap);
      var s := Spurious(|p| - 56);
      TakeOk(AppendixB(), x + [s], (p + BitsOf(c, 8))[AppendixB()[s].len..], cap);
    } else {
      NoOverrun(AppendixB(), x, p, c, cap);
      TakeOk(AppendixB(), x, p + BitsOf(c, 8), cap);
    }
  }

  lemma EmptyStuck(t: Table)
    requires WellSized(t)
    ensures NoHead(t, [])
  {
    hide CodeBits;
    forall s: Byte ensures !(CodeBits(t, s) <= []) { CodeLength(t, s); }
  }

  lemma {:induction false} RunOk(input: seq<Byte>, i: nat, cap: nat)
    requires Good(AppendixB()) && i <= |input|
    ensures StateOk(Run(AppendixB(), input[..i], cap))
    decreases i
  {
    hide NoHead, PrefixFree, AppendixB, Feed;
    if i == 0 {
      EmptyStuck(AppendixB());
    } else {
      RunOk(input, i - 1, cap);
      RunSnoc(AppendixB(), input, i - 1, cap);
      hide Run;
      var st := Run(AppendixB(), input[..i - 1], cap);
      if st.Going? {
        FeedOk(st.text, st.pending, input[i - 1], cap);
      } else {
        StoppedFeed(AppendixB(), st, input[i - 1], cap);
      }
    }
  }

  lemma StoppedFeed(t: Table, st: State, c: Byte, cap: nat)
    requires WellSized(t) && st.Stopped?
    ensures Feed(t, st, c, cap) == st
  {
    hide Take;
  }

  /** More than 60 bits are pending before some byte. */
  ghost predicate Wide(input: seq<Byte>, cap: nat, i: nat)
    requires WellSized(AppendixB())
  {
    i < |input| && var st := Run(AppendixB(), input[..i], cap); st.Going? && |st.pending| > 60
  }

  /** The decoder shifts by 64 or more exactly when a byte comes with more than 60 bits pending. */
  lemma {:induction false} UndefinedIff(input: seq<Byte>, j: nat, cap: nat)
    requires Good(AppendixB()) && j <= |input|
    ensures Run(AppendixB(), input[..j], cap) == Stopped(Decoding.Undefined) <==>
            exists i: nat :: i < j && Wide(input, cap, i)
    decreases j
  {
    hide NoHead, PrefixFree, AppendixB, Feed;
    if j == 0 {
      assert Run(AppendixB(), input[..0], cap) == Going([], []);
    } else {
      UndefinedIff(input, j - 1, cap);
      RunOk(input, j - 1, cap);
      RunSnoc(AppendixB(), input, j - 1, cap);
      hide Run;
      var st := Run(AppendixB(), input[..j - 1], cap);
      if st.Going? {
        FeedOk(st.text, st.pending, input[j - 1], cap);
        assert Wide(input, cap, j - 1) <==> |st.pending| > 60;
      } else {
        StoppedFeed(AppendixB(), st, input[j - 1], cap);
        assert !Wide(input, cap, j - 1);
        assert st == Stopped(Malformed) ==> !exists i: nat :: i < j && Wide(input, cap, i);
      }
    }
  }

  // ---- exactly when the decoder follows its input ----

  /** Once led astray, a run stays so: it has stopped, or has more text than the input. */
  lemma {:induction false} StaysAstray(input: seq<Byte>, i: nat, j: nat, cap: nat, n: nat)
    requires Good(AppendixB()) && i <= j <= |input|
    requires var st := Run(AppendixB(), input[..i], cap); st.Going? ==> |st.text| > n
    ensures var st := Run(AppendixB(), input[..j], cap); st.Going? ==> |st.text| > n
    decreases j
  {
    hide NoHead, PrefixFree, AppendixB, Feed, Run;
    if i < j {
      StaysAstray(input, i, j - 1, cap, n);
      RunOk(input, j - 1, cap);
      RunSnoc(AppendixB(), input, j - 1, cap);
      var st := Run(AppendixB(), input[..j - 1], cap);
      if st.Going? {
        FeedOk(st.text, st.pending, input[j - 1], cap);
      } else {
        StoppedFeed(AppendixB(), st, input[j - 1], cap);
      }
    }
  }

  /** Of the bytes that overrun there is a first. */
  lemma {:induction false} FirstOverrun(t: Table, input: seq<Byte>, cap: nat, n: nat) returns (i: nat)
    requires WellSized(t)
    requires exists k: nat, x: seq<Byte>, p: BitString :: k < n && OverrunAt(t, input, cap, k, x, p)
    ensures i < n && exists x: seq<Byte>, p: BitString :: OverrunAt(t, input, cap, i, x, p)
    ensures forall k: nat, x: seq<Byte>, p: BitString :: k < i ==> !OverrunAt(t, input, cap, k, x, p)
    decreases n
  {
    hide OverrunAt;
    if k: nat, x: seq<Byte>, p: BitString :| k < n - 1 && OverrunAt(t, input, cap, k, x, p) {
      i := FirstOverrun(t, input, cap, n - 1);
    } else {
      i := n - 1;
    }
  }

  /** Before the first such byte the run is where the input is. */
  lemma AtOverrun(t: Table, input: seq<Byte>, cap: nat, i: nat, x: seq<Byte>, p: BitString)
    requires Good(t) && OverrunAt(t, input, cap, i, x, p)
    requires forall k: nat, y: seq<Byte>, q: BitString :: k < i ==> !OverrunAt(t, input, cap, k, y, q)
    ensures Run(t, input[..i], cap) == Going(x, p)
  {
    hide Stream, CodeBits, PrefixFree, NoHead, Unpack, Run;
    RunFollows(t, input, i, cap);
    var st, bs := Run(t, input[..i], cap), Unpack(input[..i]);
    if st.Stopped? {
      var y: seq<Byte> :| |y| >= cap && Stream(t, y) <= bs;
      StuckBound(t, bs, x, p, y);
      assert false;
    } else {
      ReadingUnique(t, bs, x, p, st.text, st.pending);
    }
  }

  /** No text that does not fit starts bits that are stuck. */
  lemma StuckNotFollowed(t: Table, input: seq<Byte>, cap: nat, i: nat, x: seq<Byte>, p: BitString, st: State)
    requires Good(t) && OverrunAt(t, input, cap, i, x, p) && (st.Going? ==> |st.text| > |x|)
    ensures !Follows(t, input, cap, st)
  {
    hide Stream, CodeBits, PrefixFree, NoHead, Unpack;
    UnpackPrefix(input, i);
    if Follows(t, input, cap, st) {
      if st.Going? {
        StuckBound(t, Unpack(input), x, p, st.text);
      } else {
        var y: seq<Byte> :| |y| >= cap && Stream(t, y) <= Unpack(input);
        StuckBound(t, Unpack(input), x, p, y);
      }
      assert false;
    }
  }

  /**
   * The decoder's text and pending bits are those of the input exactly when no byte of the
   * input overruns the accumulator.
   */
  lemma FollowsIff(input: seq<Byte>, cap: nat)
    requires Good(AppendixB()) && cap > 0
    ensures Follows(AppendixB(), input, cap, Run(AppendixB(), input, cap)) <==> !Overruns(AppendixB(), input, cap)
  {
    hide PrefixFree, AppendixB, Feed, Run, OverrunAt, Follows;
    var t := AppendixB();
    assert input[..|input|] == input;
    if Overruns(t, input, cap) {
      InRange(t, input, cap);
      var i := FirstOverrun(t, input, cap, |input|);
      var x: seq<Byte>, p: BitString :| OverrunAt(t, input, cap, i, x, p);
      AtOverrun(t, input, cap, i, x, p);
      RunOk(input, i, cap);
      RunSnoc(t, input, i, cap);
      WidthOf(t, input, cap, i, x, p);
      FeedOk(x, p, input[i], cap);
      StaysAstray(input, i + 1, |input|, cap, |x|);
      StuckNotFollowed(t, input, cap, i, x, p, Run(t, input, cap));
    } else {
      RunFollows(t, input, |input|, cap);
    }
  }

  lemma InRange(t: Table, input: seq<Byte>, cap: nat)
    requires WellSized(t) && Overruns(t, input, cap)
    ensures exists k: nat, x: seq<Byte>, p: BitString :: k < |input| && OverrunAt(t, input, cap, k, x, p)
  {
  }

  lemma WidthOf(t: Table, input: seq<Byte>, cap: nat, i: nat, x: seq<Byte>, p: BitString)
    requires WellSized(t) && OverrunAt(t, input, cap, i, x, p)
    ensures i < |input| && |p| > 56
  {
  }

  // ---- two inputs ----

  lemma {:induction false} RunOnes(n: nat, cap: nat)
    requires Good(AppendixB()) && n <= 8
    ensures Run(AppendixB(), seq(n, i => 255), cap) == Going([], Ones(8 * n))
  {
    hide PrefixFree, AppendixB, Take, NoHead, CodeBits;
    if n == 0 {
      assert Ones(0) == [];
    } else {
      var s := seq(n, i => 255);
      assert s[..n - 1] == seq(n - 1, i => 255);
      RunOnes(n - 1, cap);
      OnesByte();
      assert Ones(8 * (n - 1)) + Ones(8) == Ones(8 * n);
      OnesStuck(AppendixB(), Ones(8 * n));
      TakeStuck(AppendixB(), [], Ones(8 * n), cap);
      NoOverrun(AppendixB(), [], Ones(8 * (n - 1)), 255, cap);
    }
  }

  lemma OnesByte()
    ensures BitsOf(255, 8) == Ones(8)
  {
    assert BitsOf(255, 8) == [true, true, true, true, true, true, true, true];
  }

  lemma TakeStuck(t: Table, x: seq<Byte>, p: BitString, cap: nat)
    requires WellSized(t) && NoHead(t, p) && |p| < ACC_BITS + 5
    ensures Take(t, x, p, cap) == Going(x, p)
  {
    hide Scan, NoHead;
    ScanStuck(t, p);
  }

  /** Nine bytes of ones, and more after them, make the decoder shift by 64 and more. */
  lemma OnesUndefined(rest: seq<Byte>, cap: nat)
    requires cap > 0
    ensures WellSized(AppendixB()) && Decode(AppendixB(), seq(9, i => 255) + rest, cap) == Decoding.Undefined
  {
    hide PrefixFree, AppendixB, Run, NoHead, Feed;
    AppendixBIsGood();
    var input := seq(9, i => 255) + rest;
    assert input[..8] == seq(8, i => 255);
    RunOnes(8, cap);
    RunOk(input, 8, cap);
    RunSnoc(AppendixB(), input, 8, cap);
    WideOverrun([], Ones(64), 255, cap);
    StoppedStays(AppendixB(), input, 9, cap);
  }

  /** The codes of the second input. */
  lemma CodesUsed()
    requires WellSized(AppendixB())
    ensures CodeBits(AppendixB(), 48) == Zeros(5) && AppendixB()[48].len == 5
    ensures CodeBits(AppendixB(), 97) == Zeros(3) + Ones(2) && AppendixB()[97].len == 5
    ensures CodeBits(AppendixB(), 28) == Ones(25) + Zeros(3) && AppendixB()[28].len == 28
  {
    assert CodeOf(48) == Code(0, 5) && CodeOf(97) == Code(3, 5) && CodeOf(28) == Code(0xffffff8, 28);
    hide CodeOf;
    assert BitsOf(0, 5) == [false, false, false, false, false];
    assert BitsOf(3, 5) == [false, false, false, true, true];
    ManyOnes();
  }

  lemma ManyOnes()
    ensures BitsOf(0xffffff8, 28) == Ones(25) + Zeros(3)
  {
    var b := Ones(25) + Zeros(3);
    ValAppend(Ones(25), Zeros(3));
    ValOnes(25);
    ValZeros(3);
    PowAdd(25, 3);
    assert Pow2(3) == 8;
    Pow25();
    hide Val, Pow2, BitsOf;
    BitsOfVal(b);
  }

  lemma Pow25()
    ensures Pow2(25) == 0x200_0000
  {
    hide Pow2;
    Pow8();
    PowAdd(8, 8);
    PowAdd(16, 8);
    PowAdd(24, 1);
    assert Pow2(1) == 2 by { OnePower(); }
  }

  lemma OnePower()
    ensures Pow2(1) == 2
  {
  }

  /** A byte that leaves the decoder stuck. */
  lemma StuckByte(input: seq<Byte>, i: nat, cap: nat, x: seq<Byte>, p: BitString, q: BitString)
    requires Good(AppendixB()) && i < |input| && Run(AppendixB(), input[..i], cap) == Going(x, p)
    requires |p| <= 56 && q == p + BitsOf(input[i], 8) && (AllOnes(q) || (|q| >= 30 && AllOnes(q[..30])))
    ensures Run(AppendixB(), input[..i + 1], cap) == Going(x, q)
  {
    hide PrefixFree, AppendixB, Run, Take, Feed, NoHead, CodeBits, BitsOf;
    RunSnoc(AppendixB(), input, i, cap);
    NoOverrun(AppendixB(), x, p, input[i], cap);
    OnesStuck(AppendixB(), q);
    TakeStuck(AppendixB(), x, q, cap);
  }

  /** One symbol off the pending bits. */
  lemma OneSymbol(x: seq<Byte>, p: BitString, s: Byte, q: BitString, cap: nat)
    requires Good(AppendixB()) && p == CodeBits(AppendixB(), s) + q && |p| < 69 && |x| + 1 < cap
    ensures Take(AppendixB(), x, p, cap) == Take(AppendixB(), x + [s], q, cap)
  {
    hide PrefixFree, AppendixB, CodeBits, Scan, Take;
    CodeLength(AppendixB(), s);
    ScanFinds(AppendixB(), p, s);
    TakeOne(AppendixB(), x, p, s, cap);
    assert p[AppendixB()[s].len..] == q;
  }

  function Misread(): seq<Byte> { [0x07, 0xff, 0xff, 0xff, 0xe0, 0x00, 0x00, 0x00, 0x0f] }

  lemma ByteUsed(b: Byte, bs: BitString)
    requires |bs| == 8 && b == Val(bs)
    ensures BitsOf(b, 8) == bs
  {
    BitsOfVal(bs);
  }

  lemma BytesUsed()
    ensures BitsOf(0x07, 8) == Zeros(5) + Ones(3) && BitsOf(0xe0, 8) == Ones(3) + Zeros(5)
    ensures BitsOf(0x00, 8) == Zeros(8) && BitsOf(0x0f, 8) == Zeros(4) + Ones(4)
  {
    SmallPowers();
    ValAppend(Zeros(5), Ones(3));
    ValAppend(Ones(3), Zeros(5));
    ValAppend(Zeros(4), Ones(4));
    hide Val, Pow2, BitsOf, Ones, Zeros;
    ValOnes(3);
    ValOnes(4);
    ValZeros(4);
    ValZeros(5);
    ValZeros(8);
    ByteUsed(0x07, Zeros(5) + Ones(3));
    ByteUsed(0xe0, Ones(3) + Zeros(5));
    ByteUsed(0x00, Zeros(8));
    ByteUsed(0x0f, Zeros(4) + Ones(4));
  }

  lemma SmallPowers()
    ensures Pow2(3) == 8 && Pow2(4) == 16 && Pow2(5) == 32
  {
  }

  /** The first byte: one symbol and three ones. */
  lemma MisreadFirst(cap: nat)
    requires Good(AppendixB()) && cap >= 10
    ensures Run(AppendixB(), Misread()[..1], cap) == Going([48], Ones(3))
  {
    hide PrefixFree, AppendixB, Run, Take, Feed, NoHead, CodeBits, BitsOf;
    CodesUsed();
    BytesUsed();
    RunSnoc(AppendixB(), Misread(), 0, cap);
    assert Run(AppendixB(), Misread()[..0], cap) == Going([], []) by { NothingRead(AppendixB(), Misread(), cap); }
    NoOverrun(AppendixB(), [], [], 0x07, cap);
    assert [] + BitsOf(0x07, 8) == BitsOf(0x07, 8) && [] + [48] == [48];
    OneSymbol([], BitsOf(0x07, 8), 48, Ones(3), cap);
    OnesStuck(AppendixB(), Ones(3));
    TakeStuck(AppendixB(), [48], Ones(3), cap);
  }

  /** Then 30 ones and 29 zeros that no code starts. */
  lemma MisreadStuck(cap: nat)
    requires Good(AppendixB()) && cap >= 10
    ensures Run(AppendixB(), Misread()[..8], cap) == Going([48], Ones(30) + Zeros(29))
  {
    hide PrefixFree, AppendixB, Run;
    BytesUsed();
    OnesByte();
    hide BitsOf;
    MisreadFirst(cap);
    var s := Misread();
    StuckByte(s, 1, cap, [48], Ones(3), Ones(11));
    StuckByte(s, 2, cap, [48], Ones(11), Ones(19));
    StuckByte(s, 3, cap, [48], Ones(19), Ones(27));
    StuckByte(s, 4, cap, [48], Ones(27), Ones(30) + Zeros(5));
    StuckByte(s, 5, cap, [48], Ones(30) + Zeros(5), Ones(30) + Zeros(13));
    StuckByte(s, 6, cap, [48], Ones(30) + Zeros(13), Ones(30) + Zeros(21));
    StuckByte(s, 7, cap, [48], Ones(30) + Zeros(21), Ones(30) + Zeros(29));
  }

  lemma {:induction false} TakeZeros(x: seq<Byte>, n: nat, cap: nat)
    requires Good(AppendixB()) && n <= 6 && |x| + n < cap
    ensures Take(AppendixB(), x, Zeros(5 * n) + Ones(4), cap) == Going(x + seq(n, i => 48), Ones(4))
    decreases n
  {
    hide PrefixFree, AppendixB, Take, NoHead, CodeBits;
    if n == 0 {
      assert Zeros(0) + Ones(4) == Ones(4);
      OnesStuck(AppendixB(), Ones(4));
      TakeStuck(AppendixB(), x, Ones(4), cap);
      assert x + seq(0, i => 48) == x;
    } else {
      CodesUsed();
      assert Zeros(5 * n) + Ones(4) == Zeros(5) + (Zeros(5 * (n - 1)) + Ones(4));
      OneSymbol(x, Zeros(5 * n) + Ones(4), 48, Zeros(5 * (n - 1)) + Ones(4), cap);
      TakeZeros(x + [48], n - 1, cap);
      assert x + [48] + seq(n - 1, i => 48) == x + seq(n, i => 48);
    }
  }

  /** The last byte: three ones are lost, and the rest passes for codes. */
  lemma MisreadLast(cap: nat)
    requires Good(AppendixB()) && cap >= 10
    ensures Feed(AppendixB(), Going([48], Ones(30) + Zeros(29)), 0x0f, cap) ==
            Going([48, 97, 28] + seq(6, i => 48), Ones(4))
  {
    hide PrefixFree, AppendixB, Take, Feed, NoHead, CodeBits;
    CodesUsed();
    BytesUsed();
    hide BitsOf;
    var p := Ones(30) + Zeros(29);
    assert p[..30] == Ones(30);
    OnesStuck(AppendixB(), p);
    NarrowOverrun([48], p, 0x0f, cap);
    var q := Zeros(30) + Ones(4);
    assert (p + BitsOf(0x0f, 8))[5..] == (Ones(25) + Zeros(3)) + q;
    assert [48] + [97] == [48, 97] && [48, 97] + [28] == [48, 97, 28];
    OneSymbol([48, 97], (Ones(25) + Zeros(3)) + q, 28, q, cap);
    TakeZeros([48, 97, 28], 6, cap);
  }

  /** An input that encodes nothing, and the text the decoder makes of it by shifts that are all defined. */
  lemma MisreadIs(cap: nat)
    requires cap >= 10
    ensures Good(AppendixB())
    ensures Decode(AppendixB(), Misread(), cap) == Decoded([48, 97, 28, 48, 48, 48, 48, 48, 48])
    ensures forall y: seq<Byte> :: !Encodes(AppendixB(), Misread(), y)
  {
    hide PrefixFree, AppendixB, Run, Feed, NoHead, CodeBits, Encodes, Reading, OverrunAt;
    AppendixBIsGood();
    var s, t, p := Misread(), AppendixB(), Ones(30) + Zeros(29);
    MisreadStuck(cap);
    RunSnoc(t, s, 8, cap);
    MisreadLast(cap);
    assert s[..9] == s;
    assert [48, 97, 28] + seq(6, i => 48) == [48, 97, 28, 48, 48, 48, 48, 48, 48];
    forall y ensures !Encodes(t, s, y) {
      MisreadOverruns(cap);
      OverrunIsNoText(t, s, cap, y);
    }
  }

  lemma MisreadOverruns(cap: nat)
    requires Good(AppendixB()) && cap >= 10
    ensures Overruns(AppendixB(), Misread(), cap)
  {
    hide PrefixFree, AppendixB, Run, Feed, NoHead, CodeBits, Encodes;
    var t := AppendixB();
    if forall k: nat, x: seq<Byte>, p: BitString :: k < 8 ==> !OverrunAt(t, Misread(), cap, k, x, p) {
      RunFollows(t, Misread(), 8, cap);
      MisreadStuck(cap);
      assert OverrunAt(t, Misread(), cap, 8, [48], Ones(30) + Zeros(29));
    }
  }

  // ---- round trip ----

  /**
   * Encoding and decoding over the table of the standard gives back every text of 1 to 256
   * bytes that fits the two buffers.
   */
  method HuffRoundTrip(text: seq<Byte>, wire: array<Byte>, out: array<Byte>) returns (n: nat, r: Outcome)
    requires wire != out && |text| < out.Length
    modifies wire, out
    ensures WellSized(AppendixB())
    ensures n > 0 <==> 0 < |text| <= STR_MAX && Needed(AppendixB(), text) <= wire.Length
    ensures n > 0 ==> r == Text(|text|) && out[..|text|] == text && out[|text|] == 0
  {
    hide PrefixFree, AppendixB, Encodes, Decode, Needed;
    AppendixBIsGood();
    n := HuffEncode(AppendixB(), text, wire);
    r := Refused;
    if n > 0 {
      var bytes := wire[..n];
      DecodesEncoding(AppendixB(), bytes, text, out.Length);
      r := HuffDecode(AppendixB(), bytes, out);
    }
  }
}
