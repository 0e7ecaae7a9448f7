/**
 * The worked examples of RFC 7541, Appendix C: integers (C.1), and three requests on one
 * connection (C.3), of which each reads what the one before has left in the table.
 */
module HpackExamples {
  import opened Common
  import opened HpackInt
  import opened HpackTable
  import opened HpackHeader
  import opened HpackRecall
  import opened HuffmanTable
  import Huffman
  import opened Bits

  /** C.1: 10 and 1337 with a five-bit prefix, 42 with an eight-bit one. */
  lemma Integers()
    ensures HighBitsOk(0, 5) && HighBitsOk(0, 8)
    ensures EncodeInt(10, 5, 0) == [0x0A] && DecodeInt([0x0A], 5) == Some(Decoded(10, 1))
    ensures EncodeInt(1337, 5, 0) == [0x1F, 0x9A, 0x0A] && DecodeInt([0x1F, 0x9A, 0x0A], 5) == Some(Decoded(1337, 3))
    ensures EncodeInt(42, 8, 0) == [0x2A] && DecodeInt([0x2A], 8) == Some(Decoded(42, 1))
  {
    assert Tail(1306) == [0x9A] + Tail(10) == [0x9A, 0x0A];
    assert EncodeInt(1337, 5, 0) == [0x1F, 0x9A, 0x0A];
    IntRoundTrip(10, 5, 0, []);
    IntRoundTrip(1337, 5, 0, []);
    IntRoundTrip(42, 8, 0, []);
    assert forall s: seq<Byte> :: s + [] == s;
  }

  function Pair(name: string, value: string): Entry { Entry(Ascii(name), Ascii(value)) }

  lemma StaticEntries()
    ensures StaticGet(1) == Some(Pair(":authority", ""))
    ensures StaticGet(2) == Some(Pair(":method", "GET")) && StaticGet(3) == Some(Pair(":method", "POST"))
    ensures StaticGet(4) == Some(Pair(":path", "/")) && StaticGet(5) == Some(Pair(":path", "/index.html"))
    ensures StaticGet(6) == Some(Pair(":scheme", "http")) && StaticGet(7) == Some(Pair(":scheme", "https"))
    ensures StaticGet(8) == Some(Pair(":status", "200")) && StaticGet(24) == Some(Pair("cache-control", ""))
    ensures StaticGet(61) == Some(Pair("www-authenticate", "")) && StaticGet(0).None? && StaticGet(62).None?
  {
    assert |STATIC| == 61;
    assert STATIC[0] == (":authority", "");
    assert STATIC[1] == (":method", "GET");
    assert STATIC[2] == (":method", "POST");
    assert STATIC[3] == (":path", "/");
    assert STATIC[4] == (":path", "/index.html");
    assert STATIC[5] == (":scheme", "http");
    assert STATIC[6] == (":scheme", "https");
    assert STATIC[7] == (":status", "200");
    assert STATIC[23] == ("cache-control", "");
    assert STATIC[60] == ("www-authenticate", "");
    hide Ascii;
  }

  /** An index below 127 is one byte. */
  lemma OneByte(i: nat)
    requires i < 127
    ensures Index(i) == [0x80 + i]
  {
  }

  /** An index and then more. */
  lemma IndexThen(m: Reader, i: nat, s: seq<Byte>, t: Table, e: Entry, ncap: nat, vcap: nat)
    requires i < 127 && Lookup(t, i) == Some(e) && |e.name| < ncap && |e.value| < vcap
    ensures var b := ReadBlock(m, s, t, ncap, vcap);
            ReadBlock(m, [0x80 + i] + s, t, ncap, vcap) == Block([e] + b.entries, b.table, b.rest)
  {
    OneByte(i);
    hide Lookup, Read, ReadBlock, Index;
    ReadIndex(m, i, s, t, ncap, vcap);
    FieldThen(m, [0x80 + i] + s, t, ncap, vcap, e, 1, t);
    assert ([0x80 + i] + s)[1..] == s;
  }

  /** The first three fields of each request: a method, a scheme and a path. */
  lemma Preamble(m: Reader, scheme: nat, path: nat, s: seq<Byte>, t: Table, ncap: nat, vcap: nat)
    requires 6 <= scheme <= 7 && 4 <= path <= 5 && ncap > 10 && vcap > 11
    ensures var b := ReadBlock(m, s, t, ncap, vcap);
            ReadBlock(m, [0x82, 0x80 + scheme, 0x80 + path] + s, t, ncap, vcap) ==
            Block([Pair(":method", "GET"), Pair(":scheme", if scheme == 6 then "http" else "https"),
                   Pair(":path", if path == 4 then "/" else "/index.html")] + b.entries, b.table, b.rest)
  {
    StaticEntries();
    hide ReadBlock, StaticGet;
    var r2 := [0x80 + path] + s;
    var r1 := [0x80 + scheme] + r2;
    assert [0x82, 0x80 + scheme, 0x80 + path] + s == [0x82] + r1;
    IndexThen(m, 2, r1, t, Pair(":method", "GET"), ncap, vcap);
    IndexThen(m, scheme, r2, t, Pair(":scheme", if scheme == 6 then "http" else "https"), ncap, vcap);
    IndexThen(m, path, s, t, Pair(":path", if path == 4 then "/" else "/index.html"), ncap, vcap);
  }

  // ---- C.3: three requests on one connection ----

  function Site(): Str { Ascii("www.example.com") }
  function NoCache(): Str { Ascii("no-cache") }
  function Key(): Str { Ascii("custom-key") }
  function Custom(): Str { Ascii("custom-value") }

  function First(): seq<Byte> { [0x82, 0x86, 0x84] + ([0x41, 0x0F] + Site()) }
  function Second(): seq<Byte> { [0x82, 0x86, 0x84] + ([0xBE] + ([0x58, 0x08] + NoCache())) }
  function Third(): seq<Byte> { [0x82, 0x87, 0x85] + ([0xBF] + ([0x40, 0x0A] + Key() + ([0x0C] + Custom()))) }

  function Empty(): Table { Table([], 4096) }
  function AfterFirst(): Table { Table([Entry(Ascii(":authority"), Site())], 4096) }

  function AfterSecond(): Table {
    Table([Entry(Ascii("cache-control"), NoCache()), Entry(Ascii(":authority"), Site())], 4096)
  }

  function AfterThird(): Table {
    Table([Entry(Key(), Custom()), Entry(Ascii("cache-control"), NoCache()), Entry(Ascii(":authority"), Site())], 4096)
  }

  lemma Words()
    ensures |Site()| == 15 && |NoCache()| == 8 && |Key()| == 10 && |Custom()| == 12
    ensures |Ascii(":authority")| == 10 && |Ascii("cache-control")| == 13 && |Ascii("")| == 0
    ensures forall i :: 0 <= i < |Site()| ==> Site()[i] != 0
    ensures forall i :: 0 <= i < |NoCache()| ==> NoCache()[i] != 0
    ensures forall i :: 0 <= i < |Key()| ==> Key()[i] != 0
    ensures forall i :: 0 <= i < |Custom()| ==> Custom()[i] != 0
    ensures forall i :: 0 <= i < |Ascii(":authority")| ==> Ascii(":authority")[i] != 0
    ensures forall i :: 0 <= i < |Ascii("cache-control")| ==> Ascii("cache-control")[i] != 0
  {
  }

  lemma ShortNamed(i: nat, v: Str)
    requires 0 < i < 63 && 0 < |v| < 127
    ensures Named(Incremental, i, v) == [0x40 + i, |v|] + v
  {
  }

  lemma Inserts()
    ensures Insert(Empty(), Entry(Ascii(":authority"), Site())) == AfterFirst()
    ensures Insert(AfterFirst(), Entry(Ascii("cache-control"), NoCache())) == AfterSecond()
    ensures Insert(AfterSecond(), Entry(Key(), Custom())) == AfterThird()
  {
    Words();
    hide Ascii, Site, NoCache, Key, Custom;
    var a, c := Entry(Ascii(":authority"), Site()), Entry(Ascii("cache-control"), NoCache());
    assert TableSize([a]) == 57 by { assert [a][..0] == []; }
    assert TableSize([c, a]) == 110 by {
      TableSizeHead([c, a]);
      assert [c, a][1..] == [a];
    }
  }

  lemma FirstRequest(m: Reader, ncap: nat, vcap: nat)
    requires ncap > 16 && vcap > 16
    ensures ReadBlock(m, First(), Empty(), ncap, vcap) ==
            Block([Pair(":method", "GET"), Pair(":scheme", "http"), Pair(":path", "/"),
                   Pair(":authority", "www.example.com")], AfterFirst(), [])
  {
    StaticEntries();
    Words();
    Inserts();
    hide ReadBlock, Ascii, Insert, Named, StaticGet;
    var s := [0x41, 0x0F] + Site();
    Preamble(m, 6, 4, s, Empty(), ncap, vcap);
    ShortNamed(1, Site());
    NamedAtEnd(m, Incremental, 1, Ascii(":authority"), Site(), Empty(), ncap, vcap);
  }

  lemma SecondRequest(m: Reader, ncap: nat, vcap: nat)
    requires ncap > 16 && vcap > 16
    ensures ReadBlock(m, Second(), AfterFirst(), ncap, vcap) ==
            Block([Pair(":method", "GET"), Pair(":scheme", "http"), Pair(":path", "/"),
                   Pair(":authority", "www.example.com"), Pair("cache-control", "no-cache")], AfterSecond(), [])
  {
    StaticEntries();
    Words();
    Inserts();
    hide ReadBlock, Ascii, Insert, Named, StaticGet;
    var s := [0x58, 0x08] + NoCache();
    Preamble(m, 6, 4, [0xBE] + s, AfterFirst(), ncap, vcap);
    IndexThen(m, 62, s, AfterFirst(), Entry(Ascii(":authority"), Site()), ncap, vcap);
    ShortNamed(24, NoCache());
    NamedAtEnd(m, Incremental, 24, Ascii("cache-control"), NoCache(), AfterFirst(), ncap, vcap);
  }

  lemma ThirdRequest(m: Reader, ncap: nat, vcap: nat)
    requires ncap > 16 && vcap > 16
    ensures ReadBlock(m, Third(), AfterSecond(), ncap, vcap) ==
            Block([Pair(":method", "GET"), Pair(":scheme", "https"), Pair(":path", "/index.html"),
                   Pair(":authority", "www.example.com"), Pair("custom-key", "custom-value")], AfterThird(), [])
  {
    Words();
    Inserts();
    hide ReadBlock, Ascii, Insert, StaticGet;
    var h := Header(Key(), Custom());
    var s := [0x40, 0x0A] + Key() + ([0x0C] + Custom());
    Preamble(m, 7, 5, [0xBF] + s, AfterSecond(), ncap, vcap);
    IndexThen(m, 63, s, AfterSecond(), Entry(Ascii(":authority"), Site()), ncap, vcap);
    assert EncodeAll([h]) == s;
    StayInStep(m, [h], AfterSecond(), ncap, vcap);
  }

  // ---- C.4.2: a value in the Huffman code ----

  function Coded(): seq<Byte> { [0xA8, 0xEB, 0x10, 0x64, 0x9C, 0xBF] }

  /** One more byte, as a number. */
  lemma ByteMore(bytes: seq<Byte>, b: Byte)
    ensures Val(Unpack(bytes + [b])) == Val(Unpack(bytes)) * 256 + b
  {
    UnpackSnoc(bytes, b);
    Pow8();
    ValOfBits(b, 8);
    ValAppend(Unpack(bytes), BitsOf(b, 8));
  }

  lemma CodedIs()
    ensures Val(Unpack(Coded())) == 0xA8EB10649CBF
  {
    var x: seq<Byte> := [];
    assert Val(Unpack(x)) == 0;
    var a := x + [0xA8];
    var b := a + [0xEB];
    var c := b + [0x10];
    var d := c + [0x64];
    var e := d + [0x9C];
    assert e + [0xBF] == Coded();
    hide *;
    ByteMore(x, 0xA8);
    ByteMore(a, 0xEB);
    ByteMore(b, 0x10);
    ByteMore(c, 0x64);
    ByteMore(d, 0x9C);
    ByteMore(e, 0xBF);
  }

  /** One more letter, as a number. */
  lemma LetterMore(x: seq<Byte>, c: Byte, value: nat, len: nat, p: nat)
    requires CodeOf(c) == Huffman.Code(value, len) && p == Pow2(len)
    ensures Huffman.WellSized(AppendixB())
    ensures var s, u := Huffman.Stream(AppendixB(), x), Huffman.Stream(AppendixB(), x + [c]);
            |u| == |s| + len && Val(u) == Val(s) * p + value
  {
    TableWellSized();
    hide CodeOf, Huffman.WellSized, Huffman.Stream, Val, Pow2;
    var t := AppendixB();
    Huffman.StreamSnoc(t, x + [c]);
    assert (x + [c])[..|x|] == x;
    CodeFits(c);
    ValOfBits(value, len);
    ValAppend(Huffman.Stream(t, x), BitsOf(value, len));
  }

  lemma CodeFits(c: Byte)
    ensures CodeOf(c).value < Pow2(CodeOf(c).len) && AppendixB()[c] == CodeOf(c)
  {
    TableWellSized();
    assert AppendixB()[c] == CodeOf(c);
  }

  lemma Letters()
    ensures CodeOf(110) == Huffman.Code(0x2A, 6)
    ensures CodeOf(111) == Huffman.Code(0x7, 5)
    ensures CodeOf(45) == Huffman.Code(0x16, 6)
    ensures CodeOf(99) == Huffman.Code(0x4, 5)
    ensures CodeOf(97) == Huffman.Code(0x3, 5)
    ensures CodeOf(104) == Huffman.Code(0x27, 6)
    ensures CodeOf(101) == Huffman.Code(0x5, 5)
    ensures Pow2(5) == 32 && Pow2(6) == 64
  {
    assert Pow2(3) == 8;
  }

  lemma NoLetters()
    ensures Huffman.WellSized(AppendixB()) && Huffman.Stream(AppendixB(), []) == [] && Val([]) == 0
  {
    TableWellSized();
  }

  lemma Spelled()
    ensures NoCache() == [110, 111, 45, 99, 97, 99, 104, 101]
  {
  }

  lemma LettersAre()
    ensures Huffman.WellSized(AppendixB())
    ensures var s := Huffman.Stream(AppendixB(), NoCache()); |s| == 43 && Val(s) == 0xA8EB10649CBF / 32
  {
    hide *;
    var x: seq<Byte> := [];
    NoLetters();
    Letters();
    Spelled();
    var a := x + [110];
    var b := a + [111];
    var c := b + [45];
    var d := c + [99];
    var e := d + [97];
    var f := e + [99];
    var g := f + [104];
    assert g + [101] == NoCache();
    LetterMore(x, 110, 0x2A, 6, 64);
    LetterMore(a, 111, 0x7, 5, 32);
    LetterMore(b, 45, 0x16, 6, 64);
    LetterMore(c, 99, 0x4, 5, 32);
    LetterMore(d, 97, 0x3, 5, 32);
    LetterMore(e, 99, 0x4, 5, 32);
    LetterMore(f, 104, 0x27, 6, 64);
    LetterMore(g, 101, 0x5, 5, 32);
  }

  lemma {:induction false} OnesVal(n: nat)
    ensures Val(Ones(n)) == Pow2(n) - 1
  {
    if n > 0 {
      OnesVal(n - 1);
      assert Ones(n)[..n - 1] == Ones(n - 1);
    }
  }

  /** Bits that spell a number and then five ones. */
  lemma LastOnes(st: BitString, bs: BitString)
    requires |bs| == |st| + 5 && Val(bs) == Val(st) * 32 + 31
    ensures bs == st + Ones(5)
  {
    hide *;
    Letters();
    OnesVal(5);
    ValAppend(st, Ones(5));
    ValInjective(bs, st + Ones(5));
  }

  /** The six bytes are "no-cache" in the Huffman code. */
  lemma NoCacheCoded()
    ensures IsHuff(Coded(), NoCache())
  {
    LettersAre();
    CodedIs();
    hide AppendixB, Huffman.Stream, Unpack, Val, Huffman.WellSized, NoCache, Coded;
    var st, bs := Huffman.Stream(AppendixB(), NoCache()), Unpack(Coded());
    assert |bs| == 48 by { assert |Coded()| == 6 by { CodedLength(); } }
    LastOnes(st, bs);
  }

  lemma CodedLength()
    ensures |Coded()| == 6
  {
  }
}
