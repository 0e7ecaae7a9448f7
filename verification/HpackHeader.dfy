/**
 * HPACK header fields (src/server/cmq_hpack.c): string literals, the static table, the
 * encoder for incremental literals and the decoder for every representation of RFC 7541
 * section 6. The main result is that an encoder and a decoder that start with equal dynamic
 * tables still have equal tables after any sequence of headers.
 */
module HpackHeader {
  import opened Common
  import opened HpackInt
  import opened HpackTable
  import opened HuffmanTable
  import Huffman
  import HuffmanOverrun

  /** A C string: no terminator inside. */
  type CString = s: seq<Byte> | forall i :: 0 <= i < |s| ==> s[i] != 0

  // ---- string literals, RFC 7541 section 5.2 ----

  function EncodeStr(s: Str): seq<Byte> { EncodeInt(|s|, 7, 0) + s }

  /** The text these bytes stand for in the Huffman code, if any. */
  ghost predicate IsHuff(bytes: seq<Byte>, y: Str) {
    Huffman.WellSized(AppendixB()) && Huffman.Encodes(AppendixB(), bytes, y)
  }

  ghost function Unhuff(bytes: seq<Byte>): Option<Str> {
    if exists y :: IsHuff(bytes, y) then
      var y :| IsHuff(bytes, y);
      Some(y)
    else
      None
  }

  /** What the decoder of the code makes of them. */
  ghost function CodeText(bytes: seq<Byte>, cap: nat): Huffman.Decoding {
    if Huffman.WellSized(AppendixB()) then Huffman.Decode(AppendixB(), bytes, cap) else Huffman.Malformed
  }

  /** Two readers: one takes Huffman strings as the standard does, one as the code does. */
  datatype Reader = ByStandard | ByCode

  /** A string literal, none, or a shift the language leaves undefined. */
  datatype Literal = Piece(text: Str, consumed: nat) | NoPiece | Undefined

  /** The string literal at the front of these bytes, for a buffer of this size. */
  ghost function ReadStr(m: Reader, s: seq<Byte>, cap: nat): Literal {
    if s == [] || cap == 0 then NoPiece
    else
      match DecodeInt(s, 7)
      case None => NoPiece
      case Some(d) =>
        if d.value == 0 || d.value > STR_MAX || d.consumed + d.value > |s| then NoPiece
        else ReadBody(m, s[0] >= 0x80, s[d.consumed..d.consumed + d.value], d.consumed + d.value, cap)
  }

  ghost function ReadBody(m: Reader, huff: bool, body: seq<Byte>, consumed: nat, cap: nat): Literal {
    if !huff then Fitting(Some(body), consumed, cap)
    else if m.ByStandard? then Fitting(Unhuff(body), consumed, cap)
    else
      match CodeText(body, cap)
      case Decoded(x) => Piece(x, consumed)
      case Malformed => NoPiece
      case Undefined => Literal.Undefined
  }

  function Fitting(text: Option<Str>, consumed: nat, cap: nat): Literal {
    if text.Some? && 0 < |text.value| < cap then Piece(text.value, consumed) else NoPiece
  }

  /** The string literal at the front, if it is a Huffman string, does not overrun the code's decoder. */
  ghost predicate Calm(s: seq<Byte>, cap: nat) {
    && Huffman.WellSized(AppendixB())
    && var d := if s == [] then None else DecodeInt(s, 7);
       d.Some? && s[0] >= 0x80 && d.value.consumed + d.value.value <= |s| ==>
         !Huffman.Overruns(AppendixB(), s[d.value.consumed..d.value.consumed + d.value.value], cap)
  }

  lemma BodyAgrees(huff: bool, body: seq<Byte>, consumed: nat, cap: nat)
    requires Huffman.Good(AppendixB())
    requires huff ==> !Huffman.Overruns(AppendixB(), body, cap)
    ensures ReadBody(ByCode, huff, body, consumed, cap) == ReadBody(ByStandard, huff, body, consumed, cap)
  {
    hide Huffman.Encodes, Huffman.PrefixFree, Huffman.CodeBits, AppendixB, Huffman.Decode, Huffman.Overruns, Unhuff;
    if huff {
      Huffman.DecodeConforms(AppendixB(), body, cap);
      var d := Huffman.Decode(AppendixB(), body, cap);
      if d.Decoded? { UnhuffIs(body, d.text); } else { NoneFits(body, cap); }
    }
  }

  lemma NoneFits(body: seq<Byte>, cap: nat)
    requires Huffman.WellSized(AppendixB()) && Huffman.NoText(AppendixB(), body, cap)
    ensures var y := Unhuff(body); y.None? || y.value == [] || |y.value| >= cap
  {
    hide Huffman.Encodes, AppendixB;
  }

  /** A calm literal is read as the standard reads it; of any other the standard reads nothing. */
  lemma StrAgrees(s: seq<Byte>, cap: nat)
    ensures Calm(s, cap) ==> ReadStr(ByCode, s, cap) == ReadStr(ByStandard, s, cap)
    ensures !Calm(s, cap) ==> ReadStr(ByStandard, s, cap).NoPiece?
  {
    hide Huffman.Encodes, Huffman.PrefixFree, AppendixB, DecodeInt, ReadBody, Huffman.Overruns;
    AppendixBIsGood();
    var d := if s == [] then None else DecodeInt(s, 7);
    if d.Some? && d.value.consumed + d.value.value <= |s| {
      var used, all := d.value.consumed, d.value.consumed + d.value.value;
      if s[0] >= 0x80 && Huffman.Overruns(AppendixB(), s[used..all], cap) {
        OverrunReadsNothing(s[used..all], all, cap);
      } else {
        BodyAgrees(s[0] >= 0x80, s[used..all], all, cap);
      }
    }
  }

  lemma OverrunReadsNothing(body: seq<Byte>, consumed: nat, cap: nat)
    requires Huffman.Good(AppendixB()) && Huffman.Overruns(AppendixB(), body, cap)
    ensures ReadBody(ByStandard, true, body, consumed, cap).NoPiece?
  {
    hide Huffman.Encodes, Huffman.PrefixFree, AppendixB, Huffman.Overruns;
    forall y: Str ensures !IsHuff(body, y) { Huffman.OverrunIsNoText(AppendixB(), body, cap, y); }
  }

  lemma UnhuffIs(bytes: seq<Byte>, y: Str)
    requires Huffman.Good(AppendixB()) && IsHuff(bytes, y)
    ensures Unhuff(bytes) == Some(y)
  {
    var z := Unhuff(bytes).value;
    Huffman.EncodesUnique(AppendixB(), bytes, y, z);
  }

  lemma HighBitsZero()
    ensures HighBitsOk(0, 7) && HighBitsOk(0x40, 6)
  {
  }

  /** An encoded string reads back, whatever follows it. */
  lemma StrRoundTrip(m: Reader, s: Str, t: seq<Byte>, cap: nat)
    requires StrOk(s) && |s| < cap
    ensures ReadStr(m, EncodeStr(s) + t, cap) == Piece(s, |EncodeStr(s)|)
  {
    hide DecodeInt;
    HighBitsZero();
    FirstByteOfLength(|s|);
    hide EncodeInt;
    var h := EncodeInt(|s|, 7, 0);
    var w := EncodeStr(s) + t;
    assert w == h + (s + t);
    IntRoundTrip(|s|, 7, 0, s + t);
    assert w[|h|..|h| + |s|] == s;
    assert w[0] == h[0];
  }

  lemma FirstByteOfLength(n: nat)
    ensures var h := EncodeInt(n, 7, 0); |h| >= 1 && h[0] < 0x80
  {
  }

  // ---- tables ----

  const STATIC_MAX: nat := 61

  /** RFC 7541 Appendix A: the pseudo-headers, entries 1 to 14, and the others in three parts. */
  const PSEUDO: seq<(string, string)> := [
    (":authority", ""), (":method", "GET"),
    (":method", "POST"), (":path", "/"),
    (":path", "/index.html"), (":scheme", "http"),
    (":scheme", "https"), (":status", "200"),
    (":status", "204"), (":status", "206"),
    (":status", "304"), (":status", "400"),
    (":status", "404"), (":status", "500")
  ]

  const STATIC_A: seq<(string, string)> := [
    ("accept-charset", ""), ("accept-encoding", "gzip, deflate"),
    ("accept-language", ""), ("accept-ranges", ""),
    ("accept", ""), ("access-control-allow-origin", ""),
    ("age", ""), ("allow", ""),
    ("authorization", ""), ("cache-control", ""),
    ("content-disposition", ""), ("content-encoding", ""),
    ("content-language", ""), ("content-length", ""),
    ("content-location", ""), ("content-range", "")
  ]

  const STATIC_B: seq<(string, string)> := [
    ("content-type", ""), ("cookie", ""),
    ("date", ""), ("etag", ""),
    ("expect", ""), ("expires", ""),
    ("from", ""), ("host", ""),
    ("if-match", ""), ("if-modified-since", ""),
    ("if-none-match", ""), ("if-range", ""),
    ("if-unmodified-since", ""), ("last-modified", ""),
    ("link", ""), ("location", "")
  ]

  const STATIC_C: seq<(string, string)> := [
    ("max-forwards", ""), ("proxy-authenticate", ""),
    ("proxy-authorization", ""), ("range", ""),
    ("referer", ""), ("refresh", ""),
    ("retry-after", ""), ("server", ""),
    ("set-cookie", ""), ("strict-transport-security", ""),
    ("transfer-encoding", ""), ("user-agent", ""),
    ("vary", ""), ("via", ""),
    ("www-authenticate", "")
  ]

  const STATIC := PSEUDO + STATIC_A + STATIC_B + STATIC_C

  function Ascii(s: string): Str {
    seq(|s|, i requires 0 <= i < |s| => s[i] as int % 256)
  }

  function StaticGet(idx: nat): Option<Entry> {
    if idx == 0 || idx > STATIC_MAX || idx > |STATIC| then None
    else Some(Entry(Ascii(STATIC[idx - 1].0), Ascii(STATIC[idx - 1].1)))
  }

  /** The one address space of both tables, section 2.3.3. */
  function Lookup(t: Table, idx: nat): Option<Entry> {
    if idx <= STATIC_MAX then StaticGet(idx)
    else if idx - (STATIC_MAX + 1) < |t.entries| then Some(t.entries[idx - (STATIC_MAX + 1)])
    else None
  }

  // ---- header fields, section 6 ----

  /** The part of a buffer a C string function sees. */
  function CStr(s: Str): (r: CString)
    ensures r <= s && (|r| < |s| ==> s[|r|] == 0)
  {
    if s == [] || s[0] == 0 then [] else [s[0]] + CStr(s[1..])
  }

  datatype Reading =
    | Field(entry: Entry, consumed: nat, table: Table)
    | SizeUpdate(consumed: nat, table: Table)
    | Malformed
    | Undefined

  /** What the first bytes of a header block mean to a decoder with this table. */
  ghost function Read(m: Reader, s: seq<Byte>, t: Table, ncap: nat, vcap: nat): Reading {
    if s == [] || ncap == 0 || vcap == 0 then Malformed
    else if s[0] >= 0x80 then ReadIndexed(s, t, ncap, vcap)
    else if 0x20 <= s[0] < 0x40 then ReadSize(s, t)
    else ReadLiteral(m, s, t, ncap, vcap)
  }

  ghost function ReadIndexed(s: seq<Byte>, t: Table, ncap: nat, vcap: nat): Reading {
    match DecodeInt(s, 7)
    case None => Malformed
    case Some(d) =>
      var e := Lookup(t, d.value);
      if e.Some? && |e.value.name| < ncap && |e.value.value| < vcap then Field(e.value, d.consumed, t)
      else Malformed
  }

  ghost function ReadSize(s: seq<Byte>, t: Table): Reading {
    match DecodeInt(s, 5)
    case None => Malformed
    case Some(d) => if d.value > DYN_MAX then Malformed else SizeUpdate(d.consumed, Resize(t, d.value))
  }

  ghost function ReadLiteral(m: Reader, s: seq<Byte>, t: Table, ncap: nat, vcap: nat): Reading
    requires s != []
  {
    var inc := s[0] >= 0x40;
    var n := ReadName(m, s, t, ncap, if inc then 6 else 4);
    if n.Undefined? then Reading.Undefined
    else if n.NoPiece? || n.consumed > |s| then Malformed
    else
      var v := ReadStr(m, s[n.consumed..], vcap);
      if v.Undefined? then Reading.Undefined
      else if v.NoPiece? then Malformed
      else Finish(t, inc, n, v)
  }

  /** The name of a literal: spelled out, or that of an indexed entry. */
  ghost function ReadName(m: Reader, s: seq<Byte>, t: Table, ncap: nat, nbits: nat): Literal
    requires 1 <= nbits <= 8
  {
    match DecodeInt(s, nbits)
    case None => NoPiece
    case Some(d) =>
      if d.value == 0 then
        if d.consumed > |s| then NoPiece
        else
          var p := ReadStr(m, s[d.consumed..], ncap);
          if p.Piece? then Piece(p.text, d.consumed + p.consumed) else p
      else
        var e := Lookup(t, d.value);
        if e.Some? && |e.value.name| < ncap && |e.value.value| <= STR_MAX then
          Piece(e.value.name, d.consumed)
        else NoPiece
  }

  function Finish(t: Table, inc: bool, n: Literal, v: Literal): Reading
    requires n.Piece? && v.Piece?
  {
    var stored := Entry(CStr(n.text), CStr(v.text));
    var e := Entry(n.text, v.text);
    if !inc then Field(e, n.consumed + v.consumed, t)
    else if EntryOk(stored) then Field(e, n.consumed + v.consumed, Insert(t, stored))
    else Malformed
  }

  /** No Huffman string of the field at the front overruns the code's decoder. */
  ghost predicate CalmField(s: seq<Byte>, t: Table, ncap: nat, vcap: nat) {
    s != [] && s[0] < 0x80 && !(0x20 <= s[0] < 0x40) ==>
      var nbits := if s[0] >= 0x40 then 6 else 4;
      && (var d := DecodeInt(s, nbits);
          d.Some? && d.value.value == 0 && d.value.consumed <= |s| ==> Calm(s[d.value.consumed..], ncap))
      && (var n := ReadName(ByStandard, s, t, ncap, nbits);
          n.Piece? && n.consumed <= |s| ==> Calm(s[n.consumed..], vcap))
  }

  /** Such a field means to the code what it means to the standard; any other is malformed to the standard. */
  lemma FieldAgrees(s: seq<Byte>, t: Table, ncap: nat, vcap: nat)
    ensures CalmField(s, t, ncap, vcap) ==> Read(ByCode, s, t, ncap, vcap) == Read(ByStandard, s, t, ncap, vcap)
    ensures !CalmField(s, t, ncap, vcap) ==> Read(ByStandard, s, t, ncap, vcap) == Malformed
  {
    hide ReadStr, DecodeInt, Lookup, Calm, ReadIndexed, ReadSize, Finish;
    if s != [] && s[0] < 0x80 && !(0x20 <= s[0] < 0x40) {
      var nbits := if s[0] >= 0x40 then 6 else 4;
      var d := DecodeInt(s, nbits);
      if d.Some? && d.value.value == 0 && d.value.consumed <= |s| { StrAgrees(s[d.value.consumed..], ncap); }
      var n := ReadName(ByStandard, s, t, ncap, nbits);
      if n.Piece? && n.consumed <= |s| { StrAgrees(s[n.consumed..], vcap); }
    }
  }

  /** What the code's decoder makes of the misread Huffman string. */
  function MisreadText(): CString { [48, 97, 28, 48, 48, 48, 48, 48, 48] }

  /** A literal field named "a" whose value is that string. */
  function MisreadField(): seq<Byte> { [0x40, 0x01, 0x61, 0x89] + HuffmanOverrun.Misread() }

  lemma MisreadName(m: Reader, t: Table, ncap: nat)
    requires ncap >= 2
    ensures ReadName(m, MisreadField(), t, ncap, 6) == Piece([0x61], 3)
  {
    hide Lookup, Unhuff, CodeText;
    var s := MisreadField();
    IncIndexZero(s[1..]);
    assert [0x40] + s[1..] == s;
    var r := s[1..];
    assert DecodeInt(r, 7) == Some(Decoded(1, 1));
    hide DecodeInt;
    assert r[1] == s[2] == 0x61;
    assert r[1..2] == [r[1]];
  }

  lemma MisreadValue(m: Reader, vcap: nat)
    requires vcap >= 10
    ensures ReadStr(m, MisreadField()[3..], vcap) == if m.ByCode? then Piece(MisreadText(), 10) else NoPiece
  {
    hide Huffman.Decode, Huffman.Encodes, Huffman.PrefixFree, AppendixB;
    var r := MisreadField()[3..];
    assert DecodeInt(r, 7) == Some(Decoded(9, 1));
    hide DecodeInt;
    assert r[1..10] == HuffmanOverrun.Misread();
    HuffmanOverrun.MisreadIs(vcap);
  }

  /** Where the standard has a malformed field, the code finds one and puts it into the table. */
  lemma MisreadInserts(t: Table, ncap: nat, vcap: nat)
    requires ncap >= 2 && vcap >= 10
    ensures Read(ByStandard, MisreadField(), t, ncap, vcap) == Malformed
    ensures Read(ByCode, MisreadField(), t, ncap, vcap) ==
            Field(Entry([0x61], MisreadText()), 13, Insert(t, Entry([0x61], MisreadText())))
  {
    hide ReadStr, ReadName, CStr, Insert;
    MisreadName(ByCode, t, ncap);
    MisreadName(ByStandard, t, ncap);
    MisreadValue(ByCode, vcap);
    MisreadValue(ByStandard, vcap);
    CStrWhole([0x61]);
    CStrWhole(MisreadText());
  }

  // ---- what the encoder writes ----

  datatype Header = Header(name: CString, value: CString)

  predicate HeaderOk(h: Header) { StrOk(h.name) && StrOk(h.value) }

  function EncodeInc(h: Header): seq<Byte> {
    [0x40] + EncodeStr(h.name) + EncodeStr(h.value)
  }

  lemma CStrWhole(s: CString)
    ensures CStr(s) == s
  {
    var r := CStr(s);
    assert r == s[..|r|];
  }

  lemma IncIndexZero(t: seq<Byte>)
    ensures DecodeInt([0x40] + t, 6) == Some(Decoded(0, 1))
  {
    HighBitsZero();
    IntRoundTrip(0, 6, 0x40, t);
  }

  /** One header: the decoder reads exactly it, and its table takes the same insertion. */
  lemma HeaderRoundTrip(m: Reader, h: Header, rest: seq<Byte>, t: Table, ncap: nat, vcap: nat)
    requires HeaderOk(h) && |h.name| < ncap && |h.value| < vcap
    ensures Read(m, EncodeInc(h) + rest, t, ncap, vcap) ==
            Field(Entry(h.name, h.value), |EncodeInc(h)|, Insert(t, Entry(h.name, h.value)))
  {
    hide ReadStr, EncodeStr, DecodeInt, Insert, CStr, Lookup;
    var n, v := EncodeStr(h.name), EncodeStr(h.value);
    var s := EncodeInc(h) + rest;
    assert s == [0x40] + (n + (v + rest));
    IncIndexZero(n + (v + rest));
    assert s[1..] == n + (v + rest);
    StrRoundTrip(m, h.name, v + rest, ncap);
    assert s[1 + |n|..] == v + rest;
    StrRoundTrip(m, h.value, rest, vcap);
    CStrWhole(h.name);
    CStrWhole(h.value);
  }

  function EncodeAll(hs: seq<Header>): seq<Byte> {
    if hs == [] then [] else EncodeInc(hs[0]) + EncodeAll(hs[1..])
  }

  function InsertAll(t: Table, hs: seq<Header>): Table
    decreases |hs|
  {
    if hs == [] then t else InsertAll(Insert(t, Entry(hs[0].name, hs[0].value)), hs[1..])
  }

  function Entries(hs: seq<Header>): seq<Entry> {
    seq(|hs|, i requires 0 <= i < |hs| => Entry(hs[i].name, hs[i].value))
  }

  datatype Block = Block(entries: seq<Entry>, table: Table, rest: seq<Byte>)

  /** A whole header block, read until it ends or a field is malformed. */
  ghost function ReadBlock(m: Reader, s: seq<Byte>, t: Table, ncap: nat, vcap: nat): Block
    decreases |s|
  {
    match Read(m, s, t, ncap, vcap)
    case Field(e, k, u) =>
      if 0 < k <= |s| then
        var b := ReadBlock(m, s[k..], u, ncap, vcap);
        b.(entries := [e] + b.entries)
      else Block([], t, s)
    case SizeUpdate(k, u) =>
      if 0 < k <= |s| then ReadBlock(m, s[k..], u, ncap, vcap) else Block([], t, s)
    case _ => Block([], t, s)
  }

  /**
   * Encoder and decoder stay in step: from equal tables, the decoder of a whole block gets
   * the exact headers, consumes every byte, and ends with the table the encoder has.
   */
  lemma {:induction false} StayInStep(m: Reader, hs: seq<Header>, t: Table, ncap: nat, vcap: nat)
    requires forall i :: 0 <= i < |hs| ==> HeaderOk(hs[i]) && |hs[i].name| < ncap && |hs[i].value| < vcap
    ensures ReadBlock(m, EncodeAll(hs), t, ncap, vcap) == Block(Entries(hs), InsertAll(t, hs), [])
  {
    hide Read, EncodeInc, Insert;
    if hs == [] {
      assert Read(m, [], t, ncap, vcap).Malformed? by { ReadNothing(m, t, ncap, vcap); }
      assert Entries(hs) == [];
    } else {
      var h, u := hs[0], Insert(t, Entry(hs[0].name, hs[0].value));
      var w, rest := EncodeInc(h), EncodeAll(hs[1..]);
      HeaderRoundTrip(m, h, rest, t, ncap, vcap);
      assert |w| > 0 by { IncNotEmpty(h); }
      assert (w + rest)[|w|..] == rest;
      StayInStep(m, hs[1..], u, ncap, vcap);
      assert Entries(hs) == [Entry(h.name, h.value)] + Entries(hs[1..]);
    }
  }

  lemma ReadNothing(m: Reader, t: Table, ncap: nat, vcap: nat)
    ensures Read(m, [], t, ncap, vcap) == Malformed
  {
  }

  lemma IncNotEmpty(h: Header)
    ensures |EncodeInc(h)| > 0
  {
  }

  // ---- the code ----

  /** Write a string and its terminator. */
  method PutText(text: Str, out: array<Byte>)
    requires |text| < out.Length
    modifies out
    ensures out[..|text|] == text && out[|text|] == 0
  {
    forall i | 0 <= i < |text| { out[i] := text[i]; }
    out[|text|] := 0;
  }

  lemma SliceJoin(b: seq<Byte>, i: nat, j: nat, k: nat)
    requires i <= j <= k <= |b|
    ensures b[i..k] == b[i..j] + b[j..k]
  {
  }

  /** cmq_hpack_str_encode into out[at..at + cap]; 0 stands for its -1. */
  method StrEncode(s: CString, out: array<Byte>, at: nat, cap: nat) returns (n: nat)
    requires at + cap <= out.Length
    modifies out
    ensures n > 0 <==> StrOk(s) && |EncodeStr(s)| <= cap
    ensures n > 0 ==> n == |EncodeStr(s)| && out[at..at + n] == EncodeStr(s)
    ensures forall i :: 0 <= i < out.Length && !(at <= i < at + cap) ==> out[i] == old(out[i])
  {
    if |s| == 0 || |s| > STR_MAX { return 0; }
    HighBitsZero();
    hide EncodeInt;
    var k := IntEncode(|s|, 7, 0, out, at, cap);
    if k == 0 || k + |s| > cap { return 0; }
    ghost var h := out[at..at + k];
    forall i | 0 <= i < |s| { out[at + k + i] := s[i]; }
    assert out[at..at + k] == h;
    assert out[at + k..at + k + |s|] == s;
    SliceJoin(out[..], at, at + k, at + k + |s|);
    return k + |s|;
  }

  /** What a decoding call can come to; Undefined is a shift past the Huffman accumulator. */
  datatype StrResult = Got(len: nat, consumed: nat) | Failed | Undefined

  /** A buffer holds the literal, terminated, or there is none to hold. */
  ghost predicate Came(l: Literal, r: StrResult, out: array<Byte>)
    reads out
  {
    match l
    case Piece(x, k) => r == Got(|x|, k) && |x| < out.Length && out[..|x|] == x && out[|x|] == 0
    case NoPiece => r == Failed
    case Undefined => r == StrResult.Undefined
  }

  /** cmq_hpack_str_decode: the literal that the code's reader finds. */
  method StrDecode(s: seq<Byte>, out: array<Byte>) returns (r: StrResult)
    modifies out
    ensures Came(ReadStr(ByCode, s, out.Length), r, out)
  {
    hide DecodeInt, ReadBody;
    if s == [] || out.Length == 0 { return Failed; }
    var d := IntDecode(s, 7);
    if d.None? { return Failed; }
    var sl, used := d.value.value, d.value.consumed;
    if sl == 0 || sl > STR_MAX || used + sl > |s| { return Failed; }
    if s[0] >= 0x80 {
      r := HuffBody(s[used..used + sl], used + sl, out);
    } else {
      r := RawBody(s[used..used + sl], used + sl, out);
    }
  }

  method RawBody(body: seq<Byte>, consumed: nat, out: array<Byte>) returns (r: StrResult)
    requires body != []
    modifies out
    ensures Came(ReadBody(ByCode, false, body, consumed, out.Length), r, out)
  {
    if |body| >= out.Length { return Failed; }
    PutText(body, out);
    return Got(|body|, consumed);
  }

  method HuffBody(body: seq<Byte>, consumed: nat, out: array<Byte>) returns (r: StrResult)
    modifies out
    ensures Came(ReadBody(ByCode, true, body, consumed, out.Length), r, out)
  {
    hide Huffman.Decode, AppendixB;
    TableWellSized();
    var d := Huffman.HuffDecode(AppendixB(), body, out);
    match d
    case Text(n) => r := Got(n, consumed);
    case Refused => r := Failed;
    case Undefined => r := StrResult.Undefined;
  }

  /** cmq_hpack_lookup: the entry's strings go to the two buffers if they fit. */
  method Find(t: DynTable, idx: nat, name: array<Byte>, value: array<Byte>) returns (ok: bool, nl: nat, vl: nat)
    requires t.Valid() && name != t.buf && value != t.buf && name != value
    modifies name, value
    ensures var e := Lookup(t.View(), idx);
            ok <==> e.Some? && |e.value.name| < name.Length && |e.value.value| < value.Length
    ensures ok ==> nl < name.Length && vl < value.Length && name[nl] == 0 && value[vl] == 0
    ensures ok ==> Lookup(t.View(), idx) == Some(Entry(name[..nl], value[..vl]))
    ensures t.Valid() && t.View() == old(t.View())
  {
    hide StaticGet, Denotes, TableSize, DataSize, TableOk;
    var e;
    if idx <= STATIC_MAX {
      e := StaticGet(idx);
    } else {
      e := t.Get(idx - (STATIC_MAX + 1));
    }
    assert e == Lookup(t.View(), idx);
    nl, vl := 0, 0;
    ok := e.Some? && |e.value.name| < name.Length && |e.value.value| < value.Length;
    if ok {
      nl, vl := |e.value.name|, |e.value.value|;
      PutText(e.value.name, name);
      PutText(e.value.value, value);
    }
  }

  /** cmq_hpack_hdr_encode_inc; 0 stands for its -1, and then the table is unchanged. */
  method HdrEncodeInc(t: DynTable, h: Header, out: array<Byte>) returns (n: nat)
    requires t.Valid() && out != t.buf
    modifies t, t.buf, t.ents, out
    ensures t.Valid()
    ensures n > 0 <==> HeaderOk(h) && |EncodeInc(h)| <= out.Length
    ensures n > 0 ==> n == |EncodeInc(h)| && out[..n] == EncodeInc(h)
    ensures t.View() == if n > 0 then Insert(old(t.View()), Entry(h.name, h.value)) else old(t.View())
  {
    hide Denotes, TableSize, DataSize, TableOk, EncodeStr, Insert;
    n := EncodeParts(h, out);
    if n > 0 {
      label before:
      var ok := t.Add(h.name, h.value);
      assert out[..n] == old@before(out[..n]);
      assert ok;
    }
  }

  /** The three parts of an incremental literal, one behind the other. */
  method EncodeParts(h: Header, out: array<Byte>) returns (n: nat)
    modifies out
    ensures n > 0 <==> HeaderOk(h) && |EncodeInc(h)| <= out.Length
    ensures n > 0 ==> n == |EncodeInc(h)| && out[..n] == EncodeInc(h)
  {
    hide EncodeStr, EncodeInt, EncodeInc;
    IncParts(h);
    n := 0;
    if out.Length == 0 { return; }
    var k := PutInc(out);
    var k2 := StrEncode(h.name, out, k, out.Length - k);
    if k2 == 0 { return; }
    ghost var name := out[..k + k2];
    assert name == [0x40] + EncodeStr(h.name);
    var k3 := StrEncode(h.value, out, k + k2, out.Length - k - k2);
    if k3 == 0 { return; }
    n := k + k2 + k3;
    assert out[..k + k2] == name;
    assert out[..n] == out[..k + k2] + out[k + k2..n];
  }

  lemma IncParts(h: Header)
    ensures EncodeInc(h) == [0x40] + EncodeStr(h.name) + EncodeStr(h.value)
  {
  }

  /** The first byte of an incremental literal: index 0 in six bits. */
  method PutInc(out: array<Byte>) returns (k: nat)
    requires out.Length > 0
    modifies out
    ensures k == 1 && out[0] == 0x40
  {
    HighBitsZero();
    assert EncodeInt(0, 6, 0x40) == [0x40];
    k := IntEncode(0, 6, 0x40, out, 0, out.Length);
    assert out[0..1][0] == 0x40;
  }

  datatype HdrResult =
    | Parsed(nlen: nat, vlen: nat, consumed: nat)
    | Resized(consumed: nat)
    | Rejected
    | Undefined

  /** Two buffers hold these strings, terminated. */
  ghost predicate Holds(name: array<Byte>, nlen: nat, value: array<Byte>, vlen: nat, e: Entry)
    reads name, value
  {
    && nlen < name.Length && name[nlen] == 0 && name[..nlen] == e.name
    && vlen < value.Length && value[vlen] == 0 && value[..vlen] == e.value
  }

  /** A call came to what Read says: the same result, the same strings, the same table. */
  ghost predicate CameTo(reading: Reading, r: HdrResult, name: array<Byte>, value: array<Byte>, before: Table,
                         after: Table)
    reads name, value
  {
    match reading
    case Malformed => r.Rejected? && after == before
    case Undefined => r.Undefined? && after == before
    case SizeUpdate(k, u) => r == Resized(k) && after == u
    case Field(e, k, u) => r.Parsed? && r.consumed == k && after == u && Holds(name, r.nlen, value, r.vlen, e)
  }

  /**
   * cmq_hpack_hdr_decode_dyn refines the code's reader, for every input: an indexed field, a
   * size update, a literal with or without indexing, and everything it refuses, which leaves
   * the table as it was. FieldAgrees says when that is what the standard reads.
   */
  method HdrDecodeDyn(t: DynTable, s: seq<Byte>, name: array<Byte>, value: array<Byte>) returns (r: HdrResult)
    requires t.Valid() && name != t.buf && value != t.buf && name != value
    modifies t, t.buf, t.ents, name, value
    ensures t.Valid()
    ensures CameTo(Read(ByCode, s, old(t.View()), name.Length, value.Length), r, name, value, old(t.View()), t.View())
  {
    hide ReadIndexed, ReadSize, ReadLiteral, Denotes, TableSize, DataSize, TableOk;
    if s == [] || name.Length == 0 || value.Length == 0 { return Rejected; }
    if s[0] >= 0x80 {
      r := DecodeIndexed(t, s, name, value);
    } else if 0x20 <= s[0] < 0x40 {
      r := DecodeSize(t, s, name, value);
    } else {
      r := DecodeLiteral(t, s, name, value);
    }
  }

  method DecodeIndexed(t: DynTable, s: seq<Byte>, name: array<Byte>, value: array<Byte>) returns (r: HdrResult)
    requires t.Valid() && name != t.buf && value != t.buf && name != value
    modifies name, value
    ensures t.Valid()
    ensures CameTo(ReadIndexed(s, old(t.View()), name.Length, value.Length), r, name, value, old(t.View()), t.View())
  {
    hide DecodeInt, Lookup, Denotes, TableSize, DataSize, TableOk;
    var d := IntDecode(s, 7);
    if d.None? { return Rejected; }
    var ok, nl, vl := Find(t, d.value.value, name, value);
    if !ok { return Rejected; }
    return Parsed(nl, vl, d.value.consumed);
  }

  method DecodeSize(t: DynTable, s: seq<Byte>, name: array<Byte>, value: array<Byte>) returns (r: HdrResult)
    requires t.Valid() && name != t.buf && value != t.buf && name != value
    modifies t, t.buf, t.ents
    ensures t.Valid()
    ensures CameTo(ReadSize(s, old(t.View())), r, name, value, old(t.View()), t.View())
  {
    hide DecodeInt, Resize, Denotes, TableSize, DataSize, TableOk;
    var d := IntDecode(s, 5);
    if d.None? { return Rejected; }
    var ok := t.SetMax(d.value.value);
    if !ok { return Rejected; }
    return Resized(d.value.consumed);
  }

  /** The name of a literal goes to its buffer. */
  method DecodeName(t: DynTable, s: seq<Byte>, nbits: nat, name: array<Byte>) returns (r: StrResult)
    requires t.Valid() && name != t.buf && 1 <= nbits <= 8
    modifies name
    ensures t.Valid() && t.View() == old(t.View())
    ensures Came(ReadName(ByCode, s, t.View(), name.Length, nbits), r, name)
  {
    hide DecodeInt, ReadStr, Lookup, Denotes, TableSize, DataSize, TableOk;
    var d := IntDecode(s, nbits);
    if d.None? { return Failed; }
    var used := d.value.consumed;
    if d.value.value == 0 {
      if used > |s| { return Failed; }
      r := StrDecode(s[used..], name);
      r := if r.Got? then Got(r.len, used + r.consumed) else r;
    } else {
      var dummy := new Byte[STR_MAX + 1](_ => 0);
      var ok, nl, vl := Find(t, d.value.value, name, dummy);
      r := if ok then Got(nl, used) else Failed;
    }
  }

  method DecodeLiteral(t: DynTable, s: seq<Byte>, name: array<Byte>, value: array<Byte>) returns (r: HdrResult)
    requires t.Valid() && name != t.buf && value != t.buf && name != value && s != []
    modifies t, t.buf, t.ents, name, value
    ensures t.Valid()
    ensures CameTo(ReadLiteral(ByCode, s, old(t.View()), name.Length, value.Length), r, name, value, old(t.View()),
            t.View())
  {
    hide ReadName, ReadStr, Finish, Denotes, TableSize, DataSize, TableOk;
    var inc := s[0] >= 0x40;
    var n := DecodeName(t, s, if inc then 6 else 4, name);
    if !n.Got? { return if n.Undefined? then HdrResult.Undefined else Rejected; }
    if n.consumed > |s| { return Rejected; }
    var v := StrDecode(s[n.consumed..], value);
    if !v.Got? { return if v.Undefined? then HdrResult.Undefined else Rejected; }
    r := Store(t, inc, name, n, value, v);
  }

  /** An incremental literal enters the table, as the C strings in the buffers. */
  method Store(t: DynTable, inc: bool, name: array<Byte>, n: StrResult, value: array<Byte>, v: StrResult)
    returns (r: HdrResult)
    requires t.Valid() && name != t.buf && value != t.buf && name != value && n.Got? && v.Got?
    requires n.len < name.Length && v.len < value.Length && name[n.len] == 0 && value[v.len] == 0
    modifies t, t.buf, t.ents
    ensures t.Valid()
    ensures CameTo(Finish(old(t.View()), inc, Piece(name[..n.len], n.consumed), Piece(value[..v.len], v.consumed)),
                   r, name, value, old(t.View()), t.View())
  {
    hide Insert, CStr, Denotes, TableSize, DataSize, TableOk;
    if inc {
      var ok := t.Add(CStr(name[..n.len]), CStr(value[..v.len]));
      if !ok { return Rejected; }
    }
    return Parsed(n.len, v.len, n.consumed + v.consumed);
  }

  lemma {:induction false} InsertAllSnoc(t: Table, hs: seq<Header>, h: Header)
    ensures InsertAll(t, hs + [h]) == Insert(InsertAll(t, hs), Entry(h.name, h.value))
    decreases |hs|
  {
    hide Insert;
    if hs == [] {
      assert InsertAll(Insert(t, Entry(h.name, h.value)), []) == Insert(t, Entry(h.name, h.value));
      assert (hs + [h])[1..] == [];
    } else {
      assert (hs + [h])[1..] == hs[1..] + [h];
      InsertAllSnoc(Insert(t, Entry(hs[0].name, hs[0].value)), hs[1..], h);
    }
  }

  ghost predicate Apart(enc: DynTable, dec: DynTable)
  {
    enc != dec && enc.buf != dec.buf && enc.ents != dec.ents
  }

  /** One header over the wire, by the code of both ends. */
  method Send(enc: DynTable, dec: DynTable, h: Header, wire: array<Byte>, name: array<Byte>, value: array<Byte>)
    returns (got: Entry, used: nat)
    requires enc.Valid() && dec.Valid() && Apart(enc, dec) && enc.View() == dec.View()
    requires name != value && name != wire && value != wire
    requires {enc.buf, dec.buf} !! {wire, name, value}
    requires HeaderOk(h) && |EncodeInc(h)| <= wire.Length && |h.name| < name.Length && |h.value| < value.Length
    modifies enc, enc.buf, enc.ents, dec, dec.buf, dec.ents, wire, name, value
    ensures enc.Valid() && dec.Valid() && enc.View() == dec.View()
    ensures enc.View() == Insert(old(enc.View()), Entry(h.name, h.value))
    ensures got == Entry(h.name, h.value) && used == |EncodeInc(h)|
  {
    hide Read, Insert, Denotes, TableSize, DataSize, TableOk, EncodeInc;
    ghost var t := dec.View();
    var n := HdrEncodeInc(enc, h, wire);
    ghost var e := enc.View();
    var bytes := wire[..n];
    HeaderRoundTrip(ByCode, h, [], t, name.Length, value.Length);
    assert EncodeInc(h) + [] == bytes;
    var r := HdrDecodeDyn(dec, bytes, name, value);
    assert enc.View() == e;
    got, used := Entry(name[..r.nlen], value[..r.vlen]), r.consumed;
  }

  /** Any sequence of headers over the wire: both tables end equal, every header arrives. */
  method Exchange(enc: DynTable, dec: DynTable, hs: seq<Header>, wire: array<Byte>, name: array<Byte>,
                  value: array<Byte>)
    returns (got: seq<Entry>)
    requires enc.Valid() && dec.Valid() && Apart(enc, dec) && enc.View() == dec.View()
    requires name != value && name != wire && value != wire
    requires {enc.buf, dec.buf} !! {wire, name, value}
    requires forall i :: 0 <= i < |hs| ==> HeaderOk(hs[i]) && |EncodeInc(hs[i])| <= wire.Length
    requires forall i :: 0 <= i < |hs| ==> |hs[i].name| < name.Length && |hs[i].value| < value.Length
    modifies enc, enc.buf, enc.ents, dec, dec.buf, dec.ents, wire, name, value
    ensures enc.Valid() && dec.Valid() && enc.View() == dec.View()
    ensures enc.View() == InsertAll(old(enc.View()), hs) && got == Entries(hs)
  {
    hide Insert, Denotes, TableSize, DataSize, TableOk, EncodeInc;
    got := [];
    var i: nat := 0;
    while i < |hs|
      invariant i <= |hs| && enc.Valid() && dec.Valid() && enc.View() == dec.View()
      invariant enc.View() == InsertAll(old(enc.View()), hs[..i]) && got == Entries(hs[..i])
    {
      var e, used := Send(enc, dec, hs[i], wire, name, value);
      InsertAllSnoc(old(enc.View()), hs[..i], hs[i]);
      assert hs[..i + 1] == hs[..i] + [hs[i]];
      got := got + [e];
      i := i + 1;
      assert got == Entries(hs[..i]);
    }
    assert hs[..i] == hs;
  }
}
