/** A published QUIC payload and its pixels.

  The payload is the two by two RGBA vector that the source takes from the
  reference encoder. Reading it touches every kind of prediction, short and
  escaped codewords, two model buckets and the choice of code after an update,
  so it ties the whole decoder to the format and not only to its own writer.
*/
module QuicVector {
  import opened Basics
  import opened Bits
  import opened QuicModel
  import opened QuicPixel
  import opened QuicSegment
  import opened QuicRow
  import opened QuicImage
  import QuicLaws
  import Golomb

  // ---------------------------------------------------------------------------
  // Numbers as bit strings
  // ---------------------------------------------------------------------------

  lemma {:induction false} Cut(a: nat, n: nat, b: nat, m: nat)
    requires b < Pow2(m)
    ensures ToBits(a * Pow2(m) + b, n + m) == ToBits(a, n) + ToBits(b, m)
  {
    if m == 0 {
      assert a * Pow2(m) + b == a;
    } else {
      Cut(a, n, b / 2, m - 1);
      assert a * Pow2(m) == 2 * (a * Pow2(m - 1));
      assert (a * Pow2(m) + b) / 2 == a * Pow2(m - 1) + b / 2;
    }
  }

  lemma {:induction false} ShlIsTimes(v: nat, n: nat)
    ensures Shl(v, n) == v * Pow2(n)
  {
    if n > 0 {
      ShlIsTimes(v, n - 1);
    }
  }

  lemma ShrIsQuotient(q: nat, r: nat, n: nat, v: nat)
    requires r < Pow2(n) && v == q * Pow2(n) + r
    ensures Shr(v, n) == q && Low(v, n) == r
  {
    ShlIsTimes(q, n);
    ShrLowOfShl(q, r, n);
  }

  lemma {:induction false} ZerosAreBits(n: nat, x: nat, m: nat)
    requires x < Pow2(m)
    ensures Golomb.Zeros(n) + ToBits(x, m) == ToBits(x, n + m)
  {
    if n == 0 {
      assert Golomb.Zeros(n) + ToBits(x, m) == ToBits(x, m);
    } else {
      ZerosAreBits(n - 1, x, m);
      Pow2Monotone(m, n - 1 + m);
      ZeroBit(x, n - 1 + m);
      assert Golomb.Zeros(n) + ToBits(x, m) == [false] + (Golomb.Zeros(n - 1) + ToBits(x, m));
    }
  }

  lemma {:induction false} ZeroBit(x: nat, m: nat)
    ensures x < Pow2(m) ==> [false] + ToBits(x, m) == ToBits(x, 1 + m)
    ensures x < Pow2(m) ==> [true] + ToBits(x, m) == ToBits(Pow2(m) + x, 1 + m)
  {
    if m == 0 {
      assert ToBits(1, 1) == [true] && ToBits(0, 1) == [false];
    } else {
      ZeroBit(x / 2, m - 1);
      assert (Pow2(m) + x) / 2 == Pow2(m - 1) + x / 2;
      assert [true] + ToBits(x, m) == ([true] + ToBits(x / 2, m - 1)) + [x % 2 == 1];
      assert [false] + ToBits(x, m) == ([false] + ToBits(x / 2, m - 1)) + [x % 2 == 1];
    }
  }

  lemma Pow2Eight(n: nat)
    ensures Pow2(n + 8) == 0x100 * Pow2(n)
  {
    Pow2Step(n);
    Pow2Step(n + 4);
  }

  // ---------------------------------------------------------------------------
  // Codewords and prices of bytes
  // ---------------------------------------------------------------------------

  /** The constants of the eight codes of a byte. */
  lemma ByteCodes(code: nat)
    requires Golomb.Params(code, 8)
    ensures Pow2(code) == [1, 2, 4, 8, 16, 32, 64, 128][code]
    ensures Golomb.MaxPrefix(code, 8) == [18, 18, 18, 18, 15, 7, 3, 1][code]
    ensures Golomb.FirstEscape(code, 8) == [18, 36, 72, 144, 240, 224, 192, 128][code]
    ensures Golomb.SuffixBits(code, 8) == [8, 8, 8, 7, 4, 5, 6, 7][code]
  {
    hide Pow2, Golomb.MaxPrefix, Golomb.FirstEscape, Golomb.SuffixBits;
    Powers();
    QuicLaws.PrefixTable(code);
    EscapeStart(code);
    SuffixWidth(code, [8, 8, 8, 7, 4, 5, 6, 7][code]);
  }

  lemma EscapeStart(code: nat)
    requires Golomb.Params(code, 8)
    ensures Golomb.FirstEscape(code, 8) == Golomb.MaxPrefix(code, 8) * Pow2(code)
  {
    ShlIsTimes(Golomb.MaxPrefix(code, 8), code);
  }

  lemma SuffixWidth(code: nat, width: nat)
    requires Golomb.Params(code, 8) && width > 0
    requires Pow2(width - 1) < Pow2(8) - Golomb.FirstEscape(code, 8) <= Pow2(width)
    ensures Golomb.SuffixBits(code, 8) == width
  {
    hide Pow2, Golomb.CeilLog2, Golomb.FirstEscape;
    var escapes := Golomb.EscapeValues(code, 8);
    Golomb.CeilLog2Least(escapes, width);
    Golomb.CeilLog2Least(escapes, width - 1);
  }

  lemma Powers()
    ensures Pow2(0) == 1 && Pow2(1) == 2 && Pow2(2) == 4 && Pow2(3) == 8 && Pow2(4) == 16
    ensures Pow2(5) == 32 && Pow2(6) == 64 && Pow2(7) == 128 && Pow2(8) == 256
  {
    Pow2Byte();
    assert Pow2(1) == 2 && Pow2(2) == 4;
    Pow2Step(0);
    Pow2Step(2);
    Pow2Step(3);
  }

  /** What each code costs for a byte. */
  function Prices(v: byte): (p: seq<nat>)
    ensures |p| == 8
  {
    [if v < 18 then v + 1 else 26,
     if v < 36 then v / 2 + 2 else 26,
     if v < 72 then v / 4 + 3 else 26,
     if v < 144 then v / 8 + 4 else 25,
     if v < 240 then v / 16 + 5 else 19,
     if v < 224 then v / 32 + 6 else 12,
     if v < 192 then v / 64 + 7 else 9,
     8]
  }

  lemma BytePrice(v: byte, code: nat)
    requires Golomb.Params(code, 8)
    ensures Golomb.CodeLength(v, code, 8) == Prices(v)[code]
  {
    hide Golomb.FirstEscape, Golomb.MaxPrefix, Golomb.SuffixBits, Pow2, Shr;
    ByteCodes(code);
    var p := [1, 2, 4, 8, 16, 32, 64, 128][code];
    ByteQuotient(v, code, p);
  }

  lemma ByteQuotient(v: byte, code: nat, p: nat)
    requires Golomb.Params(code, 8) && p == Pow2(code)
    ensures Shr(v, code) == v / p && Low(v, code) == v % p
  {
    hide Pow2, Shr, Low;
    assert v == v / p * p + v % p;
    ShrIsQuotient(v / p, v % p, code, v);
  }

  /** A codeword as one number: a one bit above the remainder, or the rank among the escaped values. */
  lemma Codeword(v: byte, code: nat)
    requires Golomb.Params(code, 8)
    ensures var first := [18, 36, 72, 144, 240, 224, 192, 128][code];
      var p := [1, 2, 4, 8, 16, 32, 64, 128][code];
      Golomb.Encode(v, code, 8) == ToBits(if v < first then p + v % p else v - first, Prices(v)[code])
  {
    hide Golomb.FirstEscape, Golomb.MaxPrefix, Golomb.SuffixBits, Pow2, Shr, Low, ToBits, Golomb.Zeros, Prices;
    ByteCodes(code);
    BytePrice(v, code);
    var p := [1, 2, 4, 8, 16, 32, 64, 128][code];
    ByteQuotient(v, code, p);
    var first := Golomb.FirstEscape(code, 8);
    if v < first {
      ZeroBit(v % p, code);
      PowerStep(code);
      ZerosAreBits(Shr(v, code), p + v % p, 1 + code);
      assert Golomb.Encode(v, code, 8) == Golomb.Zeros(Shr(v, code)) + ([true] + ToBits(v % p, code));
    } else {
      SuffixHolds(v, code);
      ZerosAreBits(Golomb.MaxPrefix(code, 8), v - first, Golomb.SuffixBits(code, 8));
    }
  }

  lemma PowerStep(n: nat)
    ensures Pow2(1 + n) == 2 * Pow2(n)
  {
  }

  lemma SuffixHolds(v: byte, code: nat)
    requires Golomb.Params(code, 8) && Golomb.FirstEscape(code, 8) <= v
    ensures v - Golomb.FirstEscape(code, 8) < Pow2(Golomb.SuffixBits(code, 8))
  {
    hide Golomb.CeilLog2, Golomb.FirstEscape, Golomb.MaxPrefix, Pow2;
    Powers();
  }

  // ---------------------------------------------------------------------------
  // The payload
  // ---------------------------------------------------------------------------

  /** The two by two RGBA vector of the reference encoder, word by word. */
  function Payload(): seq<byte> {
    [0x51, 0x55, 0x49, 0x43] + ([0x00, 0x00, 0x00, 0x00] + ([0x05, 0x00, 0x00, 0x00] +
    ([0x02, 0x00, 0x00, 0x00] + ([0x02, 0x00, 0x00, 0x00] + ([0x00, 0x80, 0x80, 0x80] +
    ([0x00, 0x80, 0x03, 0x00] + ([0x01, 0x00, 0xe0, 0x02] + ([0x00, 0x00, 0x00, 0x3a] +
    ([0x04, 0x20, 0x00, 0xec] + ([0x06, 0x06, 0x06, 0x02] + ([0x00, 0xf0, 0xf7, 0x07] +
    [0x00, 0x00, 0x00, 0x00])))))))))))
  }

  lemma WordFirst(a: seq<byte>, rest: seq<byte>)
    requires |a| == 4 && |rest| % 4 == 0
    ensures |a + rest| % 4 == 0
    ensures AllBits(a + rest) == ToBits(LittleEndian(a), 32) + AllBits(rest)
  {
    hide ToBits;
    assert (a + rest)[..4] == a && (a + rest)[4..] == rest;
  }

  /** A word in front of a number of whole words. */
  lemma WordAndNumber(a: seq<byte>, rest: seq<byte>, w: nat, n: nat, m: nat, p: nat)
    requires |a| == 4 && |rest| % 4 == 0 && w == LittleEndian(a)
    requires p == Pow2(m) && n < p && AllBits(rest) == ToBits(n, m)
    ensures AllBits(a + rest) == ToBits(w * p + n, 32 + m)
  {
    hide ToBits, AllBits, Pow2, LittleEndian;
    WordFirst(a, rest);
    Cut(w, 32, n, m);
  }

  lemma LastWord(a: seq<byte>)
    requires |a| == 4
    ensures AllBits(a) == ToBits(LittleEndian(a), 32)
  {
    hide ToBits;
    WordFirst(a, []);
    assert a + [] == a;
    assert ToBits(LittleEndian(a), 32) + [] == ToBits(LittleEndian(a), 32);
  }

  lemma Pow2Of32(n: nat)
    ensures Pow2(n + 32) == 0x1_0000_0000 * Pow2(n)
  {
    hide Pow2;
    Pow2Eight(n);
    Pow2Eight(n + 8);
    Pow2Eight(n + 16);
    Pow2Eight(n + 24);
  }

  lemma WordPowers()
    ensures Pow2(32) == 0x1_0000_0000
    ensures Pow2(64) == 0x1_0000_0000_0000_0000
    ensures Pow2(96) == 0x1_0000_0000_0000_0000_0000_0000
    ensures Pow2(128) == 0x1_0000_0000_0000_0000_0000_0000_0000_0000
    ensures Pow2(160) == 0x1_0000_0000_0000_0000_0000_0000_0000_0000_0000_0000
    ensures Pow2(192) == 0x1_0000_0000_0000_0000_0000_0000_0000_0000_0000_0000_0000_0000
    ensures Pow2(224) == 0x1_0000_0000_0000_0000_0000_0000_0000_0000_0000_0000_0000_0000_0000_0000
  {
    hide Pow2;
    Pow2Word();
    Pow2Of32(32);
    Pow2Of32(64);
    Pow2Of32(96);
    Pow2Of32(128);
    Pow2Of32(160);
    Pow2Of32(192);
  }

  /** The eight words after the header, as one number. */
  const PIXELS := 0x8080_8000_0003_8000_02e0_0001_3a00_0000_ec00_2004_0206_0606_07f7_f000_0000_0000

  lemma PayloadBits()
    ensures |Payload()| == 52
    ensures AllBits(Payload()) == HeaderBits(Header(0x4349_5551, 0, 5, 2, 2)) + ToBits(PIXELS, 256)
  {
    hide ToBits, AllBits, Pow2;
    WordPowers();
    var w12 := [0x00, 0x00, 0x00, 0x00];
    LastWord(w12);
    WordAndNumber([0x00, 0xf0, 0xf7, 0x07], w12, 0x07f7_f000, 0, 32, Pow2(32));
    var w11 := [0x00, 0xf0, 0xf7, 0x07] + w12;
    WordAndNumber([0x06, 0x06, 0x06, 0x02], w11, 0x0206_0606, 0x07f7_f000_0000_0000, 64, Pow2(64));
    var w10 := [0x06, 0x06, 0x06, 0x02] + w11;
    WordAndNumber([0x04, 0x20, 0x00, 0xec], w10, 0xec00_2004, 0x0206_0606_07f7_f000_0000_0000, 96, Pow2(96));
    var w9 := [0x04, 0x20, 0x00, 0xec] + w10;
    WordAndNumber([0x00, 0x00, 0x00, 0x3a], w9, 0x3a00_0000,
                  0xec00_2004_0206_0606_07f7_f000_0000_0000, 128, Pow2(128));
    var w8 := [0x00, 0x00, 0x00, 0x3a] + w9;
    WordAndNumber([0x01, 0x00, 0xe0, 0x02], w8, 0x02e0_0001,
                  0x3a00_0000_ec00_2004_0206_0606_07f7_f000_0000_0000, 160, Pow2(160));
    var w7 := [0x01, 0x00, 0xe0, 0x02] + w8;
    WordAndNumber([0x00, 0x80, 0x03, 0x00], w7, 0x0003_8000,
                  0x02e0_0001_3a00_0000_ec00_2004_0206_0606_07f7_f000_0000_0000, 192, Pow2(192));
    var w6 := [0x00, 0x80, 0x03, 0x00] + w7;
    WordAndNumber([0x00, 0x80, 0x80, 0x80], w6, 0x8080_8000,
                  0x0003_8000_02e0_0001_3a00_0000_ec00_2004_0206_0606_07f7_f000_0000_0000, 224, Pow2(224));
    HeaderFirst([0x51, 0x55, 0x49, 0x43], [0x00, 0x00, 0x00, 0x00], [0x05, 0x00, 0x00, 0x00],
                [0x02, 0x00, 0x00, 0x00], [0x02, 0x00, 0x00, 0x00], [0x00, 0x80, 0x80, 0x80] + w6);
  }

  lemma HeaderFirst(a: seq<byte>, b: seq<byte>, c: seq<byte>, d: seq<byte>, e: seq<byte>, rest: seq<byte>)
    requires |a| == |b| == |c| == |d| == |e| == 4 && |rest| % 4 == 0
    ensures var h := Header(LittleEndian(a), LittleEndian(b), LittleEndian(c), LittleEndian(d), LittleEndian(e));
      AllBits(a + (b + (c + (d + (e + rest))))) == HeaderBits(h) + AllBits(rest)
  {
    hide *;
    var h := Header(LittleEndian(a), LittleEndian(b), LittleEndian(c), LittleEndian(d), LittleEndian(e));
    HeaderThen(h, AllBits(rest));
    var r4 := e + rest;
    WordFirst(e, rest);
    var r3 := d + r4;
    WordFirst(d, r4);
    var r2 := c + r3;
    WordFirst(c, r3);
    var r1 := b + r2;
    WordFirst(b, r2);
    WordFirst(a, r1);
  }

  lemma HeaderThen(h: Header, rest: BitString)
    ensures HeaderBits(h) + rest
         == ToBits(h.magic, 32) + (ToBits(h.version, 32) + (ToBits(h.tag, 32) + (ToBits(h.width, 32)
            + (ToBits(h.height, 32) + rest))))
  {
    Five(ToBits(h.magic, 32), ToBits(h.version, 32), ToBits(h.tag, 32), ToBits(h.width, 32), ToBits(h.height, 32),
         rest);
  }

  lemma Five(a: BitString, b: BitString, c: BitString, d: BitString, e: BitString, rest: BitString)
    ensures a + (b + (c + (d + e))) + rest == a + (b + (c + (d + (e + rest))))
  {
    assert d + e + rest == d + (e + rest);
    assert c + (d + e) + rest == c + (d + e + rest);
    assert b + (c + (d + e)) + rest == b + (c + (d + e) + rest);
    assert a + (b + (c + (d + e))) + rest == a + (b + (c + (d + e)) + rest);
  }

  // ---------------------------------------------------------------------------
  // Its codewords
  // ---------------------------------------------------------------------------

  /** The payload behind the colours of the first row, its alpha, and the same of the second row. */
  const ALPHA0 := 0x200_0000_ec00_2004_0206_0606_07f7_f000_0000_0000
  const COLOR1 := 0x2004_0206_0606_07f7_f000_0000_0000
  const ALPHA1 := 0x7f7_f000_0000_0000

  lemma CutWord(v: byte, code: nat, number: nat, n: nat, tail: nat, m: nat, p: nat, whole: nat)
    requires Golomb.Params(code, 8) && n == Prices(v)[code] && p == Pow2(m)
    requires var first := [18, 36, 72, 144, 240, 224, 192, 128][code];
      var low := [1, 2, 4, 8, 16, 32, 64, 128][code];
      number == if v < first then low + v % low else v - first
    requires tail < p && whole == number * p + tail
    ensures ToBits(whole, n + m) == Golomb.Encode(v, code, 8) + ToBits(tail, m)
  {
    hide ToBits, Golomb.Encode, Pow2, Prices;
    Codeword(v, code);
    Cut(number, n, tail, m);
  }

  lemma TailPowers()
    ensures Pow2(44) == 0x1000_0000_0000
    ensures Pow2(52) == 0x10_0000_0000_0000
    ensures Pow2(60) == 0x1000_0000_0000_0000
    ensures Pow2(68) == 0x10_0000_0000_0000_0000
    ensures Pow2(76) == 0x1000_0000_0000_0000_0000
    ensures Pow2(84) == 0x10_0000_0000_0000_0000_0000
    ensures Pow2(93) == 0x2000_0000_0000_0000_0000_0000
    ensures Pow2(105) == 0x200_0000_0000_0000_0000_0000_0000
    ensures Pow2(120) == 0x100_0000_0000_0000_0000_0000_0000_0000
    ensures Pow2(146) == 0x4_0000_0000_0000_0000_0000_0000_0000_0000_0000
    ensures Pow2(154) == 0x400_0000_0000_0000_0000_0000_0000_0000_0000_0000
    ensures Pow2(180) == 0x10_0000_0000_0000_0000_0000_0000_0000_0000_0000_0000_0000
    ensures Pow2(206) == 0x4000_0000_0000_0000_0000_0000_0000_0000_0000_0000_0000_0000_0000
    ensures Pow2(232) == 0x100_0000_0000_0000_0000_0000_0000_0000_0000_0000_0000_0000_0000_0000_0000
    ensures Pow2(240) == 0x1_0000_0000_0000_0000_0000_0000_0000_0000_0000_0000_0000_0000_0000_0000_0000
    ensures Pow2(248) == 0x100_0000_0000_0000_0000_0000_0000_0000_0000_0000_0000_0000_0000_0000_0000_0000
  {
    hide Pow2;
    WordPowers();
    Powers();
    Pow2Step(32);
    Pow2Eight(36);
    Pow2Eight(44);
    Pow2Eight(52);
    Pow2Eight(60);
    Pow2Eight(68);
    Pow2Eight(76);
    PowerStep(84);
    Pow2Eight(85);
    Pow2Step(93);
    Pow2Eight(97);
    Pow2Of32(76);
    Pow2Step(108);
    Pow2Eight(112);
    Pow2Of32(97);
    PowerStep(129);
    Pow2Eight(130);
    Pow2Eight(138);
    Pow2Eight(146);
    Pow2Step(160);
    Pow2Eight(164);
    Pow2Eight(172);
    PowerStep(192);
    PowerStep(193);
    Pow2Step(194);
    Pow2Eight(198);
    Pow2Eight(224);
    Pow2Eight(232);
    Pow2Eight(240);
  }

  /** The first row reads 0, 0, 0 and 32, 64, 96 in its colours. */
  lemma FirstColors()
    ensures ToBits(PIXELS, 256)
         == Golomb.Encode(0, 7, 8) + (Golomb.Encode(0, 7, 8) + (
            Golomb.Encode(0, 7, 8) + (Golomb.Encode(32, 0, 8) + (
            Golomb.Encode(64, 0, 8) + (Golomb.Encode(96, 0, 8) + ToBits(ALPHA0, 154))))))
  {
    hide ToBits, Golomb.Encode, Pow2;
    TailPowers();
    CutWord(0, 7, 128, 8,
            0x80_8000_0003_8000_02e0_0001_3a00_0000_ec00_2004_0206_0606_07f7_f000_0000_0000, 248, Pow2(248), PIXELS);
    CutWord(0, 7, 128, 8,
            0x8000_0003_8000_02e0_0001_3a00_0000_ec00_2004_0206_0606_07f7_f000_0000_0000, 240, Pow2(240),
            0x80_8000_0003_8000_02e0_0001_3a00_0000_ec00_2004_0206_0606_07f7_f000_0000_0000);
    CutWord(0, 7, 128, 8,
            0x3_8000_02e0_0001_3a00_0000_ec00_2004_0206_0606_07f7_f000_0000_0000, 232, Pow2(232),
            0x8000_0003_8000_02e0_0001_3a00_0000_ec00_2004_0206_0606_07f7_f000_0000_0000);
    CutWord(32, 0, 14, 26,
            0x2e0_0001_3a00_0000_ec00_2004_0206_0606_07f7_f000_0000_0000, 206, Pow2(206),
            0x3_8000_02e0_0001_3a00_0000_ec00_2004_0206_0606_07f7_f000_0000_0000);
    CutWord(64, 0, 46, 26,
            0x1_3a00_0000_ec00_2004_0206_0606_07f7_f000_0000_0000, 180, Pow2(180),
            0x2e0_0001_3a00_0000_ec00_2004_0206_0606_07f7_f000_0000_0000);
    CutWord(96, 0, 78, 26,
            ALPHA0, 154, Pow2(154), 0x1_3a00_0000_ec00_2004_0206_0606_07f7_f000_0000_0000);
  }

  /** The first row reads 0 and 254 in its alpha. */
  lemma FirstAlpha()
    ensures ToBits(ALPHA0, 154)
         == Golomb.Encode(0, 7, 8) + (Golomb.Encode(254, 0, 8) + ToBits(COLOR1, 120))
  {
    hide ToBits, Golomb.Encode, Pow2;
    TailPowers();
    CutWord(0, 7, 128, 8,
            0xec00_2004_0206_0606_07f7_f000_0000_0000, 146, Pow2(146), ALPHA0);
    CutWord(254, 0, 236, 26,
            COLOR1, 120, Pow2(120), 0xec00_2004_0206_0606_07f7_f000_0000_0000);
  }

  /** The second row reads 160, 192, 224 and three times 224 in its colours. */
  lemma SecondColors()
    ensures ToBits(COLOR1, 120)
         == Golomb.Encode(160, 4, 8) + (Golomb.Encode(192, 5, 8) + (
            Golomb.Encode(224, 6, 8) + (Golomb.Encode(224, 7, 8) + (
            Golomb.Encode(224, 7, 8) + (Golomb.Encode(224, 7, 8) + ToBits(ALPHA1, 60))))))
  {
    hide ToBits, Golomb.Encode, Pow2;
    TailPowers();
    CutWord(160, 4, 16, 15,
            0x4_0206_0606_07f7_f000_0000_0000, 105, Pow2(105), COLOR1);
    CutWord(192, 5, 32, 12,
            0x206_0606_07f7_f000_0000_0000, 93, Pow2(93), 0x4_0206_0606_07f7_f000_0000_0000);
    CutWord(224, 6, 32, 9,
            0x6_0606_07f7_f000_0000_0000, 84, Pow2(84), 0x206_0606_07f7_f000_0000_0000);
    CutWord(224, 7, 96, 8,
            0x606_07f7_f000_0000_0000, 76, Pow2(76), 0x6_0606_07f7_f000_0000_0000);
    CutWord(224, 7, 96, 8,
            0x6_07f7_f000_0000_0000, 68, Pow2(68), 0x606_07f7_f000_0000_0000);
    CutWord(224, 7, 96, 8,
            ALPHA1, 60, Pow2(60), 0x6_07f7_f000_0000_0000);
  }

  /** The second row reads 255 twice in its alpha. */
  lemma SecondAlpha()
    ensures ToBits(ALPHA1, 60)
         == Golomb.Encode(255, 7, 8) + (Golomb.Encode(255, 7, 8) + ToBits(0, 44))
  {
    hide ToBits, Golomb.Encode, Pow2;
    TailPowers();
    CutWord(255, 7, 127, 8,
            0x7_f000_0000_0000, 52, Pow2(52), ALPHA1);
    CutWord(255, 7, 127, 8,
            0, 44, Pow2(44), 0x7_f000_0000_0000);
  }

  // ---------------------------------------------------------------------------
  // What the models learn
  // ---------------------------------------------------------------------------

  lemma ChargedBy(counters: seq<nat>, v: byte, i: nat)
    requires |counters| == 8 && i < 8
    ensures Charged(counters, v, 8)[i] == counters[i] + Prices(v)[i]
  {
    hide Golomb.CodeLength, Prices;
    BytePrice(v, i);
  }

  /** A zero makes the smallest code the cheapest. */
  lemma FirstCharge()
    ensures Update(FreshBucket(8), 0, 8, 110) == Bucket([1, 2, 3, 4, 5, 6, 7, 8], 0)
  {
    hide Charged, BestFrom;
    var b := FreshBucket(8);
    var charged := Charged(b.counters, 0, 8);
    forall i | 0 <= i < 8
      ensures charged[i] == i + 1
    {
      ChargedBy(b.counters, 0, i);
    }
    UpdateChoosesLargestCheapest(b, 0, 8, 110);
    var best := Update(b, 0, 8, 110).bestCode;
    assert charged[best] <= charged[0] == 1;
    assert charged == [1, 2, 3, 4, 5, 6, 7, 8];
  }

  /** The code that is the cheapest for a zero and then this value. */
  function CheapestAfter(v: byte): (code: nat)
    requires v in {32, 64, 96, 254}
    ensures Golomb.Params(code, 8)
  {
    if v == 32 then 4 else if v == 64 then 5 else if v == 96 then 6 else 7
  }

  /** The counters after a zero and this value. */
  lemma CountersAfter(v: byte, counters: seq<nat>)
    requires v in {32, 64, 96, 254} && |counters| == 8
    requires forall i :: 0 <= i < 8 ==> counters[i] == i + 1 + Prices(v)[i]
    ensures counters == if v == 32 then [27, 20, 14, 12, 12, 13, 14, 16]
                        else if v == 64 then [27, 28, 22, 16, 14, 14, 15, 16]
                        else if v == 96 then [27, 28, 29, 20, 16, 15, 15, 16]
                        else [27, 28, 29, 29, 24, 18, 16, 16]
  {
    forall i | 0 <= i < 8
      ensures counters[i] == i + 1 + Prices(v)[i]
    {
    }
  }

  lemma CheapestIsUnique(counters: seq<nat>, a: nat, b: nat)
    requires |counters| == 8 && LargestCheapest(counters, 8, a) && LargestCheapest(counters, 8, b)
    ensures a == b
  {
    assert counters[a] <= counters[b] <= counters[a];
  }

  lemma SecondCharge(v: byte)
    requires v in {32, 64, 96, 254}
    ensures Update(Bucket([1, 2, 3, 4, 5, 6, 7, 8], 0), v, 8, 110).bestCode == CheapestAfter(v)
  {
    hide Charged, Update, Prices;
    var b := Bucket([1, 2, 3, 4, 5, 6, 7, 8], 0);
    var charged := Charged(b.counters, v, 8);
    forall i | 0 <= i < 8
      ensures charged[i] == i + 1 + Prices(v)[i]
    {
      ChargedBy(b.counters, v, i);
    }
    UpdateChoosesLargestCheapest(b, v, 8, 110);
    CountersAfter(v, charged);
    CheapestIsUnique(charged, Update(b, v, 8, 110).bestCode, CheapestAfter(v));
  }

  lemma Contexts(context: nat)
    requires context < Pow2(8)
    ensures context == 0 ==> ContextBuckets(8)[context] == 0
    ensures context >= 127 ==> ContextBuckets(8)[context] == 7
  {
    hide ContextBuckets, Pow2;
    Powers();
    QuicLaws.ContextGroups(8, context);
    var k := ContextBuckets(8)[context];
    if context == 0 && k > 0 {
      Pow2Monotone(1, k);
    }
    if k < 7 {
      Pow2Monotone(k + 1, 7);
    }
  }

  /** A channel of a row of two that has read a zero and `v`, before the next row. */
  ghost predicate Learned(ch: Channel, v: byte)
    requires v in {32, 64, 96, 254}
  {
    && ChannelOk(ch, 2, 8)
    && ch.residuals[0] == 0
    && ch.buckets[0].bestCode == CheapestAfter(v)
    && ch.buckets[7].bestCode == 7
  }

  lemma FreshReads()
    ensures ChannelOk(FreshChannel(2, 8), 2, 8) && BestCode(FreshChannel(2, 8), 0, 8) == 7
  {
    hide Pow2, ContextBuckets, Bounded;
  }

  /** After its first zero a fresh channel reads with code 0. */
  lemma ZeroTeaches()
    ensures var ch := SetResidual(FreshChannel(2, 8), 0, 0);
      && ChannelOk(ch, 2, 8)
      && var ch' := UpdateChannel(ch, 0, 8, 110);
         && ch'.residuals == [0, 0]
         && ch'.buckets[0] == Bucket([1, 2, 3, 4, 5, 6, 7, 8], 0)
         && ch'.buckets[7].bestCode == 7
         && BestCode(ch', 1, 8) == 0
  {
    hide Pow2, ContextBuckets, Bounded, Update;
    FreshReads();
    var start := FreshChannel(2, 8);
    assert start.residuals[0 := 0] == start.residuals == [0, 0];
    var ch := SetResidual(start, 0, 0);
    assert ch == start;
    Contexts(0);
    FirstCharge();
    assert ch.buckets[0] == FreshBucket(8);
  }

  lemma ValueTeaches(ch: Channel, v: byte)
    requires v in {32, 64, 96, 254} && ChannelOk(ch, 2, 8) && ch.residuals == [0, v]
    requires ch.buckets[0] == Bucket([1, 2, 3, 4, 5, 6, 7, 8], 0) && ch.buckets[7].bestCode == 7
    ensures Learned(UpdateChannel(ch, 1, 8, 110), v)
  {
    hide Pow2, ContextBuckets, Bounded, Update;
    Contexts(0);
    SecondCharge(v);
  }

  /** In the next row the first pixel is read with the learned code. */
  lemma LearnedReads(ch: Channel, v: byte)
    requires v in {32, 64, 96, 254} && Learned(ch, v)
    ensures var ch' := StartNextRow(ch);
      ChannelOk(ch', 2, 8) && BestCode(ch', 0, 8) == CheapestAfter(v)
  {
    hide Pow2, ContextBuckets, Bounded;
    Contexts(0);
  }

  /** Behind a large residual the second pixel is read with the code of a fresh bucket. */
  lemma LargeReads(ch: Channel, v: byte, u: byte)
    requires v in {32, 64, 96, 254} && Learned(ch, v) && u >= 127
    ensures var ch' := SetResidual(StartNextRow(ch), 0, u);
      ChannelOk(ch', 2, 8) && BestCode(UpdateChannel(ch', 0, 8, 110), 1, 8) == 7
  {
    hide Pow2, ContextBuckets, Bounded, Update;
    Powers();
    Contexts(0);
    Contexts(u);
    var ch' := SetResidual(StartNextRow(ch), 0, u);
    assert Small(ch'.residuals, 8);
  }

  // ---------------------------------------------------------------------------
  // Rows of two pixels
  // ---------------------------------------------------------------------------

  /** One codeword sets one component. */
  lemma ChannelStep(rest: BitString, f: Format, channels: seq<Channel>, previous: Option<seq<Pixel>>,
                    current: seq<Pixel>, position: nat, i: nat, v: byte, code: nat, value: nat)
    requires FormatOk(f) && f.bpc == 8 && ChannelsOk(f, channels, |current|) && i < |channels|
    requires PreviousOk(previous, |current|) && position < |current|
    requires Golomb.Params(code, 8) && code == BestCode(channels[i], position, 8) && v < Pow2(8)
    requires value == Reconstruct(Predictor(previous, current, position, f.components[i]), v, 8)
    ensures var channels' := channels[i := SetResidual(channels[i], position, v)];
      && ChannelsOk(f, channels', |current|)
      && DecodeChannels(Golomb.Encode(v, code, 8) + rest, f, channels, previous, current, position, i)
      == DecodeChannels(rest, f, channels', previous, SetComponent(current, position, f.components[i], value),
                        position, i + 1)
  {
    hide Golomb.Decode, Golomb.Encode, Reconstruct, Predictor, Pow2, BestCode;
    Golomb.RoundTrip(v, code, 8, rest);
    ResidualKept(f, channels, i, position, v, |current|);
  }

  /** A row of two without waits: both pixels, each followed by an update of the models. */
  lemma PairSegment(bits: BitString, f: Format, previous: Option<seq<Pixel>>, current: seq<Pixel>, codec: Codec,
                    first: seq<Channel>, current1: seq<Pixel>, bits1: BitString,
                    second: seq<Channel>, current2: seq<Pixel>, bits2: BitString)
    requires Ready(f, codec, previous, current) && |current| == 2
    requires codec.coding.wait == 0 && codec.coding.codeIndex == 0
    requires DecodeChannels(bits, f, codec.channels, previous, current, 0, 0) == Success((first, current1), bits1)
    requires ChannelsOk(f, first, 2) && |current1| == 2
    requires var taught := UpdateModels(f, first, 0, codec.coding.trigger);
      && ChannelsOk(f, taught, 2)
      && DecodeChannels(bits1, f, taught, previous, current1, 1, 0) == Success((second, current2), bits2)
    requires ChannelsOk(f, second, 2) && |current2| == 2
    ensures var r := DecodeSegment(bits, f, previous, current, codec, 0, 2);
      && r.Success? && r.rest == bits2 && r.value.row == current2
      && r.value.codec.channels == UpdateModels(f, second, 1, codec.coding.trigger)
      && r.value.codec.coding == codec.coding.(randomIndex := r.value.codec.coding.randomIndex)
  {
    hide DecodeChannels, UpdateChannel, BucketsOk, Small;
    var codec1 := codec.(channels := first);
    AdaptOk(f, codec1, 0, 2);
    var codec2 := AfterFirst(f, codec1);
    var codec3 := codec2.(channels := second);
    AdaptOk(f, codec3, 1, 2);
    var codec4 := Adapt(f, codec3, 1).1;
    assert DecodeFrom(bits2, f, previous, current2, codec4, Cursor(2, 2, 0), 2)
        == Success(Done(codec4.(coding := codec4.coding.(wait := 0)), current2), bits2);
    assert DecodeFrom(bits2, f, previous, current2, codec3, Cursor(2, 1, 0), 2)
        == DecodeFrom(bits2, f, previous, current2, codec4, Cursor(2, 2, 0), 2);
    assert DecodeFrom(bits1, f, previous, current1, codec2, Cursor(1, 1, 0), 2)
        == DecodeFrom(bits2, f, previous, current2, codec3, Cursor(2, 1, 0), 2);
  }

  /** Codewords of bytes, in order, before `rest`. */
  function Words(values: seq<byte>, codes: seq<nat>, i: nat, rest: BitString): BitString
    requires |codes| == |values| && i <= |values|
    requires forall j :: 0 <= j < |codes| ==> Golomb.Params(codes[j], 8)
    decreases |values| - i
  {
    if i == |values| then rest else Golomb.Encode(values[i], codes[i], 8) + Words(values, codes, i + 1, rest)
  }

  /** The codes that the channels propose at a position. */
  ghost predicate Proposed(channels: seq<Channel>, codes: seq<nat>, position: nat, width: nat, i: nat) {
    && |codes| == |channels| && position < width
    && (forall j :: 0 <= j < |codes| ==> Golomb.Params(codes[j], 8))
    && forall j :: i <= j < |channels| ==>
         ChannelOk(channels[j], width, 8) && codes[j] == BestCode(channels[j], position, 8)
  }

  /** Channels after reading these residuals at a position. */
  function Residuals(channels: seq<Channel>, position: nat, values: seq<byte>, i: nat): (r: seq<Channel>)
    requires |values| == |channels|
    requires forall j :: 0 <= j < |channels| ==> position < |channels[j].residuals|
    ensures |r| == |channels|
  {
    seq(|channels|, j requires 0 <= j < |channels| =>
      if j < i then channels[j] else SetResidual(channels[j], position, values[j]))
  }

  /** A row whose pixel at a position has read these residuals in the components from `i` on. */
  ghost predicate Reads(f: Format, previous: Option<seq<Pixel>>, before: seq<Pixel>, after: seq<Pixel>, position: nat,
                        values: seq<byte>, i: nat)
    requires FormatOk(f) && position < |before| && PreviousOk(previous, |before|) && |values| == |f.components|
    requires Pow2(8) == 256 && i <= |values|
  {
    && |after| == |before|
    && (forall p :: 0 <= p < |before| && p != position ==> after[p] == before[p])
    && (forall j :: i <= j < |values| ==>
          after[position][f.components[j]]
          == Reconstruct(Predictor(previous, before, position, f.components[j]), values[j], 8))
    && (forall c :: 0 <= c < 4 && c !in f.components[i..] ==> after[position][c] == before[position][c])
  }

  lemma {:induction false} PixelReads(
      rest: BitString, f: Format, channels: seq<Channel>, previous: Option<seq<Pixel>>,
      current: seq<Pixel>, position: nat, values: seq<byte>, codes: seq<nat>, i: nat)
    requires FormatOk(f) && f.bpc == 8 && ChannelsOk(f, channels, |current|) && PreviousOk(previous, |current|)
    requires Proposed(channels, codes, position, |current|, i) && |values| == |channels| && i <= |channels|
    requires Pow2(8) == 256
    ensures var r := DecodeChannels(Words(values, codes, i, rest), f, channels, previous, current, position, i);
      && r.Success? && r.rest == rest && r.value.0 == Residuals(channels, position, values, i)
      && Reads(f, previous, current, r.value.1, position, values, i)
    decreases |channels| - i
  {
    hide Golomb.Encode, Reconstruct, Pow2, BestCode, BucketsOk, Small, DecodeChannels, Reads, Predictor;
    if i == |channels| {
      AllRead(rest, f, channels, previous, current, position, values);
    } else {
      var c := f.components[i];
      var value := Reconstruct(Predictor(previous, current, position, c), values[i], 8);
      ChannelStep(Words(values, codes, i + 1, rest), f, channels, previous, current, position, i, values[i], codes[i],
                  value);
      var channels' := channels[i := SetResidual(channels[i], position, values[i])];
      var current' := SetComponent(current, position, c, value);
      assert Proposed(channels', codes, position, |current|, i + 1);
      PixelReads(rest, f, channels', previous, current', position, values, codes, i + 1);
      assert Residuals(channels', position, values, i + 1) == Residuals(channels, position, values, i);
      ReadsOneMore(f, previous, current, current',
                   DecodeChannels(Words(values, codes, i, rest), f, channels, previous, current, position, i).value.1,
                   position, values, i);
    }
  }

  lemma AllRead(rest: BitString, f: Format, channels: seq<Channel>, previous: Option<seq<Pixel>>,
                current: seq<Pixel>, position: nat, values: seq<byte>)
    requires FormatOk(f) && ChannelsOk(f, channels, |current|) && PreviousOk(previous, |current|)
    requires position < |current| && |values| == |channels| && Pow2(8) == 256
    ensures DecodeChannels(rest, f, channels, previous, current, position, |channels|)
         == Success((Residuals(channels, position, values, |channels|), current), rest)
    ensures Reads(f, previous, current, current, position, values, |channels|)
  {
    hide Reconstruct, Pow2, BucketsOk, Small;
    assert Residuals(channels, position, values, |channels|) == channels;
  }

  lemma ReadsOneMore(f: Format, previous: Option<seq<Pixel>>, before: seq<Pixel>, middle: seq<Pixel>,
                     after: seq<Pixel>, position: nat, values: seq<byte>, i: nat)
    requires FormatOk(f) && position < |before| && PreviousOk(previous, |before|) && |values| == |f.components|
    requires Pow2(8) == 256 && i < |values|
    requires middle == SetComponent(before, position, f.components[i],
        Reconstruct(Predictor(previous, before, position, f.components[i]), values[i], 8))
    requires Reads(f, previous, middle, after, position, values, i + 1)
    ensures Reads(f, previous, before, after, position, values, i)
  {
    hide Reconstruct, Pow2;
    assert f.components[i..] == [f.components[i]] + f.components[i + 1..];
    forall j | i < j < |values|
      ensures Predictor(previous, middle, position, f.components[j])
           == Predictor(previous, before, position, f.components[j])
    {
    }
  }

  /** Early in an image nothing waits. */
  predicate Early(c: Coding) {
    CodingOk(c) && c.wait == 0 && c.codeIndex == 0 && c.pixelsUntil > 2 && c.trigger == 110
  }

  /** The channels after the first pixel of a row, and after the update that follows it. */
  ghost function Taught(f: Format, channels: seq<Channel>, a: seq<byte>): (r: seq<Channel>)
    requires f.bpc == 8 && |a| == |channels|
    requires forall j :: 0 <= j < |channels| ==> |channels[j].residuals| == 2
    requires ChannelsOk(f, Residuals(channels, 0, a, 0), 2)
    ensures ChannelsOk(f, r, 2)
  {
    UpdateModels(f, Residuals(channels, 0, a, 0), 0, 110)
  }

  /** The codes of both pixels are those that the channels propose. */
  ghost predicate RowCodes(f: Format, channels: seq<Channel>, a: seq<byte>, b: seq<byte>, codesA: seq<nat>,
                           codesB: seq<nat>)
    requires f.bpc == 8
  {
    && |a| == |b| == |channels| && ChannelsOk(f, channels, 2)
    && Proposed(channels, codesA, 0, 2, 0)
    && ChannelsOk(f, Residuals(channels, 0, a, 0), 2)
    && var taught := Taught(f, channels, a);
       Proposed(taught, codesB, 1, 2, 0) && ChannelsOk(f, Residuals(taught, 1, b, 0), 2)
  }

  /** The codewords of a row of two, and what they leave. */
  lemma RowReads(tail: BitString, f: Format, previous: Option<seq<Pixel>>, current: seq<Pixel>, codec: Codec,
                 a: seq<byte>, b: seq<byte>, codesA: seq<nat>, codesB: seq<nat>)
      returns (middle: seq<Pixel>)
    requires Ready(f, codec, previous, current) && f.bpc == 8 && |current| == 2 && Early(codec.coding)
    requires Pow2(8) == 256 && RowCodes(f, codec.channels, a, b, codesA, codesB)
    ensures var r := DecodeRow(Words(a, codesA, 0, Words(b, codesB, 0, tail)), f, previous, current, codec, 0);
      && r.Success? && r.rest == tail
      && r.value.codec.channels == UpdateModels(f, Residuals(Taught(f, codec.channels, a), 1, b, 0), 1, 110)
      && CodingOk(r.value.codec.coding)
      && r.value.codec.coding == codec.coding.(randomIndex := r.value.codec.coding.randomIndex,
                                               pixelsUntil := codec.coding.pixelsUntil - 2)
      && |middle| == 2 && Reads(f, previous, current, middle, 0, a, 0)
      && Reads(f, previous, middle, r.value.row, 1, b, 0)
  {
    hide DecodeChannels, DecodeSegment, UpdateChannel, Words, Reads, BucketsOk, Small, Residuals, Pow2, BestCode;
    var first := Residuals(codec.channels, 0, a, 0);
    var taught := Taught(f, codec.channels, a);
    var second := Residuals(taught, 1, b, 0);
    var bits1 := Words(b, codesB, 0, tail);
    var bits := Words(a, codesA, 0, bits1);
    PixelReads(bits1, f, codec.channels, previous, current, 0, a, codesA, 0);
    middle := DecodeChannels(bits, f, codec.channels, previous, current, 0, 0).value.1;
    PixelReads(tail, f, taught, previous, middle, 1, b, codesB, 0);
    var row := DecodeChannels(bits1, f, taught, previous, middle, 1, 0).value.1;
    PairSegment(bits, f, previous, current, codec, first, middle, bits1, second, row, tail);
  }

  lemma ByteReconstruct(predicted: byte, v: byte)
    requires Pow2(8) == 256
    ensures Reconstruct(predicted, v, 8) == (predicted + if v % 2 == 0 then v / 2 else 255 - v / 2) % 256
  {
    hide Reconstruct, Pow2;
    ReconstructWraps(predicted, v, 8);
  }

  ghost predicate AllFresh(channels: seq<Channel>) {
    forall j :: 0 <= j < |channels| ==> channels[j] == FreshChannel(2, 8)
  }

  ghost predicate Teaching(values: seq<byte>) {
    forall j :: 0 <= j < |values| ==> values[j] in {32, 64, 96, 254}
  }

  ghost predicate AllLearned(channels: seq<Channel>, values: seq<byte>) {
    && |channels| == |values| && Teaching(values)
    && forall j :: 0 <= j < |channels| ==> Learned(channels[j], values[j])
  }

  function Repeat<T>(t: T, n: nat): (r: seq<T>)
    ensures |r| == n
  {
    seq(n, _ => t)
  }

  /** Fresh models read zeros with code 7, then other values with code 0. */
  lemma FirstRow(tail: BitString, f: Format, current: seq<Pixel>, codec: Codec, values: seq<byte>)
      returns (middle: seq<Pixel>)
    requires Ready(f, codec, None, current) && f.bpc == 8 && |current| == 2 && Early(codec.coding)
    requires Pow2(8) == 256 && AllFresh(codec.channels) && |values| == |codec.channels| && Teaching(values)
    ensures var n := |values|;
      var bits := Words(Repeat(0, n), Repeat(7, n), 0, Words(values, Repeat(0, n), 0, tail));
      var r := DecodeRow(bits, f, None, current, codec, 0);
      && r.Success? && r.rest == tail
      && AllLearned(r.value.codec.channels, values)
      && CodingOk(r.value.codec.coding)
      && r.value.codec.coding == codec.coding.(randomIndex := r.value.codec.coding.randomIndex,
                                               pixelsUntil := codec.coding.pixelsUntil - 2)
      && |middle| == 2 && Reads(f, None, current, middle, 0, Repeat(0, n), 0)
      && Reads(f, None, middle, r.value.row, 1, values, 0)
  {
    hide DecodeRow, UpdateChannel, Words, Reads, BucketsOk, Small, Pow2, BestCode, FreshChannel, Learned;
    var n := |values|;
    var zeros: seq<byte> := Repeat(0, n);
    FreshReads();
    ZeroTeaches();
    var first := Residuals(codec.channels, 0, zeros, 0);
    var fresh0 := SetResidual(FreshChannel(2, 8), 0, 0);
    assert forall j :: 0 <= j < n ==> first[j] == fresh0;
    var taught := UpdateModels(f, first, 0, 110);
    var second := Residuals(taught, 1, values, 0);
    forall j | 0 <= j < n
      ensures ChannelOk(second[j], 2, 8) && Learned(UpdateChannel(second[j], 1, 8, 110), values[j])
    {
      TaughtReads(taught[j], values[j]);
    }
    middle := RowReads(tail, f, None, current, codec, zeros, values, Repeat(7, n), Repeat(0, n));
  }

  lemma TaughtReads(ch: Channel, v: byte)
    requires v in {32, 64, 96, 254} && Pow2(8) == 256
    requires ch == UpdateChannel(SetResidual(FreshChannel(2, 8), 0, 0), 0, 8, 110)
    ensures var ch' := SetResidual(ch, 1, v);
      ChannelOk(ch', 2, 8) && Learned(UpdateChannel(ch', 1, 8, 110), v)
  {
    hide Pow2, UpdateChannel, BucketsOk, FreshChannel, Learned;
    ZeroTeaches();
    var ch' := SetResidual(ch, 1, v);
    assert ch'.residuals == [0, v];
    assert Small(ch'.residuals, 8);
    ValueTeaches(ch', v);
  }

  function NextRows(channels: seq<Channel>): (r: seq<Channel>)
    requires forall j :: 0 <= j < |channels| ==> |channels[j].residuals| > 0
    ensures |r| == |channels|
  {
    seq(|channels|, j requires 0 <= j < |channels| => StartNextRow(channels[j]))
  }

  function Learnt(values: seq<byte>): (codes: seq<nat>)
    requires Teaching(values)
    ensures |codes| == |values|
    ensures forall j :: 0 <= j < |codes| ==> Golomb.Params(codes[j], 8)
  {
    seq(|values|, j requires 0 <= j < |values| => CheapestAfter(values[j]))
  }

  /** The next row is read with the learned codes, then behind large residuals with code 7. */
  lemma SecondRow(tail: BitString, f: Format, previous: Option<seq<Pixel>>, current: seq<Pixel>, codec: Codec,
                  channels: seq<Channel>, values: seq<byte>, a: seq<byte>, b: seq<byte>)
      returns (middle: seq<Pixel>)
    requires Pow2(8) == 256 && AllLearned(channels, values) && codec.channels == NextRows(channels)
    requires Ready(f, codec, previous, current) && f.bpc == 8 && |current| == 2 && Early(codec.coding)
    requires |a| == |b| == |channels| && forall j :: 0 <= j < |a| ==> a[j] >= 127
    ensures var bits := Words(a, Learnt(values), 0, Words(b, Repeat(7, |b|), 0, tail));
      var r := DecodeRow(bits, f, previous, current, codec, 0);
      && r.Success? && r.rest == tail
      && |middle| == 2 && Reads(f, previous, current, middle, 0, a, 0)
      && Reads(f, previous, middle, r.value.row, 1, b, 0)
  {
    hide DecodeRow, UpdateChannel, Words, Reads, BucketsOk, Small, Pow2, BestCode, Learned;
    var n := |values|;
    var first := Residuals(codec.channels, 0, a, 0);
    forall j | 0 <= j < n
      ensures ChannelOk(codec.channels[j], 2, 8) && BestCode(codec.channels[j], 0, 8) == Learnt(values)[j]
      ensures ChannelOk(first[j], 2, 8) && BestCode(UpdateChannel(first[j], 0, 8, 110), 1, 8) == 7
    {
      LearnedReads(channels[j], values[j]);
      LargeReads(channels[j], values[j], a[j]);
    }
    var taught := UpdateModels(f, first, 0, 110);
    var second := Residuals(taught, 1, b, 0);
    forall j | 0 <= j < n
      ensures ChannelOk(second[j], 2, 8)
    {
      ResidualFits(taught[j], 1, b[j]);
    }
    middle := RowReads(tail, f, previous, current, codec, a, b, Learnt(values), Repeat(7, n));
  }

  lemma ResidualFits(ch: Channel, position: nat, v: byte)
    requires ChannelOk(ch, 2, 8) && position < 2 && Pow2(8) == 256
    ensures ChannelOk(SetResidual(ch, position, v), 2, 8)
  {
    hide BucketsOk, Pow2;
    assert Small(ch.residuals[position := v], 8);
  }

  // ---------------------------------------------------------------------------
  // Its pixels
  // ---------------------------------------------------------------------------

  const ROW_0: seq<Pixel> := [[0x00, 0x00, 0x00, 0x00], [0x10, 0x20, 0x30, 0x7f]]
  const ROW_1: seq<Pixel> := [[0x50, 0x60, 0x70, 0x80], [0xa0, 0xb0, 0xc0, 0xff]]

  lemma Words3(a: seq<byte>, codes: seq<nat>, rest: BitString)
    requires |a| == |codes| == 3 && forall j :: 0 <= j < 3 ==> Golomb.Params(codes[j], 8)
    ensures Words(a, codes, 0, rest)
         == Golomb.Encode(a[0], codes[0], 8) + (Golomb.Encode(a[1], codes[1], 8) + (Golomb.Encode(a[2], codes[2], 8)
            + rest))
  {
    hide Golomb.Encode;
    assert Words(a, codes, 2, rest) == Golomb.Encode(a[2], codes[2], 8) + Words(a, codes, 3, rest);
  }

  lemma Words1(a: seq<byte>, codes: seq<nat>, rest: BitString)
    requires |a| == |codes| == 1 && Golomb.Params(codes[0], 8)
    ensures Words(a, codes, 0, rest) == Golomb.Encode(a[0], codes[0], 8) + rest
  {
    hide Golomb.Encode;
  }

  /** The first row of the payload: colours, then alpha. */
  lemma FirstPixels(random: RandomTable)
    ensures PlanesOk(Rgba, random, FreshPlanes(Rgba, 2), 2)
    ensures var r := DecodeOne(ToBits(PIXELS, 256), Rgba, random, 2, FreshPlanes(Rgba, 2), []);
      && r.Success? && r.rest == ToBits(COLOR1, 120) && r.value.1 == ROW_0
      && AllLearned(r.value.0.color.channels, [32, 64, 96]) && Early(r.value.0.color.coding)
      && AllLearned(r.value.0.alpha.channels, [254]) && Early(r.value.0.alpha.coding)
  {
    hide DecodeRow, Words, BucketsOk, Small, Pow2, BestCode, FreshChannel, Learned, ToBits, Golomb.Encode, Reads;
    Powers();
    FreshPlanesOk(Rgba, random, 2);
    var planes := FreshPlanes(Rgba, 2);
    var f, g := ColorFormat(Rgba, random), AlphaFormat(random);
    var alphaBits := ToBits(ALPHA0, 154);
    FirstColors();
    Words3([32, 64, 96], Repeat(0, 3), alphaBits);
    Words3(Repeat(0, 3), Repeat(7, 3), Words([32, 64, 96], Repeat(0, 3), 0, alphaBits));
    var middle := FirstRow(alphaBits, f, Blank(2), planes.color, [32, 64, 96]);
    var color := DecodeRow(ToBits(PIXELS, 256), f, None, Blank(2), planes.color, 0);
    var rest := ToBits(COLOR1, 120);
    FirstAlpha();
    Words1([254], Repeat(0, 1), rest);
    Words1(Repeat(0, 1), Repeat(7, 1), Words([254], Repeat(0, 1), 0, rest));
    var middle' := FirstRow(rest, g, color.value.row, planes.alpha, [254]);
    var alpha := DecodeRow(alphaBits, g, None, color.value.row, planes.alpha, 0);
    FirstValues(f, g, middle, color.value.row, middle', alpha.value.row);
  }

  lemma FirstValues(f: Format, g: Format, middle: seq<Pixel>, color: seq<Pixel>, middle': seq<Pixel>, row: seq<Pixel>)
    requires FormatOk(f) && FormatOk(g) && f.components == [0, 1, 2] && g.components == [3] && Pow2(8) == 256
    requires |middle| == |color| == |middle'| == 2
    requires Reads(f, None, Blank(2), middle, 0, Repeat(0, 3), 0) && Reads(f, None, middle, color, 1, [32, 64, 96], 0)
    requires Reads(g, None, color, middle', 0, Repeat(0, 1), 0) && Reads(g, None, middle', row, 1, [254], 0)
    ensures row == ROW_0
  {
    hide Reconstruct, Pow2, Reads;
    FirstColorValues(f, middle, color);
    ByteReconstruct(0, 0);
    ByteReconstruct(0, 254);
    ReadAlpha(g, None, color, middle', 0, Repeat(0, 1));
    ReadAlpha(g, None, middle', row, 1, [254]);
    assert row[0] == ROW_0[0];
    assert row[1] == ROW_0[1];
  }

  lemma FirstColorValues(f: Format, middle: seq<Pixel>, color: seq<Pixel>)
    requires FormatOk(f) && f.components == [0, 1, 2] && Pow2(8) == 256 && |middle| == |color| == 2
    requires Reads(f, None, Blank(2), middle, 0, Repeat(0, 3), 0) && Reads(f, None, middle, color, 1, [32, 64, 96], 0)
    ensures color == [[0x00, 0x00, 0x00, 0xff], [0x10, 0x20, 0x30, 0xff]]
  {
    hide Reconstruct, Pow2, Reads;
    ByteReconstruct(0, 0);
    ByteReconstruct(0, 32);
    ByteReconstruct(0, 64);
    ByteReconstruct(0, 96);
    ReadColors(f, None, Blank(2), middle, 0, Repeat(0, 3));
    ReadColors(f, None, middle, color, 1, [32, 64, 96]);
  }

  lemma ReadColors(f: Format, previous: Option<seq<Pixel>>, before: seq<Pixel>, after: seq<Pixel>, position: nat,
                   values: seq<byte>)
    requires FormatOk(f) && f.components == [0, 1, 2] && |values| == 3 && Pow2(8) == 256
    requires |before| == 2 && position < 2 && PreviousOk(previous, 2)
    requires Reads(f, previous, before, after, position, values, 0)
    ensures |after| == 2 && after[1 - position] == before[1 - position]
    ensures after[position] == [Reconstruct(Predictor(previous, before, position, 0), values[0], 8),
                                Reconstruct(Predictor(previous, before, position, 1), values[1], 8),
                                Reconstruct(Predictor(previous, before, position, 2), values[2], 8),
                                before[position][3]]
  {
    hide Reconstruct, Pow2, Predictor;
    assert f.components[0] == 0 && f.components[1] == 1 && f.components[2] == 2;
    assert 3 !in f.components[0..];
  }

  lemma ReadAlpha(g: Format, previous: Option<seq<Pixel>>, before: seq<Pixel>, after: seq<Pixel>, position: nat,
                  values: seq<byte>)
    requires FormatOk(g) && g.components == [3] && |values| == 1 && Pow2(8) == 256
    requires |before| == 2 && position < 2 && PreviousOk(previous, 2)
    requires Reads(g, previous, before, after, position, values, 0)
    ensures |after| == 2 && after[1 - position] == before[1 - position]
    ensures after[position]
         == before[position][3 := Reconstruct(Predictor(previous, before, position, 3), values[0], 8)]
  {
    hide Reconstruct, Pow2, Predictor;
    assert g.components[0] == 3 && g.components[0..] == [3];
    assert 0 !in g.components[0..] && 1 !in g.components[0..] && 2 !in g.components[0..];
  }

  /** The second row of the payload, given what the first one taught. */
  lemma SecondPixels(random: RandomTable, planes: Planes)
    requires PlanesOk(Rgba, random, planes, 2)
    requires AllLearned(planes.color.channels, [32, 64, 96]) && Early(planes.color.coding)
    requires AllLearned(planes.alpha.channels, [254]) && Early(planes.alpha.coding)
    ensures var r := DecodeOne(ToBits(COLOR1, 120), Rgba, random, 2, planes, [ROW_0]);
      r.Success? && r.value.1 == ROW_1
  {
    hide DecodeRow, Words, BucketsOk, Small, Pow2, BestCode, Learned, ToBits, Golomb.Encode, Reads;
    Powers();
    StartRowOk(Rgba, random, planes, 2, false);
    var started := StartRow(planes, false);
    var f, g := ColorFormat(Rgba, random), AlphaFormat(random);
    var alphaBits := ToBits(ALPHA1, 60);
    SecondColors();
    assert Learnt([32, 64, 96]) == [4, 5, 6];
    Words3([224, 224, 224], Repeat(7, 3), alphaBits);
    Words3([160, 192, 224], [4, 5, 6], Words([224, 224, 224], Repeat(7, 3), 0, alphaBits));
    assert started.color.channels == NextRows(planes.color.channels);
    var middle := SecondRow(alphaBits, f, Some(ROW_0), Blank(2), started.color, planes.color.channels, [32, 64, 96],
                            [160, 192, 224], [224, 224, 224]);
    var color := DecodeRow(ToBits(COLOR1, 120), f, Some(ROW_0), Blank(2), started.color, 0);
    var rest := ToBits(0, 44);
    SecondAlpha();
    assert Learnt([254]) == [7];
    Words1([255], Repeat(7, 1), rest);
    Words1([255], [7], Words([255], Repeat(7, 1), 0, rest));
    assert started.alpha.channels == NextRows(planes.alpha.channels);
    var middle' := SecondRow(rest, g, Some(ROW_0), color.value.row, started.alpha, planes.alpha.channels, [254],
                             [255], [255]);
    var alpha := DecodeRow(alphaBits, g, Some(ROW_0), color.value.row, started.alpha, 0);
    SecondValues(f, g, middle, color.value.row, middle', alpha.value.row);
  }

  lemma SecondValues(f: Format, g: Format, middle: seq<Pixel>, color: seq<Pixel>, middle': seq<Pixel>,
                     row: seq<Pixel>)
    requires FormatOk(f) && FormatOk(g) && f.components == [0, 1, 2] && g.components == [3] && Pow2(8) == 256
    requires |middle| == |color| == |middle'| == 2
    requires Reads(f, Some(ROW_0), Blank(2), middle, 0, [160, 192, 224], 0)
    requires Reads(f, Some(ROW_0), middle, color, 1, [224, 224, 224], 0)
    requires Reads(g, Some(ROW_0), color, middle', 0, [255], 0) && Reads(g, Some(ROW_0), middle', row, 1, [255], 0)
    ensures row == ROW_1
  {
    hide Reconstruct, Pow2, Reads;
    ByteReconstruct(0, 160);
    ByteReconstruct(0, 192);
    ByteReconstruct(0, 224);
    ReadColors(f, Some(ROW_0), Blank(2), middle, 0, [160, 192, 224]);
    ByteReconstruct(48, 224);
    ByteReconstruct(64, 224);
    ByteReconstruct(80, 224);
    ReadColors(f, Some(ROW_0), middle, color, 1, [224, 224, 224]);
    ByteReconstruct(0, 255);
    ReadAlpha(g, Some(ROW_0), color, middle', 0, [255]);
    ByteReconstruct(127, 255);
    ReadAlpha(g, Some(ROW_0), middle', row, 1, [255]);
    assert row[0] == ROW_1[0];
    assert row[1] == ROW_1[1];
  }

  /** The published payload decodes to its published pixels, whatever the random table. */
  lemma PayloadDecodes(limits: Limits, random: RandomTable)
    requires limits.maximumWidth >= 2 && limits.maximumHeight >= 2 && limits.maximumOutputBytes >= 16
    ensures Decode(Payload(), 2, 2, limits, random)
         == Ok(Image(2, 2, Rgba, [[[0x00, 0x00, 0x00, 0x00], [0x10, 0x20, 0x30, 0x7f]],
                                  [[0x50, 0x60, 0x70, 0x80], [0xa0, 0xb0, 0xc0, 0xff]]]))
  {
    hide AllBits, ToBits, Payload, HeaderBits, ReadHeader, DecodeOne, AllLearned, PlanesOk;
    PayloadBits();
    var h := Header(0x4349_5551, 0, 5, 2, 2);
    HeaderRoundTrip(h, ToBits(PIXELS, 256));
    FirstPixels(random);
    var one := DecodeOne(ToBits(PIXELS, 256), Rgba, random, 2, FreshPlanes(Rgba, 2), []);
    SecondPixels(random, one.value.0);
    var two := DecodeOne(ToBits(COLOR1, 120), Rgba, random, 2, one.value.0, [ROW_0]);
    assert [] + [ROW_0] == [ROW_0] && [ROW_0] + [ROW_1] == [ROW_0, ROW_1];
    assert DecodeRows(two.rest, Rgba, random, 2, 2, two.value.0, [ROW_0, ROW_1])
        == Success([ROW_0, ROW_1], two.rest);
    assert DecodeRows(ToBits(COLOR1, 120), Rgba, random, 2, 2, one.value.0, [ROW_0])
        == DecodeRows(two.rest, Rgba, random, 2, 2, two.value.0, [ROW_0, ROW_1]);
    NotExpanded([ROW_0, ROW_1]);
  }

  lemma NotExpanded(rows: seq<seq<Pixel>>)
    ensures ExpandRows(Rgba, rows) == rows
  {
    assert forall y :: 0 <= y < |rows| ==> ExpandRow(Rgba, rows[y]) == rows[y];
  }
}
