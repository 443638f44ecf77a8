/** The firmware's Base64 pair (section 4 of RFC 4648), on bytes in arrays. */
module Base64 {

  type Byte = bv8

  const PAD: Byte := 61

  /** BASE_CODE. */
  function Code(i: Byte): Byte
    requires i < 64
  {
    if i < 26 then 65 + i else if i < 52 then 71 + i else if i < 62 then i - 4 else if i == 62 then 43 else 47
  }

  /** _tms_GetCharIndex; anything outside the alphabet counts as 0. */
  function CharIndex(c: Byte): Byte {
    if 65 <= c <= 90 then c - 65
    else if 97 <= c <= 122 then c - 97 + 26
    else if 48 <= c <= 57 then c - 48 + 52
    else if c == 43 then 62
    else if c == 47 then 63
    else 0
  }

  // ----- the standard ---------------------------------------------------------------------

  /** The 24-bit group of section 4, and its four 6-bit indices. */
  function Group(a: Byte, b: Byte, c: Byte): bv24 {
    ((a as bv24) << 16) | ((b as bv24) << 8) | (c as bv24)
  }

  function Sextet(g: bv24, k: nat): Byte
    requires k < 4
    ensures Sextet(g, k) < 64
  {
    ((g >> (18 - 6 * k)) & 63) as Byte
  }

  /** The alphabet of section 4, table 1. */
  const UPPER := "ABCDEFGHIJKLMNOPQRSTUVWXYZ"
  const LOWER := "abcdefghijklmnopqrstuvwxyz"
  const OTHERS := "0123456789+/"
  const ALPHABET := UPPER + LOWER + OTHERS

  function Place(k: nat): nat
    requires k < 64
  {
    if k < 26 then 65 + k else if k < 52 then 71 + k else if k < 62 then k - 4 else if k == 62 then 43 else 47
  }

  lemma LetterAt(k: nat)
    requires k < 64
    ensures ALPHABET[k] as int == Place(k)
  {
    hide UPPER, LOWER, OTHERS;
    if k < 26 { UpperAt(k); } else if k < 52 { LowerAt(k - 26); } else { OtherAt(k - 52); }
    Lengths();
  }

  lemma Lengths()
    ensures |UPPER| == |LOWER| == 26 && |OTHERS| == 12
  {
  }

  lemma UpperAt(k: nat)
    requires k < 26
    ensures k < |UPPER| && UPPER[k] as int == 65 + k
  {
  }

  lemma LowerAt(k: nat)
    requires k < 26
    ensures k < |LOWER| && LOWER[k] as int == 97 + k
  {
  }

  lemma OtherAt(k: nat)
    requires k < 12
    ensures k < |OTHERS| && OTHERS[k] as int == if k < 10 then 48 + k else if k == 10 then 43 else 47
  {
  }

  function Letter(i: Byte): Byte
    requires i < 64
  {
    LetterAt(i as int);
    ALPHABET[i as int] as int as Byte
  }

  lemma CodeAt(i: Byte)
    requires i < 64
    ensures Code(i) as int == Place(i as int)
  {
  }

  /** The firmware's letters are the standard's. */
  lemma CodeIsLetter(i: Byte)
    requires i < 64
    ensures Code(i) == Letter(i) && Code(i) as char == ALPHABET[i as int] && PAD as char == '='
  {
    LetterAt(i as int);
    CodeAt(i);
  }

  /** Section 4: full groups become four characters, a final group is padded with zero bits and '='. */
  function Canonical(s: seq<Byte>): seq<Byte>
    decreases |s|
  {
    if s == [] then []
    else if |s| == 1 then
      var g := Group(s[0], 0, 0); [Letter(Sextet(g, 0)), Letter(Sextet(g, 1)), PAD, PAD]
    else if |s| == 2 then
      var g := Group(s[0], s[1], 0); [Letter(Sextet(g, 0)), Letter(Sextet(g, 1)), Letter(Sextet(g, 2)), PAD]
    else
      var g := Group(s[0], s[1], s[2]);
      [Letter(Sextet(g, 0)), Letter(Sextet(g, 1)), Letter(Sextet(g, 2)), Letter(Sextet(g, 3))] + Canonical(s[3..])
  }

  // ----- what the encoder writes ----------------------------------------------------------

  // The indices of a full group, and the ones the two short groups compute without its masks.

  function First(a: Byte): (i: Byte)
    ensures i < 64
  {
    (a >> 2) & 0x3F
  }

  function Second(a: Byte, b: Byte): (i: Byte)
    ensures i < 64
  {
    ((a & 3) << 4) | ((b >> 4) & 0x0F)
  }

  function Third(b: Byte, c: Byte): (i: Byte)
    ensures i < 64
  {
    ((b & 0xF) << 2) | ((c >> 6) & 0x03)
  }

  function Fourth(c: Byte): (i: Byte)
    ensures i < 64
  {
    c & 0x3F
  }

  function OneSecond(a: Byte): (i: Byte)
    ensures i < 64
  {
    (a & 3) << 4
  }

  function TwoSecond(a: Byte, b: Byte): (i: Byte)
    ensures i < 64
  {
    ((a & 3) << 4) | (b >> 4)
  }

  function TwoThird(b: Byte, after: Byte): (i: Byte)
    ensures i < 64
  {
    ((b & 0x0F) << 2) | (after >> 6)
  }

  /** The characters of one full group. */
  function Quad(a: Byte, b: Byte, c: Byte): (t: seq<Byte>)
    ensures |t| == 4
  {
    [Code(First(a)), Code(Second(a, b)), Code(Third(b, c)), Code(Fourth(c))]
  }

  /** The four characters of a group of 1 to 3 bytes; `after` is the byte behind the input, which
      a 2-byte group also reads. */
  function Chars(g: seq<Byte>, after: Byte): (t: seq<Byte>)
    requires 1 <= |g| <= 3
    ensures |t| == 4
  {
    if |g| == 1 then [Code(First(g[0])), Code(OneSecond(g[0])), PAD, PAD]
    else if |g| == 2 then [Code(First(g[0])), Code(TwoSecond(g[0], g[1])), Code(TwoThird(g[1], after)), PAD]
    else Quad(g[0], g[1], g[2])
  }

  function Encoded(s: seq<Byte>, after: Byte): (t: seq<Byte>)
    ensures |t| == (|s| + 2) / 3 * 4
    decreases |s|
  {
    if s == [] then []
    else if |s| <= 3 then Chars(s, after)
    else Chars(s[..3], after) + Encoded(s[3..], after)
  }

  /** Three bytes from four characters. */
  function Triple(p: Byte, q: Byte, r: Byte, t: Byte): (s: seq<Byte>)
    ensures |s| == 3
  {
    [(CharIndex(p) << 2) | (CharIndex(q) >> 4), (CharIndex(q) << 4) | (CharIndex(r) >> 2),
        (CharIndex(r) << 6) | CharIndex(t)]
  }

  function RawDecoded(t: seq<Byte>): (s: seq<Byte>)
    ensures |s| == |t| / 4 * 3
    decreases |t|
  {
    if |t| < 4 then [] else Triple(t[0], t[1], t[2], t[3]) + RawDecoded(t[4..])
  }

  function Pads(t: seq<Byte>): nat
    requires |t| >= 4
  {
    if t[|t| - 1] == PAD then (if t[|t| - 2] == PAD then 2 else 1) else 0
  }

  /** The bytes a decode of t leaves: every group, less the padding. */
  function Decoded(t: seq<Byte>): seq<Byte>
    requires |t| >= 4 && |t| % 4 == 0
  {
    RawDecoded(t)[..|t| / 4 * 3 - Pads(t)]
  }

  // ----- the two routines -----------------------------------------------------------------

  /** One turn of the encoder's loop. */
  method EncodeGroup(src: array<Byte>, i: nat, left: nat, dst: array<Byte>, at: nat)
    requires left > 0 && i + left <= src.Length && (left == 2 ==> i + 2 < src.Length)
    requires src != dst && at + 4 <= dst.Length
    modifies dst
    ensures dst[at..at + 4] == Chars(src[i..i + if left > 2 then 3 else left], if left == 2 then src[i + 2] else 0)
    ensures forall k :: 0 <= k < dst.Length && !(at <= k < at + 4) ==> dst[k] == old(dst[k])
  {
    hide Code, First, Second, Third, Fourth, OneSecond, TwoSecond, TwoThird;
    dst[at] := Code(First(src[i]));
    if left > 2 {
      dst[at + 1] := Code(Second(src[i], src[i + 1]));
      dst[at + 2] := Code(Third(src[i + 1], src[i + 2]));
      dst[at + 3] := Code(Fourth(src[i + 2]));
    } else if left == 1 {
      dst[at + 1] := Code(OneSecond(src[i]));
      dst[at + 2] := PAD;
      dst[at + 3] := PAD;
    } else {
      dst[at + 1] := Code(TwoSecond(src[i], src[i + 1]));
      dst[at + 2] := Code(TwoThird(src[i + 1], src[i + 2]));
      dst[at + 3] := PAD;
    }
  }

  function Min3(k: nat): nat { if k > 3 then 3 else k }

  /** The characters for the bytes from position i on. */
  function EncodedFrom(s: seq<Byte>, i: nat, after: Byte): seq<Byte> {
    if i < |s| then Encoded(s[i..], after) else []
  }

  /** The encoding of the rest, one group at a time, in terms of positions in the input. */
  lemma EncodedStep(s: seq<Byte>, i: nat, after: Byte, x: Byte)
    requires i < |s| && (|s| - i == 2 ==> x == after)
    ensures EncodedFrom(s, i, after) == Chars(s[i..i + Min3(|s| - i)], x) + EncodedFrom(s, i + 3, after)
  {
    hide Code, Quad;
    var g, rest := Min3(|s| - i), s[i..];
    assert rest[..g] == s[i..i + g];
    if |rest| <= 3 { assert rest[..g] == rest; } else { assert rest[3..] == s[i + 3..]; }
  }

  lemma EncodedWhole(s: seq<Byte>, after: Byte)
    ensures EncodedFrom(s, 0, after) == Encoded(s, after)
  {
    assert s[0..] == s;
  }

  /** Writes the characters and a terminating NUL to dst. */
  method Encode(src: array<Byte>, n: nat, dst: array<Byte>) returns (vLen: nat)
    requires n <= src.Length && (n % 3 == 2 ==> n < src.Length)
    requires src != dst && dst.Length > (n + 2) / 3 * 4
    modifies dst
    ensures vLen == (n + 2) / 3 * 4
    ensures dst[..vLen] == Encoded(src[..n], if n < src.Length then src[n] else 0) && dst[vLen] == 0
  {
    hide Chars, Encoded, EncodedFrom;
    ghost var after := if n < src.Length then src[n] else 0;
    ghost var s := src[..n];
    ghost var k := 0;
    var i, left := 0, n as int;
    vLen := 0;
    EncodedWhole(s, after);
    while left > 0
      invariant i + left == n && i == 3 * k && vLen == 4 * k && i <= n + 2
      invariant Encoded(s, after) == dst[..vLen] + EncodedFrom(s, i, after)
      decreases left
    {
      EncodeFurther(src, i, left, dst, vLen, s, after);
      i, left, vLen, k := i + 3, left - 3, vLen + 4, k + 1;
    }
    NothingLeft(s, i, after);
    dst[vLen] := 0;
  }

  method EncodeFurther(src: array<Byte>, i: nat, left: nat, dst: array<Byte>, at: nat, ghost s: seq<Byte>,
      ghost after: Byte)
    requires left > 0 && i + left <= src.Length && (left == 2 ==> i + 2 < src.Length && src[i + 2] == after)
    requires s == src[..i + left] && src != dst && at + 4 <= dst.Length
    modifies dst
    ensures dst[..at + 4] + EncodedFrom(s, i + 3, after) == old(dst[..at]) + EncodedFrom(s, i, after)
  {
    hide Chars, EncodedFrom;
    EncodedStep(s, i, after, if left == 2 then src[i + 2] else 0);
    assert s[i..i + Min3(left)] == src[i..i + if left > 2 then 3 else left];
    EncodeGroup(src, i, left, dst, at);
    assert dst[..at] == old(dst[..at]);
    assert dst[..at + 4] == dst[..at] + dst[at..at + 4];
  }

  lemma NothingLeft(s: seq<Byte>, i: nat, after: Byte)
    requires i >= |s|
    ensures EncodedFrom(s, i, after) == []
  {
  }

  /** One turn of the decoder's loop. */
  method DecodeGroup(src: array<Byte>, i: nat, dst: array<Byte>, at: nat)
    requires i + 4 <= src.Length && at + 3 <= dst.Length && src != dst
    modifies dst
    ensures dst[at..at + 3] == Triple(src[i], src[i + 1], src[i + 2], src[i + 3])
    ensures forall k :: 0 <= k < dst.Length && !(at <= k < at + 3) ==> dst[k] == old(dst[k])
  {
    var c0, c1, c2, c3 := CharIndex(src[i]), CharIndex(src[i + 1]), CharIndex(src[i + 2]), CharIndex(src[i + 3]);
    dst[at] := (c0 << 2) | (c1 >> 4);
    dst[at + 1] := (c1 << 4) | (c2 >> 2);
    dst[at + 2] := (c2 << 6) | c3;
  }

  lemma RawDecodedAt(t: seq<Byte>, i: nat)
    requires i + 4 <= |t|
    ensures RawDecoded(t[i..]) == Triple(t[i], t[i + 1], t[i + 2], t[i + 3]) + RawDecoded(t[i + 4..])
  {
    assert t[i..][4..] == t[i + 4..];
  }

  /** Writes whole groups of three bytes to dst and returns how many of them count; -1 refuses an
      input whose length is not a multiple of four. */
  method Decode(dst: array<Byte>, src: array<Byte>, n: nat) returns (vLen: int)
    requires 0 < n <= src.Length && src != dst && dst.Length > 0 && dst.Length >= n / 4 * 3
    modifies dst
    ensures n % 4 != 0 ==> vLen == -1
    ensures n % 4 == 0 ==> 0 <= vLen <= dst.Length && dst[..vLen] == Decoded(src[..n])
  {
    if n % 4 != 0 {
      dst[0] := 0;
      return -1;
    }
    var pads := 0;
    if src[n - 1] == PAD {
      pads := pads + 1;
      if src[n - 2] == PAD { pads := pads + 1; }
    }
    ghost var t := src[..n];
    assert pads == Pads(t);
    DecodeGroups(dst, src, n);
    vLen := n / 4 * 3 - pads;
    assert dst[..vLen] == dst[..n / 4 * 3][..vLen];
  }

  lemma NothingDecoded(t: seq<Byte>, i: nat)
    requires i == |t|
    ensures RawDecoded(t[i..]) == []
  {
  }

  method DecodeGroups(dst: array<Byte>, src: array<Byte>, n: nat)
    requires n <= src.Length && n % 4 == 0 && src != dst && dst.Length >= n / 4 * 3
    modifies dst
    ensures dst[..n / 4 * 3] == RawDecoded(src[..n])
  {
    hide Triple, RawDecoded;
    ghost var t, k, m := src[..n], 0, n / 4;
    var i, left, vLen := 0, n, 0;
    assert t[0..] == t;
    while left > 2
      invariant i + left == n == 4 * m && i == 4 * k && vLen == 3 * k && k <= m
      invariant RawDecoded(t) == dst[..vLen] + RawDecoded(t[i..])
      decreases left
    {
      RawDecodedAt(t, i);
      ghost var before := dst[..];
      DecodeGroup(src, i, dst, vLen);
      assert dst[..vLen] == before[..vLen];
      assert dst[..vLen + 3] == dst[..vLen] + dst[vLen..vLen + 3];
      i, left, vLen, k := i + 4, left - 4, vLen + 3, k + 1;
    }
    NothingDecoded(t, i);
  }

  // ----- correctness ----------------------------------------------------------------------

  lemma CodeIndex(i: Byte)
    requires i < 64
    ensures CharIndex(Code(i)) == i && Code(i) != PAD
  {
  }

  /** Reading a letter is the inverse of writing it; every other character reads as 0. */
  lemma IndexCode(c: Byte)
    ensures CharIndex(c) < 64 && (Code(CharIndex(c)) == c || CharIndex(c) == 0)
  {
  }

  lemma ThreeBytesInBits(a: Byte, b: Byte, c: Byte)
    ensures var w, x, y, z := First(a), Second(a, b), Third(b, c), Fourth(c);
            (w << 2) | (x >> 4) == a && (x << 4) | (y >> 2) == b && (y << 6) | z == c
  {
  }

  lemma OneByteInBits(a: Byte)
    ensures (First(a) << 2) | (OneSecond(a) >> 4) == a
  {
  }

  lemma TwoBytesInBits(a: Byte, b: Byte, after: Byte)
    ensures var x, y, z := First(a), TwoSecond(a, b), TwoThird(b, after);
            (x << 2) | (y >> 4) == a && (y << 4) | (z >> 2) == b
  {
  }

  lemma TripleOfCodes(w: Byte, x: Byte, y: Byte, z: Byte)
    requires w < 64 && x < 64 && y < 64 && z < 64
    ensures Triple(Code(w), Code(x), Code(y), Code(z)) == [(w << 2) | (x >> 4), (x << 4) | (y >> 2), (y << 6) | z]
    ensures Code(w) != PAD && Code(x) != PAD && Code(y) != PAD && Code(z) != PAD
  {
    hide Code, CharIndex;
    CodeIndex(w);
    CodeIndex(x);
    CodeIndex(y);
    CodeIndex(z);
  }

  /** The first bytes of a triple do not depend on the characters behind theirs. */
  lemma TripleFront(w: Byte, x: Byte, y: Byte, r: Byte, t: Byte, u: Byte)
    ensures Triple(w, x, y, r)[..2] == Triple(w, x, y, t)[..2] && Triple(w, x, y, r)[..1] == Triple(w, x, u, t)[..1]
  {
    hide CharIndex;
  }

  lemma QuadTriple(a: Byte, b: Byte, c: Byte)
    ensures var q := Quad(a, b, c); Triple(q[0], q[1], q[2], q[3]) == [a, b, c] && q[3] != PAD
  {
    hide Code, Triple, First, Second, Third, Fourth;
    TripleOfCodes(First(a), Second(a, b), Third(b, c), Fourth(c));
    ThreeBytesInBits(a, b, c);
  }

  lemma OneBack(a: Byte, after: Byte)
    ensures var t := Chars([a], after); Triple(t[0], t[1], t[2], t[3])[0] == a && t[3] == PAD && t[2] == PAD
  {
    hide Code, Triple, First, OneSecond;
    var w, x := First(a), OneSecond(a);
    TripleOfCodes(w, x, 0, 0);
    OneByteInBits(a);
    TripleFront(Code(w), Code(x), Code(0), Code(0), PAD, PAD);
    assert Triple(Code(w), Code(x), PAD, PAD)[0] == Triple(Code(w), Code(x), PAD, PAD)[..1][0];
    assert Triple(Code(w), Code(x), Code(0), Code(0))[0] == Triple(Code(w), Code(x), Code(0), Code(0))[..1][0];
  }

  lemma TwoBack(a: Byte, b: Byte, after: Byte)
    ensures var t := Chars([a, b], after);
            var r := Triple(t[0], t[1], t[2], t[3]);
            r[0] == a && r[1] == b && t[3] == PAD && t[2] != PAD
  {
    hide Code, Triple, First, TwoSecond, TwoThird;
    var w, x, y := First(a), TwoSecond(a, b), TwoThird(b, after);
    TwoBytesInBits(a, b, after);
    TripleOfCodes(w, x, y, 0);
    TripleFront(Code(w), Code(x), Code(y), Code(0), PAD, PAD);
    var r := Triple(Code(w), Code(x), Code(y), PAD);
    assert r[0] == r[..2][0] && r[1] == r[..2][1];
  }

  /** Decoding a group's characters gives its bytes back, and the padding tells its size. */
  lemma TripleOfChars(g: seq<Byte>, after: Byte)
    requires 1 <= |g| <= 3
    ensures var t := Chars(g, after);
            && Triple(t[0], t[1], t[2], t[3])[..|g|] == g
            && (t[3] == PAD <==> |g| < 3) && (|g| < 3 ==> (t[2] == PAD <==> |g| == 1))
  {
    hide Triple, Code, CharIndex, Chars;
    if |g| == 1 {
      assert g == [g[0]];
      OneBack(g[0], after);
    } else if |g| == 2 {
      assert g == [g[0], g[1]];
      TwoBack(g[0], g[1], after);
    } else {
      assert g == [g[0], g[1], g[2]];
      QuadTriple(g[0], g[1], g[2]);
      ThreeChars(g[0], g[1], g[2], after);
    }
  }

  lemma ThreeChars(a: Byte, b: Byte, c: Byte, after: Byte)
    ensures Chars([a, b, c], after) == Quad(a, b, c)
  {
    hide Quad;
  }

  lemma GroupBack(g: seq<Byte>, after: Byte)
    requires 1 <= |g| <= 3
    ensures var t := Chars(g, after); RawDecoded(t)[..|g|] == g && Pads(t) == 3 - |g|
  {
    hide Chars, Triple;
    var t := Chars(g, after);
    assert t[4..] == [];
    assert RawDecoded(t) == Triple(t[0], t[1], t[2], t[3]) + [];
    TripleOfChars(g, after);
  }

  lemma DecodeFurther(head: seq<Byte>, tail: seq<Byte>)
    requires |head| == 4 && |tail| >= 4 && |tail| % 4 == 0
    ensures Decoded(head + tail) == RawDecoded(head)[..3] + Decoded(tail)
  {
    hide Triple;
    assert (head + tail)[4..] == tail && head[4..] == [];
    assert RawDecoded(head) == Triple(head[0], head[1], head[2], head[3]) + [];
    assert RawDecoded(head + tail) == RawDecoded(head) + RawDecoded(tail);
    assert Pads(head + tail) == Pads(tail);
  }

  /** Decoding what was encoded gives the bytes back, whatever byte follows the input. */
  lemma {:induction false} DecodeEncoded(s: seq<Byte>, after: Byte)
    requires s != []
    ensures Decoded(Encoded(s, after)) == s
    decreases |s|
  {
    hide Chars, Triple;
    if |s| <= 3 {
      GroupBack(s, after);
    } else {
      var head, tail := Chars(s[..3], after), Encoded(s[3..], after);
      GroupBack(s[..3], after);
      DecodeEncoded(s[3..], after);
      hide Decoded, Pads, RawDecoded;
      DecodeFurther(head, tail);
      assert s == s[..3] + s[3..];
    }
  }

  lemma GroupSextets(a: Byte, b: Byte, c: Byte)
    ensures var g := Group(a, b, c);
            Sextet(g, 0) == First(a) && Sextet(g, 1) == Second(a, b) && Sextet(g, 2) == Third(b, c)
                && Sextet(g, 3) == Fourth(c)
  {
  }

  lemma TailBits(a: Byte, b: Byte, after: Byte)
    ensures Second(a, 0) == OneSecond(a) && Second(a, b) == TwoSecond(a, b)
    ensures TwoThird(b, after) == Third(b, 0) <==> after < 64
  {
  }

  lemma QuadIsCanonical(a: Byte, b: Byte, c: Byte)
    ensures var g := Group(a, b, c);
            Quad(a, b, c) == [Letter(Sextet(g, 0)), Letter(Sextet(g, 1)), Letter(Sextet(g, 2)), Letter(Sextet(g, 3))]
  {
    hide Code, Letter, Group, Sextet, First, Second, Third, Fourth;
    GroupSextets(a, b, c);
    CodeIsLetter(First(a));
    CodeIsLetter(Second(a, b));
    CodeIsLetter(Third(b, c));
    CodeIsLetter(Fourth(c));
  }

  lemma TailIsCanonical(a: Byte, b: Byte, after: Byte)
    ensures Chars([a], after) == Canonical([a])
    ensures Chars([a, b], after) == Canonical([a, b]) <==> after < 64
  {
    hide Code, Letter, Group, Sextet, First, Second, Third, Fourth, OneSecond, TwoSecond, TwoThird;
    GroupSextets(a, 0, 0);
    GroupSextets(a, b, 0);
    TailBits(a, b, after);
    CodeIsLetter(First(a));
    CodeIsLetter(OneSecond(a));
    CodeIsLetter(TwoSecond(a, b));
    CodeIsLetter(Third(b, 0));
    CodeInjective(TwoThird(b, after), Third(b, 0));
  }

  lemma CodeInjective(i: Byte, j: Byte)
    requires i < 64 && j < 64
    ensures Code(i) == Code(j) <==> i == j
  {
    hide Code, CharIndex;
    CodeIndex(i);
    CodeIndex(j);
  }

  lemma FullGroup(s: seq<Byte>, after: Byte)
    requires |s| > 2
    ensures Encoded(s, after) == Quad(s[0], s[1], s[2]) + Encoded(s[3..], after)
    ensures Canonical(s) == Quad(s[0], s[1], s[2]) + Canonical(s[3..])
  {
    hide Code, Letter, Sextet, Group, First, Second, Third, Fourth, OneSecond, TwoSecond, TwoThird;
    QuadIsCanonical(s[0], s[1], s[2]);
    assert |s| == 3 ==> s[..3] == s && s[3..] == [];
    hide Quad;
  }

  lemma ShortIsCanonical(s: seq<Byte>, after: Byte)
    requires |s| < 3
    ensures Encoded(s, after) == Canonical(s) <==> |s| < 2 || after < 64
  {
    hide Chars;
    if s == [] {
    } else if |s| == 1 {
      assert s == [s[0]];
      TailIsCanonical(s[0], 0, after);
    } else {
      assert s == [s[0], s[1]];
      TailIsCanonical(s[0], s[1], after);
    }
  }

  lemma FrontCancels(front: seq<Byte>, x: seq<Byte>, y: seq<Byte>)
    ensures front + x == front + y <==> x == y
  {
    assert (front + x)[|front|..] == x && (front + y)[|front|..] == y;
  }

  /** The output is the one the standard asks for, except that a 2-byte tail leaks the two high
      bits of the byte behind the input into its padding: then exactly if they are zero. */
  lemma {:induction false} EncodedIsCanonical(s: seq<Byte>, after: Byte)
    ensures Encoded(s, after) == Canonical(s) <==> |s| % 3 != 2 || after < 64
    decreases |s|
  {
    hide Encoded, Canonical, Quad;
    if |s| < 3 {
      ShortIsCanonical(s, after);
    } else {
      FullGroup(s, after);
      EncodedIsCanonical(s[3..], after);
      FrontCancels(Quad(s[0], s[1], s[2]), Encoded(s[3..], after), Canonical(s[3..]));
    }
  }
}
