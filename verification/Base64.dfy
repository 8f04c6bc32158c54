/**
 * Unpadded base64 (RFC 4648, section 4) and base64url (section 5) as the Go encoder and
 * non-strict decoder treat them: the decoder skips CR and LF and ignores the bits of the last
 * character that belong to no byte.
 *
 * Bytes are written with four base-4 digits and the encoder's 6-bit groups with three, most
 * significant first, so that regrouping bits is regrouping digits.
 */
module Base64 {
  import opened Wrappers

  type Quad = d: int | 0 <= d < 4

  datatype Byte = Byte(b3: Quad, b2: Quad, b1: Quad, b0: Quad)
  datatype Sextet = Sextet(s2: Quad, s1: Quad, s0: Quad)

  datatype Alphabet = Std | Url

  function ByteOf(n: int): Byte
    requires 0 <= n < 256
  {
    Byte(n / 64, n / 16 % 4, n / 4 % 4, n % 4)
  }

  function Index(v: Sextet): (n: int)
    ensures 0 <= n < 64
  {
    16 * (v.s2 as int) + 4 * (v.s1 as int) + v.s0 as int
  }

  function OfIndex(n: int): Sextet
    requires 0 <= n < 64
  {
    Sextet(n / 16, n / 4 % 4, n % 4)
  }

  /** The alphabet table of the encoding. */
  function Letter(a: Alphabet, n: int): char
    requires 0 <= n < 64
  {
    if n < 26 then ('A' as int + n) as char
    else if n < 52 then ('a' as int + (n - 26)) as char
    else if n < 62 then ('0' as int + (n - 52)) as char
    else if n == 62 then (if a.Std? then '+' else '-')
    else (if a.Std? then '/' else '_')
  }

  /** The decoder's table: the index of a letter, 64 for any other byte. */
  function LetterIndex(a: Alphabet, c: char): (n: int)
    ensures 0 <= n <= 64
  {
    if 'A' <= c <= 'Z' then c as int - 'A' as int
    else if 'a' <= c <= 'z' then c as int - 'a' as int + 26
    else if '0' <= c <= '9' then c as int - '0' as int + 52
    else if c == (if a.Std? then '+' else '-') then 62
    else if c == (if a.Std? then '/' else '_') then 63
    else 64
  }

  function CharOf(a: Alphabet, v: Sextet): char { Letter(a, Index(v)) }

  function SextetOf(a: Alphabet, c: char): Option<Sextet> {
    var n := LetterIndex(a, c);
    if n < 64 then Some(OfIndex(n)) else None
  }

  predicate InAlphabet(a: Alphabet, c: char) { SextetOf(a, c).Some? }

  predicate Skipped(c: char) { c == '\r' || c == '\n' }

  // ---------- the encoder ----------

  /** Regroups 8-bit bytes as 6-bit values, zero-filling the last one. */
  function Pack(bs: seq<Byte>): (vs: seq<Sextet>)
  {
    if bs == [] then [] else
    var x := bs[0];
    if |bs| == 1 then [Sextet(x.b3, x.b2, x.b1), Sextet(x.b0, 0, 0)] else
    var y := bs[1];
    if |bs| == 2 then [Sextet(x.b3, x.b2, x.b1), Sextet(x.b0, y.b3, y.b2), Sextet(y.b1, y.b0, 0)] else
    PackGroup(x, y, bs[2]) + Pack(bs[3..])
  }

  function PackGroup(x: Byte, y: Byte, z: Byte): (vs: seq<Sextet>)
    ensures |vs| == 4
  {
    [Sextet(x.b3, x.b2, x.b1), Sextet(x.b0, y.b3, y.b2), Sextet(y.b1, y.b0, z.b3), Sextet(z.b2, z.b1, z.b0)]
  }

  function Chars(a: Alphabet, vs: seq<Sextet>): (s: string)
    ensures |s| == |vs|
  {
    seq(|vs|, i requires 0 <= i < |vs| => CharOf(a, vs[i]))
  }

  function Encode(a: Alphabet, bs: seq<Byte>): string { Chars(a, Pack(bs)) }

  // ---------- the decoder ----------

  function Strip(s: string): (t: string)
    ensures |t| <= |s|
    ensures forall c | c in t :: !Skipped(c)
  {
    if s == [] then [] else
    (if Skipped(s[0]) then [] else [s[0]]) + Strip(s[1..])
  }

  function Sextets(a: Alphabet, s: string): (r: Option<seq<Sextet>>)
    ensures r.Some? <==> forall c | c in s :: InAlphabet(a, c)
    ensures r.Some? ==> |r.value| == |s|
  {
    if s == [] then Some([]) else
    assert s[0] in s && forall c | c in s[1..] :: c in s;
    match SextetOf(a, s[0])
    case None => None
    case Some(v) =>
      match Sextets(a, s[1..])
      case None => None
      case Some(vs) => Some([v] + vs)
  }

  /** Regroups 6-bit values as bytes; a lone last value is an error, left-over bits are dropped. */
  function Unpack(vs: seq<Sextet>): Option<seq<Byte>>
  {
    if vs == [] then Some([])
    else if |vs| == 1 then None else
    var v, w := vs[0], vs[1];
    if |vs| == 2 then Some([Byte(v.s2, v.s1, v.s0, w.s2)]) else
    var x := vs[2];
    if |vs| == 3 then Some([Byte(v.s2, v.s1, v.s0, w.s2), Byte(w.s1, w.s0, x.s2, x.s1)]) else
    match Unpack(vs[4..])
    case None => None
    case Some(bs) => Some(UnpackGroup(v, w, x, vs[3]) + bs)
  }

  function UnpackGroup(v: Sextet, w: Sextet, x: Sextet, y: Sextet): (bs: seq<Byte>)
    ensures |bs| == 3
  {
    [Byte(v.s2, v.s1, v.s0, w.s2), Byte(w.s1, w.s0, x.s2, x.s1), Byte(x.s0, y.s2, y.s1, y.s0)]
  }

  function Decode(a: Alphabet, s: string): Option<seq<Byte>> {
    match Sextets(a, Strip(s))
    case None => None
    case Some(vs) => Unpack(vs)
  }

  // ---------- characters ----------

  lemma IndexRoundTrip(v: Sextet)
    ensures OfIndex(Index(v)) == v
  {
    var m := 4 * (v.s2 as int) + v.s1 as int;
    assert Index(v) == 4 * m + v.s0 as int;
    assert Index(v) / 4 == m;
  }

  lemma OfIndexRoundTrip(n: int)
    requires 0 <= n < 64
    ensures Index(OfIndex(n)) == n
  {
    var m := n / 4;
    assert n == 4 * m + n % 4;
    assert m / 4 == n / 16;
  }

  lemma LetterRoundTrip(a: Alphabet, n: int)
    requires 0 <= n < 64
    ensures LetterIndex(a, Letter(a, n)) == n
    ensures !Skipped(Letter(a, n)) && Letter(a, n) != ':' && Letter(a, n) != ' '
  {
  }

  lemma LetterIndexRoundTrip(a: Alphabet, c: char)
    requires LetterIndex(a, c) < 64
    ensures Letter(a, LetterIndex(a, c)) == c
  {
  }

  lemma CharRoundTrip(a: Alphabet, v: Sextet)
    ensures SextetOf(a, CharOf(a, v)) == Some(v)
    ensures !Skipped(CharOf(a, v)) && CharOf(a, v) != ':' && CharOf(a, v) != ' '
  {
    LetterRoundTrip(a, Index(v));
    IndexRoundTrip(v);
  }

  lemma SextetRoundTrip(a: Alphabet, c: char)
    requires InAlphabet(a, c)
    ensures CharOf(a, SextetOf(a, c).value) == c
  {
    OfIndexRoundTrip(LetterIndex(a, c));
    LetterIndexRoundTrip(a, c);
  }

  lemma SextetsCons(a: Alphabet, c: char, s: string)
    requires SextetOf(a, c).Some? && Sextets(a, s).Some?
    ensures Sextets(a, [c] + s) == Some([SextetOf(a, c).value] + Sextets(a, s).value)
  {
    assert ([c] + s)[1..] == s;
  }

  lemma {:induction false} SextetsOfChars(a: Alphabet, vs: seq<Sextet>)
    ensures Sextets(a, Chars(a, vs)) == Some(vs)
  {
    if vs != [] {
      var v, rest := vs[0], vs[1..];
      CharRoundTrip(a, v);
      SextetsOfChars(a, rest);
      SextetsCons(a, CharOf(a, v), Chars(a, rest));
      assert Chars(a, vs) == [CharOf(a, v)] + Chars(a, rest);
      assert vs == [v] + rest;
    }
  }

  lemma {:induction false} CharsOfSextets(a: Alphabet, s: string)
    requires Sextets(a, s).Some?
    ensures Chars(a, Sextets(a, s).value) == s
  {
    if s != [] {
      SextetRoundTrip(a, s[0]);
      CharsOfSextets(a, s[1..]);
      var vs := Sextets(a, s).value;
      assert vs[1..] == Sextets(a, s[1..]).value;
      assert Chars(a, vs) == [s[0]] + Chars(a, vs[1..]);
    }
  }

  /** Encoded text is drawn from the alphabet, so it holds no separator the server splits at. */
  lemma EncodeAlphabet(a: Alphabet, bs: seq<Byte>)
    ensures forall c | c in Encode(a, bs) :: InAlphabet(a, c) && !Skipped(c) && c != ':' && c != ' '
  {
    forall c | c in Encode(a, bs)
      ensures InAlphabet(a, c) && !Skipped(c) && c != ':' && c != ' '
    {
      var i :| 0 <= i < |Encode(a, bs)| && Encode(a, bs)[i] == c;
      CharRoundTrip(a, Pack(bs)[i]);
    }
  }

  lemma {:induction false} StripIdentity(s: string)
    ensures Strip(s) == s <==> forall c | c in s :: !Skipped(c)
    ensures |Strip(s)| == |s| ==> Strip(s) == s
  {
    if s != [] {
      StripIdentity(s[1..]);
    }
  }

  // ---------- the standard's tables and bits ----------

  /** The letters of the alphabet, section 4 and section 5 of RFC 4648. */
  predicate IsLetter(a: Alphabet, c: char) {
    || 'A' <= c <= 'Z' || 'a' <= c <= 'z' || '0' <= c <= '9'
    || (a == Std && (c == '+' || c == '/')) || (a == Url && (c == '-' || c == '_'))
  }

  lemma AlphabetExactly(a: Alphabet, c: char)
    ensures InAlphabet(a, c) <==> IsLetter(a, c)
  {
  }

  /** A 6-bit value is written as the letter at its place in the table. */
  lemma LetterPlaces(a: Alphabet, v: Sextet)
    ensures var n, c := 16 * v.s2 + 4 * v.s1 + v.s0, CharOf(a, v);
      && (n < 26 ==> c as int == 65 + n)
      && (26 <= n < 52 ==> c as int == 97 + (n - 26))
      && (52 <= n < 62 ==> c as int == 48 + (n - 52))
      && (n == 62 ==> c == if a == Std then '+' else '-')
      && (n == 63 ==> c == if a == Std then '/' else '_')
  {
  }

  function ByteBits(bs: seq<Byte>): seq<Quad> {
    if bs == [] then [] else [bs[0].b3, bs[0].b2, bs[0].b1, bs[0].b0] + ByteBits(bs[1..])
  }

  function SextetBits(vs: seq<Sextet>): seq<Quad> {
    if vs == [] then [] else [vs[0].s2, vs[0].s1, vs[0].s0] + SextetBits(vs[1..])
  }

  lemma {:induction false} SextetBitsConcat(vs: seq<Sextet>, ws: seq<Sextet>)
    ensures SextetBits(vs + ws) == SextetBits(vs) + SextetBits(ws)
  {
    if vs == [] {
      assert vs + ws == ws;
    } else {
      assert (vs + ws)[1..] == vs[1..] + ws;
      SextetBitsConcat(vs[1..], ws);
    }
  }

  lemma GroupBits(x: Byte, y: Byte, z: Byte)
    ensures SextetBits(PackGroup(x, y, z)) == [x.b3, x.b2, x.b1, x.b0, y.b3, y.b2, y.b1, y.b0, z.b3, z.b2, z.b1, z.b0]
  {
    var g := PackGroup(x, y, z);
    assert g[1..][1..] == g[2..] && g[2..][1..] == g[3..] && g[3..][1..] == [];
  }

  lemma {:induction false} ByteBitsConcat(bs: seq<Byte>, cs: seq<Byte>)
    ensures ByteBits(bs + cs) == ByteBits(bs) + ByteBits(cs)
  {
    if bs == [] {
      assert bs + cs == cs;
    } else {
      assert (bs + cs)[1..] == bs[1..] + cs;
      ByteBitsConcat(bs[1..], cs);
    }
  }

  lemma OneByteBits(x: Byte)
    ensures ByteBits([x]) == [x.b3, x.b2, x.b1, x.b0]
    ensures SextetBits(Pack([x])) == [x.b3, x.b2, x.b1, x.b0] + [0, 0]
  {
    assert [x][1..] == [];
    var v, w := Sextet(x.b3, x.b2, x.b1), Sextet(x.b0, 0, 0);
    assert Pack([x]) == [v, w];
    assert [v, w][1..] == [w] && [w][1..] == [];
    assert SextetBits([w]) == [x.b0, 0, 0];
  }

  lemma TwoBytesBits(x: Byte, y: Byte)
    ensures ByteBits([x, y]) == [x.b3, x.b2, x.b1, x.b0, y.b3, y.b2, y.b1, y.b0]
    ensures SextetBits(Pack([x, y])) == [x.b3, x.b2, x.b1, x.b0, y.b3, y.b2, y.b1, y.b0] + [0]
  {
    assert [x, y][1..] == [y] && [y][1..] == [];
    assert ByteBits([y]) == [y.b3, y.b2, y.b1, y.b0];
    var u, v, w := Sextet(x.b3, x.b2, x.b1), Sextet(x.b0, y.b3, y.b2), Sextet(y.b1, y.b0, 0);
    assert Pack([x, y]) == [u, v, w];
    assert [u, v, w][1..] == [v, w] && [v, w][1..] == [w] && [w][1..] == [];
    assert SextetBits([w]) == [y.b1, y.b0, 0];
    assert SextetBits([v, w]) == [x.b0, y.b3, y.b2, y.b1, y.b0, 0];
  }

  lemma ThreeBytesBits(x: Byte, y: Byte, z: Byte)
    ensures ByteBits([x, y, z]) == [x.b3, x.b2, x.b1, x.b0, y.b3, y.b2, y.b1, y.b0, z.b3, z.b2, z.b1, z.b0]
  {
    assert [x, y, z][1..] == [y, z];
    TwoBytesBits(y, z);
  }

  /** Encoding keeps the bits in order, most significant first, and fills the last letter up with zeros. */
  lemma {:induction false} PackKeepsBits(bs: seq<Byte>) returns (zeros: seq<Quad>)
    ensures SextetBits(Pack(bs)) == ByteBits(bs) + zeros && zeros in {[], [0], [0, 0]}
  {
    if bs == [] {
      zeros := [];
    } else if |bs| == 1 {
      zeros := [0, 0];
      assert bs == [bs[0]];
      OneByteBits(bs[0]);
    } else if |bs| == 2 {
      zeros := [0];
      assert bs == [bs[0], bs[1]];
      TwoBytesBits(bs[0], bs[1]);
    } else {
      var x, y, z, rest := bs[0], bs[1], bs[2], bs[3..];
      zeros := PackKeepsBits(rest);
      SextetBitsConcat(PackGroup(x, y, z), Pack(rest));
      GroupBits(x, y, z);
      assert bs == [x, y, z] + rest;
      ByteBitsConcat([x, y, z], rest);
      ThreeBytesBits(x, y, z);
    }
  }

  lemma FourSextetsBits(u: Sextet, v: Sextet, w: Sextet, x: Sextet)
    ensures SextetBits([u]) == [u.s2, u.s1, u.s0]
    ensures SextetBits([u, v]) == [u.s2, u.s1, u.s0, v.s2, v.s1, v.s0]
    ensures SextetBits([u, v, w]) == [u.s2, u.s1, u.s0, v.s2, v.s1, v.s0, w.s2, w.s1, w.s0]
    ensures SextetBits([u, v, w, x]) == [u.s2, u.s1, u.s0, v.s2, v.s1, v.s0, w.s2, w.s1, w.s0, x.s2, x.s1, x.s0]
  {
    assert [u][1..] == [] && [u, v][1..] == [v] && [v][1..] == [];
    assert [u, v, w][1..] == [v, w] && [v, w][1..] == [w] && [w][1..] == [];
    assert [u, v, w, x][1..] == [v, w, x] && [v, w, x][1..] == [w, x] && [w, x][1..] == [x] && [x][1..] == [];
    assert SextetBits([x]) == [x.s2, x.s1, x.s0] && SextetBits([w]) == [w.s2, w.s1, w.s0];
    assert SextetBits([v]) == [v.s2, v.s1, v.s0];
    assert SextetBits([w, x]) == [w.s2, w.s1, w.s0, x.s2, x.s1, x.s0];
    assert SextetBits([v, w]) == [v.s2, v.s1, v.s0, w.s2, w.s1, w.s0];
    assert SextetBits([v, w, x]) == [v.s2, v.s1, v.s0, w.s2, w.s1, w.s0, x.s2, x.s1, x.s0];
  }

  /** Decoding keeps the bits in order too; at most the last four are dropped, whatever they are. */
  lemma {:induction false} UnpackKeepsBits(vs: seq<Sextet>) returns (dropped: seq<Quad>)
    requires Unpack(vs).Some?
    ensures SextetBits(vs) == ByteBits(Unpack(vs).value) + dropped && |dropped| <= 2
  {
    if vs == [] {
      dropped := [];
    } else if |vs| <= 3 {
      dropped := UnpackTailBits(vs);
    } else {
      var u, v, w, x, rest := vs[0], vs[1], vs[2], vs[3], vs[4..];
      dropped := UnpackKeepsBits(rest);
      assert vs == [u, v, w, x] + rest;
      SextetBitsConcat([u, v, w, x], rest);
      UnpackGroupBits(u, v, w, x);
      ByteBitsConcat(UnpackGroup(u, v, w, x), Unpack(rest).value);
    }
  }

  lemma UnpackGroupBits(u: Sextet, v: Sextet, w: Sextet, x: Sextet)
    ensures ByteBits(UnpackGroup(u, v, w, x)) == SextetBits([u, v, w, x])
  {
    var g := UnpackGroup(u, v, w, x);
    assert g == [g[0], g[1], g[2]];
    ThreeBytesBits(g[0], g[1], g[2]);
    FourSextetsBits(u, v, w, x);
  }

  lemma {:induction false} UnpackTailBits(vs: seq<Sextet>) returns (dropped: seq<Quad>)
    requires 1 <= |vs| <= 3 && Unpack(vs).Some?
    ensures SextetBits(vs) == ByteBits(Unpack(vs).value) + dropped && |dropped| <= 2
  {
    var u, v := vs[0], vs[1];
    if |vs| == 2 {
      assert vs == [u, v];
      FourSextetsBits(u, v, v, v);
      OneByteBits(Unpack(vs).value[0]);
      dropped := [v.s1, v.s0];
    } else {
      var w := vs[2];
      assert vs == [u, v, w];
      FourSextetsBits(u, v, w, w);
      TwoBytesBits(Unpack(vs).value[0], Unpack(vs).value[1]);
      dropped := [w.s0];
    }
  }

  /** The decoder skips these two bytes and no other. */
  lemma StripOne(c: char)
    ensures Strip([c]) == if c == '\r' || c == '\n' then [] else [c]
  {
    assert [c][1..] == [];
  }

  /**
   * A text is decoded when, those two aside, it consists of letters and their number is not one above a
   * multiple of four.
   */
  lemma {:induction false} DecodableExactly(a: Alphabet, s: string)
    ensures Decode(a, s).Some? <==>
      (forall c | c in s :: IsLetter(a, c) || c == '\r' || c == '\n') && |Strip(s)| % 4 != 1
  {
    DecodeLength(a, s);
    StripKeepsOthers(s);
    forall c | c in s || c in Strip(s)
      ensures InAlphabet(a, c) <==> IsLetter(a, c)
    {
      AlphabetExactly(a, c);
    }
  }

  lemma {:induction false} StripKeepsOthers(s: string)
    ensures forall c :: c in Strip(s) <==> c in s && c != '\r' && c != '\n'
  {
    if s != [] {
      StripKeepsOthers(s[1..]);
      assert s == [s[0]] + s[1..];
    }
  }

  // ---------- inversion ----------

  lemma {:induction false} UnpackPack(bs: seq<Byte>)
    ensures Unpack(Pack(bs)) == Some(bs)
  {
    if |bs| == 1 {
      assert bs == [bs[0]];
    } else if |bs| == 2 {
      assert bs == [bs[0], bs[1]];
    } else if |bs| > 2 {
      UnpackPack(bs[3..]);
      assert Pack(bs)[4..] == Pack(bs[3..]);
      assert bs == [bs[0], bs[1], bs[2]] + bs[3..];
    }
  }

  /** The bits of the last character that belong to no byte are all zero. */
  predicate TrailingBitsZero(vs: seq<Sextet>) {
    if |vs| % 4 == 2 then vs[|vs| - 1].s1 == vs[|vs| - 1].s0 == 0
    else if |vs| % 4 == 3 then vs[|vs| - 1].s0 == 0
    else true
  }

  /** A full group of four values comes back as it was. */
  lemma {:induction false} PackFirstGroup(vs: seq<Sextet>)
    requires |vs| > 3 && Unpack(vs).Some?
    ensures Unpack(vs[4..]).Some? && Pack(Unpack(vs).value) == vs[..4] + Pack(Unpack(vs[4..]).value)
  {
    assert Unpack(vs).value[3..] == Unpack(vs[4..]).value;
    assert vs[..4] == [vs[0], vs[1], vs[2], vs[3]];
  }

  lemma {:induction false} TrailingRest(vs: seq<Sextet>)
    requires |vs| > 3
    ensures TrailingBitsZero(vs) <==> TrailingBitsZero(vs[4..])
  {
    var rest := vs[4..];
    assert |rest| % 4 == |vs| % 4;
    assert rest != [] ==> rest[|rest| - 1] == vs[|vs| - 1];
  }

  lemma {:induction false} PackUnpackShort(vs: seq<Sextet>)
    requires |vs| <= 3 && Unpack(vs).Some?
    ensures Pack(Unpack(vs).value) == vs <==> TrailingBitsZero(vs)
  {
    if |vs| == 2 {
      assert vs == [vs[0], vs[1]];
    } else if |vs| == 3 {
      assert vs == [vs[0], vs[1], vs[2]];
    }
  }

  lemma {:induction false} PackUnpack(vs: seq<Sextet>)
    requires Unpack(vs).Some?
    ensures Pack(Unpack(vs).value) == vs <==> TrailingBitsZero(vs)
  {
    if |vs| <= 3 {
      PackUnpackShort(vs);
    } else {
      PackFirstGroup(vs);
      TrailingRest(vs);
      PackUnpack(vs[4..]);
      var group, rest, again := vs[..4], vs[4..], Pack(Unpack(vs[4..]).value);
      assert vs == group + rest;
      assert (group + again)[4..] == again && (group + rest)[4..] == rest;
    }
  }

  /** Decoding an encoding gives the bytes back, for every byte string. */
  lemma DecodeEncode(a: Alphabet, bs: seq<Byte>)
    ensures Decode(a, Encode(a, bs)) == Some(bs)
  {
    EncodeAlphabet(a, bs);
    StripIdentity(Encode(a, bs));
    SextetsOfChars(a, Pack(bs));
    UnpackPack(bs);
  }

  /** What a strict decoder would accept: nothing to skip and no stray trailing bits. */
  predicate Canonical(a: Alphabet, s: string) {
    && (forall c | c in s :: InAlphabet(a, c) && !Skipped(c))
    && TrailingBitsZero(Sextets(a, s).value)
  }

  /** Re-encoding a decoded text reproduces it exactly when the text is canonical. */
  lemma EncodeDecode(a: Alphabet, s: string)
    requires Decode(a, s).Some?
    ensures Encode(a, Decode(a, s).value) == s <==> Canonical(a, s)
  {
    StripIdentity(s);
    CharsOfSextets(a, Strip(s));
    PackUnpack(Sextets(a, Strip(s)).value);
    var bs := Decode(a, s).value;
    if Encode(a, bs) == s {
      EncodeAlphabet(a, bs);
      SextetsOfChars(a, Pack(bs));
    }
  }

  lemma {:induction false} StripConcat(s: string, t: string)
    ensures Strip(s + t) == Strip(s) + Strip(t)
  {
    if s == [] {
      assert s + t == t;
    } else {
      var head := if Skipped(s[0]) then [] else [s[0]];
      assert (s + t)[0] == s[0] && (s + t)[1..] == s[1..] + t;
      StripConcat(s[1..], t);
      assert Strip(s + t) == head + (Strip(s[1..]) + Strip(t));
      assert Strip(s) == head + Strip(s[1..]);
    }
  }

  lemma StripInserted(s: string, t: string, c: char)
    requires Skipped(c)
    ensures Strip(s + [c] + t) == Strip(s + t)
  {
    StripConcat(s + [c], t);
    StripConcat(s, [c]);
    StripConcat(s, t);
    assert Strip([c]) == [];
    assert Strip(s) + [] == Strip(s);
  }

  /** A CR or LF inserted anywhere goes unnoticed, so decoding is not injective. */
  lemma SkippedUnnoticed(a: Alphabet, s: string, i: nat, c: char)
    requires i <= |s| && (c == '\r' || c == '\n')
    ensures Decode(a, s[..i] + [c] + s[i..]) == Decode(a, s)
  {
    StripInserted(s[..i], s[i..], c);
    assert s == s[..i] + s[i..];
  }

  // ---------- lengths ----------

  /** An encoding of n bytes has ceil(8n / 6) characters. */
  lemma {:induction false} EncodeLength(a: Alphabet, bs: seq<Byte>)
    ensures |Encode(a, bs)| == (8 * |bs| + 5) / 6
  {
    if |bs| > 2 {
      EncodeLength(a, bs[3..]);
    }
  }

  lemma {:induction false} UnpackLength(vs: seq<Sextet>)
    ensures Unpack(vs).Some? <==> |vs| % 4 != 1
    ensures Unpack(vs).Some? ==> |Unpack(vs).value| == 6 * |vs| / 8
  {
    if |vs| > 3 {
      UnpackLength(vs[4..]);
    }
  }

  /** When a text decodes, and how many bytes come out. */
  lemma {:induction false} DecodeLength(a: Alphabet, s: string)
    ensures Decode(a, s).Some? <==> (forall c | c in Strip(s) :: InAlphabet(a, c)) && |Strip(s)| % 4 != 1
    ensures Decode(a, s).Some? ==> |Decode(a, s).value| == 6 * |Strip(s)| / 8
  {
    if Sextets(a, Strip(s)).Some? {
      UnpackLength(Sextets(a, Strip(s)).value);
    }
  }
}
