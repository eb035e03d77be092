/**
 * The adapter's serialisation of field and curve elements (`parse_fr`,
 * `parse_g1`, `parse_g2`, `parse_g2_fq`). Each takes the native little-endian
 * encoding produced by the backend (an element's bytes, and for a curve point
 * its coordinates followed by one infinity-flag byte), drops the flag, cuts
 * the rest into equal coordinates, reverses each to big-endian order and
 * writes it as `0x` followed by lower-case hexadecimal.
 *
 * `HexDecode` and `Unprefixed` are the inverses used to state the round trips;
 * like the `hex` crate they accept either case.
 */
module Parse {
  import opened Wrappers

  type Byte = x: int | 0 <= x < 256

  predicate IsLowerHex(ch: char) {
    '0' <= ch <= '9' || 'a' <= ch <= 'f'
  }

  /** The lower-case digit for a nibble. */
  function HexDigit(n: nat): (ch: char)
    requires n < 16
    ensures IsLowerHex(ch)
  {
    if n < 10 then ('0' as int + n) as char else ('a' as int + n - 10) as char
  }

  /** The value of one hexadecimal digit of either case. */
  function DigitValue(ch: char): (r: Option<nat>)
    ensures r.Some? ==> r.value < 16
    ensures r.Some? <==> IsLowerHex(ch) || 'A' <= ch <= 'F'
  {
    if '0' <= ch <= '9' then Some(ch as int - '0' as int)
    else if 'a' <= ch <= 'f' then Some(ch as int - 'a' as int + 10)
    else if 'A' <= ch <= 'F' then Some(ch as int - 'A' as int + 10)
    else None
  }

  lemma DigitRoundTrip(n: nat)
    requires n < 16
    ensures DigitValue(HexDigit(n)) == Some(n)
  {
  }

  /** `hex::encode`: two lower-case digits per byte, high nibble first. */
  function HexEncode(bs: seq<Byte>): (s: string)
    ensures |s| == 2 * |bs|
    ensures forall i | 0 <= i < |s| :: IsLowerHex(s[i])
  {
    if bs == [] then ""
    else [HexDigit(bs[0] / 16), HexDigit(bs[0] % 16)] + HexEncode(bs[1..])
  }

  /** `hex::decode`: `None` for an odd length or a character that is not a digit. */
  function HexDecode(s: string): (r: Option<seq<Byte>>)
    ensures r.Some? ==> 2 * |r.value| == |s|
    decreases |s|
  {
    if s == [] then Some([])
    else if |s| == 1 then None
    else
      var hi, lo := DigitValue(s[0]), DigitValue(s[1]);
      if hi.None? || lo.None? then None
      else
        var rest := HexDecode(s[2..]);
        if rest.None? then None else Some([(hi.value * 16 + lo.value) as Byte] + rest.value)
  }

  lemma {:induction false} HexRoundTrip(bs: seq<Byte>)
    ensures HexDecode(HexEncode(bs)) == Some(bs)
    decreases |bs|
  {
    if bs != [] {
      var s := HexEncode(bs);
      assert s[2..] == HexEncode(bs[1..]);
      HexRoundTrip(bs[1..]);
      DigitRoundTrip(bs[0] / 16);
      DigitRoundTrip(bs[0] % 16);
      assert (bs[0] / 16 * 16 + bs[0] % 16) as Byte == bs[0];
      assert [bs[0]] + bs[1..] == bs;
    }
  }

  /** `reverse` on a fresh copy. */
  function Reverse<T>(s: seq<T>): (r: seq<T>)
    ensures |r| == |s|
    ensures forall i | 0 <= i < |s| :: r[i] == s[|s| - 1 - i]
  {
    if s == [] then [] else Reverse(s[1..]) + [s[0]]
  }

  lemma ReverseInvolution<T>(s: seq<T>)
    ensures Reverse(Reverse(s)) == s
  {
    var r := Reverse(Reverse(s));
    assert forall i | 0 <= i < |s| :: r[i] == s[i];
  }

  /** `format!("0x{}", hex::encode(bs))`. */
  function Prefixed(bs: seq<Byte>): (s: string)
    ensures |s| == 2 + 2 * |bs|
    ensures s[..2] == "0x"
    ensures forall i | 2 <= i < |s| :: IsLowerHex(s[i])
  {
    "0x" + HexEncode(bs)
  }

  /** The bytes a `0x`-prefixed hexadecimal string denotes. */
  function Unprefixed(s: string): (r: Option<seq<Byte>>)
    ensures r.Some? ==> |s| == 2 + 2 * |r.value|
  {
    if |s| >= 2 && s[..2] == "0x" then HexDecode(s[2..]) else None
  }

  /** `0x` followed by lower-case hexadecimal digits only. */
  predicate Formatted(s: string) {
    |s| >= 2 && s[..2] == "0x" && forall i | 2 <= i < |s| :: IsLowerHex(s[i])
  }

  lemma PrefixedRoundTrip(bs: seq<Byte>)
    ensures Unprefixed(Prefixed(bs)) == Some(bs)
  {
    assert Prefixed(bs)[2..] == HexEncode(bs);
    HexRoundTrip(bs);
  }

  /** What a coordinate string denotes in the native little-endian order. */
  function Native(s: string): Option<seq<Byte>> {
    var d := Unprefixed(s);
    if d.None? then None else Some(Reverse(d.value))
  }

  /** One coordinate: its native bytes reversed into big-endian order, then written out. */
  function Coordinate(native: seq<Byte>): (s: string)
    ensures Formatted(s)
    ensures Native(s) == Some(native)
  {
    PrefixedRoundTrip(Reverse(native));
    ReverseInvolution(native);
    Prefixed(Reverse(native))
  }

  // ----- the four serialisers -----

  datatype G1Affine = G1Affine(x: string, y: string)

  datatype G2AffineFq = G2AffineFq(x: string, y: string)

  datatype G2Affine = G2Affine(x: (string, string), y: (string, string))

  /** `parse_fr`: the whole encoding as one big-endian coordinate. */
  function ParseFr(bytes: seq<Byte>): (s: string)
    ensures |s| == 2 + 2 * |bytes|
    ensures Formatted(s)
    ensures Native(s) == Some(bytes)
  {
    Coordinate(bytes)
  }

  /** The two halves of a point encoding once the trailing flag byte is dropped. */
  function Halves(bytes: seq<Byte>): (xy: (seq<Byte>, seq<Byte>))
    requires |bytes| >= 1
    ensures |xy.0| == (|bytes| - 1) / 2
    ensures |xy.1| == |bytes| - 1 - (|bytes| - 1) / 2
    ensures xy.0 + xy.1 == bytes[..|bytes| - 1]
  {
    var length := |bytes| - 1;
    var elementLength := length / 2;
    (bytes[..elementLength], bytes[elementLength..length])
  }

  /**
   * `parse_g1`. The caller provides at least the flag byte. Decoding the two
   * coordinates and joining them in native order gives back the encoding
   * without its flag byte.
   */
  function ParseG1(bytes: seq<Byte>): (g: G1Affine)
    requires |bytes| >= 1
    ensures Formatted(g.x) && Formatted(g.y)
    ensures Native(g.x).Some? && Native(g.y).Some?
    ensures Native(g.x).value + Native(g.y).value == bytes[..|bytes| - 1]
    ensures |Native(g.y).value| == |Native(g.x).value| + (|bytes| - 1) % 2
  {
    var (x, y) := Halves(bytes);
    G1Affine(Coordinate(x), Coordinate(y))
  }

  /** `parse_g2_fq`: a G2 point whose coordinates are base-field elements, split like G1. */
  function ParseG2Fq(bytes: seq<Byte>): (g: G2AffineFq)
    requires |bytes| >= 1
    ensures Formatted(g.x) && Formatted(g.y)
    ensures Native(g.x).Some? && Native(g.y).Some?
    ensures Native(g.x).value + Native(g.y).value == bytes[..|bytes| - 1]
    ensures |Native(g.y).value| == |Native(g.x).value| + (|bytes| - 1) % 2
  {
    var (x, y) := Halves(bytes);
    G2AffineFq(Coordinate(x), Coordinate(y))
  }

  /**
   * The four limbs of a G2 encoding, `(len - 1) / 4` bytes each from the
   * start (the iterations `i = 0..4` of the limb loop); together they are
   * the first `4 * ((len - 1) / 4)` bytes, the whole flagless encoding when
   * its length is a multiple of four.
   */
  function Quarters(bytes: seq<Byte>): (q: seq<seq<Byte>>)
    requires |bytes| >= 1
    ensures |q| == 4
    ensures forall i | 0 <= i < 4 :: |q[i]| == (|bytes| - 1) / 4
    ensures q[0] + q[1] + q[2] + q[3] == bytes[..4 * ((|bytes| - 1) / 4)]
    ensures (|bytes| - 1) % 4 == 0 ==> q[0] + q[1] + q[2] + q[3] == bytes[..|bytes| - 1]
  {
    var e := (|bytes| - 1) / 4;
    assert bytes[..e] + bytes[e..2 * e] == bytes[..2 * e];
    assert bytes[..2 * e] + bytes[2 * e..3 * e] == bytes[..3 * e];
    assert bytes[..3 * e] + bytes[3 * e..4 * e] == bytes[..4 * e];
    [bytes[..e], bytes[e..2 * e], bytes[2 * e..3 * e], bytes[3 * e..4 * e]]
  }

  /**
   * `parse_g2`: the four limbs grouped as the two halves of `x` and of `y`;
   * each coordinate string denotes its limb.
   */
  function ParseG2(bytes: seq<Byte>): (g: G2Affine)
    requires |bytes| >= 1
    ensures Formatted(g.x.0) && Formatted(g.x.1) && Formatted(g.y.0) && Formatted(g.y.1)
    ensures var q := Quarters(bytes);
      && Native(g.x.0) == Some(q[0]) && Native(g.x.1) == Some(q[1])
      && Native(g.y.0) == Some(q[2]) && Native(g.y.1) == Some(q[3])
  {
    var q := Quarters(bytes);
    G2Affine((Coordinate(q[0]), Coordinate(q[1])), (Coordinate(q[2]), Coordinate(q[3])))
  }

  // ----- properties -----

  /** A lower-case digit is determined by its value. */
  lemma DigitInjective(a: char, b: char)
    requires IsLowerHex(a) && IsLowerHex(b) && DigitValue(a) == DigitValue(b)
    ensures a == b
  {
  }

  /** Lower-case hexadecimal strings that decode to the same bytes are equal. */
  lemma {:induction false} LowerHexDecodeInjective(s: string, t: string)
    requires forall i | 0 <= i < |s| :: IsLowerHex(s[i])
    requires forall i | 0 <= i < |t| :: IsLowerHex(t[i])
    requires HexDecode(s).Some? && HexDecode(s) == HexDecode(t)
    ensures s == t
    decreases |s|
  {
    if s != [] {
      var bs := HexDecode(s).value;
      var h1, l1 := DigitValue(s[0]).value, DigitValue(s[1]).value;
      var h2, l2 := DigitValue(t[0]).value, DigitValue(t[1]).value;
      assert bs[0] == h1 * 16 + l1 == h2 * 16 + l2;
      assert h1 == h2 && l1 == l2;
      DigitInjective(s[0], t[0]);
      DigitInjective(s[1], t[1]);
      assert HexDecode(s[2..]).Some? && HexDecode(s[2..]).value == bs[1..];
      assert HexDecode(t[2..]).Some? && HexDecode(t[2..]).value == bs[1..];
      assert forall i | 0 <= i < |s[2..]| :: IsLowerHex(s[2..][i]) by {
        forall i | 0 <= i < |s[2..]| ensures IsLowerHex(s[2..][i]) {
          assert s[2..][i] == s[i + 2];
        }
      }
      assert forall i | 0 <= i < |t[2..]| :: IsLowerHex(t[2..][i]) by {
        forall i | 0 <= i < |t[2..]| ensures IsLowerHex(t[2..][i]) {
          assert t[2..][i] == t[i + 2];
        }
      }
      LowerHexDecodeInjective(s[2..], t[2..]);
      assert s == s[..2] + s[2..] && t == t[..2] + t[2..];
    }
  }

  /**
   * A formatted coordinate is determined by the bytes it denotes, so the
   * contracts of the serialisers fix every output string exactly.
   */
  lemma FormattedUnique(s: string, t: string)
    requires Formatted(s) && Formatted(t)
    requires Native(s).Some? && Native(s) == Native(t)
    ensures s == t
  {
    ReverseInvolution(Unprefixed(s).value);
    ReverseInvolution(Unprefixed(t).value);
    LowerHexDecodeInjective(s[2..], t[2..]);
    assert s == s[..2] + s[2..] && t == t[..2] + t[2..];
  }

  /** The infinity-flag byte never reaches the output of `parse_g1` or `parse_g2_fq`. */
  lemma HalvesIgnoreFlag(bytes: seq<Byte>, flag: Byte)
    requires |bytes| >= 1
    ensures var other := bytes[..|bytes| - 1] + [flag];
      && ParseG1(other) == ParseG1(bytes)
      && ParseG2Fq(other) == ParseG2Fq(bytes)
  {
    var other := bytes[..|bytes| - 1] + [flag];
    var length := |bytes| - 1;
    assert other[..length] == bytes[..length];
    assert Halves(other) == Halves(bytes) by {
      assert other[..length / 2] == bytes[..length / 2];
      assert other[length / 2..length] == bytes[length / 2..length];
    }
  }

  /** Neither the flag byte nor the bytes past the fourth limb reach the output of `parse_g2`. */
  lemma ParseG2IgnoresTail(bytes: seq<Byte>, tail: seq<Byte>)
    requires |bytes| >= 1 && |tail| == |bytes| - 4 * ((|bytes| - 1) / 4)
    ensures ParseG2(bytes[..4 * ((|bytes| - 1) / 4)] + tail) == ParseG2(bytes)
  {
    var e := (|bytes| - 1) / 4;
    var other := bytes[..4 * e] + tail;
    assert |other| == |bytes|;
    assert other[..4 * e] == bytes[..4 * e];
    assert Quarters(other) == Quarters(bytes) by {
      assert other[..e] == bytes[..e];
      assert other[e..2 * e] == bytes[e..2 * e];
      assert other[2 * e..3 * e] == bytes[2 * e..3 * e];
      assert other[3 * e..4 * e] == bytes[3 * e..4 * e];
    }
  }

  /** `parse_fr` is injective: distinct encodings give distinct strings. */
  lemma ParseFrInjective(a: seq<Byte>, b: seq<Byte>)
    requires ParseFr(a) == ParseFr(b)
    ensures a == b
  {
    assert Native(ParseFr(a)) == Some(a);
  }

  /** Any formatted string denoting the bytes is exactly what `parse_fr` writes. */
  lemma ParseFrDetermined(bytes: seq<Byte>, s: string)
    requires Formatted(s) && Native(s) == Some(bytes)
    ensures ParseFr(bytes) == s
  {
    FormattedUnique(ParseFr(bytes), s);
  }

  lemma ParseFrExample()
    ensures ParseFr([0x01, 0xab]) == "0xab01"
  {
    var bs: seq<Byte> := [0x01, 0xab];
    assert Reverse(bs) == [0xab, 0x01];
  }
}
