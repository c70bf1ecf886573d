/** lib/r100/front_camera.c: 16-bit pixels unpacked to three bytes each (wsmain), and packed again
    in place, the shorts overwriting the bytes they are made of (display_to_screen).  A short
    lies in two bytes, low one first. */
module Repack {

  /** Five bits of red, six of green, five of blue, each at the top of its byte. */
  function RedOf(x: bv16): bv8
  {
    ((x >> 8) & 0xF8) as bv8
  }

  function GreenOf(x: bv16): bv8
  {
    ((x >> 3) & 0xFC) as bv8
  }

  function BlueOf(x: bv16): bv8
  {
    ((x << 3) & 0xFF) as bv8
  }

  function Pack(red: bv8, green: bv8, blue: bv8): bv16
  {
    (((red & 0xF8) as bv16) << 8) | (((green & 0xFC) as bv16) << 3) | ((blue as bv16) >> 3)
  }

  /** Packing loses the low bits of each byte and nothing else. */
  lemma PackUnpack(x: bv16)
    ensures Pack(RedOf(x), GreenOf(x), BlueOf(x)) == x
  {
  }

  lemma UnpackPack(red: bv8, green: bv8, blue: bv8)
    ensures RedOf(Pack(red, green, blue)) == red & 0xF8
    ensures GreenOf(Pack(red, green, blue)) == green & 0xFC
    ensures BlueOf(Pack(red, green, blue)) == blue & 0xF8
  {
  }

  function Low(x: bv16): bv8
  {
    (x & 0xFF) as bv8
  }

  function High(x: bv16): bv8
  {
    (x >> 8) as bv8
  }

  function Short(low: bv8, high: bv8): bv16
  {
    (low as bv16) | ((high as bv16) << 8)
  }

  lemma ShortOfBytes(x: bv16)
    ensures Short(Low(x), High(x)) == x
  {
  }

  // ------------------------------------------------------------ buffers

  /** The k-th short of a byte buffer. */
  function ShortAt(s: seq<bv8>, k: nat): bv16
    requires 2 * k + 1 < |s|
  {
    Short(s[2 * k], s[2 * k + 1])
  }

  /** What the k-th three bytes pack to. */
  function PackedAt(s: seq<bv8>, k: nat): bv16
    requires 3 * k + 2 < |s|
  {
    Pack(s[3 * k], s[3 * k + 1], s[3 * k + 2])
  }

  /** The k-th three bytes are those of pixel x. */
  predicate HoldsPixel(s: seq<bv8>, k: nat, x: bv16)
    requires 3 * k + 2 < |s|
  {
    s[3 * k] == RedOf(x) && s[3 * k + 1] == GreenOf(x) && s[3 * k + 2] == BlueOf(x)
  }

  /** A pixel is five bits of red, six of green and five of blue from the top, each group at the
      top of its own byte. */
  lemma RedBits(red: bv8, x: bv16)
    ensures red == RedOf(x) <==> (red as bv16) << 8 == x & 0xF800
  {
  }

  lemma GreenBits(green: bv8, x: bv16)
    ensures green == GreenOf(x) <==> (green as bv16) << 3 == x & 0x07E0
  {
  }

  lemma BlueBits(blue: bv8, x: bv16)
    ensures blue == BlueOf(x) <==> (blue as bv16) == (x & 0x001F) << 3
  {
  }

  /** The first of the two bytes of a short is the low one. */
  lemma ShortBits(low: bv8, high: bv8)
    ensures Short(low, high) & 0x00FF == low as bv16
    ensures Short(low, high) & 0xFF00 == (high as bv16) << 8
  {
  }

  /** Where the bits of three bytes go when they are packed. */
  lemma PackBits(red: bv8, green: bv8, blue: bv8)
    ensures Pack(red, green, blue) & 0xF800 == ((red as bv16) << 8) & 0xF800
    ensures Pack(red, green, blue) & 0x07E0 == ((green as bv16) << 3) & 0x07E0
    ensures Pack(red, green, blue) & 0x001F == (blue as bv16) >> 3
  {
  }

  lemma HoldsMeans(s: seq<bv8>, k: nat, x: bv16)
    requires 3 * k + 2 < |s|
    ensures HoldsPixel(s, k, x) <==>
      && (s[3 * k] as bv16) << 8 == x & 0xF800
      && (s[3 * k + 1] as bv16) << 3 == x & 0x07E0
      && (s[3 * k + 2] as bv16) == (x & 0x001F) << 3
  {
    RedBits(s[3 * k], x);
    GreenBits(s[3 * k + 1], x);
    BlueBits(s[3 * k + 2], x);
  }

  lemma PackedMeans(s: seq<bv8>, k: nat)
    requires 3 * k + 2 < |s|
    ensures PackedAt(s, k) & 0xF800 == ((s[3 * k] as bv16) << 8) & 0xF800
    ensures PackedAt(s, k) & 0x07E0 == ((s[3 * k + 1] as bv16) << 3) & 0x07E0
    ensures PackedAt(s, k) & 0x001F == (s[3 * k + 2] as bv16) >> 3
  {
    PackBits(s[3 * k], s[3 * k + 1], s[3 * k + 2]);
  }

  lemma ShortMeans(s: seq<bv8>, k: nat)
    requires 2 * k + 1 < |s|
    ensures ShortAt(s, k) & 0x00FF == s[2 * k] as bv16
    ensures ShortAt(s, k) & 0xFF00 == (s[2 * k + 1] as bv16) << 8
  {
    ShortBits(s[2 * k], s[2 * k + 1]);
  }

  method Unpack(tmp: seq<bv16>, unpacked: array<bv8>)
    requires unpacked.Length >= 3 * |tmp|
    modifies unpacked
    ensures forall k :: 0 <= k < |tmp| ==> HoldsPixel(unpacked[..], k, tmp[k])
    ensures unpacked[3 * |tmp|..] == old(unpacked[3 * |tmp|..])
  {
    var p := 0;
    for i := 0 to |tmp|
      invariant p == 3 * i
      invariant forall k :: 0 <= k < i ==> HoldsPixel(unpacked[..], k, tmp[k])
      invariant forall m :: p <= m < unpacked.Length ==> unpacked[m] == old(unpacked[m])
    {
      ghost var was := unpacked[..];
      unpacked[p] := RedOf(tmp[i]);
      unpacked[p + 1] := GreenOf(tmp[i]);
      unpacked[p + 2] := BlueOf(tmp[i]);
      p := p + 3;
      forall k | 0 <= k < i
        ensures HoldsPixel(unpacked[..], k, tmp[k])
      {
        assert HoldsPixel(was, k, tmp[k]);
      }
    }
  }

  /** Short i is written over bytes 2i and 2i + 1, when bytes 3i to 3i + 2 have just been read and
      no byte from 2i on has been overwritten. */
  method PackInPlace(buf: array<bv8>, pix: nat)
    requires buf.Length >= 3 * pix
    modifies buf
    ensures forall k :: 0 <= k < pix ==> ShortAt(buf[..], k) == PackedAt(old(buf[..]), k)
    ensures buf[2 * pix..] == old(buf[2 * pix..])
  {
    var j := 0;
    for i := 0 to pix
      invariant j == 3 * i
      invariant forall k :: 0 <= k < i ==> ShortAt(buf[..], k) == PackedAt(old(buf[..]), k)
      invariant forall m :: 2 * i <= m < buf.Length ==> buf[m] == old(buf[m])
    {
      ghost var was := buf[..];
      var x := Pack(buf[j], buf[j + 1], buf[j + 2]);
      buf[2 * i], buf[2 * i + 1] := Low(x), High(x);
      ShortOfBytes(x);
      j := j + 3;
      forall k | 0 <= k < i
        ensures ShortAt(buf[..], k) == PackedAt(old(buf[..]), k)
      {
        assert ShortAt(was, k) == ShortAt(buf[..], k);
      }
    }
  }

  /** Unpacking and packing in place gives every pixel back, in the first two thirds of the
      buffer. */
  method RoundTrip(tmp: seq<bv16>, buf: array<bv8>)
    requires buf.Length >= 3 * |tmp|
    modifies buf
    ensures forall k :: 0 <= k < |tmp| ==> ShortAt(buf[..], k) == tmp[k]
  {
    Unpack(tmp, buf);
    ghost var bytes := buf[..];
    PackInPlace(buf, |tmp|);
    forall k | 0 <= k < |tmp|
      ensures ShortAt(buf[..], k) == tmp[k]
    {
      assert HoldsPixel(bytes, k, tmp[k]);
      PackUnpack(tmp[k]);
    }
  }
}
