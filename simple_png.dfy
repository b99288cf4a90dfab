/** The fallback PNG writer _create_simple_png (automate_post_conversion.py:54-94;
    ai_automation.py:1054 has the same code): a solid-colour RGB image
    written byte by byte when PIL is missing. zlib.compress and zlib.crc32
    are parameters. struct.pack raises struct.error for a value that does
    not fit its field; the model returns None there. */
module SimplePng {
  import opened Text

  type Byte = b: int | 0 <= b < 256

  const TwoTo32: int := 0x1_0000_0000

  /** zlib.compress(data, 9) and zlib.crc32(data). */
  datatype Zlib = Zlib(compress: seq<Byte> -> seq<Byte>, crc32: seq<Byte> -> int)

  /** b'\x89PNG\r\n\x1a\n' */
  const Signature: seq<Byte> := [0x89, 0x50, 0x4E, 0x47, 0x0D, 0x0A, 0x1A, 0x0A]

  const IHDR: seq<Byte> := [0x49, 0x48, 0x44, 0x52]
  const IDAT: seq<Byte> := [0x49, 0x44, 0x41, 0x54]
  const IEND: seq<Byte> := [0x49, 0x45, 0x4E, 0x44]

  /** struct.pack("!I", n) */
  function U32BE(n: nat): (r: seq<Byte>)
    requires n < TwoTo32
    ensures |r| == 4
  {
    [n / 0x100_0000, (n / 0x1_0000) % 0x100, (n / 0x100) % 0x100, n % 0x100]
  }

  /** struct.unpack("!I", b) */
  function DecodeU32BE(b: seq<Byte>): (n: nat)
    requires |b| == 4
    ensures n < TwoTo32
  {
    b[0] as int * 0x100_0000 + b[1] as int * 0x1_0000 + b[2] as int * 0x100 + b[3] as int
  }

  /** Four big-endian bytes read back as the number written. */
  lemma U32RoundTrip(n: nat)
    requires n < TwoTo32
    ensures DecodeU32BE(U32BE(n)) == n
  {
    var b := U32BE(n);
    var q1 := n / 0x100;
    var q2 := q1 / 0x100;
    assert n == q1 * 0x100 + n % 0x100;
    assert q1 == q2 * 0x100 + q1 % 0x100;
    assert q2 == (q2 / 0x100) * 0x100 + q2 % 0x100;
    assert n / 0x1_0000 == q2;
    assert n / 0x100_0000 == q2 / 0x100;
    assert b[1] == q2 % 0x100 && b[2] == q1 % 0x100 && b[0] == q2 / 0x100;
  }

  /** The CRC field of a chunk: 0xFFFFFFFF & zlib.crc32(tag + data). */
  function ChunkCrc(tag: seq<Byte>, data: seq<Byte>, z: Zlib): nat {
    z.crc32(tag + data) % TwoTo32
  }

  /** png_pack(tag, data): length, tag, data, CRC of tag and data. None
      when the length does not fit in 32 bits. */
  function PngPack(tag: seq<Byte>, data: seq<Byte>, z: Zlib): (chunk: Option<seq<Byte>>)
    ensures chunk.None? <==> |data| >= TwoTo32
    ensures chunk.Some? ==> |chunk.value| == 8 + |tag| + |data|
  {
    if |data| >= TwoTo32 then None
    else Some(U32BE(|data|) + (tag + data) + U32BE(ChunkCrc(tag, data, z)))
  }

  /** struct.pack("!2I5B", width, height, 8, 2, 0, 0, 0): 8 bits per
      channel, colour type 2 (RGB), default compression, filter and
      interlace. */
  function IhdrData(width: int, height: int): (data: Option<seq<Byte>>)
    ensures data.Some? <==> 0 <= width < TwoTo32 && 0 <= height < TwoTo32
    ensures data.Some? ==> |data.value| == 13
  {
    if 0 <= width < TwoTo32 && 0 <= height < TwoTo32 then
      Some(U32BE(width) + U32BE(height) + [8, 2, 0, 0, 0])
    else None
  }

  datatype Color = Color(r: int, g: int, b: int)

  /** struct.pack('!3B', *color) succeeds. */
  predicate ValidColor(c: Color) {
    0 <= c.r < 256 && 0 <= c.g < 256 && 0 <= c.b < 256
  }

  /** The pixels of one row: `width` copies of the colour's three bytes. */
  function Pixels(width: nat, c: Color): (p: seq<Byte>)
    requires width == 0 || ValidColor(c)
    ensures |p| == 3 * width
  {
    if width == 0 then [] else Pixels(width - 1, c) + [c.r, c.g, c.b]
  }

  /** One scanline: filter type 0, then the pixels. */
  function Scanline(width: nat, c: Color): (row: seq<Byte>)
    requires width == 0 || ValidColor(c)
    ensures |row| == 1 + 3 * width
  {
    [0] + Pixels(width, c)
  }

  /** Whether the pixel loop raises: it packs the colour at least once. */
  predicate PixelsFail(width: nat, height: nat, c: Color) {
    width > 0 && height > 0 && !ValidColor(c)
  }

  /** The uncompressed image: `height` scanlines. */
  function RawImage(width: nat, height: nat, c: Color): seq<Byte>
    requires !PixelsFail(width, height, c)
  {
    if height == 0 then [] else RawImage(width, height - 1, c) + Scanline(width, c)
  }

  /** The whole file, or None where struct.pack raises. */
  function EncodePng(width: int, height: int, c: Color, z: Zlib): Option<seq<Byte>> {
    var ihdr := IhdrData(width, height);
    if ihdr.None? then None
    else if PixelsFail(width, height, c) then None
    else
      var c2 := PngPack(IDAT, z.compress(RawImage(width, height, c)), z);
      if c2.None? then None
      else Some(Signature + PngPack(IHDR, ihdr.value, z).value + c2.value + PngPack(IEND, [], z).value)
  }

  /** The row loops: a filter byte per row, then the colour per pixel. */
  method RawScanlines(width: nat, height: nat, c: Color) returns (raw: Option<seq<Byte>>)
    ensures raw.None? <==> PixelsFail(width, height, c)
    ensures raw.Some? ==> raw.value == RawImage(width, height, c)
  {
    if PixelsFail(width, height, c) {
      return None;  // the first struct.pack('!3B', *color) raises
    }
    var data: seq<Byte> := [];
    for y := 0 to height
      invariant data == RawImage(width, y, c)
    {
      data := data + [0];
      ghost var rowStart := data;
      for x := 0 to width
        invariant data == rowStart + Pixels(x, c)
      {
        data := data + [c.r, c.g, c.b];
      }
      assert data == RawImage(width, y, c) + Scanline(width, c);
    }
    raw := Some(data);
  }

  /** _create_simple_png without PIL: signature, then the IHDR, IDAT and
      IEND chunks; None where struct.pack raises. */
  method CreateSimplePng(c: Color, width: int, height: int, z: Zlib) returns (png: Option<seq<Byte>>)
    ensures png == EncodePng(width, height, c, z)
  {
    var pngData := Signature;
    var ihdr := IhdrData(width, height);
    if ihdr.None? {
      return None;
    }
    var c1 := PngPack(IHDR, ihdr.value, z);
    pngData := pngData + c1.value;
    var raw := RawScanlines(width, height, c);
    if raw.None? {
      return None;
    }
    var compressed := z.compress(raw.value);
    var c2 := PngPack(IDAT, compressed, z);
    if c2.None? {
      return None;
    }
    pngData := pngData + c2.value;
    var c3 := PngPack(IEND, [], z);
    pngData := pngData + c3.value;
    png := Some(pngData);
  }

  // ---------------------------------------------------------------
  // Reading the file back: a PNG chunk reader (section 5.3 of the PNG
  // specification, "Chunk layout") that checks each chunk's CRC.

  datatype Chunk = Chunk(tag: seq<Byte>, data: seq<Byte>)

  /** The first chunk of `b` and what follows it, or None when `b` does not
      start with a whole chunk whose CRC matches. */
  function ReadChunk(b: seq<Byte>, z: Zlib): (r: Option<(Chunk, seq<Byte>)>)
    ensures r.Some? ==> |r.value.1| < |b| && |r.value.0.tag| == 4
    ensures r.Some? ==> |b| == 12 + |r.value.0.data| + |r.value.1|
  {
    if |b| < 12 then None
    else
      var len := DecodeU32BE(b[..4]);
      if |b| < 12 + len then None
      else
        var tag := b[4..8];
        var data := b[8..8 + len];
        if DecodeU32BE(b[8 + len..12 + len]) != ChunkCrc(tag, data, z) then None
        else Some((Chunk(tag, data), b[12 + len..]))
  }

  /** All chunks of `b`, in order, or None when a chunk is cut short or
      damaged. */
  function ReadChunks(b: seq<Byte>, z: Zlib): Option<seq<Chunk>>
    decreases |b|
  {
    if b == [] then Some([])
    else match ReadChunk(b, z)
      case None => None
      case Some((chunk, rest)) =>
        match ReadChunks(rest, z)
        case None => None
        case Some(chunks) => Some([chunk] + chunks)
  }

  /** A packed chunk reads back as its tag and data, leaving what follows. */
  lemma ReadPacked(tag: seq<Byte>, data: seq<Byte>, rest: seq<Byte>, z: Zlib)
    requires |tag| == 4 && |data| < TwoTo32
    ensures ReadChunk(PngPack(tag, data, z).value + rest, z) == Some((Chunk(tag, data), rest))
  {
    var b := PngPack(tag, data, z).value + rest;
    var len := |data|;
    U32RoundTrip(len);
    U32RoundTrip(ChunkCrc(tag, data, z));
    assert b[..4] == U32BE(len);
    assert b[4..8] == tag;
    assert b[8..8 + len] == data;
    assert b[8 + len..12 + len] == U32BE(ChunkCrc(tag, data, z));
    assert b[12 + len..] == rest;
  }

  /** The three chunks written, in order. */
  function PngChunks(width: nat, height: nat, c: Color, z: Zlib): seq<Chunk>
    requires width < TwoTo32 && height < TwoTo32
    requires !PixelsFail(width, height, c)
  {
    [Chunk(IHDR, IhdrData(width, height).value),
     Chunk(IDAT, z.compress(RawImage(width, height, c))),
     Chunk(IEND, [])]
  }

  /** The file fails exactly where struct.pack raises: a width or height
      outside 32 bits, a colour component outside a byte when a pixel is
      written, or compressed data too long for a chunk. */
  lemma EncodeFails(width: int, height: int, c: Color, z: Zlib)
    ensures EncodePng(width, height, c, z).None? <==>
      || !(0 <= width < TwoTo32 && 0 <= height < TwoTo32)
      || PixelsFail(width, height, c)
      || |z.compress(RawImage(width, height, c))| >= TwoTo32
  {
  }

  /** A written file is the PNG signature followed by exactly the IHDR,
      IDAT and IEND chunks, and is 57 bytes longer than the compressed
      pixels. */
  lemma EncodeReadsBack(width: int, height: int, c: Color, z: Zlib)
    requires EncodePng(width, height, c, z).Some?
    ensures var png := EncodePng(width, height, c, z).value;
      && 0 <= width && 0 <= height
      && png[..8] == Signature
      && ReadChunks(png[8..], z) == Some(PngChunks(width, height, c, z))
      && |png| == 57 + |z.compress(RawImage(width, height, c))|
  {
    var png := EncodePng(width, height, c, z).value;
    var ihdr := IhdrData(width, height).value;
    var idat := z.compress(RawImage(width, height, c));
    var c1 := PngPack(IHDR, ihdr, z).value;
    var c2 := PngPack(IDAT, idat, z).value;
    var c3 := PngPack(IEND, [], z).value;
    assert png == Signature + (c1 + (c2 + c3));
    assert png[8..] == c1 + (c2 + c3);
    ReadPacked(IEND, [], [], z);
    assert c3 + [] == c3;
    assert ReadChunk(c3, z) == Some((Chunk(IEND, []), []));
    assert c3 != [];
    assert ReadChunks([], z) == Some([]);
    assert [Chunk(IEND, [])] + [] == [Chunk(IEND, [])];
    assert ReadChunks(c3, z) == Some([Chunk(IEND, [])]);
    ReadPacked(IDAT, idat, c3, z);
    assert ReadChunk(c2 + c3, z) == Some((Chunk(IDAT, idat), c3));
    assert c2 + c3 != [];
    assert [Chunk(IDAT, idat)] + [Chunk(IEND, [])] == [Chunk(IDAT, idat), Chunk(IEND, [])];
    assert ReadChunks(c2 + c3, z) == Some([Chunk(IDAT, idat), Chunk(IEND, [])]);
    ReadPacked(IHDR, ihdr, c2 + c3, z);
    assert ReadChunk(png[8..], z) == Some((Chunk(IHDR, ihdr), c2 + c3));
    assert png[8..] != [];
    assert [Chunk(IHDR, ihdr)] + [Chunk(IDAT, idat), Chunk(IEND, [])] == PngChunks(width, height, c, z);
  }

  /** The IHDR data reads back as the width and height, then 8-bit depth,
      colour type 2 (truecolour) and zero compression, filter and
      interlace methods. */
  lemma IhdrReadsBack(width: nat, height: nat)
    requires width < TwoTo32 && height < TwoTo32
    ensures var d := IhdrData(width, height).value;
      && DecodeU32BE(d[..4]) == width
      && DecodeU32BE(d[4..8]) == height
      && d[8..] == [8, 2, 0, 0, 0]
  {
    var d := IhdrData(width, height).value;
    assert d[..4] == U32BE(width);
    assert d[4..8] == U32BE(height);
    U32RoundTrip(width);
    U32RoundTrip(height);
  }

  /** The raw image holds a filter byte and three bytes per pixel for each
      row. */
  lemma {:induction false} RawImageLength(width: nat, height: nat, c: Color)
    requires !PixelsFail(width, height, c)
    ensures |RawImage(width, height, c)| == height * (1 + 3 * width)
  {
    if height > 0 {
      RawImageLength(width, height - 1, c);
      assert height * (1 + 3 * width) == (height - 1) * (1 + 3 * width) + (1 + 3 * width);
    }
  }

  /** Byte 3x+k+1 of a scanline is component k of the colour. */
  lemma {:induction false} PixelAt(width: nat, c: Color, x: nat, k: nat)
    requires ValidColor(c) && x < width && k < 3
    ensures Pixels(width, c)[3 * x + k] == [c.r, c.g, c.b][k]
  {
    if x < width - 1 {
      PixelAt(width - 1, c, x, k);
    }
  }

  /** Row y of the raw image, counted from the top, is the scanline. */
  lemma {:induction false} RowAt(width: nat, height: nat, c: Color, y: nat, j: nat)
    requires !PixelsFail(width, height, c)
    requires y < height && j < 1 + 3 * width
    ensures y * (1 + 3 * width) + j < |RawImage(width, height, c)|
    ensures RawImage(width, height, c)[y * (1 + 3 * width) + j] == Scanline(width, c)[j]
  {
    var l := 1 + 3 * width;
    RawImageLength(width, height - 1, c);
    if y < height - 1 {
      RowAt(width, height - 1, c, y, j);
    } else {
      assert y * l == (height - 1) * l;
    }
  }

  /** Each row of the raw image starts with filter type 0 (None) and then
      holds the colour's red, green and blue bytes for every pixel. */
  lemma RawImagePixel(width: nat, height: nat, c: Color, y: nat, x: nat)
    requires ValidColor(c) && y < height && x < width
    ensures var raw := RawImage(width, height, c);
      var row := y * (1 + 3 * width);
      && row + 3 * x + 3 < |raw|
      && raw[row] == 0
      && raw[row + 1 + 3 * x] == c.r
      && raw[row + 2 + 3 * x] == c.g
      && raw[row + 3 + 3 * x] == c.b
  {
    RowAt(width, height, c, y, 0);
    RowAt(width, height, c, y, 1 + 3 * x);
    RowAt(width, height, c, y, 2 + 3 * x);
    RowAt(width, height, c, y, 3 + 3 * x);
    PixelAt(width, c, x, 0);
    PixelAt(width, c, x, 1);
    PixelAt(width, c, x, 2);
  }
}
