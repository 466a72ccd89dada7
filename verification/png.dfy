/**
  The placeholder icon of scripts/ensure-icon.js: a 64x64 greyscale PNG (RFC 2083) whose
  rows are all grey. The compressed image data (zlib's deflate of the raw scanlines) is
  a parameter: the encoder puts whatever bytes it is given into the IDAT chunk.
 */
module Png {
  import opened Wrappers
  import opened Crc32

  // ---------------------------------------------------------------------------------------
  // writeUInt32BE

  /** The four bytes `writeUInt32BE(x, offset)` writes, most significant first. */
  function BE32(x: nat): (r: seq<byte>)
    requires x < UINT32_LIMIT
    ensures |r| == 4
  {
    [x / 0x100_0000, (x / 0x1_0000) % 256, (x / 0x100) % 256, x % 256]
  }

  /** The number four big-endian bytes stand for. */
  function ReadBE32(s: seq<byte>): nat
    requires |s| == 4
  {
    (s[0] as nat) * 0x100_0000 + (s[1] as nat) * 0x1_0000 + (s[2] as nat) * 0x100 + s[3] as nat
  }

  lemma BE32RoundTrip(x: nat)
    requires x < UINT32_LIMIT
    ensures ReadBE32(BE32(x)) == x
  {
    var hi, lo := x / 0x1_0000, x % 0x1_0000;
    assert x == hi * 0x1_0000 + lo;
    assert hi == (x / 0x100_0000) * 0x100 + hi % 0x100;
    assert lo == ((x / 0x100) % 256) * 0x100 + x % 256;
  }

  /** Dividing `q * d + r` by a byte-place value `d` gives back `q` and `r` when `r < d`. */
  lemma Place(q: nat, r: nat, d: nat)
    requires d == 0x100 || d == 0x1_0000 || d == 0x100_0000
    requires r < d
    ensures (q * d + r) / d == q && (q * d + r) % d == r
  {
    if d == 0x100 {
      assert (q * 0x100 + r) / 0x100 == q;
    } else if d == 0x1_0000 {
      assert (q * 0x1_0000 + r) / 0x1_0000 == q;
    } else {
      assert (q * 0x100_0000 + r) / 0x100_0000 == q;
    }
  }

  lemma ReadBE32RoundTrip(s: seq<byte>)
    requires |s| == 4
    ensures ReadBE32(s) < UINT32_LIMIT && BE32(ReadBE32(s)) == s
  {
    var a, b, c, d := s[0] as nat, s[1] as nat, s[2] as nat, s[3] as nat;
    var x := ReadBE32(s);
    var top, upper := a * 0x100 + b, (a * 0x100 + b) * 0x100 + c;
    assert x == a * 0x100_0000 + (b * 0x1_0000 + c * 0x100 + d);
    Place(a, b * 0x1_0000 + c * 0x100 + d, 0x100_0000);
    assert x == top * 0x1_0000 + (c * 0x100 + d);
    Place(top, c * 0x100 + d, 0x1_0000);
    Place(a, b, 0x100);
    assert x == upper * 0x100 + d;
    Place(upper, d, 0x100);
    Place(top, c, 0x100);
  }

  // ---------------------------------------------------------------------------------------
  // Chunks (section 3.2 of RFC 2083)

  /** The chunk type codes, as the ASCII bytes `Buffer.from` gives for 'IHDR', 'IDAT', 'IEND'. */
  const IHDR: seq<byte> := [0x49, 0x48, 0x44, 0x52]
  const IDAT: seq<byte> := [0x49, 0x44, 0x41, 0x54]
  const IEND: seq<byte> := [0x49, 0x45, 0x4E, 0x44]

  /**
    `pngChunk(type, data)`: the data length, the type, the data, and the CRC of type and
    data. `writeUInt32BE` throws for a length of 2^32 or more: None.
   */
  function Chunk(chunkType: seq<byte>, data: seq<byte>): Option<seq<byte>>
  {
    if |data| >= UINT32_LIMIT then None
    else
      CrcFacts(chunkType + data);
      Some(BE32(|data|) + (chunkType + data) + BE32(Crc(chunkType + data)))
  }

  /** One chunk read from the front of the bytes: its type, its data and what follows, when the CRC matches. */
  function ReadChunk(bytes: seq<byte>): Option<(seq<byte>, seq<byte>, seq<byte>)>
  {
    if |bytes| < 12 then None
    else
      var n := ReadBE32(bytes[..4]);
      if |bytes| < 12 + n then None
      else
        var chunkType, data := bytes[4..8], bytes[8..8 + n];
        if ReadBE32(bytes[8 + n..12 + n]) != Crc(chunkType + data) then None
        else Some((chunkType, data, bytes[12 + n..]))
  }

  /** Chunks read one after another until the bytes run out. */
  function ReadChunks(bytes: seq<byte>): Option<seq<(seq<byte>, seq<byte>)>>
    decreases |bytes|
  {
    if |bytes| == 0 then Some([])
    else
      match ReadChunk(bytes)
      case None => None
      case Some((chunkType, data, rest)) =>
        if |rest| >= |bytes| then None
        else
          match ReadChunks(rest)
          case None => None
          case Some(more) => Some([(chunkType, data)] + more)
  }

  /**
    Chunk layout: a chunk exists exactly when its length fits in four bytes; it is
    12 bytes longer than its data, its first four bytes read as the data length, then
    come the type and the data, and its last four bytes read as the CRC of type and data.
   */
  lemma ChunkLayout(chunkType: seq<byte>, data: seq<byte>)
    requires |chunkType| == 4
    ensures Chunk(chunkType, data).Some? <==> |data| < UINT32_LIMIT
    ensures Chunk(chunkType, data).Some? ==>
              var c, n := Chunk(chunkType, data).value, |data|;
              && |c| == 12 + n
              && ReadBE32(c[..4]) == n
              && c[4..8] == chunkType
              && c[8..8 + n] == data
              && ReadBE32(c[8 + n..]) == Crc(chunkType + data)
  {
    if |data| < UINT32_LIMIT {
      var c, n := Chunk(chunkType, data).value, |data|;
      CrcFacts(chunkType + data);
      assert c[..4] == BE32(n);
      BE32RoundTrip(n);
      assert c[8 + n..] == BE32(Crc(chunkType + data));
      BE32RoundTrip(Crc(chunkType + data));
    }
  }

  /** A reader gets back the type and data of a chunk, and the bytes after it. */
  lemma ChunkRoundTrip(chunkType: seq<byte>, data: seq<byte>, rest: seq<byte>)
    requires |chunkType| == 4 && |data| < UINT32_LIMIT
    ensures ReadChunk(Chunk(chunkType, data).value + rest) == Some((chunkType, data, rest))
  {
    ChunkLayout(chunkType, data);
    var c, n := Chunk(chunkType, data).value, |data|;
    var bytes := c + rest;
    assert bytes[..4] == c[..4];
    assert bytes[4..8] == c[4..8];
    assert bytes[8..8 + n] == c[8..8 + n];
    assert bytes[8 + n..12 + n] == c[8 + n..];
    assert bytes[12 + n..] == rest;
  }

  // ---------------------------------------------------------------------------------------
  // The image

  const WIDTH: nat := 64
  const HEIGHT: nat := 64
  const GREY: byte := 0x80

  /** The PNG signature of section 3.1 of RFC 2083. */
  const SIGNATURE: seq<byte> := [0x89, 0x50, 0x4E, 0x47, 0x0D, 0x0A, 0x1A, 0x0A]

  /** A byte of the raw image: each row is filter type 0 (None) and then WIDTH grey pixels. */
  predicate RawByte(raw: seq<byte>, i: nat)
    requires i < |raw|
  {
    raw[i] == if i % (1 + WIDTH) == 0 then 0 else GREY
  }

  lemma RowOffset(i: int, y: int)
    requires 0 <= y && (1 + WIDTH) * y <= i < (1 + WIDTH) * y + (1 + WIDTH)
    ensures i % (1 + WIDTH) == i - (1 + WIDTH) * y
  {
  }

  /** The loops that fill `raw`: (1 + w) * h bytes, 0 at the start of each row and grey elsewhere. */
  method RawScanlines() returns (raw: seq<byte>)
    ensures |raw| == (1 + WIDTH) * HEIGHT
    ensures forall i :: 0 <= i < |raw| ==> RawByte(raw, i)
  {
    var a := new byte[(1 + WIDTH) * HEIGHT];
    var y := 0;
    while y < HEIGHT
      invariant 0 <= y <= HEIGHT
      invariant forall i :: 0 <= i < (1 + WIDTH) * y ==> a[i] == if i % (1 + WIDTH) == 0 then 0 else GREY
    {
      var row := (1 + WIDTH) * y;
      a[row] := 0;
      var x := 0;
      while x < WIDTH
        invariant 0 <= x <= WIDTH
        invariant forall i :: 0 <= i < row ==> a[i] == if i % (1 + WIDTH) == 0 then 0 else GREY
        invariant a[row] == 0
        invariant forall i :: row + 1 <= i < row + 1 + x ==> a[i] == GREY
      {
        a[row + 1 + x] := GREY;
        x := x + 1;
      }
      forall i | row <= i < row + (1 + WIDTH)
        ensures a[i] == if i % (1 + WIDTH) == 0 then 0 else GREY
      {
        RowOffset(i, y);
      }
      y := y + 1;
    }
    raw := a[..];
  }

  /**
    The IHDR data of section 4.1.1 of RFC 2083: width and height, bit depth 8, colour type 0
    (greyscale), and compression, filter and interlace methods 0.
   */
  function HeaderData(): seq<byte>
  {
    BE32(WIDTH) + BE32(HEIGHT) + [8, 0, 0, 0, 0]
  }

  lemma HeaderFields()
    ensures var d := HeaderData();
            && |d| == 13
            && ReadBE32(d[0..4]) == WIDTH && ReadBE32(d[4..8]) == HEIGHT
            && d[8] == 8 && d[9] == 0 && d[10] == 0 && d[11] == 0 && d[12] == 0
  {
    var d := HeaderData();
    assert d[0..4] == BE32(WIDTH) && d[4..8] == BE32(HEIGHT);
  }

  /** The file: the signature, then the IHDR, IDAT and IEND chunks. */
  function PngFile(idat: seq<byte>): Option<seq<byte>>
  {
    var header := Chunk(IHDR, HeaderData());
    var image := Chunk(IDAT, idat);
    var end := Chunk(IEND, []);
    if header.None? || image.None? || end.None? then None
    else Some(SIGNATURE + header.value + image.value + end.value)
  }

  /** Reading a chunk and then the chunks after it. */
  lemma ReadChunksFront(bytes: seq<byte>, chunkType: seq<byte>, data: seq<byte>, rest: seq<byte>)
    requires |bytes| > 0 && ReadChunk(bytes) == Some((chunkType, data, rest)) && |rest| < |bytes|
    requires ReadChunks(rest).Some?
    ensures ReadChunks(bytes) == Some([(chunkType, data)] + ReadChunks(rest).value)
  {
  }

  /** The file exists exactly when the compressed data's length fits in four bytes. */
  lemma PngFileExists(idat: seq<byte>)
    ensures PngFile(idat).Some? <==> |idat| < UINT32_LIMIT
  {
    ChunkLayout(IHDR, HeaderData());
    ChunkLayout(IDAT, idat);
    ChunkLayout(IEND, []);
  }

  lemma ChunkLength(chunkType: seq<byte>, data: seq<byte>)
    requires |data| < UINT32_LIMIT
    ensures |Chunk(chunkType, data).value| == 8 + |chunkType| + |data|
  {
  }

  /** A chunk that is all there is reads as a list of one. */
  lemma ReadOne(c: seq<byte>, k: (seq<byte>, seq<byte>))
    requires |c| > 0 && ReadChunk(c) == Some((k.0, k.1, []))
    ensures ReadChunks(c) == Some([k])
  {
    assert ReadChunks([]) == Some([]);
    ReadChunksFront(c, k.0, k.1, []);
    assert [(k.0, k.1)] + [] == [k];
  }

  lemma ReadTwo(c2: seq<byte>, c3: seq<byte>, k2: (seq<byte>, seq<byte>), k3: (seq<byte>, seq<byte>))
    requires |c2| > 0 && ReadChunks(c3) == Some([k3])
    requires ReadChunk(c2 + c3) == Some((k2.0, k2.1, c3))
    ensures ReadChunks(c2 + c3) == Some([k2, k3])
  {
    ReadChunksFront(c2 + c3, k2.0, k2.1, c3);
    assert [(k2.0, k2.1)] + [k3] == [k2, k3];
  }

  /** Three chunks in a row, each read off the front of what is left. */
  lemma ReadThree(c1: seq<byte>, c23: seq<byte>, k1: (seq<byte>, seq<byte>), k2: (seq<byte>, seq<byte>), k3: (seq<byte>, seq<byte>))
    requires |c1| > 0 && ReadChunks(c23) == Some([k2, k3])
    requires ReadChunk(c1 + c23) == Some((k1.0, k1.1, c23))
    ensures ReadChunks(c1 + c23) == Some([k1, k2, k3])
  {
    ReadChunksFront(c1 + c23, k1.0, k1.1, c23);
    assert [(k1.0, k1.1)] + [k2, k3] == [k1, k2, k3];
  }

  /** Three chunks in a row read back as their types and data. */
  lemma ThreeChunks(t1: seq<byte>, d1: seq<byte>, t2: seq<byte>, d2: seq<byte>, t3: seq<byte>, d3: seq<byte>)
    requires |t1| == 4 && |t2| == 4 && |t3| == 4
    requires |d1| < UINT32_LIMIT && |d2| < UINT32_LIMIT && |d3| < UINT32_LIMIT
    ensures ReadChunks(Chunk(t1, d1).value + (Chunk(t2, d2).value + Chunk(t3, d3).value))
            == Some([(t1, d1), (t2, d2), (t3, d3)])
  {
    var c1, c2, c3 := Chunk(t1, d1).value, Chunk(t2, d2).value, Chunk(t3, d3).value;
    ChunkLength(t1, d1);
    ChunkLength(t2, d2);
    ChunkLength(t3, d3);
    ChunkRoundTrip(t3, d3, []);
    assert c3 + [] == c3;
    ReadOne(c3, (t3, d3));
    ChunkRoundTrip(t2, d2, c3);
    ReadTwo(c2, c3, (t2, d2), (t3, d3));
    ChunkRoundTrip(t1, d1, c2 + c3);
    ReadThree(c1, c2 + c3, (t1, d1), (t2, d2), (t3, d3));
  }

  /**
    The file starts with the signature, and the rest reads as exactly three chunks:
    IHDR with the header data, IDAT with the compressed data, and IEND with no data.
   */
  lemma PngFileLayout(idat: seq<byte>)
    requires |idat| < UINT32_LIMIT
    ensures PngFile(idat).Some?
    ensures var f := PngFile(idat).value;
            && f[..8] == SIGNATURE
            && ReadChunks(f[8..]) == Some([(IHDR, HeaderData()), (IDAT, idat), (IEND, [])])
  {
    PngFileExists(idat);
    var h, i, e := Chunk(IHDR, HeaderData()).value, Chunk(IDAT, idat).value, Chunk(IEND, []).value;
    assert PngFile(idat).value == SIGNATURE + h + i + e;
    Framed(h, i, e);
    ThreeChunks(IHDR, HeaderData(), IDAT, idat, IEND, []);
  }

  /** The signature is the first eight bytes, and the chunks follow it. */
  lemma Framed(h: seq<byte>, i: seq<byte>, e: seq<byte>)
    ensures (SIGNATURE + h + i + e)[..8] == SIGNATURE
    ensures (SIGNATURE + h + i + e)[8..] == h + (i + e)
  {
    assert SIGNATURE + h + i + e == SIGNATURE + (h + (i + e));
  }
}
