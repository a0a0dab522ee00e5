/** The PNG writer of the frame check, and a decoder written from the standards (RFC 2083, 1950 and 1951). */
module Png {
  import opened Options
  import opened Bytes
  import Crc

  const MAX_LENGTH := 0x7FFF_FFFF
  const MAX_BLOCK := 65535

  // ---------------------------------------------------------------- what is written

  /** A filter byte of zero before each whole row; an incomplete last row is dropped. */
  function Filtered(stride: nat, rgba: seq<Byte>): seq<Byte>
    requires stride > 0
  {
    if |rgba| < stride then [] else [0] + rgba[..stride] + Filtered(stride, rgba[stride..])
  }

  function Chunks(raw: seq<Byte>): seq<seq<Byte>> {
    if raw == [] then []
    else if |raw| <= MAX_BLOCK then [raw]
    else [raw[..MAX_BLOCK]] + Chunks(raw[MAX_BLOCK..])
  }

  predicate IsBlock(block: seq<Byte>) { 0 < |block| <= MAX_BLOCK }

  predicate AreBlocks(blocks: seq<seq<Byte>>) { forall i | 0 <= i < |blocks| :: IsBlock(blocks[i]) }

  function StoredBlock(last: bool, block: seq<Byte>): seq<Byte>
    requires IsBlock(block)
  {
    [if last then 1 else 0] + Le16(|block|) + Le16(0xFFFF - |block|) + block
  }

  function Stored(blocks: seq<seq<Byte>>): seq<Byte>
    requires AreBlocks(blocks)
  {
    if blocks == [] then [] else StoredBlock(|blocks| == 1, blocks[0]) + Stored(blocks[1..])
  }

  lemma {:induction false} ChunksAreBlocks(raw: seq<Byte>)
    ensures AreBlocks(Chunks(raw)) && forall i | 0 <= i < |Chunks(raw)| :: 0 < |Chunks(raw)[i]| <= 65535
    ensures raw != [] ==> Chunks(raw) != []
    decreases |raw|
  {
    if |raw| > MAX_BLOCK { ChunksAreBlocks(raw[MAX_BLOCK..]); }
  }

  type Name = s: seq<Byte> | |s| == 4 witness [0, 0, 0, 0]

  /** The length wraps as the cast to u32 does. */
  function ChunkBytes(kind: Name, data: seq<Byte>): seq<Byte> {
    Be32(Wrap(|data|)) + (kind + data) + Be32(Crc.Crc32(kind + data))
  }

  const SIGNATURE: seq<Byte> := [0x89, 0x50, 0x4E, 0x47, 0x0D, 0x0A, 0x1A, 0x0A]
  const IHDR: Name := [0x49, 0x48, 0x44, 0x52]
  const IDAT: Name := [0x49, 0x44, 0x41, 0x54]
  const IEND: Name := [0x49, 0x45, 0x4E, 0x44]

  function Header(width: Word, height: Word): seq<Byte> {
    Be32(width) + Be32(height) + [8, 6, 0, 0, 0]
  }

  function Zlib(raw: seq<Byte>): seq<Byte> {
    ChunksAreBlocks(raw);
    [0x78, 0x01] + Stored(Chunks(raw)) + Be32(Adler(raw))
  }

  function PngBytes(width: Word, height: Word, rgba: seq<Byte>): seq<Byte>
    requires width > 0
  {
    SIGNATURE + ChunkBytes(IHDR, Header(width, height))
      + ChunkBytes(IDAT, Zlib(Filtered(4 * width, rgba))) + ChunkBytes(IEND, [])
  }

  // ---------------------------------------------------------------- Adler-32 (RFC 1950, section 8.2)

  /** One plus the sum of the bytes, not reduced. */
  function S1(data: seq<Byte>): nat {
    if data == [] then 1 else S1(data[..|data|-1]) + data[|data|-1]
  }

  /** The sum of the values of S1 after each byte, not reduced. */
  function S2(data: seq<Byte>): nat {
    if data == [] then 0 else S2(data[..|data|-1]) + S1(data)
  }

  function Adler(data: seq<Byte>): Word {
    S2(data) % 65521 * 65536 + S1(data) % 65521
  }

  lemma ReducedSum(a: nat, x: nat)
    ensures (a % 65521 + x) % 65521 == (a + x) % 65521
    ensures (x + a % 65521) % 65521 == (x + a) % 65521
  {
  }

  /** The sums reduced after every byte are the sums reduced once. */
  method AdlerLoop(raw: seq<Byte>) returns (sum: Word)
    ensures sum == Adler(raw)
  {
    var a: nat, b: nat := 1, 0;
    for i := 0 to |raw|
      invariant a == S1(raw[..i]) % 65521
      invariant b == S2(raw[..i]) % 65521
    {
      assert raw[..i+1][..i] == raw[..i];
      ReducedSum(S1(raw[..i]), raw[i]);
      ReducedSum(S2(raw[..i]), S1(raw[..i+1]) % 65521);
      ReducedSum(S1(raw[..i+1]), S2(raw[..i]));
      a := (a + raw[i]) % 65521;
      b := (b + a) % 65521;
    }
    assert raw[..|raw|] == raw;
    sum := b * 65536 + a;
  }

  // ---------------------------------------------------------------- the writer

  method WriteChunk(out: seq<Byte>, kind: Name, data: seq<Byte>) returns (r: seq<Byte>)
    ensures r == out + ChunkBytes(kind, data)
  {
    var body := kind + data;
    var crc := Crc.BitCrc(body);
    r := out + Be32(Wrap(|data|));
    r := r + body;
    r := r + Be32(crc);
  }

  method FilterRows(stride: nat, rgba: seq<Byte>) returns (raw: seq<Byte>)
    requires stride > 0
    ensures raw == Filtered(stride, rgba)
  {
    raw := [];
    var at := 0;
    while at + stride <= |rgba|
      invariant at <= |rgba|
      invariant raw + Filtered(stride, rgba[at..]) == Filtered(stride, rgba)
    {
      var rest := rgba[at..];
      assert rest[stride..] == rgba[at + stride..] && rest[..stride] == rgba[at..at + stride];
      raw := raw + [0];
      raw := raw + rgba[at..at + stride];
      at := at + stride;
    }
  }

  method WriteBlocks(z0: seq<Byte>, raw: seq<Byte>) returns (z: seq<Byte>)
    requires AreBlocks(Chunks(raw))
    ensures z == z0 + Stored(Chunks(raw))
  {
    var blocks := Chunks(raw);
    z := z0;
    for i := 0 to |blocks|
      invariant z + Stored(blocks[i..]) == z0 + Stored(blocks)
    {
      var block := blocks[i];
      assert IsBlock(block);
      assert blocks[i..][1..] == blocks[i+1..];
      ghost var before := z;
      z := z + [if i + 1 == |blocks| then 1 else 0];
      z := z + Le16(|block|);
      z := z + Le16(0xFFFF - |block|);
      z := z + block;
      assert z == before + StoredBlock(i + 1 == |blocks|, block);
    }
  }

  method WritePng(width: Word, height: Word, rgba: seq<Byte>) returns (png: seq<Byte>)
    requires width > 0
    ensures png == PngBytes(width, height, rgba)
  {
    hide ChunkBytes, Filtered, Stored, Chunks, Adler;
    var raw := FilterRows(4 * width, rgba);
    ChunksAreBlocks(raw);
    var z := WriteBlocks([0x78, 0x01], raw);
    var adler := AdlerLoop(raw);
    z := z + Be32(adler);
    png := [0x89, 0x50, 0x4E, 0x47, 0x0D, 0x0A, 0x1A, 0x0A];
    var ihdr := Be32(width);
    ihdr := ihdr + Be32(height);
    ihdr := ihdr + [8, 6, 0, 0, 0];
    png := WriteChunk(png, IHDR, ihdr);
    png := WriteChunk(png, IDAT, z);
    png := WriteChunk(png, IEND, []);
  }

  // ---------------------------------------------------------------- what the standards say is read

  datatype Chunk = Chunk(kind: Name, data: seq<Byte>)

  datatype Image = Image(width: Word, height: Word, rgba: seq<Byte>)

  /** One chunk and the bytes after it (RFC 2083, section 3.2), its checksum being the remainder of section 3.4. */
  function ReadChunk(s: seq<Byte>): Option<(Chunk, seq<Byte>)> {
    if |s| < 12 then None else
    var length := FromBe32(s);
    if length > 0x7FFF_FFFF || |s| < 12 + length then None else
    var body := s[4..8 + length];
    if Crc.BitsOf(FromBe32(s[8 + length..])) != Crc.CheckBits(body) then None
    else Some((Chunk(body[..4], body[4..]), s[12 + length..]))
  }

  function ReadChunks(s: seq<Byte>): Option<seq<Chunk>>
    decreases |s|
  {
    if s == [] then Some([]) else
    match ReadChunk(s)
    case None => None
    case Some((chunk, rest)) =>
      match ReadChunks(rest)
      case None => None
      case Some(chunks) => Some([chunk] + chunks)
  }

  /** Stored blocks up to and including the final one, and the bytes after it (RFC 1951, section 3.2.4). */
  function Inflate(s: seq<Byte>): Option<(seq<Byte>, seq<Byte>)>
    decreases |s|
  {
    if |s| < 5 then None else
    var length := FromLe16(s[1..]);
    if s[0] / 2 % 4 != 0 || FromLe16(s[3..]) != 0xFFFF - length || |s| < 5 + length then None else
    var (data, rest) := (s[5..5 + length], s[5 + length..]);
    if s[0] % 2 == 1 then Some((data, rest)) else
    match Inflate(rest)
    case None => None
    case Some((more, rest')) => Some((data + more, rest'))
  }

  /** RFC 1950, section 2.2: deflate, no dictionary, header check, and the checksum of what was inflated. */
  function Unzlib(z: seq<Byte>): Option<seq<Byte>> {
    if |z| < 2 || z[0] % 16 != 8 || z[0] / 16 > 7 || z[1] / 32 % 2 != 0
       || (256 * (z[0] as int) + z[1]) % 31 != 0
    then None else
    match Inflate(z[2..])
    case None => None
    case Some((raw, rest)) => if |rest| == 4 && FromBe32(rest) == Adler(raw) then Some(raw) else None
  }

  function Unfiltered(stride: nat, raw: seq<Byte>): Option<seq<Byte>>
    decreases |raw|
  {
    if raw == [] then Some([])
    else if |raw| < 1 + stride || raw[0] != 0 then None else
    match Unfiltered(stride, raw[1 + stride..])
    case None => None
    case Some(rest) => Some(raw[1..1 + stride] + rest)
  }

  predicate AllData(chunks: seq<Chunk>) { forall i | 0 <= i < |chunks| :: chunks[i].kind == [73, 68, 65, 84] }

  function Joined(chunks: seq<Chunk>): seq<Byte> {
    if chunks == [] then [] else chunks[0].data + Joined(chunks[1..])
  }

  /** An eight-bit truecolour image with alpha, not interlaced, from its chunks. */
  function Assemble(chunks: seq<Chunk>): Option<Image> {
    if |chunks| < 3 || chunks[0].kind != [73, 72, 68, 82] || |chunks[0].data| != 13
       || chunks[|chunks|-1] != Chunk([73, 69, 78, 68], []) || !AllData(chunks[1..|chunks|-1])
    then None else
    var ihdr := chunks[0].data;
    var width: int := FromBe32(ihdr);
    var height: int := FromBe32(ihdr[4..]);
    if !(0 < width <= 0x7FFF_FFFF && 0 < height <= 0x7FFF_FFFF) || ihdr[8..] != [8, 6, 0, 0, 0] then None else
    match Unzlib(Joined(chunks[1..|chunks|-1]))
    case None => None
    case Some(raw) =>
      match Unfiltered(4 * width, raw)
      case None => None
      case Some(rgba) => if |rgba| == 4 * width * height then Some(Image(width, height, rgba)) else None
  }

  function Decode(png: seq<Byte>): Option<Image> {
    if |png| < 8 || png[..8] != [137, 80, 78, 71, 13, 10, 26, 10] then None else
    match ReadChunks(png[8..])
    case None => None
    case Some(chunks) => Assemble(chunks)
  }

  // ---------------------------------------------------------------- reading back what was written

  lemma {:induction false} InflateStored(blocks: seq<seq<Byte>>, rest: seq<Byte>)
    requires AreBlocks(blocks) && blocks != []
    ensures Inflate(Stored(blocks) + rest) == Some((Concat(blocks), rest))
  {
    var tail := blocks[1..];
    var after := Stored(tail) + rest;
    assert IsBlock(blocks[0]);
    assert Stored(blocks) + rest == StoredBlock(|blocks| == 1, blocks[0]) + after;
    InflateOne(|blocks| == 1, blocks[0], after);
    if |blocks| > 1 {
      InflateStored(tail, rest);
    } else {
      assert blocks[0] + Concat(tail) == blocks[0];
    }
  }

  function Concat(blocks: seq<seq<Byte>>): seq<Byte> {
    if blocks == [] then [] else blocks[0] + Concat(blocks[1..])
  }

  lemma InflateOne(last: bool, block: seq<Byte>, after: seq<Byte>)
    requires IsBlock(block)
    ensures Inflate(StoredBlock(last, block) + after) ==
      if last then Some((block, after)) else
      match Inflate(after)
      case None => None
      case Some((more, rest)) => Some((block + more, rest))
  {
    var s := StoredBlock(last, block) + after;
    var n := |block|;
    Le16RoundTrip(n);
    Le16RoundTrip(0xFFFF - n);
    assert s[1..][0] == Le16(n)[0] && s[1..][1] == Le16(n)[1];
    assert s[3..][0] == Le16(0xFFFF - n)[0] && s[3..][1] == Le16(0xFFFF - n)[1];
    assert s[5..5 + n] == block && s[5 + n..] == after;
  }

  lemma {:induction false} ChunksJoin(raw: seq<Byte>)
    ensures Concat(Chunks(raw)) == raw
    decreases |raw|
  {
    if |raw| > MAX_BLOCK {
      ChunksJoin(raw[MAX_BLOCK..]);
    } else if raw != [] {
      assert Chunks(raw)[1..] == [];
    }
  }

  lemma UnzlibZlib(raw: seq<Byte>)
    requires raw != []
    ensures Unzlib(Zlib(raw)) == Some(raw)
  {
    hide Inflate, Stored, Chunks, Adler, Be32, FromBe32;
    ChunksAreBlocks(raw);
    ChunksJoin(raw);
    var sum := Be32(Adler(raw));
    InflateStored(Chunks(raw), sum);
    Be32RoundTrip(Adler(raw));
    assert Zlib(raw)[2..] == Stored(Chunks(raw)) + sum;
  }

  lemma UnzlibNothing()
    ensures Unzlib(Zlib([])) == None
  {
    var z := Zlib([]);
    assert z[2..] == Be32(Adler([]));
  }

  lemma {:induction false} UnfilteredFiltered(stride: nat, rgba: seq<Byte>, rows: nat)
    requires stride > 0
    requires |rgba| == rows * stride
    ensures Unfiltered(stride, Filtered(stride, rgba)) == Some(rgba)
    ensures rgba != [] ==> Filtered(stride, rgba) != []
    decreases rows
  {
    if rows > 0 {
      OneRow(stride, rows);
      UnfilteredFiltered(stride, rgba[stride..], rows - 1);
      var raw := Filtered(stride, rgba);
      assert raw[1..1 + stride] == rgba[..stride];
      assert raw[1 + stride..] == Filtered(stride, rgba[stride..]);
      assert rgba == rgba[..stride] + rgba[stride..];
    }
  }

  lemma OneRow(stride: nat, rows: nat)
    requires rows > 0
    ensures rows * stride == stride + (rows - 1) * stride
    ensures rows * stride >= stride
  {
    assert (rows - 1) * stride >= 0;
  }

  lemma ReadWritten(kind: Name, data: seq<Byte>, rest: seq<Byte>)
    requires |data| < 0x1_0000_0000
    ensures ReadChunk(ChunkBytes(kind, data) + rest) ==
      if |data| <= MAX_LENGTH then Some((Chunk(kind, data), rest)) else None
  {
    hide Crc.Crc32, Crc.BitsOf, Crc.CheckBits, Be32, FromBe32;
    var s := ChunkBytes(kind, data) + rest;
    var body := kind + data;
    Front(Be32(|data|), body + Be32(Crc.Crc32(body)) + rest);
    assert s == Be32(|data|) + (body + Be32(Crc.Crc32(body)) + rest);
    Be32RoundTrip(|data|);
    Crc.CrcIsRemainder(body);
    if |data| <= MAX_LENGTH {
      assert s[4..8 + |data|] == body;
      assert s[8 + |data|..] == Be32(Crc.Crc32(body)) + rest;
      Front(Be32(Crc.Crc32(body)), rest);
      Be32RoundTrip(Crc.Crc32(body));
      assert s[12 + |data|..] == rest;
      assert body[..4] == kind && body[4..] == data;
    }
  }

  lemma Front(four: seq<Byte>, rest: seq<Byte>)
    requires |four| == 4
    ensures FromBe32(four + rest) == FromBe32(four)
  {
  }

  lemma ReadThree(a: Chunk, b: Chunk, c: Chunk)
    requires |a.data| <= MAX_LENGTH && |b.data| < 0x1_0000_0000 && |c.data| <= MAX_LENGTH
    ensures ReadChunks(ChunkBytes(a.kind, a.data) + ChunkBytes(b.kind, b.data) + ChunkBytes(c.kind, c.data)) ==
      if |b.data| <= MAX_LENGTH then Some([a, b, c]) else None
  {
    hide ReadChunk, ChunkBytes, Be32;
    var (p, q, r) := (ChunkBytes(a.kind, a.data), ChunkBytes(b.kind, b.data), ChunkBytes(c.kind, c.data));
    ReadWritten(a.kind, a.data, q + r);
    ReadWritten(b.kind, b.data, r);
    ReadWritten(c.kind, c.data, []);
    assert p + q + r == p + (q + r);
    assert r + [] == r;
    ReadMore(r, c, []);
    NotEmpty(b, r);
    assert [a] + ([b] + ([c] + [])) == [a, b, c];
    if |b.data| <= MAX_LENGTH { ReadMore(q + r, b, r); }
    ReadMore(p + (q + r), a, q + r);
  }

  lemma NotEmpty(chunk: Chunk, rest: seq<Byte>)
    ensures ChunkBytes(chunk.kind, chunk.data) + rest != []
  {
  }

  lemma ReadMore(s: seq<Byte>, chunk: Chunk, rest: seq<Byte>)
    requires ReadChunk(s) == Some((chunk, rest))
    ensures ReadChunks(s) ==
      match ReadChunks(rest)
      case None => None
      case Some(chunks) => Some([chunk] + chunks)
  {
  }

  /** A reader checks the two bytes before the stream. */
  lemma HeaderIsChecked(z: seq<Byte>)
    requires Unzlib(z).Some?
    ensures |z| >= 2 && z[0] % 16 == 8 && z[0] / 16 <= 7 && z[1] / 32 % 2 == 0
    ensures (256 * (z[0] as int) + z[1]) % 31 == 0
  {
    hide Inflate, Adler;
  }

  /** It takes only image data between the first chunk and the last. */
  lemma OnlyDataBetween(chunks: seq<Chunk>, i: nat)
    requires Assemble(chunks).Some? && 0 < i < |chunks| - 1
    ensures chunks[i].kind == [0x49, 0x44, 0x41, 0x54]
  {
    hide Unzlib, Unfiltered, Joined;
    assert chunks[1..|chunks|-1][i-1] == chunks[i];
  }

  /** And it takes a block without bytes. */
  lemma EmptyBlockIsRead()
    ensures Inflate([1, 0, 0, 0xFF, 0xFF]) == Some(([], []))
  {
    var s: seq<Byte> := [1, 0, 0, 0xFF, 0xFF];
    assert FromLe16(s[1..]) == 0 && FromLe16(s[3..]) == 0xFFFF;
    assert s[5..5] == [] && s[5..] == [];
  }

  /** What a decoded image always is. */
  lemma DecodedIsWhole(png: seq<Byte>)
    requires Decode(png).Some?
    ensures var image := Decode(png).value;
      0 < image.width && 0 < image.height && |image.rgba| == 4 * image.width * image.height
  {
  }

  lemma AssembleWritten(width: Word, height: Word, rgba: seq<Byte>)
    requires width > 0 && height > 0 && |rgba| == 4 * width * height
    requires |Zlib(Filtered(4 * width, rgba))| <= MAX_LENGTH
    ensures Assemble([Chunk(IHDR, Header(width, height)),
                      Chunk(IDAT, Zlib(Filtered(4 * width, rgba))), Chunk(IEND, [])]) ==
      Some(Image(width, height, rgba))
  {
    hide Zlib, Unzlib, Filtered, Unfiltered, Be32, FromBe32;
    var z := Zlib(Filtered(4 * width, rgba));
    var ihdr := Header(width, height);
    var chunks := [Chunk(IHDR, ihdr), Chunk(IDAT, z), Chunk(IEND, [])];
    assert chunks[1..2] == [Chunk(IDAT, z)];
    assert Joined(chunks[1..2]) == z by {
      assert z + [] == z;
    }
    Rearranged(width, height);
    SizesFit(width, height, rgba);
    UnfilteredFiltered(4 * width, rgba, height);
    UnzlibZlib(Filtered(4 * width, rgba));
    Be32RoundTrip(width);
    Be32RoundTrip(height);
    assert ihdr == Be32(width) + (Be32(height) + [8, 6, 0, 0, 0]);
    Front(Be32(width), Be32(height) + [8, 6, 0, 0, 0]);
    assert ihdr[4..] == Be32(height) + [8, 6, 0, 0, 0];
    Front(Be32(height), [8, 6, 0, 0, 0]);
    assert ihdr[8..] == [8, 6, 0, 0, 0];
  }

  lemma Rearranged(w: nat, h: nat)
    ensures 4 * w * h == h * (4 * w)
    ensures w > 0 && h > 0 ==> 4 * w * h >= w && 4 * w * h >= h
  {
  }

  lemma {:induction false} FilteredIsLonger(stride: nat, rgba: seq<Byte>, rows: nat)
    requires stride > 0 && |rgba| == rows * stride
    ensures |Filtered(stride, rgba)| == |rgba| + rows
    decreases rows
  {
    if rows > 0 {
      OneRow(stride, rows);
      FilteredIsLonger(stride, rgba[stride..], rows - 1);
    }
  }

  lemma {:induction false} StoredIsLonger(blocks: seq<seq<Byte>>)
    requires AreBlocks(blocks)
    ensures |Stored(blocks)| >= |Concat(blocks)|
  {
    if blocks != [] {
      assert IsBlock(blocks[0]);
      StoredIsLonger(blocks[1..]);
    }
  }

  /** Neither side of an image that fits a chunk is over the limit of the header. */
  lemma SizesFit(width: Word, height: Word, rgba: seq<Byte>)
    requires width > 0 && height > 0 && |rgba| == 4 * width * height
    requires |Zlib(Filtered(4 * width, rgba))| <= MAX_LENGTH
    ensures width <= MAX_LENGTH && height <= MAX_LENGTH
  {
    hide Filtered, Stored, Chunks, Concat, Adler;
    var raw := Filtered(4 * width, rgba);
    Rearranged(width, height);
    FilteredIsLonger(4 * width, rgba, height);
    ChunksAreBlocks(raw);
    ChunksJoin(raw);
    StoredIsLonger(Chunks(raw));
    assert |Zlib(raw)| >= |raw|;
  }

  // ---------------------------------------------------------------- how long the file is

  /** How many stored blocks n bytes take. */
  function BlockCount(n: nat): nat { (n + 65534) / 65535 }

  /** The length of the compressed data of a whole image. */
  function ZlibLength(width: Word, height: Word): nat {
    var raw := (height as int) * (4 * (width as int) + 1);
    LengthIsNatural(4 * (width as int) + 1, height);
    raw + 5 * BlockCount(raw) + 6
  }

  lemma LengthIsNatural(x: nat, y: nat)
    ensures y * x >= 0
  {
  }

  lemma {:induction false} StoredSize(blocks: seq<seq<Byte>>)
    requires AreBlocks(blocks)
    ensures |Stored(blocks)| == |Concat(blocks)| + 5 * |blocks|
  {
    if blocks != [] {
      assert IsBlock(blocks[0]);
      StoredSize(blocks[1..]);
    }
  }

  lemma {:induction false} ChunksCount(raw: seq<Byte>)
    ensures |Chunks(raw)| == BlockCount(|raw|)
    decreases |raw|
  {
    if |raw| > MAX_BLOCK { ChunksCount(raw[MAX_BLOCK..]); }
  }

  lemma ZlibSize(raw: seq<Byte>)
    ensures |Zlib(raw)| == |raw| + 5 * BlockCount(|raw|) + 6
  {
    hide Stored, Chunks, Concat, Adler, BlockCount;
    ChunksAreBlocks(raw);
    ChunksJoin(raw);
    ChunksCount(raw);
    StoredSize(Chunks(raw));
  }

  lemma WholeZlibSize(width: Word, height: Word, rgba: seq<Byte>)
    requires width > 0 && |rgba| == 4 * width * height
    ensures |Filtered(4 * width, rgba)| == height * (4 * width + 1)
    ensures |Zlib(Filtered(4 * width, rgba))| == ZlibLength(width, height)
  {
    hide Filtered, Zlib, BlockCount;
    Rearranged(width, height);
    FilteredIsLonger(4 * width, rgba, height);
    ZlibSize(Filtered(4 * width, rgba));
  }

  lemma ReadChunkSize(s: seq<Byte>)
    requires ReadChunk(s).Some?
    ensures var (chunk, rest) := ReadChunk(s).value;
            |s| == 12 + |chunk.data| + |rest| && |chunk.data| <= MAX_LENGTH
  {
  }

  function FileSize(chunks: seq<Chunk>): nat {
    if chunks == [] then 0 else 12 + |chunks[0].data| + FileSize(chunks[1..])
  }

  lemma {:induction false} ReadChunksSize(s: seq<Byte>)
    requires ReadChunks(s).Some?
    ensures |s| == FileSize(ReadChunks(s).value)
    ensures forall i | 0 <= i < |ReadChunks(s).value| :: |ReadChunks(s).value[i].data| <= MAX_LENGTH
    decreases |s|
  {
    hide ReadChunk;
    if s != [] {
      ReadChunkSize(s);
      var (chunk, rest) := ReadChunk(s).value;
      ReadChunksSize(rest);
      assert ReadChunks(s).value[1..] == ReadChunks(rest).value;
    }
  }

  lemma {:induction false} FileSizeJoins(a: seq<Chunk>, b: seq<Chunk>)
    ensures FileSize(a + b) == FileSize(a) + FileSize(b)
  {
    if a == [] {
      assert a + b == b;
    } else {
      FileSizeJoins(a[1..], b);
      assert (a + b)[1..] == a[1..] + b;
    }
  }

  lemma {:induction false} JoinedSize(chunks: seq<Chunk>)
    ensures FileSize(chunks) == 12 * |chunks| + |Joined(chunks)|
  {
    if chunks != [] { JoinedSize(chunks[1..]); }
  }

  /** However a stream is cut into stored blocks, it takes five bytes for each. */
  lemma {:induction false} InflateSize(s: seq<Byte>) returns (n: nat)
    requires Inflate(s).Some?
    ensures var (raw, rest) := Inflate(s).value;
            |s| == |raw| + |rest| + 5 * n && |raw| <= 65535 * n
    decreases |s|
  {
    var length := FromLe16(s[1..]);
    n := 1;
    if s[0] % 2 == 0 {
      var more := InflateSize(s[5 + length..]);
      n := n + more;
    }
  }

  lemma UnzlibSize(z: seq<Byte>)
    requires Unzlib(z).Some?
    ensures |z| >= |Unzlib(z).value| + 5 * BlockCount(|Unzlib(z).value|) + 6
  {
    hide Inflate, Adler;
    var n := InflateSize(z[2..]);
  }

  lemma {:induction false} UnfilteredSize(stride: nat, raw: seq<Byte>) returns (rows: nat)
    requires Unfiltered(stride, raw).Some?
    ensures |raw| == rows * (stride + 1) && |Unfiltered(stride, raw).value| == rows * stride
    decreases |raw|
  {
    if raw == [] {
      rows := 0;
    } else {
      var more := UnfilteredSize(stride, raw[1 + stride..]);
      rows := more + 1;
      OneRow(stride, rows);
      OneRow(stride + 1, rows);
    }
  }

  lemma SameRows(x: nat, y: nat, stride: nat)
    requires stride > 0 && x * stride == y * stride
    ensures x == y
  {
    assert (y - x) * stride == y * stride - x * stride;
    if x < y {
      OneRow(stride, y - x);
    } else if y < x {
      OneRow(stride, x - y);
    }
  }

  /** A file that decodes to the image it was written from holds its data in one chunk. */
  lemma DecodedFits(width: Word, height: Word, rgba: seq<Byte>)
    requires width > 0
    requires Decode(PngBytes(width, height, rgba)) == Some(Image(width, height, rgba))
    ensures |rgba| == 4 * width * height && ZlibLength(width, height) <= MAX_LENGTH
  {
    hide ReadChunks, ChunkBytes, Zlib, Unzlib, Filtered, Unfiltered, FileSize, Joined, BlockCount;
    var png := PngBytes(width, height, rgba);
    DecodedIsWhole(png);
    WholeZlibSize(width, height, rgba);
    var chunks := ReadChunks(png[8..]).value;
    var middle := chunks[1..|chunks|-1];
    var raw := Unzlib(Joined(middle)).value;
    FileSizeOfWritten(width, height, rgba);
    ReadChunksSize(png[8..]);
    OuterChunks(chunks);
    JoinedSize(middle);
    UnzlibSize(Joined(middle));
    RawSize(width, height, raw, rgba);
    if |middle| == 1 { OnlyChunk(middle); }
  }

  lemma FileSizeOfWritten(width: Word, height: Word, rgba: seq<Byte>)
    requires width > 0
    ensures |PngBytes(width, height, rgba)| == 57 + |Zlib(Filtered(4 * width, rgba))|
  {
    hide Zlib, Filtered, Crc.Crc32, Be32;
  }

  lemma OuterChunks(chunks: seq<Chunk>)
    requires |chunks| >= 3 && |chunks[0].data| == 13 && chunks[|chunks|-1].data == []
    ensures FileSize(chunks) == 37 + FileSize(chunks[1..|chunks|-1])
  {
    var (first, middle, last) := (chunks[..1], chunks[1..|chunks|-1], chunks[|chunks|-1..]);
    assert chunks == first + middle + last;
    FileSizeJoins(first + middle, last);
    FileSizeJoins(first, middle);
    assert first[1..] == [] && last[1..] == [];
  }

  lemma RawSize(width: Word, height: Word, raw: seq<Byte>, rgba: seq<Byte>)
    requires width > 0 && Unfiltered(4 * width, raw) == Some(rgba) && |rgba| == 4 * width * height
    ensures |raw| == height * (4 * width + 1)
  {
    hide Unfiltered;
    var rows := UnfilteredSize(4 * width, raw);
    Rearranged(width, height);
    SameRows(rows, height, 4 * width);
  }

  lemma OnlyChunk(chunks: seq<Chunk>)
    requires |chunks| == 1
    ensures Joined(chunks) == chunks[0].data
  {
    assert chunks[1..] == [];
    assert chunks[0].data + [] == chunks[0].data;
  }

  /**
    * Reading the file back gives the image exactly when the caller passed every row of an image that has
    * rows, and its compressed data, whose length its sides determine, is no longer than a chunk may be.
    */
  lemma DecodesExactly(width: Word, height: Word, rgba: seq<Byte>)
    requires width > 0
    ensures Decode(PngBytes(width, height, rgba)) == Some(Image(width, height, rgba)) <==>
      height > 0 && |rgba| == 4 * width * height && ZlibLength(width, height) <= MAX_LENGTH
  {
    hide ReadChunks, ChunkBytes, Zlib, Unzlib, Filtered, Unfiltered, Be32, FromBe32, ZlibLength;
    var png := PngBytes(width, height, rgba);
    if Decode(png) == Some(Image(width, height, rgba)) {
      DecodedIsWhole(png);
      DecodedFits(width, height, rgba);
    }
    if height > 0 && |rgba| == 4 * width * height && ZlibLength(width, height) <= MAX_LENGTH {
      WholeZlibSize(width, height, rgba);
      var z := Zlib(Filtered(4 * width, rgba));
      var (a, b, c) := (Chunk(IHDR, Header(width, height)), Chunk(IDAT, z), Chunk(IEND, []));
      ReadThree(a, b, c);
      assert png[8..] == ChunkBytes(IHDR, a.data) + ChunkBytes(IDAT, z) + ChunkBytes(IEND, []);
      AssembleWritten(width, height, rgba);
    }
  }
}
