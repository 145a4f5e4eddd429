// The bytes of UF2 blocks by their offsets: what the reader of scripts/uf2conv.py takes from 512 bytes, and where its
// two writers put what.

module Uf2Layout {
  import opened Bytes
  import opened Uf2Format
  import opened Uf2Writer
  import opened HexPages
  import opened HexText

  /** The four bytes at p are x, lowest byte first. */
  predicate Little(s: seq<byte>, p: nat, x: int) {
    && p + 4 <= |s|
    && x == s[p] as int + 0x100 * s[p + 1] as int + 0x1_0000 * s[p + 2] as int + 0x100_0000 * s[p + 3] as int
  }

  /** Both start words: "UF2", a line feed, and the second magic number. */
  const MAGIC_BYTES: seq<byte> := [0x55, 0x46, 0x32, 0x0A, 0x57, 0x51, 0x5D, 0x9E]

  // ---- reading ----

  lemma MagicIff(b: seq<byte>)
    requires |b| == 512
    ensures Parse(b).BadMagic? <==> b[..8] != MAGIC_BYTES
  {
    var m := b[..8];
    assert forall k :: 0 <= k < 8 ==> m[k] == b[k];
    assert m == MAGIC_BYTES
           <==> (m[0] == 0x55 && m[1] == 0x46 && m[2] == 0x32 && m[3] == 0x0A)
                && (m[4] == 0x57 && m[5] == 0x51 && m[6] == 0x5D && m[7] == 0x9E);
  }

  lemma FlagBits(b: seq<byte>)
    requires |b| == 512
    ensures Word(b, 8) % 2 == b[8] % 2 && Word(b, 8) / 0x2000 % 2 == b[9] / 0x20 % 2
  {
    var rest := 0x8 * b[10] as int + 0x800 * b[11] as int;
    assert Word(b, 8) == b[8] as int + 0x100 * b[9] as int + 0x2000 * rest;
    assert Word(b, 8) / 0x2000 == b[9] / 0x20 + rest;
  }

  /** What the reader takes from the bytes of a block: it is bad exactly when the magic numbers are wrong, otherwise
      skipped exactly when bit 0 of the flags is set, otherwise refused exactly when its length is above 476, and
      otherwise that many bytes from offset 32 on are data for the address at 12; the family at 28 is meant when bit 13
      of the flags is set. */
  lemma ParseIs(b: seq<byte>, len: nat, addr: nat, family: nat)
    requires |b| == 512 && Little(b, 16, len) && Little(b, 12, addr) && Little(b, 28, family)
    ensures Parse(b).BadMagic? <==> b[..8] != MAGIC_BYTES
    ensures Parse(b).NotFlash? <==> b[..8] == MAGIC_BYTES && b[8] % 2 == 1
    ensures Parse(b).TooLong? <==> b[..8] == MAGIC_BYTES && b[8] % 2 == 0 && len > 476
    ensures b[..8] == MAGIC_BYTES && b[8] % 2 == 0 && len <= 476 ==>
              Parse(b) == Data(Block(b[9] / 0x20 % 2 == 1, addr, family, b[32..32 + len]))
  {
    MagicIff(b);
    FlagBits(b);
  }

  // ---- writing ----

  /** The 512 bytes at p are the block that is number no of num. */
  predicate IsBlock(s: seq<byte>, p: nat, addr: int, no: nat, num: nat, family: int, payload: seq<byte>) {
    && p + 512 <= |s| && s[p..p + 8] == MAGIC_BYTES
    && Little(s, p + 8, if family != 0 then 0x2000 else 0)
    && Little(s, p + 12, addr) && Little(s, p + 16, 256)
    && Little(s, p + 20, no) && Little(s, p + 24, num) && Little(s, p + 28, family)
    && s[p + 32..p + 288] == payload
    && (forall k :: p + 288 <= k < p + 508 ==> s[k] == 0)
    && s[p + 508..p + 512] == [0x30, 0x6F, 0xB1, 0x0A]
  }

  lemma MagicBytes(b: seq<byte>)
    requires |b| >= 8 && Word(b, 0) == MAGIC_START0 && Word(b, 4) == MAGIC_START1
    ensures b[..8] == MAGIC_BYTES
  {
    assert b[0] == 0x55 && b[1] == 0x46 && b[2] == 0x32 && b[3] == 0x0A;
    assert b[4] == 0x57 && b[5] == 0x51 && b[6] == 0x5D && b[7] == 0x9E;
  }

  lemma EndBytes()
    ensures Packed([MAGIC_END]) == [0x30, 0x6F, 0xB1, 0x0A]
  {
    var e := Packed([MAGIC_END]);
    assert Word(e, 4 * 0) == MAGIC_END;
    assert e[0] == 0x30 && e[1] == 0x6F && e[2] == 0xB1 && e[3] == 0x0A;
  }

  lemma Assembled(addr: int, no: nat, num: nat, family: int, payload: seq<byte>)
    requires |payload| == 256 && Packable(HeaderWords(addr, no, num, family))
    ensures IsBlock(Assemble(Packed(HeaderWords(addr, no, num, family)), payload), 0, addr, no, num, family, payload)
  {
    var ws := HeaderWords(addr, no, num, family);
    var b := Assemble(Packed(ws), payload);
    forall k | 0 <= k < 8 ensures Little(b, 4 * k, ws[k]) {
      HeaderWord(ws, payload, k);
    }
    assert Little(b, 4 * 0, ws[0]) && Little(b, 4 * 1, ws[1]) && Little(b, 4 * 2, ws[2]) && Little(b, 4 * 3, ws[3]);
    assert Little(b, 4 * 4, ws[4]) && Little(b, 4 * 5, ws[5]) && Little(b, 4 * 6, ws[6]) && Little(b, 4 * 7, ws[7]);
    MagicBytes(b);
    EndBytes();
    assert b[508..512] == Packed([MAGIC_END]);
  }

  lemma Shifted(s: seq<byte>, p: nat, b: seq<byte>, addr: int, no: nat, num: nat, family: int, payload: seq<byte>)
    requires p + 512 <= |s| && |b| == 512 && s[p..p + 512] == b
    requires IsBlock(b, 0, addr, no, num, family, payload)
    ensures IsBlock(s, p, addr, no, num, family, payload)
  {
    assert forall k :: 0 <= k < 512 ==> s[p + k] == b[k];
    assert s[p..p + 8] == b[..8];
    assert s[p + 32..p + 288] == b[32..288];
    assert s[p + 508..p + 512] == b[508..512];
    forall k | p + 288 <= k < p + 508 ensures s[k] == 0 {
      assert s[p + (k - p)] == b[k - p];
    }
  }

  /** Block i of a file of blocks stands at 512 * i. */
  lemma {:induction false} ConcatAt(parts: seq<Option<seq<byte>>>, i: nat)
    requires forall j :: 0 <= j < |parts| ==> parts[j].Some? && |parts[j].value| == 512
    ensures Concat(parts).Some? && |Concat(parts).value| == 512 * |parts|
    ensures i < |parts| ==> Concat(parts).value[512 * i..512 * i + 512] == parts[i].value
    decreases |parts|
  {
    if parts != [] {
      var n := |parts| - 1;
      ConcatAt(parts[..n], i);
      var front := Concat(parts[..n]).value;
      if i < n {
        assert (front + parts[n].value)[512 * i..512 * i + 512] == front[512 * i..512 * i + 512];
      }
    }
  }

  /** These are the 256 bytes of content from this position on, with zeros behind its end. */
  predicate IsChunk(payload: seq<byte>, content: seq<byte>, from: nat) {
    && |payload| == 256
    && forall k :: 0 <= k < 256 ==> payload[k] == if from + k < |content| then content[from + k] else 0
  }

  lemma ChunkIs(content: seq<byte>, i: nat)
    requires i < NumBlocks(content)
    ensures IsChunk(ChunkAt(content, i), content, 256 * i)
  {
    forall k | 0 <= k < 256
      ensures ChunkAt(content, i)[k] == if 256 * i + k < |content| then content[256 * i + k] else 0
    {
      assert ChunkAt(content, i)[k] == Padded(content)[256 * i + k];
    }
  }

  lemma PayloadOf(s: seq<byte>, p: nat, addr: int, no: nat, num: nat, family: int, payload: seq<byte>)
    requires IsBlock(s, p, addr, no, num, family, payload)
    ensures p + 512 <= |s| && s[p + 32..p + 288] == payload
  {
  }

  lemma ChunkWritten(content: seq<byte>, appStart: int, family: int, i: nat)
    requires Encoded(content, appStart, family).Some? && i < NumBlocks(content)
    ensures var file := Encoded(content, appStart, family).value;
            && |file| == 512 * NumBlocks(content)
            && IsBlock(file, 512 * i, appStart + 256 * i, i, NumBlocks(content), family, ChunkAt(content, i))
  {
    var parts, n, chunk := BlocksOf(content, appStart, family), NumBlocks(content), ChunkAt(content, i);
    ConcatAt(parts, i);
    var file := Encoded(content, appStart, family).value;
    assert parts[i] == BlockOf(content, appStart, family, i);
    Assembled(256 * i + appStart, i, n, family, chunk);
    Shifted(file, 512 * i, parts[i].value, 256 * i + appStart, i, n, family, chunk);
  }

  /** Every block of a written file, by the offsets of its bytes: its address, its number, the count of the blocks, the
      family, 256 bytes of the content or zeros behind its end, 220 zeros, and the magic numbers. */
  lemma WrittenBlock(content: seq<byte>, appStart: int, family: int, i: nat)
    requires Encoded(content, appStart, family).Some? && 256 * i < |content|
    ensures var file := Encoded(content, appStart, family).value;
            var n := |file| / 512;
            && |file| == 512 * n && 256 * n - 256 < |content| <= 256 * n && 512 * i + 512 <= |file|
            && IsBlock(file, 512 * i, appStart + 256 * i, i, n, family, file[512 * i + 32..512 * i + 288])
            && IsChunk(file[512 * i + 32..512 * i + 288], content, 256 * i)
  {
    ChunkWritten(content, appStart, family, i);
    var file := Encoded(content, appStart, family).value;
    PayloadOf(file, 512 * i, appStart + 256 * i, i, NumBlocks(content), family, ChunkAt(content, i));
    ChunkIs(content, i);
  }

  /** The same of a converted HEX file: block i holds page i. */
  lemma ConvertedBlock(text: string, family: int, i: nat)
    requires Converted(text, family).0.File? && 512 * i < |Converted(text, family).0.bytes|
    ensures ReadLines(NOTHING_READ, Lines(text)).Done?
    ensures var ps := Pages(ReadLines(NOTHING_READ, Lines(text)).r.writes);
            var file := Converted(text, family).0.bytes;
            && |file| == 512 * |ps| && i < |ps|
            && IsBlock(file, 512 * i, ps[i].addr, i, |ps|, family, ps[i].bytes)
  {
    var ps := Pages(ReadLines(NOTHING_READ, Lines(text)).r.writes);
    var parts := PageBlocks(ps, family);
    ConcatAt(parts, i);
    assert parts[i] == PageBlock(ps, family, i);
    Assembled(ps[i].addr, i, |ps|, family, ps[i].bytes);
    Shifted(Converted(text, family).0.bytes, 512 * i, parts[i].value, ps[i].addr, i, |ps|, family, ps[i].bytes);
  }
}
