// The UF2 block format as scripts/uf2conv.py reads and writes it: little-endian words, the 32-byte header,
// and what a 512-byte block says to the reader.

module Uf2Format {
  import opened Bytes

  const MAGIC_START0 := 0x0A324655
  const MAGIC_START1 := 0x9E5D5157
  const MAGIC_END := 0x0AB16F30
  const UINT32 := 0x1_0000_0000
  const FAMILY_FLAG := 0x2000
  const BLOCK_SIZE := 512
  const MAX_PAYLOAD := 476

  // ---- struct.pack and struct.unpack ----

  function LowByte(x: nat): byte {
    x % 0x100
  }

  function Le32(x: nat): (s: seq<byte>)
    requires x < UINT32
    ensures |s| == 4
  {
    [LowByte(x), LowByte(x / 0x100), LowByte(x / 0x1_0000), LowByte(x / 0x100_0000)]
  }

  /** The little-endian word at position p. */
  function Word(s: seq<byte>, p: nat): (x: nat)
    requires p + 4 <= |s|
    ensures x < UINT32
  {
    s[p] as int + 0x100 * s[p + 1] as int + 0x1_0000 * s[p + 2] as int + 0x100_0000 * s[p + 3] as int
  }

  lemma WordOfLe32(x: nat)
    requires x < UINT32
    ensures Word(Le32(x), 0) == x
  {
    assert x == x % 0x100 + 0x100 * (x / 0x100);
    assert x / 0x100 == x / 0x100 % 0x100 + 0x100 * (x / 0x1_0000);
    assert x / 0x1_0000 == x / 0x1_0000 % 0x100 + 0x100 * (x / 0x100_0000);
  }

  predicate Packable(ws: seq<int>) {
    forall k :: 0 <= k < |ws| ==> 0 <= ws[k] < UINT32
  }

  function Packed(ws: seq<int>): (s: seq<byte>)
    requires Packable(ws)
    ensures |s| == 4 * |ws|
    ensures forall k :: 0 <= k < |ws| ==> Word(s, 4 * k) == ws[k]
  {
    if ws == [] then []
    else
      var n := |ws| - 1;
      var front := Packed(ws[..n]);
      WordOfLe32(ws[n]);
      assert forall k :: 0 <= k < n ==> Word(front + Le32(ws[n]), 4 * k) == Word(front, 4 * k);
      front + Le32(ws[n])
  }

  /** struct.pack of unsigned 32-bit words: None when it raises struct.error. */
  function Pack(ws: seq<int>): (r: Option<seq<byte>>)
    ensures r.Some? <==> Packable(ws)
    ensures r.Some? ==> |r.value| == 4 * |ws| && forall k :: 0 <= k < |ws| ==> Word(r.value, 4 * k) == ws[k]
  {
    if Packable(ws) then Some(Packed(ws)) else None
  }

  // ---- what a block says ----

  /** A block to flash; the family id means something only when flagged. */
  datatype Block = Block(flagged: bool, addr: nat, family: nat, payload: seq<byte>)

  datatype Record = BadMagic | NotFlash | TooLong | Data(block: Block)

  /** The checks in the order the reader makes them. */
  function Parse(b: seq<byte>): (r: Record)
    requires |b| == BLOCK_SIZE
    ensures r.Data? ==> |r.block.payload| <= MAX_PAYLOAD && r.block.addr < UINT32 && r.block.family < UINT32
  {
    var flags, len := Word(b, 8), Word(b, 16);
    if Word(b, 0) != MAGIC_START0 || Word(b, 4) != MAGIC_START1 then BadMagic
    else if flags % 2 == 1 then NotFlash
    else if len > MAX_PAYLOAD then TooLong
    else Data(Block(flags / FAMILY_FLAG % 2 == 1, Word(b, 12), Word(b, 28), b[32..32 + len]))
  }

  function BlockAt(buf: seq<byte>, i: nat): (b: seq<byte>)
    requires BLOCK_SIZE * i + BLOCK_SIZE <= |buf|
    ensures |b| == BLOCK_SIZE
  {
    buf[BLOCK_SIZE * i..BLOCK_SIZE * i + BLOCK_SIZE]
  }

  /** A file is a sequence of whole blocks; a shorter rest is ignored. */
  function Records(buf: seq<byte>): (rs: seq<Record>)
    ensures |rs| == |buf| / BLOCK_SIZE
  {
    seq(|buf| / BLOCK_SIZE, i requires 0 <= i < |buf| / BLOCK_SIZE => Parse(BlockAt(buf, i)))
  }

  // ---- writing a block ----

  function Zeros(n: nat): (z: seq<byte>)
    ensures |z| == n
  {
    seq(n, _ => 0)
  }

  /** The flags a writer sets: the family word is meant only when it is not zero. */
  function Flags(family: int): nat {
    if family != 0 then FAMILY_FLAG else 0
  }

  function HeaderWords(addr: int, no: nat, num: nat, family: int): (ws: seq<int>)
    ensures |ws| == 8
  {
    [MAGIC_START0, MAGIC_START1, Flags(family), addr, 256, no, num, family]
  }

  /** A finished block: header, 256 bytes of payload, zeros, and the final magic. */
  function Assemble(header: seq<byte>, payload: seq<byte>): (b: seq<byte>)
    requires |header| == 32 && |payload| == 256
    ensures |b| == BLOCK_SIZE
  {
    header + payload + Zeros(220) + Packed([MAGIC_END])
  }

  lemma HeaderWord(ws: seq<int>, payload: seq<byte>, k: nat)
    requires Packable(ws) && |ws| == 8 && k < 8 && |payload| == 256
    ensures Word(Assemble(Packed(ws), payload), 4 * k) == ws[k]
  {
    var h := Packed(ws);
    var b := Assemble(h, payload);
    assert Word(h, 4 * k) == ws[k];
    assert b[4 * k..4 * k + 4] == h[4 * k..4 * k + 4];
    SameWord(b, h, 4 * k);
  }

  /** Reading back a written block gives the address, the family and the payload it was written with. */
  lemma ParseBlock(addr: int, no: nat, num: nat, family: int, payload: seq<byte>)
    requires |payload| == 256 && Packable(HeaderWords(addr, no, num, family))
    ensures addr >= 0 && family >= 0
    ensures Parse(Assemble(Packed(HeaderWords(addr, no, num, family)), payload))
            == Data(Block(family != 0, addr, family, payload))
  {
    var ws := HeaderWords(addr, no, num, family);
    assert addr == ws[3] && family == ws[7];
    var b := Assemble(Packed(ws), payload);
    HeaderWord(ws, payload, 0);
    HeaderWord(ws, payload, 1);
    HeaderWord(ws, payload, 2);
    HeaderWord(ws, payload, 3);
    HeaderWord(ws, payload, 4);
    HeaderWord(ws, payload, 7);
    assert b[32..288] == payload;
  }

  lemma SameWord(a: seq<byte>, b: seq<byte>, p: nat)
    requires p + 4 <= |a| && p + 4 <= |b| && a[p..p + 4] == b[p..p + 4]
    ensures Word(a, p) == Word(b, p)
  {
    var u, v := a[p..p + 4], b[p..p + 4];
    assert u[0] == v[0] && u[1] == v[1] && u[2] == v[2] && u[3] == v[3];
  }

  // ---- files of written blocks ----

  /** The blocks one after the other; None when one of them could not be written. */
  function Concat(parts: seq<Option<seq<byte>>>): (r: Option<seq<byte>>)
    ensures r.Some? <==> forall i :: 0 <= i < |parts| ==> parts[i].Some?
  {
    if parts == [] then Some([])
    else
      var n := |parts| - 1;
      var front := Concat(parts[..n]);
      if front.None? then
        assert exists i :: 0 <= i < n && parts[..n][i] == parts[i] && parts[i].None?;
        None
      else
        assert forall i :: 0 <= i < n ==> parts[i] == parts[..n][i];
        if parts[n].None? then None else Some(front.value + parts[n].value)
  }

  lemma RecordsSnoc(front: seq<byte>, block: seq<byte>)
    requires |front| % BLOCK_SIZE == 0 && |block| == BLOCK_SIZE
    ensures Records(front + block) == Records(front) + [Parse(block)]
  {
    var n := |front| / BLOCK_SIZE;
    forall i | 0 <= i < n ensures BlockAt(front + block, i) == BlockAt(front, i) {
    }
    assert BlockAt(front + block, n) == block;
  }

  /** A file of blocks is read back block by block. */
  lemma {:induction false} FileReadsBack(parts: seq<Option<seq<byte>>>, rs: seq<Record>)
    requires |rs| == |parts|
    requires forall i :: 0 <= i < |parts| ==>
               parts[i].Some? && |parts[i].value| == BLOCK_SIZE && Parse(parts[i].value) == rs[i]
    ensures Concat(parts).Some? && |Concat(parts).value| == BLOCK_SIZE * |parts| && Records(Concat(parts).value) == rs
    decreases |parts|
  {
    if parts != [] {
      var n := |parts| - 1;
      FileReadsBack(parts[..n], rs[..n]);
      RecordsSnoc(Concat(parts[..n]).value, parts[n].value);
      assert rs[..n] + [rs[n]] == rs;
    }
  }
}
