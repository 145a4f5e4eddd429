// convert_to_uf2 of scripts/uf2conv.py: what a content becomes.

module Uf2Writer {
  import opened Bytes
  import opened Uf2Format

  function NumBlocks(content: seq<byte>): (n: nat)
    ensures 256 * n >= |content| > 256 * n - 256
  {
    (|content| + 255) / 256
  }

  /** The content filled up with zeros to whole 256-byte chunks. */
  function Padded(content: seq<byte>): (p: seq<byte>)
    ensures |p| == 256 * NumBlocks(content)
  {
    content + Zeros(256 * NumBlocks(content) - |content|)
  }

  function ChunkAt(content: seq<byte>, i: nat): (c: seq<byte>)
    requires i < NumBlocks(content)
    ensures |c| == 256
  {
    Padded(content)[256 * i..256 * i + 256]
  }

  /** Block i of the file; None when a header word does not fit. */
  function BlockOf(content: seq<byte>, appStart: int, family: int, i: nat): (r: Option<seq<byte>>)
    requires i < NumBlocks(content)
    ensures r.Some? ==> |r.value| == BLOCK_SIZE
  {
    var header := Pack(HeaderWords(256 * i + appStart, i, NumBlocks(content), family));
    if header.None? then None else Some(Assemble(header.value, ChunkAt(content, i)))
  }

  function BlocksOf(content: seq<byte>, appStart: int, family: int): (parts: seq<Option<seq<byte>>>)
    ensures |parts| == NumBlocks(content)
  {
    seq(NumBlocks(content), i requires 0 <= i < NumBlocks(content) => BlockOf(content, appStart, family, i))
  }

  /** The file, or None when struct.pack raises. */
  function Encoded(content: seq<byte>, appStart: int, family: int): Option<seq<byte>> {
    Concat(BlocksOf(content, appStart, family))
  }

  /** What reading block i back gives. */
  function ReadBack(content: seq<byte>, appStart: nat, family: nat, i: nat): Block
    requires i < NumBlocks(content)
  {
    Block(family != 0, appStart + 256 * i, family, ChunkAt(content, i))
  }

  /** The addresses and the family id of a file of n blocks fit 32 bits. */
  predicate Fits(appStart: int, family: int, n: nat) {
    n > 0 ==> 0 <= appStart && appStart + 256 * (n - 1) < UINT32 && 0 <= family < UINT32
  }

  lemma BlockIff(content: seq<byte>, appStart: int, family: int, i: nat)
    requires i < NumBlocks(content)
    ensures BlockOf(content, appStart, family, i).Some?
            <==> 0 <= 256 * i + appStart < UINT32 && NumBlocks(content) < UINT32 && 0 <= family < UINT32
  {
    var ws := HeaderWords(256 * i + appStart, i, NumBlocks(content), family);
    assert Packable(ws) <==> 0 <= ws[3] < UINT32 && 0 <= ws[6] < UINT32 && 0 <= ws[7] < UINT32;
  }

  /** The writer succeeds exactly when every address and the family id fit 32 bits. */
  lemma EncodedIff(content: seq<byte>, appStart: int, family: int)
    ensures Encoded(content, appStart, family).Some? <==> Fits(appStart, family, NumBlocks(content))
  {
    var n := NumBlocks(content);
    var parts := BlocksOf(content, appStart, family);
    if n > 0 {
      BlockIff(content, appStart, family, 0);
      BlockIff(content, appStart, family, n - 1);
      assert Encoded(content, appStart, family).Some? ==> parts[0].Some? && parts[n - 1].Some?;
    }
    if Fits(appStart, family, n) {
      forall i | 0 <= i < n ensures parts[i].Some? {
        BlockIff(content, appStart, family, i);
      }
    }
  }

  // ---- reading a written file ----

  lemma BlockReadsBack(content: seq<byte>, appStart: nat, family: nat, i: nat)
    requires i < NumBlocks(content) && BlockOf(content, appStart, family, i).Some?
    ensures Parse(BlockOf(content, appStart, family, i).value) == Data(ReadBack(content, appStart, family, i))
  {
    ParseBlock(256 * i + appStart, i, NumBlocks(content), family, ChunkAt(content, i));
  }

  function RecordsOf(content: seq<byte>, appStart: nat, family: nat): (rs: seq<Record>)
    ensures |rs| == NumBlocks(content)
  {
    seq(NumBlocks(content), i requires 0 <= i < NumBlocks(content) => Data(ReadBack(content, appStart, family, i)))
  }

  /** A written file has 512 bytes a block, and its blocks read back as they were written. */
  lemma WrittenFileReadsBack(content: seq<byte>, appStart: nat, family: nat)
    requires Encoded(content, appStart, family).Some?
    ensures var file := Encoded(content, appStart, family).value;
            |file| == BLOCK_SIZE * NumBlocks(content) && Records(file) == RecordsOf(content, appStart, family)
  {
    var parts, rs := BlocksOf(content, appStart, family), RecordsOf(content, appStart, family);
    forall i | 0 <= i < |parts|
      ensures parts[i].Some? && |parts[i].value| == BLOCK_SIZE && Parse(parts[i].value) == rs[i]
    {
      BlockReadsBack(content, appStart, family, i);
    }
    FileReadsBack(parts, rs);
  }
}
