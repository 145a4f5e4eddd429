// scripts/uf2conv.py as written: the two conversions over the globals appstartaddr and familyid.

module Uf2Converter {
  import opened Bytes
  import opened Uf2Format
  import opened Uf2Reader
  import opened Uf2Writer

  class Converter {
    var appStartAddr: int
    var familyId: int

    constructor ()
      ensures appStartAddr == 0x2000 && familyId == 0
    {
      appStartAddr, familyId := 0x2000, 0;
    }

    /** Lines 121-123: the 220 zeros behind a payload. */
    method DataPadding() returns (padding: seq<byte>)
      ensures padding == Zeros(220)
    {
      padding := [];
      while |padding| < 512 - 256 - 32 - 4
        invariant |padding| <= 220 && |padding| % 4 == 0
        invariant padding == Zeros(|padding|)
      {
        padding := padding + [0, 0, 0, 0];
      }
    }

    /** Lines 128 and 135-136: the bytes of one block, filled up with zeros. */
    method FillChunk(content: seq<byte>, no: nat) returns (chunk: seq<byte>)
      requires no < NumBlocks(content)
      ensures chunk == ChunkAt(content, no)
    {
      var ptr := 256 * no;
      chunk := content[ptr..Min(ptr + 256, |content|)];
      while |chunk| < 256
        invariant |chunk| <= 256
        invariant chunk == Padded(content)[ptr..ptr + |chunk|]
      {
        chunk := chunk + [0];
      }
    }

    /** Lines 127-138: one block. */
    method WriteBlock(content: seq<byte>, no: nat, numBlocks: nat) returns (r: Option<seq<byte>>)
      requires no < numBlocks == NumBlocks(content)
      ensures r == BlockOf(content, appStartAddr, familyId, no)
    {
      var flags := if familyId != 0 then FAMILY_FLAG else 0;
      var header := Pack([MAGIC_START0, MAGIC_START1, flags, 256 * no + appStartAddr, 256, no, numBlocks, familyId]);
      if header.None? {
        return None;
      }
      var chunk := FillChunk(content, no);
      var dataPadding := DataPadding();
      r := Some(header.value + chunk + dataPadding + Packed([MAGIC_END]));
    }

    /** convert_to_uf2; None when struct.pack raises. */
    method ToUf2(content: seq<byte>) returns (r: Option<seq<byte>>)
      ensures r == Encoded(content, appStartAddr, familyId)
    {
      var numBlocks := (|content| + 255) / 256;
      var out: seq<byte> := [];
      ghost var parts := BlocksOf(content, appStartAddr, familyId);
      for no := 0 to numBlocks
        invariant Concat(parts[..no]) == Some(out)
      {
        var block := WriteBlock(content, no, numBlocks);
        assert block == parts[no] && parts[..no + 1][..no] == parts[..no];
        if block.None? {
          return None;
        }
        out := out + block.value;
      }
      assert parts[..numBlocks] == parts;
      r := Some(out);
    }

    /** Lines 73-75: four integers, not four bytes, for every word of padding. */
    method AddPadding(out: seq<Piece>, amount: nat) returns (r: seq<Piece>)
      requires amount % 4 == 0
      ensures r == out + ZeroInts(amount)
    {
      var padding := amount;
      r := out;
      while padding > 0
        invariant 0 <= padding <= amount && padding % 4 == 0
        invariant r == out + ZeroInts(amount - padding)
      {
        padding := padding - 4;
        r := r + [ZeroInt, ZeroInt, ZeroInt, ZeroInt];
      }
    }

    /** Lines 79-84. */
    method NoteFamily(families: map<nat, nat>, family: nat, addr: nat) returns (r: map<nat, nat>)
      ensures r == Lowest(families, family, addr)
    {
      r := families;
      if family in r {
        if r[family] > addr {
          r := r[family := addr];
        }
      } else {
        r := r[family := addr];
      }
      assert family in families && families[family] <= addr ==> families[family := families[family]] == families;
    }

    /** Lines 48-84: one block; the exception, if it raises. */
    method ReadBlock(block: seq<byte>, s: State) returns (t: State, failure: Option<Failure>)
      requires |block| == BLOCK_SIZE && s.appStart == appStartAddr
      modifies this
      ensures familyId == old(familyId)
      ensures var p := Step(s, Parse(block), familyId);
              if p.Running? then failure == None && t == p.state && appStartAddr == t.appStart
              else failure == Some(p.why) && appStartAddr == p.appStart
    {
      var flags, newAddr, dataLen, family := Word(block, 8), Word(block, 12), Word(block, 16), Word(block, 28);
      var flagged := flags / FAMILY_FLAG % 2 == 1;
      t := s;
      if Word(block, 0) != MAGIC_START0 || Word(block, 4) != MAGIC_START1 {
        return t, Some(BadMagicBlock);
      }
      if flags % 2 == 1 {
        return t, None;
      }
      if dataLen > 476 {
        return t, Some(PayloadTooLong);
      }
      var currFamily, currAddr := s.curFamily, s.curAddr;
      if flagged && currFamily.None? {
        currFamily := Some(family);
      }
      if currAddr.None? || (flagged && currFamily != Some(family)) {
        currFamily := Some(family);
        currAddr := Some(newAddr);
        if familyId == 0 || familyId == family {
          appStartAddr := newAddr;
        }
      }
      var padding := newAddr - currAddr.value;
      if padding < 0 {
        return t, Some(OutOfOrder);
      }
      if padding > 10 * 1024 * 1024 {
        return t, Some(TooMuchPadding);
      }
      if padding % 4 != 0 {
        return t, Some(Unaligned);
      }
      var out := AddPadding(s.out, padding);
      if familyId == 0 || (flagged && familyId == family) {
        out := out + [Chunk(block[32..32 + dataLen])];
      }
      var families := s.families;
      if flagged {
        families := NoteFamily(families, family, newAddr);
      }
      t := State(Some(newAddr + dataLen), currFamily, families, out, appStartAddr);
      return t, None;
    }

    /** convert_from_uf2: the returned bytes, or the exception. */
    method FromUf2(buf: seq<byte>) returns (r: Result<seq<byte>>)
      modifies this
      ensures (r, appStartAddr) == Decode(Records(buf), familyId, old(appStartAddr))
      ensures familyId == old(familyId)
    {
      var numBlocks := |buf| / 512;
      var s := State(None, None, map[], [], appStartAddr);
      ghost var rs := Records(buf);
      assert rs[..0] == [] && rs[..numBlocks] == rs;
      for no := 0 to numBlocks
        invariant familyId == old(familyId)
        invariant no < numBlocks ==> Scan(rs[..no], familyId, old(appStartAddr)) == Running(s)
        invariant no < numBlocks ==> appStartAddr == s.appStart
        invariant no == numBlocks ==> (Join(s.out), appStartAddr) == Decode(rs, familyId, old(appStartAddr))
      {
        ScanNext(rs, no, familyId, old(appStartAddr));
        var block := buf[512 * no..512 * no + 512];
        assert rs[no] == Parse(block);
        var t, failure := ReadBlock(block, s);
        s := t;
        if failure.Some? {
          StopsAt(rs, no + 1, familyId, old(appStartAddr));
          return Raise(failure.value);
        }
        if Word(block, 8) % 2 == 1 {
          continue;
        }
        if no == numBlocks - 1 && |s.families| > 1 && familyId == 0 {
          s := s.(out := []);
          appStartAddr := 0;
        }
      }
      r := Join(s.out);
    }
  }
}
