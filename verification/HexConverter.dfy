// convert_from_hex_to_uf2 of scripts/uf2conv.py as written, with its pages filled in place.

module HexConverter {
  import opened Bytes
  import opened Uf2Format
  import opened HexPages
  import opened HexText

  /** class Block. */
  class PageBuffer {
    const addr: nat
    const bytes: array<byte>

    constructor (addr: nat)
      ensures this.addr == addr && fresh(bytes) && bytes[..] == Zeros(256)
    {
      this.addr := addr;
      bytes := new byte[256](_ => 0);
      new;
      assert bytes[..] == Zeros(256);
    }

    /** Block.encode, for page no of ps; None when struct.pack raises. */
    method Encode(no: nat, numBlocks: nat, family: int, ghost ps: seq<Page>) returns (r: Option<seq<byte>>)
      requires no < numBlocks == |ps| && Holds(this, ps[no])
      ensures r == PageBlock(ps, family, no)
    {
      var flags := if family != 0 then FAMILY_FLAG else 0;
      var header := Pack([MAGIC_START0, MAGIC_START1, flags, addr, 256, no, numBlocks, family]);
      if header.None? {
        return None;
      }
      var hd := header.value + bytes[0..256];
      ghost var start := hd;
      while |hd| < 512 - 4
        invariant 288 <= |hd| <= 508
        invariant hd == start + Zeros(|hd| - 288)
      {
        hd := hd + [0];
      }
      assert bytes[0..256] == bytes[..];
      r := Some(hd + Packed([MAGIC_END]));
    }
  }

  ghost predicate Holds(b: PageBuffer, p: Page)
    reads b.bytes
  {
    b.addr == p.addr && b.bytes[..] == p.bytes
  }

  lemma PrependIs(a: seq<byte>, b: seq<byte>, rest: Option<seq<byte>>)
    ensures Prepend(a, Prepend(b, rest)) == Prepend(a + b, rest)
    ensures Prepend([], rest) == rest && Prepend(a, Some([])) == Some(a)
  {
    if rest.Some? {
      assert a + (b + rest.value) == a + b + rest.value && [] + rest.value == rest.value;
    }
    assert a + [] == a;
  }

  /** The pages after the bytes of rec from 4 up to i. */
  function PutUpTo(ps: seq<Page>, addr: nat, rec: seq<byte>, i: nat): seq<Page>
    requires 4 <= i <= |rec|
    decreases i
  {
    if i == 4 then ps else Put(PutUpTo(ps, addr, rec, i - 1), Write(addr + i - 5, rec[i - 1]))
  }

  lemma WritesGrow(ws: seq<Write>, addr: nat, rec: seq<byte>, i: nat)
    requires 4 < i <= |rec|
    ensures ws + WritesAt(addr, rec[4..i]) == ws + WritesAt(addr, rec[4..i - 1]) + [Write(addr + i - 5, rec[i - 1])]
  {
    assert rec[4..i][..i - 5] == rec[4..i - 1] && rec[4..i][i - 5] == rec[i - 1];
  }

  lemma {:induction false} PutUpToIs(ws: seq<Write>, addr: nat, rec: seq<byte>, i: nat)
    requires 4 <= i <= |rec|
    ensures PutUpTo(Pages(ws), addr, rec, i) == Pages(ws + WritesAt(addr, rec[4..i]))
    decreases i
  {
    if i == 4 {
      assert ws + [] == ws;
    } else {
      PutUpToIs(ws, addr, rec, i - 1);
      WritesGrow(ws, addr, rec, i);
      PagesSnoc(ws + WritesAt(addr, rec[4..i - 1]), Write(addr + i - 5, rec[i - 1]));
    }
  }

  class HexConverter {
    var appStartAddr: Option<nat>
    const familyId: int
    // the locals of convert_from_hex_to_uf2 that last from line to line; currblock is the last of blocks
    var upper: nat
    var blocks: seq<PageBuffer>
    ghost var pages: seq<Page>
    ghost var repr: set<object>

    /** The buffers are the pages, they are aligned, and they share no memory. */
    ghost predicate Valid()
      reads this, repr
    {
      && |pages| == |blocks| && this !in repr
      && (forall i :: 0 <= i < |blocks| ==>
            blocks[i].bytes in repr && blocks[i].addr % 256 == 0 && Holds(blocks[i], pages[i]))
      && forall i, j :: 0 <= i < j < |blocks| ==> blocks[i].bytes != blocks[j].bytes
    }

    constructor (familyId: int)
      ensures Valid() && this.familyId == familyId && repr == {}
    {
      appStartAddr := Some(0x2000);
      this.familyId := familyId;
      upper, blocks, pages, repr := 0, [], [], {};
    }

    /** Lines 188-191: the byte goes to the current page, or to a new one. */
    method PutByte(addr: nat, value: byte)
      requires Valid()
      modifies `blocks, `pages, `repr, repr
      ensures Valid() && fresh(repr - old(repr)) && pages == Put(old(pages), Write(addr, value))
    {
      if |blocks| == 0 || blocks[|blocks| - 1].addr / 256 * 256 != addr / 256 * 256 {
        var block := new PageBuffer(addr / 256 * 256);
        blocks := blocks + [block];
        repr := repr + {block.bytes};
      }
      blocks[|blocks| - 1].bytes[addr % 256] := value;
      pages := Put(pages, Write(addr, value));
    }

    /** Lines 170-174; None when int raises ValueError. */
    method ParseRecord(line: string) returns (r: Option<seq<byte>>)
      requires line != []
      ensures r == RecordFrom(line, 1)
    {
      var i, rec: seq<byte> := 1, [];
      PrependIs([], [], RecordFrom(line, 1));
      while i < |line| - 1
        invariant 1 <= i <= |line|
        invariant RecordFrom(line, 1) == Prepend(rec, RecordFrom(line, i))
      {
        var b := Pair(line[i], line[i + 1]);
        if b.None? {
          return None;
        }
        PrependIs(rec, [b.value], RecordFrom(line, i + 2));
        rec := rec + [b.value];
        i := i + 2;
      }
      PrependIs(rec, [], Some([]));
      r := Some(rec);
    }

    /** Lines 186-193: the data of a record goes to the pages. */
    method PutData(start: nat, rec: seq<byte>)
      requires Valid() && |rec| >= 4
      modifies `blocks, `pages, `repr, repr
      ensures Valid() && fresh(repr - old(repr))
      ensures pages == PutUpTo(old(pages), start, rec, if |rec| == 4 then 4 else |rec| - 1)
    {
      var addr, i := start, 4;
      while i < |rec| - 1
        invariant 4 <= i <= |rec| && (i == 4 || i <= |rec| - 1) && addr == start + i - 4
        invariant Valid() && fresh(repr - old(repr))
        invariant pages == PutUpTo(old(pages), start, rec, i)
      {
        PutByte(addr, rec[i]);
        addr := addr + 1;
        i := i + 1;
      }
    }

    /** The pages are those of the writes ws, and the rest is as r says. */
    ghost predicate At(r: Reading)
      reads this, repr
    {
      Valid() && upper == r.upper && appStartAddr == r.first && pages == Pages(r.writes)
    }

    /** Lines 183-193: a data record. */
    method ReadData(rec: seq<byte>, ghost r: Reading)
      requires At(r) && |rec| >= 4 && rec[3] == 0
      modifies this, repr
      ensures At(RecordStep(r, rec).r) && fresh(repr - old(repr))
    {
      var addr := upper + Word16(rec[1], rec[2]);
      if appStartAddr == None {
        appStartAddr := Some(addr);
      }
      PutUpToIs(r.writes, addr, rec, if |rec| == 4 then 4 else |rec| - 1);
      PutData(addr, rec);
    }

    /** Lines 175-193: one record, when the reading stands at r. */
    method ReadRecord(rec: seq<byte>, ghost r: Reading) returns (stop: bool, failure: Option<Failure>)
      requires At(r)
      modifies this, repr
      ensures fresh(repr - old(repr))
      ensures var p := RecordStep(r, rec);
              if p.Raised? then failure == Some(p.why) && appStartAddr == p.first
              else failure == None && stop == p.Done? && At(p.r)
    {
      stop, failure := false, None;
      if |rec| < 4 {
        failure := Some(IndexError);
        return;
      }
      var tp := rec[3];
      if tp == 4 {
        if |rec| < 6 {
          failure := Some(IndexError);
          return;
        }
        upper := Word16(rec[4], rec[5]) * 0x1_0000;
      } else if tp == 2 {
        if |rec| < 6 {
          failure := Some(IndexError);
          return;
        }
        upper := Word16(rec[4], rec[5]) * 16;
      } else if tp == 1 {
        stop := true;
      } else if tp == 0 {
        ReadData(rec, r);
      }
    }

    /** Lines 168-193: one line. */
    method ReadLine(line: string, ghost r: Reading) returns (stop: bool, failure: Option<Failure>)
      requires At(r)
      modifies this, repr
      ensures fresh(repr - old(repr))
      ensures var p := LineStep(r, line);
              if p.Raised? then failure == Some(p.why) && appStartAddr == p.first
              else failure == None && stop == p.Done? && At(p.r)
    {
      stop, failure := false, None;
      if |line| == 0 {
        failure := Some(IndexError);
        return;
      }
      if line[0] != ':' {
        return;
      }
      var rec := ParseRecord(line);
      if rec.None? {
        failure := Some(ValueError);
        return;
      }
      stop, failure := ReadRecord(rec.value, r);
    }

    /** Lines 194-198. */
    method EncodeAll() returns (r: Option<seq<byte>>)
      requires Valid()
      ensures r == Concat(PageBlocks(pages, familyId))
    {
      ghost var parts := PageBlocks(pages, familyId);
      var out: seq<byte> := [];
      for i := 0 to |blocks|
        invariant Concat(parts[..i]) == Some(out)
      {
        var block := blocks[i].Encode(i, |blocks|, familyId, pages);
        assert block == parts[i] && parts[..i + 1][..i] == parts[..i];
        if block.None? {
          assert parts[i].None?;
          return None;
        }
        out := out + block.value;
      }
      assert parts[..|blocks|] == parts;
      r := Some(out);
    }

    /** convert_from_hex_to_uf2: the returned bytes, or the exception. */
    method FromHex(text: string) returns (result: HexResult)
      requires OnlyHexCharacters(text)
      modifies this
      ensures (result, appStartAddr) == Converted(text, familyId)
    {
      appStartAddr, upper, blocks, pages, repr := None, 0, [], [], {};
      ghost var r := NOTHING_READ;
      var lines := Lines(text);
      var k := 0;
      while k < |lines|
        invariant 0 <= k <= |lines|
        invariant At(r) && fresh(repr)
        invariant ReadLines(r, lines[k..]) == ReadLines(NOTHING_READ, lines)
      {
        assert lines[k..][1..] == lines[k + 1..];
        var stop, failure := ReadLine(lines[k], r);
        if failure.Some? {
          return Error(failure.value);
        }
        r := LineStep(r, lines[k]).r;
        if stop {
          break;
        }
        k := k + 1;
      }
      var file := EncodeAll();
      result := if file.None? then Error(StructError) else File(file.value);
    }
  }
}
