// What the conversions promise about a file of one family: address faithfulness and the round trip.

module Uf2Theorems {
  import opened Bytes
  import opened Uf2Format
  import opened Uf2Reader
  import opened Uf2Writer

  // ---- blocks that are not for flashing ----

  predicate Readable(rs: seq<Record>) {
    forall i :: 0 <= i < |rs| ==> !rs[i].BadMagic? && !rs[i].TooLong?
  }

  /** The blocks that are not skipped. */
  function Flashed(rs: seq<Record>): (bs: seq<Block>) {
    if rs == [] then []
    else
      var r := rs[|rs| - 1];
      if r.Data? then Flashed(rs[..|rs| - 1]) + [r.block] else Flashed(rs[..|rs| - 1])
  }

  function PlaceAll(bs: seq<Block>, want: int, appStart: int): Progress {
    if bs == [] then Running(Start(appStart))
    else
      var before := PlaceAll(bs[..|bs| - 1], want, appStart);
      if before.Stopped? then before else Place(before.state, bs[|bs| - 1], want)
  }

  // ---- blocks that make the reader raise ----

  /** The reason for which the reader stops at this record whatever came before. */
  function Objection(r: Record): Option<Failure> {
    match r
    case BadMagic => Some(BadMagicBlock)
    case TooLong => Some(PayloadTooLong)
    case _ => None
  }

  /** The scan comes to a record that it objects to for this reason. */
  predicate Meets(rs: seq<Record>, why: Failure, want: int, appStart: int) {
    exists k :: 0 <= k < |rs| && Objection(rs[k]) == Some(why) && Scan(rs[..k], want, appStart).Running?
  }

  /** It meets no such record after it has stopped, and meets the last one exactly when it has not. */
  lemma {:induction false} MeetsSnoc(rs: seq<Record>, why: Failure, want: int, appStart: int)
    requires rs != []
    ensures var n := |rs| - 1;
            Meets(rs, why, want, appStart)
            <==> Meets(rs[..n], why, want, appStart)
                 || (Objection(rs[n]) == Some(why) && Scan(rs[..n], want, appStart).Running?)
  {
    var n := |rs| - 1;
    if Meets(rs[..n], why, want, appStart) {
      var k :| 0 <= k < n && Objection(rs[..n][k]) == Some(why) && Scan(rs[..n][..k], want, appStart).Running?;
      assert rs[k] == rs[..n][k] && rs[..k] == rs[..n][..k];
    }
    if Meets(rs, why, want, appStart) {
      var k :| 0 <= k < |rs| && Objection(rs[k]) == Some(why) && Scan(rs[..k], want, appStart).Running?;
      if k < n {
        assert rs[k] == rs[..n][k] && rs[..k] == rs[..n][..k];
      }
    }
  }

  /** The reader stops for such a reason exactly when it meets a record that gives it. */
  lemma {:induction false} StopsForIff(rs: seq<Record>, why: Failure, want: int, appStart: int)
    requires why == BadMagicBlock || why == PayloadTooLong
    ensures var p := Scan(rs, want, appStart);
            p.Stopped? && p.why == why <==> Meets(rs, why, want, appStart)
    decreases |rs|
  {
    if rs != [] {
      StopsForIff(rs[..|rs| - 1], why, want, appStart);
      MeetsSnoc(rs, why, want, appStart);
    }
  }

  /** A bad magic number makes the reader raise exactly when the scan of the records before it goes through. */
  lemma BadMagicRaisesIff(rs: seq<Record>, want: int, appStart: int)
    ensures Decode(rs, want, appStart).0 == Raise(BadMagicBlock)
            <==> exists k :: 0 <= k < |rs| && rs[k].BadMagic? && Scan(rs[..k], want, appStart).Running?
  {
    StopsForIff(rs, BadMagicBlock, want, appStart);
    assert forall k :: 0 <= k < |rs| ==> (Objection(rs[k]) == Some(BadMagicBlock) <==> rs[k].BadMagic?);
  }

  lemma {:induction false} PlacingNeverObjects(bs: seq<Block>, want: int, appStart: int)
    ensures var p := PlaceAll(bs, want, appStart);
            p.Stopped? ==> p.why != BadMagicBlock && p.why != PayloadTooLong
    decreases |bs|
  {
    if bs != [] {
      PlacingNeverObjects(bs[..|bs| - 1], want, appStart);
    }
  }

  lemma {:induction false} SkipsUnlessMet(rs: seq<Record>, want: int, appStart: int)
    requires !Meets(rs, BadMagicBlock, want, appStart) && !Meets(rs, PayloadTooLong, want, appStart)
    ensures Scan(rs, want, appStart) == PlaceAll(Flashed(rs), want, appStart)
    decreases |rs|
  {
    if rs != [] {
      var n := |rs| - 1;
      MeetsSnoc(rs, BadMagicBlock, want, appStart);
      MeetsSnoc(rs, PayloadTooLong, want, appStart);
      SkipsUnlessMet(rs[..n], want, appStart);
      var bs := Flashed(rs);
      if rs[n].Data? {
        assert bs[..|bs| - 1] == Flashed(rs[..n]);
      }
    }
  }

  /** The scan is the one that skips bad blocks, as it skips those not for flashing, exactly when it meets none. */
  lemma BadBlocksSkippedIff(rs: seq<Record>, want: int, appStart: int)
    ensures Scan(rs, want, appStart) == PlaceAll(Flashed(rs), want, appStart)
            <==> !Meets(rs, BadMagicBlock, want, appStart) && !Meets(rs, PayloadTooLong, want, appStart)
  {
    StopsForIff(rs, BadMagicBlock, want, appStart);
    StopsForIff(rs, PayloadTooLong, want, appStart);
    PlacingNeverObjects(Flashed(rs), want, appStart);
    if !Meets(rs, BadMagicBlock, want, appStart) && !Meets(rs, PayloadTooLong, want, appStart) {
      SkipsUnlessMet(rs, want, appStart);
    }
  }

  lemma UnreadableStops(rs: seq<Record>, k: nat, want: int, appStart: int)
    requires k < |rs| && (rs[k].BadMagic? || rs[k].TooLong?)
    ensures Scan(rs, want, appStart).Stopped?
  {
    if Scan(rs[..k], want, appStart).Stopped? {
      StopsAt(rs, k, want, appStart);
    } else {
      ScanNext(rs, k, want, appStart);
      StopsAt(rs, k + 1, want, appStart);
    }
  }

  /** The scan goes through exactly when no record is bad and the blocks to flash can be placed; then the skipped
      blocks leave no trace in it. */
  lemma ScanSkips(rs: seq<Record>, want: int, appStart: int)
    ensures Scan(rs, want, appStart).Running? <==> Readable(rs) && PlaceAll(Flashed(rs), want, appStart).Running?
    ensures Scan(rs, want, appStart).Running? ==> Scan(rs, want, appStart) == PlaceAll(Flashed(rs), want, appStart)
  {
    if Readable(rs) {
      BadBlocksSkippedIff(rs, want, appStart);
    } else {
      var k :| 0 <= k < |rs| && (rs[k].BadMagic? || rs[k].TooLong?);
      UnreadableStops(rs, k, want, appStart);
    }
  }

  /** The families seen: those of the flagged blocks. */
  function Families(bs: seq<Block>): set<nat> {
    if bs == [] then {}
    else
      var b := bs[|bs| - 1];
      Families(bs[..|bs| - 1]) + (if b.flagged then {b.family} else {})
  }

  lemma {:induction false} FamiliesFound(bs: seq<Block>, want: int, appStart: int)
    requires PlaceAll(bs, want, appStart).Running?
    ensures PlaceAll(bs, want, appStart).state.families.Keys == Families(bs)
    ensures |PlaceAll(bs, want, appStart).state.families| == |Families(bs)|
    decreases |bs|
  {
    if bs != [] {
      FamiliesFound(bs[..|bs| - 1], want, appStart);
    }
    var m := PlaceAll(bs, want, appStart).state.families;
    assert |m| == |m.Keys|;
  }

  // ---- a file of one family ----

  function End(b: Block): nat {
    b.addr + |b.payload|
  }

  predicate OneFamily(bs: seq<Block>) {
    forall i :: 0 <= i < |bs| ==>
      bs[i].flagged == bs[0].flagged && (bs[i].flagged ==> bs[i].family == bs[0].family)
  }

  /** A whole number of words, and at most 10M. */
  predicate Allowed(gap: int) {
    0 <= gap <= 10485760 && gap % 4 == 0
  }

  /** What lies between each block and the next is allowed. */
  predicate Ordered(bs: seq<Block>) {
    |bs| <= 1 || (var n := |bs| - 1; Ordered(bs[..n]) && Allowed(bs[n].addr - End(bs[n - 1])))
  }

  predicate Contiguous(bs: seq<Block>) {
    |bs| <= 1 || (var n := |bs| - 1; Contiguous(bs[..n]) && bs[n].addr == End(bs[n - 1]))
  }

  lemma {:induction false} ContiguousIsOrdered(bs: seq<Block>)
    requires Contiguous(bs)
    ensures Ordered(bs)
    decreases |bs|
  {
    if |bs| > 1 {
      ContiguousIsOrdered(bs[..|bs| - 1]);
    }
  }

  /** The memory the blocks describe, laid out from the first address. */
  function Layout(bs: seq<Block>): (m: seq<byte>)
    requires bs != [] && Ordered(bs)
    ensures |m| == End(bs[|bs| - 1]) - bs[0].addr
  {
    var n := |bs| - 1;
    if n == 0 then bs[0].payload
    else Layout(bs[..n]) + Zeros(bs[n].addr - End(bs[n - 1])) + bs[n].payload
  }

  /** d is found in m from position p on. */
  predicate Holds(m: seq<byte>, p: int, d: seq<byte>) {
    0 <= p && p + |d| <= |m| && m[p..p + |d|] == d
  }

  lemma HoldsOn(m: seq<byte>, more: seq<byte>, p: int, d: seq<byte>)
    requires Holds(m, p, d)
    ensures Holds(m + more, p, d)
  {
    assert (m + more)[p..p + |d|] == m[p..p + |d|];
  }

  lemma HoldsEnd(m: seq<byte>, d: seq<byte>)
    ensures Holds(m + d, |m|, d)
  {
  }

  /** What the memory of all but the last block holds, the whole memory holds. */
  lemma {:induction false} HoldsInAll(bs: seq<Block>, p: int, d: seq<byte>)
    requires |bs| > 1 && Ordered(bs) && Holds(Layout(bs[..|bs| - 1]), p, d)
    ensures Holds(Layout(bs), p, d)
  {
    var n := |bs| - 1;
    var gap := Zeros(bs[n].addr - End(bs[n - 1]));
    HoldsOn(Layout(bs[..n]), gap, p, d);
    HoldsOn(Layout(bs[..n]) + gap, bs[n].payload, p, d);
  }

  /** Every payload byte lies at its address... */
  lemma {:induction false} PayloadAtItsAddress(bs: seq<Block>, i: nat)
    requires i < |bs| && Ordered(bs)
    ensures Holds(Layout(bs), bs[i].addr - bs[0].addr, bs[i].payload)
    decreases |bs|
  {
    var n := |bs| - 1;
    if n == 0 {
      HoldsEnd([], bs[0].payload);
      assert [] + bs[0].payload == bs[0].payload;
    } else if i < n {
      PayloadAtItsAddress(bs[..n], i);
      HoldsInAll(bs, bs[i].addr - bs[0].addr, bs[i].payload);
    } else {
      HoldsEnd(Layout(bs[..n]) + Zeros(bs[n].addr - End(bs[n - 1])), bs[n].payload);
    }
  }

  /** ... and every byte between two payloads is zero. */
  lemma {:induction false} GapIsZero(bs: seq<Block>, i: nat)
    requires 0 < i < |bs| && Ordered(bs)
    ensures bs[i].addr >= End(bs[i - 1])
    ensures Holds(Layout(bs), End(bs[i - 1]) - bs[0].addr, Zeros(bs[i].addr - End(bs[i - 1])))
    decreases |bs|
  {
    var n := |bs| - 1;
    if i < n {
      GapIsZero(bs[..n], i);
      HoldsInAll(bs, End(bs[i - 1]) - bs[0].addr, Zeros(bs[i].addr - End(bs[i - 1])));
    } else {
      var m, gap := Layout(bs[..n]), Zeros(bs[n].addr - End(bs[n - 1]));
      HoldsEnd(m, gap);
      HoldsOn(m + gap, bs[n].payload, |m|, gap);
    }
  }

  predicate Selected(b: Block, want: int) {
    Wanted(want, b.flagged, b.family)
  }

  predicate OneFamilyState(s: State, bs: seq<Block>)
    requires bs != []
  {
    && s.curAddr == Some(End(bs[|bs| - 1])) && s.curFamily == Some(bs[0].family)
    && s.appStart == bs[0].addr
    && Ordered(bs) && Image(s.out) == Layout(bs)
    && (OnlyChunks(s.out) <==> Contiguous(bs))
  }

  lemma ImageOfChunk(d: seq<byte>)
    ensures Image([Chunk(d)]) == d && OnlyChunks([Chunk(d)])
  {
    assert [Chunk(d)][..0] == [] && Image([]) + d == d;
  }

  lemma FirstBlock(b: Block, want: int, appStart: int)
    requires Selected(b, want)
    ensures var p := Place(Start(appStart), b, want);
            p.Running? && OneFamilyState(p.state, [b])
  {
    assert Place(Start(appStart), b, want).state.out == [Chunk(b.payload)];
    ImageOfChunk(b.payload);
  }

  /** What one more block adds to the image. */
  lemma Grown(out: seq<Piece>, gap: nat, d: seq<byte>)
    ensures var out' := out + ZeroInts(gap) + [Chunk(d)];
            && Image(out') == Image(out) + Zeros(gap) + d
            && (OnlyChunks(out') <==> OnlyChunks(out) && gap == 0)
  {
    ImageConcat(out + ZeroInts(gap), [Chunk(d)]);
    ImageConcat(out, ZeroInts(gap));
    ImageOfZeroInts(gap);
    ImageOfChunk(d);
  }

  lemma NextBlock(s: State, b: Block, want: int)
    requires s.curAddr.Some? && s.curFamily.Some? && Selected(b, want)
    requires b.flagged ==> b.family == s.curFamily.value
    ensures var p := Place(s, b, want);
            var gap := b.addr - s.curAddr.value;
            && (p.Running? <==> Allowed(gap))
            && (p.Running? ==>
                  && p.state.curAddr == Some(End(b)) && p.state.curFamily == s.curFamily
                  && p.state.appStart == s.appStart
                  && Image(p.state.out) == Image(s.out) + Zeros(gap) + b.payload
                  && (OnlyChunks(p.state.out) <==> OnlyChunks(s.out) && gap == 0))
  {
    var gap := b.addr - s.curAddr.value;
    if Allowed(gap) {
      Grown(s.out, gap, b.payload);
    }
  }

  /** The scan of a selected family goes through exactly when its blocks are in order with word-sized
      gaps of at most 10M; then it holds the family's memory. */
  lemma {:induction false} OneFamilyScan(bs: seq<Block>, want: int, appStart: int)
    requires bs != [] && OneFamily(bs) && Selected(bs[0], want)
    ensures var p := PlaceAll(bs, want, appStart);
            && (p.Running? <==> Ordered(bs))
            && (p.Running? ==> OneFamilyState(p.state, bs))
    decreases |bs|
  {
    var before, b := bs[..|bs| - 1], bs[|bs| - 1];
    assert b.flagged == bs[0].flagged;
    if before == [] {
      assert bs == [b];
      FirstBlock(b, want, appStart);
    } else {
      OneFamilyScan(before, want, appStart);
      if Ordered(before) {
        NextBlock(PlaceAll(before, want, appStart).state, b, want);
      }
    }
  }

  lemma {:induction false} OneFamilyIsOne(bs: seq<Block>)
    requires bs != [] && OneFamily(bs)
    ensures Families(bs) <= {bs[0].family} && |Families(bs)| <= 1
    decreases |bs|
  {
    var before, f := bs[..|bs| - 1], bs[0].family;
    if before != [] {
      OneFamilyIsOne(before);
    }
    assert bs[|bs| - 1].flagged ==> bs[|bs| - 1].family == f;
    assert Families(bs) == {} || Families(bs) == {f};
  }

  /** A file whose flashed blocks belong to one selected family: the scan accepts it exactly when no block is bad
      and they are ordered, what it builds is the addressed memory, and line 75 lets the reader return it exactly
      when there are no gaps. */
  lemma AddressFaithful(rs: seq<Record>, want: int, appStart: int)
    requires OneFamily(Flashed(rs)) && Flashed(rs) != [] && Selected(Flashed(rs)[0], want)
    ensures var bs := Flashed(rs);
            var p := Scan(rs, want, appStart);
            && (p.Running? <==> Readable(rs) && Ordered(bs))
            && (p.Running? ==> Image(p.state.out) == Layout(bs) && p.state.appStart == bs[0].addr)
            && (Decode(rs, want, appStart).0.Ok? <==> Readable(rs) && Contiguous(bs))
            && (Readable(rs) && Contiguous(bs) ==>
                  Ordered(bs) && Decode(rs, want, appStart) == (Ok(Layout(bs)), bs[0].addr))
  {
    var bs := Flashed(rs);
    ScanSkips(rs, want, appStart);
    OneFamilyScan(bs, want, appStart);
    if Contiguous(bs) {
      ContiguousIsOrdered(bs);
    }
    if Ordered(bs) {
      FamiliesFound(bs, want, appStart);
      OneFamilyIsOne(bs);
    }
  }

  lemma ContiguousIsReturned(rs: seq<Record>, bs: seq<Block>, want: int, appStart: int)
    requires bs == Flashed(rs) && bs != [] && Readable(rs) && OneFamily(bs) && Selected(bs[0], want) && Contiguous(bs)
    ensures Ordered(bs) && Decode(rs, want, appStart) == (Ok(Layout(bs)), bs[0].addr)
  {
    AddressFaithful(rs, want, appStart);
  }

  // ---- round trip ----

  lemma {:induction false} FlashedData(rs: seq<Record>)
    requires forall i :: 0 <= i < |rs| ==> rs[i].Data?
    ensures |Flashed(rs)| == |rs| && forall i :: 0 <= i < |rs| ==> Flashed(rs)[i] == rs[i].block
    decreases |rs|
  {
    if rs != [] {
      FlashedData(rs[..|rs| - 1]);
    }
  }

  /** The blocks a writer produces describe the content, filled up with zeros. */
  lemma {:induction false} WrittenLayout(bs: seq<Block>, content: seq<byte>, appStart: nat, family: nat)
    requires 0 < |bs| <= NumBlocks(content)
    requires forall i :: 0 <= i < |bs| ==> bs[i] == ReadBack(content, appStart, family, i)
    ensures Contiguous(bs) && Ordered(bs) && Layout(bs) == Padded(content)[..256 * |bs|]
    decreases |bs|
  {
    var n := |bs| - 1;
    if n > 0 {
      WrittenLayout(bs[..n], content, appStart, family);
      assert bs[n] == ReadBack(content, appStart, family, n) && bs[n - 1] == ReadBack(content, appStart, family, n - 1);
      assert Zeros(0) == [];
      assert Padded(content)[..256 * n] + ChunkAt(content, n) == Padded(content)[..256 * n + 256];
    } else {
      assert bs[0] == ReadBack(content, appStart, family, 0);
    }
  }

  lemma {:induction false} WrittenIsOneFamily(bs: seq<Block>, content: seq<byte>, appStart: nat, family: nat)
    requires 0 < |bs| <= NumBlocks(content)
    requires forall i :: 0 <= i < |bs| ==> bs[i] == ReadBack(content, appStart, family, i)
    ensures OneFamily(bs) && bs[0] == ReadBack(content, appStart, family, 0)
  {
    assert bs[0] == ReadBack(content, appStart, family, 0);
  }

  lemma WrittenBlocks(content: seq<byte>, appStart: nat, family: nat)
    ensures var rs := RecordsOf(content, appStart, family);
            && Readable(rs) && |Flashed(rs)| == NumBlocks(content)
            && forall i :: 0 <= i < |Flashed(rs)| ==> Flashed(rs)[i] == ReadBack(content, appStart, family, i)
  {
    FlashedData(RecordsOf(content, appStart, family));
  }

  /** The records a writer leaves behind are those of one family, contiguous, and hold the content. */
  lemma {:induction false} WrittenFacts(content: seq<byte>, appStart: nat, family: nat)
    requires content != []
    ensures var rs := RecordsOf(content, appStart, family);
            var bs := Flashed(rs);
            && Readable(rs) && bs != [] && OneFamily(bs) && bs[0] == ReadBack(content, appStart, family, 0)
            && Contiguous(bs) && Ordered(bs) && Layout(bs) == Padded(content)
  {
    var bs := Flashed(RecordsOf(content, appStart, family));
    WrittenBlocks(content, appStart, family);
    WrittenIsOneFamily(bs, content, appStart, family);
    WrittenLayout(bs, content, appStart, family);
    assert Padded(content)[..256 * NumBlocks(content)] == Padded(content);
  }

  lemma {:induction false} ReadWritten(content: seq<byte>, appStart: nat, family: nat, want: int, readerStart: int)
    requires content != [] && (want == 0 || want == family)
    ensures Decode(RecordsOf(content, appStart, family), want, readerStart) == (Ok(Padded(content)), appStart)
  {
    var rs := RecordsOf(content, appStart, family);
    WrittenFacts(content, appStart, family);
    assert Selected(Flashed(rs)[0], want);
    ContiguousIsReturned(rs, Flashed(rs), want, readerStart);
  }

  /** Writing a content and reading the file for the same family, or for any family, gives the content
      filled up to whole blocks, and its address back. */
  lemma RoundTrip(content: seq<byte>, appStart: int, family: int, want: int, readerStart: int)
    requires Encoded(content, appStart, family).Some? && (want == 0 || want == family)
    ensures var file := Encoded(content, appStart, family).value;
            && |file| == BLOCK_SIZE * NumBlocks(content)
            && Decode(Records(file), want, readerStart)
               == (Ok(Padded(content)), if content == [] then readerStart else appStart)
  {
    EncodedIff(content, appStart, family);
    if content == [] {
      assert Records([]) == [];
    } else {
      WrittenFileReadsBack(content, appStart, family);
      ReadWritten(content, appStart, family, want, readerStart);
    }
  }
}
