// What convert_from_uf2 of scripts/uf2conv.py does with any file at all, whatever its families, flags and gaps.

module Uf2Selection {
  import opened Bytes
  import opened Uf2Format
  import opened Uf2Reader
  import opened Uf2Theorems

  // ---- what a file asks for, block by block ----

  /** The family of the run that the last block of bs belongs to: a run goes on until a flagged block of another
      family, and has the family word of its first block, flagged or not. */
  function RunFamily(bs: seq<Block>): nat
    requires bs != []
  {
    var n := |bs| - 1;
    if n == 0 || (bs[n].flagged && bs[n].family != RunFamily(bs[..n])) then bs[n].family else RunFamily(bs[..n])
  }

  /** The last block of bs starts a run. */
  predicate BeginsRun(bs: seq<Block>)
    requires bs != []
  {
    var n := |bs| - 1;
    n == 0 || (bs[n].flagged && bs[n].family != RunFamily(bs[..n]))
  }

  /** What lies between the last block of bs and the block before it in its run. */
  function Gap(bs: seq<Block>): int
    requires bs != []
  {
    var n := |bs| - 1;
    if BeginsRun(bs) then 0 else bs[n].addr - (bs[n - 1].addr + |bs[n - 1].payload|)
  }

  predicate GapsAllowed(bs: seq<Block>) {
    bs == [] || (GapsAllowed(bs[..|bs| - 1]) && Allowed(Gap(bs)))
  }

  predicate NoGaps(bs: seq<Block>) {
    bs == [] || (NoGaps(bs[..|bs| - 1]) && Gap(bs) == 0)
  }

  /** The payloads a reader for want keeps: all of them for family 0, otherwise those of flagged blocks of the
      family. */
  function WantedBytes(bs: seq<Block>, want: int): seq<byte> {
    if bs == [] then []
    else
      var b := bs[|bs| - 1];
      if want == 0 || (b.flagged && b.family == want) then WantedBytes(bs[..|bs| - 1], want) + b.payload
      else WantedBytes(bs[..|bs| - 1], want)
  }

  /** Where the last run starts whose first block has the wanted family word. */
  function StartOf(bs: seq<Block>, want: int, appStart: int): int {
    if bs == [] then appStart
    else
      var b := bs[|bs| - 1];
      if BeginsRun(bs) && (want == 0 || b.family == want) then b.addr else StartOf(bs[..|bs| - 1], want, appStart)
  }

  // ---- the reader does it ----

  /** The state after bs, when there is no objection to their gaps. */
  predicate Describes(s: State, bs: seq<Block>, want: int, appStart: int) {
    && (bs == [] ==> s.curAddr == None && s.curFamily == None)
    && (bs != [] ==> s.curAddr == Some(End(bs[|bs| - 1])) && s.curFamily == Some(RunFamily(bs)))
    && s.appStart == StartOf(bs, want, appStart)
    && (OnlyChunks(s.out) <==> NoGaps(bs))
    && (NoGaps(bs) ==> Image(s.out) == WantedBytes(bs, want))
  }

  /** What a block adds to the output, kept or not. */
  lemma OutputGrows(out: seq<Piece>, gap: nat, d: seq<byte>, kept: bool)
    ensures var out' := out + ZeroInts(gap) + (if kept then [Chunk(d)] else []);
            && (OnlyChunks(out') <==> OnlyChunks(out) && gap == 0)
            && (gap == 0 ==> Image(out') == Image(out) + (if kept then d else []))
  {
    Grown(out, gap, d);
    ImageConcat(out, ZeroInts(gap));
    ImageOfZeroInts(gap);
    assert out + ZeroInts(gap) + [] == out + ZeroInts(gap);
    if gap == 0 {
      assert Zeros(0) == [] && Image(out) + [] == Image(out);
    }
  }

  lemma {:induction false} SwitchesIff(s: State, bs: seq<Block>, want: int, appStart: int)
    requires bs != [] && Describes(s, bs[..|bs| - 1], want, appStart)
    ensures Switches(s, bs[|bs| - 1].flagged, bs[|bs| - 1].family) <==> BeginsRun(bs)
    ensures !BeginsRun(bs) ==> s.curAddr.Some? && bs[|bs| - 1].addr - s.curAddr.value == Gap(bs)
  {
    var n := |bs| - 1;
    assert n > 0 ==> bs[..n][n - 1] == bs[n - 1];
  }

  /** t is s after block b, which does or does not begin a run, and follows a gap in its run. */
  predicate Follows(s: State, t: State, b: Block, want: int, begins: bool, gap: int) {
    && t.curAddr == Some(End(b))
    && t.curFamily == (if begins then Some(b.family) else s.curFamily)
    && t.appStart == (if begins && (want == 0 || b.family == want) then b.addr else s.appStart)
    && (OnlyChunks(t.out) <==> OnlyChunks(s.out) && gap == 0)
    && (gap == 0 ==> Image(t.out) == Image(s.out) + (if Wanted(want, b.flagged, b.family) then b.payload else []))
  }

  lemma PlaceIs(s: State, b: Block, want: int, begins: bool, gap: int)
    requires begins <==> Switches(s, b.flagged, b.family)
    requires if begins then gap == 0
             else s.curFamily.Some? && s.curAddr.Some? && gap == b.addr - s.curAddr.value
    ensures Place(s, b, want).Running? <==> Allowed(gap)
    ensures Allowed(gap) ==> Follows(s, Place(s, b, want).state, b, want, begins, gap)
  {
    if Allowed(gap) {
      OutputGrows(s.out, gap, b.payload, Wanted(want, b.flagged, b.family));
    }
  }

  lemma {:induction false} FollowsDescribes(s: State, t: State, bs: seq<Block>, want: int, appStart: int)
    requires bs != [] && Describes(s, bs[..|bs| - 1], want, appStart)
    requires Follows(s, t, bs[|bs| - 1], want, BeginsRun(bs), Gap(bs))
    ensures Describes(t, bs, want, appStart)
  {
    var front, b := bs[..|bs| - 1], bs[|bs| - 1];
    assert RunFamily(bs) == if BeginsRun(bs) then b.family else RunFamily(front);
    assert NoGaps(bs) <==> NoGaps(front) && Gap(bs) == 0;
    assert WantedBytes(bs, want)
           == WantedBytes(front, want) + (if Wanted(want, b.flagged, b.family) then b.payload else []);
  }

  lemma {:induction false} PlaceDescribes(s: State, bs: seq<Block>, want: int, appStart: int)
    requires bs != [] && Describes(s, bs[..|bs| - 1], want, appStart)
    ensures var p := Place(s, bs[|bs| - 1], want);
            && (p.Running? <==> Allowed(Gap(bs)))
            && (p.Running? ==> Describes(p.state, bs, want, appStart))
  {
    SwitchesIff(s, bs, want, appStart);
    PlaceIs(s, bs[|bs| - 1], want, BeginsRun(bs), Gap(bs));
    if Allowed(Gap(bs)) {
      FollowsDescribes(s, Place(s, bs[|bs| - 1], want).state, bs, want, appStart);
    }
  }

  lemma {:induction false} PlaceAllIs(bs: seq<Block>, want: int, appStart: int)
    ensures PlaceAll(bs, want, appStart).Running? <==> GapsAllowed(bs)
    ensures GapsAllowed(bs) ==> Describes(PlaceAll(bs, want, appStart).state, bs, want, appStart)
    decreases |bs|
  {
    if bs != [] {
      PlaceAllIs(bs[..|bs| - 1], want, appStart);
      if GapsAllowed(bs[..|bs| - 1]) {
        PlaceDescribes(PlaceAll(bs[..|bs| - 1], want, appStart).state, bs, want, appStart);
      }
    }
  }

  /** Reading for any family, the file names several, and its last block is not skipped. */
  predicate Refused(rs: seq<Record>, want: int) {
    want == 0 && |Families(Flashed(rs))| > 1 && rs != [] && rs[|rs| - 1].Data?
  }

  /** For every file: the reader returns exactly when no block is bad, every gap within a run is a whole number of
      words and at most 10M, and there is no gap at all unless the output is thrown away. It then gives the payloads of
      the wanted blocks in file order and the start of the last wanted run, or nothing and 0. */
  lemma DecodeIs(rs: seq<Record>, want: int, appStart: int)
    ensures var bs := Flashed(rs);
            && (Decode(rs, want, appStart).0.Ok?
                <==> Readable(rs) && GapsAllowed(bs) && (NoGaps(bs) || Refused(rs, want)))
            && (Decode(rs, want, appStart).0.Ok? ==>
                  Decode(rs, want, appStart)
                  == if Refused(rs, want) then (Ok([]), 0)
                     else (Ok(WantedBytes(bs, want)), StartOf(bs, want, appStart)))
  {
    var bs := Flashed(rs);
    ScanSkips(rs, want, appStart);
    PlaceAllIs(bs, want, appStart);
    if GapsAllowed(bs) {
      FamiliesFound(bs, want, appStart);
    }
  }
}
