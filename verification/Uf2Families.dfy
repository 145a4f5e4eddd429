// A file that interleaves the images of several families.

module Uf2Families {
  import opened Bytes
  import opened Uf2Format
  import opened Uf2Reader
  import opened Uf2Theorems

  /** The blocks of family f, in file order. */
  function OfFamily(bs: seq<Block>, f: int): (r: seq<Block>) {
    if bs == [] then []
    else
      var n := |bs| - 1;
      if bs[n].family == f then OfFamily(bs[..n], f) + [bs[n]] else OfFamily(bs[..n], f)
  }

  /** Every block names its family, and the blocks of each family form one contiguous image: bs is an
      order-preserving interleaving of such images. */
  ghost predicate Interleaving(bs: seq<Block>) {
    && (forall i :: 0 <= i < |bs| ==> bs[i].flagged)
    && forall f: int :: Contiguous(OfFamily(bs, f))
  }

  /** The blocks a reader for want keeps: all of them when it is 0. */
  function Kept(bs: seq<Block>, want: int): seq<Block> {
    if want == 0 then bs else OfFamily(bs, want)
  }

  function Payloads(bs: seq<Block>): seq<byte> {
    if bs == [] then [] else Payloads(bs[..|bs| - 1]) + bs[|bs| - 1].payload
  }

  /** The last block of bs is the first of a run of its family. */
  predicate StartsRun(bs: seq<Block>)
    requires bs != []
  {
    var n := |bs| - 1;
    n == 0 || bs[n - 1].family != bs[n].family
  }

  /** The address at which the last run of a wanted family starts. */
  function LastRunStart(bs: seq<Block>, want: int, appStart: int): int {
    if bs == [] then appStart
    else
      var b := bs[|bs| - 1];
      if StartsRun(bs) && (want == 0 || want == b.family) then b.addr
      else LastRunStart(bs[..|bs| - 1], want, appStart)
  }

  function Runs(bs: seq<Block>, f: int): nat {
    if bs == [] then 0
    else
      Runs(bs[..|bs| - 1], f) + (if StartsRun(bs) && bs[|bs| - 1].family == f then 1 else 0)
  }

  lemma {:induction false} ContiguousPrefix(bs: seq<Block>, b: Block)
    requires Contiguous(bs + [b])
    ensures Contiguous(bs) && (bs != [] ==> b.addr == End(bs[|bs| - 1]))
  {
    assert (bs + [b])[..|bs|] == bs;
  }

  lemma {:induction false} InterleavingPrefix(bs: seq<Block>)
    requires bs != [] && Interleaving(bs)
    ensures Interleaving(bs[..|bs| - 1])
  {
    var n := |bs| - 1;
    forall f: int ensures Contiguous(OfFamily(bs[..n], f)) {
      assert Contiguous(OfFamily(bs, f));
      if bs[n].family == f {
        ContiguousPrefix(OfFamily(bs[..n], f), bs[n]);
      }
    }
  }

  /** Within a run there is no gap. */
  lemma {:induction false} RunIsContiguous(bs: seq<Block>)
    requires bs != [] && Interleaving(bs) && !StartsRun(bs)
    ensures bs[|bs| - 1].addr == End(bs[|bs| - 2])
  {
    var n, f := |bs| - 1, bs[|bs| - 1].family;
    assert Contiguous(OfFamily(bs, f));
    ContiguousPrefix(OfFamily(bs[..n], f), bs[n]);
    assert bs[..n][n - 1] == bs[n - 1];
  }

  lemma PlaceWithoutGap(s: State, b: Block, want: int)
    requires b.flagged
    requires s.curAddr.Some? ==> s.curFamily.Some? && (s.curFamily.value == b.family ==> s.curAddr.value == b.addr)
    requires OnlyChunks(s.out)
    ensures var p := Place(s, b, want);
            && p.Running? && p.state.curAddr == Some(End(b)) && p.state.curFamily == Some(b.family)
            && OnlyChunks(p.state.out)
            && Image(p.state.out) == Image(s.out) + (if Wanted(want, true, b.family) then b.payload else [])
            && p.state.appStart == if Switches(s, true, b.family) && (want == 0 || want == b.family) then b.addr
                                   else s.appStart
  {
    assert ZeroInts(0) == [] && s.out + [] == s.out;
    Grown(s.out, 0, b.payload);
    assert Zeros(0) == [] && Image(s.out) + [] == Image(s.out);
    assert b.addr - b.addr == 0;
  }

  ghost predicate InterleavedState(s: State, bs: seq<Block>, want: int, appStart: int) {
    && (if bs == [] then s.curAddr == None
        else s.curAddr == Some(End(bs[|bs| - 1])) && s.curFamily == Some(bs[|bs| - 1].family))
    && OnlyChunks(s.out) && Image(s.out) == Payloads(Kept(bs, want))
    && s.appStart == LastRunStart(bs, want, appStart)
  }

  lemma PayloadsKept(bs: seq<Block>, want: int)
    requires bs != []
    ensures Payloads(Kept(bs, want))
            == Payloads(Kept(bs[..|bs| - 1], want))
               + (if Wanted(want, true, bs[|bs| - 1].family) then bs[|bs| - 1].payload else [])
  {
    var n := |bs| - 1;
    if want != 0 && bs[n].family == want {
      assert (OfFamily(bs[..n], want) + [bs[n]])[..|OfFamily(bs[..n], want)|] == OfFamily(bs[..n], want);
    }
  }

  lemma {:induction false} InterleavingStep(s: State, bs: seq<Block>, want: int, appStart: int)
    requires bs != [] && Interleaving(bs) && InterleavedState(s, bs[..|bs| - 1], want, appStart)
    ensures var p := Place(s, bs[|bs| - 1], want);
            p.Running? && InterleavedState(p.state, bs, want, appStart)
  {
    if !StartsRun(bs) {
      RunIsContiguous(bs);
    }
    PlaceWithoutGap(s, bs[|bs| - 1], want);
    PayloadsKept(bs, want);
  }

  /** The scan goes through, keeps the wanted payloads in order, and leaves appstartaddr at the start of
      the last wanted run. */
  lemma {:induction false} InterleavingScan(bs: seq<Block>, want: int, appStart: int)
    requires Interleaving(bs)
    ensures var p := PlaceAll(bs, want, appStart);
            p.Running? && InterleavedState(p.state, bs, want, appStart)
    decreases |bs|
  {
    if bs != [] {
      var n := |bs| - 1;
      InterleavingPrefix(bs);
      InterleavingScan(bs[..n], want, appStart);
      InterleavingStep(PlaceAll(bs[..n], want, appStart).state, bs, want, appStart);
    }
  }

  /** The payloads of a contiguous image are its memory, from its first address on. */
  lemma {:induction false} ContiguousLayout(bs: seq<Block>)
    requires bs != [] && Contiguous(bs)
    ensures Ordered(bs) && Layout(bs) == Payloads(bs)
    decreases |bs|
  {
    var n := |bs| - 1;
    if n == 0 {
      assert bs[..0] == [] && [] + bs[0].payload == bs[0].payload;
    } else {
      ContiguousLayout(bs[..n]);
      assert Zeros(0) == [] && Layout(bs[..n]) + [] == Layout(bs[..n]);
    }
  }

  /** Reading an interleaving for family f raises exactly when some block is bad; otherwise it gives exactly the
      image of f, every payload at its address from the first on. */
  lemma FamilyImage(rs: seq<Record>, f: int, appStart: int)
    requires Interleaving(Flashed(rs)) && f != 0
    ensures Decode(rs, f, appStart).0.Ok? <==> Readable(rs)
    ensures var o := OfFamily(Flashed(rs), f);
            && (Readable(rs) ==>
                  Decode(rs, f, appStart) == (Ok(Payloads(o)), LastRunStart(Flashed(rs), f, appStart)))
            && (o != [] ==> Ordered(o) && Payloads(o) == Layout(o))
  {
    ScanSkips(rs, f, appStart);
    InterleavingScan(Flashed(rs), f, appStart);
    var o := OfFamily(Flashed(rs), f);
    if o != [] {
      ContiguousLayout(o);
    }
  }

  // ---- the start address ----

  lemma {:induction false} ContiguousGrows(bs: seq<Block>)
    requires bs != [] && Contiguous(bs)
    ensures bs[0].addr <= bs[|bs| - 1].addr
    decreases |bs|
  {
    if |bs| > 1 {
      ContiguousGrows(bs[..|bs| - 1]);
    }
  }

  lemma {:induction false} RunStarts(bs: seq<Block>, f: int, appStart: int)
    requires Interleaving(bs) && f != 0
    requires forall i :: 0 <= i < |bs| && bs[i].family == f ==> bs[i].payload != []
    ensures var o, start, runs := OfFamily(bs, f), LastRunStart(bs, f, appStart), Runs(bs, f);
            if o == [] then runs == 0
            else runs >= 1 && start <= o[|o| - 1].addr && bs != []
                 && (runs == 1 ==> start == o[0].addr) && (runs > 1 ==> start > o[0].addr)
    ensures OfFamily(bs, f) != [] && bs[|bs| - 1].family == f ==> OfFamily(bs, f)[|OfFamily(bs, f)| - 1] == bs[|bs| - 1]
    ensures forall b :: b in OfFamily(bs, f) ==> b.payload != []
    decreases |bs|
  {
    if bs != [] {
      var n := |bs| - 1;
      InterleavingPrefix(bs);
      RunStarts(bs[..n], f, appStart);
      var o := OfFamily(bs[..n], f);
      assert Contiguous(OfFamily(bs, f));
      if bs[n].family == f && o != [] {
        ContiguousPrefix(o, bs[n]);
        ContiguousGrows(o);
        assert o[|o| - 1] in o;
      }
    }
  }

  /** The start address of family f is restored exactly when its blocks stand in one run. */
  lemma StartRestoredIff(rs: seq<Record>, f: int, appStart: int)
    requires Readable(rs) && Interleaving(Flashed(rs)) && f != 0 && OfFamily(Flashed(rs), f) != []
    requires forall i :: 0 <= i < |Flashed(rs)| && Flashed(rs)[i].family == f ==> Flashed(rs)[i].payload != []
    ensures Decode(rs, f, appStart).1 == OfFamily(Flashed(rs), f)[0].addr <==> Runs(Flashed(rs), f) == 1
  {
    FamilyImage(rs, f, appStart);
    RunStarts(Flashed(rs), f, appStart);
  }

  // ---- reading for any family ----

  lemma {:induction false} FamilyIsSeen(bs: seq<Block>, i: nat)
    requires i < |bs| && bs[i].flagged
    ensures bs[i].family in Families(bs)
    decreases |bs|
  {
    if i < |bs| - 1 {
      FamilyIsSeen(bs[..|bs| - 1], i);
    }
  }

  lemma TwoMembers(s: set<nat>, a: nat, b: nat)
    requires a in s && b in s && a != b
    ensures |s| > 1
  {
    assert b in s - {a} && |s - {a}| == |s| - 1;
  }

  /** With family 0 and two or more families, the reader raises exactly when some block is bad. Otherwise it returns
      nothing and start address 0, unless the file ends with a block that is not for flashing: then it returns all
      images mixed together. */
  lemma MixedFamilies(rs: seq<Record>, i: nat, j: nat, appStart: int)
    requires Interleaving(Flashed(rs))
    requires i < |Flashed(rs)| && j < |Flashed(rs)| && Flashed(rs)[i].family != Flashed(rs)[j].family
    ensures Decode(rs, 0, appStart).0.Ok? <==> Readable(rs)
    ensures Readable(rs) ==>
              Decode(rs, 0, appStart)
              == if rs[|rs| - 1].NotFlash? then (Ok(Payloads(Flashed(rs))), LastRunStart(Flashed(rs), 0, appStart))
                 else (Ok([]), 0)
  {
    var bs := Flashed(rs);
    ScanSkips(rs, 0, appStart);
    InterleavingScan(bs, 0, appStart);
    FamiliesFound(bs, 0, appStart);
    FamilyIsSeen(bs, i);
    FamilyIsSeen(bs, j);
    TwoMembers(Families(bs), bs[i].family, bs[j].family);
  }
}
