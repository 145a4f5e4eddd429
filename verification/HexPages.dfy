// Intel HEX to UF2 in scripts/uf2conv.py: how the bytes of a HEX file are gathered into 256-byte pages,
// and what flashing the pages in order leaves in memory.

module HexPages {
  import opened Bytes
  import opened Uf2Format

  datatype Write = Write(addr: nat, value: byte)

  type Bytes256 = b: seq<byte> | |b| == 256 witness Zeros(256)

  /** A Block of the source: the address of a page and its bytes. */
  datatype Page = Page(addr: nat, bytes: Bytes256)

  function PageOf(addr: nat): (p: nat)
    ensures p % 256 == 0 && p <= addr < p + 256
  {
    addr / 256 * 256
  }

  function BlankPage(addr: nat): Page {
    Page(PageOf(addr), Zeros(256))
  }

  function Updated(p: Page, w: Write): Page {
    p.(bytes := p.bytes[w.addr % 256 := w.value])
  }

  /** Lines 188-191: a byte goes to the current page, or to a new one. */
  function Put(ps: seq<Page>, w: Write): (r: seq<Page>)
    ensures r != []
  {
    var n := |ps|;
    if n > 0 && ps[n - 1].addr == PageOf(w.addr) then ps[..n - 1] + [Updated(ps[n - 1], w)]
    else ps + [Updated(BlankPage(w.addr), w)]
  }

  function Pages(ws: seq<Write>): (ps: seq<Page>)
    ensures ps == [] <==> ws == []
    ensures ws != [] ==> ps[|ps| - 1].addr == PageOf(ws[|ws| - 1].addr)
  {
    if ws == [] then [] else Put(Pages(ws[..|ws| - 1]), ws[|ws| - 1])
  }

  lemma PagesSnoc(ws: seq<Write>, w: Write)
    ensures Pages(ws + [w]) == Put(Pages(ws), w)
  {
    assert (ws + [w])[..|ws|] == ws;
  }

  // ---- what flashing leaves ----

  /** The byte at address a after flashing the pages in order; None where no page was flashed. */
  function Flashed(ps: seq<Page>, a: nat): Option<byte> {
    if ps == [] then None
    else if ps[|ps| - 1].addr == PageOf(a) then Some(ps[|ps| - 1].bytes[a % 256])
    else Flashed(ps[..|ps| - 1], a)
  }

  function LastWritten(ws: seq<Write>, a: nat): Option<byte> {
    if ws == [] then None
    else if ws[|ws| - 1].addr == a then Some(ws[|ws| - 1].value)
    else LastWritten(ws[..|ws| - 1], a)
  }

  /** Some byte was written to a's page. */
  predicate Touched(ws: seq<Write>, a: nat) {
    ws != [] && (PageOf(ws[|ws| - 1].addr) == PageOf(a) || Touched(ws[..|ws| - 1], a))
  }

  /** The byte last written to a since the file last moved to the page of the final write. */
  function WrittenInThisVisit(ws: seq<Write>, a: nat): Option<byte> {
    if ws == [] || PageOf(ws[|ws| - 1].addr) != PageOf(a) then None
    else if ws[|ws| - 1].addr == a then Some(ws[|ws| - 1].value)
    else WrittenInThisVisit(ws[..|ws| - 1], a)
  }

  /** The byte last written to a during the last visit to a's page. */
  function WrittenInLastVisit(ws: seq<Write>, a: nat): Option<byte> {
    if ws == [] then None
    else if PageOf(ws[|ws| - 1].addr) == PageOf(a) then WrittenInThisVisit(ws, a)
    else WrittenInLastVisit(ws[..|ws| - 1], a)
  }

  function OrZero(v: Option<byte>): byte {
    if v.Some? then v.value else 0
  }

  lemma SameByte(a: nat, b: nat)
    requires PageOf(a) == PageOf(b)
    ensures a % 256 == b % 256 <==> a == b
  {
  }

  lemma {:induction false} CurrentPage(ws: seq<Write>, a: nat)
    requires ws != [] && PageOf(ws[|ws| - 1].addr) == PageOf(a)
    ensures Pages(ws)[|Pages(ws)| - 1].bytes[a % 256] == OrZero(WrittenInThisVisit(ws, a))
    decreases |ws|
  {
    var before, w := ws[..|ws| - 1], ws[|ws| - 1];
    SameByte(w.addr, a);
    if before != [] && PageOf(before[|before| - 1].addr) == PageOf(a) {
      CurrentPage(before, a);
    }
  }

  lemma PutElsewhere(ps: seq<Page>, w: Write, a: nat)
    requires PageOf(w.addr) != PageOf(a)
    ensures Flashed(Put(ps, w), a) == Flashed(ps, a)
  {
    var r := Put(ps, w);
    if ps != [] && ps[|ps| - 1].addr == PageOf(w.addr) {
      assert r[..|r| - 1] == ps[..|ps| - 1];
    } else {
      assert r[..|r| - 1] == ps;
    }
  }

  /** What flashing leaves at any address: the last byte written during the last visit to its page. */
  lemma {:induction false} FlashedIs(ws: seq<Write>, a: nat)
    ensures Flashed(Pages(ws), a) == if Touched(ws, a) then Some(OrZero(WrittenInLastVisit(ws, a))) else None
    decreases |ws|
  {
    if ws != [] {
      var before, w := ws[..|ws| - 1], ws[|ws| - 1];
      if PageOf(w.addr) == PageOf(a) {
        CurrentPage(ws, a);
      } else {
        PutElsewhere(Pages(before), w, a);
        FlashedIs(before, a);
      }
    }
  }

  // ---- files that never return to a page ----

  /** The write that ends ws is on the page of the one before it. */
  predicate Stays(ws: seq<Write>)
    requires ws != []
  {
    |ws| > 1 && PageOf(ws[|ws| - 2].addr) == PageOf(ws[|ws| - 1].addr)
  }

  /** Whenever the file moves to another page, it is one that was not touched before. */
  predicate NeverReturns(ws: seq<Write>) {
    ws == [] || (NeverReturns(ws[..|ws| - 1]) && (Stays(ws) || !Touched(ws[..|ws| - 1], ws[|ws| - 1].addr)))
  }

  lemma {:induction false} UntouchedUnwritten(ws: seq<Write>, a: nat)
    requires !Touched(ws, a)
    ensures LastWritten(ws, a) == None
    decreases |ws|
  {
    if ws != [] {
      UntouchedUnwritten(ws[..|ws| - 1], a);
    }
  }

  lemma {:induction false} TouchedByPage(ws: seq<Write>, a: nat, b: nat)
    requires PageOf(a) == PageOf(b)
    ensures Touched(ws, a) <==> Touched(ws, b)
    decreases |ws|
  {
    if ws != [] {
      TouchedByPage(ws[..|ws| - 1], a, b);
    }
  }

  lemma {:induction false} OneVisit(ws: seq<Write>, a: nat)
    requires NeverReturns(ws)
    ensures WrittenInLastVisit(ws, a) == LastWritten(ws, a)
    ensures ws != [] && PageOf(ws[|ws| - 1].addr) == PageOf(a) ==> WrittenInThisVisit(ws, a) == LastWritten(ws, a)
    decreases |ws|
  {
    if ws != [] {
      var before := ws[..|ws| - 1];
      OneVisit(before, a);
      assert before != [] ==> before[|before| - 1] == ws[|ws| - 2];
      if PageOf(ws[|ws| - 1].addr) == PageOf(a) && !Stays(ws) {
        TouchedByPage(before, a, ws[|ws| - 1].addr);
        UntouchedUnwritten(before, a);
        assert WrittenInThisVisit(before, a) == None;
      }
    }
  }

  /** A file that never returns to a page it left is flashed faithfully: the last byte written at every
      written address, and zero elsewhere in the touched pages. */
  lemma FlashedFaithfully(ws: seq<Write>, a: nat)
    requires NeverReturns(ws)
    ensures Flashed(Pages(ws), a) == if Touched(ws, a) then Some(OrZero(LastWritten(ws, a))) else None
  {
    FlashedIs(ws, a);
    OneVisit(ws, a);
  }

  predicate Distinct(ps: seq<Page>) {
    forall i, j :: 0 <= i < j < |ps| ==> ps[i].addr != ps[j].addr
  }

  predicate HasPage(ps: seq<Page>, p: nat) {
    exists i :: 0 <= i < |ps| && ps[i].addr == p
  }

  lemma HasPageSnoc(ps: seq<Page>, q: Page, p: nat)
    ensures HasPage(ps + [q], p) <==> HasPage(ps, p) || q.addr == p
  {
    var r := ps + [q];
    if HasPage(ps, p) {
      var i :| 0 <= i < |ps| && ps[i].addr == p;
      assert r[i].addr == p;
    }
    if q.addr == p {
      assert r[|ps|].addr == p;
    }
  }

  lemma {:induction false} TouchedPages(ws: seq<Write>, a: nat)
    ensures Touched(ws, a) <==> HasPage(Pages(ws), PageOf(a))
    decreases |ws|
  {
    if ws != [] {
      var before, w := ws[..|ws| - 1], ws[|ws| - 1];
      TouchedPages(before, a);
      var ps, qs := Pages(ws), Pages(before);
      HasPageSnoc(ps[..|ps| - 1], ps[|ps| - 1], PageOf(a));
      assert ps[..|ps| - 1] + [ps[|ps| - 1]] == ps;
      if Stays(ws) {
        HasPageSnoc(qs[..|qs| - 1], qs[|qs| - 1], PageOf(a));
        assert qs[..|qs| - 1] + [qs[|qs| - 1]] == qs && qs[..|qs| - 1] == ps[..|ps| - 1];
      } else {
        assert ps[..|ps| - 1] == qs;
      }
    }
  }

  lemma DistinctSnoc(ps: seq<Page>, q: Page)
    ensures Distinct(ps + [q]) <==> Distinct(ps) && !HasPage(ps, q.addr)
  {
    var r := ps + [q];
    assert forall i :: 0 <= i < |ps| ==> r[i] == ps[i];
    if HasPage(ps, q.addr) {
      var i :| 0 <= i < |ps| && ps[i].addr == q.addr;
      assert r[i].addr == r[|ps|].addr;
    }
    if Distinct(r) {
      forall i, j | 0 <= i < j < |ps| ensures ps[i].addr != ps[j].addr {
        assert r[i].addr != r[j].addr;
      }
    }
  }

  lemma DistinctByAddress(ps: seq<Page>, qs: seq<Page>)
    requires |ps| == |qs| && forall i :: 0 <= i < |ps| ==> ps[i].addr == qs[i].addr
    ensures Distinct(ps) <==> Distinct(qs)
  {
  }

  /** The emitted pages are pairwise different exactly when the file never returns to a page it left. */
  lemma {:induction false} DistinctIff(ws: seq<Write>)
    ensures Distinct(Pages(ws)) <==> NeverReturns(ws)
    decreases |ws|
  {
    if ws != [] {
      var before, w := ws[..|ws| - 1], ws[|ws| - 1];
      var ps, qs := Pages(ws), Pages(before);
      DistinctIff(before);
      if Stays(ws) {
        DistinctByAddress(ps, qs);
      } else {
        DistinctSnoc(qs, ps[|ps| - 1]);
        TouchedPages(before, w.addr);
        assert PageOf(PageOf(w.addr)) == PageOf(w.addr);
      }
    }
  }

  /** Returning to a page loses what was written there before: here the byte at address 0. */
  lemma ReturningLosesBytes()
    ensures var ws := [Write(0, 1), Write(256, 2), Write(1, 3)];
            Flashed(Pages(ws), 0) == Some(0) && LastWritten(ws, 0) == Some(1) && !NeverReturns(ws)
  {
    var ws := [Write(0, 1), Write(256, 2), Write(1, 3)];
    assert ws[..2] == [Write(0, 1), Write(256, 2)] && ws[..2][..1] == [Write(0, 1)];
    assert LastWritten([Write(0, 1)], 0) == Some(1);
    FlashedIs(ws, 0);
    assert PageOf(0) == 0 && PageOf(1) == 0 && PageOf(256) == 256;
    assert WrittenInThisVisit(ws[..2], 0) == None;
    assert Touched(ws[..2][..1], 1);
  }
}
