// Reading Intel HEX text in scripts/uf2conv.py: records, addresses and the writes they ask for.

module HexText {
  import opened Bytes
  import opened Uf2Format
  import opened HexPages

  datatype Failure = IndexError | ValueError | StructError

  /** The locals of the reader that last from line to line, and the global appstartaddr. */
  datatype Reading = Reading(upper: nat, first: Option<nat>, writes: seq<Write>)

  datatype Progress = Next(r: Reading) | Done(r: Reading) | Raised(why: Failure, first: Option<nat>)

  // ---- lines and records ----

  /** The characters the caller lets through (is_hex). */
  predicate OnlyHexCharacters(text: string) {
    forall c :: c in text ==> Digit(c).Some? || c in ":\r\n"
  }

  function Digit(c: char): (d: Option<nat>)
    ensures d.Some? ==> d.value < 16
  {
    if '0' <= c <= '9' then Some(c as nat - '0' as nat)
    else if 'a' <= c <= 'f' then Some(c as nat - 'a' as nat + 10)
    else if 'A' <= c <= 'F' then Some(c as nat - 'A' as nat + 10)
    else None
  }

  /** str.split('\n'). */
  function Lines(text: string): (ls: seq<string>)
    ensures ls != []
  {
    if text == [] then [[]]
    else
      var rest := Lines(text[1..]);
      if text[0] == '\n' then [[]] + rest else [[text[0]] + rest[0]] + rest[1..]
  }

  /** int(ab, 16): a carriage return is white space to it; None is ValueError. */
  function Pair(a: char, b: char): Option<byte> {
    match (Digit(a), Digit(b))
    case (Some(x), Some(y)) => Some(16 * x + y)
    case (Some(x), None) => if b == '\r' then Some(x) else None
    case (None, Some(y)) => if a == '\r' then Some(y) else None
    case _ => None
  }

  function Prepend(front: seq<byte>, rest: Option<seq<byte>>): Option<seq<byte>> {
    if rest.None? then None else Some(front + rest.value)
  }

  /** Lines 170-174 from position i on: a last single character is left over. */
  function RecordFrom(line: string, i: nat): (r: Option<seq<byte>>)
    decreases |line| - i
  {
    if i + 1 >= |line| then Some([])
    else
      var b := Pair(line[i], line[i + 1]);
      if b.None? then None else Prepend([b.value], RecordFrom(line, i + 2))
  }

  /** The data of a record: what stands between the type and the checksum. */
  function DataOf(rec: seq<byte>): seq<byte>
    requires |rec| >= 4
  {
    if |rec| == 4 then [] else rec[4..|rec| - 1]
  }

  function WritesAt(addr: nat, data: seq<byte>): (ws: seq<Write>)
    ensures |ws| == |data|
  {
    if data == [] then []
    else WritesAt(addr, data[..|data| - 1]) + [Write(addr + |data| - 1, data[|data| - 1])]
  }

  function Word16(hi: byte, lo: byte): nat {
    0x100 * hi as nat + lo as nat
  }

  /** Lines 175-193: what a record does. */
  function RecordStep(r: Reading, rec: seq<byte>): Progress {
    if |rec| < 4 then Raised(IndexError, r.first)
    else if rec[3] == 4 || rec[3] == 2 then
      if |rec| < 6 then Raised(IndexError, r.first)
      else Next(r.(upper := Word16(rec[4], rec[5]) * (if rec[3] == 4 then 0x1_0000 else 16)))
    else if rec[3] == 1 then Done(r)
    else if rec[3] == 0 then
      var addr := r.upper + Word16(rec[1], rec[2]);
      Next(Reading(r.upper, if r.first.None? then Some(addr) else r.first, r.writes + WritesAt(addr, DataOf(rec))))
    else Next(r)
  }

  /** One turn of the loop over the lines. */
  function LineStep(r: Reading, line: string): Progress {
    if line == [] then Raised(IndexError, r.first)
    else if line[0] != ':' then Next(r)
    else
      match RecordFrom(line, 1)
      case None => Raised(ValueError, r.first)
      case Some(rec) => RecordStep(r, rec)
  }

  function ReadLines(r: Reading, lines: seq<string>): (p: Progress)
    ensures !p.Next?
    decreases |lines|
  {
    if lines == [] then Done(r)
    else
      var p := LineStep(r, lines[0]);
      if p.Next? then ReadLines(p.r, lines[1..]) else p
  }

  const NOTHING_READ := Reading(0, None, [])

  // ---- writing the pages ----

  function PageBlock(ps: seq<Page>, family: int, i: nat): (r: Option<seq<byte>>)
    requires i < |ps|
    ensures r.Some? ==> |r.value| == BLOCK_SIZE
  {
    var header := Pack(HeaderWords(ps[i].addr, i, |ps|, family));
    if header.None? then None else Some(Assemble(header.value, ps[i].bytes))
  }

  function PageBlocks(ps: seq<Page>, family: int): (parts: seq<Option<seq<byte>>>)
    ensures |parts| == |ps|
  {
    seq(|ps|, i requires 0 <= i < |ps| => PageBlock(ps, family, i))
  }

  datatype HexResult = File(bytes: seq<byte>) | Error(why: Failure)

  /** The value or the exception of convert_from_hex_to_uf2, and the global appstartaddr afterwards. */
  function Converted(text: string, family: int): (HexResult, Option<nat>) {
    match ReadLines(NOTHING_READ, Lines(text))
    case Raised(why, first) => (Error(why), first)
    case Done(r) =>
      var file := Concat(PageBlocks(Pages(r.writes), family));
      (if file.None? then Error(StructError) else File(file.value), r.first)
  }

  function ReadBackPage(p: Page, family: int): Record {
    Data(Block(family != 0, p.addr, if family < 0 then 0 else family, p.bytes))
  }

  function PageRecords(ps: seq<Page>, family: int): (rs: seq<Record>)
    ensures |rs| == |ps|
  {
    seq(|ps|, i requires 0 <= i < |ps| => ReadBackPage(ps[i], family))
  }

  lemma PageReadsBack(ps: seq<Page>, family: int, i: nat)
    requires i < |ps| && PageBlock(ps, family, i).Some?
    ensures Parse(PageBlock(ps, family, i).value) == ReadBackPage(ps[i], family)
  {
    ParseBlock(ps[i].addr, i, |ps|, family, ps[i].bytes);
  }

  lemma PagesReadBack(ps: seq<Page>, family: int)
    requires Concat(PageBlocks(ps, family)).Some?
    ensures Records(Concat(PageBlocks(ps, family)).value) == PageRecords(ps, family)
  {
    var parts, rs := PageBlocks(ps, family), PageRecords(ps, family);
    forall i | 0 <= i < |parts|
      ensures parts[i].Some? && |parts[i].value| == BLOCK_SIZE && Parse(parts[i].value) == rs[i]
    {
      PageReadsBack(ps, family, i);
    }
    FileReadsBack(parts, rs);
  }

  lemma {:induction false} PageIsAligned(ws: seq<Write>, i: nat)
    requires i < |Pages(ws)|
    ensures Pages(ws)[i].addr % 256 == 0
    decreases |ws|
  {
    var before := ws[..|ws| - 1];
    if i < |Pages(ws)| - 1 {
      assert Pages(ws)[i] == Pages(before)[i];
      PageIsAligned(before, i);
    }
  }

  /** A converted file consists of the pages of the writes, in order, at 256-aligned addresses. */
  lemma ConvertedFile(text: string, family: int)
    requires Converted(text, family).0.File?
    ensures ReadLines(NOTHING_READ, Lines(text)).Done?
    ensures var ps := Pages(ReadLines(NOTHING_READ, Lines(text)).r.writes);
            && Records(Converted(text, family).0.bytes) == PageRecords(ps, family)
            && forall i :: 0 <= i < |ps| ==> ps[i].addr % 256 == 0
  {
    var ws := ReadLines(NOTHING_READ, Lines(text)).r.writes;
    var ps := Pages(ws);
    PagesReadBack(ps, family);
    forall i | 0 <= i < |ps| ensures ps[i].addr % 256 == 0 {
      PageIsAligned(ws, i);
    }
  }

  lemma PageBlockIff(ps: seq<Page>, family: int, i: nat)
    requires i < |ps|
    ensures PageBlock(ps, family, i).Some? <==> ps[i].addr < UINT32 && |ps| < UINT32 && 0 <= family < UINT32
  {
    var ws := HeaderWords(ps[i].addr, i, |ps|, family);
    assert Packable(ws) <==> 0 <= ws[3] < UINT32 && 0 <= ws[5] < UINT32 && 0 <= ws[6] < UINT32 && 0 <= ws[7] < UINT32;
  }

  predicate PagesFit(ps: seq<Page>, family: int) {
    ps == [] || (|ps| < UINT32 && 0 <= family < UINT32 && forall i :: 0 <= i < |ps| ==> ps[i].addr < UINT32)
  }

  /** The conversion of a file that reads well fails exactly when a header word does not fit. */
  lemma ConvertedIff(text: string, family: int)
    requires ReadLines(NOTHING_READ, Lines(text)).Done?
    ensures Converted(text, family).0.File?
            <==> PagesFit(Pages(ReadLines(NOTHING_READ, Lines(text)).r.writes), family)
  {
    var ps := Pages(ReadLines(NOTHING_READ, Lines(text)).r.writes);
    var parts := PageBlocks(ps, family);
    if PagesFit(ps, family) {
      forall i | 0 <= i < |ps| ensures parts[i].Some? {
        PageBlockIff(ps, family, i);
      }
    } else {
      var i :| 0 <= i < |ps| && (ps[i].addr >= UINT32 || |ps| >= UINT32 || !(0 <= family < UINT32));
      PageBlockIff(ps, family, i);
      assert parts[i].None?;
    }
  }

  // ---- flashing a converted file ----

  /** The byte at address a after flashing the 256-byte blocks rs in order; None where none was flashed. */
  function FlashedFrom(rs: seq<Record>, a: nat): Option<byte> {
    if rs == [] then None
    else
      var r := rs[|rs| - 1];
      if r.Data? && r.block.addr == PageOf(a) && |r.block.payload| == 256 then Some(r.block.payload[a % 256])
      else FlashedFrom(rs[..|rs| - 1], a)
  }

  lemma {:induction false} PagesFlash(ps: seq<Page>, family: int, a: nat)
    ensures FlashedFrom(PageRecords(ps, family), a) == Flashed(ps, a)
    decreases |ps|
  {
    if ps != [] {
      var n := |ps| - 1;
      assert PageRecords(ps, family)[n] == ReadBackPage(ps[n], family);
      assert PageRecords(ps, family)[..n] == PageRecords(ps[..n], family);
      PagesFlash(ps[..n], family, a);
    }
  }

  /** What flashing the blocks of a converted file leaves, for every text: at each address of a touched page the byte
      last written during the last visit to that page, or zero. */
  lemma ConvertedFlashes(text: string, family: int, a: nat)
    requires Converted(text, family).0.File?
    ensures ReadLines(NOTHING_READ, Lines(text)).Done?
    ensures var ws := ReadLines(NOTHING_READ, Lines(text)).r.writes;
            FlashedFrom(Records(Converted(text, family).0.bytes), a)
            == if Touched(ws, a) then Some(OrZero(WrittenInLastVisit(ws, a))) else None
  {
    ConvertedFile(text, family);
    var ws := ReadLines(NOTHING_READ, Lines(text)).r.writes;
    PagesFlash(Pages(ws), family, a);
    FlashedIs(ws, a);
  }

  /** When the text never returns to a page it left, that is the last byte written. */
  lemma HexFileFlashes(text: string, family: int, a: nat)
    requires Converted(text, family).0.File? && ReadLines(NOTHING_READ, Lines(text)).Done?
    requires NeverReturns(ReadLines(NOTHING_READ, Lines(text)).r.writes)
    ensures var ws := ReadLines(NOTHING_READ, Lines(text)).r.writes;
            FlashedFrom(Records(Converted(text, family).0.bytes), a)
            == if Touched(ws, a) then Some(OrZero(LastWritten(ws, a))) else None
  {
    ConvertedFlashes(text, family, a);
    OneVisit(ReadLines(NOTHING_READ, Lines(text)).r.writes, a);
  }
}
