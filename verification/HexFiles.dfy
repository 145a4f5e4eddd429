// What an Intel HEX file means, and what scripts/uf2conv.py makes of it: data, extended segment address, extended
// linear address and other records, in any order.

module HexFiles {
  import opened Bytes
  import opened Uf2Format
  import opened HexPages
  import opened HexText

  /** What a line says. */
  datatype Content =
    | Linear(base: nat)                         // type 4
    | Segment(base: nat)                        // type 2
    | DataAt(offset: nat, data: seq<byte>)      // type 0
    | Other(tp: byte, body: seq<byte>)          // start addresses and unknown types
    | Remark                                    // a line that is no record

  predicate Valid(c: Content) {
    match c
    case Linear(base) => base < 0x1_0000
    case Segment(base) => base < 0x1_0000
    case DataAt(offset, data) => offset < 0x1_0000 && |data| < 256
    case Other(tp, body) => tp > 4 || tp == 3
    case Remark => true
  }

  /** The bytes of a record that ends with this checksum. */
  function RecordOf(c: Content, sum: byte): seq<byte>
    requires Valid(c) && !c.Remark?
  {
    match c
    case Linear(base) => [2, 0, 0, 4, LowByte(base / 0x100), LowByte(base), sum]
    case Segment(base) => [2, 0, 0, 2, LowByte(base / 0x100), LowByte(base), sum]
    case DataAt(offset, data) => [|data|, LowByte(offset / 0x100), LowByte(offset), 0] + data + [sum]
    case Other(tp, body) => [LowByte(|body|), 0, 0, tp] + body + [sum]
  }

  // ---- lines ----

  /** The digits of byte k of the record on a line, in either case. */
  predicate ShowsByte(line: string, k: nat, b: byte) {
    && 2 * k + 2 < |line|
    && Digit(line[2 * k + 1]) == Some(b as nat / 16) && Digit(line[2 * k + 2]) == Some(b as nat % 16)
  }

  /** The line is this record: a colon, two digits for each byte, and perhaps a carriage return. */
  predicate Shows(line: string, rec: seq<byte>) {
    && line != [] && line[0] == ':'
    && (|line| == 2 * |rec| + 1 || (|line| == 2 * |rec| + 2 && line[|line| - 1] == '\r'))
    && forall k :: 0 <= k < |rec| ==> ShowsByte(line, k, rec[k])
  }

  ghost predicate Says(line: string, c: Content)
    requires Valid(c)
  {
    if c.Remark? then line != [] && line[0] != ':' else exists sum: byte :: Shows(line, RecordOf(c, sum))
  }

  lemma {:induction false} ShownFrom(line: string, rec: seq<byte>, k: nat)
    requires Shows(line, rec) && k <= |rec|
    ensures RecordFrom(line, 2 * k + 1) == Some(rec[k..])
    decreases |rec| - k
  {
    if k < |rec| {
      assert ShowsByte(line, k, rec[k]);
      ShownFrom(line, rec, k + 1);
      assert [rec[k]] + rec[k + 1..] == rec[k..];
    }
  }

  /** The reader gets the bytes of every record a line shows. */
  lemma RecordReadsBack(line: string, rec: seq<byte>)
    requires Shows(line, rec)
    ensures RecordFrom(line, 1) == Some(rec)
  {
    ShownFrom(line, rec, 0);
  }

  function HexDigit(d: nat): (c: char)
    requires d < 16
    ensures Digit(c) == Some(d)
  {
    if d < 10 then '0' + d as char else 'A' + (d - 10) as char
  }

  /** A line for a record, to be read with or without a carriage return at the end. */
  function Line(rec: seq<byte>, cr: bool): (line: string)
    ensures |line| == 2 * |rec| + (if cr then 2 else 1)
  {
    seq(2 * |rec| + (if cr then 2 else 1), i =>
      if i == 0 then ':'
      else if i > 2 * |rec| then '\r'
      else if i < 0 then ' '
      else HexDigit(if i % 2 == 1 then rec[(i - 1) / 2] as nat / 16 else rec[(i - 1) / 2] as nat % 16))
  }

  /** Every record can be shown. */
  lemma LineShows(rec: seq<byte>, cr: bool)
    ensures Shows(Line(rec, cr), rec)
  {
    var line := Line(rec, cr);
    forall k | 0 <= k < |rec| ensures ShowsByte(line, k, rec[k]) {
      assert (2 * k + 1 - 1) / 2 == k && (2 * k + 2 - 1) / 2 == k;
    }
  }

  // ---- reading a file ----

  /** The reader's state after a line. */
  function After(r: Reading, c: Content): Reading {
    match c
    case Linear(base) => r.(upper := base * 0x1_0000)
    case Segment(base) => r.(upper := base * 16)
    case DataAt(offset, data) =>
      Reading(r.upper, if r.first.None? then Some(r.upper + offset) else r.first,
              r.writes + WritesAt(r.upper + offset, data))
    case _ => r
  }

  function AfterAll(r: Reading, cs: seq<Content>): Reading
    decreases |cs|
  {
    if cs == [] then r else AfterAll(After(r, cs[0]), cs[1..])
  }

  lemma WordOfBytes(w: nat)
    requires w < 0x1_0000
    ensures Word16(LowByte(w / 0x100), LowByte(w)) == w
  {
  }

  lemma RecordAfter(r: Reading, c: Content, sum: byte)
    requires Valid(c) && !c.Remark?
    ensures RecordStep(r, RecordOf(c, sum)) == Next(After(r, c))
  {
    match c
    case Linear(base) => WordOfBytes(base);
    case Segment(base) => WordOfBytes(base);
    case DataAt(offset, data) =>
      WordOfBytes(offset);
      assert DataOf(RecordOf(c, sum)) == data;
    case Other(_, _) =>
  }

  lemma LineAfter(r: Reading, line: string, c: Content)
    requires Valid(c) && Says(line, c)
    ensures LineStep(r, line) == Next(After(r, c))
  {
    if !c.Remark? {
      var sum: byte :| Shows(line, RecordOf(c, sum));
      RecordReadsBack(line, RecordOf(c, sum));
      RecordAfter(r, c, sum);
    }
  }

  /** The lines say cs. */
  ghost predicate AllSay(lines: seq<string>, cs: seq<Content>) {
    |lines| == |cs| && forall i :: 0 <= i < |cs| ==> Valid(cs[i]) && Says(lines[i], cs[i])
  }

  lemma AllSayTail(lines: seq<string>, cs: seq<Content>)
    requires AllSay(lines, cs) && cs != []
    ensures Valid(cs[0]) && Says(lines[0], cs[0]) && AllSay(lines[1..], cs[1..])
  {
    forall i | 0 <= i < |cs| - 1 ensures Valid(cs[1..][i]) && Says(lines[1..][i], cs[1..][i]) {
      assert Valid(cs[i + 1]) && Says(lines[i + 1], cs[i + 1]);
    }
  }

  lemma {:induction false} LinesAfter(r: Reading, lines: seq<string>, cs: seq<Content>, rest: seq<string>)
    requires AllSay(lines, cs)
    ensures ReadLines(r, lines + rest) == ReadLines(AfterAll(r, cs), rest)
    decreases |cs|
  {
    if cs == [] {
      assert lines + rest == rest;
    } else {
      AllSayTail(lines, cs);
      LineAfter(r, lines[0], cs[0]);
      LinesAfter(After(r, cs[0]), lines[1..], cs[1..], rest);
      assert (lines + rest)[0] == lines[0] && (lines + rest)[1..] == lines[1..] + rest;
    }
  }

  /** The line is an end record. */
  ghost predicate Ends(line: string) {
    exists rec: seq<byte> :: |rec| >= 4 && rec[3] == 1 && Shows(line, rec)
  }

  lemma EndStops(r: Reading, line: string, tail: seq<string>)
    requires Ends(line)
    ensures ReadLines(r, [line] + tail) == Done(r)
  {
    var rec: seq<byte> :| |rec| >= 4 && rec[3] == 1 && Shows(line, rec);
    RecordReadsBack(line, rec);
  }

  /** text consists of lines that say cs, an end record, and anything after it. */
  ghost predicate FileOf(text: string, cs: seq<Content>) {
    exists lines: seq<string>, end: string, tail: seq<string> ::
      AllSay(lines, cs) && Ends(end) && Lines(text) == lines + ([end] + tail)
  }

  /** Reading a file of records in any order carries the base address from each address record to the data records
      behind it, and gives their data at base plus offset. */
  lemma FileReads(text: string, cs: seq<Content>)
    requires FileOf(text, cs)
    ensures ReadLines(NOTHING_READ, Lines(text)) == Done(AfterAll(NOTHING_READ, cs))
  {
    var lines: seq<string>, end: string, tail: seq<string> :|
      AllSay(lines, cs) && Ends(end) && Lines(text) == lines + ([end] + tail);
    LinesAfter(NOTHING_READ, lines, cs, [end] + tail);
    EndStops(AfterAll(NOTHING_READ, cs), end, tail);
  }

  /** Converting such a file gives the pages of its data and leaves its first address in appstartaddr, unless a
      header word does not fit. */
  lemma HexFileConverts(text: string, cs: seq<Content>, family: int)
    requires FileOf(text, cs)
    ensures var ps := Pages(AfterAll(NOTHING_READ, cs).writes);
            var (result, first) := Converted(text, family);
            && first == AfterAll(NOTHING_READ, cs).first
            && (result.File? <==> PagesFit(ps, family))
            && (if result.File? then Records(result.bytes) == PageRecords(ps, family) else result == Error(StructError))
  {
    FileReads(text, cs);
    ConvertedIff(text, family);
    if Converted(text, family).0.File? {
      ConvertedFile(text, family);
    }
  }

  // ---- every list of contents has a file ----

  function Joined(ls: seq<string>): string
    requires ls != []
  {
    if |ls| == 1 then ls[0] else ls[0] + "\n" + Joined(ls[1..])
  }

  lemma {:induction false} LinesOfLine(line: string, text: string)
    requires '\n' !in line
    ensures Lines(line) == [line] && Lines(line + "\n" + text) == [line] + Lines(text)
    decreases |line|
  {
    if line == [] {
      assert (line + "\n" + text)[1..] == text;
    } else {
      LinesOfLine(line[1..], text);
      assert (line + "\n" + text)[1..] == line[1..] + "\n" + text;
      assert [line[0]] + line[1..] == line;
    }
  }

  lemma {:induction false} LinesJoined(ls: seq<string>)
    requires ls != [] && forall i :: 0 <= i < |ls| ==> '\n' !in ls[i]
    ensures Lines(Joined(ls)) == ls
    decreases |ls|
  {
    if |ls| == 1 {
      LinesOfLine(ls[0], "");
    } else {
      LinesJoined(ls[1..]);
      LinesOfLine(ls[0], Joined(ls[1..]));
    }
  }

  function Written(c: Content, cr: bool): string
    requires Valid(c)
  {
    if c.Remark? then "#" else Line(RecordOf(c, 0), cr)
  }

  lemma WrittenSays(c: Content, cr: bool)
    requires Valid(c)
    ensures Says(Written(c, cr), c) && '\n' !in Written(c, cr)
  {
    if !c.Remark? {
      LineShows(RecordOf(c, 0), cr);
      ShownHasNoBreak(Written(c, cr), RecordOf(c, 0));
    }
  }

  lemma ShownHasNoBreak(line: string, rec: seq<byte>)
    requires Shows(line, rec)
    ensures '\n' !in line
  {
    forall i | 0 <= i < |line| ensures line[i] != '\n' {
      if 0 < i <= 2 * |rec| {
        var k := (i - 1) / 2;
        assert ShowsByte(line, k, rec[k]);
        assert i == 2 * k + 1 || i == 2 * k + 2;
        assert Digit('\n') == None;
      }
    }
  }

  function WrittenLines(cs: seq<Content>, cr: bool): (ls: seq<string>)
    requires forall i :: 0 <= i < |cs| ==> Valid(cs[i])
    ensures |ls| == |cs|
  {
    seq(|cs|, i requires 0 <= i < |cs| => Written(cs[i], cr))
  }

  const END_RECORD: seq<byte> := [0, 0, 0, 1, 0xff]

  /** Every list of contents has a file. */
  lemma EveryContentHasFile(cs: seq<Content>, cr: bool) returns (text: string)
    requires forall i :: 0 <= i < |cs| ==> Valid(cs[i])
    ensures FileOf(text, cs)
  {
    var lines, end := WrittenLines(cs, cr), Line(END_RECORD, cr);
    forall i | 0 <= i < |cs| ensures Says(lines[i], cs[i]) && '\n' !in lines[i] {
      WrittenSays(cs[i], cr);
    }
    LineShows(END_RECORD, cr);
    ShownHasNoBreak(end, END_RECORD);
    var ls := lines + ([end] + []);
    text := Joined(ls);
    LinesJoined(ls);
    assert AllSay(lines, cs) && Ends(end);
  }

  // ---- what the specification says ----

  /** The base in force: from the last extended address record; 16-bit addresses from 0 before the first. */
  datatype Base = SegmentBase(base: nat) | LinearBase(base: nat)

  function Upper(b: Base): nat {
    match b
    case SegmentBase(base) => base * 16
    case LinearBase(base) => base * 0x1_0000
  }

  /** The address of byte i of a data record: within the segment it wraps at 64K, otherwise at 4G. */
  function SpecifiedAddress(b: Base, offset: nat, i: nat): nat {
    match b
    case SegmentBase(base) => base * 16 + (offset + i) % 0x1_0000
    case LinearBase(base) => (base * 0x1_0000 + offset + i) % UINT32
  }

  function SpecifiedAt(b: Base, offset: nat, data: seq<byte>): (ws: seq<Write>)
    ensures |ws| == |data|
  {
    seq(|data|, i requires 0 <= i < |data| => Write(SpecifiedAddress(b, offset, i), data[i]))
  }

  function BaseAfter(b: Base, c: Content): Base {
    match c
    case Linear(base) => LinearBase(base)
    case Segment(base) => SegmentBase(base)
    case _ => b
  }

  /** The writes the specification gives a file. */
  function Specified(b: Base, cs: seq<Content>): seq<Write>
    decreases |cs|
  {
    if cs == [] then []
    else
      (if cs[0].DataAt? then SpecifiedAt(b, cs[0].offset, cs[0].data) else [])
      + Specified(BaseAfter(b, cs[0]), cs[1..])
  }

  /** The data ends before the addresses wrap. */
  predicate Fits(b: Base, offset: nat, length: nat) {
    match b
    case SegmentBase(_) => offset + length <= 0x1_0000
    case LinearBase(base) => base * 0x1_0000 + offset + length <= UINT32
  }

  predicate AllFit(b: Base, cs: seq<Content>)
    decreases |cs|
  {
    cs == []
    || ((cs[0].DataAt? ==> Fits(b, cs[0].offset, |cs[0].data|)) && AllFit(BaseAfter(b, cs[0]), cs[1..]))
  }

  lemma {:induction false} WriteAt(addr: nat, data: seq<byte>, i: nat)
    requires i < |data|
    ensures WritesAt(addr, data)[i] == Write(addr + i, data[i])
    decreases |data|
  {
    if i < |data| - 1 {
      WriteAt(addr, data[..|data| - 1], i);
    }
  }

  predicate ValidBase(b: Base) {
    b.base < 0x1_0000
  }

  lemma AddressIff(b: Base, offset: nat, i: nat)
    requires ValidBase(b) && offset < 0x1_0000 && i < 0x1_0000
    ensures SpecifiedAddress(b, offset, i) == Upper(b) + offset + i <==> Fits(b, offset, i + 1)
  {
  }

  /** A data record is placed as the specification says exactly when its data ends before the addresses wrap: in a
      segment, when offset and length add up to at most 65536. */
  lemma PlacedIff(b: Base, offset: nat, data: seq<byte>)
    requires ValidBase(b) && offset < 0x1_0000 && |data| < 256
    ensures WritesAt(Upper(b) + offset, data) == SpecifiedAt(b, offset, data) <==> Fits(b, offset, |data|)
  {
    var ws, spec := WritesAt(Upper(b) + offset, data), SpecifiedAt(b, offset, data);
    if Fits(b, offset, |data|) {
      forall i | 0 <= i < |data| ensures ws[i] == spec[i] {
        WriteAt(Upper(b) + offset, data, i);
        AddressIff(b, offset, i);
      }
    } else {
      var i := |data| - 1;
      WriteAt(Upper(b) + offset, data, i);
      AddressIff(b, offset, i);
      assert ws[i] != spec[i];
    }
  }

  lemma SameSplit(a: seq<Write>, b: seq<Write>, c: seq<Write>, d: seq<Write>)
    requires |a| == |c|
    ensures a + b == c + d <==> a == c && b == d
  {
    assert (a + b)[..|a|] == a && (a + b)[|a|..] == b && (c + d)[..|c|] == c && (c + d)[|c|..] == d;
  }

  /** The writes the reader makes of a file, when upper is the base. */
  function Placed(upper: nat, cs: seq<Content>): seq<Write>
    decreases |cs|
  {
    if cs == [] then []
    else
      var c := cs[0];
      (if c.DataAt? then WritesAt(upper + c.offset, c.data) else [])
      + Placed(match c
               case Linear(base) => base * 0x1_0000
               case Segment(base) => base * 16
               case _ => upper,
               cs[1..])
  }

  lemma {:induction false} AfterAllPlaces(r: Reading, cs: seq<Content>)
    ensures AfterAll(r, cs).writes == r.writes + Placed(r.upper, cs)
    decreases |cs|
  {
    if cs == [] {
      assert r.writes + [] == r.writes;
    } else {
      AfterAllPlaces(After(r, cs[0]), cs[1..]);
      var here := if cs[0].DataAt? then WritesAt(r.upper + cs[0].offset, cs[0].data) else [];
      assert After(r, cs[0]).writes == r.writes + here;
      var rest := Placed(After(r, cs[0]).upper, cs[1..]);
      assert r.writes + here + rest == r.writes + (here + rest);
    }
  }

  lemma {:induction false} AllPlacedIff(b: Base, cs: seq<Content>)
    requires ValidBase(b) && forall i :: 0 <= i < |cs| ==> Valid(cs[i])
    ensures Placed(Upper(b), cs) == Specified(b, cs) <==> AllFit(b, cs)
    decreases |cs|
  {
    if cs != [] {
      var c := cs[0];
      var next := BaseAfter(b, c);
      AllPlacedIff(next, cs[1..]);
      if c.DataAt? {
        PlacedIff(b, c.offset, c.data);
        SameSplit(WritesAt(Upper(b) + c.offset, c.data), Placed(Upper(next), cs[1..]),
                  SpecifiedAt(b, c.offset, c.data), Specified(next, cs[1..]));
      } else {
        SameSplit([], Placed(Upper(next), cs[1..]), [], Specified(next, cs[1..]));
      }
    }
  }

  /** The reader places a whole file as the specification says exactly when every data record does. */
  lemma FilePlacedIff(text: string, cs: seq<Content>)
    requires FileOf(text, cs)
    ensures ReadLines(NOTHING_READ, Lines(text)).Done?
    ensures ReadLines(NOTHING_READ, Lines(text)).r.writes == Specified(SegmentBase(0), cs)
            <==> AllFit(SegmentBase(0), cs)
  {
    FileReads(text, cs);
    var lines: seq<string>, end: string, tail: seq<string> :|
      AllSay(lines, cs) && Ends(end) && Lines(text) == lines + ([end] + tail);
    AfterAllPlaces(NOTHING_READ, cs);
    AllPlacedIff(SegmentBase(0), cs);
    assert [] + Placed(0, cs) == Placed(0, cs);
  }

  /** The address of the first data record, from the base in force; None when there is none. */
  function FirstAddress(b: Base, cs: seq<Content>): Option<nat>
    decreases |cs|
  {
    if cs == [] then None
    else if cs[0].DataAt? then Some(SpecifiedAddress(b, cs[0].offset, 0))
    else FirstAddress(BaseAfter(b, cs[0]), cs[1..])
  }

  lemma {:induction false} AfterAllFirst(r: Reading, cs: seq<Content>, b: Base)
    requires ValidBase(b) && r.upper == Upper(b) && forall i :: 0 <= i < |cs| ==> Valid(cs[i])
    ensures AfterAll(r, cs).first == if r.first.Some? then r.first else FirstAddress(b, cs)
    decreases |cs|
  {
    if cs != [] {
      AfterAllFirst(After(r, cs[0]), cs[1..], BaseAfter(b, cs[0]));
    }
  }

  /** The start address a file leaves behind is that of its first data record. */
  lemma FirstAddressIs(text: string, cs: seq<Content>, family: int)
    requires FileOf(text, cs)
    ensures Converted(text, family).1 == FirstAddress(SegmentBase(0), cs)
  {
    var lines: seq<string>, end: string, tail: seq<string> :|
      AllSay(lines, cs) && Ends(end) && Lines(text) == lines + ([end] + tail);
    HexFileConverts(text, cs, family);
    AfterAllFirst(NOTHING_READ, cs, SegmentBase(0));
  }

  /** Flashing the conversion of a file that fits its segments and never returns to a page leaves the memory the
      specification describes, and zero elsewhere in the touched pages. */
  lemma FlashesAsSpecified(text: string, cs: seq<Content>, family: int, a: nat)
    requires FileOf(text, cs) && AllFit(SegmentBase(0), cs) && NeverReturns(Specified(SegmentBase(0), cs))
    requires Converted(text, family).0.File?
    ensures var ws := Specified(SegmentBase(0), cs);
            FlashedFrom(Records(Converted(text, family).0.bytes), a)
            == if Touched(ws, a) then Some(OrZero(LastWritten(ws, a))) else None
  {
    FilePlacedIff(text, cs);
    HexFileFlashes(text, family, a);
  }

  /** It fails for two bytes at the end of a segment: the second belongs at the segment's start. */
  lemma SegmentEndIsMisplaced()
    ensures var cs := [Segment(0x1000), DataAt(0xffff, [1, 2])];
            && AfterAll(NOTHING_READ, cs).writes == [Write(0x1_ffff, 1), Write(0x2_0000, 2)]
            && Specified(SegmentBase(0), cs) == [Write(0x1_ffff, 1), Write(0x1_0000, 2)]
  {
    var data: seq<byte> := [1, 2];
    var cs := [Segment(0x1000), DataAt(0xffff, data)];
    assert cs[1..] == [DataAt(0xffff, data)] && cs[1..][1..] == [];
    var r := After(NOTHING_READ, cs[0]);
    assert r.upper == 0x1_0000;
    WriteAt(0x1_ffff, data, 0);
    WriteAt(0x1_ffff, data, 1);
    assert WritesAt(0x1_ffff, data) == [Write(0x1_ffff, 1), Write(0x2_0000, 2)];
    assert AfterAll(r, cs[1..]).writes == [] + WritesAt(0x1_ffff, data);
    assert SpecifiedAt(SegmentBase(0x1000), 0xffff, data) == [Write(0x1_ffff, 1), Write(0x1_0000, 2)];
    assert Specified(SegmentBase(0x1000), cs[1..]) == SpecifiedAt(SegmentBase(0x1000), 0xffff, data) + [];
  }
}
