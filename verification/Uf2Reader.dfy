// convert_from_uf2 of scripts/uf2conv.py as a fold over the records of a file.

module Uf2Reader {
  import opened Bytes
  import opened Uf2Format

  const MAX_PADDING := 10 * 1024 * 1024

  /** An element of the list the reader builds: a payload, or one of the integers that line 75 adds. */
  datatype Piece = Chunk(bytes: seq<byte>) | ZeroInt

  /** Why the reader raises. Every one of these is a TypeError: building the message joins a string and a number. */
  datatype Failure = BadMagicBlock | PayloadTooLong | OutOfOrder | TooMuchPadding | Unaligned | IntInOutput

  datatype Result<T> = Ok(value: T) | Raise(why: Failure)

  /** The locals of the loop, and the global appstartaddr. */
  datatype State = State(
    curAddr: Option<int>,
    curFamily: Option<nat>,
    families: map<nat, nat>,
    out: seq<Piece>,
    appStart: int)

  datatype Progress = Running(state: State) | Stopped(why: Failure, appStart: int)

  function ZeroInts(n: nat): (z: seq<Piece>)
    ensures |z| == n
  {
    seq(n, _ => ZeroInt)
  }

  /** Line 61: the first block of a file, or the first block of a run of another family. */
  predicate Switches(s: State, flagged: bool, family: nat) {
    s.curAddr.None? || (flagged && s.curFamily.Some? && s.curFamily.value != family)
  }

  function Wanted(want: int, flagged: bool, family: nat): bool {
    want == 0 || (flagged && want == family)
  }

  function Lowest(families: map<nat, nat>, family: nat, addr: nat): map<nat, nat> {
    families[family := if family in families then Min(families[family], addr) else addr]
  }

  /** Lines 55-84 for a block to flash; want is the global familyid. */
  function Place(s: State, b: Block, want: int): (p: Progress) {
    var switches := Switches(s, b.flagged, b.family);
    var start := if switches then b.addr else s.curAddr.value;
    var appStart := if switches && (want == 0 || want == b.family) then b.addr else s.appStart;
    var padding := b.addr - start;
    if padding < 0 then Stopped(OutOfOrder, appStart)
    else if padding > MAX_PADDING then Stopped(TooMuchPadding, appStart)
    else if padding % 4 != 0 then Stopped(Unaligned, appStart)
    else Running(State(
      Some(b.addr + |b.payload|),
      if switches || (b.flagged && s.curFamily.None?) then Some(b.family) else s.curFamily,
      if b.flagged then Lowest(s.families, b.family, b.addr) else s.families,
      s.out + ZeroInts(padding) + (if Wanted(want, b.flagged, b.family) then [Chunk(b.payload)] else []),
      appStart))
  }

  /** One turn of the loop. */
  function Step(s: State, r: Record, want: int): (p: Progress) {
    match r
    case BadMagic => Stopped(BadMagicBlock, s.appStart)
    case NotFlash => Running(s)
    case TooLong => Stopped(PayloadTooLong, s.appStart)
    case Data(b) => Place(s, b, want)
  }

  function Start(appStart: int): State {
    State(None, None, map[], [], appStart)
  }

  function Scan(rs: seq<Record>, want: int, appStart: int): Progress {
    if rs == [] then Running(Start(appStart))
    else
      var before := Scan(rs[..|rs| - 1], want, appStart);
      if before.Stopped? then before else Step(before.state, rs[|rs| - 1], want)
  }

  lemma {:induction false} ScanNext(rs: seq<Record>, k: nat, want: int, appStart: int)
    requires k < |rs| && Scan(rs[..k], want, appStart).Running?
    ensures Scan(rs[..k + 1], want, appStart) == Step(Scan(rs[..k], want, appStart).state, rs[k], want)
  {
    assert rs[..k + 1][..k] == rs[..k];
  }

  lemma {:induction false} StopsAt(rs: seq<Record>, k: nat, want: int, appStart: int)
    requires k <= |rs| && Scan(rs[..k], want, appStart).Stopped?
    ensures Scan(rs, want, appStart) == Scan(rs[..k], want, appStart)
    decreases |rs|
  {
    if k == |rs| {
      assert rs[..k] == rs;
    } else {
      assert rs[..|rs| - 1][..k] == rs[..k];
      StopsAt(rs[..|rs| - 1], k, want, appStart);
    }
  }

  /** The bytes a list of pieces is meant to be: an integer of line 75 for a zero byte. */
  function Image(out: seq<Piece>): (b: seq<byte>) {
    if out == [] then []
    else Image(out[..|out| - 1]) + (var p := out[|out| - 1]; if p.ZeroInt? then [0] else p.bytes)
  }

  predicate OnlyChunks(out: seq<Piece>) {
    out == [] || (OnlyChunks(out[..|out| - 1]) && out[|out| - 1].Chunk?)
  }

  /** b"".join: it takes byte strings only. */
  function Join(out: seq<Piece>): Result<seq<byte>> {
    if OnlyChunks(out) then Ok(Image(out)) else Raise(IntInOutput)
  }

  /** Lines 104-106 run only when the last block was not skipped. */
  predicate Wipes(rs: seq<Record>, s: State, want: int) {
    rs != [] && rs[|rs| - 1].Data? && |s.families| > 1 && want == 0
  }

  /** The value returned or the exception raised, and the global appstartaddr afterwards. */
  function Decode(rs: seq<Record>, want: int, appStart: int): (Result<seq<byte>>, int) {
    match Scan(rs, want, appStart)
    case Stopped(why, after) => (Raise(why), after)
    case Running(s) => if Wipes(rs, s, want) then (Ok([]), 0) else (Join(s.out), s.appStart)
  }

  lemma {:induction false} ImageConcat(a: seq<Piece>, b: seq<Piece>)
    ensures Image(a + b) == Image(a) + Image(b)
    ensures OnlyChunks(a + b) <==> OnlyChunks(a) && OnlyChunks(b)
    decreases |b|
  {
    if b == [] {
      assert a + b == a;
    } else {
      ImageConcat(a, b[..|b| - 1]);
      assert (a + b)[..|a + b| - 1] == a + b[..|b| - 1];
    }
  }

  lemma {:induction false} ImageOfZeroInts(n: nat)
    ensures Image(ZeroInts(n)) == Zeros(n)
    ensures OnlyChunks(ZeroInts(n)) <==> n == 0
  {
    if n > 0 {
      ImageOfZeroInts(n - 1);
      assert ZeroInts(n)[..n - 1] == ZeroInts(n - 1);
    }
  }
}
