// What the LED strip encoder has to produce: the one-shot encoding of a byte string, its decoding, and
// a cursor over it for memory that comes in pieces (main/led_strip_encoder.c).

module LedSymbols {
  import opened Bytes

  /** rmt_symbol_word_t: two levels and how long each lasts, in ticks. */
  datatype Symbol = Symbol(level0: bool, duration0: nat, level1: bool, duration1: nat)

  /** tenths of a microsecond in ticks of the given resolution; the 15-bit duration field truncates. */
  function Ticks(tenths: nat, resolution: nat): nat {
    tenths * resolution / 10_000_000 % 32768
  }

  /** bit0 and bit1 of the bytes encoder. */
  function BitSymbol(bit: bool, resolution: nat): Symbol {
    if bit then Symbol(true, Ticks(9, resolution), false, Ticks(3, resolution))
    else Symbol(true, Ticks(3, resolution), false, Ticks(9, resolution))
  }

  /** reset_code: 50 us low, in two halves. */
  function ResetSymbol(resolution: nat): Symbol {
    var ticks := resolution / 1_000_000 * 50 / 2 % 32768;
    Symbol(false, ticks, false, ticks)
  }

  function Weight(k: nat): nat
    requires k < 8
  {
    match k
    case 0 => 128
    case 1 => 64
    case 2 => 32
    case 3 => 16
    case 4 => 8
    case 5 => 4
    case 6 => 2
    case 7 => 1
  }

  /** Bit k of b, most significant first. */
  predicate Bit(b: byte, k: nat)
    requires k < 8
  {
    b / Weight(k) % 2 == 1
  }

  function DataSymbols(data: seq<byte>, resolution: nat): (r: seq<Symbol>)
    ensures |r| == 8 * |data|
  {
    seq(8 * |data|, i requires 0 <= i < 8 * |data| => BitSymbol(Bit(data[i / 8], i % 8), resolution))
  }

  /** All bytes, most significant bit first, then one reset symbol. */
  function Encoding(data: seq<byte>, resolution: nat): (r: seq<Symbol>)
    ensures |r| == 8 * |data| + 1
  {
    DataSymbols(data, resolution) + [ResetSymbol(resolution)]
  }

  // ---- decoding ----

  function BitValue(s: Symbol, k: nat, resolution: nat): nat
    requires k < 8
  {
    if s == BitSymbol(true, resolution) then Weight(k) else 0
  }

  function DecodeByte(s: seq<Symbol>, resolution: nat): nat
    requires |s| == 8
  {
    BitValue(s[0], 0, resolution) + BitValue(s[1], 1, resolution) + BitValue(s[2], 2, resolution)
    + BitValue(s[3], 3, resolution) + BitValue(s[4], 4, resolution) + BitValue(s[5], 5, resolution)
    + BitValue(s[6], 6, resolution) + BitValue(s[7], 7, resolution)
  }

  function Decode(s: seq<Symbol>, resolution: nat): seq<nat> {
    if |s| < 8 then [] else [DecodeByte(s[..8], resolution)] + Decode(s[8..], resolution)
  }

  /** The two bit symbols differ exactly from 1.1 MHz on (the resolution is a 32-bit number). */
  lemma BitsDifferIff(resolution: nat)
    requires resolution < 0x1_0000_0000
    ensures BitSymbol(true, resolution) != BitSymbol(false, resolution) <==> 9 * resolution >= 10_000_000
  {
    var a, b := 3 * resolution / 10_000_000, 9 * resolution / 10_000_000;
    assert b < 32768;
    if 9 * resolution >= 10_000_000 && a >= 1 {
      assert b >= 3 * a;
    }
  }

  /** The top bits of b as a number: what is left after dividing by the weight of bit k. */
  lemma HalvesAgain(b: nat)
    ensures b / 4 == b / 2 / 2 && b / 8 == b / 4 / 2 && b / 16 == b / 8 / 2 && b / 32 == b / 16 / 2
    ensures b / 64 == b / 32 / 2 && b / 128 == b / 64 / 2
  {
  }

  lemma BitOf(b: byte, k: nat, s: Symbol, resolution: nat)
    requires k < 8 && s == BitSymbol(Bit(b, k), resolution)
    requires BitSymbol(true, resolution) != BitSymbol(false, resolution)
    ensures BitValue(s, k, resolution) == b / Weight(k) % 2 * Weight(k)
  {
    assert b / Weight(k) % 2 == 0 || b / Weight(k) % 2 == 1;
  }

  lemma ByteFromBits(b: byte)
    ensures b == b / 128 % 2 * 128 + b / 64 % 2 * 64 + b / 32 % 2 * 32 + b / 16 % 2 * 16
                 + b / 8 % 2 * 8 + b / 4 % 2 * 4 + b / 2 % 2 * 2 + b % 2
  {
    HalvesAgain(b);
    var b1, b2, b3, b4 := b / 2, b / 4, b / 8, b / 16;
    var b5, b6, b7 := b / 32, b / 64, b / 128;
    assert b == 2 * b1 + b % 2 && b1 == 2 * b2 + b1 % 2 && b2 == 2 * b3 + b2 % 2 && b3 == 2 * b4 + b3 % 2;
    assert b4 == 2 * b5 + b4 % 2 && b5 == 2 * b6 + b5 % 2 && b6 == 2 * b7 + b6 % 2 && b7 == b7 % 2;
  }

  lemma DecodesByte(b: byte, s: seq<Symbol>, resolution: nat)
    requires |s| == 8 && forall k :: 0 <= k < 8 ==> s[k] == BitSymbol(Bit(b, k), resolution)
    requires BitSymbol(true, resolution) != BitSymbol(false, resolution)
    ensures DecodeByte(s, resolution) == b
  {
    ByteFromBits(b);
    forall k | 0 <= k < 8 ensures BitValue(s[k], k, resolution) == b / Weight(k) % 2 * Weight(k) {
      BitOf(b, k, s[k], resolution);
    }
  }

  lemma FirstByteSymbols(data: seq<byte>, resolution: nat)
    requires data != []
    ensures forall k :: 0 <= k < 8 ==> DataSymbols(data, resolution)[..8][k] == BitSymbol(Bit(data[0], k), resolution)
  {
  }

  lemma LaterByteSymbols(data: seq<byte>, resolution: nat)
    requires data != []
    ensures DataSymbols(data, resolution)[8..] == DataSymbols(data[1..], resolution)
  {
    var s, t := DataSymbols(data, resolution)[8..], DataSymbols(data[1..], resolution);
    forall i | 0 <= i < |t| ensures s[i] == t[i] {
      assert (i + 8) / 8 == i / 8 + 1 && (i + 8) % 8 == i % 8;
    }
  }

  /** Decoding the data symbols gives back the bytes. */
  lemma {:induction false} DecodeEncoding(data: seq<byte>, resolution: nat)
    requires BitSymbol(true, resolution) != BitSymbol(false, resolution)
    ensures Decode(DataSymbols(data, resolution), resolution) == data
  {
    if data != [] {
      FirstByteSymbols(data, resolution);
      DecodesByte(data[0], DataSymbols(data, resolution)[..8], resolution);
      LaterByteSymbols(data, resolution);
      DecodeEncoding(data[1..], resolution);
    }
  }

  /** With equal bit symbols no decoder can tell the bytes 0 and 255 apart: the encoding can be undone
      exactly when the resolution separates them. */
  lemma DecodableIff(resolution: nat)
    requires resolution < 0x1_0000_0000
    ensures (forall x: seq<byte>, y: seq<byte> :: DataSymbols(x, resolution) == DataSymbols(y, resolution) ==> x == y)
            <==> 9 * resolution >= 10_000_000
  {
    BitsDifferIff(resolution);
    if 9 * resolution >= 10_000_000 {
      forall x: seq<byte>, y: seq<byte> | DataSymbols(x, resolution) == DataSymbols(y, resolution) ensures x == y {
        DecodeEncoding(x, resolution);
        DecodeEncoding(y, resolution);
      }
    } else {
      var x: seq<byte>, y: seq<byte> := [0], [255];
      assert DataSymbols(x, resolution) == DataSymbols(y, resolution);
      assert x[0] != y[0];
    }
  }

  /** The symbols in ticks: the bit of value w, at place k from the highest, is high for 0.9 us and low for 0.3 us when
      it is set, and the other way round when it is clear. Durations are cut to 15 bits. */
  lemma SymbolInTicks(data: seq<byte>, resolution: nat, i: nat, k: nat, w: nat)
    requires i < |data|
    requires (k == 0 && w == 128) || (k == 1 && w == 64) || (k == 2 && w == 32) || (k == 3 && w == 16)
             || (k == 4 && w == 8) || (k == 5 && w == 4) || (k == 6 && w == 2) || (k == 7 && w == 1)
    ensures var long, short := 9 * resolution / 10_000_000 % 32768, 3 * resolution / 10_000_000 % 32768;
            Encoding(data, resolution)[8 * i + k]
            == if data[i] / w % 2 == 1 then Symbol(true, long, false, short) else Symbol(true, short, false, long)
  {
    assert (8 * i + k) / 8 == i && (8 * i + k) % 8 == k;
    assert w == Weight(k);
  }

  /** The last symbol is the reset: 25 us low, twice. */
  lemma ResetInTicks(data: seq<byte>, resolution: nat)
    ensures |Encoding(data, resolution)| == 8 * |data| + 1
    ensures var half := resolution / 1_000_000 * 50 / 2 % 32768;
            Encoding(data, resolution)[8 * |data|] == Symbol(false, half, false, half)
  {
  }

  // ---- memory in pieces ----

  /** The answer to one grant of memory: symbols written, position afterwards, and the two state flags. */
  datatype Answer = Answer(out: seq<Symbol>, pos: nat, complete: bool, memFull: bool)

  /** A cursor over the one-shot encoding; after the last symbol it is back at the start. */
  function Advance(full: seq<Symbol>, pos: nat, space: nat): Answer
    requires pos < |full|
  {
    var end := Min(pos + space, |full|);
    Answer(full[pos..end], if end == |full| then 0 else end, end == |full|, end == pos + space)
  }

  function Sum(grants: seq<nat>): nat {
    if grants == [] then 0 else grants[0] + Sum(grants[1..])
  }

  /** The answers to a sequence of grants, one session after the other. */
  function Answers(full: seq<Symbol>, pos: nat, grants: seq<nat>): (r: seq<Answer>)
    requires pos < |full|
    ensures |r| == |grants|
    decreases |grants|
  {
    if grants == [] then []
    else
      var a := Advance(full, pos, grants[0]);
      [a] + Answers(full, a.pos, grants[1..])
  }

  function Output(answers: seq<Answer>): seq<Symbol> {
    if answers == [] then [] else answers[0].out + Output(answers[1..])
  }

  /** However memory is granted, until it suffices no call reports completion and the outputs add up to a
      prefix of the one-shot encoding... */
  lemma {:induction false} PartialSession(full: seq<Symbol>, pos: nat, grants: seq<nat>)
    requires pos < |full| && pos + Sum(grants) < |full|
    ensures Output(Answers(full, pos, grants)) == full[pos..pos + Sum(grants)]
    ensures forall i :: 0 <= i < |grants| ==> !Answers(full, pos, grants)[i].complete
    decreases |grants|
  {
    if grants != [] {
      var a := Advance(full, pos, grants[0]);
      PartialSession(full, a.pos, grants[1..]);
      assert full[pos..pos + grants[0]] + full[a.pos..a.pos + Sum(grants[1..])] == full[pos..pos + Sum(grants)];
    }
  }

  /** ... and when it does, exactly the last of those calls reports completion, the outputs are the whole
      of what was left, and the encoder is ready for the next session. */
  lemma {:induction false} CompleteSession(full: seq<Symbol>, pos: nat, grants: seq<nat>)
    requires pos < |full| && grants != []
    requires pos + Sum(grants[..|grants| - 1]) < |full| <= pos + Sum(grants)
    ensures var answers := Answers(full, pos, grants);
            && Output(answers) == full[pos..]
            && (forall i :: 0 <= i < |grants| ==> (answers[i].complete <==> i == |grants| - 1))
            && answers[|grants| - 1].pos == 0
    decreases |grants|
  {
    var a := Advance(full, pos, grants[0]);
    if |grants| > 1 {
      assert grants[..|grants| - 1][0] == grants[0];
      assert grants[..|grants| - 1][1..] == grants[1..][..|grants[1..]| - 1];
      CompleteSession(full, a.pos, grants[1..]);
      assert full[pos..pos + grants[0]] + full[a.pos..] == full[pos..];
    } else {
      assert grants[..0] == [] && Sum(grants[1..]) == 0;
      assert Answers(full, a.pos, grants[1..]) == [] && Output([]) == [];
    }
  }

  /** Every non-empty grant makes progress. */
  lemma GrantProgress(full: seq<Symbol>, pos: nat, space: nat)
    requires pos < |full| && space > 0
    ensures var a := Advance(full, pos, space); a.complete || a.pos > pos
  {
  }
}
