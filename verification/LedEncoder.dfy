// main/led_strip_encoder.c as the firmware writes it: a two-state machine over two resumable
// sub-encoders. The ESP-IDF sub-encoders are not part of the repository; BytesEncoder and CopyEncoder
// keep their contract: write what fits, COMPLETE exactly when nothing remains, MEM_FULL exactly when no
// space is left, and resume where they stopped.

module LedEncoder {
  import opened Bytes
  import opened LedSymbols

  class BytesEncoder {
    var pos: nat

    constructor ()
      ensures pos == 0
    {
      pos := 0;
    }

    method Encode(data: seq<byte>, resolution: nat, space: nat) returns (out: seq<Symbol>, complete: bool, memFull: bool)
      requires pos <= 8 * |data|
      modifies this
      ensures var end := Min(old(pos) + space, 8 * |data|);
              && out == DataSymbols(data, resolution)[old(pos)..end]
              && complete == (end == 8 * |data|) && memFull == (end == old(pos) + space)
              && pos == if complete then 0 else end
    {
      out := [];
      while |out| < space && pos < 8 * |data|
        invariant old(pos) <= pos == old(pos) + |out| <= 8 * |data| && |out| <= space
        invariant out == DataSymbols(data, resolution)[old(pos)..pos]
      {
        out := out + [BitSymbol(Bit(data[pos / 8], pos % 8), resolution)];
        pos := pos + 1;
      }
      complete, memFull := pos == 8 * |data|, |out| == space;
      if complete {
        pos := 0;
      }
    }

    method Reset()
      modifies this
      ensures pos == 0
    {
      pos := 0;
    }
  }

  class CopyEncoder {
    constructor ()
    {
    }

    method Encode(symbol: Symbol, space: nat) returns (out: seq<Symbol>, complete: bool, memFull: bool)
      ensures out == if space > 0 then [symbol] else []
      ensures complete == (space > 0) && memFull == (space <= 1)
    {
      out := if space > 0 then [symbol] else [];
      complete, memFull := space > 0, |out| == space;
    }
  }

  class LedStripEncoder {
    const bytesEncoder: BytesEncoder
    const copyEncoder: CopyEncoder
    const resolution: nat
    var state: nat

    /** Fit to go on with a session for data. */
    predicate Valid(data: seq<byte>)
      reads this, bytesEncoder
    {
      (state == 0 && bytesEncoder.pos <= 8 * |data|) || (state == 1 && bytesEncoder.pos == 0)
    }

    /** How much of the one-shot encoding this session has written. */
    function Position(data: seq<byte>): (p: nat)
      requires Valid(data)
      reads this, bytesEncoder
      ensures p < |Encoding(data, resolution)|
    {
      if state == 0 then bytesEncoder.pos else 8 * |data|
    }

    constructor (resolution: nat)
      ensures this.resolution == resolution && state == 0 && bytesEncoder.pos == 0 && fresh(bytesEncoder)
      ensures forall data :: Valid(data) && Position(data) == 0
    {
      this.resolution := resolution;
      state := 0;
      bytesEncoder := new BytesEncoder();
      copyEncoder := new CopyEncoder();
    }

    /** rmt_encode_led_strip: one grant of memory moves the cursor over the one-shot encoding. */
    method Encode(data: seq<byte>, space: nat) returns (out: seq<Symbol>, complete: bool, memFull: bool)
      requires Valid(data)
      modifies this, bytesEncoder
      ensures Valid(data)
      ensures Answer(out, Position(data), complete, memFull)
              == Advance(Encoding(data, resolution), old(Position(data)), space)
      ensures complete ==> state == 0 && bytesEncoder.pos == 0
    {
      out, complete, memFull := [], false, false;
      if state == 0 {
        var done, full;
        out, done, full := bytesEncoder.Encode(data, resolution, space);
        if done {
          state := 1;
        }
        if full {
          memFull := true;
          return;
        }
      }
      var more, last, full := copyEncoder.Encode(ResetSymbol(resolution), space - |out|);
      out := out + more;
      if last {
        state := 0;
        complete := true;
      }
      memFull := full;
    }

    /** rmt_led_strip_encoder_reset: the next session, whatever its data, starts from the beginning. */
    method Reset()
      modifies this, bytesEncoder
      ensures forall data :: Valid(data) && Position(data) == 0
    {
      bytesEncoder.Reset();
      state := 0;
    }
  }
}
