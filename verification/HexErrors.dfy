// Which texts make convert_from_hex_to_uf2 of scripts/uf2conv.py raise, and with what.

module HexErrors {
  import opened Bytes
  import opened HexPages
  import opened HexText

  /** A hexadecimal digit has the same value in either case, and nothing else is a digit. */
  lemma DigitIff(c: char, d: nat)
    ensures Digit(c) == Some(d) <==> d < 16 && (c == "0123456789abcdef"[d] || c == "0123456789ABCDEF"[d])
  {
    if d < 10 {
      assert "0123456789abcdef"[d] == "0123456789ABCDEF"[d] == '0' + d as char;
    } else if d < 16 {
      assert "0123456789abcdef"[d] == 'a' + (d - 10) as char && "0123456789ABCDEF"[d] == 'A' + (d - 10) as char;
    }
  }

  predicate IsDigit(c: char) {
    '0' <= c <= '9' || 'a' <= c <= 'f' || 'A' <= c <= 'F'
  }

  /** The two characters of byte k are neither two digits nor one digit beside a carriage return. */
  predicate BadPair(line: string, k: nat) {
    && 2 * k + 2 < |line|
    && var a, b := line[2 * k + 1], line[2 * k + 2];
       !(IsDigit(a) && IsDigit(b)) && !(IsDigit(a) && b == '\r') && !(a == '\r' && IsDigit(b))
  }

  predicate HasBadPair(line: string) {
    exists k: nat {:trigger BadPair(line, k)} :: k <= |line| && BadPair(line, k)
  }

  /** The fourth byte of the record on the line. */
  predicate TypeIs(line: string, tp: byte) {
    |line| >= 9 && Pair(line[7], line[8]) == Some(tp)
  }

  /** A record is too short for its type byte, or an address record for its base. */
  predicate TooShort(line: string) {
    |line| < 9 || (|line| < 13 && (TypeIs(line, 2) || TypeIs(line, 4)))
  }

  predicate Raises(line: string) {
    line == "" || (line[0] == ':' && (HasBadPair(line) || TooShort(line)))
  }

  /** The line is an end record. */
  predicate Stops(line: string) {
    line != "" && line[0] == ':' && !Raises(line) && TypeIs(line, 1)
  }

  // ---- one line ----

  lemma PairFailsIff(line: string, k: nat)
    requires 2 * k + 2 < |line|
    ensures Pair(line[2 * k + 1], line[2 * k + 2]) == None <==> BadPair(line, k)
  {
  }

  predicate BadFrom(line: string, k: nat) {
    exists j: nat {:trigger BadPair(line, j)} :: k <= j <= |line| && BadPair(line, j)
  }

  lemma BadFromNext(line: string, k: nat)
    ensures BadFrom(line, k) <==> BadPair(line, k) || BadFrom(line, k + 1)
  {
  }

  /** The bytes from byte k on: there are none exactly when one of the pairs from there on is bad. */
  lemma {:induction false} RecordFromIs(line: string, k: nat)
    requires 2 * k < |line|
    ensures RecordFrom(line, 2 * k + 1).None? <==> BadFrom(line, k)
    ensures RecordFrom(line, 2 * k + 1).Some? ==> |RecordFrom(line, 2 * k + 1).value| == (|line| - 1) / 2 - k
    decreases |line| - k
  {
    if 2 * k + 2 < |line| {
      PairFailsIff(line, k);
      BadFromNext(line, k);
      RecordFromIs(line, k + 1);
    }
  }

  lemma FourthByte(line: string)
    requires |line| >= 9 && RecordFrom(line, 1).Some?
    ensures |RecordFrom(line, 1).value| >= 4 && Pair(line[7], line[8]) == Some(RecordFrom(line, 1).value[3])
  {
    assert RecordFrom(line, 1) == Prepend([Pair(line[1], line[2]).value], RecordFrom(line, 3));
    assert RecordFrom(line, 3) == Prepend([Pair(line[3], line[4]).value], RecordFrom(line, 5));
    assert RecordFrom(line, 5) == Prepend([Pair(line[5], line[6]).value], RecordFrom(line, 7));
    assert RecordFrom(line, 7) == Prepend([Pair(line[7], line[8]).value], RecordFrom(line, 9));
  }

  /** What a line does to the reading: it raises ValueError for a bad pair, and otherwise IndexError for an empty line
      or a record that is too short; it ends the reading when it is an end record; and otherwise it is read. */
  lemma LineIs(r: Reading, line: string)
    ensures LineStep(r, line).Raised? <==> Raises(line)
    ensures Raises(line) ==>
              LineStep(r, line) == Raised(if line != "" && HasBadPair(line) then ValueError else IndexError, r.first)
    ensures LineStep(r, line).Done? <==> Stops(line)
  {
    if line != "" && line[0] == ':' {
      RecordFromIs(line, 0);
      assert BadFrom(line, 0) <==> HasBadPair(line);
      if |line| >= 9 && RecordFrom(line, 1).Some? {
        FourthByte(line);
      }
    }
  }

  // ---- a whole text ----

  /** The reading comes to line k. */
  predicate Reaches(lines: seq<string>, k: nat) {
    k < |lines| && forall j :: 0 <= j < k ==> !Raises(lines[j]) && !Stops(lines[j])
  }

  predicate RaisesAt(lines: seq<string>, k: nat) {
    Reaches(lines, k) && Raises(lines[k])
  }

  /** The reading comes to a line that raises. */
  predicate Fails(lines: seq<string>) {
    exists k :: 0 <= k < |lines| && RaisesAt(lines, k)
  }

  /** The exception of line k. */
  function WhyAt(lines: seq<string>, k: nat): Failure
    requires k < |lines|
  {
    if lines[k] != "" && HasBadPair(lines[k]) then ValueError else IndexError
  }

  lemma ReachesNext(lines: seq<string>, k: nat)
    requires lines != [] && !Raises(lines[0]) && !Stops(lines[0])
    ensures RaisesAt(lines[1..], k) <==> RaisesAt(lines, k + 1)
  {
    if Reaches(lines[1..], k) {
      forall j | 0 <= j < k + 1 ensures !Raises(lines[j]) && !Stops(lines[j]) {
        if j > 0 {
          assert lines[1..][j - 1] == lines[j];
        }
      }
    }
    if Reaches(lines, k + 1) {
      forall j | 0 <= j < k ensures !Raises(lines[1..][j]) && !Stops(lines[1..][j]) {
        assert lines[1..][j] == lines[j + 1];
      }
    }
  }

  /** The reading raises exactly when it comes to a line that raises, and with what that line raises. */
  lemma {:induction false} ReadingRaisesIff(r: Reading, lines: seq<string>)
    ensures ReadLines(r, lines).Raised? <==> Fails(lines)
    ensures forall k: nat :: RaisesAt(lines, k) && ReadLines(r, lines).Raised? ==>
              ReadLines(r, lines).why == WhyAt(lines, k)
    decreases |lines|
  {
    if lines != [] {
      LineIs(r, lines[0]);
      if Raises(lines[0]) {
        assert RaisesAt(lines, 0);
      } else if !Stops(lines[0]) {
        var next := LineStep(r, lines[0]).r;
        ReadingRaisesIff(next, lines[1..]);
        forall k: nat ensures RaisesAt(lines[1..], k) <==> RaisesAt(lines, k + 1) {
          ReachesNext(lines, k);
        }
        forall k: nat | RaisesAt(lines, k) ensures k > 0 && RaisesAt(lines[1..], k - 1) {
          ReachesNext(lines, k - 1);
        }
      }
    }
  }

  lemma RaisedWhy(r: Reading, lines: seq<string>)
    requires ReadLines(r, lines).Raised?
    ensures ReadLines(r, lines).why == IndexError || ReadLines(r, lines).why == ValueError
  {
    ReadingRaisesIff(r, lines);
    var k: nat :| RaisesAt(lines, k);
    assert ReadLines(r, lines).why == WhyAt(lines, k);
  }

  /** A conversion raises ValueError or IndexError exactly when the reading comes to such a line. */
  lemma ConversionRaisesIff(text: string, family: int)
    ensures Converted(text, family).0 == Error(IndexError) || Converted(text, family).0 == Error(ValueError)
            <==> Fails(Lines(text))
    ensures forall k: nat :: RaisesAt(Lines(text), k) ==>
              Converted(text, family).0 == Error(WhyAt(Lines(text), k))
  {
    ReadingRaisesIff(NOTHING_READ, Lines(text));
    if ReadLines(NOTHING_READ, Lines(text)).Raised? {
      RaisedWhy(NOTHING_READ, Lines(text));
    }
  }
}
