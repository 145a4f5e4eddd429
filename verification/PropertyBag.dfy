// extract_property of main/utils.c: looking up a key in a text of the form k=v;k=v.

module PropertyBag {

  /** Overrun: the length of the value comes out negative, and the copy that follows is unbounded. */
  datatype Outcome = Absent | Value(text: string) | Overrun

  /** Where the segment that starts at i ends: at the next ';', or at the end of s. */
  function SegmentEnd(s: string, i: nat): (e: nat)
    requires i <= |s|
    ensures i <= e <= |s|
    decreases |s| - i
  {
    if i == |s| || s[i] == ';' then i else SegmentEnd(s, i + 1)
  }

  lemma {:induction false} SegmentEndIs(s: string, i: nat, e: nat)
    requires i <= e <= |s| && (e < |s| ==> s[e] == ';')
    requires forall k :: i <= k < e ==> s[k] != ';'
    ensures SegmentEnd(s, i) == e
    decreases e - i
  {
    if i < e {
      SegmentEndIs(s, i + 1, e);
    }
  }

  lemma {:induction false} NoSepInside(s: string, i: nat, k: nat)
    requires i <= |s| && i <= k < SegmentEnd(s, i)
    ensures s[k] != ';'
    decreases k - i
  {
    if i < k {
      NoSepInside(s, i + 1, k);
    }
  }

  lemma {:induction false} SepAtEnd(s: string, i: nat)
    requires i <= |s|
    ensures SegmentEnd(s, i) < |s| ==> s[SegmentEnd(s, i)] == ';'
    decreases |s| - i
  {
    if i < |s| && s[i] != ';' {
      SepAtEnd(s, i + 1);
    }
  }

  // ---- the search ----

  predicate Matches(bag: string, key: string, ptr: nat) {
    ptr + |key| < |bag| && bag[ptr + |key|] == '=' && bag[ptr..ptr + |key|] == key
  }

  /** The search from ptr on. */
  function Search(bag: string, key: string, ptr: nat): Outcome
    decreases |bag| - ptr
  {
    if ptr + |key| >= |bag| then Absent
    else
      var next := SegmentEnd(bag, ptr);
      if Matches(bag, key, ptr) then
        var start := ptr + |key| + 1;
        if next < start then Overrun else Value(bag[start..next])
      else Search(bag, key, if next < |bag| then next + 1 else next)
  }

  /** Lines 9-11: the end of the segment at ptr. */
  method FindEnd(bag: array<char>, ptr: nat) returns (next: nat)
    requires ptr <= bag.Length
    ensures next == SegmentEnd(bag[..], ptr)
  {
    next := ptr;
    while next < bag.Length && bag[next] != ';'
      invariant ptr <= next <= bag.Length
      invariant forall i :: ptr <= i < next ==> bag[i] != ';'
    {
      next := next + 1;
    }
    SegmentEndIs(bag[..], ptr, next);
  }

  /** The test of line 12, with memcmp written out. */
  method MatchesAt(bag: array<char>, key: string, ptr: nat) returns (same: bool)
    requires ptr + |key| < bag.Length
    ensures same == Matches(bag[..], key, ptr)
  {
    if bag[ptr + |key|] != '=' {
      return false;
    }
    var i := 0;
    while i < |key|
      invariant i <= |key|
      invariant forall k :: 0 <= k < i ==> bag[ptr + k] == key[k]
    {
      if bag[ptr + i] != key[i] {
        assert bag[..][ptr..ptr + |key|][i] != key[i];
        return false;
      }
      i := i + 1;
    }
    return true;
  }

  /** The copy of lines 15-17: the bytes from start up to end and a final zero. */
  method Copy(bag: array<char>, start: nat, end: nat) returns (r: array<char>)
    requires start <= end <= bag.Length
    ensures fresh(r) && r[..] == bag[..][start..end] + ['\0']
  {
    var n := end - start;
    r := new char[n + 1](_ => '\0');
    for i := 0 to n
      invariant r.Length == n + 1 && r[n] == '\0'
      invariant forall k :: 0 <= k < i ==> r[k] == bag[start + k]
    {
      r[i] := bag[start + i];
    }
  }

  /** Lines 12-19: the segment at ptr, which ends at next; Absent when it is not the one. */
  method TryAt(bag: array<char>, key: string, ptr: nat, next: nat) returns (outcome: Outcome, r: array?<char>)
    requires ptr + |key| < bag.Length && next <= bag.Length
    ensures outcome == if !Matches(bag[..], key, ptr) then Absent
                       else if next < ptr + |key| + 1 then Overrun
                       else Value(bag[..][ptr + |key| + 1..next])
    ensures outcome.Value? <==> r != null
    ensures r != null ==> fresh(r) && r[..] == outcome.text + ['\0']
  {
    var same := MatchesAt(bag, key, ptr);
    if !same {
      return Absent, null;
    }
    var start := ptr + |key| + 1;
    if next < start {
      return Overrun, null;
    }
    r := Copy(bag, start, next);
    return Value(bag[..][start..next]), r;
  }

  /** extract_property; outcome Overrun where the C code would copy a negative length. */
  method Extract(bag: array<char>, key: string) returns (outcome: Outcome, r: array?<char>)
    ensures outcome == Search(bag[..], key, 0)
    ensures outcome.Value? <==> r != null
    ensures r != null ==> fresh(r) && r[..] == outcome.text + ['\0']
  {
    var ptr := 0;
    while ptr + |key| < bag.Length
      invariant 0 <= ptr <= bag.Length
      invariant Search(bag[..], key, 0) == Search(bag[..], key, ptr)
      decreases bag.Length - ptr
    {
      var next := FindEnd(bag, ptr);
      outcome, r := TryAt(bag, key, ptr, next);
      if !outcome.Absent? {
        return;
      }
      if next < bag.Length {
        next := next + 1;
      }
      ptr := next;
    }
    return Absent, null;
  }

  // ---- what the search means ----

  /** s from i on, split at every ';'. */
  function Segments(s: string, i: nat): (segs: seq<string>)
    requires i <= |s|
    decreases |s| - i
  {
    var e := SegmentEnd(s, i);
    if e < |s| then [s[i..e]] + Segments(s, e + 1) else [s[i..e]]
  }

  predicate Starts(segment: string, key: string) {
    |segment| > |key| && segment[..|key|] == key && segment[|key|] == '='
  }

  /** The rest of the first segment that starts with key=. */
  function Lookup(segs: seq<string>, key: string): (o: Outcome)
    ensures o != Overrun
  {
    if segs == [] then Absent
    else if Starts(segs[0], key) then Value(segs[0][|key| + 1..])
    else Lookup(segs[1..], key)
  }

  lemma {:induction false} LookupCons(segment: string, rest: seq<string>, key: string)
    ensures Lookup([segment] + rest, key)
            == if Starts(segment, key) then Value(segment[|key| + 1..]) else Lookup(rest, key)
  {
    assert ([segment] + rest)[1..] == rest;
  }

  lemma {:induction false} LookupOne(segment: string, key: string)
    ensures Lookup([segment], key) == if Starts(segment, key) then Value(segment[|key| + 1..]) else Absent
  {
    assert [segment][1..] == [];
  }

  /** Looking up in the segments from i on starts with the first of them. */
  lemma {:induction false} LookupFrom(s: string, i: nat, key: string)
    requires i <= |s|
    ensures var e := SegmentEnd(s, i);
            Lookup(Segments(s, i), key)
            == if Starts(s[i..e], key) then Value(s[i..e][|key| + 1..])
               else if e < |s| then Lookup(Segments(s, e + 1), key) else Absent
  {
    var e := SegmentEnd(s, i);
    if e < |s| {
      LookupCons(s[i..e], Segments(s, e + 1), key);
    } else {
      LookupOne(s[i..e], key);
    }
  }

  lemma {:induction false} TooShort(s: string, i: nat, key: string)
    requires i <= |s| <= i + |key|
    ensures Lookup(Segments(s, i), key) == Absent
    decreases |s| - i
  {
    var e := SegmentEnd(s, i);
    LookupFrom(s, i, key);
    if e < |s| {
      TooShort(s, e + 1, key);
    }
  }

  /** Unless the key contains ';', a match lies within one segment. */
  lemma {:induction false} MatchInSegment(bag: string, key: string, ptr: nat)
    requires ptr <= |bag| && ';' !in key
    ensures Matches(bag, key, ptr) <==> Starts(bag[ptr..SegmentEnd(bag, ptr)], key)
  {
    var e := SegmentEnd(bag, ptr);
    SepAtEnd(bag, ptr);
    if Matches(bag, key, ptr) {
      forall k | ptr <= k <= ptr + |key| ensures bag[k] != ';' {
        if k < ptr + |key| {
          assert bag[k] == bag[ptr..ptr + |key|][k - ptr] && key[k - ptr] in key;
        }
      }
      assert bag[ptr..e][..|key|] == bag[ptr..ptr + |key|];
    } else if e - ptr > |key| {
      assert bag[ptr..e][..|key|] == bag[ptr..ptr + |key|];
    }
  }

  /** For a key without ';' the search is: split at ';', take the first segment that starts with key=,
      give back its rest. */
  lemma {:induction false} SearchIsLookup(bag: string, key: string, ptr: nat)
    requires ptr <= |bag| && ';' !in key
    ensures Search(bag, key, ptr) == Lookup(Segments(bag, ptr), key)
    decreases |bag| - ptr
  {
    var e := SegmentEnd(bag, ptr);
    if ptr + |key| >= |bag| {
      TooShort(bag, ptr, key);
    } else {
      MatchInSegment(bag, key, ptr);
      LookupFrom(bag, ptr, key);
      if Matches(bag, key, ptr) {
        assert bag[ptr..e][|key| + 1..] == bag[ptr + |key| + 1..e];
      } else if e < |bag| {
        SearchIsLookup(bag, key, e + 1);
      }
    }
  }

  lemma {:induction false} KeyAloneOverruns(key: string)
    requires ';' in key
    ensures Search(key + "=", key, 0) == Overrun
  {
    var bag := key + "=";
    var i :| 0 <= i < |key| && key[i] == ';';
    assert bag[i] == ';' && bag[0..|key|] == key && bag[|key|] == '=';
    if SegmentEnd(bag, 0) > i {
      NoSepInside(bag, 0, i);
    }
    assert Matches(bag, key, 0);
  }

  /** The copied length is never negative, whatever the bag, exactly for keys without ';'. */
  lemma {:induction false} SafeIff(key: string)
    ensures (forall bag :: Search(bag, key, 0) != Overrun) <==> ';' !in key
  {
    if ';' in key {
      KeyAloneOverruns(key);
    } else {
      forall bag: string ensures Search(bag, key, 0) != Overrun {
        SearchIsLookup(bag, key, 0);
      }
    }
  }

  // ---- the inverse: a bag made of pairs ----

  datatype Pair = Pair(key: string, value: string)

  predicate Plain(p: Pair) {
    ';' !in p.key && '=' !in p.key && ';' !in p.value
  }

  function Text(p: Pair): string {
    p.key + "=" + p.value
  }

  function Joined(ps: seq<Pair>): string {
    if ps == [] then ""
    else if |ps| == 1 then Text(ps[0])
    else Text(ps[0]) + ";" + Joined(ps[1..])
  }

  /** The value of the first pair with this key. */
  function First(ps: seq<Pair>, key: string): Outcome {
    if ps == [] then Absent else if ps[0].key == key then Value(ps[0].value) else First(ps[1..], key)
  }

  /** The end of a segment, and the split, do not depend on what comes before. */
  lemma {:induction false} ShiftedEnd(before: string, s: string, i: nat)
    requires i <= |s|
    ensures SegmentEnd(before + s, |before| + i) == |before| + SegmentEnd(s, i)
    decreases |s| - i
  {
    if i < |s| && s[i] != ';' {
      ShiftedEnd(before, s, i + 1);
    }
  }

  lemma {:induction false} ShiftedSegments(before: string, s: string, i: nat)
    requires i <= |s|
    ensures Segments(before + s, |before| + i) == Segments(s, i)
    decreases |s| - i
  {
    var e := SegmentEnd(s, i);
    ShiftedEnd(before, s, i);
    var t := before + s;
    assert t[|before| + i..|before| + e] == s[i..e];
    if e < |s| {
      ShiftedSegments(before, s, e + 1);
      assert Segments(t, |before| + i) == [s[i..e]] + Segments(t, |before| + e + 1);
    } else {
      assert Segments(t, |before| + i) == [s[i..e]];
    }
  }

  lemma {:induction false} SegmentsOf(x: string, rest: string)
    requires ';' !in x
    ensures Segments(x, 0) == [x] && Segments(x + ";" + rest, 0) == [x] + Segments(rest, 0)
  {
    var s := x + ";" + rest;
    SegmentEndIs(x, 0, |x|);
    SegmentEndIs(s, 0, |x|);
    assert s[0..|x|] == x && x[0..|x|] == x;
    ShiftedSegments(x + ";", rest, 0);
  }

  lemma {:induction false} TextStarts(p: Pair, key: string)
    requires Plain(p) && '=' !in key
    ensures Starts(Text(p), key) <==> p.key == key
    ensures Text(p)[|p.key| + 1..] == p.value && ';' !in Text(p)
  {
    var t := Text(p);
    assert t[|p.key|] == '=' && t[..|p.key|] == p.key;
    forall i | 0 <= i < |p.key| ensures t[i] != '=' {
      assert p.key[i] in p.key;
    }
    if Starts(t, key) {
      forall i | 0 <= i < |key| ensures t[i] != '=' {
        assert t[..|key|][i] == key[i] && key[i] in key;
      }
    }
  }

  /** Looking a key up in joined pairs gives the value of the first pair with that key. */
  lemma {:induction false} JoinedLooksUp(ps: seq<Pair>, key: string)
    requires (forall i :: 0 <= i < |ps| ==> Plain(ps[i])) && '=' !in key
    ensures Lookup(Segments(Joined(ps), 0), key) == First(ps, key)
    decreases |ps|
  {
    if ps == [] {
      TooShort("", 0, key);
    } else {
      TextStarts(ps[0], key);
      SegmentsOf(Text(ps[0]), Joined(ps[1..]));
      if |ps| > 1 {
        JoinedLooksUp(ps[1..], key);
        LookupCons(Text(ps[0]), Segments(Joined(ps[1..]), 0), key);
      } else {
        LookupOne(Text(ps[0]), key);
      }
    }
  }

  /** Extraction inverts joining. */
  lemma {:induction false} ExtractInvertsJoin(ps: seq<Pair>, key: string)
    requires (forall i :: 0 <= i < |ps| ==> Plain(ps[i])) && '=' !in key && ';' !in key
    ensures Search(Joined(ps), key, 0) == First(ps, key)
  {
    SearchIsLookup(Joined(ps), key, 0);
    JoinedLooksUp(ps, key);
  }
}
