/** JPEG: the segment walk, the size reader, and the removal of metadata segments. */
module Jpeg {
  import opened Prelude
  import opened Bytes

  // ----- Markers -----

  /** Markers that carry no length field. */
  predicate Standalone(marker: Byte) {
    marker == 0xd8 || marker == 0x01 || 0xd0 <= marker <= 0xd7
  }

  /** EXIF and XMP (APP1), IPTC (APP13) and comments (COM). */
  predicate Metadata(marker: Byte) {
    marker == 0xe1 || marker == 0xed || marker == 0xfe
  }

  predicate Sof(marker: Byte) {
    0xc0 <= marker <= 0xcf && marker != 0xc4 && marker != 0xc8 && marker != 0xcc
  }

  // ----- The walk, over what is left of the file after the SOI marker -----

  predicate AtSegment(s: seq<Byte>) {
    |s| >= 4 && s[0] == 0xff && s[1] != 0xda
  }

  /** Bytes of the segment in front, cut at the end of the file. */
  function SegmentLength(s: seq<Byte>): (n: nat)
    requires AtSegment(s)
    ensures 2 <= n <= |s|
  {
    if Standalone(s[1]) then 2 else Min(2 + U16BE(s[2], s[3]), |s|)
  }

  function Segments(s: seq<Byte>): seq<seq<Byte>>
    decreases |s|
  {
    if !AtSegment(s) then [] else [s[..SegmentLength(s)]] + Segments(s[SegmentLength(s)..])
  }

  /** Where the walk stops: scan data, or bytes that are no segment. */
  function Tail(s: seq<Byte>): seq<Byte>
    decreases |s|
  {
    if !AtSegment(s) then s else Tail(s[SegmentLength(s)..])
  }

  function Keep(): seq<Byte> -> bool {
    (g: seq<Byte>) => |g| < 2 || !Metadata(g[1])
  }

  /** The segments that are not metadata, in order. */
  function Kept(s: seq<Byte>): seq<seq<Byte>> {
    Filter(Segments(s), Keep())
  }

  /** What is left of the walk without its metadata segments. */
  function Strip(s: seq<Byte>): seq<Byte> {
    Concat(Kept(s)) + Tail(s)
  }

  /** The whole file: two bytes of SOI, then the walk. */
  function Stripped(buf: seq<Byte>): seq<Byte> {
    Sub(buf, 0, 2) + Strip(Rest(buf, 2))
  }

  /** One step of the walk. */
  lemma WalkStep(s: seq<Byte>)
    requires AtSegment(s)
    ensures var g, rest := s[..SegmentLength(s)], s[SegmentLength(s)..];
            && Segments(s) == [g] + Segments(rest)
            && Kept(s) == (if Metadata(s[1]) then [] else [g]) + Kept(rest)
            && Tail(s) == Tail(rest)
  {
    var g, rest := s[..SegmentLength(s)], s[SegmentLength(s)..];
    assert Segments(s) == [g] + Segments(rest);
    assert Segments(s)[0] == g && Segments(s)[1..] == Segments(rest);
  }

  lemma WalkStops(s: seq<Byte>)
    requires !AtSegment(s)
    ensures Segments(s) == [] && Kept(s) == [] && Tail(s) == s
  {}

  // ----- The same walk, by index -----

  predicate SegmentAt(buf: seq<Byte>, i: nat) {
    i + 4 <= |buf| && buf[i] == 0xff && buf[i + 1] != 0xda
  }

  /** The index after the segment at `i`; it may lie beyond the end of the file. */
  function NextAt(buf: seq<Byte>, i: nat): (n: nat)
    requires SegmentAt(buf, i)
    ensures n > i
  {
    i + if Standalone(buf[i + 1]) then 2 else 2 + U16BE(buf[i + 2], buf[i + 3])
  }

  /** The loop as a function of its index and of the slices pushed so far. */
  function Loop(buf: seq<Byte>, i: nat, pieces: seq<seq<Byte>>): seq<seq<Byte>>
    decreases |buf| - i
  {
    if !SegmentAt(buf, i) then pieces
    else Loop(buf, NextAt(buf, i),
              if Metadata(buf[i + 1]) then pieces else pieces + [Sub(buf, i, NextAt(buf, i))])
  }

  /** The index the loop stops at. */
  function StopAt(buf: seq<Byte>, i: nat): nat
    decreases |buf| - i
  {
    if !SegmentAt(buf, i) then i else StopAt(buf, NextAt(buf, i))
  }

  lemma StepByIndex(buf: seq<Byte>, i: nat)
    requires SegmentAt(buf, i)
    ensures var s := Rest(buf, i);
            && AtSegment(s) && s[1] == buf[i + 1]
            && s[..SegmentLength(s)] == Sub(buf, i, NextAt(buf, i))
            && s[SegmentLength(s)..] == Rest(buf, NextAt(buf, i))
  {
    SubRest(buf, i, NextAt(buf, i) - i);
  }

  lemma KeptByIndex(buf: seq<Byte>, i: nat)
    requires SegmentAt(buf, i)
    ensures Kept(Rest(buf, i)) == (if Metadata(buf[i + 1]) then [] else [Sub(buf, i, NextAt(buf, i))])
                                  + Kept(Rest(buf, NextAt(buf, i)))
  {
    StepByIndex(buf, i);
    WalkStep(Rest(buf, i));
  }

  lemma {:induction false} LoopIsWalk(buf: seq<Byte>, i: nat, pieces: seq<seq<Byte>>)
    ensures Loop(buf, i, pieces) == pieces + Kept(Rest(buf, i))
    decreases |buf| - i
  {
    if SegmentAt(buf, i) {
      var next := NextAt(buf, i);
      var head: seq<seq<Byte>> := if Metadata(buf[i + 1]) then [] else [Sub(buf, i, next)];
      var tail := Kept(Rest(buf, next));
      assert Kept(Rest(buf, i)) == head + tail by { KeptByIndex(buf, i); }
      Regroup(pieces, head, tail);
      Regroup(pieces, [], []);
      LoopIsWalk(buf, next, pieces + head);
    } else {
      WalkStops(Rest(buf, i));
    }
  }

  lemma {:induction false} StopIsTail(buf: seq<Byte>, i: nat)
    ensures Rest(buf, StopAt(buf, i)) == Tail(Rest(buf, i))
    decreases |buf| - i
  {
    if SegmentAt(buf, i) {
      StepByIndex(buf, i);
      StopIsTail(buf, NextAt(buf, i));
    }
  }

  method StripJpeg(buf: seq<Byte>) returns (out: seq<Byte>)
    ensures out == Stripped(buf)
  {
    var pieces: seq<seq<Byte>>, i := [], 2;
    while i + 4 <= |buf|
      invariant Loop(buf, i, pieces) == Loop(buf, 2, [])
      invariant StopAt(buf, i) == StopAt(buf, 2)
      decreases |buf| - i
    {
      if buf[i] != 0xff { break; }
      var marker := buf[i + 1];
      if marker == 0xda { break; }
      if Standalone(marker) {
        pieces := pieces + [Sub(buf, i, i + 2)];
        i := i + 2;
        continue;
      }
      var length := U16BE(buf[i + 2], buf[i + 3]);
      if !Metadata(marker) { pieces := pieces + [Sub(buf, i, i + 2 + length)]; }
      i := i + 2 + length;
    }
    LoopIsWalk(buf, 2, []);
    StopIsTail(buf, 2);
    assert pieces == Kept(Rest(buf, 2)) && Rest(buf, i) == Tail(Rest(buf, 2));
    out := Sub(buf, 0, 2) + (Concat(pieces) + Rest(buf, i));
  }

  /** The size in the first SOF segment, height before width; junk between segments is skipped byte by byte. */
  function Size(s: seq<Byte>): Option<(nat, nat)>
    decreases |s|
  {
    if |s| <= 9 then None
    else if s[0] != 0xff then Size(s[1..])
    else if Standalone(s[1]) then Size(s[2..])
    else if Sof(s[1]) then Some((U16BE(s[5], s[6]), U16BE(s[7], s[8])))
    else if s[1] == 0xda then None
    else Size(Rest(s, 2 + U16BE(s[2], s[3])))
  }

  /** The same, from an index. */
  function SizeAt(buf: seq<Byte>, i: nat): Option<(nat, nat)>
    decreases |buf| - i
  {
    if i + 9 >= |buf| then None
    else if buf[i] != 0xff then SizeAt(buf, i + 1)
    else if Standalone(buf[i + 1]) then SizeAt(buf, i + 2)
    else if Sof(buf[i + 1]) then Some((U16BE(buf[i + 5], buf[i + 6]), U16BE(buf[i + 7], buf[i + 8])))
    else if buf[i + 1] == 0xda then None
    else SizeAt(buf, i + 2 + U16BE(buf[i + 2], buf[i + 3]))
  }

  lemma {:induction false} SizeByIndex(buf: seq<Byte>, i: nat)
    ensures SizeAt(buf, i) == Size(Rest(buf, i))
    decreases |buf| - i
  {
    if i + 9 < |buf| {
      var s := Rest(buf, i);
      if buf[i] != 0xff {
        assert s[1..] == Rest(buf, i + 1);
        SizeByIndex(buf, i + 1);
      } else if Standalone(buf[i + 1]) {
        assert s[2..] == Rest(buf, i + 2);
        SizeByIndex(buf, i + 2);
      } else if !Sof(buf[i + 1]) && buf[i + 1] != 0xda {
        var n := 2 + U16BE(buf[i + 2], buf[i + 3]);
        assert Rest(s, n) == Rest(buf, i + n);
        SizeByIndex(buf, i + n);
      }
    }
  }

  method JpegSize(buf: seq<Byte>) returns (size: Option<(nat, nat)>)
    ensures size == Size(Rest(buf, 2))
  {
    SizeByIndex(buf, 2);
    var i := 2;
    while i + 9 < |buf|
      invariant SizeAt(buf, i) == SizeAt(buf, 2)
      decreases |buf| - i
    {
      if buf[i] != 0xff {
        i := i + 1;
        continue;
      }
      var marker := buf[i + 1];
      if Standalone(marker) {
        i := i + 2;
        continue;
      }
      var length := U16BE(buf[i + 2], buf[i + 3]);
      if Sof(marker) {
        return Some((U16BE(buf[i + 5], buf[i + 6]), U16BE(buf[i + 7], buf[i + 8])));
      }
      if marker == 0xda { return None; }
      i := i + 2 + length;
    }
    size := None;
  }

  // ----- What stripping does -----

  lemma ConcatFront(g: seq<Byte>, more: seq<seq<Byte>>, tail: seq<Byte>)
    ensures Concat([g] + more) + tail == g + (Concat(more) + tail)
  {
    assert ([g] + more)[1..] == more;
    Regroup(g, Concat(more), tail);
  }

  /** The walk loses nothing. */
  lemma {:induction false} WalkIsWhole(s: seq<Byte>)
    ensures Concat(Segments(s)) + Tail(s) == s
    decreases |s|
  {
    if AtSegment(s) {
      WalkIsWhole(s[SegmentLength(s)..]);
      WholeAtSegment(s, s[..SegmentLength(s)], s[SegmentLength(s)..]);
    } else {
      WholeAtTail(s);
    }
  }

  lemma WholeAtTail(s: seq<Byte>)
    requires !AtSegment(s)
    ensures Concat(Segments(s)) + Tail(s) == s
  {
    WalkStops(s);
    Regroup([], [], s);
  }

  lemma WholeAtSegment(s: seq<Byte>, g: seq<Byte>, rest: seq<Byte>)
    requires AtSegment(s) && g == s[..SegmentLength(s)] && rest == s[SegmentLength(s)..]
    requires Concat(Segments(rest)) + Tail(rest) == rest
    ensures Concat(Segments(s)) + Tail(s) == s
  {
    BareStep(s);
    WholeStep(g, rest, Segments(rest), Tail(rest));
    Halves(s, SegmentLength(s));
  }

  lemma Halves(s: seq<Byte>, n: nat)
    requires n <= |s|
    ensures s[..n] + s[n..] == s
  {}

  lemma BareStep(s: seq<Byte>)
    requires AtSegment(s)
    ensures Segments(s) == [s[..SegmentLength(s)]] + Segments(s[SegmentLength(s)..]) && Tail(s) == Tail(s[SegmentLength(s)..])
  {}

  lemma WholeStep(g: seq<Byte>, rest: seq<Byte>, more: seq<seq<Byte>>, tail: seq<Byte>)
    requires Concat(more) + tail == rest
    ensures Concat([g] + more) + tail == g + rest
  {
    ConcatFront(g, more, tail);
  }

  lemma StripStep(s: seq<Byte>)
    requires AtSegment(s)
    ensures var g, rest := s[..SegmentLength(s)], s[SegmentLength(s)..];
            Strip(s) == if Metadata(s[1]) then Strip(rest) else g + Strip(rest)
  {
    var g, rest := s[..SegmentLength(s)], s[SegmentLength(s)..];
    WalkStep(s);
    if Metadata(s[1]) {
      assert Kept(s) == Kept(rest);
    } else {
      ConcatFront(g, Kept(rest), Tail(rest));
    }
  }

  lemma StripAtTail(s: seq<Byte>)
    requires !AtSegment(s)
    ensures Strip(s) == s
  {
    Regroup([], [], s);
  }

  lemma {:induction false} StripShrinks(s: seq<Byte>)
    ensures |Strip(s)| <= |s|
    decreases |s|
  {
    if AtSegment(s) {
      StripShrinks(s[SegmentLength(s)..]);
      StripStep(s);
    } else {
      StripAtTail(s);
    }
  }

  /** A kept segment in front of stripped bytes is walked as before, unless it is a bare marker with nothing to follow. */
  lemma FrontSegment(s: seq<Byte>)
    requires AtSegment(s)
    ensures var n := SegmentLength(s);
            var g, x := s[..n], Strip(s[n..]);
            && (AtSegment(g + x) <==> !Standalone(s[1]) || |x| >= 2)
            && (AtSegment(g + x) ==> SegmentLength(g + x) == n && (g + x)[..n] == g && (g + x)[n..] == x)
            && (!Standalone(s[1]) ==> (g + x)[2] == s[2] && (g + x)[3] == s[3])
            && (!Standalone(s[1]) && n != 2 + U16BE(s[2], s[3]) ==> g + x == s)
  {
    var n := SegmentLength(s);
    var g, rest := s[..n], s[n..];
    assert g + rest == s;
    if !Standalone(s[1]) && n < 4 {
      assert rest[0] == s[n] && !AtSegment(rest);
    }
    if !AtSegment(rest) { StripAtTail(rest); }
  }

  /** Walking and stripping a kept segment in front of stripped bytes. */
  lemma FrontWalk(s: seq<Byte>)
    requires AtSegment(s) && !Metadata(s[1])
    ensures var n := SegmentLength(s);
            var g, x := s[..n], Strip(s[n..]);
            if AtSegment(g + x)
            then Segments(g + x) == [g] + Segments(x) && Tail(g + x) == Tail(x) && Strip(g + x) == g + Strip(x)
            else Segments(g + x) == [] && Tail(g + x) == g + x && Strip(g + x) == g + x
  {
    var n := SegmentLength(s);
    var g, x := s[..n], Strip(s[n..]);
    FrontSegment(s);
    if AtSegment(g + x) {
      WalkStep(g + x);
      StripStep(g + x);
    } else {
      StripAtTail(g + x);
    }
  }

  /** The last kept segment is a bare marker and fewer than two bytes follow it. */
  predicate DanglingMarker(s: seq<Byte>) {
    Kept(s) != [] && |Kept(s)[|Kept(s)| - 1]| >= 2 && Standalone(Kept(s)[|Kept(s)| - 1][1]) && |Tail(s)| < 2
  }

  lemma {:induction false} KeptSize(parts: seq<seq<Byte>>)
    requires forall g :: g in parts ==> |g| >= 2
    ensures |Concat(parts)| >= 2 * |parts|
  {
    if parts != [] {
      KeptSize(parts[1..]);
      assert parts[0] in parts;
    }
  }

  lemma {:induction false} SegmentsAreLong(s: seq<Byte>)
    ensures forall g :: g in Segments(s) ==> |g| >= 2
    decreases |s|
  {
    if AtSegment(s) {
      WalkStep(s);
      SegmentsAreLong(s[SegmentLength(s)..]);
    }
  }

  lemma KeptAreLong(s: seq<Byte>)
    ensures |Concat(Kept(s))| >= 2 * |Kept(s)|
  {
    SegmentsAreLong(s);
    forall p | p in Kept(s) ensures |p| >= 2 { FilterIn(Segments(s), Keep(), p); }
    KeptSize(Kept(s));
  }

  /** The walk over the stripped file is the walk over the file without its metadata segments. */
  predicate WalkSurvives(s: seq<Byte>) {
    Segments(Strip(s)) == Kept(s) && Tail(Strip(s)) == Tail(s)
  }

  /** It is so unless removing the metadata left a bare marker at the very end. */
  lemma {:induction false} WalkAfterStrip(s: seq<Byte>)
    ensures WalkSurvives(s) <==> !DanglingMarker(s)
    decreases |s|
  {
    if AtSegment(s) {
      var rest := s[SegmentLength(s)..];
      WalkAfterStrip(rest);
      if Metadata(s[1]) { DroppedFront(s); } else { WalkAfterFront(s); }
    } else {
      StripAtTail(s);
      assert Kept(s) == [];
    }
  }

  lemma DroppedFront(s: seq<Byte>)
    requires AtSegment(s) && Metadata(s[1])
    ensures var rest := s[SegmentLength(s)..];
            (WalkSurvives(s) <==> WalkSurvives(rest)) && (DanglingMarker(s) <==> DanglingMarker(rest))
  {
    WalkStep(s);
    StripStep(s);
  }

  lemma WalkAfterFront(s: seq<Byte>)
    requires AtSegment(s) && !Metadata(s[1])
    requires var rest := s[SegmentLength(s)..];
             WalkSurvives(rest) <==> !DanglingMarker(rest)
    ensures WalkSurvives(s) <==> !DanglingMarker(s)
  {
    var g, rest := s[..SegmentLength(s)], s[SegmentLength(s)..];
    var x := Strip(rest);
    WalkStep(s);
    StripStep(s);
    FrontWalk(s);
    assert Kept(s)[0] == g && Kept(s)[1..] == Kept(rest);
    if AtSegment(g + x) {
      assert Segments(g + x)[0] == g && Segments(g + x)[1..] == Segments(x);
      FrontDangles(s);
    } else {
      FrontSegment(s);
      KeptAreLong(rest);
      assert Kept(rest) == [] && Kept(s) == [g];
      assert Concat(Kept(rest)) + Tail(rest) == Tail(rest);
    }
  }

  /** A kept front segment that still has something behind it decides nothing about the end. */
  lemma FrontDangles(s: seq<Byte>)
    requires AtSegment(s) && !Metadata(s[1])
    requires AtSegment(s[..SegmentLength(s)] + Strip(s[SegmentLength(s)..]))
    ensures DanglingMarker(s) <==> DanglingMarker(s[SegmentLength(s)..])
  {
    var rest := s[SegmentLength(s)..];
    WalkStep(s);
    FrontSegment(s);
    if Kept(rest) == [] {
      assert Strip(rest) == Tail(rest);
      assert Kept(s) == [s[..SegmentLength(s)]];
    } else {
      assert Kept(s)[|Kept(s)| - 1] == Kept(rest)[|Kept(rest)| - 1];
    }
  }

  /** Stripping twice is stripping once. */
  lemma {:induction false} StripIdempotent(s: seq<Byte>)
    ensures Strip(Strip(s)) == Strip(s)
    decreases |s|
  {
    if AtSegment(s) {
      StripIdempotent(s[SegmentLength(s)..]);
      StripStep(s);
      if !Metadata(s[1]) { FrontWalk(s); }
    } else {
      StripAtTail(s);
    }
  }

  lemma StrippedIdempotent(buf: seq<Byte>)
    ensures Stripped(Stripped(buf)) == Stripped(buf)
  {
    StripIdempotent(Rest(buf, 2));
    if |buf| >= 2 {
      assert Rest(Stripped(buf), 2) == Strip(Rest(buf, 2));
    } else {
      StripAtTail([]);
    }
  }

  /** No metadata segment is found on the walk over a stripped file. */
  lemma {:induction false} NoMetadataLeft(s: seq<Byte>)
    ensures forall g :: g in Segments(Strip(s)) ==> |g| >= 2 && !Metadata(g[1])
    decreases |s|
  {
    if AtSegment(s) {
      NoMetadataLeft(s[SegmentLength(s)..]);
      StripStep(s);
      if !Metadata(s[1]) { FrontWalk(s); }
    } else {
      StripAtTail(s);
    }
  }

  /** A declared length with which a SOF segment reads its size from itself, or from bytes that all stay. */
  predicate SafeSofLength(length: nat) {
    length < 2 || length >= 8
  }

  /** Behind `n` bytes, both go on with the same size fields, which are the bytes 5 to 8. */
  predicate SizeBytesAgree(n: nat, more: seq<Byte>, left: seq<Byte>)
    requires n + |more| > 9 && n + |left| > 9
  {
    forall k :: 0 <= k < 9 - n && 5 <= n + k ==> left[k] == more[k]
  }

  /** The bytes a short SOF segment borrows for its size are the same once what follows it is stripped. */
  predicate BorrowedStay(s: seq<Byte>)
    requires AtSegment(s)
  {
    var n := SegmentLength(s);
    var more, left := s[n..], Concat(Kept(s[n..])) + Tail(s[n..]);
    |s| <= 9 || (n + |left| > 9 && SizeBytesAgree(n, more, left))
  }

  /** The first SOF segment on the walk, if there is one, is long enough, or borrows bytes that stay. */
  predicate SofKeepsItsSize(s: seq<Byte>)
    decreases |s|
  {
    AtSegment(s) ==>
      if Sof(s[1]) then SafeSofLength(U16BE(s[2], s[3])) || BorrowedStay(s)
      else SofKeepsItsSize(s[SegmentLength(s)..])
  }

  /** The measured size survives exactly when the first SOF segment keeps it. */
  lemma {:induction false} SizeSurvives(s: seq<Byte>)
    ensures Size(Strip(s)) == Size(s) <==> SofKeepsItsSize(s)
    decreases |s|
  {
    if AtSegment(s) {
      var g, rest := s[..SegmentLength(s)], s[SegmentLength(s)..];
      var x := Strip(rest);
      StripShrinks(rest);
      StripStep(s);
      if Sof(s[1]) {
        if SafeSofLength(U16BE(s[2], s[3])) { SofInFront(s); } else { ShortSofInFront(s, x); }
      } else if Metadata(s[1]) {
        SizeSurvives(rest);
        SizeSkips(s);
      } else {
        SizeSurvives(rest);
        FrontSegment(s);
        SizeSkips(s);
        if AtSegment(g + x) { SizeSkips(g + x); }
      }
    } else {
      StripAtTail(s);
    }
  }

  /** A SOF segment declaring two to seven bytes ends before the size fields do. */
  lemma ShortSofInFront(s: seq<Byte>, left: seq<Byte>)
    requires AtSegment(s) && Sof(s[1]) && 2 <= U16BE(s[2], s[3]) <= 7
    requires left == Strip(s[SegmentLength(s)..]) && |left| <= |s| - SegmentLength(s)
    ensures Size(s[..SegmentLength(s)] + left) == Size(s) <==> BorrowedStay(s)
  {
    var n := SegmentLength(s);
    var g, more := s[..n], s[n..];
    assert g + more == s;
    assert left == Concat(Kept(more)) + Tail(more);
    if |s| > 9 && n + |left| > 9 { SizeBehind(g, more, left); }
  }

  lemma SizeBehind(g: seq<Byte>, more: seq<Byte>, left: seq<Byte>)
    requires |g| >= 2 && g[0] == 0xff && Sof(g[1]) && |g| + |more| > 9 && |g| + |left| > 9
    ensures Size(g + left) == Size(g + more) <==> SizeBytesAgree(|g|, more, left)
  {
    SizeIsFields(g + more, g + left);
    FieldsBehind(g, more, left, |g|);
  }

  lemma FieldsBehind(g: seq<Byte>, more: seq<Byte>, left: seq<Byte>, n: nat)
    requires |g| == n && n + |more| > 9 && n + |left| > 9
    ensures (forall k :: 5 <= k < 9 ==> (g + left)[k] == (g + more)[k]) <==> SizeBytesAgree(n, more, left)
  {
    forall k | 5 <= k < 9 ensures (g + left)[k] == (g + more)[k] <==> (k < n || left[k - n] == more[k - n]) {}
    if forall k :: 5 <= k < 9 ==> (g + left)[k] == (g + more)[k] {
      forall k | 0 <= k < 9 - n && 5 <= n + k ensures left[k] == more[k] { assert (g + left)[n + k] == (g + more)[n + k]; }
    }
  }

  lemma SizeIsFields(s: seq<Byte>, t: seq<Byte>)
    requires |s| > 9 && |t| > 9 && s[0] == t[0] == 0xff && s[1] == t[1] && Sof(s[1])
    ensures Size(t) == Size(s) <==> forall k :: 5 <= k < 9 ==> t[k] == s[k]
  {
    U16Apart(s[5], s[6], t[5], t[6]);
    U16Apart(s[7], s[8], t[7], t[8]);
  }

  /** A segment that is no SOF contributes nothing to the size. */
  lemma SizeSkips(s: seq<Byte>)
    requires AtSegment(s) && !Sof(s[1])
    ensures Size(s) == Size(s[SegmentLength(s)..])
  {
    if !Standalone(s[1]) {
      assert |s| > 9 ==> Rest(s, 2 + U16BE(s[2], s[3])) == s[SegmentLength(s)..];
    }
  }

  /** A safe SOF segment in front decides the size whatever follows it. */
  lemma SofInFront(s: seq<Byte>)
    requires AtSegment(s) && Sof(s[1]) && SafeSofLength(U16BE(s[2], s[3]))
    ensures Size(s[..SegmentLength(s)] + Strip(s[SegmentLength(s)..])) == Size(s)
  {
    var n := SegmentLength(s);
    if U16BE(s[2], s[3]) < 2 {
      WalkStopsAtShort(s);
    } else if n == |s| {
      assert s[n..] == [] && s[..n] + [] == s;
      StripAtTail(s[n..]);
    } else {
      SizeIsInHeader(s, s[..n] + Strip(s[n..]));
    }
  }

  /** After a length below two the next segment would begin inside this one's header, so the walk stops. */
  lemma WalkStopsAtShort(s: seq<Byte>)
    requires AtSegment(s) && Sof(s[1]) && U16BE(s[2], s[3]) < 2
    ensures s[..SegmentLength(s)] + Strip(s[SegmentLength(s)..]) == s
  {
    var n := SegmentLength(s);
    assert s[2] == 0 && s[n..][0] == s[n] && !AtSegment(s[n..]);
    StripAtTail(s[n..]);
  }

  lemma SizeIsInHeader(s: seq<Byte>, t: seq<Byte>)
    requires |s| >= 10 && |t| >= 10 && forall k :: 0 <= k < 10 ==> s[k] == t[k]
    requires s[0] == 0xff && Sof(s[1])
    ensures Size(t) == Size(s)
  {}

  /** The header of a SOF segment: marker and declared length. */
  predicate SofHeader(h: seq<Byte>) {
    |h| == 4 && h[0] == 0xff && Sof(h[1])
  }

  /** A segment that is all there and is no SOF. */
  predicate WholeSegment(g: seq<Byte>) {
    && |g| >= 2 && g[0] == 0xff && g[1] != 0xda && !Sof(g[1])
    && if Standalone(g[1]) then |g| == 2 else |g| >= 4 && |g| == 2 + U16BE(g[2], g[3])
  }

  predicate WholeSegments(parts: seq<seq<Byte>>) {
    forall g :: g in parts ==> WholeSegment(g)
  }

  lemma FrontOf(g: seq<Byte>, x: seq<Byte>)
    requires WholeSegment(g) && |x| >= 2
    ensures AtSegment(g + x) && SegmentLength(g + x) == |g| && (g + x)[..|g|] == g && (g + x)[|g|..] == x
    ensures Size(g + x) == Size(x)
  {
    assert (g + x)[..|g|] == g && (g + x)[|g|..] == x;
    SizeSkips(g + x);
  }

  lemma FrontSkips(g: seq<Byte>, x: seq<Byte>)
    requires WholeSegment(g) && |x| >= 2 && |Strip(x)| >= 2
    ensures Size(g + x) == Size(x) && Size(Strip(g + x)) == Size(Strip(x)) && |Strip(g + x)| >= 2
  {
    FrontOf(g, x);
    FrontOf(g, Strip(x));
    StripStep(g + x);
  }

  /** Whole segments before the first SOF have no part in the size, before stripping or after. */
  lemma {:induction false} SegmentsInFrontSkip(parts: seq<seq<Byte>>, x: seq<Byte>)
    requires WholeSegments(parts) && |x| >= 2 && |Strip(x)| >= 2
    ensures var s := Concat(parts) + x;
            |s| >= 2 && |Strip(s)| >= 2 && Size(s) == Size(x) && Size(Strip(s)) == Size(Strip(x))
  {
    if parts == [] {
      assert Concat(parts) + x == x;
    } else {
      assert parts[0] in parts && forall g :: g in parts[1..] ==> g in parts;
      SegmentsInFrontSkip(parts[1..], x);
      FrontSkips(parts[0], Concat(parts[1..]) + x);
      Regroup(parts[0], Concat(parts[1..]), x);
    }
  }

  lemma SofStays(x: seq<Byte>)
    requires AtSegment(x) && Sof(x[1])
    ensures |Strip(x)| >= 2
  {
    StripStep(x);
  }

  lemma BehindSegments(parts: seq<seq<Byte>>, h: seq<Byte>, more: seq<Byte>)
    requires WholeSegments(parts) && SofHeader(h)
    ensures SizeKept(Concat(parts) + (h + more)) <==> SizeKept(h + more)
  {
    SofStays(h + more);
    SegmentsInFrontSkip(parts, h + more);
  }

  lemma UnsafeLength(h: seq<Byte>) returns (more: seq<Byte>)
    requires SofHeader(h) && !SafeSofLength(U16BE(h[2], h[3]))
    ensures !SizeKept(h + more)
  {
    var k: nat := U16BE(h[2], h[3]) - 2;
    var exif: seq<Byte> := [0xff, 0xe1, 0, 8, 0, 0, 0, 0, 0, 0];
    ShortSofChangesSize(h, k, exif);
    more := seq(k, _ => 0) + exif;
  }

  /** Behind any whole segments, and whatever follows, the size survives exactly when the length in the SOF header is safe. */
  lemma SofLengthIsExact(parts: seq<seq<Byte>>, h: seq<Byte>)
    requires WholeSegments(parts) && SofHeader(h)
    ensures (forall more :: SizeKept(Concat(parts) + (h + more))) <==> SafeSofLength(U16BE(h[2], h[3]))
  {
    if SafeSofLength(U16BE(h[2], h[3])) {
      forall more ensures SizeKept(Concat(parts) + (h + more)) {
        SizeSurvives(h + more);
        BehindSegments(parts, h, more);
      }
    } else {
      var more := UnsafeLength(h);
      BehindSegments(parts, h, more);
    }
  }

  predicate SizeKept(s: seq<Byte>) { Size(Strip(s)) == Size(s) }

  /** A SOF segment that ends too early borrows from a segment that stripping removes. */
  lemma ShortSofChangesSize(h: seq<Byte>, k: nat, exif: seq<Byte>)
    requires SofHeader(h) && 2 <= U16BE(h[2], h[3]) <= 7 && k == U16BE(h[2], h[3]) - 2
    requires |exif| == 10 && exif[0] == 0xff && exif[1] == 0xe1 && U16BE(exif[2], exif[3]) == 8
    ensures var s := h + (seq(k, _ => 0) + exif); Size(Strip(s)) == None && Size(s).Some?
  {
    var pad: seq<Byte> := seq(k, _ => 0);
    var s := h + (pad + exif);
    assert s[..4 + k] == h + pad && s[4 + k..] == exif;
    StripStep(s);
    StripStep(exif);
    assert exif[10..] == [];
    StripAtTail([]);
    assert Strip(s) == h + pad + [];
  }

  /** Stripping leaves a marker in front exactly when a segment is kept, or none is and the tail begins with one. */
  lemma {:induction false} MarkerInFront(s: seq<Byte>)
    ensures Strip(s) != [] && Strip(s)[0] == 0xff <==> Kept(s) != [] || (Tail(s) != [] && Tail(s)[0] == 0xff)
    decreases |s|
  {
    if AtSegment(s) {
      WalkStep(s);
      StripStep(s);
      MarkerInFront(s[SegmentLength(s)..]);
    } else {
      StripAtTail(s);
    }
  }

  // ----- Written files -----

  /** A written segment that is no SOF and no SOS: a bare marker, or a marker with a length that counts itself. */
  predicate Written(g: seq<Byte>) {
    && |g| >= 2 && g[0] == 0xff
    && if g[1] == 0x01 || 0xd0 <= g[1] <= 0xd8 then |g| == 2
       else && !(0xc0 <= g[1] <= 0xcf && g[1] !in {0xc4, 0xc8, 0xcc}) && g[1] != 0xda
            && |g| >= 4 && |g| == 2 + 256 * g[2] as int + g[3] as int
  }

  lemma WrittenFront(g: seq<Byte>, x: seq<Byte>)
    requires Written(g) && |x| >= 2
    ensures AtSegment(g + x) && !Sof(g[1]) && SegmentLength(g + x) == |g| && (g + x)[..|g|] == g && (g + x)[|g|..] == x
  {}

  /** A SOF segment of a height and a width behind any written segments is measured so. */
  lemma {:induction false} ReadsWrittenSize(parts: seq<seq<Byte>>, sof: seq<Byte>, h: nat, w: nat)
    requires forall g :: g in parts ==> Written(g)
    requires |sof| >= 10 && sof[0] == 0xff && 0xc0 <= sof[1] <= 0xcf && sof[1] !in {0xc4, 0xc8, 0xcc}
    requires h == 256 * sof[5] as int + sof[6] as int && w == 256 * sof[7] as int + sof[8] as int
    ensures Size(Concat(parts) + sof) == Some((h, w)) && |Concat(parts) + sof| >= 10 && (Concat(parts) + sof)[0] == 0xff
  {
    if parts == [] {
      assert Concat(parts) + sof == sof;
    } else {
      var x := Concat(parts[1..]) + sof;
      assert parts[0] in parts && forall g :: g in parts[1..] ==> g in parts;
      ReadsWrittenSize(parts[1..], sof, h, w);
      Regroup(parts[0], Concat(parts[1..]), sof);
      WrittenFront(parts[0], x);
      SizeSkips(parts[0] + x);
    }
  }

  /** The bytes that stand where no segment can be walked: the scan, or the end. */
  predicate Scan(s: seq<Byte>) {
    |s| >= 2 && (s[0] != 0xff || s[1] == 0xda)
  }

  /** A written segment, SOF segments included. */
  predicate Piece(g: seq<Byte>) {
    Written(g) || (|g| >= 4 && g[0] == 0xff && 0xc0 <= g[1] <= 0xcf && g[1] !in {0xc4, 0xc8, 0xcc}
                   && |g| == 2 + 256 * g[2] as int + g[3] as int)
  }

  /** Everything but APP1, APP13 and comment segments, which hold the metadata. */
  function WithoutMetadata(parts: seq<seq<Byte>>): seq<seq<Byte>>
    requires forall i :: 0 <= i < |parts| ==> |parts[i]| >= 2
  {
    if parts == [] then []
    else (if parts[0][1] == 0xe1 || parts[0][1] == 0xed || parts[0][1] == 0xfe then [] else [parts[0]])
         + WithoutMetadata(parts[1..])
  }

  lemma StripsPiece(g: seq<Byte>, x: seq<Byte>)
    requires Piece(g) && |x| >= 2
    ensures Strip(g + x) == if g[1] == 0xe1 || g[1] == 0xed || g[1] == 0xfe then Strip(x) else g + Strip(x)
  {
    assert (g + x)[..|g|] == g && (g + x)[|g|..] == x;
    StripStep(g + x);
  }

  /** Stripping a written file leaves exactly the other segments, and the scan. */
  lemma {:induction false} StripsWritten(parts: seq<seq<Byte>>, scan: seq<Byte>)
    requires (forall i :: 0 <= i < |parts| ==> |parts[i]| >= 2 && Piece(parts[i])) && Scan(scan)
    ensures |Concat(parts) + scan| >= 2
    ensures Strip(Concat(parts) + scan) == Concat(WithoutMetadata(parts)) + scan
  {
    if parts == [] {
      assert Concat(parts) + scan == scan;
      StripAtTail(scan);
    } else {
      StripsWritten(parts[1..], scan);
      Regroup(parts[0], Concat(parts[1..]), scan);
      StripsPiece(parts[0], Concat(parts[1..]) + scan);
      WithoutStep(parts, scan);
    }
  }

  lemma WithoutStep(parts: seq<seq<Byte>>, scan: seq<Byte>)
    requires parts != [] && forall i :: 0 <= i < |parts| ==> |parts[i]| >= 2
    ensures var g, rest := parts[0], Concat(WithoutMetadata(parts[1..])) + scan;
            Concat(WithoutMetadata(parts)) + scan == if g[1] == 0xe1 || g[1] == 0xed || g[1] == 0xfe then rest else g + rest
  {
    var more := WithoutMetadata(parts[1..]);
    if parts[0][1] == 0xe1 || parts[0][1] == 0xed || parts[0][1] == 0xfe {
      assert WithoutMetadata(parts) == more;
    } else {
      assert WithoutMetadata(parts) == [parts[0]] + more;
      ConcatFront(parts[0], more, scan);
    }
  }
}
