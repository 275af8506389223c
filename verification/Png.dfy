/** PNG: the chunk walk, the size reader, and the removal of metadata chunks. */
module Png {
  import opened Prelude
  import opened Bytes

  const IHDR := Tag(73, 72, 68, 82)
  const IEND := Tag(73, 69, 78, 68)

  /** eXIf, tEXt, zTXt, iTXt and tIME. */
  predicate Metadata(kind: Tag) {
    || kind == Tag(101, 88, 73, 102) || kind == Tag(116, 69, 88, 116) || kind == Tag(122, 84, 88, 116)
    || kind == Tag(105, 84, 88, 116) || kind == Tag(116, 73, 77, 69)
  }

  // ----- The walk, over what is left of the file after the signature -----

  /** Length, type, data and checksum of the chunk in front. */
  function Span(s: seq<Byte>): (n: nat)
    requires |s| >= 12
    ensures n >= 12
  {
    12 + U32BE(s[0], s[1], s[2], s[3])
  }

  /** A whole chunk is in front. */
  predicate AtChunk(s: seq<Byte>) {
    |s| >= 12 && Span(s) <= |s|
  }

  function Kind(c: seq<Byte>): Tag
    requires |c| >= 12
  {
    Letters(c, 4)
  }

  /** The whole chunks up to the end marker, or up to the first chunk that is cut off. */
  function Chunks(s: seq<Byte>): seq<seq<Byte>>
    decreases |s|
  {
    if !AtChunk(s) then []
    else [s[..Span(s)]] + if Kind(s) == IEND then [] else Chunks(s[Span(s)..])
  }

  function Keep(): seq<Byte> -> bool {
    (c: seq<Byte>) => |c| < 12 || !Metadata(Kind(c))
  }

  function Kept(s: seq<Byte>): seq<seq<Byte>> {
    Filter(Chunks(s), Keep())
  }

  /** The signature and the kept chunks; whatever follows the walk is dropped. */
  function Stripped(buf: seq<Byte>): seq<Byte> {
    Sub(buf, 0, 8) + Concat(Kept(Rest(buf, 8)))
  }

  /** The size in the header chunk, width before height. */
  function SizeOf(buf: seq<Byte>): Option<(nat, nat)> {
    if |buf| < 24 || Letters(buf, 12) != IHDR then None
    else Some((U32BE(buf[16], buf[17], buf[18], buf[19]), U32BE(buf[20], buf[21], buf[22], buf[23])))
  }

  // ----- The same walk, by index -----

  predicate ChunkAt(buf: seq<Byte>, i: nat) {
    i + 12 <= |buf| && i + 12 + U32BE(buf[i], buf[i + 1], buf[i + 2], buf[i + 3]) <= |buf|
  }

  function NextAt(buf: seq<Byte>, i: nat): nat
    requires ChunkAt(buf, i)
  {
    i + 12 + U32BE(buf[i], buf[i + 1], buf[i + 2], buf[i + 3])
  }

  /** The loop as a function of its index and of the slices pushed so far. */
  function Loop(buf: seq<Byte>, i: nat, pieces: seq<seq<Byte>>): seq<seq<Byte>>
    decreases |buf| - i
  {
    if !ChunkAt(buf, i) then pieces
    else
      var more := if Metadata(Letters(buf, i + 4)) then pieces else pieces + [buf[i..NextAt(buf, i)]];
      if Letters(buf, i + 4) == IEND then more else Loop(buf, NextAt(buf, i), more)
  }

  lemma StepByIndex(buf: seq<Byte>, i: nat)
    requires ChunkAt(buf, i)
    ensures var s := Rest(buf, i);
            && AtChunk(s) && Span(s) == NextAt(buf, i) - i && Kind(s) == Letters(buf, i + 4)
            && s[..Span(s)] == buf[i..NextAt(buf, i)] && s[Span(s)..] == Rest(buf, NextAt(buf, i))
            && Kind(s[..Span(s)]) == Kind(s)
  {}

  lemma WalkStep(s: seq<Byte>)
    requires AtChunk(s)
    ensures Kept(s) == (if Metadata(Kind(s)) then [] else [s[..Span(s)]])
                       + if Kind(s) == IEND then [] else Kept(s[Span(s)..])
  {
    var c, more := s[..Span(s)], if Kind(s) == IEND then [] else Chunks(s[Span(s)..]);
    assert Kind(c) == Kind(s);
    assert Chunks(s) == [c] + more;
    assert Chunks(s)[0] == c && Chunks(s)[1..] == more;
    assert Kept(s) == (if Keep()(c) then [c] else []) + Filter(more, Keep());
  }

  lemma KeptByIndex(buf: seq<Byte>, i: nat)
    requires ChunkAt(buf, i)
    ensures var kind, next := Letters(buf, i + 4), NextAt(buf, i);
            Kept(Rest(buf, i)) == (if Metadata(kind) then [] else [buf[i..next]])
                                  + if kind == IEND then [] else Kept(Rest(buf, next))
  {
    StepByIndex(buf, i);
    WalkStep(Rest(buf, i));
  }

  lemma {:induction false} LoopIsWalk(buf: seq<Byte>, i: nat, pieces: seq<seq<Byte>>)
    ensures Loop(buf, i, pieces) == pieces + Kept(Rest(buf, i))
    decreases |buf| - i
  {
    if ChunkAt(buf, i) {
      var kind, next := Letters(buf, i + 4), NextAt(buf, i);
      var head: seq<seq<Byte>> := if Metadata(kind) then [] else [buf[i..next]];
      var tail := if kind == IEND then [] else Kept(Rest(buf, next));
      assert Kept(Rest(buf, i)) == head + tail by { KeptByIndex(buf, i); }
      Regroup(pieces, head, tail);
      Regroup(pieces + head, [], []);
      Regroup(pieces, [], []);
      if kind != IEND { LoopIsWalk(buf, next, pieces + head); }
    } else {
      assert Kept(Rest(buf, i)) == [];
    }
  }

  method StripPng(buf: seq<Byte>) returns (out: seq<Byte>)
    ensures out == Stripped(buf)
  {
    var pieces: seq<seq<Byte>>, i := [], 8;
    ghost var kept := Kept(Rest(buf, i));
    LoopIsWalk(buf, i, pieces);
    while i + 12 <= |buf|
      invariant Loop(buf, i, pieces) == kept
      decreases |buf| - i
    {
      var length := U32BE(buf[i], buf[i + 1], buf[i + 2], buf[i + 3]);
      var kind := Letters(buf, i + 4);
      var end := i + 12 + length;
      if end > |buf| { break; }
      assert ChunkAt(buf, i) && NextAt(buf, i) == end;
      if !Metadata(kind) { pieces := pieces + [buf[i..end]]; }
      if kind == IEND { break; }
      i := end;
    }
    assert pieces == kept;
    out := Sub(buf, 0, 8) + Concat(pieces);
  }

  // ----- What stripping does -----

  /** A list of whole chunks in which nothing follows an end marker. */
  ghost predicate Listing(cs: seq<seq<Byte>>) {
    cs == []
    || (&& |cs[0]| >= 12 && Span(cs[0]) == |cs[0]|
        && (Kind(cs[0]) == IEND ==> |cs| == 1)
        && Listing(cs[1..]))
  }

  /** Writing a listing and walking over it gives the listing back. */
  lemma {:induction false} WalkOfListing(cs: seq<seq<Byte>>)
    requires Listing(cs)
    ensures Chunks(Concat(cs)) == cs
  {
    if cs != [] {
      var c, rest := cs[0], Concat(cs[1..]);
      WalkOfListing(cs[1..]);
      FrontChunk(c, rest);
      assert cs == [c] + cs[1..];
    }
  }

  lemma FrontChunk(c: seq<Byte>, rest: seq<Byte>)
    requires |c| >= 12 && Span(c) == |c|
    ensures AtChunk(c + rest) && Span(c + rest) == |c| && Kind(c + rest) == Kind(c)
    ensures (c + rest)[..|c|] == c && (c + rest)[|c|..] == rest
  {}

  lemma {:induction false} ChunksAreListing(s: seq<Byte>)
    ensures Listing(Chunks(s))
    decreases |s|
  {
    if AtChunk(s) {
      var c, more := s[..Span(s)], if Kind(s) == IEND then [] else Chunks(s[Span(s)..]);
      ChunksAreListing(s[Span(s)..]);
      assert Kind(c) == Kind(s) && Span(c) == |c|;
      assert Chunks(s)[0] == c && Chunks(s)[1..] == more;
    }
  }

  lemma {:induction false} FilteredListing(cs: seq<seq<Byte>>)
    requires Listing(cs)
    ensures Listing(Filter(cs, Keep()))
    ensures |Filter(cs, Keep())| <= |cs|
  {
    if cs != [] {
      FilteredListing(cs[1..]);
      var rest := Filter(cs[1..], Keep());
      if Keep()(cs[0]) {
        assert ([cs[0]] + rest)[1..] == rest;
      } else {
        assert Filter(cs, Keep()) == rest;
      }
    }
  }

  /** The walk over the stripped file is exactly the kept chunks, in order. */
  lemma WalkAfterStrip(buf: seq<Byte>)
    requires |buf| >= 8
    ensures Chunks(Rest(Stripped(buf), 8)) == Kept(Rest(buf, 8))
  {
    ChunksAreListing(Rest(buf, 8));
    FilteredListing(Chunks(Rest(buf, 8)));
    WalkOfListing(Kept(Rest(buf, 8)));
    assert Rest(Stripped(buf), 8) == Concat(Kept(Rest(buf, 8)));
  }

  /** No metadata chunk is left, and stripping twice is stripping once. */
  lemma StrippedIdempotent(buf: seq<Byte>)
    ensures Stripped(Stripped(buf)) == Stripped(buf)
    ensures |buf| >= 8 ==> forall c :: c in Chunks(Rest(Stripped(buf), 8)) ==> Keep()(c)
  {
    if |buf| >= 8 {
      WalkAfterStrip(buf);
      FilterTwice(Chunks(Rest(buf, 8)), Keep());
      forall c | c in Kept(Rest(buf, 8)) ensures Keep()(c) {
        FilterIn(Chunks(Rest(buf, 8)), Keep(), c);
      }
      assert Sub(Stripped(buf), 0, 8) == Sub(buf, 0, 8);
    } else {
      assert Chunks(Rest(buf, 8)) == [];
      assert Stripped(buf) == buf + [];
    }
  }

  /** The header chunk is complete, and reaches over the size fields or borrows bytes that stay. */
  predicate HeaderHolds(buf: seq<Byte>)
    requires |buf| >= 24
  {
    var s := Rest(buf, 8);
    && AtChunk(s)
    && (Span(s) >= 16 ||
        (var more, left := s[Span(s)..], Concat(Kept(s[Span(s)..]));
         |left| >= 16 - Span(s) && left[..16 - Span(s)] == more[..16 - Span(s)]))
  }

  /** The size survives exactly when the header chunk holds it. */
  lemma SizeSurvives(buf: seq<Byte>)
    requires SizeOf(buf).Some?
    ensures SizeOf(Stripped(buf)) == SizeOf(buf) <==> HeaderHolds(buf)
  {
    var s := Rest(buf, 8);
    if AtChunk(s) {
      StrippedHeader(buf);
      SizeBehindHeader(buf, s[..Span(s)], s[Span(s)..], Concat(Kept(s[Span(s)..])));
    } else {
      assert Chunks(s) == [];
      assert |Stripped(buf)| == 8;
    }
  }

  lemma FileInParts(buf: seq<Byte>, s: seq<Byte>, n: nat)
    requires |buf| >= 8 && s == buf[8..] && n <= |s|
    ensures buf == buf[..8] + (s[..n] + s[n..])
  {}

  lemma ConcatFront(c: seq<Byte>, more: seq<seq<Byte>>)
    ensures Concat([c] + more) == c + Concat(more)
  {
    assert ([c] + more)[1..] == more;
  }

  lemma KeptHeader(s: seq<Byte>)
    requires AtChunk(s) && Kind(s) == IHDR
    ensures Concat(Kept(s)) == s[..Span(s)] + Concat(Kept(s[Span(s)..]))
  {
    WalkStep(s);
    ConcatFront(s[..Span(s)], Kept(s[Span(s)..]));
  }

  lemma StrippedHeader(buf: seq<Byte>)
    requires SizeOf(buf).Some? && AtChunk(Rest(buf, 8))
    ensures var s := Rest(buf, 8);
            && buf == buf[..8] + (s[..Span(s)] + s[Span(s)..])
            && Stripped(buf) == buf[..8] + (s[..Span(s)] + Concat(Kept(s[Span(s)..])))
  {
    var s := Rest(buf, 8);
    FileInParts(buf, s, Span(s));
    assert Letters(s, 4) == Letters(buf, 12);
    KeptHeader(s);
  }

  lemma SizeBehindHeader(buf: seq<Byte>, c: seq<Byte>, more: seq<Byte>, left: seq<Byte>)
    requires SizeOf(buf).Some? && |c| >= 12 && buf == buf[..8] + (c + more)
    ensures SizeOf(buf[..8] + (c + left)) == SizeOf(buf)
       <==> |c| >= 16 || (|left| >= 16 - |c| && left[..16 - |c|] == more[..16 - |c|])
  {
    var out := buf[..8] + (c + left);
    assert forall k :: 0 <= k < 8 + |c| ==> out[k] == buf[k];
    if |c| < 16 {
      assert forall k :: 8 + |c| <= k < 24 ==> buf[k] == more[k - 8 - |c|];
      if |out| >= 24 {
        assert forall k :: 8 + |c| <= k < 24 ==> out[k] == left[k - 8 - |c|];
        U32Apart(buf[20], buf[21], buf[22], buf[23], out[20], out[21], out[22], out[23]);
        BorrowedAgree(more, left, 16 - |c|);
        assert SizeOf(out) == SizeOf(buf) <==> forall k :: 20 <= k < 24 ==> out[k] == buf[k];
        assert (forall k :: 20 <= k < 24 ==> out[k] == buf[k])
          <==> (forall k :: 0 <= k < 16 - |c| ==> left[k] == more[k]) by {
          if forall k :: 20 <= k < 24 ==> out[k] == buf[k] {
            forall k | 0 <= k < 16 - |c| ensures left[k] == more[k] {
              assert out[k + 8 + |c|] == buf[k + 8 + |c|];
            }
          }
        }
      }
    }
  }

  lemma BorrowedAgree(a: seq<Byte>, b: seq<Byte>, n: nat)
    requires n <= |a| && n <= |b|
    ensures b[..n] == a[..n] <==> forall k :: 0 <= k < n ==> b[k] == a[k]
  {
    if b[..n] == a[..n] {
      forall k | 0 <= k < n ensures b[k] == a[k] { assert b[..n][k] == a[..n][k]; }
    }
  }

  /** With no data at all declared, the height is the length of what follows: a metadata chunk before, another one after. */
  lemma ShortHeaderChangesSize(signature: seq<Byte>, head: seq<Byte>, text: seq<Byte>, end: seq<Byte>)
    requires |signature| == 8
    requires |head| == 12 && Span(head) == 12 && Kind(head) == IHDR
    requires |text| >= 12 && Span(text) == |text| && Metadata(Kind(text))
    requires |end| >= 12 && Span(end) == |end| && Kind(end) == IEND && |end| != |text|
    ensures var buf := signature + (head + (text + end)); SizeOf(buf).Some? && SizeOf(Stripped(buf)) != SizeOf(buf)
  {
    var more := text + end;
    var buf := signature + (head + more);
    EndIsKept(text, end);
    FrontChunk(text, end);
    HeadInFront(signature, head, more);
    SizeBehindHeader(buf, head, more, end);
    LengthsDiffer(more, end);
  }

  /** A header chunk behind the signature, measured and stripped. */
  lemma HeadInFront(signature: seq<Byte>, head: seq<Byte>, more: seq<Byte>)
    requires |signature| == 8 && |head| == 12 && Span(head) == 12 && Kind(head) == IHDR && |more| >= 12
    ensures var buf := signature + (head + more);
            && SizeOf(buf).Some? && buf[..8] == signature
            && Stripped(buf) == signature + (head + Concat(Kept(more)))
  {
    var s := head + more;
    var buf := signature + s;
    assert Rest(buf, 8) == s && Sub(buf, 0, 8) == signature;
    assert Letters(buf, 12) == Letters(head, 4);
    FrontChunk(head, more);
    KeptHeader(s);
  }

  lemma LengthsDiffer(a: seq<Byte>, b: seq<Byte>)
    requires |a| >= 12 && |b| >= 12 && Span(a) != Span(b)
    ensures b[..4] != a[..4]
  {
    BorrowedAgree(a, b, 4);
  }

  lemma EndIsKept(text: seq<Byte>, end: seq<Byte>)
    requires |text| >= 12 && Span(text) == |text| && Metadata(Kind(text))
    requires |end| >= 12 && Span(end) == |end| && Kind(end) == IEND
    ensures Concat(Kept(text + end)) == end
  {
    FrontChunk(text, end);
    WalkStep(text + end);
    assert Kept(text + end) == [] + Kept(end) == Kept(end);
    EndAlone(end);
    ConcatFront(end, []);
  }

  lemma EndAlone(end: seq<Byte>)
    requires |end| >= 12 && Span(end) == |end| && Kind(end) == IEND
    ensures Kept(end) == [end] == [end] + []
  {
    WalkStep(end);
    assert end[..|end|] == end && [end] + [] == [end];
  }


  // ----- Written files -----

  /** A whole chunk: length, type, as many bytes of data, checksum. */
  predicate Written(c: seq<Byte>) {
    |c| >= 12 && |c| == 12 + 16777216 * c[0] as int + 65536 * c[1] as int + 256 * c[2] as int + c[3] as int
  }

  predicate Typed(c: seq<Byte>, a: Byte, b: Byte, d: Byte, e: Byte) {
    |c| >= 8 && c[4] == a && c[5] == b && c[6] == d && c[7] == e
  }

  /** "eXIf", "tEXt", "zTXt", "iTXt" or "tIME". */
  predicate Personal(c: seq<Byte>) {
    || Typed(c, 101, 88, 73, 102) || Typed(c, 116, 69, 88, 116) || Typed(c, 122, 84, 88, 116)
    || Typed(c, 105, 84, 88, 116) || Typed(c, 116, 73, 77, 69)
  }

  function WithoutPersonal(chunks: seq<seq<Byte>>): seq<seq<Byte>> {
    if chunks == [] then [] else (if Personal(chunks[0]) then [] else [chunks[0]]) + WithoutPersonal(chunks[1..])
  }

  lemma KeptStep(c: seq<Byte>, more: seq<Byte>)
    requires Written(c)
    ensures AtChunk(c + more)
    ensures Kept(c + more) == (if Personal(c) then [] else [c]) + if Typed(c, 73, 69, 78, 68) then [] else Kept(more)
  {
    FrontChunk(c, more);
    WalkStep(c + more);
  }

  lemma {:induction false} KeptOfWritten(chunks: seq<seq<Byte>>, end: seq<Byte>, tail: seq<Byte>)
    requires forall i :: 0 <= i < |chunks| ==> Written(chunks[i]) && !Typed(chunks[i], 73, 69, 78, 68)
    requires Written(end) && Typed(end, 73, 69, 78, 68)
    ensures Kept(Concat(chunks) + (end + tail)) == WithoutPersonal(chunks) + [end]
  {
    var rest := end + tail;
    if chunks == [] {
      assert Concat(chunks) + rest == rest;
      KeptStep(end, tail);
    } else {
      KeptOfWritten(chunks[1..], end, tail);
      Regroup(chunks[0], Concat(chunks[1..]), rest);
      KeptStep(chunks[0], Concat(chunks[1..]) + rest);
      Regroup(if Personal(chunks[0]) then [] else [chunks[0]], WithoutPersonal(chunks[1..]), [end]);
    }
  }

  /** Stripping a written file leaves its signature, exactly the other chunks, and the end chunk; what follows that goes. */
  lemma StripsWritten(signature: seq<Byte>, chunks: seq<seq<Byte>>, end: seq<Byte>, tail: seq<Byte>)
    requires |signature| == 8
    requires forall i :: 0 <= i < |chunks| ==> Written(chunks[i]) && !Typed(chunks[i], 73, 69, 78, 68)
    requires Written(end) && Typed(end, 73, 69, 78, 68)
    ensures Stripped(signature + (Concat(chunks) + (end + tail))) == signature + (Concat(WithoutPersonal(chunks)) + end)
  {
    var s := Concat(chunks) + (end + tail);
    assert Rest(signature + s, 8) == s && Sub(signature + s, 0, 8) == signature;
    KeptOfWritten(chunks, end, tail);
    ConcatSnoc(WithoutPersonal(chunks), end);
  }
}
