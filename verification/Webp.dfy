/** WebP: the RIFF chunk walk, the size reader, and the removal of EXIF and XMP. */
module Webp {
  import opened Prelude
  import opened Bytes

  const EXIF := Tag(69, 88, 73, 70)
  const XMP := Tag(88, 77, 80, 32)
  const VP8X := Tag(86, 80, 56, 88)
  const VP8 := Tag(86, 80, 56, 32)
  const VP8L := Tag(86, 80, 56, 76)

  // ----- The walk, over what is left of the file after its 12-byte header -----

  /** The length a chunk declares for its body. */
  function Declared(s: seq<Byte>): nat
    requires |s| >= 8
  {
    U32LE(s[4], s[5], s[6], s[7])
  }

  /** A chunk is in front, and does not claim more bytes than the whole file has. */
  predicate AtChunk(s: seq<Byte>, limit: nat) {
    |s| >= 8 && Declared(s) <= limit
  }

  /** Header and body, padded to an even length. */
  function Span(s: seq<Byte>): (n: nat)
    requires |s| >= 8
    ensures n >= 8
  {
    8 + Declared(s) + Declared(s) % 2
  }

  /** The chunks as slices, the last one cut at the end of the file. */
  function Walk(s: seq<Byte>, limit: nat): seq<seq<Byte>>
    decreases |s|
  {
    if !AtChunk(s, limit) then []
    else [s[..Min(Span(s), |s|)]] + Walk(s[Min(Span(s), |s|)..], limit)
  }

  predicate Metadata(kind: Tag) {
    kind == EXIF || kind == XMP
  }

  /** Clears the EXIF and XMP bits, 2 and 3, and no other. */
  function ClearFlags(flags: Byte): (r: Byte)
    ensures r / 4 % 4 == 0 && r % 4 == flags % 4 && r / 16 == flags / 16
  {
    flags / 16 * 16 + flags % 4
  }

  function CleanChunk(c: seq<Byte>): (r: seq<Byte>)
    requires |c| >= 8
    ensures |r| == |c| && Letters(r, 0) == Letters(c, 0) && Declared(r) == Declared(c)
  {
    if Letters(c, 0) == VP8X && |c| >= 9 then c[8 := ClearFlags(c[8])] else c
  }

  /** The chunks without EXIF and XMP, and without the flags that advertise them. */
  function Cleaned(cs: seq<seq<Byte>>): seq<seq<Byte>> {
    if cs == [] then []
    else (if |cs[0]| < 8 || Metadata(Letters(cs[0], 0)) then [] else [CleanChunk(cs[0])]) + Cleaned(cs[1..])
  }

  function Rebuilt(body: seq<Byte>): seq<Byte> {
    [82, 73, 70, 70] + LE4(4 + |body|) + [87, 69, 66, 80] + body
  }

  /** A file without chunks is left alone; any other is written anew. */
  function Stripped(buf: seq<Byte>): seq<Byte> {
    if !AtChunk(Rest(buf, 12), |buf|) then buf
    else Rebuilt(Concat(Cleaned(Walk(Rest(buf, 12), |buf|))))
  }

  // ----- The same walk, by index -----

  predicate ChunkAt(buf: seq<Byte>, i: nat) {
    i + 8 <= |buf| && U32LE(buf[i + 4], buf[i + 5], buf[i + 6], buf[i + 7]) <= |buf|
  }

  function LengthAt(buf: seq<Byte>, i: nat): nat
    requires i + 8 <= |buf|
  {
    U32LE(buf[i + 4], buf[i + 5], buf[i + 6], buf[i + 7])
  }

  function NextAt(buf: seq<Byte>, i: nat): (n: nat)
    requires i + 8 <= |buf|
    ensures n > i
  {
    i + 8 + LengthAt(buf, i) + LengthAt(buf, i) % 2
  }

  lemma StepByIndex(buf: seq<Byte>, i: nat)
    requires ChunkAt(buf, i)
    ensures var s := Rest(buf, i);
            && AtChunk(s, |buf|) && Declared(s) == LengthAt(buf, i)
            && s[..Min(Span(s), |s|)] == Sub(buf, i, NextAt(buf, i))
            && s[Min(Span(s), |s|)..] == Rest(buf, NextAt(buf, i))
  {
    SubRest(buf, i, NextAt(buf, i) - i);
  }

  lemma WalkByIndex(buf: seq<Byte>, i: nat)
    requires ChunkAt(buf, i)
    ensures |Sub(buf, i, NextAt(buf, i))| >= 8 && Letters(Sub(buf, i, NextAt(buf, i)), 0) == Letters(buf, i)
    ensures Walk(Rest(buf, i), |buf|) == [Sub(buf, i, NextAt(buf, i))] + Walk(Rest(buf, NextAt(buf, i)), |buf|)
  {
    StepByIndex(buf, i);
  }

  /** The loop as a function of its index and of the slices kept so far. */
  function Loop(buf: seq<Byte>, i: nat, kept: seq<seq<Byte>>): seq<seq<Byte>>
    decreases |buf| - i
  {
    if !ChunkAt(buf, i) then kept
    else
      var slice := Sub(buf, i, NextAt(buf, i));
      Loop(buf, NextAt(buf, i), if Metadata(Letters(buf, i)) then kept else kept + [CleanChunk(slice)])
  }

  lemma CleanedStep(c: seq<Byte>, cs: seq<seq<Byte>>)
    requires |c| >= 8
    ensures Cleaned([c] + cs) == (if Metadata(Letters(c, 0)) then [] else [CleanChunk(c)]) + Cleaned(cs)
  {
    assert ([c] + cs)[1..] == cs;
  }

  lemma {:induction false} LoopIsWalk(buf: seq<Byte>, i: nat, kept: seq<seq<Byte>>)
    ensures Loop(buf, i, kept) == kept + Cleaned(Walk(Rest(buf, i), |buf|))
    decreases |buf| - i
  {
    if ChunkAt(buf, i) {
      var next := NextAt(buf, i);
      var slice := Sub(buf, i, next);
      var head: seq<seq<Byte>> := if Metadata(Letters(buf, i)) then [] else [CleanChunk(slice)];
      var tail := Cleaned(Walk(Rest(buf, next), |buf|));
      assert Cleaned(Walk(Rest(buf, i), |buf|)) == head + tail by {
        WalkByIndex(buf, i);
        CleanedStep(slice, Walk(Rest(buf, next), |buf|));
      }
      Regroup(kept, head, tail);
      Regroup(kept, [], []);
      LoopIsWalk(buf, next, kept + head);
    } else {
      assert Walk(Rest(buf, i), |buf|) == [];
      Regroup(kept, [], []);
    }
  }

  /** Clears the flags in a copied slice, and says whether there was anything to clear. */
  method ClearSlice(c: seq<Byte>) returns (r: seq<Byte>, cleared: bool)
    requires |c| >= 8
    ensures r == CleanChunk(c)
  {
    r, cleared := c, false;
    if Letters(c, 0) == VP8X && |c| >= 9 {
      var flags := c[8];
      cleared := flags / 4 % 4 != 0;
      r := c[8 := ClearFlags(flags)];
    }
  }

  lemma SliceAt(buf: seq<Byte>, i: nat)
    requires ChunkAt(buf, i)
    ensures |Sub(buf, i, NextAt(buf, i))| >= 8
  {}

  method KeepChunks(buf: seq<Byte>, start: nat) returns (kept: seq<seq<Byte>>, changed: bool)
    ensures kept == Loop(buf, start, [])
    ensures changed || kept != [] <==> ChunkAt(buf, start)
  {
    kept, changed := [], false;
    var i := start;
    while i + 8 <= |buf|
      invariant i >= start && Loop(buf, i, kept) == Loop(buf, start, [])
      invariant changed || kept != [] <==> i != start
      invariant i != start ==> ChunkAt(buf, start)
      decreases |buf| - i
    {
      if LengthAt(buf, i) > |buf| { break; }
      SliceAt(buf, i);
      if Metadata(Letters(buf, i)) {
        changed := true;
      } else {
        var slice, cleared := ClearSlice(Sub(buf, i, NextAt(buf, i)));
        changed := changed || cleared;
        kept := kept + [slice];
      }
      i := NextAt(buf, i);
    }
  }

  method StripWebp(buf: seq<Byte>) returns (out: seq<Byte>)
    ensures out == Stripped(buf)
  {
    var kept, changed := KeepChunks(buf, 12);
    if !changed && kept == [] { return buf; }
    LoopIsWalk(buf, 12, []);
    assert kept == Cleaned(Walk(Rest(buf, 12), |buf|));
    out := Rebuilt(Concat(kept));
  }

  // ----- The size -----

  function U16LE(lo: Byte, hi: Byte): nat {
    U16BE(hi, lo)
  }

  function Read24(s: seq<Byte>, i: nat): nat
    requires i + 3 <= |s|
  {
    s[i] as nat + 256 * s[i + 1] as nat + 65536 * s[i + 2] as nat
  }

  /** What one chunk says about the size: nothing, that there is none, or the width and height. */
  datatype Says = Silent | Broken | Measured(width: nat, height: nat)

  function SizeFrom(kind: Tag, body: seq<Byte>): Says {
    if kind == VP8X && |body| >= 10 then Measured(Read24(body, 4) + 1, Read24(body, 7) + 1)
    else if kind == VP8 && |body| >= 10 then
      if body[3] != 0x9d || body[4] != 0x01 || body[5] != 0x2a then Broken
      else Measured(U16LE(body[6], body[7]) % 16384, U16LE(body[8], body[9]) % 16384)
    else if kind == VP8L && |body| >= 5 then
      var bits := U32LE(body[1], body[2], body[3], body[4]);
      Measured(bits % 16384 + 1, bits / 16384 % 16384 + 1)
    else Silent
  }

  /** The first chunk that says anything decides. */
  function SizeIn(cs: seq<seq<Byte>>): Says {
    if cs == [] then Silent
    else
      var says := if |cs[0]| < 8 then Silent else SizeFrom(Letters(cs[0], 0), Sub(cs[0], 8, 8 + Declared(cs[0])));
      if says.Silent? then SizeIn(cs[1..]) else says
  }

  function SizeOf(buf: seq<Byte>): Says {
    SizeIn(Walk(Rest(buf, 12), |buf|))
  }

  /** The size reader's loop as a function of its index. */
  function SizeAt(buf: seq<Byte>, i: nat): Says
    decreases |buf| - i
  {
    if !ChunkAt(buf, i) then Silent
    else
      var says := SaysAt(buf, i);
      if says.Silent? then SizeAt(buf, NextAt(buf, i)) else says
  }

  lemma SizeStep(c: seq<Byte>, more: seq<seq<Byte>>)
    requires |c| >= 8
    ensures var says := SizeFrom(Letters(c, 0), Sub(c, 8, 8 + Declared(c)));
            SizeIn([c] + more) == if says.Silent? then SizeIn(more) else says
  {
    assert ([c] + more)[1..] == more;
  }

  lemma BodyByIndex(buf: seq<Byte>, i: nat)
    requires ChunkAt(buf, i)
    ensures var c := Sub(buf, i, NextAt(buf, i));
            && |c| >= 8 && Declared(c) == LengthAt(buf, i)
            && Sub(c, 8, 8 + Declared(c)) == Sub(buf, i + 8, i + 8 + LengthAt(buf, i))
  {
    var c := Sub(buf, i, NextAt(buf, i));
    assert forall k :: 0 <= k < |c| ==> c[k] == buf[i + k];
    assert Declared(c) == LengthAt(buf, i);
  }

  lemma {:induction false} SizeByIndex(buf: seq<Byte>, i: nat)
    ensures SizeAt(buf, i) == SizeIn(Walk(Rest(buf, i), |buf|))
    decreases |buf| - i
  {
    if ChunkAt(buf, i) {
      var next := NextAt(buf, i);
      var c, more := Sub(buf, i, next), Walk(Rest(buf, next), |buf|);
      SizeByIndex(buf, next);
      WalkByIndex(buf, i);
      BodyByIndex(buf, i);
      SizeStep(c, more);
    } else {
      assert Walk(Rest(buf, i), |buf|) == [];
    }
  }

  /** What the chunk at an index says. */
  function SaysAt(buf: seq<Byte>, i: nat): Says
    requires i + 8 <= |buf|
  {
    SizeFrom(Letters(buf, i), Sub(buf, i + 8, i + 8 + LengthAt(buf, i)))
  }

  method FirstToSay(buf: seq<Byte>, start: nat) returns (says: Says)
    ensures says == SizeAt(buf, start)
  {
    var i := start;
    while i + 8 <= |buf|
      invariant SizeAt(buf, i) == SizeAt(buf, start)
      decreases |buf| - i
    {
      if LengthAt(buf, i) > |buf| { break; }
      says := SaysAt(buf, i);
      if !says.Silent? { return; }
      i := NextAt(buf, i);
    }
    says := Silent;
  }

  method WebpSize(buf: seq<Byte>) returns (says: Says)
    ensures says == SizeOf(buf)
  {
    SizeByIndex(buf, 12);
    says := FirstToSay(buf, 12);
  }

  // ----- What stripping does -----

  /** Every walked chunk has its whole body in the file; the pad byte of the last may be missing. */
  predicate Fits(s: seq<Byte>, limit: nat)
    decreases |s|
  {
    AtChunk(s, limit) ==> 8 + Declared(s) <= |s| && Fits(s[Min(Span(s), |s|)..], limit)
  }

  /** Chunks with header, body and pad byte all there. */
  ghost predicate AllWhole(cs: seq<seq<Byte>>) {
    forall c :: c in cs ==> |c| >= 8 && |c| == Span(c)
  }

  lemma FrontChunk(c: seq<Byte>, rest: seq<Byte>, limit: nat)
    requires |c| >= 8 && 8 + Declared(c) <= |c| <= limit
    requires |c| == Span(c) || (rest == [] && |c| <= Span(c))
    ensures AtChunk(c + rest, limit) && Min(Span(c + rest), |c + rest|) == |c|
    ensures (c + rest)[..|c|] == c && (c + rest)[|c|..] == rest
  {
    assert Declared(c + rest) == Declared(c);
  }

  /** Writing whole chunks and walking over them gives them back, and then what the walk makes of the rest. */
  lemma {:induction false} WalkOfWhole(cs: seq<seq<Byte>>, rest: seq<Byte>, limit: nat)
    requires AllWhole(cs) && |Concat(cs)| + |rest| <= limit
    ensures Walk(Concat(cs) + rest, limit) == cs + Walk(rest, limit)
  {
    if cs == [] {
      Regroup([], [], rest);
      Regroup([], [], Walk(rest, limit));
    } else {
      var c, more := cs[0], cs[1..];
      assert c in cs && forall x :: x in more ==> x in cs;
      WalkOfWhole(more, rest, limit);
      WholeInFront(c, Concat(more), rest, limit);
      assert cs == [c] + more;
      Regroup([c], more, Walk(rest, limit));
    }
  }

  lemma WholeInFront(c: seq<Byte>, more: seq<Byte>, rest: seq<Byte>, limit: nat)
    requires |c| >= 8 && |c| == Span(c) && |c| <= limit
    ensures Walk((c + more) + rest, limit) == [c] + Walk(more + rest, limit)
  {
    Regroup(c, more, rest);
    FrontWalk(c, more + rest, limit);
  }

  lemma FrontWalk(c: seq<Byte>, rest: seq<Byte>, limit: nat)
    requires |c| >= 8 && 8 + Declared(c) <= |c| <= limit
    requires |c| == Span(c) || (rest == [] && |c| <= Span(c))
    ensures Walk(c + rest, limit) == [c] + Walk(rest, limit)
  {
    FrontChunk(c, rest, limit);
  }

  /** The last chunk of a walk; the others are whole. */
  ghost predicate EndsWith(cs: seq<seq<Byte>>, init: seq<seq<Byte>>, last: seq<Byte>) {
    cs == init + [last] && AllWhole(init) && 8 <= |last| <= Span(last)
  }

  lemma {:induction false} WalkShape(s: seq<Byte>, limit: nat) returns (init: seq<seq<Byte>>, last: seq<Byte>)
    requires AtChunk(s, limit)
    ensures EndsWith(Walk(s, limit), init, last)
    ensures Fits(s, limit) <==> 8 + Declared(last) <= |last|
    decreases |s|
  {
    var n := Min(Span(s), |s|);
    var c, rest := s[..n], s[n..];
    assert Declared(c) == Declared(s);
    assert Walk(s, limit) == [c] + Walk(rest, limit);
    if AtChunk(rest, limit) {
      var more;
      more, last := WalkShape(rest, limit);
      init := [c] + more;
      assert [c] + (more + [last]) == init + [last];
    } else {
      init, last := [], c;
      assert Walk(rest, limit) == [];
    }
  }

  lemma {:induction false} CleanedAppend(a: seq<seq<Byte>>, b: seq<seq<Byte>>)
    ensures Cleaned(a + b) == Cleaned(a) + Cleaned(b)
  {
    if a == [] {
      assert a + b == b;
    } else {
      var head: seq<seq<Byte>> := if |a[0]| < 8 || Metadata(Letters(a[0], 0)) then [] else [CleanChunk(a[0])];
      assert (a + b)[1..] == a[1..] + b && (a + b)[0] == a[0];
      CleanedAppend(a[1..], b);
      Regroup(head, Cleaned(a[1..]), Cleaned(b));
    }
  }

  lemma {:induction false} CleanedIsWhole(cs: seq<seq<Byte>>)
    requires AllWhole(cs)
    ensures AllWhole(Cleaned(cs))
  {
    if cs != [] {
      assert cs[0] in cs && forall c :: c in cs[1..] ==> c in cs;
      CleanedIsWhole(cs[1..]);
    }
  }

  lemma {:induction false} CleanedTwice(cs: seq<seq<Byte>>)
    ensures Cleaned(Cleaned(cs)) == Cleaned(cs)
  {
    if cs != [] {
      CleanedTwice(cs[1..]);
      if |cs[0]| < 8 || Metadata(Letters(cs[0], 0)) {
        assert Cleaned(cs) == Cleaned(cs[1..]);
      } else {
        CleanedStep(CleanChunk(cs[0]), Cleaned(cs[1..]));
        ClearedStaysClear(cs[0]);
      }
    }
  }

  lemma ClearedStaysClear(c: seq<Byte>)
    requires |c| >= 8
    ensures CleanChunk(CleanChunk(c)) == CleanChunk(c)
  {
    if Letters(c, 0) == VP8X && |c| >= 9 {
      assert ClearFlags(ClearFlags(c[8])) == ClearFlags(c[8]);
    }
  }

  lemma RebuiltParts(body: seq<Byte>)
    ensures var out := Rebuilt(body); |out| == 12 + |body| && Rest(out, 12) == body
    ensures |body| < 0x1_0000_0000 - 4 ==>
              var out := Rebuilt(body); U32LE(out[4], out[5], out[6], out[7]) == |out| - 8
  {
    if |body| < 0x1_0000_0000 - 4 { LE4RoundTrip(4 + |body|); }
  }

  /** A chunk that is all there is of the rest is walked exactly when it does not claim more than the limit. */
  lemma WalkOfLast(c: seq<Byte>, limit: nat)
    requires 8 <= |c| <= Span(c)
    ensures Walk(c, limit) == if Declared(c) <= limit then [c] else []
  {
    assert c[..|c|] == c && c[|c|..] == [];
    assert Declared(c) <= limit ==> Walk(c, limit) == [c] + Walk([], limit);
  }

  lemma ConcatLast(cs: seq<seq<Byte>>, c: seq<Byte>)
    ensures Concat(cs + [c]) == Concat(cs) + c && Concat(cs) + [] == Concat(cs)
  {
    ConcatSnoc(cs, c);
  }

  /** A file rebuilt from whole chunks is walked as these chunks. */
  lemma WalkOfRebuilt(cs: seq<seq<Byte>>)
    requires AllWhole(cs)
    ensures var out := Rebuilt(Concat(cs)); Walk(Rest(out, 12), |out|) == cs
  {
    RebuiltParts(Concat(cs));
    WalkOfWhole(cs, [], |Rebuilt(Concat(cs))|);
    assert Concat(cs) + [] == Concat(cs) && cs + [] == cs;
  }

  /** With a last chunk that may be cut, the walk has it or not, as it claims no more than the new file or more. */
  lemma WalkOfCut(cs: seq<seq<Byte>>, c: seq<Byte>)
    requires AllWhole(cs) && 8 <= |c| <= Span(c)
    ensures var out := Rebuilt(Concat(cs + [c]));
            Walk(Rest(out, 12), |out|) == cs + if Declared(c) <= |out| then [c] else []
  {
    ConcatLast(cs, c);
    RebuiltParts(Concat(cs + [c]));
    var limit := |Rebuilt(Concat(cs + [c]))|;
    WalkOfWhole(cs, c, limit);
    WalkOfLast(c, limit);
  }

  function Last(cs: seq<seq<Byte>>): seq<Byte>
    requires cs != []
  {
    cs[|cs| - 1]
  }

  /** The last chunk claims no more than there is with the chunks that stay, or is not among them. */
  predicate LastSurvives(buf: seq<Byte>) {
    var cs := Walk(Rest(buf, 12), |buf|);
    Fits(Rest(buf, 12), |buf|)
    || (cs != [] && |Last(cs)| >= 8 && (Metadata(Letters(Last(cs), 0)) || Declared(Last(cs)) <= 12 + |Concat(Cleaned(cs))|))
  }

  lemma WalkOfRewritten(out: seq<Byte>, ws: seq<seq<Byte>>, last: seq<Byte>)
    requires AllWhole(ws) && 8 <= |last| <= Span(last) && out == Rebuilt(Concat(ws + Cleaned([last])))
    ensures Walk(Rest(out, 12), |out|)
         == ws + if Metadata(Letters(last, 0)) || Declared(last) <= |out| then Cleaned([last]) else []
    ensures !Metadata(Letters(last, 0)) ==> |out| >= |last|
  {
    var c := CleanChunk(last);
    CleanedOne(last);
    if Metadata(Letters(last, 0)) {
      assert ws + [] == ws;
      WalkOfRebuilt(ws);
    } else {
      ConcatLast(ws, c);
      RebuiltParts(Concat(ws + [c]));
      WalkOfCut(ws, c);
    }
  }

  /** What the walk over the stripped file finds. */
  lemma WalkOfStripped(buf: seq<Byte>) returns (init: seq<seq<Byte>>, last: seq<Byte>)
    requires AtChunk(Rest(buf, 12), |buf|)
    ensures var cs, out := Walk(Rest(buf, 12), |buf|), Stripped(buf);
            && EndsWith(cs, init, last) && cs != [] && Last(cs) == last
            && Cleaned(cs) == Cleaned(init) + Cleaned([last])
            && (LastSurvives(buf) <==> Metadata(Letters(last, 0)) || Declared(last) <= |out|)
            && Walk(Rest(out, 12), |out|) == if LastSurvives(buf) then Cleaned(cs) else Cleaned(init)
  {
    init, last := WalkShape(Rest(buf, 12), |buf|);
    CleanedAppend(init, [last]);
    CleanedIsWhole(init);
    WalkOfRewritten(Stripped(buf), Cleaned(init), last);
    Regroup(Cleaned(init), [], []);
  }

  /**
   * The walk over the stripped file is the cleaned walk, in order, exactly when the last chunk survives; and a
   * rewritten file states its own length.
   */
  lemma WalkAfterStrip(buf: seq<Byte>)
    ensures var out := Stripped(buf);
            && (Walk(Rest(out, 12), |out|) == Cleaned(Walk(Rest(buf, 12), |buf|)) <==> LastSurvives(buf))
            && (AtChunk(Rest(buf, 12), |buf|) && |out| < 0x1_0000_0000 ==>
                  |out| >= 12 && U32LE(out[4], out[5], out[6], out[7]) == |out| - 8)
  {
    if AtChunk(Rest(buf, 12), |buf|) {
      var init, last := WalkOfStripped(buf);
      RebuiltParts(Concat(Cleaned(Walk(Rest(buf, 12), |buf|))));
      CleanedOne(last);
    }
  }

  /** Stripping twice is stripping once exactly when the last chunk survives, or was the only one kept. */
  lemma StrippedIdempotent(buf: seq<Byte>)
    ensures Stripped(Stripped(buf)) == Stripped(buf)
       <==> LastSurvives(buf) || |Cleaned(Walk(Rest(buf, 12), |buf|))| == 1
  {
    if AtChunk(Rest(buf, 12), |buf|) {
      var init, last := WalkOfStripped(buf);
      SecondStrip(buf, init, last);
    }
  }

  lemma SecondStrip(buf: seq<Byte>, init: seq<seq<Byte>>, last: seq<Byte>)
    requires AtChunk(Rest(buf, 12), |buf|) && |last| >= 8
    requires var cs, out := Walk(Rest(buf, 12), |buf|), Stripped(buf);
             && Cleaned(cs) == Cleaned(init) + Cleaned([last]) && (Metadata(Letters(last, 0)) ==> LastSurvives(buf))
             && Walk(Rest(out, 12), |out|) == if LastSurvives(buf) then Cleaned(cs) else Cleaned(init)
    ensures Stripped(Stripped(buf)) == Stripped(buf)
       <==> LastSurvives(buf) || |Cleaned(Walk(Rest(buf, 12), |buf|))| == 1
  {
    var cs, out := Walk(Rest(buf, 12), |buf|), Stripped(buf);
    if LastSurvives(buf) {
      CleanedTwice(cs);
      StripOfWalk(out, Cleaned(cs));
    } else {
      CleanedTwice(init);
      CleanedOne(last);
      StripLosesLast(out, Cleaned(init), CleanChunk(last));
    }
  }

  lemma CleanedOne(c: seq<Byte>)
    requires |c| >= 8
    ensures Cleaned([c]) == if Metadata(Letters(c, 0)) then [] else [CleanChunk(c)]
  {
    CleanedStep(c, []);
    assert [c] + [] == [c];
  }

  lemma StripLosesLast(out: seq<Byte>, ws: seq<seq<Byte>>, c: seq<Byte>)
    requires |c| >= 8 && out == Rebuilt(Concat(ws + [c])) && Cleaned(ws) == ws && Walk(Rest(out, 12), |out|) == ws
    ensures Stripped(out) == out <==> ws == []
  {
    StripOfWalk(out, ws);
    ConcatLast(ws, c);
    RebuiltParts(Concat(ws + [c]));
    RebuiltParts(Concat(ws));
  }

  lemma StripOfWalk(out: seq<Byte>, cs: seq<seq<Byte>>)
    requires Walk(Rest(out, 12), |out|) == cs && Cleaned(cs) == cs
    ensures Stripped(out) == if cs == [] then out else Rebuilt(Concat(cs))
  {}

  /** No EXIF or XMP chunk is left, and no flag that advertises one. */
  lemma {:induction false} NoMetadataLeft(cs: seq<seq<Byte>>)
    ensures forall c :: c in Cleaned(cs) ==>
              && |c| >= 8 && !Metadata(Letters(c, 0))
              && (Letters(c, 0) == VP8X && |c| >= 9 ==> c[8] / 4 % 4 == 0)
  {
    if cs != [] { NoMetadataLeft(cs[1..]); }
  }

  /** The flags are no part of the size. */
  lemma {:induction false} SizeInCleaned(cs: seq<seq<Byte>>)
    ensures SizeIn(Cleaned(cs)) == SizeIn(cs)
  {
    if cs != [] {
      SizeInCleaned(cs[1..]);
      if |cs[0]| < 8 || Metadata(Letters(cs[0], 0)) {
        assert Cleaned(cs) == Cleaned(cs[1..]);
      } else {
        var c := CleanChunk(cs[0]);
        assert Cleaned(cs)[0] == c && Cleaned(cs)[1..] == Cleaned(cs[1..]);
        SizeOfCleanChunk(cs[0]);
      }
    }
  }

  lemma SizeOfCleanChunk(c: seq<Byte>)
    requires |c| >= 8
    ensures SizeFrom(Letters(c, 0), Sub(CleanChunk(c), 8, 8 + Declared(c)))
         == SizeFrom(Letters(c, 0), Sub(c, 8, 8 + Declared(c)))
  {
    var a, b := Sub(CleanChunk(c), 8, 8 + Declared(c)), Sub(c, 8, 8 + Declared(c));
    assert |a| == |b|;
    assert forall k :: 1 <= k < |a| ==> a[k] == b[k];
  }

  lemma {:induction false} SizeInAppend(a: seq<seq<Byte>>, b: seq<seq<Byte>>)
    ensures SizeIn(a + b) == if SizeIn(a).Silent? then SizeIn(b) else SizeIn(a)
  {
    if a == [] {
      assert a + b == b;
    } else {
      assert (a + b)[1..] == a[1..] + b;
      SizeInAppend(a[1..], b);
    }
  }

  /** The size survives exactly when the last chunk does, or some earlier chunk tells it, or the last one is silent. */
  predicate SizeStays(buf: seq<Byte>) {
    var cs := Walk(Rest(buf, 12), |buf|);
    LastSurvives(buf) || (cs != [] && (!SizeIn(cs[..|cs| - 1]).Silent? || SizeIn([Last(cs)]).Silent?))
  }

  lemma SizeSurvives(buf: seq<Byte>)
    ensures SizeOf(Stripped(buf)) == SizeOf(buf) <==> SizeStays(buf)
  {
    if AtChunk(Rest(buf, 12), |buf|) {
      var cs := Walk(Rest(buf, 12), |buf|);
      var init, last := WalkOfStripped(buf);
      assert cs[..|cs| - 1] == init;
      SizeInCleaned(cs);
      SizeInCleaned(init);
      SizeInAppend(init, [last]);
    }
  }

  // ----- A file that does not fit -----

  /** A chunk that claims more than is there, yet less than the file, is lost on the second pass. */
  lemma CutChunkIsLostLater(a: seq<Byte>, exif: seq<Byte>, cut: seq<Byte>, head: seq<Byte>)
    requires |head| == 12 && |a| == 8 && Declared(a) == 0 && Letters(a, 0) == VP8
    requires |exif| == 10 && Declared(exif) == 2 && Letters(exif, 0) == EXIF
    requires |cut| == 8 && Declared(cut) == 30 && Letters(cut, 0) == VP8
    ensures var buf := head + (a + (exif + cut));
            Stripped(buf) == Rebuilt(a + cut) && Stripped(Stripped(buf)) == Rebuilt(a)
  {
    var buf := head + (a + (exif + cut));
    assert Rest(buf, 12) == a + (exif + cut);
    FirstPass(a, exif, cut, |buf|);
    SecondPass(a, cut);
  }

  lemma FirstPass(a: seq<Byte>, exif: seq<Byte>, cut: seq<Byte>, limit: nat)
    requires |a| == 8 && Declared(a) == 0 && Letters(a, 0) == VP8
    requires |exif| == 10 && Declared(exif) == 2 && Letters(exif, 0) == EXIF
    requires |cut| == 8 && Declared(cut) == 30 <= limit && Letters(cut, 0) == VP8
    ensures AtChunk(a + (exif + cut), limit) && Concat(Cleaned(Walk(a + (exif + cut), limit))) == a + cut
  {
    FrontChunk(a, exif + cut, limit);
    FrontWalk(a, exif + cut, limit);
    FrontWalk(exif, cut, limit);
    LoneChunk(cut, limit);
    CleanedStep(a, [exif] + [cut]);
    CleanedStep(exif, [cut]);
    CleanedStep(cut, []);
    assert [cut] + [] == [cut];
    assert Cleaned([a] + ([exif] + [cut])) == [a] + [cut];
    Two(a, cut);
  }

  lemma LoneChunk(c: seq<Byte>, limit: nat)
    requires |c| == 8 && 0 < Declared(c) <= limit
    ensures Walk(c, limit) == [c]
  {
    assert c[..8] == c && c[8..] == [];
    assert Walk(c, limit) == [c] + Walk([], limit);
  }

  lemma SecondPass(a: seq<Byte>, cut: seq<Byte>)
    requires |a| == 8 && Declared(a) == 0 && Letters(a, 0) == VP8
    requires |cut| == 8 && Declared(cut) == 30 && Letters(cut, 0) == VP8
    ensures Stripped(Rebuilt(a + cut)) == Rebuilt(a)
  {
    var limit := |Rebuilt(a + cut)|;
    RebuiltParts(a + cut);
    FrontChunk(a, cut, limit);
    FrontWalk(a, cut, limit);
    assert Walk(cut, limit) == [];
    CleanedStep(a, []);
    assert Concat([a]) == a + Concat<Byte>([]);
  }

  lemma Two(a: seq<Byte>, b: seq<Byte>)
    ensures Concat([a] + [b]) == a + b
  {
    assert ([a] + [b])[1..] == [b] && [b][1..] == [];
    assert Concat([b]) == b + Concat<Byte>([]);
  }

  // ----- Written files -----

  /** The length of a body, least significant byte first. */
  function BodyLength(c: seq<Byte>): nat
    requires |c| >= 8
  {
    c[4] as int + 256 * c[5] as int + 65536 * c[6] as int + 16777216 * c[7] as int
  }

  /** A whole chunk: tag, length, body, and a pad byte after an odd length. */
  predicate Written(c: seq<Byte>) {
    |c| >= 8 && |c| == 8 + BodyLength(c) + BodyLength(c) % 2
  }

  predicate Tagged(c: seq<Byte>, a: Byte, b: Byte, d: Byte, e: Byte) {
    |c| >= 4 && c[0] == a && c[1] == b && c[2] == d && c[3] == e
  }

  /** Neither "VP8X" nor "VP8 " nor "VP8L". */
  predicate Other(c: seq<Byte>) {
    !Tagged(c, 86, 80, 56, 88) && !Tagged(c, 86, 80, 56, 32) && !Tagged(c, 86, 80, 56, 76)
  }

  /** An extended header: width and height less one, in three bytes each. */
  predicate TellsExtended(c: seq<Byte>, w: nat, h: nat) {
    && Written(c) && Tagged(c, 86, 80, 56, 88) && BodyLength(c) >= 10
    && w == 1 + c[12] as int + 256 * c[13] as int + 65536 * c[14] as int
    && h == 1 + c[15] as int + 256 * c[16] as int + 65536 * c[17] as int
  }

  /** A lossy frame: a start code, then width and height in 14 bits each, under two bits of scale. */
  predicate TellsLossy(c: seq<Byte>, w: nat, h: nat, wide: nat, high: nat) {
    && Written(c) && Tagged(c, 86, 80, 56, 32) && BodyLength(c) >= 10
    && c[11] == 0x9d && c[12] == 0x01 && c[13] == 0x2a && w < 16384 && h < 16384
    && c[14] as int + 256 * c[15] as int == w + 16384 * wide && c[16] as int + 256 * c[17] as int == h + 16384 * high
  }

  /** A lossless stream: width and height less one in 14 bits each, under four more bits. */
  predicate TellsLossless(c: seq<Byte>, w: nat, h: nat, more: nat) {
    && Written(c) && Tagged(c, 86, 80, 56, 76) && BodyLength(c) >= 5 && 1 <= w <= 16384 && 1 <= h <= 16384
    && c[9] as int + 256 * c[10] as int + 65536 * c[11] as int + 16777216 * c[12] as int
       == (w - 1) + 16384 * (h - 1) + 268435456 * more
  }

  ghost predicate Tells(c: seq<Byte>, w: nat, h: nat) {
    || TellsExtended(c, w, h)
    || (exists wide: nat, high: nat :: TellsLossy(c, w, h, wide, high))
    || (exists more: nat :: TellsLossless(c, w, h, more))
  }

  function SaysOf(c: seq<Byte>): Says
    requires |c| >= 8
  {
    SizeFrom(Letters(c, 0), Sub(c, 8, 8 + Declared(c)))
  }

  lemma ReadsExtended(c: seq<Byte>, w: nat, h: nat)
    requires TellsExtended(c, w, h)
    ensures SaysOf(c) == Measured(w, h)
  {
    BodyOf(c);
  }

  lemma ReadsLossy(c: seq<Byte>, w: nat, h: nat, wide: nat, high: nat)
    requires TellsLossy(c, w, h, wide, high)
    ensures SaysOf(c) == Measured(w, h)
  {
    BodyOf(c);
    var body := Sub(c, 8, 8 + Declared(c));
    assert body[3] == c[11] && body[4] == c[12] && body[5] == c[13];
    assert U16LE(body[6], body[7]) == w + 16384 * wide && U16LE(body[8], body[9]) == h + 16384 * high;
    LowBits(w, wide);
    LowBits(h, high);
    assert Letters(c, 0) == VP8;
  }

  lemma ReadsLossless(c: seq<Byte>, w: nat, h: nat, more: nat)
    requires TellsLossless(c, w, h, more)
    ensures SaysOf(c) == Measured(w, h)
  {
    BodyOf(c);
    LowBits(w - 1, h - 1 + 16384 * more);
    LowBits(h - 1, more);
  }

  lemma LowBits(low: nat, high: nat)
    requires low < 16384
    ensures (low + 16384 * high) % 16384 == low && (low + 16384 * high) / 16384 == high
  {}

  lemma BodyOf(c: seq<Byte>)
    requires Written(c)
    ensures Declared(c) == BodyLength(c) && Span(c) == |c| && Sub(c, 8, 8 + Declared(c)) == c[8..8 + BodyLength(c)]
  {
    assert Declared(c) == U32LE(c[4], c[5], c[6], c[7]) == BodyLength(c);
  }

  lemma OthersAreSilent(cs: seq<seq<Byte>>)
    requires forall c :: c in cs ==> Written(c) && Other(c)
    ensures AllWhole(cs) && SizeIn(cs).Silent?
  {
    forall c | c in cs ensures |c| == Span(c) { BodyOf(c); }
    if cs != [] {
      assert cs[0] in cs && forall c :: c in cs[1..] ==> c in cs;
      OthersAreSilent(cs[1..]);
    }
  }

  /** Behind a header of twelve bytes and any other chunks, the first chunk that tells a size is believed. */
  lemma ReadsWrittenSize(head: seq<Byte>, others: seq<seq<Byte>>, c: seq<Byte>, more: seq<Byte>, w: nat, h: nat)
    requires |head| == 12 && (forall x :: x in others ==> Written(x) && Other(x)) && Written(c) && Tells(c, w, h)
    ensures SizeOf(head + (Concat(others) + (c + more))) == Measured(w, h)
  {
    var rest := c + more;
    var buf := head + (Concat(others) + rest);
    assert Rest(buf, 12) == Concat(others) + rest;
    OthersAreSilent(others);
    WalkOfWhole(others, rest, |buf|);
    BodyOf(c);
    FrontWalked(c, more, |buf|);
    SizeInAppend(others, Walk(rest, |buf|));
    TellsWhatItSays(c, w, h);
  }

  lemma TellsWhatItSays(c: seq<Byte>, w: nat, h: nat)
    requires Written(c) && Tells(c, w, h)
    ensures SaysOf(c) == Measured(w, h)
  {
    if TellsExtended(c, w, h) {
      ReadsExtended(c, w, h);
    } else if wide: nat, high: nat :| TellsLossy(c, w, h, wide, high) {
      ReadsLossy(c, w, h, wide, high);
    } else {
      var more: nat :| TellsLossless(c, w, h, more);
      ReadsLossless(c, w, h, more);
    }
  }

  lemma FrontWalked(c: seq<Byte>, more: seq<Byte>, limit: nat)
    requires |c| >= 8 && Span(c) == |c| && |c| <= limit
    ensures Walk(c + more, limit) == [c] + Walk(more, limit)
    ensures SizeIn(Walk(c + more, limit)) == if SaysOf(c).Silent? then SizeIn(Walk(more, limit)) else SaysOf(c)
  {
    var s := c + more;
    assert Declared(s) == Declared(c) && s[..|c|] == c && s[|c|..] == more;
    SizeStep(c, Walk(more, limit));
  }


  /** The two bits that announce EXIF and XMP are taken out of the flags. */
  function Unannounced(c: seq<Byte>): seq<Byte> {
    if Tagged(c, 86, 80, 56, 88) && |c| >= 9 then c[8 := ((c[8] as int - c[8] as int / 4 % 4 * 4)) as Byte] else c
  }

  /** Everything but "EXIF" and "XMP " chunks. */
  function WithoutPersonal(chunks: seq<seq<Byte>>): seq<seq<Byte>> {
    if chunks == [] then []
    else (if Tagged(chunks[0], 69, 88, 73, 70) || Tagged(chunks[0], 88, 77, 80, 32) then [] else [Unannounced(chunks[0])])
         + WithoutPersonal(chunks[1..])
  }

  lemma {:induction false} CleanedOfWritten(chunks: seq<seq<Byte>>)
    requires forall i :: 0 <= i < |chunks| ==> Written(chunks[i])
    ensures Cleaned(chunks) == WithoutPersonal(chunks)
  {
    if chunks != [] {
      CleanedOfWritten(chunks[1..]);
      CleanedFirst(chunks[0]);
    }
  }

  lemma CleanedFirst(c: seq<Byte>)
    requires Written(c)
    ensures CleanChunk(c) == Unannounced(c)
    ensures Metadata(Letters(c, 0)) <==> Tagged(c, 69, 88, 73, 70) || Tagged(c, 88, 77, 80, 32)
  {
    if |c| >= 9 { assert ClearFlags(c[8]) as int == c[8] as int - c[8] as int / 4 % 4 * 4; }
  }

  lemma WalkOfWritten(chunks: seq<seq<Byte>>, limit: nat)
    requires (forall i :: 0 <= i < |chunks| ==> Written(chunks[i])) && |Concat(chunks)| <= limit
    ensures Walk(Concat(chunks), limit) == chunks
  {
    forall c | c in chunks ensures |c| >= 8 && |c| == Span(c) { BodyOf(c); }
    WalkOfWhole(chunks, [], limit);
    Regroup(Concat(chunks), [], []);
    Regroup(chunks, [], []);
  }

  /** Stripping a written file writes it anew with exactly the other chunks, unannounced, and its own length in front. */
  lemma StripsWritten(head: seq<Byte>, chunks: seq<seq<Byte>>)
    requires |head| == 12 && chunks != [] && forall i :: 0 <= i < |chunks| ==> Written(chunks[i])
    ensures var body, out := Concat(WithoutPersonal(chunks)), Stripped(head + Concat(chunks));
            && |out| == 12 + |body| && out[12..] == body
            && out[..4] == [82, 73, 70, 70] && out[8..12] == [87, 69, 66, 80]
            && (|out| - 8 < 0x1_0000_0000 ==>
                  out[4] as int + 256 * out[5] as int + 65536 * out[6] as int + 16777216 * out[7] as int == |out| - 8)
  {
    var buf, body := head + Concat(chunks), Concat(WithoutPersonal(chunks));
    assert Rest(buf, 12) == Concat(chunks);
    WalkOfWritten(chunks, |buf|);
    CleanedOfWritten(chunks);
    assert Walk(Rest(buf, 12), |buf|) == chunks != [];
    assert Stripped(buf) == Rebuilt(body);
    RebuiltBytes(body);
  }

  lemma RebuiltBytes(body: seq<Byte>)
    ensures var out := Rebuilt(body);
            && |out| == 12 + |body| && out[12..] == body
            && out[..4] == [82, 73, 70, 70] && out[8..12] == [87, 69, 66, 80]
            && (|out| - 8 < 0x1_0000_0000 ==>
                  out[4] as int + 256 * out[5] as int + 65536 * out[6] as int + 16777216 * out[7] as int == |out| - 8)
  {
    var n, size := 4 + |body|, LE4(4 + |body|);
    var out := Rebuilt(body);
    assert out[4] == size[0] && out[5] == size[1] && out[6] == size[2] && out[7] == size[3];
    if n < 0x1_0000_0000 { LE4RoundTrip(n); }
  }
}
