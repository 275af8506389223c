/** Finding the one file part of a multipart body. */
module Multipart {
  import opened Prelude
  import opened Bytes

  type Buffer = seq<Byte>

  const DASHES: Buffer := [45, 45]
  const CRLF: Buffer := [13, 10]
  const BLANK_LINE: Buffer := [13, 10, 13, 10]

  /** What the header patterns read out of a part's header block. */
  datatype Headers = Headers(name: Option<string>, filename: Option<string>, contentType: string)

  datatype FilePart = FilePart(filename: string, contentType: string, bytes: Buffer)

  // ----- Searching -----

  predicate StartsWith(s: Buffer, pat: Buffer) {
    |pat| <= |s| && s[..|pat|] == pat
  }

  /** The first position of a pattern. */
  function First(s: Buffer, pat: Buffer): Option<nat> {
    if StartsWith(s, pat) then Some(0)
    else if s == [] then None
    else
      match First(s[1..], pat)
      case None => None
      case Some(i) => Some(i + 1)
  }

  /** The buffer's own search, from an index. */
  function IndexOf(body: Buffer, pat: Buffer, from: nat): Option<nat>
    requires from <= |body|
  {
    match First(body[from..], pat)
    case None => None
    case Some(i) => Some(from + i)
  }

  lemma {:induction false} FirstFits(s: Buffer, pat: Buffer)
    requires First(s, pat).Some?
    ensures First(s, pat).value + |pat| <= |s| && StartsWith(s[First(s, pat).value..], pat)
  {
    if !StartsWith(s, pat) {
      FirstFits(s[1..], pat);
      assert s[First(s, pat).value..] == s[1..][First(s[1..], pat).value..];
    }
  }

  /** Nothing lies before the first position. */
  lemma {:induction false} FirstIsFirst(s: Buffer, pat: Buffer, q: nat)
    requires q <= |s| && StartsWith(s[q..], pat)
    ensures First(s, pat).Some? && First(s, pat).value <= q
  {
    if q == 0 {
      assert s[0..] == s;
    } else if !StartsWith(s, pat) {
      assert s[1..][q - 1..] == s[q..];
      FirstIsFirst(s[1..], pat, q - 1);
    }
  }

  /** What is found stays found, whatever follows. */
  lemma {:induction false} FirstExtends(s: Buffer, more: Buffer, pat: Buffer)
    requires First(s, pat).Some?
    ensures First(s + more, pat) == First(s, pat)
  {
    FirstFits(s, pat);
    if StartsWith(s, pat) {
      assert (s + more)[..|pat|] == s[..|pat|];
    } else {
      assert (s + more)[1..] == s[1..] + more;
      FirstExtends(s[1..], more, pat);
      assert |pat| <= |s| ==> (s + more)[..|pat|] == s[..|pat|];
    }
  }

  // ----- The search for the file part -----

  predicate Wanted(headers: Headers, field: string) {
    headers.name == Some(field) && headers.filename.Some?
  }

  /** What one delimiter line leads to: the end of the search, the wanted part, or the rest from the next line on. */
  datatype Look = Stop | Hit(part: FilePart) | More(rest: Option<Buffer>)

  /** From the blank line of a part: its content ends two bytes before the next delimiter, or with the body. */
  function Content(s: Buffer, next: Option<nat>): Buffer {
    Sub(s, 4, if next.None? then |s| else if next.value < 2 then 0 else next.value - 2)
  }

  function AfterHead(s: Buffer, delimiter: Buffer, field: string, headers: Headers): (step: Look)
    ensures step.More? && step.rest.Some? ==> StartsWith(step.rest.value, delimiter) && |step.rest.value| <= |s|
  {
    var next := First(s, delimiter);
    if Wanted(headers, field) then Hit(FilePart(headers.filename.value, headers.contentType, Content(s, next)))
    else if next.None? then More(None)
    else
      FirstFits(s, delimiter);
      More(Some(s[next.value..]))
  }

  /** With the blank line found, or not. */
  function AtBlankLine(s: Buffer, end: Option<nat>, delimiter: Buffer, field: string, read: Buffer -> Headers): (step: Look)
    requires end.Some? ==> end.value <= |s|
    ensures step.More? && step.rest.Some? ==> StartsWith(step.rest.value, delimiter) && |step.rest.value| <= |s|
  {
    if end.None? then Stop else AfterHead(s[end.value..], delimiter, field, read(s[..end.value]))
  }

  /** What follows a delimiter. */
  function LookAt(s: Buffer, delimiter: Buffer, field: string, read: Buffer -> Headers): (step: Look)
    ensures step.More? && step.rest.Some? ==> StartsWith(step.rest.value, delimiter) && |step.rest.value| <= |s|
  {
    if Sub(s, 0, 2) == DASHES then Stop
    else
      BlankLineFits(s);
      AtBlankLine(s, First(s, BLANK_LINE), delimiter, field, read)
  }

  lemma BlankLineFits(s: Buffer)
    ensures First(s, BLANK_LINE).Some? ==> First(s, BLANK_LINE).value + 4 <= |s|
  {
    if First(s, BLANK_LINE).Some? { FirstFits(s, BLANK_LINE); }
  }

  function FindIn(s: Buffer, delimiter: Buffer, field: string, read: Buffer -> Headers): Option<FilePart>
    requires delimiter != [] && StartsWith(s, delimiter)
    decreases |s|
  {
    match LookAt(s[|delimiter|..], delimiter, field, read)
    case Stop => None
    case Hit(part) => Some(part)
    case More(None) => None
    case More(Some(rest)) => FindIn(rest, delimiter, field, read)
  }

  function Found(body: Buffer, delimiter: Buffer, field: string, read: Buffer -> Headers): Option<FilePart>
    requires delimiter != []
  {
    if First(body, delimiter).None? then None
    else
      FirstFits(body, delimiter);
      FindIn(body[First(body, delimiter).value..], delimiter, field, read)
  }

  datatype Step = Done(part: Option<FilePart>) | Next(cursor: Option<nat>)

  /** The position a step names is where the rest begins that a look names. */
  ghost predicate Follows(body: Buffer, from: nat, step: Step, look: Look) {
    match look
    case Stop => step == Done(None)
    case Hit(part) => step == Done(Some(part))
    case More(None) => step == Next(None)
    case More(Some(rest)) => step.Next? && step.cursor.Some? && from <= step.cursor.value <= |body| && body[step.cursor.value..] == rest
  }

  lemma CutRest(body: Buffer, i: nat, k: nat)
    requires i + k <= |body|
    ensures body[i..][k..] == body[i + k..] && body[i..][..k] == body[i..i + k]
  {}

  method AfterHeadAt(body: Buffer, delimiter: Buffer, end: nat, field: string, headers: Headers) returns (step: Step)
    requires delimiter != [] && end <= |body|
    ensures Follows(body, end, step, AfterHead(body[end..], delimiter, field, headers))
  {
    var next := IndexOf(body, delimiter, end);
    if next.Some? {
      FirstFits(body[end..], delimiter);
      CutRest(body, end, next.value - end);
    }
    if Wanted(headers, field) {
      var bytes := ContentAt(body, end, next);
      return Done(Some(FilePart(headers.filename.value, headers.contentType, bytes)));
    }
    return Next(next);
  }

  method AtBlankLineAt(body: Buffer, delimiter: Buffer, start: nat, headerEnd: Option<nat>, field: string, read: Buffer -> Headers)
    returns (step: Step)
    requires delimiter != [] && start <= |body| && (headerEnd.Some? ==> start <= headerEnd.value <= |body|)
    ensures var end := if headerEnd.None? then None else Some(headerEnd.value - start);
            Follows(body, start, step, AtBlankLine(body[start..], end, delimiter, field, read))
  {
    if headerEnd.None? { return Done(None); }
    var end := headerEnd.value;
    CutRest(body, start, end - start);
    step := AfterHeadAt(body, delimiter, end, field, read(body[start..end]));
  }

  /** The index arithmetic of one round of the loop does what a look at the rest of the body does. */
  method LookAtPart(body: Buffer, delimiter: Buffer, start: nat, field: string, read: Buffer -> Headers) returns (step: Step)
    requires delimiter != [] && start <= |body|
    ensures Follows(body, start, step, LookAt(body[start..], delimiter, field, read))
  {
    assert Sub(body, start, start + 2) == Sub(body[start..], 0, 2);
    if Sub(body, start, start + 2) == DASHES { return Done(None); }
    BlankLineFits(body[start..]);
    var headerEnd := IndexOf(body, BLANK_LINE, start);
    step := AtBlankLineAt(body, delimiter, start, headerEnd, field, read);
  }

  method ContentAt(body: Buffer, end: nat, next: Option<nat>) returns (bytes: Buffer)
    requires end <= |body| && (next.Some? ==> end <= next.value <= |body|)
    ensures bytes == Content(body[end..], if next.None? then None else Some(next.value - end))
  {
    var bodyEnd: int := |body|;
    if next.Some? { bodyEnd := next.value as int - 2; }
    bytes := Sub(body, end + 4, if bodyEnd >= end then bodyEnd else end);
  }

  method FindFilePart(body: Buffer, boundary: Buffer, field: string, read: Buffer -> Headers) returns (part: Option<FilePart>)
    ensures part == Found(body, DASHES + boundary, field, read)
  {
    var delimiter := DASHES + boundary;
    assert body[0..] == body;
    var cursor := IndexOf(body, delimiter, 0);
    if cursor.Some? { FirstFits(body, delimiter); }
    while cursor.Some?
      invariant cursor.Some? ==> cursor.value <= |body| && StartsWith(body[cursor.value..], delimiter)
      invariant Found(body, delimiter, field, read) == if cursor.None? then None else FindIn(body[cursor.value..], delimiter, field, read)
      decreases if cursor.Some? then |body| - cursor.value + 1 else 0
    {
      var start := cursor.value + |delimiter|;
      CutRest(body, cursor.value, |delimiter|);
      var step := LookAtPart(body, delimiter, start, field, read);
      if step.Done? { return step.part; }
      cursor := step.cursor;
    }
    return None;
  }

  // ----- Bodies as they are written -----

  /** A part: everything between its delimiter and the blank line, and its content. */
  datatype Part = Part(head: Buffer, content: Buffer)

  /** Parts one after the other, then whatever begins with the next delimiter. */
  function Before(delimiter: Buffer, parts: seq<Part>, rest: Buffer): (r: Buffer)
    requires StartsWith(rest, delimiter)
    ensures StartsWith(r, delimiter)
  {
    if parts == [] then rest
    else delimiter + (parts[0].head + (BLANK_LINE + parts[0].content + CRLF + Before(delimiter, parts[1..], rest)))
  }

  /** Parts, a closing delimiter, and whatever follows it. */
  function Rendered(delimiter: Buffer, parts: seq<Part>, epilogue: Buffer): Buffer {
    Before(delimiter, parts, delimiter + (DASHES + epilogue))
  }

  /** Parts, and one more that breaks off in its content. */
  function CutOff(delimiter: Buffer, parts: seq<Part>, last: Part): Buffer {
    Before(delimiter, parts, delimiter + (last.head + (BLANK_LINE + last.content)))
  }

  /** The first delimiter in a stretch of the body followed by a delimiter is the one that follows. */
  predicate FreeOf(stretch: Buffer, delimiter: Buffer) {
    First(stretch + delimiter, delimiter) == Some(|stretch|)
  }

  lemma FreeOfMeansNoOccurrence(stretch: Buffer, delimiter: Buffer)
    ensures FreeOf(stretch, delimiter) <==> forall q :: 0 <= q < |stretch| ==> !StartsWith((stretch + delimiter)[q..], delimiter)
  {
    var s := stretch + delimiter;
    assert s[|stretch|..] == delimiter;
    FirstIsFirst(s, delimiter, |stretch|);
    FirstFits(s, delimiter);
    forall q | 0 <= q < |stretch| && StartsWith(s[q..], delimiter) ensures First(s, delimiter).value <= q {
      FirstIsFirst(s, delimiter, q);
    }
  }

  /** The head is not the end mark, its blank line is the first one, and from there on only the next delimiter line is one. */
  predicate Clean(delimiter: Buffer, p: Part) {
    && (p.head + BLANK_LINE)[..2] != DASHES
    && FreeOf(p.head, BLANK_LINE)
    && FreeOf(BLANK_LINE + p.content + CRLF, delimiter)
  }

  /** The first part with the wanted name and a filename. */
  function FirstWanted(parts: seq<Part>, field: string, read: Buffer -> Headers): Option<FilePart> {
    if parts == [] then None
    else
      var headers := read(parts[0].head);
      if Wanted(headers, field) then Some(FilePart(headers.filename.value, headers.contentType, parts[0].content))
      else FirstWanted(parts[1..], field, read)
  }

  /** A part as it is written: the delimiter, its head, an empty line, its content, and the end of that line. */
  lemma PartIsWritten(delimiter: Buffer, p: Part, rest: Buffer)
    requires StartsWith(rest, delimiter)
    ensures Before(delimiter, [p], rest) == delimiter + p.head + [13, 10, 13, 10] + p.content + [13, 10] + rest
  {
    assert [p][1..] == [];
  }

  /** And the end of the body: two dashes behind the last delimiter. */
  lemma EndIsWritten(delimiter: Buffer, epilogue: Buffer)
    ensures Rendered(delimiter, [], epilogue) == delimiter + [45, 45] + epilogue
  {}

  /** A part is found if it is the first whose head names the field and a file; it gives what the head says, and its content. */
  lemma {:induction false} FirstWantedMeans(parts: seq<Part>, field: string, read: Buffer -> Headers)
    ensures match FirstWanted(parts, field, read)
            case None => forall i :: 0 <= i < |parts| ==> read(parts[i].head).name != Some(field) || read(parts[i].head).filename == None
            case Some(f) =>
              exists i :: 0 <= i < |parts| && read(parts[i].head) == Headers(Some(field), Some(f.filename), f.contentType)
                       && parts[i].content == f.bytes
                       && forall j :: 0 <= j < i ==> read(parts[j].head).name != Some(field) || read(parts[j].head).filename == None
  {
    if parts != [] {
      var headers := read(parts[0].head);
      if headers.name == Some(field) && headers.filename.Some? {
        assert FirstWanted(parts, field, read).Some?;
      } else {
        FirstWantedMeans(parts[1..], field, read);
        LaterWanted(parts, field, read);
      }
    }
  }

  lemma LaterWanted(parts: seq<Part>, field: string, read: Buffer -> Headers)
    requires parts != [] && !(read(parts[0].head).name == Some(field) && read(parts[0].head).filename.Some?)
    ensures FirstWanted(parts, field, read) == FirstWanted(parts[1..], field, read)
    ensures forall i :: 1 <= i < |parts| ==> parts[i] == parts[1..][i - 1]
  {}

  // ----- The search on a written body -----

  lemma FreeStretch(stretch: Buffer, pat: Buffer, rest: Buffer)
    requires FreeOf(stretch, pat) && StartsWith(rest, pat)
    ensures First(stretch + rest, pat) == Some(|stretch|)
  {
    var more := rest[|pat|..];
    assert rest == pat + more;
    Regroup(stretch, pat, more);
    FirstExtends(stretch + pat, more, pat);
  }

  lemma AfterHeadOnPart(delimiter: Buffer, content: Buffer, rest: Buffer, field: string, headers: Headers)
    requires FreeOf(BLANK_LINE + content + CRLF, delimiter) && StartsWith(rest, delimiter)
    ensures AfterHead(BLANK_LINE + content + CRLF + rest, delimiter, field, headers)
         == if Wanted(headers, field) then Hit(FilePart(headers.filename.value, headers.contentType, content)) else More(Some(rest))
  {
    var stretch := BLANK_LINE + content + CRLF;
    FreeStretch(stretch, delimiter, rest);
    var s := stretch + rest;
    assert s[|stretch|..] == rest;
    assert Content(s, Some(|stretch|)) == content;
  }

  lemma LookOnPart(delimiter: Buffer, p: Part, rest: Buffer, field: string, read: Buffer -> Headers)
    requires Clean(delimiter, p) && StartsWith(rest, delimiter)
    ensures LookAt(p.head + (BLANK_LINE + p.content + CRLF + rest), delimiter, field, read)
         == AfterHead(BLANK_LINE + p.content + CRLF + rest, delimiter, field, read(p.head))
  {
    var tail := BLANK_LINE + p.content + CRLF + rest;
    var s := p.head + tail;
    assert StartsWith(tail, BLANK_LINE);
    FreeStretch(p.head, BLANK_LINE, tail);
    assert Sub(s, 0, 2) == (p.head + BLANK_LINE)[..2];
    assert s[..|p.head|] == p.head && s[|p.head|..] == tail;
  }

  /** Clean parts are looked at one by one; when none is wanted the search goes on with what follows them. */
  lemma {:induction false} FindPastParts(delimiter: Buffer, parts: seq<Part>, rest: Buffer, field: string, read: Buffer -> Headers)
    requires delimiter != [] && StartsWith(rest, delimiter) && forall p :: p in parts ==> Clean(delimiter, p)
    ensures FindIn(Before(delimiter, parts, rest), delimiter, field, read)
         == if FirstWanted(parts, field, read).Some? then FirstWanted(parts, field, read) else FindIn(rest, delimiter, field, read)
  {
    if parts != [] {
      var s, p, later := Before(delimiter, parts, rest), parts[0], Before(delimiter, parts[1..], rest);
      assert s[|delimiter|..] == p.head + (BLANK_LINE + p.content + CRLF + later);
      LookOnPart(delimiter, p, later, field, read);
      AfterHeadOnPart(delimiter, p.content, later, field, read(p.head));
      FindPastParts(delimiter, parts[1..], rest, field, read);
    }
  }

  lemma NothingAfterTheEnd(delimiter: Buffer, epilogue: Buffer, field: string, read: Buffer -> Headers)
    requires delimiter != []
    ensures FindIn(delimiter + (DASHES + epilogue), delimiter, field, read) == None
  {
    assert (delimiter + (DASHES + epilogue))[|delimiter|..] == DASHES + epilogue;
    assert Sub(DASHES + epilogue, 0, 2) == DASHES;
  }

  lemma FindFromPreamble(preamble: Buffer, delimiter: Buffer, rest: Buffer, field: string, read: Buffer -> Headers)
    requires delimiter != [] && FreeOf(preamble, delimiter) && StartsWith(rest, delimiter)
    ensures Found(preamble + rest, delimiter, field, read) == FindIn(rest, delimiter, field, read)
  {
    FreeStretch(preamble, delimiter, rest);
    assert (preamble + rest)[|preamble|..] == rest;
  }

  /**
   * On every body written from parts, with no delimiter but at the delimiter lines, the search gives exactly the
   * first part with the wanted name and a filename, byte for byte, or nothing when there is none.
   */
  lemma FindsTheFirstWanted(preamble: Buffer, delimiter: Buffer, parts: seq<Part>, epilogue: Buffer, field: string, read: Buffer -> Headers)
    requires delimiter != [] && FreeOf(preamble, delimiter) && forall p :: p in parts ==> Clean(delimiter, p)
    ensures Found(preamble + Rendered(delimiter, parts, epilogue), delimiter, field, read) == FirstWanted(parts, field, read)
  {
    FindFromPreamble(preamble, delimiter, Rendered(delimiter, parts, epilogue), field, read);
    FindPastParts(delimiter, parts, delimiter + (DASHES + epilogue), field, read);
    NothingAfterTheEnd(delimiter, epilogue, field, read);
  }

  /** A part whose content breaks off with no delimiter behind it. */
  predicate Broken(delimiter: Buffer, p: Part) {
    (p.head + BLANK_LINE)[..2] != DASHES && FreeOf(p.head, BLANK_LINE) && First(BLANK_LINE + p.content, delimiter) == None
  }

  lemma FindInBroken(delimiter: Buffer, p: Part, field: string, read: Buffer -> Headers)
    requires delimiter != [] && Broken(delimiter, p)
    ensures FindIn(delimiter + (p.head + (BLANK_LINE + p.content)), delimiter, field, read) == FirstWanted([p], field, read)
  {
    var tail := BLANK_LINE + p.content;
    var s := p.head + tail;
    assert (delimiter + s)[|delimiter|..] == s;
    assert StartsWith(tail, BLANK_LINE);
    FreeStretch(p.head, BLANK_LINE, tail);
    assert Sub(s, 0, 2) == (p.head + BLANK_LINE)[..2];
    assert s[..|p.head|] == p.head && s[|p.head|..] == tail;
    assert Content(tail, None) == p.content;
    assert [p][1..] == [];
  }

  lemma {:induction false} FirstWantedAppend(a: seq<Part>, b: seq<Part>, field: string, read: Buffer -> Headers)
    ensures FirstWanted(a + b, field, read)
         == if FirstWanted(a, field, read).Some? then FirstWanted(a, field, read) else FirstWanted(b, field, read)
  {
    if a == [] {
      assert a + b == b;
    } else {
      assert (a + b)[1..] == a[1..] + b;
      FirstWantedAppend(a[1..], b, field, read);
    }
  }

  /** A body cut off inside a part is searched as if that part were whole: everything up to the cut is its content. */
  lemma CutBodyIsTakenWhole(preamble: Buffer, delimiter: Buffer, parts: seq<Part>, last: Part, field: string, read: Buffer -> Headers)
    requires delimiter != [] && FreeOf(preamble, delimiter) && (forall p :: p in parts ==> Clean(delimiter, p))
    requires Broken(delimiter, last)
    ensures Found(preamble + CutOff(delimiter, parts, last), delimiter, field, read) == FirstWanted(parts + [last], field, read)
  {
    var rest := delimiter + (last.head + (BLANK_LINE + last.content));
    FindFromPreamble(preamble, delimiter, CutOff(delimiter, parts, last), field, read);
    FindPastParts(delimiter, parts, rest, field, read);
    FindInBroken(delimiter, last, field, read);
    FirstWantedAppend(parts, [last], field, read);
  }

  // ----- Any body at all -----

  predicate Holds(s: Buffer, pat: Buffer, q: nat) {
    q <= |s| && StartsWith(s[q..], pat)
  }

  /** What comes before the next delimiter holds none, and neither does the end of a body that has no more. */
  lemma ContentHoldsNone(s: Buffer, delimiter: Buffer, q: nat)
    requires delimiter != []
    ensures !Holds(Content(s, First(s, delimiter)), delimiter, q)
  {
    var bytes := Content(s, First(s, delimiter));
    if Holds(bytes, delimiter, q) {
      assert bytes == s[4..4 + |bytes|];
      var there, here := s[4 + q..][..|delimiter|], bytes[q..][..|delimiter|];
      assert forall k :: 0 <= k < |delimiter| ==> there[k] == s[4 + q + k] == here[k];
      FirstIsFirst(s, delimiter, 4 + q);
    }
  }

  lemma {:induction false} NoDelimiterIn(s: Buffer, delimiter: Buffer, field: string, read: Buffer -> Headers, q: nat)
    requires delimiter != [] && StartsWith(s, delimiter) && FindIn(s, delimiter, field, read).Some?
    ensures !Holds(FindIn(s, delimiter, field, read).value.bytes, delimiter, q)
    decreases |s|
  {
    var after := s[|delimiter|..];
    var step := LookAt(after, delimiter, field, read);
    if step.Hit? {
      FirstFits(after, BLANK_LINE);
      ContentHoldsNone(after[First(after, BLANK_LINE).value..], delimiter, q);
    } else {
      NoDelimiterIn(step.rest.value, delimiter, field, read, q);
    }
  }

  /** Whatever the body, the bytes handed out never hold a delimiter. */
  lemma NoDelimiterInside(body: Buffer, delimiter: Buffer, field: string, read: Buffer -> Headers, q: nat)
    requires delimiter != [] && Found(body, delimiter, field, read).Some?
    ensures !Holds(Found(body, delimiter, field, read).value.bytes, delimiter, q)
  {
    FirstFits(body, delimiter);
    NoDelimiterIn(body[First(body, delimiter).value..], delimiter, field, read, q);
  }

  // ----- Reading the body -----

  /** What reading a request comes to: still reading, the whole body, too large, or broken. */
  datatype Reading = Pending | Whole(body: Buffer) | TooLarge | Failed

  datatype Event = Data(chunk: Buffer) | End | Error

  datatype Intake = Intake(chunks: seq<Buffer>, size: nat, outcome: Reading)

  function Receive(s: Intake, maxBytes: nat, e: Event): Intake {
    if s.outcome != Pending then s
    else
      match e
      case Data(chunk) =>
        if s.size + |chunk| > maxBytes then s.(size := s.size + |chunk|, outcome := TooLarge)
        else s.(size := s.size + |chunk|, chunks := s.chunks + [chunk])
      case End => s.(outcome := Whole(Concat(s.chunks)))
      case Error => s.(outcome := Failed)
  }

  class Collector {
    const maxBytes: nat
    var chunks: seq<Buffer>
    var size: nat
    var outcome: Reading

    function State(): Intake reads this { Intake(chunks, size, outcome) }

    constructor (maxBytes: nat)
      ensures this.maxBytes == maxBytes && State() == Intake([], 0, Pending)
    {
      this.maxBytes := maxBytes;
      chunks, size, outcome := [], 0, Pending;
    }

    method OnData(chunk: Buffer)
      modifies this
      ensures State() == Receive(old(State()), maxBytes, Data(chunk))
    {
      if outcome != Pending { return; }
      size := size + |chunk|;
      if size > maxBytes {
        outcome := TooLarge;
        return;
      }
      chunks := chunks + [chunk];
    }

    method OnEnd()
      modifies this
      ensures State() == Receive(old(State()), maxBytes, End)
    {
      if outcome != Pending { return; }
      var body: Buffer := [];
      for i := 0 to |chunks|
        invariant State() == old(State()) && body == Concat(chunks[..i])
      {
        assert chunks[..i + 1] == chunks[..i] + [chunks[i]];
        ConcatSnoc(chunks[..i], chunks[i]);
        body := body + chunks[i];
      }
      assert chunks[..|chunks|] == chunks;
      outcome := Whole(body);
    }

    method OnError()
      modifies this
      ensures State() == Receive(old(State()), maxBytes, Error)
    {
      if outcome == Pending { outcome := Failed; }
    }
  }

  function Received(maxBytes: nat, events: seq<Event>): Intake {
    if events == [] then Intake([], 0, Pending)
    else Receive(Received(maxBytes, events[..|events| - 1]), maxBytes, events[|events| - 1])
  }

  function DataIn(events: seq<Event>): seq<Buffer> {
    if events == [] then []
    else
      var e := events[|events| - 1];
      DataIn(events[..|events| - 1]) + if e.Data? then [e.chunk] else []
  }

  ghost predicate AllData(events: seq<Event>) { forall e :: e in events ==> e.Data? }

  /** While reading, all that came is kept, it is all that was counted, and it is within the limit. */
  lemma {:induction false} NeverHoldsMore(maxBytes: nat, events: seq<Event>)
    ensures var s := Received(maxBytes, events);
            |Concat(s.chunks)| <= maxBytes && (s.outcome.Pending? ==> s.size == |Concat(s.chunks)|)
            && (s.outcome.Whole? ==> |s.outcome.body| <= maxBytes)
  {
    if events != [] {
      var init, e := events[..|events| - 1], events[|events| - 1];
      NeverHoldsMore(maxBytes, init);
      if e.Data? { ConcatSnoc(Received(maxBytes, init).chunks, e.chunk); }
    }
  }

  lemma {:induction false} DataAlone(maxBytes: nat, events: seq<Event>)
    requires AllData(events)
    ensures var s := Received(maxBytes, events);
            && (s.outcome == Pending || s.outcome == TooLarge)
            && (s.outcome == Pending <==> |Concat(DataIn(events))| <= maxBytes)
            && (s.outcome == Pending ==> s.chunks == DataIn(events))
  {
    if events != [] {
      var init, e := events[..|events| - 1], events[|events| - 1];
      assert e in events && forall x :: x in init ==> x in events;
      DataAlone(maxBytes, init);
      NeverHoldsMore(maxBytes, init);
      ConcatSnoc(DataIn(init), e.chunk);
    }
  }

  /** A body that arrives to its end is accepted, whole and in order, exactly when it is within the limit. */
  lemma ReadsWholeBodies(maxBytes: nat, events: seq<Event>)
    requires AllData(events)
    ensures var body := Concat(DataIn(events));
            Received(maxBytes, events + [End]).outcome == if |body| <= maxBytes then Whole(body) else TooLarge
  {
    assert (events + [End])[..|events|] == events;
    DataAlone(maxBytes, events);
  }
}
