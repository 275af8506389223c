/** The rotating log file: one file a day, more when a file is full, and old days removed. */
module RotatingLog {
  import opened Prelude
  import opened Bytes

  const DAY_MS: nat := 86_400_000

  /** The name of a file: its day and its rotation index. */
  datatype FileId = FileId(day: int, index: nat)

  type Disk = map<FileId, seq<Byte>>

  datatype Log = Log(maxBytes: nat, retentionDays: nat, disk: Disk, day: int, index: nat, bytes: nat)
  {
    function Current(): FileId { FileId(day, index) }
  }

  // ----- The operations -----

  function DayFrom(disk: Disk, day: int, i: nat): set<FileId> {
    set f | f in disk && f.day == day && f.index >= i
  }

  /** The first index of the day whose file is missing or not full. */
  function FirstFree(disk: Disk, day: int, i: nat, maxBytes: nat): nat
    decreases |DayFrom(disk, day, i)|
  {
    if FileId(day, i) !in disk || |disk[FileId(day, i)]| < maxBytes then i
    else
      assert DayFrom(disk, day, i + 1) == DayFrom(disk, day, i) - {FileId(day, i)};
      FirstFree(disk, day, i + 1, maxBytes)
  }

  /** Opening for append creates a missing file and keeps an existing one. */
  function Touch(disk: Disk, f: FileId): Disk {
    if f in disk then disk else disk[f := []]
  }

  /** Opens, or resumes, the file for a given day. */
  function Open(l: Log, day: int): Log {
    var f := FileId(day, FirstFree(l.disk, day, 0, l.maxBytes));
    l.(disk := Touch(l.disk, f), day := day, index := f.index, bytes := if f in l.disk then |l.disk[f]| else 0)
  }

  /** A day whose midnight lies further back than the retention, at a given time of today. */
  predicate Expired(day: int, today: int, time: nat, retentionDays: nat) {
    day * DAY_MS < today * DAY_MS + time - retentionDays * DAY_MS
  }

  /** At any time of a day, files are removed that are older than the retention, or that old and midnight is over. */
  lemma ExpiredMeans(day: int, today: int, time: nat, retentionDays: nat)
    requires time < 86_400_000
    ensures Expired(day, today, time, retentionDays) <==> day < today - retentionDays || (day == today - retentionDays && time > 0)
  {
    var late := today - retentionDays - day;
    assert Expired(day, today, time, retentionDays) <==> late * DAY_MS + time > 0;
  }

  function Purge(l: Log, time: nat): Log {
    l.(disk := map f | f in l.disk && !Expired(f.day, l.day, time, l.retentionDays) :: l.disk[f])
  }

  function Rotate(l: Log): Log {
    l.(index := l.index + 1, bytes := 0, disk := Touch(l.disk, FileId(l.day, l.index + 1)))
  }

  /** Bytes go to the open file; once it is removed from the directory they are out of sight. */
  function Append(l: Log, chunk: seq<Byte>): Log {
    var f := l.Current();
    l.(disk := if f in l.disk then l.disk[f := l.disk[f] + chunk] else l.disk, bytes := l.bytes + |chunk|)
  }

  /** Makes room: a new day opens a new file and clears old ones, a full file is rotated. */
  function Ready(l: Log, today: int, time: nat, chunk: seq<Byte>): Log {
    if today != l.day then Purge(Open(l, today), time)
    else if l.bytes + |chunk| > l.maxBytes then Rotate(l)
    else l
  }

  function Write(l: Log, today: int, time: nat, chunk: seq<Byte>): Log {
    Append(Ready(l, today, time, chunk), chunk)
  }

  function Start(disk: Disk, maxBytes: nat, retentionDays: nat, today: int, time: nat): Log {
    Purge(Open(Log(maxBytes, retentionDays, disk, today, 0, 0), today), time)
  }

  /** The stream: a descriptor, a day, an index and a byte count over a directory. */
  class RotatingStream {
    const maxBytes: nat
    const retentionDays: nat
    var disk: Disk
    var day: int
    var index: nat
    var bytes: nat

    function State(): Log reads this {
      Log(maxBytes, retentionDays, disk, day, index, bytes)
    }

    constructor (disk: Disk, maxBytes: nat, retentionDays: nat, today: int, time: nat)
      ensures State() == Start(disk, maxBytes, retentionDays, today, time)
    {
      this.maxBytes, this.retentionDays, this.disk := maxBytes, retentionDays, disk;
      day, index, bytes := today, 0, 0;
      new;
      OpenDay(today);
      PurgeOld(time);
    }

    method OpenDay(nextDay: int)
      modifies this
      ensures State() == Open(old(State()), nextDay)
    {
      var candidate := 0;
      while FileId(nextDay, candidate) in disk && |disk[FileId(nextDay, candidate)]| >= maxBytes
        invariant State() == old(State())
        invariant FirstFree(disk, nextDay, candidate, maxBytes) == FirstFree(disk, nextDay, 0, maxBytes)
        decreases |DayFrom(disk, nextDay, candidate)|
      {
        assert DayFrom(disk, nextDay, candidate + 1) == DayFrom(disk, nextDay, candidate) - {FileId(nextDay, candidate)};
        candidate := candidate + 1;
      }
      var f := FileId(nextDay, candidate);
      bytes := if f in disk then |disk[f]| else 0;
      disk := Touch(disk, f);
      day, index := nextDay, candidate;
    }

    method PurgeOld(time: nat)
      modifies this
      ensures State() == Purge(old(State()), time)
    {
      var todo := disk.Keys;
      while todo != {}
        invariant todo <= old(disk).Keys
        invariant day == old(day) && index == old(index) && bytes == old(bytes)
        invariant disk == map f | f in old(disk) && (f in todo || !Expired(f.day, day, time, retentionDays)) :: old(disk)[f]
        decreases |todo|
      {
        var f :| f in todo;
        if Expired(f.day, day, time, retentionDays) { disk := disk - {f}; }
        todo := todo - {f};
      }
    }

    method WriteChunk(today: int, time: nat, chunk: seq<Byte>)
      modifies this
      ensures State() == Write(old(State()), today, time, chunk)
    {
      if today != day {
        OpenDay(today);
        PurgeOld(time);
      } else if bytes + |chunk| > maxBytes {
        index := index + 1;
        disk := Touch(disk, FileId(day, index));
        bytes := 0;
      }
      var f := FileId(day, index);
      if f in disk { disk := disk[f := disk[f] + chunk]; }
      bytes := bytes + |chunk|;
    }
  }

  // ----- What was written, file by file -----

  datatype Entry = Entry(day: int, time: nat, chunk: seq<Byte>)

  /** The chunks in every file but those of `foreign` days, the last index of every day kept, and everything written. */
  datatype Book = Book(foreign: set<int>, files: map<FileId, seq<seq<Byte>>>, last: map<int, nat>, written: seq<Entry>)

  function ChunksOf(written: seq<Entry>, day: int): seq<seq<Byte>> {
    if written == [] then []
    else
      var e := written[|written| - 1];
      ChunksOf(written[..|written| - 1], day) + if e.day == day then [e.chunk] else []
  }

  function In(files: map<FileId, seq<seq<Byte>>>, f: FileId): seq<seq<Byte>> {
    if f in files then files[f] else []
  }

  /** The chunks of a day's files up to an index, in file order. */
  function Gather(files: map<FileId, seq<seq<Byte>>>, day: int, n: nat): seq<seq<Byte>> {
    (if n == 0 then [] else Gather(files, day, n - 1)) + In(files, FileId(day, n))
  }

  lemma {:induction false} GatherFrame(a: map<FileId, seq<seq<Byte>>>, b: map<FileId, seq<seq<Byte>>>, day: int, n: nat)
    requires forall i: nat :: i <= n ==> In(a, FileId(day, i)) == In(b, FileId(day, i))
    ensures Gather(a, day, n) == Gather(b, day, n)
  {
    if n > 0 { GatherFrame(a, b, day, n - 1); }
  }

  /** Except on foreign days, the files are the ones the book knows, with the bytes it knows. */
  ghost predicate FilesMatch(l: Log, b: Book) {
    forall f: FileId :: f.day !in b.foreign ==>
      && (f in l.disk <==> f.day in b.last && f.index <= b.last[f.day])
      && (f in l.disk <==> f in b.files)
      && (f in l.disk ==> l.disk[f] == Concat(b.files[f]))
  }

  /** No file is too big, unless a single chunk made it so. */
  ghost predicate FilesFit(l: Log, b: Book) {
    forall f :: f in b.files && f.day !in b.foreign ==> |Concat(b.files[f])| <= l.maxBytes || |b.files[f]| == 1
  }

  /** Each kept day's files hold that day's chunks in order; nothing is known of days to come. */
  ghost predicate DaysMatch(l: Log, b: Book) {
    && (forall d :: d in b.last ==> d !in b.foreign && d <= l.day && Gather(b.files, d, b.last[d]) == ChunksOf(b.written, d))
    && (forall e :: e in b.written ==> e.day !in b.foreign && e.day <= l.day)
    && (forall e :: e in b.written && e.day > l.day - l.retentionDays ==> e.day in b.last)
  }

  ghost predicate Inv(l: Log, b: Book) {
    && l.retentionDays >= 1
    && l.day in b.last && b.last[l.day] == l.index
    && l.Current() in l.disk && l.bytes == |l.disk[l.Current()]|
    && FilesMatch(l, b) && FilesFit(l, b) && DaysMatch(l, b)
  }

  // ----- Each operation keeps the book right -----

  lemma {:induction false} NothingWritten(written: seq<Entry>, day: int)
    requires forall e :: e in written ==> e.day != day
    ensures ChunksOf(written, day) == []
  {
    if written != [] {
      assert written[|written| - 1] in written;
      NothingWritten(written[..|written| - 1], day);
    }
  }

  function OpenBook(b: Book, day: int): Book {
    b.(files := b.files[FileId(day, 0) := []], last := b.last[day := 0])
  }

  lemma OpenFiles(l: Log, b: Book, today: int)
    requires Inv(l, b) && today > l.day && today !in b.foreign
    ensures FilesMatch(Open(l, today), OpenBook(b, today)) && FilesFit(Open(l, today), OpenBook(b, today))
    ensures FileId(today, 0) !in l.disk
  {
    assert FileId(today, 0) !in l.disk;
  }

  lemma OpenDays(l: Log, b: Book, today: int)
    requires Inv(l, b) && today > l.day && today !in b.foreign
    ensures DaysMatch(Open(l, today), OpenBook(b, today))
  {
    var b' := OpenBook(b, today);
    NothingWritten(b.written, today);
    forall d | d in b'.last ensures Gather(b'.files, d, b'.last[d]) == ChunksOf(b'.written, d) {
      if d != today { GatherFrame(b.files, b'.files, d, b.last[d]); }
    }
  }

  lemma OpenKeeps(l: Log, b: Book, today: int)
    requires Inv(l, b) && today > l.day && today !in b.foreign
    ensures Inv(Open(l, today), OpenBook(b, today))
  {
    OpenFiles(l, b, today);
    OpenDays(l, b, today);
  }

  function PurgeBook(l: Log, b: Book, time: nat): Book {
    b.(files := map f | f in b.files && !Expired(f.day, l.day, time, l.retentionDays) :: b.files[f],
       last := map d | d in b.last && !Expired(d, l.day, time, l.retentionDays) :: b.last[d])
  }

  lemma NotExpired(day: int, today: int, time: nat, retentionDays: nat)
    requires time < DAY_MS && day > today - retentionDays
    ensures !Expired(day, today, time, retentionDays)
  {
    assert (day - today + retentionDays) * DAY_MS >= DAY_MS;
  }

  lemma PurgeKeeps(l: Log, b: Book, time: nat)
    requires Inv(l, b) && time < DAY_MS
    ensures Inv(Purge(l, time), PurgeBook(l, b, time))
  {
    var b' := PurgeBook(l, b, time);
    NotExpired(l.day, l.day, time, l.retentionDays);
    forall d | d in b'.last ensures Gather(b'.files, d, b'.last[d]) == ChunksOf(b'.written, d) {
      GatherFrame(b.files, b'.files, d, b.last[d]);
    }
    forall e | e in b.written && e.day > l.day - l.retentionDays ensures e.day in b'.last {
      NotExpired(e.day, l.day, time, l.retentionDays);
    }
  }

  function RotateBook(l: Log, b: Book): Book {
    b.(files := b.files[FileId(l.day, l.index + 1) := []], last := b.last[l.day := l.index + 1])
  }

  lemma RotateFiles(l: Log, b: Book)
    requires Inv(l, b)
    ensures FilesMatch(Rotate(l), RotateBook(l, b)) && FilesFit(Rotate(l), RotateBook(l, b))
    ensures FileId(l.day, l.index + 1) !in l.disk
  {}

  lemma RotateGather(l: Log, b: Book, d: int)
    requires Inv(l, b) && d in b.last
    ensures Gather(RotateBook(l, b).files, d, RotateBook(l, b).last[d]) == Gather(b.files, d, b.last[d])
  {
    GatherFrame(b.files, RotateBook(l, b).files, d, b.last[d]);
  }

  lemma RotateKeeps(l: Log, b: Book)
    requires Inv(l, b)
    ensures Inv(Rotate(l), RotateBook(l, b))
  {
    RotateFiles(l, b);
    forall d | d in b.last
      ensures Gather(RotateBook(l, b).files, d, RotateBook(l, b).last[d]) == Gather(b.files, d, b.last[d])
    {
      RotateGather(l, b, d);
    }
    assert DaysMatch(Rotate(l), RotateBook(l, b));
  }

  function AppendBook(l: Log, b: Book, time: nat, chunk: seq<Byte>): Book {
    b.(files := b.files[l.Current() := In(b.files, l.Current()) + [chunk]], written := b.written + [Entry(l.day, time, chunk)])
  }

  lemma AppendFiles(l: Log, b: Book, time: nat, chunk: seq<Byte>)
    requires Inv(l, b)
    requires l.bytes + |chunk| <= l.maxBytes || b.files[l.Current()] == []
    ensures FilesMatch(Append(l, chunk), AppendBook(l, b, time, chunk))
    ensures FilesFit(Append(l, chunk), AppendBook(l, b, time, chunk))
  {
    ConcatSnoc(b.files[l.Current()], chunk);
  }

  lemma AppendGather(l: Log, b: Book, time: nat, chunk: seq<Byte>, d: int)
    requires Inv(l, b) && d in b.last
    ensures Gather(AppendBook(l, b, time, chunk).files, d, b.last[d])
         == Gather(b.files, d, b.last[d]) + if d == l.day then [chunk] else []
  {
    var files := AppendBook(l, b, time, chunk).files;
    if d == l.day {
      GatherLast(b.files, files, d, l.index, chunk);
    } else {
      GatherFrame(b.files, files, d, b.last[d]);
      Regroup(Gather(b.files, d, b.last[d]), [], []);
    }
  }

  /** A chunk at the end of a day's last file comes last in the day. */
  lemma GatherLast(a: map<FileId, seq<seq<Byte>>>, b: map<FileId, seq<seq<Byte>>>, day: int, n: nat, chunk: seq<Byte>)
    requires b == a[FileId(day, n) := In(a, FileId(day, n)) + [chunk]]
    ensures Gather(b, day, n) == Gather(a, day, n) + [chunk]
  {
    if n > 0 { GatherFrame(a, b, day, n - 1); }
    Regroup(if n == 0 then [] else Gather(a, day, n - 1), In(a, FileId(day, n)), [chunk]);
  }

  lemma AppendKeeps(l: Log, b: Book, time: nat, chunk: seq<Byte>)
    requires Inv(l, b)
    requires l.bytes + |chunk| <= l.maxBytes || b.files[l.Current()] == []
    ensures Inv(Append(l, chunk), AppendBook(l, b, time, chunk))
  {
    AppendFiles(l, b, time, chunk);
    AppendDays(l, b, time, chunk);
  }

  lemma AppendDays(l: Log, b: Book, time: nat, chunk: seq<Byte>)
    requires Inv(l, b)
    ensures DaysMatch(Append(l, chunk), AppendBook(l, b, time, chunk))
  {
    var b' := AppendBook(l, b, time, chunk);
    assert b'.written[..|b.written|] == b.written;
    forall d | d in b'.last ensures Gather(b'.files, d, b'.last[d]) == ChunksOf(b'.written, d) {
      AppendGather(l, b, time, chunk, d);
    }
  }

  function ReadyBook(l: Log, b: Book, e: Entry): Book {
    if e.day != l.day then PurgeBook(Open(l, e.day), OpenBook(b, e.day), e.time)
    else if l.bytes + |e.chunk| > l.maxBytes then RotateBook(l, b)
    else b
  }

  function WriteBook(l: Log, b: Book, e: Entry): Book {
    AppendBook(Ready(l, e.day, e.time, e.chunk), ReadyBook(l, b, e), e.time, e.chunk)
  }

  lemma WriteKeeps(l: Log, b: Book, e: Entry)
    requires Inv(l, b) && e.day >= l.day && e.day !in b.foreign && e.time < DAY_MS
    ensures Inv(Write(l, e.day, e.time, e.chunk), WriteBook(l, b, e))
    ensures WriteBook(l, b, e).written == b.written + [e] && WriteBook(l, b, e).foreign == b.foreign
    ensures Write(l, e.day, e.time, e.chunk).day == e.day
  {
    var l', b' := Ready(l, e.day, e.time, e.chunk), ReadyBook(l, b, e);
    if e.day != l.day {
      OpenKeeps(l, b, e.day);
      PurgeKeeps(Open(l, e.day), OpenBook(b, e.day), e.time);
      assert b'.files[l'.Current()] == [];
    } else if l.bytes + |e.chunk| > l.maxBytes {
      RotateKeeps(l, b);
    }
    AppendKeeps(l', b', e.time, e.chunk);
  }

  // ----- Whole runs -----

  /** The days some file is of. */
  function DaysOf(disk: Disk): set<int> {
    set f | f in disk :: f.day
  }

  function FirstBook(disk: Disk, today: int): Book {
    Book(DaysOf(disk), map[FileId(today, 0) := []], map[today := 0], [])
  }

  lemma StartKeeps(disk: Disk, maxBytes: nat, retentionDays: nat, today: int, time: nat)
    requires retentionDays >= 1 && time < DAY_MS
    requires today !in DaysOf(disk)
    ensures Inv(Start(disk, maxBytes, retentionDays, today, time),
                PurgeBook(Open(Log(maxBytes, retentionDays, disk, today, 0, 0), today), FirstBook(disk, today), time))
  {
    var l := Open(Log(maxBytes, retentionDays, disk, today, 0, 0), today);
    assert FileId(today, 0) !in disk;
    PurgeKeeps(l, FirstBook(disk, today), time);
  }

  function Run(l: Log, events: seq<Entry>): Log {
    if events == [] then l
    else
      var e := events[|events| - 1];
      Write(Run(l, events[..|events| - 1]), e.day, e.time, e.chunk)
  }

  /** Dates never go back. */
  ghost predicate Ordered(today: int, events: seq<Entry>) {
    && (forall e :: e in events ==> e.day >= today && e.time < DAY_MS)
    && (forall i, j :: 0 <= i < j < |events| ==> events[i].day <= events[j].day)
  }

  ghost predicate Apart(events: seq<Entry>, foreign: set<int>) {
    forall e :: e in events ==> e.day !in foreign
  }

  /** The day the stream is at after some events. */
  function DayAfter(today: int, events: seq<Entry>): int {
    if events == [] then today else events[|events| - 1].day
  }

  lemma OrderedInit(today: int, events: seq<Entry>)
    requires events != [] && Ordered(today, events)
    ensures var init, e := events[..|events| - 1], events[|events| - 1];
            Ordered(today, init) && DayAfter(today, init) <= e.day && e.time < DAY_MS && init + [e] == events
  {
    var init, e := events[..|events| - 1], events[|events| - 1];
    assert e in events;
    forall x | x in init ensures x in events {}
  }

  /** After the events of a run the log matches a book that holds exactly these events. */
  ghost predicate Kept(l: Log, start: Log, foreign: set<int>, events: seq<Entry>, b: Book) {
    && Inv(l, b) && b.written == events && b.foreign == foreign
    && l.day == DayAfter(start.day, events) && l.retentionDays == start.retentionDays && l.maxBytes == start.maxBytes
  }

  lemma KeptStep(l: Log, start: Log, foreign: set<int>, events: seq<Entry>, b: Book, e: Entry)
    requires Kept(l, start, foreign, events, b) && e.day !in foreign && e.day >= DayAfter(start.day, events) && e.time < DAY_MS
    ensures Kept(Write(l, e.day, e.time, e.chunk), start, foreign, events + [e], WriteBook(l, b, e))
  {
    WriteKeeps(l, b, e);
    WriteLimits(l, e);
    assert (events + [e])[..|events|] == events;
  }

  lemma WriteLimits(l: Log, e: Entry)
    ensures var l' := Write(l, e.day, e.time, e.chunk); l'.retentionDays == l.retentionDays && l'.maxBytes == l.maxBytes
  {}

  lemma {:induction false} RunKeeps(l: Log, start: Book, events: seq<Entry>) returns (b: Book)
    requires Inv(l, start) && start.written == [] && Ordered(l.day, events) && Apart(events, start.foreign)
    ensures Kept(Run(l, events), l, start.foreign, events, b)
  {
    if events == [] {
      b := start;
    } else {
      var before, e := events[..|events| - 1], events[|events| - 1];
      OrderedInit(l.day, events);
      assert Apart(before, start.foreign) && e in events;
      b := RunKeeps(l, start, before);
      KeptStep(Run(l, before), l, start.foreign, before, b, e);
      b := WriteBook(Run(l, before), b, e);
    }
  }

  /** The bytes of a day's files up to an index, in file order. */
  function DayBytes(disk: Disk, day: int, n: nat): seq<Byte> {
    (if n == 0 then [] else DayBytes(disk, day, n - 1)) + if FileId(day, n) in disk then disk[FileId(day, n)] else []
  }

  lemma {:induction false} DayBytesAreChunks(l: Log, b: Book, day: int, n: nat)
    requires FilesMatch(l, b) && day !in b.foreign
    ensures DayBytes(l.disk, day, n) == Concat(Gather(b.files, day, n))
  {
    if n > 0 { DayBytesAreChunks(l, b, day, n - 1); }
    ConcatAppend(if n == 0 then [] else Gather(b.files, day, n - 1), In(b.files, FileId(day, n)));
  }

  lemma {:induction false} GatherHolds(files: map<FileId, seq<seq<Byte>>>, day: int, n: nat, i: nat, c: seq<Byte>)
    requires i <= n && FileId(day, i) in files && c in files[FileId(day, i)]
    ensures c in Gather(files, day, n)
  {
    if i < n { GatherHolds(files, day, n - 1, i, c); }
  }

  lemma {:induction false} ChunksOfHold(written: seq<Entry>, day: int, c: seq<Byte>)
    requires c in ChunksOf(written, day)
    ensures exists e :: e in written && e.day == day && e.chunk == c
  {
    var init, e := written[..|written| - 1], written[|written| - 1];
    assert e in written;
    if c in ChunksOf(init, day) {
      ChunksOfHold(init, day, c);
      assert forall x :: x in init ==> x in written;
    }
  }

  /** The files of a day run from index 0 to n, and one after the other they are the day's chunks in order. */
  ghost predicate TellsTheDay(disk: Disk, events: seq<Entry>, day: int, n: nat) {
    && (forall i: nat :: FileId(day, i) in disk <==> i <= n)
    && DayBytes(disk, day, n) == Concat(ChunksOf(events, day))
  }

  ghost predicate OneChunk(events: seq<Entry>, day: int, bytes: seq<Byte>) {
    exists e :: e in events && e.day == day && e.chunk == bytes
  }

  lemma KeptDayIsTold(l: Log, b: Book, day: int)
    requires Inv(l, b) && day in b.last
    ensures TellsTheDay(l.disk, b.written, day, b.last[day])
  {
    DayBytesAreChunks(l, b, day, b.last[day]);
  }

  lemma BigFileIsOneChunk(l: Log, b: Book, f: FileId)
    requires Inv(l, b) && f in l.disk && f.day !in b.foreign && |l.disk[f]| > l.maxBytes
    ensures OneChunk(b.written, f.day, l.disk[f])
  {
    var c := b.files[f][0];
    assert b.files[f] == [c];
    assert Concat([c]) == c;
    GatherHolds(b.files, f.day, b.last[f.day], f.index, c);
    ChunksOfHold(b.written, f.day, c);
  }

  /**
   * On a stream started where no file is of its first day or of a day written, after any writes with dates in order: every day
   * still kept is told by its files, the byte count is the size of the open file, and every file is within the
   * limit or holds exactly one chunk.
   */
  lemma FilesTellTheDays(disk: Disk, maxBytes: nat, retentionDays: nat, today: int, time: nat, events: seq<Entry>)
    requires retentionDays >= 1 && time < DAY_MS && Ordered(today, events)
    requires today !in DaysOf(disk) && Apart(events, DaysOf(disk))
    ensures var l := Run(Start(disk, maxBytes, retentionDays, today, time), events);
            && (forall e :: e in events && e.day > l.day - retentionDays ==> exists n :: TellsTheDay(l.disk, events, e.day, n))
            && l.Current() in l.disk && l.bytes == |l.disk[l.Current()]|
            && (forall f: FileId :: f in l.disk && f.day !in DaysOf(disk) ==>
                  |l.disk[f]| <= maxBytes || OneChunk(events, f.day, l.disk[f]))
  {
    var start := Start(disk, maxBytes, retentionDays, today, time);
    StartKeeps(disk, maxBytes, retentionDays, today, time);
    var b := RunKeeps(start, PurgeBook(Open(Log(maxBytes, retentionDays, disk, today, 0, 0), today), FirstBook(disk, today), time), events);
    BookTells(Run(start, events), b);
  }

  /** What a book that matches the log says of its days and files. */
  lemma BookTells(l: Log, b: Book)
    requires Inv(l, b)
    ensures forall e :: e in b.written && e.day > l.day - l.retentionDays ==> exists n :: TellsTheDay(l.disk, b.written, e.day, n)
    ensures forall f: FileId :: f in l.disk && f.day !in b.foreign ==> |l.disk[f]| <= l.maxBytes || OneChunk(b.written, f.day, l.disk[f])
  {
    forall e | e in b.written && e.day > l.day - l.retentionDays ensures exists n :: TellsTheDay(l.disk, b.written, e.day, n) {
      KeptDayIsTold(l, b, e.day);
    }
    forall f: FileId | f in l.disk && f.day !in b.foreign && |l.disk[f]| > l.maxBytes ensures OneChunk(b.written, f.day, l.disk[f]) {
      BigFileIsOneChunk(l, b, f);
    }
  }

  /** With no retention at all, the file just opened is removed again unless it is exactly midnight. */
  lemma RetentionKeepsToday(disk: Disk, maxBytes: nat, retentionDays: nat, today: int, time: nat)
    requires time < DAY_MS
    ensures var l := Start(disk, maxBytes, retentionDays, today, time);
            l.Current() in l.disk <==> retentionDays >= 1 || time == 0
  {
    if retentionDays >= 1 { NotExpired(today, today, time, retentionDays); }
  }

  /** Rotating counts right exactly when the file rotated into is new, or empty. */
  lemma RotateCountsNewFilesOnly(l: Log)
    ensures var f := FileId(l.day, l.index + 1);
            Rotate(l).bytes == |Rotate(l).disk[f]| <==> f !in l.disk || l.disk[f] == []
  {}
}
