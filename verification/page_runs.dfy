/** The page buffer refines a plain table of open files: reads, writes and appends that go through
    pages, queues and write-back give what the same operations give on byte sequences. */
module PageRuns {
  import opened Wrappers
  import opened PageState
  import opened PageLaws
  import opened PagePolicy
  import opened PageFiles
  import opened PageTruncate

  // ---------------------------------------------------------------------------
  // FileRef::Read and FileRef::Write

  function ReadMax(size: nat, n: nat, offset: nat): (r: nat)
    ensures r == if offset < size then Min(n, size - offset) else 0
  {
    var readEnd := Min(size, offset + n);
    Min(n, (if readEnd > offset then readEnd else offset) - offset)
  }

  /** A read stops at the end of the page it starts in. */
  function ReadHere(P: nat, size: nat, n: nat, offset: nat): (here: nat)
    requires P > 0
    ensures Skip(P, offset) + here <= P && here <= n && (offset < size ==> offset + here <= size)
  {
    Min(ReadMax(size, n, offset), P - Skip(P, offset))
  }

  /** The page at `offset` can be fixed. */
  ghost predicate CanAccess(c: Config, s: State, f: FileId, offset: nat) {
    c.P > 0 && f in s.files && offset <= s.files[f].size && PageNo(c.P, offset) < MAX_PAGES
  }

  lemma AccessFixes(c: Config, s: State, f: FileId, offset: nat)
    requires c.P > 0 && CanAccess(c, s, f, offset)
    ensures CanFix(c, s, f, PageNo(c.P, offset))
    ensures Start(c.P, PageNo(c.P, offset)) + Skip(c.P, offset) == offset
  {
    PageOf(c.P, offset);
  }

  /** A fixed page: one use is held, and its data is the page's share of the file. */
  ghost predicate Held(c: Config, s: State, t: State, id: FrameId) {
    && id in t.frames && id.file in s.files && t.frames[id].users > 0
    && Start(c.P, id.page) <= s.files[id.file].size
    && t.frames[id].dataSize == PageBytes(c.P, s.files[id.file].size, id.page)
    && |t.frames[id].buffer| == c.P
  }

  lemma FixHolds(c: Config, s: State, f: FileId, page: nat)
    requires Ok(c, s) && CanFix(c, s, f, page)
    ensures Held(c, s, FixPage(c, s, f, page), FrameId(f, page))
  {
    var t, id := FixPage(c, s, f, page), FrameId(f, page);
    FixKeeps(c, s, f, page);
    FixPins(c, s, f, page);
    HeldFrame(c, t, id);
  }

  lemma HeldFrame(c: Config, t: State, id: FrameId)
    requires Ok(c, t) && id in t.frames
    ensures id.file in t.files && Start(c.P, id.page) <= t.files[id.file].size
    ensures t.frames[id].dataSize == PageBytes(c.P, t.files[id.file].size, id.page)
    ensures |t.frames[id].buffer| == c.P
  {
    OpenOk(c, t);
    FrameShowsFile(c.P, t, id);
  }

  ghost function ReadFile(c: Config, s: State, f: FileId, n: nat, offset: nat): (State, seq<Byte>)
    requires c.P > 0 && Ok(c, s) && f in s.files && PageNo(c.P, offset) < MAX_PAGES
  {
    var most := ReadMax(s.files[f].size, n, offset);
    if most == 0 then (s, [])
    else
      var id := FrameId(f, PageNo(c.P, offset));
      AccessFixes(c, s, f, offset);
      FixHolds(c, s, f, id.page);
      var t := FixPage(c, s, f, id.page);
      var skip, here := Skip(c.P, offset), ReadHere(c.P, s.files[f].size, n, offset);
      (Unfix(t, id), t.frames[id].buffer[skip..skip + here])
  }

  datatype WriteResult = Written(count: nat) | NotWritable

  /** A file that is not opened for appending is appended to all the same: the test of line 557. */
  predicate GoesToEnd(flags: Flags, size: nat, offset: nat) { !flags.append || offset == size }

  lemma AppendOk(c: Config, s: State, f: FileId, data: seq<Byte>)
    requires c.P > 0 && Ok(c, s) && f in s.files && PageNo(c.P, s.files[f].size) < MAX_PAGES
    ensures BuffersOk(c.P, s) && s.files[f].path in s.disk && BuffersOk(c.P, Append(c.P, s, f, data))
    ensures Ok(c, Append(c.P, s, f, data))
    ensures Logical(c.P, Append(c.P, s, f, data)) ==
      Logical(c.P, s)[s.files[f].path := Logical(c.P, s)[s.files[f].path] + data]
  {
    OpenOk(c, s);
    AppendKeepsInv(c.P, s, f, data);
    AppendAppends(c.P, s, f, data);
    assert Append(c.P, s, f, data).freeBuffers == s.freeBuffers;
  }

  /** The in-place branch: the page is fixed, written, marked dirty and released. */
  ghost function WritePage(c: Config, s: State, f: FileId, data: seq<Byte>, offset: nat): State
    requires Ok(c, s) && CanAccess(c, s, f, offset) && Skip(c.P, offset) + |data| <= c.P
  {
    var id := FrameId(f, PageNo(c.P, offset));
    AccessFixes(c, s, f, offset);
    FixHolds(c, s, f, id.page);
    Unfix(Poke(FixPage(c, s, f, id.page), id, Skip(c.P, offset), data), id)
  }

  /** The bytes of a write that its first page takes. */
  function WriteHere(P: nat, n: nat, offset: nat): (here: nat)
    requires P > 0
    ensures Skip(P, offset) + here <= P && here <= n
  {
    Min(n, P - Skip(P, offset))
  }

  ghost function WriteFile(c: Config, s: State, f: FileId, data: seq<Byte>, offset: nat): (State, WriteResult)
    requires c.P > 0 && Ok(c, s) && f in s.files && PageNo(c.P, s.files[f].size) < MAX_PAGES
    requires s.files[f].flags.append ==> CanAccess(c, s, f, offset)
  {
    if !s.files[f].flags.write then (s, NotWritable)
    else if GoesToEnd(s.files[f].flags, s.files[f].size, offset) then
      AppendOk(c, s, f, data);
      (Append(c.P, s, f, data), Written(|data|))
    else
      var here := WriteHere(c.P, |data|, offset);
      (WritePage(c, s, f, data[..here], offset), Written(here))
  }

  // ---------------------------------------------------------------------------
  // The plain file table

  datatype Handle = Handle(flags: Flags, users: nat)

  /** Byte sequences by path, and the open ones with their flags and reference counts: no pages, no
      queues, no ids, no disk. */
  datatype Plain = Plain(files: map<Path, seq<Byte>>, handles: map<Path, Handle>)

  function HandlesOf(s: State): map<Path, Handle> {
    map p | p in s.byName && s.byName[p] in s.files :: Handle(s.files[s.byName[p]].flags, s.files[s.byName[p]].users)
  }

  ghost function Abs(P: nat, s: State): Plain
    requires BuffersOk(P, s)
  {
    Plain(Logical(P, s), HandlesOf(s))
  }

  datatype Op =
    | Open(path: Path, flags: Flags)
    | Close(path: Path, keepDangling: bool)
    | Read(path: Path, n: nat, offset: nat)
    | Write(path: Path, data: seq<Byte>, offset: nat)
    | AppendTo(path: Path, data: seq<Byte>)
    | Truncate(path: Path, size: nat, fill: seq<Byte>)
    | Flush(path: Path)
    | Fix(path: Path, page: nat)
    | Release(path: Path, page: nat)

  datatype Out =
    | Bytes(data: seq<Byte>)
    | Count(n: nat)
    | Refused
    | Done

  /** The outcome of an open as the caller sees it, without the file id. */
  function OutOf(result: OpenResult): Out { if result.Opened? then Done else Refused }

  function PlainOpen(m: Plain, path: Path, flags: Flags): (Plain, Out) {
    if path in m.handles then
      var have := m.handles[path];
      if !Admits(have.flags, flags) then (m, Refused)
      else
        var files := ReopenedDisk(m.files, path, have.flags, flags);
        (Plain(files, m.handles[path := have.(users := have.users + 1)]), Done)
    else match FsOpen(m.files, path, flags)
      case None => (m, Refused)
      case Some(files) =>
        if |m.handles| >= MAX_FILES then (m.(files := files), Refused)
        else (Plain(files, m.handles[path := Handle(flags, 1)]), Done)
  }

  function PlainClose(m: Plain, path: Path, keepDangling: bool): (Plain, Out)
    requires path in m.handles && m.handles[path].users > 0
  {
    var have := m.handles[path];
    if have.users <= 1 && !(keepDangling && have.flags.read) then (m.(handles := m.handles - {path}), Done)
    else (m.(handles := m.handles[path := have.(users := have.users - 1)]), Refused)
  }

  function PlainTruncate(m: Plain, path: Path, size: nat, fill: seq<Byte>): (Plain, Out)
    requires path in m.files && path in m.handles
  {
    if !m.handles[path].flags.write then (m, Refused)
    else (m.(files := m.files[path := Resized(m.files[path], size, fill)]), Done)
  }

  function PlainRead(P: nat, m: Plain, path: Path, n: nat, offset: nat): seq<Byte>
    requires P > 0 && path in m.files
  {
    var content := m.files[path];
    if offset >= |content| then [] else content[offset..offset + ReadHere(P, |content|, n, offset)]
  }

  function PlainWrite(P: nat, m: Plain, path: Path, data: seq<Byte>, offset: nat): (Plain, Out)
    requires P > 0 && path in m.files && path in m.handles
    requires m.handles[path].flags.append ==> offset <= |m.files[path]|
  {
    var content, flags := m.files[path], m.handles[path].flags;
    if !flags.write then (m, Refused)
    else if GoesToEnd(flags, |content|, offset) then (m.(files := m.files[path := content + data]), Count(|data|))
    else
      var here := WriteHere(P, |data|, offset);
      (m.(files := m.files[path := WrittenAt(content, offset, data[..here])]), Count(here))
  }

  // ---------------------------------------------------------------------------
  // Steps of the page buffer

  ghost predicate Known(s: State, path: Path) { path in s.byName && s.byName[path] in s.files }

  /** The file system fills up a file that grows, and the resident pages span the new end. */
  ghost predicate CanTruncate(c: Config, s: State, f: FileId, size: nat, fill: seq<Byte>)
    requires f in s.files
  {
    s.files[f].flags.write ==> size <= s.files[f].size + |fill| && AllSpan(c.P, s, f, size, fill)
  }

  function TruncateFile(P: nat, s: State, f: FileId, size: nat, fill: seq<Byte>): (State, Out)
    requires f in s.files
  {
    if !s.files[f].flags.write then (s, Refused) else (PageTruncate.Truncate(P, s, f, size, fill), Done)
  }

  /** What the source asserts of its callers, operation by operation; and what `OpenKeeps` and
      `TruncateKeeps` show to be needed: no open truncates a file below its buffered pages, and when a
      file is truncated its resident pages span the new end. */
  ghost predicate Enabled(c: Config, s: State, op: Op) {
    match op
    case Open(path, flags) => !EmptiesBelow(s, path, flags)
    case Close(path, _) => Known(s, path) && s.files[s.byName[path]].users > 0
    case Read(path, _, offset) => c.P > 0 && Known(s, path) && PageNo(c.P, offset) < MAX_PAGES
    case Write(path, _, offset) =>
      && c.P > 0 && Known(s, path) && PageNo(c.P, s.files[s.byName[path]].size) < MAX_PAGES
      && (s.files[s.byName[path]].flags.append ==> CanAccess(c, s, s.byName[path], offset))
    case AppendTo(path, _) => c.P > 0 && Known(s, path) && PageNo(c.P, s.files[s.byName[path]].size) < MAX_PAGES
    case Truncate(path, size, fill) => Known(s, path) && CanTruncate(c, s, s.byName[path], size, fill)
    case Flush(path) => Known(s, path)
    case Fix(path, page) => Known(s, path) && CanFix(c, s, s.byName[path], page)
    case Release(path, page) =>
      Known(s, path) && FrameId(s.byName[path], page) in s.frames && s.frames[FrameId(s.byName[path], page)].users > 0
  }

  ghost function AppendFile(c: Config, s: State, f: FileId, data: seq<Byte>): (State, Out)
    requires c.P > 0 && Ok(c, s) && f in s.files && PageNo(c.P, s.files[f].size) < MAX_PAGES
  {
    if !s.files[f].flags.write then (s, Refused)
    else
      AppendOk(c, s, f, data);
      (Append(c.P, s, f, data), Done)
  }

  ghost function Step(c: Config, s: State, op: Op): (State, Out)
    requires Ok(c, s) && Enabled(c, s, op)
  {
    match op
    case Open(path, flags) => var (t, r) := OpenFile(s, path, flags); (t, OutOf(r))
    case Close(path, keepDangling) =>
      var (t, gone) := PageFiles.Release(c, s, s.byName[path], keepDangling); (t, if gone then Done else Refused)
    case Read(path, n, offset) => var (t, data) := ReadFile(c, s, s.byName[path], n, offset); (t, Bytes(data))
    case Write(path, data, offset) =>
      var (t, r) := WriteFile(c, s, s.byName[path], data, offset); (t, if r.Written? then Count(r.count) else Refused)
    case AppendTo(path, data) => AppendFile(c, s, s.byName[path], data)
    case Truncate(path, size, fill) => TruncateFile(c.P, s, s.byName[path], size, fill)
    case Flush(path) => (FlushFile(c.P, s, s.byName[path]), Done)
    case Fix(path, page) => (FixPage(c, s, s.byName[path], page), Done)
    case Release(path, page) => (Unfix(s, FrameId(s.byName[path], page)), Done)
  }

  ghost predicate PlainEnabled(m: Plain, op: Op) {
    match op
    case Open(path, flags) =>
      path in m.handles && path in m.files && Reopens(m.handles[path].flags, flags) && flags.createNew ==>
        m.files[path] == []
    case Close(path, _) => path in m.handles && m.handles[path].users > 0
    case Write(path, _, offset) =>
      path in m.files && path in m.handles && (m.handles[path].flags.append ==> offset <= |m.files[path]|)
    case _ => op.path in m.files && op.path in m.handles
  }

  /** Flushing, fixing and releasing pages, and all the evictions they and the reads and writes
      bring about, are invisible. */
  function PlainStep(P: nat, m: Plain, op: Op): (Plain, Out)
    requires P > 0 && PlainEnabled(m, op)
  {
    match op
    case Open(path, flags) => PlainOpen(m, path, flags)
    case Close(path, keepDangling) => PlainClose(m, path, keepDangling)
    case Read(path, n, offset) => (m, Bytes(PlainRead(P, m, path, n, offset)))
    case Write(path, data, offset) => PlainWrite(P, m, path, data, offset)
    case AppendTo(path, data) =>
      if !m.handles[path].flags.write then (m, Refused)
      else (m.(files := m.files[path := m.files[path] + data]), Done)
    case Truncate(path, size, fill) => PlainTruncate(m, path, size, fill)
    case Flush(_) => (m, Done)
    case Fix(_, _) => (m, Done)
    case Release(_, _) => (m, Done)
  }

  // ---------------------------------------------------------------------------
  // The laws of the single operations

  lemma SameHandles(s: State, t: State)
    requires t.byName == s.byName && SameFiles(s, t)
    ensures HandlesOf(t) == HandlesOf(s)
  {
  }

  lemma FixRefines(c: Config, s: State, f: FileId, page: nat)
    requires Ok(c, s) && CanFix(c, s, f, page)
    ensures Ok(c, FixPage(c, s, f, page)) && BuffersOk(c.P, s) && BuffersOk(c.P, FixPage(c, s, f, page))
    ensures Abs(c.P, FixPage(c, s, f, page)) == Abs(c.P, s)
  {
    FixKeeps(c, s, f, page);
    SameHandles(s, FixPage(c, s, f, page));
  }

  lemma UnfixRefines(c: Config, s: State, id: FrameId)
    requires Ok(c, s) && id in s.frames && s.frames[id].users > 0
    ensures Ok(c, Unfix(s, id)) && BuffersOk(c.P, s) && BuffersOk(c.P, Unfix(s, id))
    ensures Abs(c.P, Unfix(s, id)) == Abs(c.P, s)
  {
    OpenOk(c, s);
    UnfixKeeps(c.P, s, id);
    SameHandles(s, Unfix(s, id));
  }

  lemma PartOfPrefix(buffer: seq<Byte>, content: seq<Byte>, at: nat, size: nat, from: nat, n: nat)
    requires size <= |buffer| && at + size <= |content| && from + n <= size
    requires buffer[..size] == content[at..at + size]
    ensures buffer[from..from + n] == content[at + from..at + from + n]
  {
    forall i | from <= i < from + n
      ensures buffer[i] == content[at + i]
    {
      assert buffer[..size][i] == content[at..at + size][i];
    }
  }

  lemma HeldShows(c: Config, s: State, id: FrameId, at: nat, path: Path, from: nat, offset: nat, n: nat)
    requires Ok(c, s) && id in s.frames && id.file in s.files && s.files[id.file].path == path
    requires at == Start(c.P, id.page) && at + from == offset
    requires offset + n <= s.files[id.file].size && from + n <= c.P
    ensures BuffersOk(c.P, s) && path in s.disk && |Logical(c.P, s)[path]| == s.files[id.file].size
    ensures Shows(s.frames[id], from, Logical(c.P, s)[path], offset, n)
  {
    OpenOk(c, s);
    FrameShowsFile(c.P, s, id);
    BuffersAreOk(c, s);
    ShownPart(c.P, s.frames[id], Logical(c.P, s)[path], at, from, offset, n);
  }

  /** `n` bytes from `from` of a frame are the bytes of the file from `at` on. */
  ghost predicate Shows(frame: Frame, from: nat, content: seq<Byte>, at: nat, n: nat) {
    from + n <= |frame.buffer| && at + n <= |content| && frame.buffer[from..from + n] == content[at..at + n]
  }

  lemma ShownPart(P: nat, frame: Frame, content: seq<Byte>, at: nat, from: nat, offset: nat, n: nat)
    requires at + from == offset && offset + n <= |content| && from + n <= P && |frame.buffer| == P
    requires frame.dataSize == Min(P, |content| - at)
    requires frame.buffer[..frame.dataSize] == content[at..at + frame.dataSize]
    ensures Shows(frame, from, content, offset, n)
  {
    PartOfPrefix(frame.buffer, content, at, frame.dataSize, from, n);
  }

  lemma ReadFixed(c: Config, s: State, id: FrameId, at: nat, from: nat, offset: nat, here: nat)
    requires Ok(c, s) && CanFix(c, s, id.file, id.page) && at == Start(c.P, id.page) && at + from == offset
    requires from + here <= c.P && offset + here <= s.files[id.file].size
    ensures BuffersOk(c.P, s) && s.files[id.file].path in s.disk
    ensures |Logical(c.P, s)[s.files[id.file].path]| == s.files[id.file].size
    ensures id in FixPage(c, s, id.file, id.page).frames
    ensures Shows(FixPage(c, s, id.file, id.page).frames[id], from,
      Logical(c.P, s)[s.files[id.file].path], offset, here)
  {
    FixKeeps(c, s, id.file, id.page);
    HeldShows(c, FixPage(c, s, id.file, id.page), id, at, s.files[id.file].path, from, offset, here);
  }

  lemma ReadPlace(P: nat, offset: nat) returns (at: nat, from: nat)
    requires P > 0
    ensures at == Start(P, PageNo(P, offset)) && from == Skip(P, offset) && at + from == offset
  {
    from := Skip(P, offset);
    PageOf(P, offset);
    at := offset - from;
  }

  lemma ReadAt(c: Config, s: State, id: FrameId, offset: nat, here: nat)
    requires c.P > 0 && Ok(c, s) && CanFix(c, s, id.file, id.page) && PageNo(c.P, offset) == id.page
    requires Skip(c.P, offset) + here <= c.P && offset + here <= s.files[id.file].size
    ensures BuffersOk(c.P, s) && s.files[id.file].path in s.disk
    ensures |Logical(c.P, s)[s.files[id.file].path]| == s.files[id.file].size
    ensures id in FixPage(c, s, id.file, id.page).frames
    ensures Shows(FixPage(c, s, id.file, id.page).frames[id], Skip(c.P, offset),
      Logical(c.P, s)[s.files[id.file].path], offset, here)
  {
    var at, from := ReadPlace(c.P, offset);
    ReadFixed(c, s, id, at, from, offset, here);
  }

  lemma ReadHit(c: Config, s: State, f: FileId, n: nat, offset: nat)
    requires c.P > 0 && Ok(c, s) && f in s.files && PageNo(c.P, offset) < MAX_PAGES
      && ReadMax(s.files[f].size, n, offset) > 0
    ensures BuffersOk(c.P, s) && s.files[f].path in s.disk
    ensures ReadFile(c, s, f, n, offset).1 == PlainRead(c.P, Abs(c.P, s), s.files[f].path, n, offset)
  {
    var id := FrameId(f, PageNo(c.P, offset));
    ReadFileIs(c, s, id, n, offset);
    ReadAt(c, s, id, offset, ReadHere(c.P, s.files[f].size, n, offset));
    ShownIsRead(c.P, Abs(c.P, s), s.files[f].path, FixPage(c, s, f, id.page).frames[id], n, offset);
  }

  lemma ShownIsRead(P: nat, m: Plain, path: Path, frame: Frame, n: nat, offset: nat)
    requires P > 0 && path in m.files && ReadMax(|m.files[path]|, n, offset) > 0
    requires Shows(frame, Skip(P, offset), m.files[path], offset, ReadHere(P, |m.files[path]|, n, offset))
    ensures frame.buffer[Skip(P, offset)..Skip(P, offset) + ReadHere(P, |m.files[path]|, n, offset)] ==
      PlainRead(P, m, path, n, offset)
  {
  }

  lemma ReadFileIs(c: Config, s: State, id: FrameId, n: nat, offset: nat)
    requires c.P > 0 && Ok(c, s) && id.file in s.files && PageNo(c.P, offset) == id.page < MAX_PAGES
    requires ReadMax(s.files[id.file].size, n, offset) > 0
    ensures Held(c, s, FixPage(c, s, id.file, id.page), id) && CanFix(c, s, id.file, id.page)
    ensures ReadFile(c, s, id.file, n, offset) ==
      (Unfix(FixPage(c, s, id.file, id.page), id),
       FixPage(c, s, id.file, id.page).frames[id].buffer[
         Skip(c.P, offset)..Skip(c.P, offset) + ReadHere(c.P, s.files[id.file].size, n, offset)])
  {
    AccessFixes(c, s, id.file, offset);
    FixHolds(c, s, id.file, id.page);
  }

  lemma ReadKeeps(c: Config, s: State, f: FileId, n: nat, offset: nat)
    requires c.P > 0 && Ok(c, s) && f in s.files && PageNo(c.P, offset) < MAX_PAGES
    ensures Ok(c, ReadFile(c, s, f, n, offset).0) && BuffersOk(c.P, s) && BuffersOk(c.P, ReadFile(c, s, f, n, offset).0)
    ensures Abs(c.P, ReadFile(c, s, f, n, offset).0) == Abs(c.P, s)
  {
    if ReadMax(s.files[f].size, n, offset) > 0 {
      var id := FrameId(f, PageNo(c.P, offset));
      ReadFileIs(c, s, id, n, offset);
      FixRefines(c, s, f, id.page);
      UnfixRefines(c, FixPage(c, s, f, id.page), id);
    } else {
      BuffersAreOk(c, s);
    }
  }

  /** A read through the cache gives the bytes of the file, up to the end of its first page. */
  lemma ReadRefines(c: Config, s: State, f: FileId, n: nat, offset: nat)
    requires c.P > 0 && Ok(c, s) && f in s.files && PageNo(c.P, offset) < MAX_PAGES
    ensures BuffersOk(c.P, s) && s.files[f].path in s.disk
    ensures ReadFile(c, s, f, n, offset).1 == PlainRead(c.P, Abs(c.P, s), s.files[f].path, n, offset)
  {
    if ReadMax(s.files[f].size, n, offset) > 0 {
      ReadHit(c, s, f, n, offset);
    } else {
      FileSize(c, s, f);
    }
  }

  lemma FileSize(c: Config, s: State, f: FileId)
    requires Ok(c, s) && f in s.files
    ensures BuffersOk(c.P, s) && s.files[f].path in s.disk && s.files[f].path in s.byName
    ensures s.byName[s.files[f].path] == f
    ensures |Logical(c.P, s)[s.files[f].path]| == s.files[f].size
  {
    OpenOk(c, s);
    BuffersAreOk(c, s);
  }

  lemma PokeOk(c: Config, s: State, t: State, id: FrameId, skip: nat, data: seq<Byte>, path: Path, offset: nat)
    requires Ok(c, s) && id in s.frames && id.file in s.files && skip + |data| <= c.P && |s.frames[id].buffer| == c.P
    requires t == Poke(s, id, skip, data) && path == s.files[id.file].path
    requires offset == Start(c.P, id.page) + skip <= s.files[id.file].size
    ensures Ok(c, t) && DidWrite(c.P, s, t, path, offset, data)
  {
    PokeKeepsOk(c, s, id, skip, data);
    PokeDoesWrite(c, s, t, id, skip, data, path, offset);
  }

  lemma PokeKeepsOk(c: Config, s: State, id: FrameId, skip: nat, data: seq<Byte>)
    requires Ok(c, s) && id in s.frames && skip + |data| <= c.P && |s.frames[id].buffer| == c.P
    ensures Ok(c, Poke(s, id, skip, data))
  {
    OpenOk(c, s);
    PokeKeepsInv(c.P, s, id, skip, data);
  }

  lemma PokeDoesWrite(c: Config, s: State, t: State, id: FrameId, skip: nat, data: seq<Byte>, path: Path, offset: nat)
    requires Ok(c, s) && id in s.frames && id.file in s.files && skip + |data| <= c.P && |s.frames[id].buffer| == c.P
    requires Ok(c, t) && t == Poke(s, id, skip, data) && path == s.files[id.file].path
    requires offset == Start(c.P, id.page) + skip <= s.files[id.file].size
    ensures DidWrite(c.P, s, t, path, offset, data)
  {
    BuffersAreOk(c, s);
    NamesAreLive(c, s);
    BuffersAreOk(c, t);
    PokeLogical(c.P, s, t, id, skip, data, path, offset);
  }

  /** One file is written to, and nobody's references change. */
  ghost predicate WroteAt(P: nat, s: State, t: State, path: Path, offset: nat, data: seq<Byte>) {
    DidWrite(P, s, t, path, offset, data) && HandlesOf(t) == HandlesOf(s)
  }

  lemma WroteBetween(P: nat, s: State, u: State, v: State, t: State, path: Path, offset: nat, data: seq<Byte>)
    requires SameBytes(P, s, u) && DidWrite(P, u, v, path, offset, data) && SameBytes(P, v, t)
    ensures DidWrite(P, s, t, path, offset, data)
  {
    OpenDidWrite(P, u, v, path, offset, data);
    assert path in Logical(P, u);
  }

  lemma PokeRefines(c: Config, s: State, id: FrameId, skip: nat, data: seq<Byte>, path: Path, offset: nat)
    requires Ok(c, s) && id in s.frames && id.file in s.files && skip + |data| <= c.P && s.frames[id].users > 0
    requires offset == Start(c.P, id.page) + skip <= s.files[id.file].size && path == s.files[id.file].path
    ensures |s.frames[id].buffer| == c.P
    ensures var t := Unfix(Poke(s, id, skip, data), id); Ok(c, t) && WroteAt(c.P, s, t, path, offset, data)
  {
    HeldFrame(c, s, id);
    var u := Poke(s, id, skip, data);
    PokeOk(c, s, u, id, skip, data, path, offset);
    SameHandles(s, u);
    UnfixRefines(c, u, id);
    BuffersAreOk(c, s);
    WroteBetween(c.P, s, s, u, Unfix(u, id), path, offset, data);
  }

  lemma WritePageRefines(c: Config, s: State, f: FileId, data: seq<Byte>, offset: nat, path: Path)
    requires Ok(c, s) && CanAccess(c, s, f, offset) && Skip(c.P, offset) + |data| <= c.P && path == s.files[f].path
    ensures Ok(c, WritePage(c, s, f, data, offset))
    ensures WroteAt(c.P, s, WritePage(c, s, f, data, offset), path, offset, data)
  {
    var id := FrameId(f, PageNo(c.P, offset));
    AccessFixes(c, s, f, offset);
    FixHolds(c, s, f, id.page);
    FixRefines(c, s, f, id.page);
    FixKeeps(c, s, f, id.page);
    var u := FixPage(c, s, f, id.page);
    PokeRefines(c, u, id, Skip(c.P, offset), data, path, offset);
    WroteAfter(c, s, u, Unfix(Poke(u, id, Skip(c.P, offset), data), id), path, offset, data);
  }

  lemma WroteAfter(c: Config, s: State, u: State, t: State, path: Path, offset: nat, data: seq<Byte>)
    requires SameBytes(c.P, s, u) && HandlesOf(u) == HandlesOf(s) && Ok(c, t) && WroteAt(c.P, u, t, path, offset, data)
    ensures WroteAt(c.P, s, t, path, offset, data)
  {
    BuffersAreOk(c, t);
    WroteBetween(c.P, s, u, t, t, path, offset, data);
  }

  lemma FixWrites(c: Config, s: State, f: FileId, offset: nat, data: seq<Byte>)
    requires Ok(c, s) && CanAccess(c, s, f, offset) && Skip(c.P, offset) + |data| <= c.P
    ensures var t, id := FixPage(c, s, f, PageNo(c.P, offset)), FrameId(f, PageNo(c.P, offset));
      && id in t.frames && Skip(c.P, offset) + |data| <= |t.frames[id].buffer|
      && Ok(c, Poke(t, id, Skip(c.P, offset), data))
  {
    AccessFixes(c, s, f, offset);
    FixHolds(c, s, f, PageNo(c.P, offset));
    FixKeeps(c, s, f, PageNo(c.P, offset));
    PokeKeepsOk(c, FixPage(c, s, f, PageNo(c.P, offset)), FrameId(f, PageNo(c.P, offset)), Skip(c.P, offset), data);
  }

  /** Bytes of a frame that is held. */
  ghost predicate CanReadFixed(t: State, id: FrameId, skip: nat, most: nat) {
    id in t.frames && t.frames[id].users > 0 && skip + most <= t.frames[id].dataSize <= |t.frames[id].buffer|
  }

  /** The bytes read lie within the data of the page. */
  lemma ReadWithin(c: Config, s: State, f: FileId, n: nat, offset: nat)
    requires c.P > 0 && Ok(c, s) && f in s.files && PageNo(c.P, offset) < MAX_PAGES
      && ReadMax(s.files[f].size, n, offset) > 0
    ensures CanFix(c, s, f, PageNo(c.P, offset))
    ensures var t, id := FixPage(c, s, f, PageNo(c.P, offset)), FrameId(f, PageNo(c.P, offset));
      && CanReadFixed(t, id, Skip(c.P, offset), ReadHere(c.P, s.files[f].size, n, offset))
      && ReadFile(c, s, f, n, offset) == (Unfix(t, id),
           t.frames[id].buffer[Skip(c.P, offset)..Skip(c.P, offset) + ReadHere(c.P, s.files[f].size, n, offset)])
  {
    AccessFixes(c, s, f, offset);
    FixHolds(c, s, f, PageNo(c.P, offset));
  }

  lemma AppendRefines(c: Config, s: State, f: FileId, data: seq<Byte>)
    requires c.P > 0 && Ok(c, s) && f in s.files && PageNo(c.P, s.files[f].size) < MAX_PAGES
    ensures BuffersOk(c.P, s) && s.files[f].path in s.disk && BuffersOk(c.P, Append(c.P, s, f, data))
    ensures Ok(c, Append(c.P, s, f, data))
    ensures Abs(c.P, Append(c.P, s, f, data)) ==
      Abs(c.P, s).(files := Logical(c.P, s)[s.files[f].path := Logical(c.P, s)[s.files[f].path] + data])
  {
    AppendOk(c, s, f, data);
    AppendHandles(c.P, s, f, data);
  }

  lemma AppendHandles(P: nat, s: State, f: FileId, data: seq<Byte>)
    requires P > 0 && BuffersOk(P, s) && f in s.files && s.files[f].path in s.disk
    ensures HandlesOf(Append(P, s, f, data)) == HandlesOf(s)
  {
  }

  lemma FlushRefines(c: Config, s: State, f: FileId)
    requires Ok(c, s) && f in s.files
    ensures Ok(c, FlushFile(c.P, s, f)) && BuffersOk(c.P, s) && BuffersOk(c.P, FlushFile(c.P, s, f))
    ensures Abs(c.P, FlushFile(c.P, s, f)) == Abs(c.P, s)
  {
    OpenOk(c, s);
    FlushFileSyncs(c.P, s, f);
  }

  lemma TruncateRefines(c: Config, s: State, path: Path, size: nat, fill: seq<Byte>)
    requires c.P > 0 && Ok(c, s) && Enabled(c, s, Op.Truncate(path, size, fill))
    ensures BuffersOk(c.P, s) && PlainEnabled(Abs(c.P, s), Op.Truncate(path, size, fill))
    ensures var (t, out) := TruncateFile(c.P, s, s.byName[path], size, fill);
      && Ok(c, t) && BuffersOk(c.P, t)
      && (Abs(c.P, t), out) == PlainTruncate(Abs(c.P, s), path, size, fill)
  {
    var f := s.byName[path];
    NamesAreLive(c, s);
    FileSize(c, s, f);
    if s.files[f].flags.write {
      TruncateKeeps(c, s, f, size, fill);
      TruncateHandles(c.P, s, f, size, fill);
    }
  }

  lemma TruncateHandles(P: nat, s: State, f: FileId, size: nat, fill: seq<Byte>)
    requires f in s.files
    ensures HandlesOf(PageTruncate.Truncate(P, s, f, size, fill)) == HandlesOf(s)
  {
  }

  // ---------------------------------------------------------------------------
  // Opening and closing

  lemma PartitionSize(keys: set<FileId>, free: seq<FileId>, n: nat)
    requires multiset(keys) + multiset(free) == multiset(UpTo(n))
    ensures |keys| + |free| == n
  {
    UpToSize(n);
    assert |multiset(keys) + multiset(free)| == |multiset(keys)| + |multiset(free)|;
  }

  lemma {:induction false} UpToSize(n: nat)
    ensures |UpTo(n)| == n
  {
    if n > 0 { UpToSize(n - 1); }
  }

  lemma HandleCount(s: State)
    requires IdsOk(s)
    ensures |HandlesOf(s)| == |s.files|
  {
    assert HandlesOf(s).Keys == s.byName.Keys;
    NamesAreFiles(s.byName, s.files.Keys);
  }

  lemma {:induction false} NamesAreFiles(byName: map<Path, FileId>, ids: set<FileId>)
    requires forall p :: p in byName ==> byName[p] in ids
    requires forall p, q :: p in byName && q in byName && byName[p] == byName[q] ==> p == q
    requires forall f :: f in ids ==> exists p :: p in byName && byName[p] == f
    ensures |byName| == |ids|
    decreases |byName|
  {
    if byName.Keys != {} {
      var p :| p in byName;
      var rest := byName - {p};
      assert rest.Keys == byName.Keys - {p};
      forall f | f in ids - {byName[p]}
        ensures exists q :: q in rest && rest[q] == f
      {
        var q :| q in byName && byName[q] == f;
        assert q in rest;
      }
      NamesAreFiles(rest, ids - {byName[p]});
    } else {
      assert ids == {};
    }
  }

  /** An open fails for lack of ids exactly when 65535 files are open: no id is ever lost. */
  lemma NoIdIsLost(s: State)
    requires IdsOk(s)
    ensures s.freeIds == [] && s.nextId == MAX_FILES <==> |HandlesOf(s)| >= MAX_FILES
  {
    HandleCount(s);
    PartitionSize(s.files.Keys, s.freeIds, s.nextId);
  }

  lemma PlainOpenFiles(m: Plain, path: Path, flags: Flags)
    ensures PlainOpen(m, path, flags).0.files ==
      OpenedFiles(m.files, path, flags, if path in m.handles then Some(m.handles[path].flags) else None)
  {
  }

  /** The file's readers see whether the open is one that truncates it. */
  lemma OpenEnabled(c: Config, s: State, path: Path, flags: Flags)
    requires Ok(c, s) && !EmptiesBelow(s, path, flags)
    ensures BuffersOk(c.P, s) && PlainEnabled(Abs(c.P, s), Open(path, flags))
  {
    NamesAreLive(c, s);
    BuffersAreOk(c, s);
    if path in s.byName {
      FileSize(c, s, s.byName[path]);
    }
  }

  lemma OpenRefines(c: Config, s: State, path: Path, flags: Flags)
    requires Ok(c, s) && !EmptiesBelow(s, path, flags)
    ensures BuffersOk(c.P, s) && Ok(c, OpenFile(s, path, flags).0) && BuffersOk(c.P, OpenFile(s, path, flags).0)
    ensures Abs(c.P, OpenFile(s, path, flags).0) == PlainOpen(Abs(c.P, s), path, flags).0
    ensures OutOf(OpenFile(s, path, flags).1) == PlainOpen(Abs(c.P, s), path, flags).1
  {
    OpenKeeps(c, s, path, flags);
    NamesAreLive(c, s);
    PlainOpenFiles(Abs(c.P, s), path, flags);
    OpenHandles(s, Logical(c.P, s), path, flags);
  }

  /** Handles and outcome depend on which files there are, not on their bytes. */
  lemma OpenHandles(s: State, files: map<Path, seq<Byte>>, path: Path, flags: Flags)
    requires IdsOk(s) && files.Keys == s.disk.Keys
    ensures HandlesOf(OpenFile(s, path, flags).0) == PlainOpen(Plain(files, HandlesOf(s)), path, flags).0.handles
    ensures OutOf(OpenFile(s, path, flags).1) == PlainOpen(Plain(files, HandlesOf(s)), path, flags).1
  {
    if path in s.byName {
      KnownOpens(s, files, path, flags);
      KnownOutcome(s, files, path, flags);
    } else {
      NewHandles(s, files, path, flags);
    }
  }

  lemma NewHandles(s: State, files: map<Path, seq<Byte>>, path: Path, flags: Flags)
    requires IdsOk(s) && files.Keys == s.disk.Keys && path !in s.byName
    ensures HandlesOf(OpenFile(s, path, flags).0) == PlainOpen(Plain(files, HandlesOf(s)), path, flags).0.handles
    ensures OutOf(OpenFile(s, path, flags).1) == PlainOpen(Plain(files, HandlesOf(s)), path, flags).1
  {
    NoIdIsLost(s);
    if FsOpen(s.disk, path, flags).Some? {
      EnterHandles(s, path, flags, FsOpen(s.disk, path, flags).value);
    }
  }

  lemma KnownOutcome(s: State, files: map<Path, seq<Byte>>, path: Path, flags: Flags)
    requires IdsOk(s) && path in s.byName
    ensures OutOf(OpenFile(s, path, flags).1) == PlainOpen(Plain(files, HandlesOf(s)), path, flags).1
  {
  }

  lemma KnownOpens(s: State, files: map<Path, seq<Byte>>, path: Path, flags: Flags)
    requires IdsOk(s) && path in s.byName
    ensures HandlesOf(OpenFile(s, path, flags).0) == PlainOpen(Plain(files, HandlesOf(s)), path, flags).0.handles
  {
    var f := s.byName[path];
    assert HandlesOf(s)[path] == Handle(s.files[f].flags, s.files[f].users);
    if Admits(s.files[f].flags, flags) {
      KnownHandles(s, ReopenedDisk(s.disk, path, s.files[f].flags, flags), path);
    }
  }

  lemma KnownHandles(s: State, disk: map<Path, seq<Byte>>, path: Path)
    requires IdsOk(s) && path in s.byName
    ensures HandlesOf(SetUsers(s.(disk := disk), s.byName[path], s.files[s.byName[path]].users + 1)) ==
      HandlesOf(s)[path := HandlesOf(s)[path].(users := HandlesOf(s)[path].users + 1)]
  {
  }

  lemma EnterHandles(s: State, path: Path, flags: Flags, disk: map<Path, seq<Byte>>)
    requires IdsOk(s) && path !in s.byName && path in disk
    ensures var (t, result) := Enter(s.(disk := disk), path, flags);
      && (result.Opened? ==> HandlesOf(t) == HandlesOf(s)[path := Handle(flags, 1)])
      && (!result.Opened? ==> HandlesOf(t) == HandlesOf(s))
      && (!result.Opened? <==> s.freeIds == [] && s.nextId == MAX_FILES)
  {
    EnterEffect(s.(disk := disk), path, flags);
  }

  lemma CloseRefines(c: Config, s: State, path: Path, keepDangling: bool)
    requires Ok(c, s) && Known(s, path) && s.files[s.byName[path]].users > 0
    ensures var (t, gone) := PageFiles.Release(c, s, s.byName[path], keepDangling);
      && Ok(c, t) && BuffersOk(c.P, s) && BuffersOk(c.P, t)
      && path in HandlesOf(s) && HandlesOf(s)[path].users > 0
      && Abs(c.P, t) == PlainClose(Abs(c.P, s), path, keepDangling).0
      && (if gone then Done else Refused) == PlainClose(Abs(c.P, s), path, keepDangling).1
  {
    var f := s.byName[path];
    NamesAreLive(c, s);
    ReleaseKeeps(c, s, f, keepDangling);
    if Closes(s, f, keepDangling) {
      GoneHandles(c.P, s, PageFiles.Release(c, s, f, keepDangling).0, f);
    } else {
      UserHandles(s, f, path, s.files[f].users - 1);
    }
  }

  lemma GoneHandles(P: nat, s: State, t: State, f: FileId)
    requires IdsOk(s) && f in s.files && Gone(P, s, t, f)
    ensures HandlesOf(t) == HandlesOf(s) - {s.files[f].path}
  {
  }

  lemma UserHandles(s: State, f: FileId, path: Path, n: nat)
    requires IdsOk(s) && path in s.byName && s.byName[path] == f
    ensures HandlesOf(SetUsers(s, f, n)) == HandlesOf(s)[path := HandlesOf(s)[path].(users := n)]
  {
  }

  lemma WriteRefines(c: Config, s: State, path: Path, data: seq<Byte>, offset: nat)
    requires Ok(c, s) && Enabled(c, s, Write(path, data, offset))
    ensures BuffersOk(c.P, s) && PlainEnabled(Abs(c.P, s), Write(path, data, offset))
    ensures var (t, r) := WriteFile(c, s, s.byName[path], data, offset);
      && Ok(c, t) && BuffersOk(c.P, t)
      && Abs(c.P, t) == PlainWrite(c.P, Abs(c.P, s), path, data, offset).0
      && (if r.Written? then Count(r.count) else Refused) == PlainWrite(c.P, Abs(c.P, s), path, data, offset).1
  {
    var f := s.byName[path];
    NamesAreLive(c, s);
    FileSize(c, s, f);
    if s.files[f].flags.write {
      if GoesToEnd(s.files[f].flags, s.files[f].size, offset) {
        AppendRefines(c, s, f, data);
      } else {
        var here := data[..WriteHere(c.P, |data|, offset)];
        WritePageRefines(c, s, f, here, offset, path);
        OpenDidWrite(c.P, s, WritePage(c, s, f, here, offset), path, offset, here);
      }
    }
  }

  // ---------------------------------------------------------------------------
  // The refinement

  /** Every operation of the page buffer is the operation of the plain file table: same files, same
      open handles, same result. */
  lemma StepRefines(c: Config, s: State, op: Op)
    requires c.P > 0 && Ok(c, s) && Enabled(c, s, op)
    ensures Ok(c, Step(c, s, op).0) && BuffersOk(c.P, s) && BuffersOk(c.P, Step(c, s, op).0)
    ensures PlainEnabled(Abs(c.P, s), op)
    ensures Abs(c.P, Step(c, s, op).0) == PlainStep(c.P, Abs(c.P, s), op).0
    ensures Step(c, s, op).1 == PlainStep(c.P, Abs(c.P, s), op).1
  {
    NamesAreLive(c, s);
    BuffersAreOk(c, s);
    match op
    case Open(path, flags) =>
      OpenEnabled(c, s, path, flags);
      OpenRefines(c, s, path, flags);
    case Close(path, keepDangling) => CloseRefines(c, s, path, keepDangling);
    case Read(path, n, offset) =>
      ReadKeeps(c, s, s.byName[path], n, offset);
      ReadRefines(c, s, s.byName[path], n, offset);
    case Write(path, data, offset) => WriteRefines(c, s, path, data, offset);
    case AppendTo(path, data) => AppendRefines(c, s, s.byName[path], data);
    case Truncate(path, size, fill) => TruncateRefines(c, s, path, size, fill);
    case Flush(path) => FlushRefines(c, s, s.byName[path]);
    case Fix(path, page) => FixRefines(c, s, s.byName[path], page);
    case Release(path, page) => UnfixRefines(c, s, FrameId(s.byName[path], page));
  }

  ghost predicate RunEnabled(c: Config, s: State, ops: seq<Op>)
    requires Ok(c, s)
    decreases |ops|
  {
    if ops == [] || c.P == 0 then true
    else Enabled(c, s, ops[0]) && (StepRefines(c, s, ops[0]); RunEnabled(c, Step(c, s, ops[0]).0, ops[1..]))
  }

  ghost function Run(c: Config, s: State, ops: seq<Op>): (State, seq<Out>)
    requires c.P > 0 && Ok(c, s) && RunEnabled(c, s, ops)
    decreases |ops|
  {
    if ops == [] then (s, [])
    else
      StepRefines(c, s, ops[0]);
      var (t, out) := Step(c, s, ops[0]);
      var (u, outs) := Run(c, t, ops[1..]);
      (u, [out] + outs)
  }

  ghost predicate PlainRunEnabled(P: nat, m: Plain, ops: seq<Op>)
    decreases |ops|
  {
    if ops == [] || P == 0 then true
    else PlainEnabled(m, ops[0]) && PlainRunEnabled(P, PlainStep(P, m, ops[0]).0, ops[1..])
  }

  ghost function PlainRun(P: nat, m: Plain, ops: seq<Op>): (Plain, seq<Out>)
    requires P > 0 && PlainRunEnabled(P, m, ops)
    decreases |ops|
  {
    if ops == [] then (m, [])
    else
      var (n, out) := PlainStep(P, m, ops[0]);
      var (k, outs) := PlainRun(P, n, ops[1..]);
      (k, [out] + outs)
  }

  /** Over every run, however the queues evict and whatever is written back when: the answers are
      those of the plain file table, and so are the files at the end. */
  lemma {:induction false} RunRefines(c: Config, s: State, ops: seq<Op>)
    requires c.P > 0 && Ok(c, s) && RunEnabled(c, s, ops)
    ensures BuffersOk(c.P, s) && PlainRunEnabled(c.P, Abs(c.P, s), ops)
    ensures var (t, outs) := Run(c, s, ops);
      && Ok(c, t) && BuffersOk(c.P, t)
      && (Abs(c.P, t), outs) == PlainRun(c.P, Abs(c.P, s), ops)
    decreases |ops|
  {
    BuffersAreOk(c, s);
    if ops != [] {
      StepRefines(c, s, ops[0]);
      RunRefines(c, Step(c, s, ops[0]).0, ops[1..]);
    }
  }

  function Empty(disk: map<Path, seq<Byte>>): State { State(disk, map[], map[], [], 0, map[], [], [], []) }

  lemma EmptyIsOk(c: Config, disk: map<Path, seq<Byte>>)
    requires ConfigOk(c)
    ensures c.P > 0 && Ok(c, Empty(disk))
  {
    assert IdsOk(Empty(disk));
    assert PagesOk(Empty(disk)) && QueuesOk(Empty(disk));
  }

  lemma RunCons(c: Config, s: State, op: Op, rest: seq<Op>)
    requires c.P > 0 && Ok(c, s) && Enabled(c, s, op) && Ok(c, Step(c, s, op).0)
      && RunEnabled(c, Step(c, s, op).0, rest)
    ensures RunEnabled(c, s, [op] + rest) && Run(c, s, [op] + rest).0 == Run(c, Step(c, s, op).0, rest).0
  {
    StepRefines(c, s, op);
    assert ([op] + rest)[1..] == rest;
  }
}
