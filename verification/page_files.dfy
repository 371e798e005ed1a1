/** Opening, releasing and dropping files: file ids are recycled, old pages are not. */
module PageFiles {
  import opened Wrappers
  import opened PageState
  import opened PageLaws
  import opened PagePolicy

  // ---------------------------------------------------------------------------
  // Opening

  datatype OpenResult =
    | Opened(file: FileId)
    | NoSuchFile
    | LockedExclusively
    | CannotTruncate
    | OpenedWithoutAppend
    | TooManyFiles

  /** The file system below: creates or truncates as the flags ask, or finds no file. */
  function FsOpen(disk: map<Path, seq<Byte>>, path: Path, flags: Flags): Option<map<Path, seq<Byte>>> {
    if flags.createNew then Some(disk[path := []])
    else if path in disk then Some(disk)
    else if flags.create then Some(disk[path := []])
    else None
  }

  /** The flag word is exactly `FILE_FLAGS_FILE_CREATE_NEW`. */
  predicate OnlyCreateNew(flags: Flags) {
    flags == Flags(false, false, false, false, false, true)
  }

  function SetUsers(s: State, f: FileId, n: nat): State
    requires f in s.files
  {
    s.(files := s.files[f := s.files[f].(users := n)])
  }

  /** `ReOpen`: a file buffered without WRITE is opened for writing. */
  predicate Reopens(have: Flags, flags: Flags) { flags.write && !have.write && !have.writeLock }

  /** The files after an open of a path that is buffered with the flags `have`: only `ReOpen` opens it
      in the file system once more, which truncates it if the flags say so. */
  function ReopenedDisk(disk: map<Path, seq<Byte>>, path: Path, have: Flags, flags: Flags): map<Path, seq<Byte>> {
    if Reopens(have, flags) && FsOpen(disk, path, flags).Some? then FsOpen(disk, path, flags).value else disk
  }

  /** A path buffered with the flags `have` may be opened again. */
  predicate Admits(have: Flags, flags: Flags) {
    !have.writeLock && !OnlyCreateNew(flags) && !(flags.write && have.write && flags.append && !have.append)
  }

  /** `OpenFile` on a name the buffer knows.  The directory gains a reference; neither the file's flags
      nor its size nor its frames follow a `ReOpen`. */
  function OpenKnown(s: State, f: FileId, flags: Flags): (State, OpenResult)
    requires f in s.files
  {
    var have := s.files[f].flags;
    if have.writeLock then (s, LockedExclusively)
    else if OnlyCreateNew(flags) then (s, CannotTruncate)
    else if !Admits(have, flags) then (s, OpenedWithoutAppend)
    else
      (SetUsers(s.(disk := ReopenedDisk(s.disk, s.files[f].path, have, flags)), f, s.files[f].users + 1), Opened(f))
  }

  /** The flags a path is buffered with. */
  function FlagsOf(s: State, path: Path): Option<Flags> {
    if path in s.byName && s.byName[path] in s.files then Some(s.files[s.byName[path]].flags) else None
  }

  /** `ReOpen` truncates a file below its buffered pages. */
  predicate EmptiesBelow(s: State, path: Path, flags: Flags) {
    FlagsOf(s, path).Some? && Reopens(FlagsOf(s, path).value, flags) && flags.createNew
      && s.files[s.byName[path]].size > 0
  }

  function NewFile(s: State, f: FileId, path: Path, flags: Flags): State
    requires path in s.disk
  {
    s.(files := s.files[f := BufferedFile(path, flags, |s.disk[path]|, 1, [])],
       byName := s.byName[path := f])
  }

  /** A new file's id: the one freed last, or else the next one, unless all are taken. */
  function Enter(s: State, path: Path, flags: Flags): (State, OpenResult)
    requires path in s.disk
  {
    if s.freeIds != [] then
      var last := |s.freeIds| - 1;
      (NewFile(s.(freeIds := s.freeIds[..last]), s.freeIds[last], path, flags), Opened(s.freeIds[last]))
    else if s.nextId == MAX_FILES then (s, TooManyFiles)
    else (NewFile(s.(nextId := s.nextId + 1), s.nextId, path, flags), Opened(s.nextId))
  }

  /** `OpenFile`. */
  function OpenFile(s: State, path: Path, flags: Flags): (State, OpenResult) {
    if path in s.byName && s.byName[path] in s.files then OpenKnown(s, s.byName[path], flags)
    else match FsOpen(s.disk, path, flags)
      case None => (s, NoSuchFile)
      case Some(disk) => Enter(s.(disk := disk), path, flags)
  }

  // ---------------------------------------------------------------------------
  // Releasing

  /** `DonateFrameBuffer`. */
  function Donate(c: Config, s: State, buffer: seq<Byte>): State {
    if |s.freeBuffers| + |s.frames| < c.capacity then s.(freeBuffers := s.freeBuffers + [buffer]) else s
  }

  /** Writes back and drops the first frame of a file. */
  function DropFirst(c: Config, s: State, f: FileId): (t: State)
    requires f in s.files && s.files[f].pages != [] && s.files[f].pages[0] in s.frames
    requires s.files[f].pages[0].file == f
    ensures f in t.files && t.files[f].pages == s.files[f].pages[1..]
  {
    var id := s.files[f].pages[0];
    var t := FlushFrame(c.P, s, id);
    DropFrame(Donate(c, t, t.frames[id].buffer), id)
  }

  /** The loop of `Release`: every frame of the file goes. */
  function DropPages(c: Config, s: State, f: FileId): State
    decreases if f in s.files then |s.files[f].pages| else 0
  {
    if f in s.files && s.files[f].pages != [] && s.files[f].pages[0] in s.frames && s.files[f].pages[0].file == f then
      DropPages(c, DropFirst(c, s, f), f)
    else s
  }

  /** The file leaves the directory and its id becomes free. */
  function CloseFile(s: State, f: FileId): State
    requires f in s.files
  {
    s.(files := s.files - {f}, byName := s.byName - {s.files[f].path}, freeIds := s.freeIds + [f])
  }

  /** The last reference goes and the file is not left dangling. */
  predicate Closes(s: State, f: FileId, keepDangling: bool)
    requires f in s.files
  {
    s.files[f].users <= 1 && !(keepDangling && s.files[f].flags.read)
  }

  /** `FileRef::Release`; the answer says whether the file is gone. */
  function Release(c: Config, s: State, f: FileId, keepDangling: bool): (State, bool)
    requires f in s.files && s.files[f].users > 0
  {
    if Closes(s, f, keepDangling) then
      var t := DropPages(c, s, f);
      (if f in t.files then CloseFile(t, f) else t, true)
    else (SetUsers(s, f, s.files[f].users - 1), false)
  }

  // ---------------------------------------------------------------------------
  // What opening keeps

  lemma SetOfKeys(keys: set<FileId>, f: FileId, free: seq<FileId>, n: nat)
    requires multiset(keys) + multiset(free) == multiset(UpTo(n))
    ensures f in free ==> f !in keys && f < n && multiset(free)[f] == 1
    ensures f >= n ==> f !in keys && f !in free
  {
    assert multiset(UpTo(n))[f] == if f < n then 1 else 0;
    assert multiset(keys)[f] == if f in keys then 1 else 0;
    assert f in free ==> multiset(free)[f] >= 1;
  }

  lemma IdStaysPartition(keys: set<FileId>, free: seq<FileId>, n: nat)
    requires multiset(keys) + multiset(free) == multiset(UpTo(n)) && free != []
    ensures var f := free[|free| - 1];
      multiset(keys + {f}) + multiset(free[..|free| - 1]) == multiset(UpTo(n))
  {
    var f := free[|free| - 1];
    SetOfKeys(keys, f, free, n);
    SetInsert(keys, f);
    assert free == free[..|free| - 1] + [f];
  }

  lemma NewIdPartition(keys: set<FileId>, free: seq<FileId>, n: nat)
    requires multiset(keys) + multiset(free) == multiset(UpTo(n))
    ensures multiset(keys + {n}) + multiset(free) == multiset(UpTo(n + 1))
  {
    SetOfKeys(keys, n, free, n);
    SetInsert(keys, n);
    SetInsert(UpTo(n), n);
  }

  /** A file that was not buffered enters with an id no live file has, and no frame of that id. */
  lemma NewFileKeepsInv(P: nat, s: State, f: FileId, path: Path, flags: Flags, freeIds: seq<FileId>, nextId: nat)
    requires Inv(P, s) && path !in s.byName && f !in s.files && path in s.disk
    requires nextId <= MAX_FILES && multiset(s.files.Keys + {f}) + multiset(freeIds) == multiset(UpTo(nextId))
    ensures Inv(P, NewFile(s.(freeIds := freeIds, nextId := nextId), f, path, flags))
  {
    var u := NewFile(s.(freeIds := freeIds, nextId := nextId), f, path, flags);
    assert u.files.Keys == s.files.Keys + {f};
    assert IdsOk(u);
    assert FilesOk(u) && FramesOk(P, u);
    forall g | g in u.files
      ensures multiset(u.files[g].pages) == multiset(FramesOf(u.frames, g))
    {
      if g == f {
        assert FramesOf(u.frames, f) == {};
      }
    }
  }

  lemma EnterKeepsInv(P: nat, s: State, path: Path, flags: Flags)
    requires Inv(P, s) && path !in s.byName && path in s.disk
    ensures Inv(P, Enter(s, path, flags).0)
  {
    if s.freeIds != [] {
      FreedIdKeepsInv(P, s, path, flags, |s.freeIds| - 1);
    } else if s.nextId < MAX_FILES {
      NewIdPartition(s.files.Keys, s.freeIds, s.nextId);
      SetOfKeys(s.files.Keys, s.nextId, s.freeIds, s.nextId);
      NextIdKeepsInv(P, s, path, flags, s.nextId + 1);
    }
  }

  lemma FreedIdKeepsInv(P: nat, s: State, path: Path, flags: Flags, last: nat)
    requires Inv(P, s) && path !in s.byName && path in s.disk && last == |s.freeIds| - 1
    ensures Inv(P, NewFile(s.(freeIds := s.freeIds[..last]), s.freeIds[last], path, flags))
  {
    IdStaysPartition(s.files.Keys, s.freeIds, s.nextId);
    SetOfKeys(s.files.Keys, s.freeIds[last], s.freeIds, s.nextId);
    NewFileKeepsInv(P, s, s.freeIds[last], path, flags, s.freeIds[..last], s.nextId);
    assert s.(freeIds := s.freeIds[..last], nextId := s.nextId) == s.(freeIds := s.freeIds[..last]);
  }

  lemma NextIdKeepsInv(P: nat, s: State, path: Path, flags: Flags, next: nat)
    requires Inv(P, s) && path !in s.byName && path in s.disk && next <= MAX_FILES && s.nextId !in s.files
    requires multiset(s.files.Keys + {s.nextId}) + multiset(s.freeIds) == multiset(UpTo(next))
    ensures Inv(P, NewFile(s.(nextId := next), s.nextId, path, flags))
  {
    NewFileKeepsInv(P, s, s.nextId, path, flags, s.freeIds, next);
    assert s.(freeIds := s.freeIds, nextId := next) == s.(nextId := next);
  }

  lemma EnterEffect(s: State, path: Path, flags: Flags)
    requires IdsOk(s) && path in s.disk
    ensures var (t, result) := Enter(s, path, flags);
      && t.disk == s.disk && t.frames == s.frames && t.freeBuffers == s.freeBuffers
      && (result.Opened? ==> result.file !in s.files && t.byName == s.byName[path := result.file])
      && (!result.Opened? ==> t.byName == s.byName)
  {
    if s.freeIds != [] {
      SetOfKeys(s.files.Keys, s.freeIds[|s.freeIds| - 1], s.freeIds, s.nextId);
    } else {
      SetOfKeys(s.files.Keys, s.nextId, s.freeIds, s.nextId);
    }
  }

  lemma OtherFilesUnchanged(P: nat, s: State, t: State, path: Path)
    requires BuffersOk(P, s) && t.frames == s.frames && path in t.disk
    requires t.disk == s.disk[path := t.disk[path]]
    requires path !in s.byName
    requires forall p :: p != path ==> (p in s.byName <==> p in t.byName)
    requires forall p :: p in s.byName ==> t.byName[p] == s.byName[p]
    requires path in t.byName ==> forall id :: id in s.frames ==> id.file != t.byName[path]
    ensures BuffersOk(P, t) && Logical(P, t) == Logical(P, s)[path := t.disk[path]]
  {
    var m := Logical(P, s)[path := t.disk[path]];
    forall p, i | p in t.disk && 0 <= i < |t.disk[p]|
      ensures View(P, t, p, i) == m[p][i]
    {
      if p != path { LogicalIsView(P, s, p, i); }
    }
    LogicalIs(P, t, m);
  }

  /** What `OpenFile` does to plain files: an unbuffered file may be created or truncated, as the flags
      ask of the file system; one buffered with the flags `have` may be truncated by a `ReOpen`. */
  ghost function OpenedFiles(files: map<Path, seq<Byte>>, path: Path, flags: Flags, have: Option<Flags>):
    map<Path, seq<Byte>>
  {
    match have
    case Some(held) => ReopenedDisk(files, path, held, flags)
    case None =>
      match FsOpen(files, path, flags)
      case None => files
      case Some(after) => after
  }

  lemma SetUsersKeepsInv(P: nat, s: State, f: FileId, n: nat)
    requires Inv(P, s) && f in s.files
    ensures Inv(P, SetUsers(s, f, n))
  {
    var t := SetUsers(s, f, n);
    assert t.files.Keys == s.files.Keys;
    SamePages(s, t);
  }

  lemma SetUsersKeeps(c: Config, s: State, f: FileId, n: nat)
    requires Ok(c, s) && f in s.files
    ensures Ok(c, SetUsers(s, f, n)) && SameBytes(c.P, s, SetUsers(s, f, n))
  {
    OpenOk(c, s);
    SetUsersKeepsInv(c.P, s, f, n);
    SameInputs(c.P, s, SetUsers(s, f, n));
  }

  lemma OpenKnownIs(s: State, f: FileId, flags: Flags)
    requires f in s.files && s.files[f].path in s.disk
    ensures var t, path := OpenKnown(s, f, flags).0, s.files[f].path;
      if Reopens(s.files[f].flags, flags) && flags.createNew then
        t == SetUsers(s.(disk := s.disk[path := []]), f, s.files[f].users + 1)
      else t == s || t == SetUsers(s, f, s.files[f].users + 1)
  {
  }

  lemma OpenKnownKeeps(c: Config, s: State, f: FileId, flags: Flags)
    requires Ok(c, s) && f in s.files && !EmptiesBelow(s, s.files[f].path, flags)
    ensures Ok(c, OpenKnown(s, f, flags).0) && SameBytes(c.P, s, OpenKnown(s, f, flags).0)
  {
    NamesAreLive(c, s);
    OpenKnownIs(s, f, flags);
    BuffersAreOk(c, s);
    SetUsersKeeps(c, s, f, s.files[f].users + 1);
    if Reopens(s.files[f].flags, flags) && flags.createNew {
      assert s.disk[s.files[f].path] == [];
      assert s.(disk := s.disk[s.files[f].path := []]) == s;
    }
  }

  /** The file is gone from the disk, but the directory goes by its old size. */
  lemma EmptiedIsNotOk(c: Config, s: State, f: FileId, flags: Flags)
    requires Ok(c, s) && f in s.files && EmptiesBelow(s, s.files[f].path, flags)
    ensures var t, path := OpenKnown(s, f, flags).0, s.files[f].path;
      && path in s.disk && t == SetUsers(s.(disk := s.disk[path := []]), f, s.files[f].users + 1)
      && !Ok(c, t) && BuffersOk(c.P, t)
  {
    NamesAreLive(c, s);
    BuffersAreOk(c, s);
    OpenKnownIs(s, f, flags);
    var t := OpenKnown(s, f, flags).0;
    if Ok(c, t) {
      NamesAreLive(c, t);
      assert false;
    }
  }

  lemma EmptiedLogical(P: nat, s: State, t: State, path: Path)
    requires BuffersOk(P, s) && path in s.disk && t.disk == s.disk[path := []]
    requires t.frames == s.frames && t.byName == s.byName
    ensures BuffersOk(P, t) && Logical(P, t) == Logical(P, s)[path := []]
  {
    forall p | p in s.disk
      ensures Logical(P, t)[p] == Logical(P, s)[path := []][p]
    {
      if p == path { assert |Logical(P, t)[p]| == |t.disk[p]|; }
    }
  }

  lemma OpenKnownLogical(c: Config, s: State, path: Path, flags: Flags)
    requires Ok(c, s) && path in s.byName && s.byName[path] in s.files && s.files[s.byName[path]].path == path
    ensures var t, have := OpenKnown(s, s.byName[path], flags).0, FlagsOf(s, path);
      && (Ok(c, t) <==> !EmptiesBelow(s, path, flags)) && BuffersOk(c.P, s) && BuffersOk(c.P, t)
      && Logical(c.P, t) == OpenedFiles(Logical(c.P, s), path, flags, have)
  {
    var f := s.byName[path];
    NamesAreLive(c, s);
    BuffersAreOk(c, s);
    if EmptiesBelow(s, path, flags) {
      EmptiedIsNotOk(c, s, f, flags);
      EmptiedLogical(c.P, s, OpenKnown(s, f, flags).0, path);
    } else {
      OpenKnownKeeps(c, s, f, flags);
      StaysAsItIs(Logical(c.P, s), path, s.files[f].flags, flags);
    }
  }

  /** A `ReOpen` leaves a file alone unless it truncates it and there is something to truncate. */
  lemma StaysAsItIs(files: map<Path, seq<Byte>>, path: Path, have: Flags, flags: Flags)
    requires path in files
    ensures ReopenedDisk(files, path, have, flags) == files <==>
      !(Reopens(have, flags) && flags.createNew && files[path] != [])
  {
    if Reopens(have, flags) && flags.createNew {
      assert files[path := []][path] == [];
    }
  }

  lemma DiskOfOthers(P: nat, s: State, path: Path, disk: map<Path, seq<Byte>>)
    requires Inv(P, s) && path !in s.byName
    requires forall p :: p in s.disk && p != path ==> p in disk && disk[p] == s.disk[p]
    ensures Inv(P, s.(disk := disk))
  {
    var t := s.(disk := disk);
    assert IdsOk(t) && FilesOk(t) && FramesOk(P, t);
    SamePages(s, t);
  }

  lemma OpenNewKeeps(c: Config, s: State, path: Path, flags: Flags, disk: map<Path, seq<Byte>>)
    requires Ok(c, s) && path !in s.byName && FsOpen(s.disk, path, flags) == Some(disk)
    ensures path in disk && Ok(c, Enter(s.(disk := disk), path, flags).0) && BuffersOk(c.P, s)
    ensures BuffersOk(c.P, Enter(s.(disk := disk), path, flags).0)
    ensures Logical(c.P, Enter(s.(disk := disk), path, flags).0) == OpenedFiles(Logical(c.P, s), path, flags, None)
  {
    OpenOk(c, s);
    var u := s.(disk := disk);
    DiskOfOthers(c.P, s, path, disk);
    EnterKeepsInv(c.P, u, path, flags);
    EnterEffect(u, path, flags);
    EnterLogical(c.P, s, Enter(u, path, flags).0, path, flags, disk);
  }

  lemma EnterLogical(P: nat, s: State, t: State, path: Path, flags: Flags, disk: map<Path, seq<Byte>>)
    requires BuffersOk(P, s) && path !in s.byName && FsOpen(s.disk, path, flags) == Some(disk)
    requires forall id :: id in s.frames ==> id.file in s.files
    requires t.disk == disk && t.frames == s.frames
    requires t.byName == s.byName || exists f: FileId :: f !in s.files && t.byName == s.byName[path := f]
    ensures BuffersOk(P, t) && Logical(P, t) == OpenedFiles(Logical(P, s), path, flags, None)
  {
    OtherFilesUnchanged(P, s, t, path);
    if path in s.disk && !flags.createNew {
      UnbufferedIsDisk(P, s, path);
      assert Logical(P, s)[path := s.disk[path]] == Logical(P, s);
    }
  }

  /** `OpenFile` does to the files what the file system does to them, and keeps the directory in order
      exactly if no `ReOpen` truncates a file below its buffered pages. */
  lemma OpenKeeps(c: Config, s: State, path: Path, flags: Flags)
    requires Ok(c, s)
    ensures Ok(c, OpenFile(s, path, flags).0) <==> !EmptiesBelow(s, path, flags)
    ensures BuffersOk(c.P, s) && BuffersOk(c.P, OpenFile(s, path, flags).0)
    ensures Logical(c.P, OpenFile(s, path, flags).0) == OpenedFiles(Logical(c.P, s), path, flags, FlagsOf(s, path))
  {
    BuffersAreOk(c, s);
    NamesAreLive(c, s);
    if path in s.byName {
      OpenKnownLogical(c, s, path, flags);
    } else if FsOpen(s.disk, path, flags).Some? {
      OpenNewKeeps(c, s, path, flags, FsOpen(s.disk, path, flags).value);
    }
  }

  lemma NamesAreLive(c: Config, s: State)
    requires Ok(c, s)
    ensures IdsOk(s) && FilesOk(s)
  {
    OpenOk(c, s);
  }

  lemma UnbufferedIsDisk(P: nat, s: State, path: Path)
    requires BuffersOk(P, s) && path in s.disk && path !in s.byName
    ensures Logical(P, s)[path] == s.disk[path]
  {
  }

  // ---------------------------------------------------------------------------
  // What releasing keeps

  ghost predicate NoFramesOf(s: State, f: FileId) {
    forall id :: id in s.frames ==> id.file != f
  }

  lemma DonateKeeps(c: Config, s: State, buffer: seq<Byte>)
    requires Ok(c, s) && |buffer| == c.P
    ensures Ok(c, Donate(c, s, buffer)) && SameBytes(c.P, s, Donate(c, s, buffer))
    ensures Donate(c, s, buffer) == s.(freeBuffers := Donate(c, s, buffer).freeBuffers)
  {
    BuffersAreOk(c, s);
    FreeBuffersDoNotMatter(c, s, Donate(c, s, buffer));
  }

  lemma FirstPage(c: Config, s: State, f: FileId)
    requires Ok(c, s) && f in s.files
    ensures s.files[f].pages != [] ==> s.files[f].pages[0] in s.frames && s.files[f].pages[0].file == f
    ensures s.files[f].pages == [] ==> NoFramesOf(s, f)
  {
    OpenOk(c, s);
    PagesAreFrames(s, f);
  }

  lemma FlushOk(c: Config, s: State, id: FrameId)
    requires Ok(c, s) && id in s.frames
    ensures var t := FlushFrame(c.P, s, id);
      Ok(c, t) && SameBytes(c.P, s, t) && id in t.frames && !t.frames[id].dirty && |t.frames[id].buffer| == c.P
  {
    OpenOk(c, s);
    FlushKeepsInv(c.P, s, id);
    FlushKeepsLogical(c.P, s, id);
  }

  lemma DropOk(c: Config, s: State, id: FrameId)
    requires Ok(c, s) && id in s.frames && !s.frames[id].dirty
    ensures Ok(c, DropFrame(s, id)) && SameBytes(c.P, s, DropFrame(s, id))
  {
    OpenOk(c, s);
    DropKeepsInv(c.P, s, id);
    DropKeepsLogical(c.P, s, id);
  }

  lemma DropFirstKeeps(c: Config, s: State, f: FileId)
    requires Ok(c, s) && f in s.files && s.files[f].pages != []
    requires s.files[f].pages[0] in s.frames && s.files[f].pages[0].file == f
    ensures Ok(c, DropFirst(c, s, f)) && SameBytes(c.P, s, DropFirst(c, s, f))
  {
    var id := s.files[f].pages[0];
    var t := FlushFrame(c.P, s, id);
    FlushOk(c, s, id);
    DonateKeeps(c, t, t.frames[id].buffer);
    DropOk(c, Donate(c, t, t.frames[id].buffer), id);
  }

  /** Only frames of `f` go. */
  ghost predicate DroppedFrom(s: State, t: State, f: FileId) {
    && t.frames.Keys <= s.frames.Keys
    && (forall id :: id in s.frames && id.file != f ==> id in t.frames && t.frames[id] == s.frames[id])
    && t.byName == s.byName && t.freeIds == s.freeIds && t.nextId == s.nextId
    && SameFiles(s, t)
  }

  lemma DroppedFromStep(s: State, t: State, u: State, f: FileId)
    requires DroppedFrom(s, t, f) && DroppedFrom(t, u, f)
    ensures DroppedFrom(s, u, f)
  {
  }

  lemma EvictedIsDropped(s: State, t: State, u: State, id: FrameId)
    requires id in s.frames && id in t.frames && id.file in s.files
    requires t == s.(disk := t.disk, frames := s.frames[id := t.frames[id]], freeBuffers := t.freeBuffers)
    requires Evicted(t, u, id)
    ensures DroppedFrom(s, u, id.file)
  {
    assert u.frames.Keys == s.frames.Keys - {id};
  }

  lemma DropFirstEffect(c: Config, s: State, f: FileId)
    requires f in s.files && s.files[f].pages != []
    requires s.files[f].pages[0] in s.frames && s.files[f].pages[0].file == f
    ensures DroppedFrom(s, DropFirst(c, s, f), f)
  {
    var id := s.files[f].pages[0];
    var t := FlushFrame(c.P, s, id);
    FlushEffect(c.P, s, id);
    var u := Donate(c, t, t.frames[id].buffer);
    assert u == t.(freeBuffers := u.freeBuffers);
    DropEffect(u, id);
    EvictedIsDropped(s, u, DropFrame(u, id), id);
  }

  lemma {:induction false} DropPagesKeeps(c: Config, s: State, f: FileId)
    requires Ok(c, s) && f in s.files
    ensures Ok(c, DropPages(c, s, f)) && SameBytes(c.P, s, DropPages(c, s, f))
    ensures NoFramesOf(DropPages(c, s, f), f)
    decreases |s.files[f].pages|
  {
    FirstPage(c, s, f);
    BuffersAreOk(c, s);
    if s.files[f].pages != [] {
      DropFirstKeeps(c, s, f);
      DropPagesKeeps(c, DropFirst(c, s, f), f);
    }
  }

  lemma {:induction false} DropPagesEffect(c: Config, s: State, f: FileId)
    requires f in s.files
    ensures DroppedFrom(s, DropPages(c, s, f), f)
    decreases |s.files[f].pages|
  {
    if s.files[f].pages != [] && s.files[f].pages[0] in s.frames && s.files[f].pages[0].file == f {
      DropFirstEffect(c, s, f);
      DropPagesEffect(c, DropFirst(c, s, f), f);
      DroppedFromStep(s, DropFirst(c, s, f), DropPages(c, s, f), f);
    }
  }

  lemma CloseFileKeepsInv(P: nat, s: State, f: FileId)
    requires Inv(P, s) && f in s.files && NoFramesOf(s, f)
    ensures Inv(P, CloseFile(s, f))
  {
    var t := CloseFile(s, f);
    assert t.files.Keys == s.files.Keys - {f};
    SetDelete(s.files.Keys, f);
    assert multiset(t.freeIds) == multiset(s.freeIds) + multiset{f};
    assert IdsOk(t);
    assert FilesOk(t) && FramesOk(P, t) && PagesOk(t);
  }

  lemma CloseFileKeeps(c: Config, s: State, f: FileId)
    requires Ok(c, s) && f in s.files && NoFramesOf(s, f)
    ensures Ok(c, CloseFile(s, f)) && SameBytes(c.P, s, CloseFile(s, f))
    ensures s.files[f].path in s.disk && Logical(c.P, s)[s.files[f].path] == s.disk[s.files[f].path]
  {
    OpenOk(c, s);
    CloseFileKeepsInv(c.P, s, f);
    CleanFileIsOnDisk(c.P, s, f);
    ClosedLogical(c.P, s, CloseFile(s, f), s.files[f].path);
  }

  lemma ClosedLogical(P: nat, s: State, t: State, path: Path)
    requires BuffersOk(P, s) && path in s.disk && t.disk == s.disk && t.frames == s.frames
    requires t.byName == s.byName - {path} && Logical(P, s)[path] == s.disk[path]
    ensures Logical(P, t) == Logical(P, s)
  {
    forall p | p in s.disk
      ensures Logical(P, t)[p] == Logical(P, s)[p]
    {
    }
  }

  /** The file is gone without a trace in the directory, and the disk holds its readers' bytes. */
  ghost predicate Gone(P: nat, s: State, t: State, f: FileId)
    requires f in s.files
  {
    && t.files.Keys == s.files.Keys - {f} && t.byName == s.byName - {s.files[f].path}
    && f in t.freeIds && NoFramesOf(t, f)
    && BuffersOk(P, s) && s.files[f].path in s.disk && s.files[f].path in t.disk
    && t.disk[s.files[f].path] == Logical(P, s)[s.files[f].path]
    && (forall g :: g in t.files ==> t.files[g] == s.files[g].(pages := t.files[g].pages))
  }

  lemma ClosedFileKeeps(c: Config, s: State, f: FileId)
    requires Ok(c, s) && f in s.files
    ensures f in DropPages(c, s, f).files
    ensures var t := CloseFile(DropPages(c, s, f), f); Ok(c, t) && SameBytes(c.P, s, t) && Gone(c.P, s, t, f)
  {
    DropPagesKeeps(c, s, f);
    DropPagesEffect(c, s, f);
    CloseFileKeeps(c, DropPages(c, s, f), f);
    CloseFileEffect(c, s, DropPages(c, s, f), f);
  }

  lemma CloseFileEffect(c: Config, s: State, t: State, f: FileId)
    requires f in s.files && DroppedFrom(s, t, f) && SameBytes(c.P, s, t) && NoFramesOf(t, f)
    requires f in t.files && t.files[f].path in t.disk && t.disk[t.files[f].path] == Logical(c.P, t)[t.files[f].path]
    ensures Gone(c.P, s, CloseFile(t, f), f)
  {
  }

  lemma ReleaseStays(c: Config, s: State, f: FileId, keepDangling: bool)
    requires f in s.files && s.files[f].users > 0 && !Closes(s, f, keepDangling)
    ensures Release(c, s, f, keepDangling) == (SetUsers(s, f, s.files[f].users - 1), false)
  {
  }

  lemma ReleaseCloses(c: Config, s: State, f: FileId, keepDangling: bool)
    requires Ok(c, s) && f in s.files && s.files[f].users > 0 && Closes(s, f, keepDangling)
    ensures var (t, gone) := Release(c, s, f, keepDangling);
      Ok(c, t) && SameBytes(c.P, s, t) && gone && Gone(c.P, s, t, f)
  {
    ClosedFileKeeps(c, s, f);
  }

  /** Releasing a file loses nothing: its readers' bytes are on disk, its frames are gone, and only
      then its id is free again. */
  lemma ReleaseKeeps(c: Config, s: State, f: FileId, keepDangling: bool)
    requires Ok(c, s) && f in s.files && s.files[f].users > 0
    ensures var (t, gone) := Release(c, s, f, keepDangling);
      && Ok(c, t) && SameBytes(c.P, s, t)
      && gone == Closes(s, f, keepDangling)
      && (gone ==> Gone(c.P, s, t, f))
      && (!gone ==> t == SetUsers(s, f, s.files[f].users - 1))
  {
    if Closes(s, f, keepDangling) {
      ReleaseCloses(c, s, f, keepDangling);
    } else {
      ReleaseStays(c, s, f, keepDangling);
      SetUsersKeeps(c, s, f, s.files[f].users - 1);
    }
  }
}
