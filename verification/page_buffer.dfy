/** `FilePageBuffer` as the class that it is: every method updates the fields in place and is proved
    to make of them what the functions of `PageState`, `PagePolicy`, `PageFiles` and `PageRuns`
    say, so that their laws hold of it. */
module PageBuffer {
  import opened Wrappers
  import opened PageState
  import opened PageLaws
  import opened PagePolicy
  import opened PageFiles
  import opened PageQueues
  import opened PageHistory
  import PageTruncate
  import PageRuns

  class FilePageBuffer {
    const config: Config
    /** The file system below. */
    var disk: map<Path, seq<Byte>>
    var files: map<FileId, BufferedFile>
    var filesByName: map<Path, FileId>
    var freeFileIds: seq<FileId>
    var allocatedFileIds: nat
    var frames: map<FrameId, Frame>
    var fifo: seq<FrameId>
    var lru: seq<FrameId>
    var freeBuffers: seq<seq<Byte>>
    /** When each resident frame was fixed. */
    ghost var history: History

    ghost function S(): State
      reads this
    {
      State(disk, files, filesByName, freeFileIds, allocatedFileIds, frames, fifo, lru, freeBuffers)
    }

    ghost predicate Valid()
      reads this
    {
      Ok(config, S()) && TwoQ(S(), history)
    }

    constructor (config: Config, disk: map<Path, seq<Byte>>)
      requires ConfigOk(config)
      ensures Valid() && this.config == config
      ensures S() == PageRuns.Empty(disk) && history == History(0, map[])
    {
      this.config := config;
      this.disk := disk;
      files, filesByName, freeFileIds, allocatedFileIds := map[], map[], [], 0;
      frames, fifo, lru, freeBuffers := map[], [], [], [];
      history := History(0, map[]);
      new;
      PageRuns.EmptyIsOk(config, disk);
      EmptyIsInOrder(disk);
    }

    /** Writes a dirty frame back to its place in its file. */
    method FlushFrame(id: FrameId)
      requires Valid() && id in frames
      modifies this`disk, this`frames
      ensures Valid() && S() == PageState.FlushFrame(config.P, old(S()), id)
    {
      FlushOk(config, S(), id);
      FlushFrameTwoQ(config.P, S(), history, id);
      CanFlushFrame(config, S(), id);
      if !frames[id].dirty { return; }
      var frame := frames[id];
      var path := files[id.file].path;
      disk := disk[path := Splice(disk[path], Start(config.P, id.page), frame.buffer[..frame.dataSize])];
      frames := frames[id := frame.(dirty := false)];
    }

    /** Looks for the first frame of a queue that nobody uses. */
    method FindUnpinned(q: seq<FrameId>) returns (found: Option<FrameId>)
      requires forall id :: id in q ==> id in frames
      ensures found == FirstUnpinned(frames, q)
    {
      found := None;
      for i := 0 to |q|
        invariant FirstUnpinned(frames, q) == FirstUnpinned(frames, q[i..])
      {
        if frames[q[i]].users == 0 { return Some(q[i]); }
      }
    }

    /** The search of `EvictAnyBufferFrame`: FIFO first, then LRU. */
    method FindVictim() returns (found: Option<FrameId>)
      requires Valid()
      ensures found == Victim(S())
    {
      QueuesOfOk(config, S());
      found := FindUnpinned(fifo);
      if found.None? {
        found := FindUnpinned(lru);
      }
    }

    /** A clean frame leaves the queue it is in, its file's list and the directory. */
    method EraseFrame(id: FrameId)
      requires Valid() && id in frames && !frames[id].dirty
      modifies this`frames, this`files, this`fifo, this`lru, this`history
      ensures Valid() && history == Forget(old(history), frames.Keys)
      ensures S() == DropFrame(old(S()), id)
    {
      ghost var s := S();
      QueueOf(config, s, id);
      DropOk(config, s, id);
      DropEffect(s, id);
      DropTwoQ(s, history, id);
      if id in lru {
        lru := Remove(lru, id);
      } else {
        fifo := Remove(fifo, id);
      }
      frames := frames - {id};
      files := files[id.file := files[id.file].(pages := Remove(files[id.file].pages, id))];
      history := Forget(history, frames.Keys);
      Same(config, S(), DropFrame(s, id), history);
    }

    /** Evicts a frame that nobody uses, if there is one, and hands its buffer on. */
    method EvictAnyBufferFrame() returns (buffer: Option<seq<Byte>>)
      requires Valid()
      modifies this`disk, this`frames, this`files, this`fifo, this`lru, this`history
      ensures Valid() && history == Forget(old(history), frames.Keys)
      ensures Victim(old(S())).None? ==> buffer == None && S() == old(S())
      ensures Victim(old(S())).Some? ==> var v := Victim(old(S())).value;
        buffer == Some(old(frames)[v].buffer) && S() == Evict(config.P, old(S()), v)
    {
      var frame := FindVictim();
      if frame.None? {
        ForgetNone(S(), history);
        return None;
      }
      var id := frame.value;
      buffer := Some(frames[id].buffer);
      FlushOk(config, S(), id);
      FlushFrame(id);
      EraseFrame(id);
    }

    /** The loop of `AllocateFrameBuffer`: evicts down to the capacity, as far as frames are free. */
    method EvictToCapacity() returns (last: Option<seq<Byte>>)
      requires Valid()
      modifies this`disk, this`frames, this`files, this`fifo, this`lru, this`history
      ensures Valid() && history == Forget(old(history), frames.Keys)
      ensures (S(), last) == MakeRoom(config, old(S()))
    {
      ghost var s := S();
      last := None;
      ForgetNone(s, history);
      while |frames| >= config.capacity
        invariant Valid() && history == Forget(old(history), frames.Keys)
        invariant MakeRoom(config, s) == Continue(MakeRoom(config, S()), last)
        decreases |frames|
      {
        MakeRoomStep(config, S());
        ghost var before := frames.Keys;
        var evicted := EvictAnyBufferFrame();
        if evicted.None? { break; }
        last := evicted;
        ForgetTwice(old(history), before, frames.Keys);
      }
      MakeRoomEnds(config, S());
    }

    /** Makes room by evicting, then takes the last evicted buffer, a free one or a new one. */
    method AllocateFrameBuffer() returns (buffer: seq<Byte>)
      requires Valid()
      modifies this`disk, this`frames, this`files, this`fifo, this`lru, this`freeBuffers, this`history
      ensures Valid() && history == Forget(old(history), frames.Keys)
      ensures (S(), buffer) == PagePolicy.AllocateFrameBuffer(config, old(S()))
    {
      ghost var s := S();
      AllocateKeeps(config, s);
      AllocateKeepsTwoQ(config, s, history);
      var last := EvictToCapacity();
      if last.Some? {
        buffer := last.value;
      } else if freeBuffers != [] {
        buffer := freeBuffers[|freeBuffers| - 1];
        freeBuffers := freeBuffers[..|freeBuffers| - 1];
      } else {
        buffer := config.blank;
      }
      Same(config, S(), PagePolicy.AllocateFrameBuffer(config, s).0, history);
    }

    /** A resident page gets one more user and moves to the end of the LRU queue. */
    method TouchFrame(id: FrameId)
      requires id in frames
      modifies this`frames, this`fifo, this`lru
      ensures S() == Touch(old(S()), id)
    {
      frames := frames[id := frames[id].(users := frames[id].users + 1)];
      if id in lru {
        lru := Remove(lru, id) + [id];
      } else {
        fifo := Remove(fifo, id);
        lru := lru + [id];
      }
    }

    /** Fixes a page: a resident one moves to the end of the LRU queue, any other is loaded. */
    method FixPage(f: FileId, page: nat) returns (id: FrameId)
      requires Valid() && f in files && page < MAX_PAGES
      modifies this
      ensures Valid() <==> Start(config.P, page) <= old(files[f].size)
      ensures history == Fixed(old(history), frames.Keys, id)
      ensures id == FrameId(f, page) && S() == PagePolicy.FixPage(config, old(S()), f, page)
    {
      ghost var s, before := S(), history;
      id := FrameId(f, page);
      FixIsInOrder(config, s, f, page);
      FixKeepsTwoQ(config, s, history, f, page);
      if id in frames {
        TouchFrame(id);
      } else {
        FixMiss(config, s, f, page);
        var buffer := AllocateFrameBuffer();
        FixIsLoad(config, S(), f);
        LoadFrame(id, buffer);
      }
      history := Fixed(before, frames.Keys, id);
      assert S() == PagePolicy.FixPage(config, s, f, page);
    }

    /** Enters a new frame at the end of the FIFO queue and reads its part of the file. */
    method LoadFrame(id: FrameId, buffer: seq<Byte>)
      requires CanLoad(S(), id.file)
      modifies this`frames, this`fifo, this`files
      ensures S() == Load(config.P, old(S()), id.file, id.page, buffer)
    {
      var file := files[id.file];
      fifo := fifo + [id];
      files := files[id.file := file.(pages := [id] + file.pages)];
      var dataSize := DataSize(config.P, file.size, id.page);
      var data := Stored(disk[file.path], Start(config.P, id.page), dataSize);
      frames := frames[id := Frame(Splice(buffer, 0, data), dataSize, 1, false)];
    }

    /** `BufferRef::Release`. */
    method ReleasePage(id: FrameId)
      requires Valid() && id in frames && frames[id].users > 0
      modifies this`frames
      ensures Valid() && S() == Unfix(old(S()), id)
    {
      ghost var s := S();
      UnfixOk(config, s, history, id);
      frames := frames[id := frames[id].(users := frames[id].users - 1)];
    }

    /** `FileRef::Read`: at most `n` bytes from `offset`, no further than the page they start in. */
    method Read(f: FileId, n: nat, offset: nat) returns (out: seq<Byte>)
      requires Valid() && config.P > 0 && f in files && PageNo(config.P, offset) < MAX_PAGES
      modifies this
      ensures Valid() && (S(), out) == PageRuns.ReadFile(config, old(S()), f, n, offset)
      ensures history == Recorded(old(history), frames.Keys, FixedByRead(config.P, old(files[f].size), f, n, offset))
    {
      ghost var s := S();
      var readEnd := Min(files[f].size, offset + n);
      var readMax := Min(n, (if readEnd > offset then readEnd else offset) - offset);
      ForgetNone(s, history);
      if readMax == 0 { return []; }
      PageRuns.ReadWithin(config, s, f, n, offset);
      var page, skip := PageNo(config.P, offset), Skip(config.P, offset);
      var here := Min(readMax, config.P - skip);
      assert here == PageRuns.ReadHere(config.P, files[f].size, n, offset);
      out := ReadPage(f, page, skip, here);
    }

    /** The page is fixed, read and released. */
    method ReadPage(f: FileId, page: nat, skip: nat, most: nat) returns (out: seq<Byte>)
      requires Valid() && CanFix(config, S(), f, page)
      requires PageRuns.CanReadFixed(PagePolicy.FixPage(config, S(), f, page), FrameId(f, page), skip, most)
      modifies this
      ensures PageRuns.CanReadFixed(PagePolicy.FixPage(config, old(S()), f, page), FrameId(f, page), skip, most)
      ensures Valid() && S() == Unfix(PagePolicy.FixPage(config, old(S()), f, page), FrameId(f, page))
      ensures out == PagePolicy.FixPage(config, old(S()), f, page).frames[FrameId(f, page)].buffer[skip..skip + most]
      ensures history == Fixed(old(history), frames.Keys, FrameId(f, page))
    {
      var id := FixPage(f, page);
      var readHere := Min(most, frames[id].dataSize);
      out := frames[id].buffer[skip..skip + readHere];
      UnpinKeys(S(), id);
      ReleasePage(id);
    }

    /** `FileRef::Append`: the file system may take the bytes in several writes. */
    method Append(f: FileId, data: seq<Byte>) returns (ok: bool)
      requires Valid() && config.P > 0 && f in files && PageNo(config.P, files[f].size) < MAX_PAGES
      modifies this`disk, this`files, this`frames
      ensures Valid() && ok == old(files[f].flags.write)
      ensures S() == PageRuns.AppendFile(config, old(S()), f, data).0
    {
      if !files[f].flags.write { return false; }
      ghost var s := S();
      PageRuns.AppendOk(config, s, f, data);
      AppendTwoQ(config, s, history, f, data);
      var file := files[f];
      var reader, remaining := 0, |data|;
      NothingAppended(disk, file.path, data);
      while remaining > 0
        invariant 0 <= reader && 0 <= remaining && reader + remaining == |data|
        invariant frames == old(frames) && files == old(files)
        invariant disk == AppendedTo(old(disk), file.path, data[..reader])
      {
        var n :| 1 <= n <= remaining;
        AppendedMore(old(disk), file.path, data, reader, n);
        disk := AppendedTo(disk, file.path, data[reader..reader + n]);
        reader, remaining := reader + n, remaining - n;
      }
      assert data[..reader] == data;
      files := files[f := file.(size := file.size + |data|)];
      ExtendLastPage(f, file.size, data);
      Same(config, S(), PageState.Append(config.P, s, f, data), history);
      return true;
    }

    /** The end of `Append`: the page that was the last takes its share, if it is resident.  Dirty or
        not, it stays as it is: the bytes are on disk already. */
    method ExtendLastPage(f: FileId, size: nat, data: seq<Byte>)
      requires config.P > 0 && forall id :: id in frames ==> |frames[id].buffer| == config.P
      modifies this`frames
      ensures var id := FrameId(f, PageNo(config.P, size));
        frames ==
          if id in old(frames) then old(frames)[id := Extend(config.P, size, data, old(frames)[id])] else old(frames)
    {
      var page := PageNo(config.P, size);
      PageOf(config.P, size);
      var at := size - Start(config.P, page);
      var id := FrameId(f, page);
      if id in frames {
        var here := Min(config.P - at, |data|);
        var buffer := Splice(frames[id].buffer, at, data[..here]);
        frames := frames[id := frames[id].(buffer := buffer, dataSize := at + here)];
      }
    }

    /** `FileRef::Write`. */
    method Write(f: FileId, data: seq<Byte>, offset: nat) returns (r: PageRuns.WriteResult)
      requires Valid() && config.P > 0 && f in files && PageNo(config.P, files[f].size) < MAX_PAGES
      requires files[f].flags.append ==> PageRuns.CanAccess(config, S(), f, offset)
      modifies this
      ensures Valid() && (S(), r) == PageRuns.WriteFile(config, old(S()), f, data, offset)
      ensures history ==
        Recorded(old(history), frames.Keys, FixedByWrite(config.P, old(files[f].flags), old(files[f].size), f, offset))
    {
      ForgetNone(S(), history);
      if !files[f].flags.write { return PageRuns.NotWritable; }
      if !files[f].flags.append || offset == files[f].size {
        AppendedKeys(config, S(), f, data);
        var ok := Append(f, data);
        return PageRuns.Written(|data|);
      }
      var here := PageRuns.WriteHere(config.P, |data|, offset);
      WriteInPlace(f, data[..here], offset);
      return PageRuns.Written(here);
    }

    /** The in-place branch of `Write`. */
    method WriteInPlace(f: FileId, data: seq<Byte>, offset: nat)
      requires Valid() && PageRuns.CanAccess(config, S(), f, offset) && Skip(config.P, offset) + |data| <= config.P
      modifies this
      ensures Valid() && S() == PageRuns.WritePage(config, old(S()), f, data, offset)
      ensures history == Fixed(old(history), frames.Keys, FrameId(f, PageNo(config.P, offset)))
    {
      ghost var s := S();
      PageRuns.AccessFixes(config, s, f, offset);
      PageRuns.FixHolds(config, s, f, PageNo(config.P, offset));
      PageRuns.FixWrites(config, s, f, offset, data);
      var id := FixPage(f, PageNo(config.P, offset));
      PokeTwoQ(S(), history, id, Skip(config.P, offset), data);
      var buffer := Splice(frames[id].buffer, Skip(config.P, offset), data);
      frames := frames[id := frames[id].(buffer := buffer, dirty := true)];
      UnpinKeys(S(), id);
      ReleasePage(id);
    }

    /** `FileRef::Flush`: writes every frame of the file back. */
    method Flush(f: FileId)
      requires Valid() && f in files
      modifies this`disk, this`frames
      ensures Valid() && S() == FlushFile(config.P, old(S()), f)
    {
      var pages := files[f].pages;
      PagesResident(config, S(), f);
      for i := 0 to |pages|
        invariant Valid() && files == old(files)
        invariant forall id :: id in pages ==> id in frames
        invariant FlushPages(config.P, S(), pages[i..]) == FlushFile(config.P, old(S()), f)
      {
        FlushEffect(config.P, S(), pages[i]);
        assert pages[i..][1..] == pages[i + 1..];
        FlushFrame(pages[i]);
      }
    }

    /** `FileRef::Truncate`: the file system resizes the file, and the data sizes of its frames follow.
        `fill` is what it fills up with. */
    method Truncate(f: FileId, size: nat, fill: seq<Byte>) returns (ok: bool)
      requires Valid() && f in files && (files[f].flags.write ==> size <= files[f].size + |fill|)
      modifies this`disk, this`files, this`frames
      ensures ok == old(files[f].flags.write)
      ensures S() == if ok then PageTruncate.Truncate(config.P, old(S()), f, size, fill) else old(S())
      ensures !ok || PageTruncate.AllSpan(config.P, old(S()), f, size, fill) ==> Valid()
    {
      if !files[f].flags.write { return false; }
      ghost var s := S();
      PageTruncate.TruncateKeeps(config, s, f, size, fill);
      TruncateTwoQ(config.P, s, history, f, size, fill);
      PagesResident(config, s, f);
      var file := files[f];
      disk := PageTruncate.ResizedDisk(disk, file.path, file.size, size, fill);
      files := files[f := file.(size := size)];
      RemeasureFrames(f, file.pages, size);
      assert S() == PageTruncate.Truncate(config.P, s, f, size, fill);
      return true;
    }

    /** The loop over the frames of a file. */
    method RemeasureFrames(f: FileId, pages: seq<FrameId>, size: nat)
      requires forall id :: id in pages <==> id in frames && id.file == f
      modifies this`frames
      ensures frames == PageTruncate.Remeasure(config.P, f, size, old(frames))
    {
      ghost var before := frames;
      for i := 0 to |pages|
        invariant frames.Keys == before.Keys
        invariant forall id :: id in before && id in pages[..i] ==>
          frames[id] == PageTruncate.Remeasured(Start(config.P, id.page), size, before[id])
        invariant forall id :: id in before && id !in pages[..i] ==> frames[id] == before[id]
      {
        var id := pages[i];
        frames := frames[id := PageTruncate.Remeasured(Start(config.P, id.page), size, frames[id])];
      }
    }

    /** `DonateFrameBuffer`. */
    method DonateFrameBuffer(buffer: seq<Byte>)
      requires Valid() && |buffer| == config.P
      modifies this`freeBuffers
      ensures Valid() && S() == Donate(config, old(S()), buffer)
    {
      DonateKeeps(config, S(), buffer);
      OpenTwoQ(S(), history);
      if |freeBuffers| + |frames| < config.capacity {
        freeBuffers := freeBuffers + [buffer];
      }
    }

    /** The loop of `Release`: every frame of the file is written back and dropped. */
    method DropFrames(f: FileId)
      requires Valid() && f in files
      modifies this
      ensures Valid() && S() == DropPages(config, old(S()), f)
      ensures history == Forget(old(history), frames.Keys)
    {
      ghost var s := S();
      ForgetNone(s, history);
      while files[f].pages != []
        invariant Valid() && f in files && history == Forget(old(history), frames.Keys)
        invariant DropPages(config, S(), f) == DropPages(config, s, f)
        decreases |files[f].pages|
      {
        ghost var before := frames.Keys;
        FirstPage(config, S(), f);
        var id := files[f].pages[0];
        FlushOk(config, S(), id);
        DropFirstKeeps(config, S(), f);
        FlushFrame(id);
        DonateFrameBuffer(frames[id].buffer);
        EraseFrame(id);
        ForgetTwice(old(history), before, frames.Keys);
      }
      FirstPage(config, S(), f);
    }

    /** `FileRef::Release`: the last reference writes the file back and drops it, unless it may stay
        behind dangling. */
    method Release(f: FileId, keepDangling: bool) returns (gone: bool)
      requires Valid() && f in files && files[f].users > 0
      modifies this
      ensures Valid() && (S(), gone) == PageFiles.Release(config, old(S()), f, keepDangling)
      ensures history == Forget(old(history), frames.Keys)
    {
      ghost var s := S();
      ReleaseKeeps(config, s, f, keepDangling);
      ForgetNone(s, history);
      if files[f].users > 1 || (keepDangling && files[f].flags.read) {
        UsersTwoQ(s, history, f, files[f].users - 1);
        files := files[f := files[f].(users := files[f].users - 1)];
        return false;
      }
      DropPagesEffect(config, s, f);
      DropFrames(f);
      EraseFile(f);
      return true;
    }

    /** The end of `Release`: a file without frames leaves the directory, and its id is free again. */
    method EraseFile(f: FileId)
      requires Valid() && f in files && Ok(config, CloseFile(S(), f))
      modifies this`files, this`filesByName, this`freeFileIds
      ensures Valid() && S() == CloseFile(old(S()), f)
    {
      CloseTwoQ(S(), history, f);
      ghost var s := S();
      filesByName := filesByName - {files[f].path};
      freeFileIds := freeFileIds + [f];
      files := files - {f};
      OkIs(config, S(), CloseFile(s, f));
    }

    /** `OpenFile`. */
    method OpenFile(path: Path, flags: Flags) returns (r: OpenResult)
      requires Valid()
      modifies this`disk, this`files, this`filesByName, this`freeFileIds, this`allocatedFileIds
      ensures (S(), r) == PageFiles.OpenFile(old(S()), path, flags)
      ensures Valid() <==> !EmptiesBelow(old(S()), path, flags)
    {
      ghost var s := S();
      OpenKeeps(config, s, path, flags);
      NamesAreLive(config, s);
      OpenKeepsTwoQ(s, history, path, flags);
      if path in filesByName {
        r := OpenAgain(filesByName[path], flags);
      } else {
        var found := FsOpen(disk, path, flags);
        if found.None? { return NoSuchFile; }
        disk := found.value;
        r := EnterFile(path, flags);
      }
      assert S() == PageFiles.OpenFile(s, path, flags).0;
    }

    /** One reference more to a file that the buffer knows, unless the flags forbid it. */
    method OpenAgain(f: FileId, flags: Flags) returns (r: OpenResult)
      requires f in files
      modifies this`disk, this`files
      ensures (S(), r) == OpenKnown(old(S()), f, flags)
    {
      var have := files[f].flags;
      if have.writeLock { return LockedExclusively; }
      if OnlyCreateNew(flags) { return CannotTruncate; }
      if flags.write {
        if !have.write {
          ReOpen(f, flags);
        } else if flags.append && !have.append {
          return OpenedWithoutAppend;
        }
      }
      files := files[f := files[f].(users := files[f].users + 1)];
      return Opened(f);
    }

    /** `ReOpen`: the path is opened once more in the file system; the file keeps its flags and size. */
    method ReOpen(f: FileId, flags: Flags)
      requires f in files && !files[f].flags.writeLock && !files[f].flags.write && flags.write
      modifies this`disk
      ensures disk == ReopenedDisk(old(disk), files[f].path, files[f].flags, flags)
    {
      var found := FsOpen(disk, files[f].path, flags);
      if found.Some? {
        disk := found.value;
      }
    }

    /** A file id for a newly opened file: one that was freed, or the next one. */
    method EnterFile(path: Path, flags: Flags) returns (r: OpenResult)
      requires path in disk
      modifies this`files, this`filesByName, this`freeFileIds, this`allocatedFileIds
      ensures (S(), r) == Enter(old(S()), path, flags)
    {
      var f;
      if freeFileIds != [] {
        f := freeFileIds[|freeFileIds| - 1];
        freeFileIds := freeFileIds[..|freeFileIds| - 1];
      } else {
        if allocatedFileIds == MAX_FILES { return TooManyFiles; }
        f := allocatedFileIds;
        allocatedFileIds := allocatedFileIds + 1;
      }
      filesByName := filesByName[path := f];
      files := files[f := BufferedFile(path, flags, |disk[path]|, 1, [])];
      r := Opened(f);
    }

    /** Any operation of a run is the method of the same name. */
    method Perform(op: PageRuns.Op) returns (out: PageRuns.Out)
      requires Valid() && PageRuns.Enabled(config, S(), op)
      modifies this
      ensures Valid() && (S(), out) == PageRuns.Step(config, old(S()), op)
      ensures history == HistoryAfter(config, old(S()), old(history), op)
    {
      if op.Read? || op.Write? || op.Fix? || op.Release? {
        out := PerformOnPage(op);
      } else {
        out := PerformOnFile(op);
      }
    }

    method PerformOnPage(op: PageRuns.Op) returns (out: PageRuns.Out)
      requires Valid() && PageRuns.Enabled(config, S(), op) && (op.Read? || op.Write? || op.Fix? || op.Release?)
      modifies this
      ensures Valid() && (S(), out) == PageRuns.Step(config, old(S()), op)
      ensures history == HistoryAfter(config, old(S()), old(history), op)
    {
      StaysRecorded(config, S(), history, op);
      match op {
        case Read(path, n, offset) =>
          var data := Read(filesByName[path], n, offset);
          return PageRuns.Bytes(data);
        case Write(path, data, offset) =>
          var r := Write(filesByName[path], data, offset);
          return if r.Written? then PageRuns.Count(r.count) else PageRuns.Refused;
        case Fix(path, page) =>
          var id := FixPage(filesByName[path], page);
          return PageRuns.Done;
        case Release(path, page) =>
          ReleasePage(FrameId(filesByName[path], page));
          return PageRuns.Done;
      }
    }

    method PerformOnFile(op: PageRuns.Op) returns (out: PageRuns.Out)
      requires Valid() && PageRuns.Enabled(config, S(), op) && !op.Read? && !op.Write? && !op.Fix? && !op.Release?
      modifies this
      ensures Valid() && (S(), out) == PageRuns.Step(config, old(S()), op)
      ensures history == HistoryAfter(config, old(S()), old(history), op)
    {
      StaysRecorded(config, S(), history, op);
      match op {
        case Open(path, flags) =>
          var r := OpenFile(path, flags);
          return PageRuns.OutOf(r);
        case Close(path, keepDangling) =>
          var gone := Release(filesByName[path], keepDangling);
          return if gone then PageRuns.Done else PageRuns.Refused;
        case AppendTo(path, data) =>
          var ok := Append(filesByName[path], data);
          return if ok then PageRuns.Done else PageRuns.Refused;
        case Truncate(path, size, fill) =>
          var ok := Truncate(filesByName[path], size, fill);
          return if ok then PageRuns.Done else PageRuns.Refused;
        case Flush(path) =>
          Flush(filesByName[path]);
          return PageRuns.Done;
      }
    }

    /** `TryDropFile`: a file nobody refers to is written back and dropped. */
    method TryDropFile(path: Path) returns (dropped: bool)
      requires Valid()
      modifies this
      ensures Valid() && BuffersOk(config.P, old(S())) && BuffersOk(config.P, S())
      ensures Logical(config.P, S()) == Logical(config.P, old(S()))
      ensures dropped <==> path !in filesByName
      ensures Unused(old(S()), path) ==>
        S() == PageFiles.Release(config, SetUsers(old(S()), old(filesByName[path]), 1), old(filesByName[path]), false).0
      ensures !Unused(old(S()), path) ==> S() == old(S())
      ensures history == Forget(old(history), frames.Keys)
      ensures dropped ==> !exists id :: id in frames && path in old(filesByName) && id.file == old(filesByName[path])
    {
      ghost var s := S();
      NamesAreLive(config, s);
      BuffersAreOk(config, s);
      ForgetNone(s, history);
      if path !in filesByName {
        NoFrameWithoutName(config, s);
        return true;
      }
      if files[filesByName[path]].users > 0 { return false; }
      dropped := DropUnused(path, filesByName[path]);
    }

    /** A last reference is made and released. */
    method DropUnused(path: Path, f: FileId) returns (dropped: bool)
      requires Valid() && path in filesByName && filesByName[path] == f && f in files && files[f].path == path
      modifies this
      ensures Valid() && SameBytes(config.P, old(S()), S()) && history == Forget(old(history), frames.Keys)
      ensures S() == PageFiles.Release(config, SetUsers(old(S()), f, 1), f, false).0
      ensures dropped && path !in filesByName && NoFramesOf(S(), f)
    {
      ghost var s := S();
      SetUsersKeeps(config, s, f, 1);
      UsersTwoQ(s, history, f, 1);
      files := files[f := files[f].(users := 1)];
      ReleaseKeeps(config, S(), f, false);
      dropped := Release(f, false);
    }
  }

  /** A buffered file that nobody refers to. */
  predicate Unused(s: State, path: Path) {
    path in s.byName && s.byName[path] in s.files && s.files[s.byName[path]].users == 0
  }

  lemma UnpinKeys(s: State, id: FrameId)
    requires id in s.frames && s.frames[id].users > 0
    ensures Unfix(s, id).frames.Keys == s.frames.Keys
  {
  }

  lemma AppendedKeys(c: Config, s: State, f: FileId, data: seq<Byte>)
    requires c.P > 0 && Ok(c, s) && f in s.files && PageNo(c.P, s.files[f].size) < MAX_PAGES
    ensures PageRuns.AppendFile(c, s, f, data).0.frames.Keys == s.frames.Keys
  {
  }

  /** The file system appends to one file. */
  function AppendedTo(disk: map<Path, seq<Byte>>, path: Path, data: seq<Byte>): map<Path, seq<Byte>>
    requires path in disk
  {
    disk[path := disk[path] + data]
  }

  lemma NothingAppended(disk: map<Path, seq<Byte>>, path: Path, data: seq<Byte>)
    requires path in disk
    ensures AppendedTo(disk, path, data[..0]) == disk
  {
    assert disk[path] + data[..0] == disk[path];
  }

  lemma AppendedMore(disk: map<Path, seq<Byte>>, path: Path, data: seq<Byte>, k: nat, n: nat)
    requires path in disk && k + n <= |data|
    ensures AppendedTo(AppendedTo(disk, path, data[..k]), path, data[k..k + n]) == AppendedTo(disk, path, data[..k + n])
  {
    assert disk[path] + data[..k] + data[k..k + n] == disk[path] + data[..k + n];
  }

  lemma PagesResident(c: Config, s: State, f: FileId)
    requires Ok(c, s) && f in s.files
    ensures forall id :: id in s.files[f].pages <==> id in s.frames && id.file == f
  {
    OpenOk(c, s);
    PagesAreFrames(s, f);
  }

  lemma NoFrameWithoutName(c: Config, s: State)
    requires Ok(c, s)
    ensures forall id :: id in s.frames ==> id.file in s.files
  {
    OpenOk(c, s);
  }

  /** The loop so far: what remains to be evicted, unless nothing does, hands on the last buffer. */
  function Continue(rest: (State, Option<seq<Byte>>), last: Option<seq<Byte>>): (State, Option<seq<Byte>>) {
    (rest.0, if rest.1.Some? then rest.1 else last)
  }

  lemma MakeRoomStep(c: Config, s: State)
    requires Ok(c, s) && |s.frames| >= c.capacity
    ensures match Victim(s)
      case None => MakeRoom(c, s) == (s, None)
      case Some(v) =>
        && v in s.frames && |Evict(c.P, s, v).frames| < |s.frames|
        && Evict(c.P, s, v).frames.Keys <= s.frames.Keys
        && MakeRoom(c, s) == Continue(MakeRoom(c, Evict(c.P, s, v)), Some(s.frames[v].buffer))
  {
    if Victim(s).Some? {
      EvictKeeps(c, s, Victim(s).value);
    }
  }

  lemma MakeRoomEnds(c: Config, s: State)
    ensures |s.frames| < c.capacity || Victim(s).None? ==> MakeRoom(c, s) == (s, None)
  {
  }

  lemma Same(c: Config, s: State, t: State, h: History)
    requires Ok(c, t) && TwoQ(t, h) && s == t
    ensures Ok(c, s) && TwoQ(s, h)
  {
  }

  lemma CanFlushFrame(c: Config, s: State, id: FrameId)
    requires Ok(c, s) && id in s.frames
    ensures CanFlush(c.P, s, id)
  {
    OpenOk(c, s);
  }

  lemma QueuesOfOk(c: Config, s: State)
    requires Ok(c, s)
    ensures forall id :: id in s.fifo || id in s.lru <==> id in s.frames
  {
    OpenOk(c, s);
    QueuesAreFrames(s);
  }

  /** A frame is in one queue only, so unlinking it from the other changes nothing. */
  lemma QueueOf(c: Config, s: State, id: FrameId)
    requires Ok(c, s) && id in s.frames
    ensures id.file in s.files
    ensures if id in s.lru then Remove(s.fifo, id) == s.fifo else Remove(s.lru, id) == s.lru
  {
    OpenOk(c, s);
    QueuesAreFrames(s);
    RemoveOne(s.lru, id);
    RemoveOne(s.fifo, id);
  }
}
