/** Eviction, fixing, opening and releasing: the composed operations of the page buffer. */
module PagePolicy {
  import opened Wrappers
  import opened PageState
  import opened PageLaws

  // ---------------------------------------------------------------------------
  // Eviction

  ghost predicate SameFiles(s: State, t: State) {
    && t.files.Keys == s.files.Keys
    && forall f :: f in s.files ==> t.files[f] == s.files[f].(pages := t.files[f].pages)
  }

  function Evict(P: nat, s: State, v: FrameId): State { DropFrame(FlushFrame(P, s, v), v) }

  /** `AllocateFrameBuffer`'s loop: evict until the frames number less than the capacity or every
      one of them is in use.  The buffer of the last frame evicted is handed on. */
  function MakeRoom(c: Config, s: State): (State, Option<seq<Byte>>)
    decreases |s.frames|
  {
    if |s.frames| < c.capacity then (s, None)
    else match Victim(s)
      case None => (s, None)
      case Some(v) =>
        var t := Evict(c.P, s, v);
        if |t.frames| >= |s.frames| then (s, None) else
        var (u, last) := MakeRoom(c, t);
        (u, if last.Some? then last else Some(s.frames[v].buffer))
  }

  /** `AllocateFrameBuffer`: the evicted buffer, a free one, or a new one. */
  function AllocateFrameBuffer(c: Config, s: State): (State, seq<Byte>) {
    var (t, evicted) := MakeRoom(c, s);
    if evicted.Some? then (t, evicted.value)
    else if t.freeBuffers != [] then
      (t.(freeBuffers := t.freeBuffers[..|t.freeBuffers| - 1]), t.freeBuffers[|t.freeBuffers| - 1])
    else (t, c.blank)
  }

  lemma EvictKeepsInv(P: nat, s: State, v: FrameId)
    requires Inv(P, s) && v in s.frames
    ensures Inv(P, Evict(P, s, v))
  {
    FlushKeepsInv(P, s, v);
    DropKeepsInv(P, FlushFrame(P, s, v), v);
  }

  lemma EvictKeepsLogical(P: nat, s: State, v: FrameId)
    requires Inv(P, s) && v in s.frames
    ensures BuffersOk(P, s) && BuffersOk(P, Evict(P, s, v))
    ensures Logical(P, Evict(P, s, v)) == Logical(P, s)
  {
    FlushKeepsInv(P, s, v);
    FlushKeepsLogical(P, s, v);
    DropKeepsLogical(P, FlushFrame(P, s, v), v);
  }

  /** An eviction takes one frame out, and only the disk, the queues and the frame lists change. */
  ghost predicate Evicted(s: State, t: State, v: FrameId) {
    && v in s.frames
    && t.frames == s.frames - {v}
    && t.fifo == Remove(s.fifo, v) && t.lru == Remove(s.lru, v)
    && SameRest(s, t)
  }

  ghost predicate SameRest(s: State, t: State) {
    && t.byName == s.byName && t.freeIds == s.freeIds && t.nextId == s.nextId
    && t.freeBuffers == s.freeBuffers
    && SameFiles(s, t)
  }

  lemma FlushThenRemove(frames: map<FrameId, Frame>, v: FrameId, frame: Frame)
    requires v in frames
    ensures frames[v := frame] - {v} == frames - {v}
    ensures |frames - {v}| == |frames| - 1
  {
    assert (frames - {v}).Keys == frames.Keys - {v};
  }

  lemma FlushEffect(P: nat, s: State, v: FrameId)
    requires v in s.frames
    ensures var t := FlushFrame(P, s, v);
      v in t.frames && t == s.(disk := t.disk, frames := s.frames[v := t.frames[v]])
  {
    assert s.frames == s.frames[v := s.frames[v]];
  }

  lemma DropEffect(s: State, v: FrameId)
    requires v in s.frames && v.file in s.files
    ensures Evicted(s, DropFrame(s, v), v)
  {
  }

  lemma EvictEffect(P: nat, s: State, v: FrameId)
    requires v in s.frames && v.file in s.files
    ensures Evicted(s, Evict(P, s, v), v) && |Evict(P, s, v).frames| == |s.frames| - 1
  {
    var t := FlushFrame(P, s, v);
    FlushEffect(P, s, v);
    DropEffect(t, v);
    FlushThenRemove(s.frames, v, t.frames[v]);
  }

  lemma VictimExists(P: nat, s: State)
    requires QueuesOk(s) && Victim(s).None?
    ensures forall id :: id in s.frames ==> s.frames[id].users > 0
  {
    forall id | id in s.frames
      ensures s.frames[id].users > 0
    {
      assert id in multiset(s.fifo) + multiset(s.lru);
    }
  }

  lemma EvictKeeps(c: Config, s: State, v: FrameId)
    requires Ok(c, s) && v in s.frames
    ensures Ok(c, Evict(c.P, s, v)) && SameBytes(c.P, s, Evict(c.P, s, v))
    ensures Evicted(s, Evict(c.P, s, v), v) && |Evict(c.P, s, v).frames| == |s.frames| - 1
  {
    OpenOk(c, s);
    EvictKeepsInv(c.P, s, v);
    EvictKeepsLogical(c.P, s, v);
    EvictEffect(c.P, s, v);
  }

  lemma {:induction false} MakeRoomKeeps(c: Config, s: State)
    requires Ok(c, s)
    ensures Ok(c, MakeRoom(c, s).0) && SameBytes(c.P, s, MakeRoom(c, s).0)
    ensures MakeRoom(c, s).1.Some? ==> |MakeRoom(c, s).1.value| == c.P
    decreases |s.frames|
  {
    BuffersAreOk(c, s);
    if |s.frames| >= c.capacity && Victim(s).Some? {
      var v := Victim(s).value;
      EvictKeeps(c, s, v);
      MakeRoomKeeps(c, Evict(c.P, s, v));
    }
  }

  lemma BuffersAreOk(c: Config, s: State)
    requires Ok(c, s)
    ensures BuffersOk(c.P, s) && |c.blank| == c.P && forall b :: b in s.freeBuffers ==> |b| == c.P
  {
    OpenOk(c, s);
  }

  /** Eviction takes frames out of the directory, never one in use. */
  ghost predicate Trimmed(s: State, t: State) {
    && t.frames.Keys <= s.frames.Keys
    && (forall id :: id in t.frames ==> t.frames[id] == s.frames[id])
    && (forall id :: id in s.frames && s.frames[id].users > 0 ==> id in t.frames)
    && SameRest(s, t)
  }

  lemma TrimmedStep(s: State, t: State, u: State, v: FrameId)
    requires Evicted(s, t, v) && s.frames[v].users == 0 && Trimmed(t, u)
    ensures Trimmed(s, u)
  {
  }

  /** Eviction goes on only as long as the frames reach the capacity, and stops above the capacity
      only if every frame left is in use. */
  lemma {:induction false} MakeRoomEffect(c: Config, s: State)
    requires Ok(c, s)
    ensures Trimmed(s, MakeRoom(c, s).0)
    ensures var t := MakeRoom(c, s).0;
      && (|t.frames| < c.capacity || forall id :: id in t.frames ==> t.frames[id].users > 0)
      && (t != s ==> |t.frames| + 1 >= c.capacity)
    decreases |s.frames|
  {
    if |s.frames| >= c.capacity {
      if Victim(s).Some? {
        var v := Victim(s).value;
        var t := Evict(c.P, s, v);
        EvictKeeps(c, s, v);
        MakeRoomEffect(c, t);
        TrimmedStep(s, t, MakeRoom(c, t).0, v);
      } else {
        OpenOk(c, s);
        VictimExists(c.P, s);
      }
    }
  }

  lemma AllocateKeeps(c: Config, s: State)
    requires Ok(c, s)
    ensures var (t, buffer) := AllocateFrameBuffer(c, s);
      && Ok(c, t) && SameBytes(c.P, s, t) && |buffer| == c.P
      && t == MakeRoom(c, s).0.(freeBuffers := t.freeBuffers)
  {
    MakeRoomKeeps(c, s);
    var (u, evicted) := MakeRoom(c, s);
    BuffersAreOk(c, u);
    if evicted.None? && u.freeBuffers != [] {
      FreeBuffersDoNotMatter(c, u, AllocateFrameBuffer(c, s).0);
    }
  }

  lemma FreeBuffersDoNotMatter(c: Config, s: State, t: State)
    requires Ok(c, s) && t == s.(freeBuffers := t.freeBuffers)
    requires forall b :: b in t.freeBuffers ==> |b| == c.P
    ensures Ok(c, t) && SameBytes(c.P, s, t)
  {
    OpenOk(c, s);
  }

  // ---------------------------------------------------------------------------
  // Fixing a page

  function FixPage(c: Config, s: State, f: FileId, page: nat): State {
    var id := FrameId(f, page);
    if id in s.frames then Touch(s, id)
    else
      var (t, buffer) := AllocateFrameBuffer(c, s);
      Load(c.P, t, f, page, buffer)
  }

  /** What a call of `FixPage` may ask for: a page of an open file that starts within the file. */
  ghost predicate CanFix(c: Config, s: State, f: FileId, page: nat) {
    f in s.files && page < MAX_PAGES && Start(c.P, page) <= s.files[f].size
  }

  lemma CanFixKept(c: Config, s: State, t: State, f: FileId, page: nat)
    requires SameFiles(s, t)
    ensures CanFix(c, s, f, page) ==> CanFix(c, t, f, page)
  {
  }

  lemma FixMiss(c: Config, s: State, f: FileId, page: nat)
    requires Ok(c, s) && f in s.files && FrameId(f, page) !in s.frames
    ensures var t := AllocateFrameBuffer(c, s).0;
      && Ok(c, t) && SameBytes(c.P, s, t) && SameFiles(s, t)
      && (CanFix(c, s, f, page) ==> CanFix(c, t, f, page))
      && FrameId(f, page) !in t.frames && |AllocateFrameBuffer(c, s).1| == c.P
      && Trimmed(s, t.(freeBuffers := s.freeBuffers))
      && (|t.frames| < c.capacity || forall id :: id in t.frames ==> t.frames[id].users > 0)
  {
    AllocateKeeps(c, s);
    MakeRoomEffect(c, s);
    assert MakeRoom(c, s).0 == AllocateFrameBuffer(c, s).0.(freeBuffers := s.freeBuffers);
    CanFixKept(c, s, AllocateFrameBuffer(c, s).0, f, page);
  }

  /** One frame more, with one user. */
  ghost predicate LoadedAs(s: State, t: State, id: FrameId) {
    && id in t.frames && t.frames[id].users == 1
    && t.frames == s.frames[id := t.frames[id]] && |t.frames| == |s.frames| + 1
    && SameFiles(s, t) && t.byName == s.byName
  }

  lemma LoadPins(P: nat, s: State, f: FileId, page: nat, buffer: seq<Byte>)
    requires CanLoad(s, f) && FrameId(f, page) !in s.frames
    ensures LoadedAs(s, Load(P, s, f, page, buffer), FrameId(f, page))
    ensures Load(P, s, f, page, buffer).freeBuffers == s.freeBuffers
  {
    var t, id := Load(P, s, f, page, buffer), FrameId(f, page);
    assert t.frames.Keys == s.frames.Keys + {id};
  }

  lemma FixIsLoad(c: Config, s: State, f: FileId)
    requires Ok(c, s) && f in s.files
    ensures CanLoad(s, f)
  {
    OpenOk(c, s);
  }

  lemma LoadKeepsOk(c: Config, s: State, f: FileId, page: nat, buffer: seq<Byte>)
    requires Ok(c, s) && CanFix(c, s, f, page) && FrameId(f, page) !in s.frames && |buffer| == c.P
    requires Load(c.P, s, f, page, buffer).freeBuffers == s.freeBuffers
    ensures Ok(c, Load(c.P, s, f, page, buffer)) && SameBytes(c.P, s, Load(c.P, s, f, page, buffer))
  {
    OpenOk(c, s);
    LoadKeepsInv(c.P, s, f, page, buffer);
    LoadKeepsLogical(c.P, s, f, page, buffer);
  }

  lemma LoadKeeps(c: Config, s: State, f: FileId, page: nat, buffer: seq<Byte>)
    requires Ok(c, s) && CanFix(c, s, f, page) && FrameId(f, page) !in s.frames && |buffer| == c.P
    ensures Ok(c, Load(c.P, s, f, page, buffer)) && SameBytes(c.P, s, Load(c.P, s, f, page, buffer))
    ensures LoadedAs(s, Load(c.P, s, f, page, buffer), FrameId(f, page))
  {
    FixIsLoad(c, s, f);
    LoadPins(c.P, s, f, page, buffer);
    LoadKeepsOk(c, s, f, page, buffer);
  }

  lemma TouchKeepsOk(c: Config, s: State, id: FrameId)
    requires Ok(c, s) && id in s.frames
    ensures Ok(c, Touch(s, id)) && SameBytes(c.P, s, Touch(s, id))
  {
    OpenOk(c, s);
    TouchKeeps(c.P, s, id);
  }

  /** Fixing keeps the directory in order and shows no change to any reader. */
  lemma FixKeeps(c: Config, s: State, f: FileId, page: nat)
    requires Ok(c, s) && CanFix(c, s, f, page)
    ensures Ok(c, FixPage(c, s, f, page)) && SameBytes(c.P, s, FixPage(c, s, f, page))
    ensures FrameId(f, page) in FixPage(c, s, f, page).frames
    ensures SameFiles(s, FixPage(c, s, f, page)) && FixPage(c, s, f, page).byName == s.byName
  {
    if FrameId(f, page) in s.frames {
      TouchKeepsOk(c, s, FrameId(f, page));
    } else {
      FixMiss(c, s, f, page);
      var (t, buffer) := AllocateFrameBuffer(c, s);
      LoadKeeps(c, t, f, page, buffer);
    }
  }

  /** A page beyond the end of the file gets a whole page of data: whatever its buffer held before. */
  lemma FixBeyondTheEnd(c: Config, s: State, f: FileId, page: nat)
    requires Ok(c, s) && f in s.files && Start(c.P, page) > s.files[f].size
    ensures var t, id := FixPage(c, s, f, page), FrameId(f, page);
      && id in t.frames && t.frames[id] == Frame(AllocateFrameBuffer(c, s).1, c.P, 1, false) && !Ok(c, t)
  {
    var id := FrameId(f, page);
    NoFrameBeyond(c, s, f, page);
    FixMiss(c, s, f, page);
    var (u, buffer) := AllocateFrameBuffer(c, s);
    var t := Load(c.P, u, f, page, buffer);
    FixIsLoad(c, u, f);
    NothingStored(c, u, f, page, buffer);
    if Ok(c, t) {
      NoFrameBeyond(c, t, f, page);
      assert false;
    }
  }

  lemma NoFrameBeyond(c: Config, s: State, f: FileId, page: nat)
    requires Ok(c, s) && f in s.files && Start(c.P, page) > s.files[f].size
    ensures FrameId(f, page) !in s.frames
  {
    if FrameId(f, page) in s.frames {
      FrameStarts(c, s, FrameId(f, page));
    }
  }

  lemma FrameStarts(c: Config, s: State, id: FrameId)
    requires Ok(c, s) && id in s.frames
    ensures id.file in s.files && Start(c.P, id.page) <= s.files[id.file].size
  {
    OpenOk(c, s);
    assert FrameOk(c.P, s.disk[s.files[id.file].path], id.page, s.frames[id]);
  }

  lemma NothingStored(c: Config, s: State, f: FileId, page: nat, buffer: seq<Byte>)
    requires Ok(c, s) && CanLoad(s, f) && Start(c.P, page) > s.files[f].size
    ensures LoadedFrame(c.P, s.disk[s.files[f].path], s.files[f].size, page, buffer) == Frame(buffer, c.P, 1, false)
  {
    OpenOk(c, s);
    var content := s.disk[s.files[f].path];
    assert Stored(content, Start(c.P, page), c.P) == [];
    assert Splice(buffer, 0, []) == buffer;
  }

  /** A fix keeps the directory in order exactly if the page starts within the file. */
  lemma FixIsInOrder(c: Config, s: State, f: FileId, page: nat)
    requires Ok(c, s) && f in s.files && page < MAX_PAGES
    ensures Ok(c, FixPage(c, s, f, page)) <==> Start(c.P, page) <= s.files[f].size
  {
    if Start(c.P, page) <= s.files[f].size {
      FixKeeps(c, s, f, page);
    } else {
      FixBeyondTheEnd(c, s, f, page);
    }
  }

  /** One use more of `id`; every other frame in use is as it was. */
  ghost predicate Pinned(s: State, t: State, id: FrameId) {
    && id in t.frames
    && t.frames[id].users == (if id in s.frames then s.frames[id].users else 0) + 1
    && (forall k :: k in s.frames && s.frames[k].users > 0 && k != id ==> k in t.frames)
    && (forall k :: k in t.frames && k != id ==> k in s.frames && t.frames[k] == s.frames[k])
  }

  lemma PinnedByLoad(s: State, t: State, u: State, id: FrameId)
    requires id !in s.frames && id !in t.frames
    requires Trimmed(s, t.(freeBuffers := s.freeBuffers)) && LoadedAs(t, u, id)
    ensures Pinned(s, u, id)
  {
  }

  /** Fixing pins the page once more and leaves every other frame in use alone.  A miss ends within
      the capacity unless every other frame is in use; a hit neither loads nor evicts. */
  lemma FixPins(c: Config, s: State, f: FileId, page: nat)
    requires Ok(c, s) && CanFix(c, s, f, page)
    ensures var t, id := FixPage(c, s, f, page), FrameId(f, page);
      && Pinned(s, t, id)
      && (id in s.frames ==> t.frames.Keys == s.frames.Keys)
      && (id !in s.frames ==>
           |t.frames| <= c.capacity || forall k :: k in t.frames && k != id ==> t.frames[k].users > 0)
  {
    var id := FrameId(f, page);
    if id !in s.frames {
      FixMiss(c, s, f, page);
      var (t, buffer) := AllocateFrameBuffer(c, s);
      LoadKeeps(c, t, f, page, buffer);
      PinnedByLoad(s, t, Load(c.P, t, f, page, buffer), id);
    }
  }

  /** A fixed page shows its part of the file. */
  lemma FrameShowsFile(P: nat, s: State, id: FrameId)
    requires Inv(P, s) && id in s.frames
    ensures BuffersOk(P, s)
    ensures var frame, at, path := s.frames[id], Start(P, id.page), s.files[id.file].path;
      && path in s.disk && |Logical(P, s)[path]| == s.files[id.file].size
      && at <= s.files[id.file].size
      && frame.dataSize == PageBytes(P, s.files[id.file].size, id.page) <= |frame.buffer|
      && frame.buffer[..frame.dataSize] == Logical(P, s)[path][at..at + frame.dataSize]
  {
    var frame, at, path := s.frames[id], Start(P, id.page), s.files[id.file].path;
    assert FrameOk(P, s.disk[path], id.page, frame);
    ShowsFile(P, s, id, frame, at, path);
  }

  lemma ShowsFile(P: nat, s: State, id: FrameId, frame: Frame, at: nat, path: Path)
    requires BuffersOk(P, s) && id in s.frames && s.frames[id] == frame && at == Start(P, id.page)
    requires path in s.disk && path in s.byName && s.byName[path] == id.file
    requires frame.dataSize <= P && at + frame.dataSize <= |s.disk[path]|
    ensures |Logical(P, s)[path]| == |s.disk[path]|
    ensures frame.buffer[..frame.dataSize] == Logical(P, s)[path][at..at + frame.dataSize]
  {
    assert |Logical(P, s)[path]| == |s.disk[path]|;
    forall k | 0 <= k < frame.dataSize
      ensures frame.buffer[k] == Logical(P, s)[path][at + k]
    {
      DivMod(P, id.page, k);
      LogicalIsView(P, s, path, at + k);
    }
  }

  // ---------------------------------------------------------------------------
  // Flushing files

  /** `Flush`: every frame of a list is written back in turn. */
  function FlushPages(P: nat, s: State, ids: seq<FrameId>): State
    decreases |ids|
  {
    if ids == [] then s else FlushPages(P, FlushFrame(P, s, ids[0]), ids[1..])
  }

  /** The frames of a list are clean; nothing else of the directory changes. */
  ghost predicate Flushed(s: State, t: State, ids: seq<FrameId>) {
    && t == s.(disk := t.disk, frames := t.frames) && t.frames.Keys == s.frames.Keys
    && (forall id :: id in s.frames ==>
         t.frames[id] == s.frames[id].(dirty := s.frames[id].dirty && id !in ids))
  }

  lemma FlushedStep(P: nat, s: State, t: State, u: State, ids: seq<FrameId>)
    requires ids != [] && ids[0] in s.frames && t == s.(disk := t.disk, frames := t.frames)
    requires t.frames == s.frames[ids[0] := s.frames[ids[0]].(dirty := false)]
    requires Flushed(t, u, ids[1..])
    ensures Flushed(s, u, ids)
  {
    assert forall id :: id in ids <==> id == ids[0] || id in ids[1..];
  }

  lemma {:induction false} FlushPagesKeeps(P: nat, s: State, ids: seq<FrameId>)
    requires Inv(P, s) && forall id :: id in ids ==> id in s.frames
    ensures var t := FlushPages(P, s, ids);
      Inv(P, t) && BuffersOk(P, s) && Logical(P, t) == Logical(P, s) && Flushed(s, t, ids)
    decreases |ids|
  {
    if ids == [] {
      assert BuffersOk(P, s);
    } else {
      var t := FlushFrame(P, s, ids[0]);
      FlushKeepsInv(P, s, ids[0]);
      FlushKeepsLogical(P, s, ids[0]);
      FlushEffect(P, s, ids[0]);
      FlushOne(P, s, ids[0]);
      FlushPagesKeeps(P, t, ids[1..]);
      FlushedStep(P, s, t, FlushPages(P, t, ids[1..]), ids);
    }
  }

  lemma FlushOne(P: nat, s: State, id: FrameId)
    requires Inv(P, s) && id in s.frames
    ensures FlushFrame(P, s, id).frames == s.frames[id := s.frames[id].(dirty := false)]
  {
    FlushKeepsInv(P, s, id);
    if !s.frames[id].dirty {
      assert s.frames[id] == s.frames[id].(dirty := false);
    }
  }

  /** With no dirty frame left, the disk shows what the readers of the file see. */
  lemma CleanFileIsOnDisk(P: nat, s: State, f: FileId)
    requires Inv(P, s) && f in s.files
    requires forall id :: id in s.frames && id.file == f ==> !s.frames[id].dirty
    ensures BuffersOk(P, s) && Logical(P, s)[s.files[f].path] == s.disk[s.files[f].path]
  {
    var path := s.files[f].path;
    assert BuffersOk(P, s);
    assert |Logical(P, s)[path]| == |s.disk[path]|;
    forall i | 0 <= i < |s.disk[path]|
      ensures Logical(P, s)[path][i] == s.disk[path][i]
    {
      var id := FrameId(f, PageNo(P, i));
      if id in s.frames {
        FrameShows(P, s.disk[path], id.page, s.frames[id], i);
      }
      LogicalIsView(P, s, path, i);
    }
  }

  /** `FileRef::Flush`. */
  function FlushFile(P: nat, s: State, f: FileId): State {
    if f in s.files then FlushPages(P, s, s.files[f].pages) else s
  }

  lemma PagesAreFrames(s: State, f: FileId)
    requires PagesOk(s) && f in s.files
    ensures forall id :: id in s.files[f].pages <==> id in s.frames && id.file == f
  {
    forall id
      ensures id in s.files[f].pages <==> id in s.frames && id.file == f
    {
      assert id in multiset(s.files[f].pages) <==> id in multiset(FramesOf(s.frames, f));
    }
  }

  /** A flush shows nothing to readers, and afterwards the disk holds what they see. */
  lemma FlushFileSyncs(P: nat, s: State, f: FileId)
    requires Inv(P, s) && f in s.files
    ensures var t := FlushFile(P, s, f);
      && Inv(P, t) && BuffersOk(P, s) && Logical(P, t) == Logical(P, s)
      && Flushed(s, t, s.files[f].pages)
      && s.files[f].path in t.disk && t.disk[s.files[f].path] == Logical(P, t)[s.files[f].path]
  {
    PagesAreFrames(s, f);
    FlushPagesKeeps(P, s, s.files[f].pages);
    var t := FlushFile(P, s, f);
    CleanFileIsOnDisk(P, t, f);
  }
}
