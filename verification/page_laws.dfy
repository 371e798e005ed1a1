/** What the steps of the page buffer keep: the invariants of the directory, and the contents of
    every file as its readers see them. */
module PageLaws {
  import opened PageState

  // ---------------------------------------------------------------------------
  // Sets and lists without repetition

  lemma SetInsert<T>(s: set<T>, x: T)
    requires x !in s
    ensures multiset(s + {x}) == multiset(s) + multiset{x}
  {
  }

  lemma SetDelete<T>(s: set<T>, x: T)
    requires x in s
    ensures multiset(s - {x}) == multiset(s) - multiset{x}
  {
  }

  // ---------------------------------------------------------------------------
  // Views

  ghost predicate BuffersOk(P: nat, s: State) {
    P > 0 && forall id :: id in s.frames ==> |s.frames[id].buffer| == P
  }

  /** No reader of any file can tell the two states apart. */
  ghost predicate SameBytes(P: nat, s: State, t: State) {
    BuffersOk(P, s) && BuffersOk(P, t) && Logical(P, t) == Logical(P, s)
  }

  /** One byte of `Logical`. */
  ghost function View(P: nat, s: State, p: Path, i: nat): Byte
    requires BuffersOk(P, s) && p in s.disk && i < |s.disk[p]|
  {
    if p in s.byName then ByteAt(P, s.disk[p], s.frames, s.byName[p], i) else s.disk[p][i]
  }

  lemma LogicalIsView(P: nat, s: State, p: Path, i: nat)
    requires BuffersOk(P, s) && p in s.disk && i < |s.disk[p]|
    ensures |Logical(P, s)[p]| == |s.disk[p]| && Logical(P, s)[p][i] == View(P, s, p, i)
  {
  }

  lemma LogicalIs(P: nat, s: State, m: map<Path, seq<Byte>>)
    requires BuffersOk(P, s) && m.Keys == s.disk.Keys
    requires forall p :: p in s.disk ==> |m[p]| == |s.disk[p]|
    requires forall p, i :: p in s.disk && 0 <= i < |s.disk[p]| ==> View(P, s, p, i) == m[p][i]
    ensures Logical(P, s) == m
  {
    forall p | p in s.disk
      ensures Logical(P, s)[p] == m[p]
    {
      assert |Logical(P, s)[p]| == |m[p]|;
      forall i | 0 <= i < |s.disk[p]|
        ensures Logical(P, s)[p][i] == m[p][i]
      {
        assert View(P, s, p, i) == m[p][i];
        LogicalIsView(P, s, p, i);
      }
    }
  }

  lemma SameLogical(P: nat, s: State, t: State)
    requires BuffersOk(P, s) && BuffersOk(P, t)
    requires s.disk.Keys == t.disk.Keys
    requires forall p :: p in s.disk ==> |s.disk[p]| == |t.disk[p]|
    requires forall p, i :: p in s.disk && 0 <= i < |s.disk[p]| ==> View(P, s, p, i) == View(P, t, p, i)
    ensures Logical(P, s) == Logical(P, t)
  {
    var m := Logical(P, s);
    forall p | p in s.disk ensures |m[p]| == |t.disk[p]| {
      assert |m[p]| == |s.disk[p]|;
    }
    forall p, i | p in s.disk && 0 <= i < |s.disk[p]|
      ensures View(P, t, p, i) == m[p][i]
    {
      assert View(P, s, p, i) == View(P, t, p, i);
      LogicalIsView(P, s, p, i);
    }
    LogicalIs(P, t, m);
  }

  lemma SamePages(s: State, t: State)
    requires PagesOk(s) && t.files.Keys == s.files.Keys && t.frames.Keys == s.frames.Keys
    requires forall f :: f in s.files ==> t.files[f].pages == s.files[f].pages
    ensures PagesOk(t)
  {
    assert forall f :: FramesOf(t.frames, f) == FramesOf(s.frames, f);
  }

  lemma SameInputs(P: nat, s: State, t: State)
    requires BuffersOk(P, s) && s.disk == t.disk && s.byName == t.byName && s.frames == t.frames
    ensures Logical(P, s) == Logical(P, t)
  {
  }

  /** A frame's byte `i` of its file: the frame shows the file, and a clean one shows the disk. */
  lemma FrameShows(P: nat, content: seq<Byte>, page: nat, frame: Frame, i: nat)
    requires P > 0 && FrameOk(P, content, page, frame) && i < |content| && PageNo(P, i) == page
    ensures Skip(P, i) < frame.dataSize
    ensures !frame.dirty ==> frame.buffer[Skip(P, i)] == content[i]
  {
    PageOf(P, i);
    if !frame.dirty {
      assert frame.buffer[..frame.dataSize][Skip(P, i)] ==
        content[Start(P, page)..Start(P, page) + frame.dataSize][Skip(P, i)];
    }
  }

  /** Positions of different pages differ. */
  lemma PagesApart(P: nat, page: nat, other: nat, i: nat)
    requires page != other && Start(P, other) <= i < Start(P, other) + P
    ensures !(Start(P, page) <= i < Start(P, page) + P)
  {
    if page < other {
      PageStarts(P, page, other);
    } else {
      PageStarts(P, other, page);
    }
  }

  // ---------------------------------------------------------------------------
  // Write-back

  lemma SpliceElsewhere(content: seq<Byte>, at: nat, data: seq<Byte>, b: nat, n: nat)
    requires at + |data| <= |content| && b + n <= |content|
    requires at + |data| <= b || b + n <= at
    ensures Splice(content, at, data)[b..b + n] == content[b..b + n]
  {
  }

  lemma SpliceKeepsFrameAt(P: nat, content: seq<Byte>, a: nat, data: seq<Byte>, b: nat, k: Frame)
    requires a + |data| <= |content| && FrameOkAt(P, content, b, k)
    requires a + |data| <= b || b + P <= a
    ensures FrameOkAt(P, Splice(content, a, data), b, k)
  {
    SpliceElsewhere(content, a, data, b, k.dataSize);
  }

  /** Writing one page back leaves the frames of the other pages as they are. */
  lemma SpliceKeepsFrame(P: nat, content: seq<Byte>, page: nat, data: seq<Byte>, other: nat, k: Frame)
    requires page != other && |data| <= P && Start(P, page) + |data| <= |content|
    requires FrameOk(P, content, other, k)
    ensures FrameOk(P, Splice(content, Start(P, page), data), other, k)
  {
    if page < other {
      PageStarts(P, page, other);
    } else {
      PageStarts(P, other, page);
    }
    SpliceKeepsFrameAt(P, content, Start(P, page), data, Start(P, other), k);
  }

  lemma SpliceCleansFrame(P: nat, content: seq<Byte>, page: nat, frame: Frame)
    requires P > 0 && FrameOk(P, content, page, frame)
    ensures FrameOk(P, Splice(content, Start(P, page), frame.buffer[..frame.dataSize]), page, frame.(dirty := false))
  {
    var r := Splice(content, Start(P, page), frame.buffer[..frame.dataSize]);
    assert |r| == |content|;
    assert r[Start(P, page)..Start(P, page) + frame.dataSize] == frame.buffer[..frame.dataSize];
  }

  lemma FlushKeepsInv(P: nat, s: State, id: FrameId)
    requires Inv(P, s) && id in s.frames
    ensures Inv(P, FlushFrame(P, s, id))
    ensures !FlushFrame(P, s, id).frames[id].dirty
  {
    var t := FlushFrame(P, s, id);
    if s.frames[id].dirty {
      assert t.frames.Keys == s.frames.Keys;
      assert PagesOk(t) by {
        assert forall f :: FramesOf(t.frames, f) == FramesOf(s.frames, f);
      }
      FlushKeepsFrames(P, s, id);
    }
  }

  lemma FlushKeepsFrames(P: nat, s: State, id: FrameId)
    requires P > 0 && FilesOk(s) && FramesOk(P, s) && id in s.frames && s.frames[id].dirty
    requires IdsOk(s)
    ensures FilesOk(FlushFrame(P, s, id)) && FramesOk(P, FlushFrame(P, s, id))
  {
    var t := FlushFrame(P, s, id);
    var path := s.files[id.file].path;
    assert FilesOk(t);
    forall k | k in t.frames
      ensures k.file in t.files && FrameOk(P, t.disk[t.files[k.file].path], k.page, t.frames[k])
    {
      if k == id {
        SpliceCleansFrame(P, s.disk[path], id.page, s.frames[id]);
      } else if s.files[k.file].path == path {
        assert k.file == id.file && k.page != id.page;
        SpliceKeepsFrame(P, s.disk[path], id.page, s.frames[id].buffer[..s.frames[id].dataSize], k.page, s.frames[k]);
      }
    }
  }

  /** Write-back changes no reader's view of any file. */
  lemma FlushKeepsLogical(P: nat, s: State, id: FrameId)
    requires Inv(P, s) && id in s.frames
    ensures BuffersOk(P, s) && BuffersOk(P, FlushFrame(P, s, id))
    ensures Logical(P, FlushFrame(P, s, id)) == Logical(P, s)
  {
    if s.frames[id].dirty {
      assert FrameOk(P, s.disk[s.files[id.file].path], id.page, s.frames[id]);
      FlushLogical(P, s, id);
    }
  }

  lemma FlushLogical(P: nat, s: State, id: FrameId)
    requires BuffersOk(P, s) && IdsOk(s) && id in s.frames && id.file in s.files && s.files[id.file].path in s.disk
    requires FrameOk(P, s.disk[s.files[id.file].path], id.page, s.frames[id])
    ensures BuffersOk(P, FlushFrame(P, s, id))
    ensures Logical(P, FlushFrame(P, s, id)) == Logical(P, s)
  {
    var t := FlushFrame(P, s, id);
    assert BuffersOk(P, t);
    forall p, i | p in s.disk && 0 <= i < |s.disk[p]|
      ensures View(P, s, p, i) == View(P, t, p, i)
    {
      FlushView(P, s, id, p, i);
    }
    SameLogical(P, s, t);
  }

  lemma FlushView(P: nat, s: State, id: FrameId, p: Path, i: nat)
    requires BuffersOk(P, s) && IdsOk(s) && id in s.frames && id.file in s.files && s.files[id.file].path in s.disk
    requires FrameOk(P, s.disk[s.files[id.file].path], id.page, s.frames[id])
    requires p in s.disk && i < |s.disk[p]|
    ensures BuffersOk(P, FlushFrame(P, s, id)) && p in FlushFrame(P, s, id).disk
    ensures |FlushFrame(P, s, id).disk[p]| == |s.disk[p]|
    ensures View(P, s, p, i) == View(P, FlushFrame(P, s, id), p, i)
  {
    if p == s.files[id.file].path && PageNo(P, i) != id.page {
      PageOf(P, i);
      PagesApart(P, id.page, PageNo(P, i), i);
    }
  }

  // ---------------------------------------------------------------------------
  // Dropping a frame

  lemma DropKeepsInv(P: nat, s: State, id: FrameId)
    requires Inv(P, s) && id in s.frames
    ensures Inv(P, DropFrame(s, id))
  {
    var t := DropFrame(s, id);
    assert IdsOk(t) by { assert t.files.Keys == s.files.Keys; }
    assert FilesOk(t) && FramesOk(P, t);
    DropKeepsPages(s, id);
    DropKeepsQueues(s, id);
  }

  lemma DropKeepsPages(s: State, id: FrameId)
    requires PagesOk(s) && id in s.frames && id.file in s.files
    ensures PagesOk(DropFrame(s, id))
  {
    var t := DropFrame(s, id);
    forall f | f in t.files
      ensures multiset(t.files[f].pages) == multiset(FramesOf(t.frames, f))
    {
      if f == id.file {
        RemoveOne(s.files[f].pages, id);
      }
      FramesLeft(s.frames, id, f);
    }
  }

  lemma FramesLeft(frames: map<FrameId, Frame>, id: FrameId, f: FileId)
    requires id in frames
    ensures FramesOf(frames - {id}, f) == if f == id.file then FramesOf(frames, f) - {id} else FramesOf(frames, f)
    ensures f == id.file ==> multiset(FramesOf(frames - {id}, f)) == multiset(FramesOf(frames, f)) - multiset{id}
  {
    var left := FramesOf(frames - {id}, f);
    if f == id.file {
      assert left == FramesOf(frames, f) - {id};
    } else {
      assert left == FramesOf(frames, f);
    }
  }

  lemma DropKeepsQueues(s: State, id: FrameId)
    requires QueuesOk(s) && id in s.frames && id.file in s.files
    ensures QueuesOk(DropFrame(s, id))
  {
    RemoveOne(s.fifo, id);
    RemoveOne(s.lru, id);
    assert DropFrame(s, id).frames.Keys == s.frames.Keys - {id};
    DeleteFromEither(multiset(s.fifo), multiset(s.lru), s.frames.Keys, id);
  }

  lemma DeleteFromEither<T>(a: multiset<T>, b: multiset<T>, keys: set<T>, x: T)
    requires a + b == multiset(keys) && x in keys
    ensures (a - multiset{x}) + (b - multiset{x}) == multiset(keys - {x})
  {
    assert (a + b)[x] == 1;
    SetDelete(keys, x);
  }

  /** A clean frame can go: the disk shows the same bytes. */
  lemma DropKeepsLogical(P: nat, s: State, id: FrameId)
    requires Inv(P, s) && id in s.frames && !s.frames[id].dirty
    ensures BuffersOk(P, s) && BuffersOk(P, DropFrame(s, id))
    ensures Logical(P, DropFrame(s, id)) == Logical(P, s)
  {
    var t := DropFrame(s, id);
    forall p, i | p in s.disk && 0 <= i < |s.disk[p]|
      ensures View(P, s, p, i) == View(P, t, p, i)
    {
      if p in s.byName && FrameId(s.byName[p], PageNo(P, i)) == id {
        FrameShows(P, s.disk[p], id.page, s.frames[id], i);
      }
    }
    SameLogical(P, s, t);
  }

  // ---------------------------------------------------------------------------
  // Fixing and unfixing

  ghost predicate SameButUsers(s: State, t: State) {
    && t.frames.Keys == s.frames.Keys
    && t == s.(frames := t.frames, fifo := t.fifo, lru := t.lru)
    && forall k :: k in s.frames ==> s.frames[k] == t.frames[k].(users := s.frames[k].users)
  }

  lemma UsersDoNotMatter(P: nat, s: State, t: State)
    requires Inv(P, s) && SameButUsers(s, t) && QueuesOk(t)
    ensures Inv(P, t) && BuffersOk(P, s) && Logical(P, t) == Logical(P, s)
  {
    assert IdsOk(t);
    assert FilesOk(t) && FramesOk(P, t);
    assert PagesOk(t) by { assert forall f :: FramesOf(t.frames, f) == FramesOf(s.frames, f); }
    assert BuffersOk(P, s) && BuffersOk(P, t);
    SameLogical(P, s, t);
  }

  lemma TouchKeepsQueues(s: State, id: FrameId)
    requires QueuesOk(s) && id in s.frames
    ensures QueuesOk(Touch(s, id))
  {
    var t := Touch(s, id);
    RemoveOne(s.fifo, id);
    RemoveOne(s.lru, id);
    assert t.frames.Keys == s.frames.Keys;
    assert (multiset(s.fifo) + multiset(s.lru))[id] == 1;
    if id in s.lru {
      assert multiset(t.lru) == multiset(Remove(s.lru, id)) + multiset{id} == multiset(s.lru);
    } else {
      assert multiset(t.lru) == multiset(s.lru) + multiset{id};
      assert multiset(t.fifo) == multiset(s.fifo) - multiset{id};
    }
  }

  lemma TouchKeeps(P: nat, s: State, id: FrameId)
    requires Inv(P, s) && id in s.frames
    ensures Inv(P, Touch(s, id)) && BuffersOk(P, s) && Logical(P, Touch(s, id)) == Logical(P, s)
  {
    TouchKeepsQueues(s, id);
    UsersDoNotMatter(P, s, Touch(s, id));
  }

  lemma UnfixKeeps(P: nat, s: State, id: FrameId)
    requires Inv(P, s) && id in s.frames && s.frames[id].users > 0
    ensures Inv(P, Unfix(s, id)) && BuffersOk(P, s) && Logical(P, Unfix(s, id)) == Logical(P, s)
  {
    UsersDoNotMatter(P, s, Unfix(s, id));
  }

  // ---------------------------------------------------------------------------
  // Loading a page

  lemma LoadedFrameOk(P: nat, content: seq<Byte>, page: nat, buffer: seq<Byte>)
    requires page < MAX_PAGES && Start(P, page) <= |content| && |buffer| == P
    ensures FrameOk(P, content, page, LoadedFrame(P, content, |content|, page, buffer))
  {
    var n := PageBytes(P, |content|, page);
    var data := Stored(content, Start(P, page), n);
    assert data == content[Start(P, page)..Start(P, page) + n];
    assert Splice(buffer, 0, data)[..n] == data;
  }

  lemma LoadKeepsFrames(P: nat, s: State, f: FileId, page: nat, buffer: seq<Byte>)
    requires FilesOk(s) && FramesOk(P, s)
    requires page < MAX_PAGES && f in s.files && Start(P, page) <= s.files[f].size && |buffer| == P
    ensures var t := Load(P, s, f, page, buffer);
      && FilesOk(t) && FramesOk(P, t) && FrameId(f, page) in t.frames && !t.frames[FrameId(f, page)].dirty
  {
    LoadedFrameOk(P, s.disk[s.files[f].path], page, buffer);
    LoadIsInsert(P, s, f, page, buffer);
    InsertKeepsFrames(P, s, Load(P, s, f, page, buffer), FrameId(f, page));
  }

  lemma LoadIsInsert(P: nat, s: State, f: FileId, page: nat, buffer: seq<Byte>)
    requires CanLoad(s, f)
    ensures var t, id := Load(P, s, f, page, buffer), FrameId(f, page);
      && t.disk == s.disk && t.files.Keys == s.files.Keys
      && (forall g :: g in s.files ==> t.files[g].path == s.files[g].path && t.files[g].size == s.files[g].size)
      && id in t.frames && t.frames == s.frames[id := t.frames[id]]
      && t.frames[id] == LoadedFrame(P, s.disk[s.files[f].path], s.files[f].size, page, buffer)
  {
  }

  lemma InsertKeepsFrames(P: nat, s: State, t: State, id: FrameId)
    requires FilesOk(s) && FramesOk(P, s) && FilesOk(t) && t.disk == s.disk && t.files.Keys == s.files.Keys
    requires forall f :: f in s.files ==> t.files[f].path == s.files[f].path
    requires id in t.frames && id.file in s.files && t.frames == s.frames[id := t.frames[id]]
    requires FrameOk(P, s.disk[s.files[id.file].path], id.page, t.frames[id])
    ensures FramesOk(P, t)
  {
  }

  lemma LoadKeepsInv(P: nat, s: State, f: FileId, page: nat, buffer: seq<Byte>)
    requires Inv(P, s) && page < MAX_PAGES && f in s.files && Start(P, page) <= s.files[f].size && |buffer| == P
    requires FrameId(f, page) !in s.frames
    ensures Inv(P, Load(P, s, f, page, buffer))
    ensures FrameId(f, page) in Load(P, s, f, page, buffer).frames
    ensures !Load(P, s, f, page, buffer).frames[FrameId(f, page)].dirty
  {
    LoadKeepsFrames(P, s, f, page, buffer);
    LoadKeepsLists(P, s, f, page, buffer);
    LoadKeepsIds(P, s, f, page, buffer);
  }

  lemma LoadKeepsIds(P: nat, s: State, f: FileId, page: nat, buffer: seq<Byte>)
    requires IdsOk(s)
    ensures IdsOk(Load(P, s, f, page, buffer))
  {
    assert Load(P, s, f, page, buffer).files.Keys == s.files.Keys;
  }

  lemma LoadKeepsLists(P: nat, s: State, f: FileId, page: nat, buffer: seq<Byte>)
    requires FilesOk(s) && PagesOk(s) && QueuesOk(s)
    requires f in s.files && Start(P, page) <= s.files[f].size && |buffer| == P
    requires FrameId(f, page) !in s.frames
    ensures PagesOk(Load(P, s, f, page, buffer)) && QueuesOk(Load(P, s, f, page, buffer))
  {
    var t := Load(P, s, f, page, buffer);
    var id := FrameId(f, page);
    assert t.frames.Keys == s.frames.Keys + {id};
    assert QueuesOk(t) by {
      SetInsert(s.frames.Keys, id);
      assert multiset(t.fifo) == multiset(s.fifo) + multiset{id};
    }
    LoadKeepsPages(s.files, s.frames, t.files, t.frames, id);
  }

  lemma LoadKeepsPages(files: map<FileId, BufferedFile>, frames: map<FrameId, Frame>,
                       files': map<FileId, BufferedFile>, frames': map<FrameId, Frame>, id: FrameId)
    requires forall g :: g in files ==> multiset(files[g].pages) == multiset(FramesOf(frames, g))
    requires id !in frames && frames'.Keys == frames.Keys + {id} && id.file in files
    requires files' == files[id.file := files[id.file].(pages := [id] + files[id.file].pages)]
    ensures forall g :: g in files' ==> multiset(files'[g].pages) == multiset(FramesOf(frames', g))
  {
    forall g | g in files'
      ensures multiset(files'[g].pages) == multiset(FramesOf(frames', g))
    {
      FramesOfInsert(frames, frames', id, g);
      if g == id.file {
        ConsMultiset(id, files[g].pages);
      }
    }
  }

  lemma ConsMultiset<T>(x: T, q: seq<T>)
    ensures multiset([x] + q) == multiset(q) + multiset{x}
  {
  }

  lemma FramesOfInsert(frames: map<FrameId, Frame>, frames': map<FrameId, Frame>, id: FrameId, g: FileId)
    requires id !in frames && frames'.Keys == frames.Keys + {id}
    ensures multiset(FramesOf(frames', g)) ==
      multiset(FramesOf(frames, g)) + (if g == id.file then multiset{id} else multiset{})
  {
    if g == id.file {
      assert FramesOf(frames', g) == FramesOf(frames, g) + {id};
      SetInsert(FramesOf(frames, g), id);
    } else {
      assert FramesOf(frames', g) == FramesOf(frames, g);
    }
  }

  lemma LoadKeepsLogical(P: nat, s: State, f: FileId, page: nat, buffer: seq<Byte>)
    requires Inv(P, s) && page < MAX_PAGES && f in s.files && Start(P, page) <= s.files[f].size && |buffer| == P
    requires FrameId(f, page) !in s.frames
    ensures BuffersOk(P, s) && BuffersOk(P, Load(P, s, f, page, buffer))
    ensures Logical(P, Load(P, s, f, page, buffer)) == Logical(P, s)
  {
    var t := Load(P, s, f, page, buffer);
    LoadKeepsInv(P, s, f, page, buffer);
    CleanInsertKeepsLogical(P, s, t, FrameId(f, page));
  }

  lemma CleanInsertKeepsLogical(P: nat, s: State, t: State, id: FrameId)
    requires BuffersOk(P, s) && BuffersOk(P, t) && s.disk == t.disk && s.byName == t.byName
    requires id !in s.frames && id in t.frames && t.frames == s.frames[id := t.frames[id]]
    requires !t.frames[id].dirty
    requires forall p :: p in s.byName && s.byName[p] == id.file && p in s.disk ==>
      FrameOk(P, s.disk[p], id.page, t.frames[id])
    ensures Logical(P, t) == Logical(P, s)
  {
    forall p, i | p in s.disk && 0 <= i < |s.disk[p]|
      ensures View(P, s, p, i) == View(P, t, p, i)
    {
      if p in s.byName && FrameId(s.byName[p], PageNo(P, i)) == id {
        FrameShows(P, s.disk[p], id.page, t.frames[id], i);
      }
    }
    SameLogical(P, s, t);
  }

  // ---------------------------------------------------------------------------
  // Writing into a fixed page

  /** What a file becomes when `data` is written at `offset` and whatever lies past its end is cut. */
  function WrittenAt(content: seq<Byte>, offset: nat, data: seq<Byte>): (r: seq<Byte>)
    requires offset <= |content|
    ensures |r| == |content|
  {
    Splice(content, offset, data[..Min(|data|, |content| - offset)])
  }

  lemma PokeKeepsInv(P: nat, s: State, id: FrameId, skip: nat, data: seq<Byte>)
    requires Inv(P, s) && id in s.frames && skip + |data| <= P
    ensures BuffersOk(P, s) && Inv(P, Poke(s, id, skip, data))
  {
    var t := Poke(s, id, skip, data);
    assert t.frames.Keys == s.frames.Keys;
    assert IdsOk(t);
    assert FilesOk(t) && FramesOk(P, t);
    assert PagesOk(t) by { assert forall f :: FramesOf(t.frames, f) == FramesOf(s.frames, f); }
  }

  /** The bytes of one file become what `WrittenAt` makes of them; no other file changes. */
  ghost predicate Wrote(P: nat, s: State, t: State, path: Path, offset: nat, data: seq<Byte>) {
    && BuffersOk(P, s) && BuffersOk(P, t) && path in s.disk && offset <= |Logical(P, s)[path]|
    && Logical(P, t) == Logical(P, s)[path := WrittenAt(Logical(P, s)[path], offset, data)]
  }

  /** `Wrote`, closed like `Ok`. */
  ghost predicate DidWrite(P: nat, s: State, t: State, path: Path, offset: nat, data: seq<Byte>) {
    forall k {:trigger Unfold(t, k)} :: Unfold(t, k) ==> Wrote(P, s, t, path, offset, data)
  }

  lemma OpenDidWrite(P: nat, s: State, t: State, path: Path, offset: nat, data: seq<Byte>)
    requires DidWrite(P, s, t, path, offset, data)
    ensures Wrote(P, s, t, path, offset, data)
  {
    assert Unfold(t, 0);
  }

  lemma PokeLogical(P: nat, s: State, t: State, id: FrameId, skip: nat, data: seq<Byte>, path: Path, offset: nat)
    requires IdsOk(s) && FilesOk(s) && BuffersOk(P, s) && BuffersOk(P, t) && id in s.frames && id.file in s.files
    requires skip + |data| <= P && t == Poke(s, id, skip, data) && path == s.files[id.file].path
    requires offset == Start(P, id.page) + skip <= s.files[id.file].size
    ensures DidWrite(P, s, t, path, offset, data)
  {
    forall p, i | p in s.disk && 0 <= i < |s.disk[p]|
      ensures View(P, t, p, i) == WrittenView(P, s, path, offset, data, p, i)
    {
      PokeView(P, s, t, id, skip, data, p, i);
    }
    WrittenLogical(P, s, t, path, offset, data);
  }

  /** What is seen of byte `i` of file `p` once `data` is written into `path` at `offset`. */
  ghost function WrittenView(P: nat, s: State, path: Path, offset: nat, data: seq<Byte>, p: Path, i: nat): Byte
    requires BuffersOk(P, s) && p in s.disk && i < |s.disk[p]|
  {
    if p == path && offset <= i < offset + |data| then data[i - offset] else View(P, s, p, i)
  }

  lemma WrittenLogical(P: nat, s: State, t: State, path: Path, offset: nat, data: seq<Byte>)
    requires BuffersOk(P, s) && BuffersOk(P, t) && t.disk == s.disk && path in s.disk && offset <= |s.disk[path]|
    requires forall p, i :: p in s.disk && 0 <= i < |s.disk[p]| ==>
      View(P, t, p, i) == WrittenView(P, s, path, offset, data, p, i)
    ensures DidWrite(P, s, t, path, offset, data)
  {
    var before := Logical(P, s);
    var written := WrittenAt(before[path], offset, data);
    forall p, i | p in t.disk && 0 <= i < |t.disk[p]|
      ensures View(P, t, p, i) == before[path := written][p][i]
    {
      LogicalIsView(P, s, p, i);
      assert View(P, t, p, i) == WrittenView(P, s, path, offset, data, p, i);
      if p == path {
        WrittenByte(before[path], offset, data, i);
      }
    }
    LogicalIs(P, t, before[path := written]);
  }

  lemma WrittenByte(content: seq<Byte>, offset: nat, data: seq<Byte>, i: nat)
    requires offset <= |content| && i < |content|
    ensures WrittenAt(content, offset, data)[i] ==
      if offset <= i < offset + |data| then data[i - offset] else content[i]
  {
  }

  lemma PokeView(P: nat, s: State, t: State, id: FrameId, skip: nat, data: seq<Byte>, p: Path, i: nat)
    requires IdsOk(s) && BuffersOk(P, s) && BuffersOk(P, t) && id in s.frames && id.file in s.files
    requires skip + |data| <= P && t == Poke(s, id, skip, data)
    requires p in s.disk && i < |s.disk[p]|
    ensures View(P, t, p, i) == WrittenView(P, s, s.files[id.file].path, Start(P, id.page) + skip, data, p, i)
  {
    PageOf(P, i);
    if p == s.files[id.file].path {
      if PageNo(P, i) == id.page {
        assert Skip(P, i) == i - Start(P, id.page);
      } else {
        PagesApart(P, id.page, PageNo(P, i), i);
      }
    }
  }

  // ---------------------------------------------------------------------------
  // Appending

  lemma AppendKeepsFrame(P: nat, content: seq<Byte>, data: seq<Byte>, page: nat, k: Frame)
    requires P > 0 && FrameOk(P, content, page, k) && page < PageNo(P, |content|)
    ensures FrameOk(P, content + data, page, k)
  {
    PageOf(P, |content|);
    PageStarts(P, page, PageNo(P, |content|));
    assert k.dataSize == P;
    assert (content + data)[Start(P, page)..Start(P, page) + P] == content[Start(P, page)..Start(P, page) + P];
  }

  lemma AppendExtendsFrame(P: nat, content: seq<Byte>, data: seq<Byte>, start: nat, k: Frame, at: nat, here: nat)
    requires FrameOkAt(P, content, start, k)
    requires |content| == start + at && at < P && here == Min(P - at, |data|)
    ensures FrameOkAt(P, content + data, start, k.(buffer := Splice(k.buffer, at, data[..here]), dataSize := at + here))
  {
    assert k.dataSize == at;
    if !k.dirty {
      assert Splice(k.buffer, at, data[..here])[..at + here] == k.buffer[..at] + data[..here];
      assert (content + data)[start..start + at + here] == content[start..start + at] + data[..here];
    }
  }

  lemma NoPageBeyond(P: nat, size: nat, page: nat)
    requires P > 0 && Start(P, page) <= size
    ensures page <= PageNo(P, size)
  {
    PageOf(P, size);
    if page > PageNo(P, size) {
      PageStarts(P, PageNo(P, size), page);
    }
  }

  lemma AppendKeepsFrames(P: nat, s: State, f: FileId, data: seq<Byte>)
    requires Inv(P, s) && f in s.files && PageNo(P, s.files[f].size) < MAX_PAGES
    ensures BuffersOk(P, s)
    ensures FilesOk(Append(P, s, f, data)) && FramesOk(P, Append(P, s, f, data))
  {
    var t := Append(P, s, f, data);
    assert FilesOk(t);
    forall k | k in t.frames
      ensures k.file in t.files && FrameOk(P, t.disk[t.files[k.file].path], k.page, t.frames[k])
    {
      assert FrameOk(P, s.disk[s.files[k.file].path], k.page, s.frames[k]);
      if k.file == f {
        AppendKeepsFrameOf(P, s.disk[s.files[f].path], data, k.page, s.frames[k]);
      }
    }
  }

  lemma AppendKeepsFrameOf(P: nat, content: seq<Byte>, data: seq<Byte>, page: nat, k: Frame)
    requires P > 0 && FrameOk(P, content, page, k)
    ensures FrameOk(P, content + data, page, if page == PageNo(P, |content|) then Extend(P, |content|, data, k) else k)
  {
    PageOf(P, |content|);
    NoPageBeyond(P, |content|, page);
    if page < PageNo(P, |content|) {
      AppendKeepsFrame(P, content, data, page, k);
    } else {
      var at := Skip(P, |content|);
      AppendExtendsFrame(P, content, data, Start(P, page), k, at, Min(P - at, |data|));
    }
  }

  lemma AppendKeepsDirectory(P: nat, s: State, f: FileId, data: seq<Byte>)
    requires P > 0 && IdsOk(s) && FilesOk(s) && PagesOk(s) && QueuesOk(s) && BuffersOk(P, s) && f in s.files
    ensures var t := Append(P, s, f, data); IdsOk(t) && PagesOk(t) && QueuesOk(t)
  {
    var t := Append(P, s, f, data);
    assert t.files.Keys == s.files.Keys && t.frames.Keys == s.frames.Keys;
    SamePages(s, t);
  }

  lemma AppendKeepsInv(P: nat, s: State, f: FileId, data: seq<Byte>)
    requires Inv(P, s) && f in s.files && PageNo(P, s.files[f].size) < MAX_PAGES
    ensures BuffersOk(P, s) && Inv(P, Append(P, s, f, data))
  {
    AppendKeepsFrames(P, s, f, data);
    AppendKeepsDirectory(P, s, f, data);
  }

  lemma AppendView(P: nat, s: State, t: State, f: FileId, data: seq<Byte>, p: Path, i: nat)
    requires IdsOk(s) && FilesOk(s) && BuffersOk(P, s) && BuffersOk(P, t)
    requires f in s.files && t == Append(P, s, f, data)
    requires forall id :: id in s.frames && id.file == f ==> Start(P, id.page) <= s.files[f].size
    requires p in t.disk && i < |t.disk[p]|
    ensures View(P, t, p, i) == if i < |s.disk[p]| then View(P, s, p, i) else data[i - |s.disk[p]|]
  {
    if p == s.files[f].path && FrameId(f, PageNo(P, i)) in s.frames {
      var size := s.files[f].size;
      var page := PageNo(P, size);
      NoPageBeyond(P, size, PageNo(P, i));
      PageOf(P, size);
      if i >= size {
        NoPageBeyond(P, i, page);
      }
      if PageNo(P, i) == page {
        PageOf(P, i);
        assert Skip(P, i) == i - Start(P, page);
      }
    }
  }

  lemma AppendLogical(P: nat, s: State, t: State, f: FileId, data: seq<Byte>)
    requires IdsOk(s) && FilesOk(s) && BuffersOk(P, s) && BuffersOk(P, t)
    requires f in s.files && t == Append(P, s, f, data)
    requires forall id :: id in s.frames && id.file == f ==> Start(P, id.page) <= s.files[f].size
    ensures var path := s.files[f].path;
      Logical(P, t) == Logical(P, s)[path := Logical(P, s)[path] + data]
  {
    var path := s.files[f].path;
    var m := Logical(P, s)[path := Logical(P, s)[path] + data];
    forall p, i | p in t.disk && 0 <= i < |t.disk[p]|
      ensures View(P, t, p, i) == m[p][i]
    {
      AppendView(P, s, t, f, data, p, i);
      if i < |s.disk[p]| { LogicalIsView(P, s, p, i); }
    }
    LogicalIs(P, t, m);
  }

  /** An append extends the file it goes to, for its readers too, and no other. */
  lemma AppendAppends(P: nat, s: State, f: FileId, data: seq<Byte>)
    requires Inv(P, s) && f in s.files && PageNo(P, s.files[f].size) < MAX_PAGES
    ensures BuffersOk(P, s) && BuffersOk(P, Append(P, s, f, data))
    ensures var path := s.files[f].path;
      Logical(P, Append(P, s, f, data)) == Logical(P, s)[path := Logical(P, s)[path] + data]
  {
    AppendKeepsInv(P, s, f, data);
    AppendLogical(P, s, Append(P, s, f, data), f, data);
  }
}
