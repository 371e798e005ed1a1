/** The state of the page buffer as a value, and what each operation makes of it.

    `State` holds the directory of the buffer manager of `lib/src/io/file_page_buffer.cc` (files,
    file ids, resident frames, FIFO and LRU queues) together with the file system below it.  The
    class in `page_buffer.dfy` updates the same fields in place and is proved against the functions
    of this module; the lemmas here and in `page_laws.dfy` say what those functions keep.
  */
module PageState {
  import opened Wrappers

  type Byte = bv8
  type Path = string
  type FileId = nat

  /** The directory is keyed by the 64-bit word `BuildFrameID`; the model keeps its two halves apart,
      which `FrameIDRoundTrip` and `FrameIDsAreUnique` justify for the ids the source asserts. */
  datatype FrameId = FrameId(file: FileId, page: nat)

  /** 48 bits of a frame id number the page, the 16 bits above them the file. */
  const MAX_PAGES: nat := 0x1_0000_0000_0000
  /** `std::numeric_limits<uint16_t>::max()`: no further file id is allocated at this count. */
  const MAX_FILES: nat := 65535

  /** The key of a frame: the page in the 48 low bits (`page & ((1 << 48) - 1)`), the file above. */
  function BuildFrameID(id: FrameId): nat { id.page % MAX_PAGES + id.file * MAX_PAGES }

  function GetFileID(key: nat): FileId { key / MAX_PAGES }

  function GetPageID(key: nat): nat { key % MAX_PAGES }

  /** Both halves come back exactly when the page number passes the assertion of `BuildFrameID`. */
  lemma FrameIDRoundTrip(id: FrameId)
    ensures GetFileID(BuildFrameID(id)) == id.file
    ensures GetPageID(BuildFrameID(id)) == id.page <==> id.page < MAX_PAGES
    ensures id.file <= MAX_FILES ==> BuildFrameID(id) < 0x1_0000_0000_0000_0000
  {
    assert BuildFrameID(id) / MAX_PAGES == id.file;
  }

  lemma FrameIDsAreUnique(a: FrameId, b: FrameId)
    requires a.page < MAX_PAGES && b.page < MAX_PAGES && BuildFrameID(a) == BuildFrameID(b)
    ensures a == b
  {
    FrameIDRoundTrip(a);
    FrameIDRoundTrip(b);
  }

  function Min(a: int, b: int): int { if a < b then a else b }

  // ---------------------------------------------------------------------------
  // Entities

  datatype Flags = Flags(read: bool, write: bool, append: bool, writeLock: bool, create: bool, createNew: bool)

  /** `users` counts the file references, `pages` is the list of the file's resident frames. */
  datatype BufferedFile = BufferedFile(path: Path, flags: Flags, size: nat, users: nat, pages: seq<FrameId>)

  /** `buffer` is one page long, its first `dataSize` bytes are file data. */
  datatype Frame = Frame(buffer: seq<Byte>, dataSize: nat, users: nat, dirty: bool)

  datatype State = State(
    disk: map<Path, seq<Byte>>,
    files: map<FileId, BufferedFile>,
    byName: map<Path, FileId>,
    freeIds: seq<FileId>,
    nextId: nat,
    frames: map<FrameId, Frame>,
    fifo: seq<FrameId>,
    lru: seq<FrameId>,
    freeBuffers: seq<seq<Byte>>)

  // ---------------------------------------------------------------------------
  // Sequences

  /** Unlinks the first occurrence of `x`. */
  function Remove<T(==)>(q: seq<T>, x: T): (r: seq<T>) {
    if q == [] then [] else if q[0] == x then q[1..] else [q[0]] + Remove(q[1..], x)
  }

  lemma {:induction false} RemoveOne<T>(q: seq<T>, x: T)
    ensures multiset(Remove(q, x)) == multiset(q) - multiset{x}
    ensures x !in q ==> Remove(q, x) == q
  {
    if q != [] {
      assert q == [q[0]] + q[1..];
      RemoveOne(q[1..], x);
    }
  }

  lemma {:induction false} RemoveMembers<T>(q: seq<T>, x: T)
    ensures forall y :: y in Remove(q, x) ==> y in q
  {
    if q != [] && q[0] != x {
      RemoveMembers(q[1..], x);
    }
  }

  // ---------------------------------------------------------------------------
  // Positional writes of the file system

  /** The file after writing `data` at `offset`. */
  function Splice(content: seq<Byte>, offset: nat, data: seq<Byte>): (r: seq<Byte>)
    requires offset <= |content|
    ensures |r| == if offset + |data| <= |content| then |content| else offset + |data|
    ensures forall i :: 0 <= i < |r| ==>
      r[i] == if offset <= i < offset + |data| then data[i - offset] else content[i]
  {
    content[..offset] + data + (if offset + |data| <= |content| then content[offset + |data|..] else [])
  }

  // ---------------------------------------------------------------------------
  // Pages

  /** Where a page begins: `page << page_size_bits`. */
  function Start(P: nat, page: nat): (at: nat) {
    if page == 0 then 0 else Start(P, page - 1) + P
  }

  /** The page of a position: `offset >> page_size_bits`. */
  function PageNo(P: nat, offset: nat): (page: nat)
    requires P > 0
  {
    if offset < P then 0 else PageNo(P, offset - P) + 1
  }

  /** The position within its page: `offset - (page << page_size_bits)`. */
  function Skip(P: nat, offset: nat): (skip: nat)
    requires P > 0
    ensures skip < P
  {
    if offset < P then offset else Skip(P, offset - P)
  }

  /** The recursive definitions are product, quotient and remainder. */
  lemma PagesAreShifts(P: nat, page: nat, offset: nat)
    requires P > 0
    ensures Start(P, page) == page * P
    ensures PageNo(P, offset) == offset / P && Skip(P, offset) == offset % P
  {
    StartIsProduct(P, page);
    var q, r := Whole(P, offset);
    StartIsProduct(P, q);
    DivMod(P, q, r);
  }

  lemma Whole(P: nat, x: nat) returns (q: nat, r: nat)
    requires P > 0
    ensures q == x / P && r == x % P && q * P + r == x && r < P
  {
    q, r := x / P, x % P;
  }

  lemma {:induction false} StartIsProduct(P: nat, page: nat)
    ensures Start(P, page) == page * P
  {
    if page > 0 {
      StartIsProduct(P, page - 1);
      assert page * P == (page - 1) * P + P;
    }
  }

  /** A position is its page's start and its place in the page. */
  lemma {:induction false} PageOf(P: nat, i: nat)
    requires P > 0
    ensures Start(P, PageNo(P, i)) + Skip(P, i) == i
  {
    if i >= P {
      PageOf(P, i - P);
    }
  }

  lemma {:induction false} PageStarts(P: nat, page: nat, other: nat)
    requires page < other
    ensures Start(P, page) + P <= Start(P, other)
  {
    if page + 1 < other {
      PageStarts(P, page, other - 1);
    }
  }

  /** A position lies in the only page that spans it. */
  lemma DivMod(P: nat, page: nat, o: nat)
    requires o < P
    ensures PageNo(P, Start(P, page) + o) == page && Skip(P, Start(P, page) + o) == o
  {
    var i := Start(P, page) + o;
    PageOf(P, i);
    if PageNo(P, i) < page {
      PageStarts(P, PageNo(P, i), page);
    } else if page < PageNo(P, i) {
      PageStarts(P, page, PageNo(P, i));
    }
  }

  /** Bytes of the page that lie in a file of `size` bytes. */
  function PageBytes(P: nat, size: nat, page: nat): (n: nat)
    requires Start(P, page) <= size
    ensures n <= P && Start(P, page) + n <= size
  {
    Min(P, size - Start(P, page))
  }

  function Lookup(frames: map<FrameId, Frame>, f: FileId, page: nat): (r: Option<Frame>)
  {
    if FrameId(f, page) in frames then Some(frames[FrameId(f, page)]) else None
  }

  /** The byte a reader of file `f` sees at `i`: the resident frame wins over the disk. */
  ghost function ByteAt(P: nat, base: seq<Byte>, frames: map<FrameId, Frame>, f: FileId, i: nat): Byte
    requires P > 0 && i < |base|
    requires forall id :: id in frames ==> |frames[id].buffer| == P
  {
    match Lookup(frames, f, PageNo(P, i))
    case Some(frame) => frame.buffer[Skip(P, i)]
    case None => base[i]
  }

  /** The file as its readers see it. */
  ghost function Overlay(P: nat, base: seq<Byte>, frames: map<FrameId, Frame>, f: FileId): (r: seq<Byte>)
    requires P > 0
    requires forall id :: id in frames ==> |frames[id].buffer| == P
    ensures |r| == |base|
    ensures forall i :: 0 <= i < |base| ==> r[i] == ByteAt(P, base, frames, f, i)
  {
    seq(|base|, i requires 0 <= i < |base| => ByteAt(P, base, frames, f, i))
  }

  /** All files as their readers see them: buffered files overlaid with their frames. */
  ghost function Logical(P: nat, s: State): (r: map<Path, seq<Byte>>)
    requires P > 0
    requires forall id :: id in s.frames ==> |s.frames[id].buffer| == P
    ensures r.Keys == s.disk.Keys
  {
    map path | path in s.disk ::
      if path in s.byName then Overlay(P, s.disk[path], s.frames, s.byName[path]) else s.disk[path]
  }

  // ---------------------------------------------------------------------------
  // Invariants of the directory

  ghost function UpTo(n: nat): (r: set<nat>)
    ensures forall i :: i in r <==> 0 <= i < n
  {
    if n == 0 then {} else UpTo(n - 1) + {n - 1}
  }

  ghost function FramesOf(frames: map<FrameId, Frame>, f: FileId): set<FrameId> {
    set id | id in frames && id.file == f
  }

  /** Live files and free ids partition the allocated ids; names and ids map one to one. */
  ghost predicate IdsOk(s: State) {
    && s.nextId <= MAX_FILES
    && multiset(s.files.Keys) + multiset(s.freeIds) == multiset(UpTo(s.nextId))
    && (forall f :: f in s.files ==> s.files[f].path in s.byName && s.byName[s.files[f].path] == f)
    && (forall p :: p in s.byName ==> s.byName[p] in s.files && s.files[s.byName[p]].path == p)
  }

  /** The disk holds every buffered file, at the size the directory knows. */
  ghost predicate FilesOk(s: State) {
    forall f :: f in s.files ==> s.files[f].path in s.disk && |s.disk[s.files[f].path]| == s.files[f].size
  }

  /** A frame that starts at `at` in a file that is `content` on disk: `dataSize` is the frame's
      share of the file, and a clean frame agrees with the disk. */
  ghost predicate FrameOkAt(P: nat, content: seq<Byte>, at: nat, frame: Frame) {
    && at <= |content|
    && |frame.buffer| == P
    && frame.dataSize == Min(P, |content| - at)
    && (!frame.dirty ==> frame.buffer[..frame.dataSize] == content[at..at + frame.dataSize])
  }

  ghost predicate FrameOk(P: nat, content: seq<Byte>, page: nat, frame: Frame) {
    page < MAX_PAGES && FrameOkAt(P, content, Start(P, page), frame)
  }

  ghost predicate FramesOk(P: nat, s: State)
    requires FilesOk(s)
  {
    forall id :: id in s.frames ==>
      id.file in s.files && FrameOk(P, s.disk[s.files[id.file].path], id.page, s.frames[id])
  }

  /** The frame list of a file holds each of its resident frames once. */
  ghost predicate PagesOk(s: State) {
    forall f :: f in s.files ==> multiset(s.files[f].pages) == multiset(FramesOf(s.frames, f))
  }

  /** Every resident frame is in exactly one of the two queues, once. */
  ghost predicate QueuesOk(s: State) {
    multiset(s.fifo) + multiset(s.lru) == multiset(s.frames.Keys)
  }

  ghost predicate Inv(P: nat, s: State) {
    P > 0 && IdsOk(s) && FilesOk(s) && FramesOk(P, s) && PagesOk(s) && QueuesOk(s)
  }

  // ---------------------------------------------------------------------------
  // Operations

  /** The frame belongs to a live file whose disk copy reaches up to it. */
  predicate CanFlush(P: nat, s: State, id: FrameId) {
    && id in s.frames && id.file in s.files && s.files[id.file].path in s.disk
    && Start(P, id.page) <= |s.disk[s.files[id.file].path]|
    && s.frames[id].dataSize <= |s.frames[id].buffer|
  }

  /** `FlushFrame`: a dirty frame's data bytes go to its place in the file. */
  function FlushFrame(P: nat, s: State, id: FrameId): State {
    if CanFlush(P, s, id) && s.frames[id].dirty then
      var path := s.files[id.file].path;
      var data := s.frames[id].buffer[..s.frames[id].dataSize];
      s.(disk := s.disk[path := Splice(s.disk[path], Start(P, id.page), data)],
         frames := s.frames[id := s.frames[id].(dirty := false)])
    else s
  }

  /** A frame leaves its queue, the directory and its file's list. */
  function DropFrame(s: State, id: FrameId): State {
    if id in s.frames && id.file in s.files then
      var file := s.files[id.file];
      s.(frames := s.frames - {id},
         fifo := Remove(s.fifo, id),
         lru := Remove(s.lru, id),
         files := s.files[id.file := file.(pages := Remove(file.pages, id))])
    else s
  }

  /** The first frame of a queue that nobody uses. */
  function FirstUnpinned(frames: map<FrameId, Frame>, q: seq<FrameId>): (r: Option<FrameId>)
    ensures r.Some? ==> r.value in q && r.value in frames && frames[r.value].users == 0
    ensures r.None? ==> forall id :: id in q && id in frames ==> frames[id].users > 0
  {
    if q == [] then None
    else if q[0] in frames && frames[q[0]].users == 0 then Some(q[0])
    else FirstUnpinned(frames, q[1..])
  }

  /** FIFO first; the LRU queue only if every FIFO frame is in use. */
  function Victim(s: State): (r: Option<FrameId>)
    ensures r.Some? ==> r.value in s.frames && s.frames[r.value].users == 0
  {
    match FirstUnpinned(s.frames, s.fifo)
    case Some(id) => Some(id)
    case None => FirstUnpinned(s.frames, s.lru)
  }

  /** Page size, page capacity, and the bytes a newly allocated buffer happens to hold. */
  datatype Config = Config(P: nat, capacity: nat, blank: seq<Byte>)

  ghost predicate ConfigOk(c: Config) { c.P > 0 && |c.blank| == c.P }

  /** A key to `Ok`: the invariant stays closed in proofs that do not mention it, which keeps the
      proofs about composed operations small. */
  ghost predicate Unfold(s: State, k: int) { true }

  ghost predicate Ok(c: Config, s: State) {
    forall k {:trigger Unfold(s, k)} :: Unfold(s, k) ==>
      ConfigOk(c) && Inv(c.P, s) && forall b :: b in s.freeBuffers ==> |b| == c.P
  }

  lemma OpenOk(c: Config, s: State)
    requires Ok(c, s)
    ensures ConfigOk(c) && Inv(c.P, s) && (forall b :: b in s.freeBuffers ==> |b| == c.P)
  {
    assert Unfold(s, 0);
  }

  lemma OkIs(c: Config, s: State, t: State)
    requires Ok(c, t) && s == t
    ensures Ok(c, s)
  {
  }

  /** Fixing a resident page: one more user, and the frame becomes the last of the LRU queue,
      wherever it was before. */
  function Touch(s: State, id: FrameId): State
    requires id in s.frames
  {
    s.(frames := s.frames[id := s.frames[id].(users := s.frames[id].users + 1)],
       fifo := if id in s.lru then s.fifo else Remove(s.fifo, id),
       lru := (if id in s.lru then Remove(s.lru, id) else s.lru) + [id])
  }

  predicate CanLoad(s: State, f: FileId) { f in s.files && s.files[f].path in s.disk }

  /** `data_size` of a page that is loaded.  For a page beyond the end of the file the difference of the
      unsigned sizes wraps around, and the smaller number is the page size. */
  function DataSize(P: nat, size: nat, page: nat): nat {
    if Start(P, page) <= size then PageBytes(P, size, page) else P
  }

  /** What a file that is `content` on disk has of the `n` bytes from `at` on. */
  function Stored(content: seq<Byte>, at: nat, n: nat): seq<Byte> {
    content[Min(at, |content|)..Min(at + n, |content|)]
  }

  /** A page of a file of `size` bytes in `buffer`.  What the disk does not have of it stays as it was
      in the buffer; `dataSize` goes by the size the directory knows. */
  function LoadedFrame(P: nat, content: seq<Byte>, size: nat, page: nat, buffer: seq<Byte>): Frame {
    var n := DataSize(P, size, page);
    Frame(Splice(buffer, 0, Stored(content, Start(P, page), n)), n, 1, false)
  }

  /** A new frame in `buffer`, loaded from the disk, last of the FIFO queue, with one user. */
  function Load(P: nat, s: State, f: FileId, page: nat, buffer: seq<Byte>): State {
    if CanLoad(s, f) then
      var file := s.files[f];
      var id := FrameId(f, page);
      s.(frames := s.frames[id := LoadedFrame(P, s.disk[file.path], file.size, page, buffer)],
         fifo := s.fifo + [id],
         files := s.files[f := file.(pages := [id] + file.pages)])
    else s
  }

  /** Unfixing a page. */
  function Unfix(s: State, id: FrameId): State
    requires id in s.frames && s.frames[id].users > 0
  {
    s.(frames := s.frames[id := s.frames[id].(users := s.frames[id].users - 1)])
  }

  /** Bytes copied into a fixed page, which is then marked dirty. */
  function Poke(s: State, id: FrameId, skip: nat, data: seq<Byte>): State
    requires id in s.frames && skip + |data| <= |s.frames[id].buffer|
  {
    s.(frames := s.frames[id := s.frames[id].(buffer := Splice(s.frames[id].buffer, skip, data), dirty := true)])
  }

  /** The last page takes its share of the bytes appended to a file of `size` bytes. */
  function Extend(P: nat, size: nat, data: seq<Byte>, frame: Frame): Frame
    requires P > 0 && |frame.buffer| == P
  {
    var at := Skip(P, size);
    var here := Min(P - at, |data|);
    frame.(buffer := Splice(frame.buffer, at, data[..here]), dataSize := at + here)
  }

  /** `Append`: the bytes go straight to the disk; a resident last page is extended in place. */
  function Append(P: nat, s: State, f: FileId, data: seq<Byte>): State
    requires P > 0 && f in s.files && s.files[f].path in s.disk
    requires forall id :: id in s.frames ==> |s.frames[id].buffer| == P
  {
    var file := s.files[f];
    var id := FrameId(f, PageNo(P, file.size));
    s.(disk := s.disk[file.path := s.disk[file.path] + data],
       files := s.files[f := file.(size := file.size + |data|)],
       frames := if id in s.frames then s.frames[id := Extend(P, file.size, data, s.frames[id])] else s.frames)
  }
}
