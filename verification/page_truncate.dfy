/** Truncating a buffered file, and exactly when its readers then see what they should. */
module PageTruncate {
  import opened PageState
  import opened PageLaws
  import opened PagePolicy
  import opened PageFiles

  // ---------------------------------------------------------------------------
  // FileRef::Truncate

  /** A file cut off at `n` bytes, or filled up to them with the bytes that the file system takes. */
  function Resized(content: seq<Byte>, n: nat, fill: seq<Byte>): (r: seq<Byte>)
    ensures n <= |content| + |fill| ==> |r| == n
  {
    (content + fill)[..Min(n, |content| + |fill|)]
  }

  /** `data_size` is what lies between the start of the page and the new end of the file, though that be
      more than a page (line 779). */
  function Remeasured(at: nat, n: nat, frame: Frame): Frame {
    frame.(dataSize := if n > at then n - at else 0)
  }

  function Remeasure(P: nat, f: FileId, n: nat, frames: map<FrameId, Frame>): (r: map<FrameId, Frame>)
    ensures r.Keys == frames.Keys
  {
    map id | id in frames :: if id.file == f then Remeasured(Start(P, id.page), n, frames[id]) else frames[id]
  }

  function ResizedDisk(disk: map<Path, seq<Byte>>, path: Path, size: nat, n: nat, fill: seq<Byte>):
    map<Path, seq<Byte>>
  {
    if size != n && path in disk then disk[path := Resized(disk[path], n, fill)] else disk
  }

  /** `Truncate` of a file that is open for writing. */
  function Truncate(P: nat, s: State, f: FileId, n: nat, fill: seq<Byte>): State
    requires f in s.files
  {
    var file := s.files[f];
    s.(disk := ResizedDisk(s.disk, file.path, file.size, n, fill),
       files := s.files[f := file.(size := n)],
       frames := Remeasure(P, f, n, s.frames))
  }

  // ---------------------------------------------------------------------------
  // When it is right

  /** The frame of the page at `at` spans the new end, and where the file grows its spare bytes are those
      that the file system fills up with. */
  ghost predicate Spans(P: nat, at: nat, size: nat, n: nat, fill: seq<Byte>, frame: Frame) {
    && at <= n <= at + P
    && (at <= size < n <= size + |fill| && n - at <= |frame.buffer| ==>
         frame.buffer[size - at..n - at] == fill[..n - size])
  }

  /** Every resident page of the file spans the new end. */
  ghost predicate AllSpan(P: nat, s: State, f: FileId, n: nat, fill: seq<Byte>)
    requires f in s.files
  {
    forall id :: id in s.frames && id.file == f ==>
      Spans(P, Start(P, id.page), s.files[f].size, n, fill, s.frames[id])
  }

  lemma ByteOfFrame(P: nat, content: seq<Byte>, at: nat, frame: Frame, k: nat)
    requires FrameOkAt(P, content, at, frame) && !frame.dirty && k < P && at + k < |content|
    ensures frame.buffer[k] == content[at + k]
  {
    assert frame.buffer[..frame.dataSize][k] == content[at..at + frame.dataSize][k];
  }

  lemma SpareByte(P: nat, at: nat, size: nat, n: nat, fill: seq<Byte>, frame: Frame, k: nat)
    requires Spans(P, at, size, n, fill, frame) && at <= size < n <= size + |fill| && |frame.buffer| == P
    requires size - at <= k < n - at
    ensures frame.buffer[k] == fill[at + k - size]
  {
    assert frame.buffer[size - at..n - at][k - (size - at)] == fill[..n - size][k - (size - at)];
  }

  lemma FrameStaysOk(P: nat, content: seq<Byte>, at: nat, n: nat, fill: seq<Byte>, frame: Frame)
    requires FrameOkAt(P, content, at, frame) && Spans(P, at, |content|, n, fill, frame) && n <= |content| + |fill|
    ensures FrameOkAt(P, Resized(content, n, fill), at, Remeasured(at, n, frame))
  {
    var after := Resized(content, n, fill);
    if !frame.dirty {
      forall k | 0 <= k < n - at
        ensures frame.buffer[k] == after[at + k]
      {
        if at + k < |content| {
          ByteOfFrame(P, content, at, frame, k);
        } else {
          SpareByte(P, at, |content|, n, fill, frame, k);
        }
      }
      assert frame.buffer[..n - at] == after[at..n];
    }
  }

  lemma ResizedDiskIs(s: State, f: FileId, n: nat, fill: seq<Byte>)
    requires FilesOk(s) && f in s.files && n <= s.files[f].size + |fill|
    ensures var file := s.files[f];
      ResizedDisk(s.disk, file.path, file.size, n, fill) == s.disk[file.path := Resized(s.disk[file.path], n, fill)]
  {
    var content := s.disk[s.files[f].path];
    if s.files[f].size == n {
      assert Resized(content, n, fill) == content;
    }
  }

  lemma TruncateKeepsFrames(P: nat, s: State, f: FileId, n: nat, fill: seq<Byte>)
    requires IdsOk(s) && FilesOk(s) && FramesOk(P, s) && f in s.files && n <= s.files[f].size + |fill|
    requires AllSpan(P, s, f, n, fill)
    ensures FilesOk(Truncate(P, s, f, n, fill)) && FramesOk(P, Truncate(P, s, f, n, fill))
  {
    var t, path := Truncate(P, s, f, n, fill), s.files[f].path;
    ResizedDiskIs(s, f, n, fill);
    assert FilesOk(t);
    forall id | id in t.frames
      ensures id.file in t.files && FrameOk(P, t.disk[t.files[id.file].path], id.page, t.frames[id])
    {
      assert FrameOk(P, s.disk[s.files[id.file].path], id.page, s.frames[id]);
      if id.file == f {
        FrameStaysOk(P, s.disk[path], Start(P, id.page), n, fill, s.frames[id]);
      }
    }
  }

  lemma TruncateKeepsInv(P: nat, s: State, f: FileId, n: nat, fill: seq<Byte>)
    requires Inv(P, s) && f in s.files && n <= s.files[f].size + |fill| && AllSpan(P, s, f, n, fill)
    ensures Inv(P, Truncate(P, s, f, n, fill))
  {
    TruncateKeepsFrames(P, s, f, n, fill);
    TruncateKeepsDirectory(P, s, f, n, fill);
  }

  lemma TruncateKeepsDirectory(P: nat, s: State, f: FileId, n: nat, fill: seq<Byte>)
    requires IdsOk(s) && PagesOk(s) && QueuesOk(s) && f in s.files
    ensures var t := Truncate(P, s, f, n, fill); IdsOk(t) && PagesOk(t) && QueuesOk(t)
  {
    var t := Truncate(P, s, f, n, fill);
    assert t.files.Keys == s.files.Keys && t.frames.Keys == s.frames.Keys;
    SamePages(s, t);
  }

  /** What is seen of byte `i` of file `p` once `path` is resized. */
  ghost function ResizedView(P: nat, s: State, path: Path, size: nat, fill: seq<Byte>, p: Path, i: nat): Byte
    requires BuffersOk(P, s) && p in s.disk && |s.disk[p]| == (if p == path then size else |s.disk[p]|)
    requires i < if p == path then size + |fill| else |s.disk[p]|
  {
    if p == path && i >= size then fill[i - size] else View(P, s, p, i)
  }

  lemma TruncateView(P: nat, s: State, t: State, f: FileId, n: nat, fill: seq<Byte>, p: Path, i: nat)
    requires IdsOk(s) && FilesOk(s) && BuffersOk(P, s) && BuffersOk(P, t) && f in s.files
    requires n <= s.files[f].size + |fill| && t == Truncate(P, s, f, n, fill) && AllSpan(P, s, f, n, fill)
    requires forall id :: id in s.frames && id.file == f ==> Start(P, id.page) <= s.files[f].size
    requires p in t.disk && i < |t.disk[p]| && p in s.disk
    requires i < if p == s.files[f].path then s.files[f].size + |fill| else |s.disk[p]|
    ensures View(P, t, p, i) == ResizedView(P, s, s.files[f].path, s.files[f].size, fill, p, i)
  {
    var path, size := s.files[f].path, s.files[f].size;
    ResizedDiskIs(s, f, n, fill);
    if p == path && i >= size {
      var id := FrameId(f, PageNo(P, i));
      PageOf(P, i);
      if id in s.frames {
        SpareByte(P, Start(P, id.page), size, n, fill, s.frames[id], Skip(P, i));
      }
    }
  }

  lemma TruncateLogical(P: nat, s: State, t: State, f: FileId, n: nat, fill: seq<Byte>)
    requires IdsOk(s) && FilesOk(s) && BuffersOk(P, s) && BuffersOk(P, t) && f in s.files
    requires n <= s.files[f].size + |fill| && t == Truncate(P, s, f, n, fill) && AllSpan(P, s, f, n, fill)
    requires forall id :: id in s.frames && id.file == f ==> Start(P, id.page) <= s.files[f].size
    ensures var path := s.files[f].path;
      path in s.disk && Logical(P, t) == Logical(P, s)[path := Resized(Logical(P, s)[path], n, fill)]
  {
    var path, before := s.files[f].path, Logical(P, s);
    var m := before[path := Resized(before[path], n, fill)];
    ResizedDiskIs(s, f, n, fill);
    assert |before[path]| == |s.disk[path]|;
    forall p, i | p in t.disk && 0 <= i < |t.disk[p]|
      ensures View(P, t, p, i) == m[p][i]
    {
      TruncateView(P, s, t, f, n, fill, p, i);
      if p != path || i < |s.disk[p]| {
        LogicalIsView(P, s, p, i);
      }
    }
    LogicalIs(P, t, m);
  }

  /** The truncation is right: the directory is in order, and the readers see the file resized. */
  ghost predicate Truncated(c: Config, s: State, t: State, path: Path, n: nat, fill: seq<Byte>) {
    && Ok(c, t) && BuffersOk(c.P, s) && BuffersOk(c.P, t) && path in s.disk
    && Logical(c.P, t) == Logical(c.P, s)[path := Resized(Logical(c.P, s)[path], n, fill)]
  }

  lemma FramesStart(P: nat, s: State, f: FileId)
    requires FilesOk(s) && FramesOk(P, s) && f in s.files
    ensures forall id :: id in s.frames && id.file == f ==> Start(P, id.page) <= s.files[f].size
  {
    forall id | id in s.frames && id.file == f
      ensures Start(P, id.page) <= s.files[f].size
    {
      assert FrameOk(P, s.disk[s.files[f].path], id.page, s.frames[id]);
    }
  }

  lemma RightIfSpanned(c: Config, s: State, f: FileId, n: nat, fill: seq<Byte>)
    requires Ok(c, s) && f in s.files && n <= s.files[f].size + |fill| && AllSpan(c.P, s, f, n, fill)
    ensures Truncated(c, s, Truncate(c.P, s, f, n, fill), s.files[f].path, n, fill)
  {
    OpenOk(c, s);
    BuffersAreOk(c, s);
    FramesStart(c.P, s, f);
    TruncateKeepsInv(c.P, s, f, n, fill);
    TruncateLogical(c.P, s, Truncate(c.P, s, f, n, fill), f, n, fill);
  }

  /** The reader's byte `at + k` of the grown file comes from the frame. */
  lemma GrownByte(P: nat, s: State, t: State, id: FrameId, at: nat, k: nat, path: Path, n: nat, fill: seq<Byte>)
    requires BuffersOk(P, s) && BuffersOk(P, t) && id in t.frames && at == Start(P, id.page) && k < P
    requires path in t.disk && path in t.byName && t.byName[path] == id.file && at + k < n == |t.disk[path]|
    requires path in s.disk && |s.disk[path]| <= at + k && n <= |s.disk[path]| + |fill|
    requires Logical(P, t)[path] == Resized(Logical(P, s)[path], n, fill)
    ensures t.frames[id].buffer[k] == fill[at + k - |s.disk[path]|]
  {
    DivMod(P, id.page, k);
    LogicalIsView(P, t, path, at + k);
    assert |Logical(P, s)[path]| == |s.disk[path]|;
  }

  lemma SpansIfRight(c: Config, s: State, f: FileId, n: nat, fill: seq<Byte>, id: FrameId)
    requires Ok(c, s) && f in s.files && n <= s.files[f].size + |fill| && id in s.frames && id.file == f
    requires Truncated(c, s, Truncate(c.P, s, f, n, fill), s.files[f].path, n, fill)
    ensures Spans(c.P, Start(c.P, id.page), s.files[f].size, n, fill, s.frames[id])
  {
    var t, at := Truncate(c.P, s, f, n, fill), Start(c.P, id.page);
    NamesAreLive(c, s);
    TruncateLooks(c.P, s, t, f, n, fill, id, at);
    FrameIsOk(c, t, id);
    FittingFrame(c.P, t.disk[s.files[f].path], at, n, s.frames[id]);
    if at <= s.files[f].size < n {
      GrownBytes(c.P, s, t, id, at, s.files[f].path, s.files[f].size, n, fill);
    }
  }

  lemma TruncateLooks(P: nat, s: State, t: State, f: FileId, n: nat, fill: seq<Byte>, id: FrameId, at: nat)
    requires IdsOk(s) && FilesOk(s) && f in s.files && n <= s.files[f].size + |fill|
    requires id in s.frames && id.file == f && at == Start(P, id.page) && t == Truncate(P, s, f, n, fill)
    ensures f in t.files && t.files[f].path == s.files[f].path && s.files[f].path in t.disk
    ensures |t.disk[s.files[f].path]| == n && t.byName == s.byName && s.byName[s.files[f].path] == f
    ensures id in t.frames && t.frames[id] == Remeasured(at, n, s.frames[id])
  {
    ResizedDiskIs(s, f, n, fill);
  }

  lemma FittingFrame(P: nat, after: seq<Byte>, at: nat, n: nat, frame: Frame)
    requires FrameOkAt(P, after, at, Remeasured(at, n, frame)) && |after| == n
    ensures at <= n <= at + P
  {
  }

  lemma GrownBytes(P: nat, s: State, t: State, id: FrameId, at: nat, path: Path, size: nat, n: nat, fill: seq<Byte>)
    requires BuffersOk(P, s) && BuffersOk(P, t) && id in t.frames && at == Start(P, id.page)
    requires path in t.disk && path in t.byName && t.byName[path] == id.file && n == |t.disk[path]| <= at + P
    requires path in s.disk && at <= size == |s.disk[path]| < n <= size + |fill|
    requires Logical(P, t)[path] == Resized(Logical(P, s)[path], n, fill)
    ensures t.frames[id].buffer[size - at..n - at] == fill[..n - size]
  {
    forall k | size - at <= k < n - at
      ensures t.frames[id].buffer[k] == fill[at + k - size]
    {
      GrownByte(P, s, t, id, at, k, path, n, fill);
    }
  }

  lemma FrameIsOk(c: Config, t: State, id: FrameId)
    requires Ok(c, t) && id in t.frames
    ensures id.file in t.files && t.files[id.file].path in t.disk
    ensures FrameOkAt(c.P, t.disk[t.files[id.file].path], Start(c.P, id.page), t.frames[id])
  {
    OpenOk(c, t);
    assert FrameOk(c.P, t.disk[t.files[id.file].path], id.page, t.frames[id]);
  }

  /** A truncation cuts the file off or fills it up for its readers, and keeps the directory in order,
      exactly if every resident page of the file spans the new end.  (None is resident when a file was
      only just opened.) */
  lemma TruncateKeeps(c: Config, s: State, f: FileId, n: nat, fill: seq<Byte>)
    requires Ok(c, s) && f in s.files && n <= s.files[f].size + |fill|
    ensures Truncated(c, s, Truncate(c.P, s, f, n, fill), s.files[f].path, n, fill) <==> AllSpan(c.P, s, f, n, fill)
  {
    if AllSpan(c.P, s, f, n, fill) {
      RightIfSpanned(c, s, f, n, fill);
    }
    if Truncated(c, s, Truncate(c.P, s, f, n, fill), s.files[f].path, n, fill) {
      forall id | id in s.frames && id.file == f
        ensures Spans(c.P, Start(c.P, id.page), s.files[f].size, n, fill, s.frames[id])
      {
        SpansIfRight(c, s, f, n, fill, id);
      }
    }
  }
}
