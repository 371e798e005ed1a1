/** The buffered file system's reads and writes at a position: loops that go from page to page until
    the request is served, and the position that the handle keeps. */
module BufferedFiles {
  import opened PageState
  import opened PageLaws
  import opened PagePolicy
  import opened Streams
  import PageRuns
  import PageBuffer

  // ---------------------------------------------------------------------------
  // One page at a time

  /** The part of the file that one call of `FileRef::Read` delivers. */
  function Piece(P: nat, content: seq<Byte>, n: nat, offset: nat): (piece: seq<Byte>)
    requires P > 0
    ensures |piece| <= n && (n > 0 && offset < |content| ==> 0 < |piece| <= |content| - offset)
    ensures offset < |content| ==> piece == content[offset..offset + |piece|]
    ensures offset >= |content| ==> piece == []
  {
    if offset >= |content| then [] else content[offset..offset + PageRuns.ReadHere(P, |content|, n, offset)]
  }

  lemma ReadShows(c: Config, s: State, f: FileId, content: seq<Byte>, n: nat, offset: nat)
    requires c.P > 0 && FileIs(c, s, f, content) && PageNo(c.P, offset) < MAX_PAGES
    ensures Ok(c, s) && f in s.files
    ensures var (t, out) := PageRuns.ReadFile(c, s, f, n, offset);
      && FileIs(c, t, f, content) && out == Piece(c.P, content, n, offset)
      && f in t.files && t.files[f].flags == s.files[f].flags
  {
    OpenFileIs(c, s, f, content);
    PageRuns.ReadRefines(c, s, f, n, offset);
    PageRuns.ReadKeeps(c, s, f, n, offset);
    ReadKept(c, s, f, n, offset);
    SameFileStays(c, s, PageRuns.ReadFile(c, s, f, n, offset).0, f, content);
  }

  lemma SameFileStays(c: Config, s: State, t: State, f: FileId, content: seq<Byte>)
    requires FileIs(c, s, f, content) && Ok(c, t) && SameBytes(c.P, s, t)
    requires f in s.files && f in t.files && t.files[f] == s.files[f].(pages := t.files[f].pages)
    ensures FileIs(c, t, f, content)
  {
    OpenFileIs(c, s, f, content);
    assert s.files[f].path in Logical(c.P, t);
  }

  lemma ReadKept(c: Config, s: State, f: FileId, n: nat, offset: nat)
    requires c.P > 0 && Ok(c, s) && f in s.files && PageNo(c.P, offset) < MAX_PAGES
    ensures var t := PageRuns.ReadFile(c, s, f, n, offset).0;
      f in t.files && t.files[f] == s.files[f].(pages := t.files[f].pages)
  {
    if PageRuns.ReadMax(s.files[f].size, n, offset) > 0 {
      PageRuns.AccessFixes(c, s, f, offset);
      FixKeeps(c, s, f, PageNo(c.P, offset));
    }
  }

  lemma PageWithin(P: nat, size: nat, offset: nat)
    requires P > 0 && offset <= size
    ensures PageNo(P, offset) <= PageNo(P, size)
  {
    PageOf(P, offset);
    NoPageBeyond(P, size, PageNo(P, offset));
  }

  lemma PageIsSmall(c: Config, s: State, f: FileId, content: seq<Byte>, offset: nat)
    requires FileIs(c, s, f, content) && offset <= |content|
    ensures c.P > 0 && PageNo(c.P, offset) < MAX_PAGES && PageNo(c.P, |content|) < MAX_PAGES
  {
    OpenFileIs(c, s, f, content);
    PageWithin(c.P, |content|, offset);
  }

  // ---------------------------------------------------------------------------
  // Writing

  /** What one call of `FileRef::Write` makes of the file. */
  function WrittenOnce(P: nat, append: bool, content: seq<Byte>, offset: nat, data: seq<Byte>): seq<Byte>
    requires P > 0 && (append ==> offset <= |content|)
  {
    if !append || offset == |content| then content + data
    else WrittenAt(content, offset, data[..PageRuns.WriteHere(P, |data|, offset)])
  }

  function CountOnce(P: nat, append: bool, content: seq<Byte>, offset: nat, data: seq<Byte>): (n: nat)
    requires P > 0
    ensures n <= |data| && (data != [] ==> n > 0)
  {
    if !append || offset == |content| then |data| else PageRuns.WriteHere(P, |data|, offset)
  }

  lemma WriteShows(c: Config, s: State, f: FileId, content: seq<Byte>, data: seq<Byte>, offset: nat)
    requires c.P > 0 && FileIs(c, s, f, content) && f in s.files && s.files[f].flags.write
    requires s.files[f].flags.append ==> offset <= |content|
    requires PageNo(c.P, |content| + |data|) < MAX_PAGES
    ensures Ok(c, s) && PageNo(c.P, s.files[f].size) < MAX_PAGES
    ensures s.files[f].flags.append ==> PageRuns.CanAccess(c, s, f, offset)
    ensures var (t, r) := PageRuns.WriteFile(c, s, f, data, offset); var append := s.files[f].flags.append;
      && FileIs(c, t, f, WrittenOnce(c.P, append, content, offset, data))
      && r == PageRuns.Written(CountOnce(c.P, append, content, offset, data))
      && f in t.files && t.files[f].flags == s.files[f].flags
  {
    FileFacts(c, s, f, content);
    PageIsSmall(c, s, f, content, if offset <= |content| then offset else 0);
    if PageRuns.GoesToEnd(s.files[f].flags, |content|, offset) {
      AppendShows(c, s, f, content, data);
    } else {
      InPlaceShows(c, s, f, content, data[..PageRuns.WriteHere(c.P, |data|, offset)], offset);
    }
  }

  lemma AppendShows(c: Config, s: State, f: FileId, content: seq<Byte>, data: seq<Byte>)
    requires c.P > 0 && FileIs(c, s, f, content) && PageNo(c.P, |content| + |data|) < MAX_PAGES
    ensures Ok(c, s) && f in s.files && s.files[f].path in s.disk && BuffersOk(c.P, s)
    ensures var t := Append(c.P, s, f, data);
      FileIs(c, t, f, content + data) && f in t.files && t.files[f].flags == s.files[f].flags
  {
    OpenFileIs(c, s, f, content);
    PageRuns.AppendOk(c, s, f, data);
    assert IsFile(c, Append(c.P, s, f, data), f, content + data);
  }

  lemma InPlaceShows(c: Config, s: State, f: FileId, content: seq<Byte>, data: seq<Byte>, offset: nat)
    requires c.P > 0 && FileIs(c, s, f, content) && offset <= |content| && Skip(c.P, offset) + |data| <= c.P
    ensures Ok(c, s) && PageRuns.CanAccess(c, s, f, offset)
    ensures var t := PageRuns.WritePage(c, s, f, data, offset);
      FileIs(c, t, f, WrittenAt(content, offset, data)) && f in t.files && t.files[f].flags == s.files[f].flags
  {
    OpenFileIs(c, s, f, content);
    PageIsSmall(c, s, f, content, offset);
    var t, path := PageRuns.WritePage(c, s, f, data, offset), s.files[f].path;
    PageRuns.WritePageRefines(c, s, f, data, offset, path);
    OpenDidWrite(c.P, s, t, path, offset, data);
    PageKept(c, s, f, data, offset);
    assert IsFile(c, t, f, WrittenAt(content, offset, data));
  }

  lemma PageKept(c: Config, s: State, f: FileId, data: seq<Byte>, offset: nat)
    requires Ok(c, s) && PageRuns.CanAccess(c, s, f, offset) && Skip(c.P, offset) + |data| <= c.P
    ensures var t := PageRuns.WritePage(c, s, f, data, offset);
      && f in t.files && t.files[f].flags == s.files[f].flags && t.files[f].path == s.files[f].path
      && t.files[f].size == s.files[f].size
  {
    PageRuns.AccessFixes(c, s, f, offset);
    FixKeeps(c, s, f, PageNo(c.P, offset));
  }

  /** The loop of `BufferedFileSystem::Write` fixes no page past the end of the file. */
  predicate CanWrite(P: nat, append: bool, size: nat, location: nat, n: nat)
    requires P > 0
  {
    append ==>
      && location <= size
      && (location == size || Skip(P, size) == 0 || location + n <= Start(P, PageNo(P, size)) + P)
  }

  /** What a whole write makes of the file: in place bytes past the end of a partly filled last page are
      lost, and a file that is not open for appending gets everything at its end. */
  function AfterWrite(P: nat, append: bool, content: seq<Byte>, location: nat, data: seq<Byte>): seq<Byte>
    requires P > 0 && (append ==> location <= |content|)
  {
    if !append then content + data
    else if location == |content| || Skip(P, |content|) == 0 then Splice(content, location, data)
    else WrittenAt(content, location, data)
  }

  /** The write puts every byte where it was asked to exactly if there is none, or it is at the end of
      the file, or the file is open for appending and the write ends within it or it fills its pages. */
  lemma WriteIsExact(P: nat, append: bool, content: seq<Byte>, location: nat, data: seq<Byte>)
    requires P > 0 && location <= |content|
    ensures AfterWrite(P, append, content, location, data) == Splice(content, location, data) <==>
      data == [] || location == |content| || (append && (Skip(P, |content|) == 0 || location + |data| <= |content|))
  {
    var after, exact := AfterWrite(P, append, content, location, data), Splice(content, location, data);
    if data == [] || location == |content| || (append && Skip(P, |content|) == 0) {
      assert after == exact;
    } else if append && location + |data| <= |content| {
      assert data[..|data|] == data;
    } else {
      assert |after| != |exact|;
    }
  }

  lemma NextPageStarts(P: nat, offset: nat)
    requires P > 0
    ensures Skip(P, offset + (P - Skip(P, offset))) == 0
  {
    PageOf(P, offset);
    DivMod(P, PageNo(P, offset) + 1, 0);
    assert Start(P, PageNo(P, offset) + 1) == Start(P, PageNo(P, offset)) + P;
  }

  lemma SamePage(P: nat, offset: nat, size: nat)
    requires P > 0 && offset < size < offset + (P - Skip(P, offset))
    ensures PageNo(P, size) == PageNo(P, offset) && Skip(P, size) > 0
  {
    PageOf(P, offset);
    DivMod(P, PageNo(P, offset), Skip(P, offset) + (size - offset));
  }

  lemma SpliceMore(content: seq<Byte>, location: nat, data: seq<Byte>, k: nat, m: nat)
    requires location + k <= |content| && k + m <= |data|
    ensures Splice(Splice(content, location, data[..k]), location + k, data[k..k + m]) ==
      Splice(content, location, data[..k + m])
  {
  }

  /** One round of the loop, after `k` bytes. */
  lemma WriteGoesOn(P: nat, content: seq<Byte>, location: nat, data: seq<Byte>, k: nat, m: nat)
    requires P > 0 && CanWrite(P, true, |content|, location, |data|) && k < |data| && location + k <= |content|
    requires k == 0 || Skip(P, location + k) == 0
    requires m == CountOnce(P, true, content, location + k, data[k..])
    ensures var now := Splice(content, location, data[..k]);
      var next := WrittenOnce(P, true, now, location + k, data[k..]);
      && k + m <= |data|
      && (k + m == |data| || (Skip(P, location + k + m) == 0 && location + k + m <= |content|))
      && (location + k + m <= |content| ==> next == Splice(content, location, data[..k + m]))
      && (k + m == |data| ==> next == AfterWrite(P, true, content, location, data))
  {
    var offset := location + k;
    var now := Splice(content, location, data[..k]);
    if offset == |content| {
      assert now + data[k..] == Splice(content, location, data);
      assert data[..k + m] == data;
    } else {
      if m == P - Skip(P, offset) {
        NextPageStarts(P, offset);
      }
      InPlaceGoesOn(P, content, location, data, k, m);
    }
  }

  /** One piece more, cut off at the end of the file. */
  lemma PieceWritten(content: seq<Byte>, location: nat, data: seq<Byte>, k: nat, m: nat, fits: nat)
    requires location + k < |content| && k + m <= |data| && fits == Min(m, |content| - (location + k))
    ensures WrittenAt(Splice(content, location, data[..k]), location + k, data[k..][..m]) ==
      Splice(content, location, data[..k + fits])
  {
    assert data[k..][..m][..fits] == data[k..k + fits];
    SpliceMore(content, location, data, k, fits);
  }

  /** A round that runs past the end of the file is the last one. */
  lemma LastRound(P: nat, size: nat, offset: nat, left: nat, m: nat)
    requires P > 0 && offset < size < offset + m && m == Min(left, P - Skip(P, offset))
    requires Skip(P, size) == 0 || offset + left <= Start(P, PageNo(P, size)) + P
    ensures m == left && Skip(P, size) > 0
  {
    SamePage(P, offset, size);
    PageOf(P, offset);
  }

  lemma InPlaceGoesOn(P: nat, content: seq<Byte>, location: nat, data: seq<Byte>, k: nat, m: nat)
    requires P > 0 && CanWrite(P, true, |content|, location, |data|) && k < |data| && location + k < |content|
    requires m == Min(|data| - k, P - Skip(P, location + k))
    ensures var next := WrittenAt(Splice(content, location, data[..k]), location + k, data[k..][..m]);
      && (location + k + m > |content| ==> k + m == |data|)
      && (location + k + m <= |content| ==> next == Splice(content, location, data[..k + m]))
      && (k + m == |data| ==> next == AfterWrite(P, true, content, location, data))
  {
    var offset := location + k;
    PieceWritten(content, location, data, k, m, Min(m, |content| - offset));
    if offset + m > |content| {
      LastRound(P, |content|, offset, |data| - k, m);
    } else if k + m == |data| {
      assert data[..|data|] == data;
    }
  }

  /** A key to `SoFar`. */
  ghost predicate UnfoldWrite(k: nat, j: int) { true }

  /** The file after the first `k` bytes. */
  ghost predicate SoFar(P: nat, append: bool, content: seq<Byte>, location: nat, data: seq<Byte>, k: nat,
                        now: seq<Byte>)
    requires P > 0
  {
    forall j {:trigger UnfoldWrite(k, j)} :: UnfoldWrite(k, j) ==> Reached(P, append, content, location, data, k, now)
  }

  ghost predicate Reached(P: nat, append: bool, content: seq<Byte>, location: nat, data: seq<Byte>, k: nat,
                          now: seq<Byte>)
    requires P > 0
  {
    && k <= |data| && (append ==> location <= |content|)
    && if k == |data| then now == AfterWrite(P, append, content, location, data)
       else if append then
         location + k <= |content| && now == Splice(content, location, data[..k])
           && (k == 0 || Skip(P, location + k) == 0)
       else k == 0 && now == content
  }

  lemma GoesOn(P: nat, append: bool, content: seq<Byte>, location: nat, data: seq<Byte>, k: nat, now: seq<Byte>)
    requires P > 0 && CanWrite(P, append, |content|, location, |data|)
    requires k < |data| && SoFar(P, append, content, location, data, k, now)
    ensures |now| == |content| && (append ==> location + k <= |now|)
    ensures var m := CountOnce(P, append, now, location + k, data[k..]);
      SoFar(P, append, content, location, data, k + m, WrittenOnce(P, append, now, location + k, data[k..]))
  {
    assert UnfoldWrite(k, 0);
    if append {
      WriteGoesOn(P, content, location, data, k, CountOnce(P, true, now, location + k, data[k..]));
    } else {
      assert data[0..] == data;
    }
  }

  lemma WriteStarts(P: nat, append: bool, content: seq<Byte>, location: nat, data: seq<Byte>)
    requires P > 0 && CanWrite(P, append, |content|, location, |data|)
    ensures SoFar(P, append, content, location, data, 0, content)
  {
    if append {
      assert Splice(content, location, []) == content;
      assert data == [] ==> data[..Min(0, |content| - location)] == [];
    }
    assert data == [] ==> content + data == content;
  }

  lemma WriteEnds(P: nat, append: bool, content: seq<Byte>, location: nat, data: seq<Byte>, k: nat, now: seq<Byte>)
    requires P > 0 && SoFar(P, append, content, location, data, k, now)
    ensures k <= |data|
    ensures k == |data| ==> (append ==> location <= |content|) && now == AfterWrite(P, append, content, location, data)
  {
    assert UnfoldWrite(k, 0);
  }

  // ---------------------------------------------------------------------------
  // The handle

  class BufferedFileHandle {
    const pages: PageBuffer.FilePageBuffer
    const f: FileId
    var position: nat

    ghost predicate Shows(content: seq<Byte>)
      reads this, pages
    {
      pages.Valid() && pages.config.P > 0 && FileIs(pages.config, pages.S(), f, content)
    }

    constructor (pages: PageBuffer.FilePageBuffer, f: FileId)
      ensures this.pages == pages && this.f == f && position == 0
    {
      this.pages, this.f, position := pages, f, 0;
    }

    /** One call of `FileRef::Read`. */
    method ReadOnce(n: nat, offset: nat, ghost content: seq<Byte>) returns (out: seq<Byte>)
      requires Shows(content) && PageNo(pages.config.P, offset) < MAX_PAGES
      modifies pages
      ensures Shows(content) && out == Piece(pages.config.P, content, n, offset)
    {
      ReadShows(pages.config, pages.S(), f, content, n, offset);
      out := pages.Read(f, n, offset);
    }

    /** Reads exactly `n` bytes from `location` on, or all there are if that is less, and then fails. */
    method ReadAt(n: int, location: nat, ghost content: seq<Byte>) returns (out: seq<Byte>, ok: bool)
      requires Shows(content)
      modifies pages, this`position
      ensures Shows(content) && position == location + |out|
      ensures ok <==> n <= 0 || location + n <= |content|
      ensures ok ==> |out| == if n <= 0 then 0 else n
      ensures |out| <= if location < |content| then |content| - location else 0
      ensures out == if location < |content| then content[location..location + |out|] else []
      ensures !ok ==> location + |out| == if location < |content| then |content| else location
    {
      FileFacts(pages.config, pages.S(), f, content);
      var size, left := pages.files[f].size, n;
      var at := location;
      out := [];
      while left > 0 && at < size
        invariant Shows(content) && at == location + |out| && |out| + left == n
        invariant if n > 0 then left >= 0 else out == []
        invariant out != [] ==> at <= size
        invariant at <= size ==> out == content[location..at]
      {
        PageIsSmall(pages.config, pages.S(), f, content, at);
        var piece := ReadOnce(left, at, content);
        PartsJoin(content, location, at, at + |piece|);
        out, at, left := out + piece, at + |piece|, left - |piece|;
      }
      position := at;
      ok := !(at >= size && left > 0);
    }

    /** Reads from the handle's position on, no further than the end of a page. */
    method Read(n: nat, ghost content: seq<Byte>) returns (out: seq<Byte>)
      requires Shows(content) && PageNo(pages.config.P, position) < MAX_PAGES
      modifies pages, this`position
      ensures Shows(content) && position == old(position) + |out|
      ensures out == Piece(pages.config.P, content, n, old(position))
    {
      out := ReadOnce(n, position, content);
      position := position + |out|;
    }

    /** One call of `FileRef::Write` on a file that may be written. */
    method WriteOnce(data: seq<Byte>, offset: nat, ghost content: seq<Byte>) returns (n: nat)
      requires Shows(content) && f in pages.files && pages.files[f].flags.write
      requires pages.files[f].flags.append ==> offset <= |content|
      requires PageNo(pages.config.P, |content| + |data|) < MAX_PAGES
      modifies pages
      ensures f in pages.files && pages.files[f].flags == old(pages.files[f].flags)
      ensures var append := pages.files[f].flags.append;
        && Shows(WrittenOnce(pages.config.P, append, content, offset, data))
        && n == CountOnce(pages.config.P, append, content, offset, data)
    {
      WriteShows(pages.config, pages.S(), f, content, data, offset);
      var r := pages.Write(f, data, offset);
      n := r.count;
    }

    /** The file after `k` bytes of a write. */
    ghost predicate Writing(append: bool, content: seq<Byte>, location: nat, data: seq<Byte>, k: nat, now: seq<Byte>)
      reads this, pages
    {
      && Shows(now) && SoFar(pages.config.P, append, content, location, data, k, now)
      && f in pages.files && pages.files[f].flags.write && pages.files[f].flags.append == append
    }

    /** One round of the loop. */
    method WriteRound(ghost append: bool, ghost content: seq<Byte>, location: nat, data: seq<Byte>, k: nat,
                      ghost now: seq<Byte>)
      returns (done: nat, ghost next: seq<Byte>)
      requires Writing(append, content, location, data, k, now) && k < |data|
      requires CanWrite(pages.config.P, append, |content|, location, |data|)
      requires PageNo(pages.config.P, |content| + |data|) < MAX_PAGES
      modifies pages
      ensures Writing(append, content, location, data, done, next) && k < done <= |data|
    {
      GoesOn(pages.config.P, append, content, location, data, k, now);
      PageWithin(pages.config.P, |content| + |data|, |now| + |data[k..]|);
      next := WrittenOnce(pages.config.P, append, now, location + k, data[k..]);
      var n := WriteOnce(data[k..], location + k, now);
      done := k + n;
      WriteEnds(pages.config.P, append, content, location, data, done, next);
    }

    /** Writes all of `data` at `location`. */
    method WriteAt(data: seq<Byte>, location: nat, ghost content: seq<Byte>)
      requires Shows(content) && f in pages.files && pages.files[f].flags.write
      requires CanWrite(pages.config.P, pages.files[f].flags.append, |content|, location, |data|)
      requires PageNo(pages.config.P, |content| + |data|) < MAX_PAGES
      modifies pages, this`position
      ensures Shows(AfterWrite(pages.config.P, old(pages.files[f].flags.append), content, location, data))
      ensures position == location + |data|
    {
      ghost var append := pages.files[f].flags.append;
      var k := 0;
      ghost var now := content;
      WriteStarts(pages.config.P, append, content, location, data);
      while k < |data|
        invariant k <= |data| && Writing(append, content, location, data, k, now)
      {
        k, now := WriteRound(append, content, location, data, k, now);
      }
      WriteEnds(pages.config.P, append, content, location, data, k, now);
      position := location + k;
    }
  }
}
