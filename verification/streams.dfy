/** The two readers on top of the page buffer: the sliced input stream and the file system's exact
    reads.  Both walk over pages and deliver the bytes of the file as its readers see it. */
module Streams {
  import opened PageState
  import opened PageLaws
  import opened PagePolicy
  import opened PageFiles
  import PageRuns
  import PageBuffer

  // ---------------------------------------------------------------------------
  // A file that does not change

  /** The buffer is in order and shows `content` for file `f`. */
  ghost predicate IsFile(c: Config, s: State, f: FileId, content: seq<Byte>) {
    && Ok(c, s) && BuffersOk(c.P, s) && f in s.files && s.files[f].size == |content|
    && s.files[f].path in s.disk && Logical(c.P, s)[s.files[f].path] == content
    && PageNo(c.P, |content|) < MAX_PAGES
  }

  /** A key to `FileIs`, as `Unfold` is to `Ok`. */
  ghost predicate UnfoldFile(s: State, k: int) { true }

  ghost predicate FileIs(c: Config, s: State, f: FileId, content: seq<Byte>) {
    forall k {:trigger UnfoldFile(s, k)} :: UnfoldFile(s, k) ==> IsFile(c, s, f, content)
  }

  lemma OpenFileIs(c: Config, s: State, f: FileId, content: seq<Byte>)
    requires FileIs(c, s, f, content)
    ensures IsFile(c, s, f, content)
  {
    assert UnfoldFile(s, 0);
  }

  lemma SameFileIs(c: Config, s: State, t: State, f: FileId, content: seq<Byte>)
    requires FileIs(c, s, f, content) && Ok(c, t) && SameBytes(c.P, s, t) && SameFiles(s, t)
    ensures FileIs(c, t, f, content)
  {
    OpenFileIs(c, s, f, content);
    assert s.files[f].path in Logical(c.P, t);
  }

  lemma FileFacts(c: Config, s: State, f: FileId, content: seq<Byte>)
    requires FileIs(c, s, f, content)
    ensures Ok(c, s) && f in s.files && s.files[f].size == |content|
  {
    OpenFileIs(c, s, f, content);
  }

  /** The data of a frame is the page's part of the file. */
  ghost predicate IsPart(P: nat, frame: Frame, page: nat, content: seq<Byte>) {
    && Start(P, page) <= |content| && frame.dataSize == PageBytes(P, |content|, page) <= |frame.buffer|
    && frame.buffer[..frame.dataSize] == content[Start(P, page)..Start(P, page) + frame.dataSize]
  }

  /** A key to `ShowsPart`. */
  ghost predicate UnfoldPart(frame: Frame, k: int) { true }

  ghost predicate ShowsPart(P: nat, frame: Frame, page: nat, content: seq<Byte>) {
    forall k {:trigger UnfoldPart(frame, k)} :: UnfoldPart(frame, k) ==> IsPart(P, frame, page, content)
  }

  lemma OpenPart(P: nat, frame: Frame, page: nat, content: seq<Byte>)
    requires ShowsPart(P, frame, page, content)
    ensures IsPart(P, frame, page, content)
  {
    assert UnfoldPart(frame, 0);
  }

  /** A page is held, and shows its part of the file. */
  ghost predicate PageShows(P: nat, s: State, id: FrameId, content: seq<Byte>) {
    && id in s.frames && s.frames[id].users > 0 && s.frames[id].dataSize <= |s.frames[id].buffer| == P
    && ShowsPart(P, s.frames[id], id.page, content)
  }

  lemma FixShows(c: Config, s: State, f: FileId, page: nat, content: seq<Byte>)
    requires FileIs(c, s, f, content) && Start(c.P, page) <= |content|
    ensures CanFix(c, s, f, page)
    ensures FileIs(c, FixPage(c, s, f, page), f, content)
    ensures PageShows(c.P, FixPage(c, s, f, page), FrameId(f, page), content)
  {
    PageIsNumbered(c, s, f, page, content);
    FileFacts(c, s, f, content);
    var t, id := FixPage(c, s, f, page), FrameId(f, page);
    FixKeeps(c, s, f, page);
    SameFileIs(c, s, t, f, content);
    FixPins(c, s, f, page);
    FrameShows(c, t, id, content);
  }

  lemma PageIsNumbered(c: Config, s: State, f: FileId, page: nat, content: seq<Byte>)
    requires FileIs(c, s, f, content) && Start(c.P, page) <= |content|
    ensures c.P > 0 && CanFix(c, s, f, page)
  {
    OpenFileIs(c, s, f, content);
    NoPageBeyond(c.P, |content|, page);
  }

  lemma FrameShows(c: Config, t: State, id: FrameId, content: seq<Byte>)
    requires FileIs(c, t, id.file, content) && id in t.frames && t.frames[id].users > 0
    ensures PageShows(c.P, t, id, content)
  {
    OpenFileIs(c, t, id.file, content);
    OpenOk(c, t);
    FrameShowsFile(c.P, t, id);
  }

  lemma UnfixShows(c: Config, s: State, f: FileId, id: FrameId, content: seq<Byte>)
    requires FileIs(c, s, f, content) && id in s.frames && s.frames[id].users > 0
    ensures FileIs(c, Unfix(s, id), f, content)
  {
    FileFacts(c, s, f, content);
    PageRuns.UnfixRefines(c, s, id);
    SameFileIs(c, s, Unfix(s, id), f, content);
  }

  // ---------------------------------------------------------------------------
  // InputFileStreamBuffer

  const TWO_64: nat := 0x1_0000_0000_0000_0000

  /** 64-bit subtraction. */
  function Minus64(a: nat, b: nat): nat { (a as int - b) % TWO_64 }

  /** The bytes that follow the get area: the pages from the next one on. */
  ghost function Later(content: seq<Byte>, at: nat, end: nat): seq<Byte>
    requires end <= |content|
  {
    if at < end then content[at..end] else []
  }

  /** What is ahead is the end of the readable data, and the position is where it begins. */
  ghost predicate Lined(ahead: seq<Byte>, position: nat, content: seq<Byte>, end: nat)
    requires end <= |content|
  {
    && |ahead| <= end && ahead == content[end - |ahead|..end]
    && (ahead != [] ==> position == end - |ahead|)
  }

  class InputFileStreamBuffer {
    const pages: PageBuffer.FilePageBuffer
    const f: FileId
    /** The page that is held, and the get area in it. */
    var page: nat
    var gptr: nat
    var egptr: nat
    /** The end of the readable data. */
    var dataEnd: nat
    var nextPage: nat
    ghost const content: seq<Byte>

    function P(): nat { pages.config.P }

    ghost predicate Valid()
      reads this, pages
    {
      && pages.Valid() && P() > 0 && |content| < TWO_64
      && FileIs(pages.config, pages.S(), f, content)
      && PageShows(P(), pages.S(), FrameId(f, page), content)
      && egptr <= pages.frames[FrameId(f, page)].dataSize && dataEnd <= |content|
    }

    ghost function Buffer(): seq<Byte>
      requires Valid()
      reads this, pages
    {
      pages.frames[FrameId(f, page)].buffer
    }

    /** The get area from `skip` bytes further on; a seek may go beyond its end. */
    ghost function Area(skip: nat): seq<Byte>
      requires Valid()
      reads this, pages
    {
      Buffer()[Min(gptr + skip, egptr)..egptr]
    }

    /** All that the stream can still deliver: the get area and the pages that follow. */
    ghost function Ahead(): seq<Byte>
      requires Valid()
      reads this, pages
    {
      Area(0) + Later(content, Start(P(), nextPage), dataEnd)
    }

    /** The position: the next page's start less one page, and the place in the get area. */
    function GetPosition(): nat
      requires nextPage > 0
      reads this
    {
      Start(P(), nextPage - 1) + gptr
    }

    /** The stream delivers the readable data from its position on. */
    ghost predicate Positioned()
      requires Valid() && nextPage > 0
      reads this, pages
    {
      Lined(Ahead(), GetPosition(), content, dataEnd)
    }

    constructor (pages: PageBuffer.FilePageBuffer, f: FileId, ghost content: seq<Byte>)
      requires pages.Valid() && FileIs(pages.config, pages.S(), f, content) && |content| < TWO_64
      modifies pages
      ensures Valid() && nextPage > 0 && Positioned() && Ahead() == content && dataEnd == |content|
      ensures this.pages == pages && this.f == f && this.content == content
      ensures page == 0 && gptr == 0 && egptr == Min(P(), |content|)
    {
      FixShows(pages.config, pages.S(), f, 0, content);
      BuffersAreOk(pages.config, pages.S());
      var id := pages.FixPage(f, 0);
      FileFacts(pages.config, pages.S(), f, content);
      this.pages, this.f, this.content := pages, f, content;
      page, nextPage, gptr := 0, 1, 0;
      egptr := pages.frames[id].dataSize;
      dataEnd := pages.files[f].size;
      new;
      OpenPart(P(), pages.frames[id], 0, content);
      LandedAtStart(0);
      AllOf(content);
    }

    /** Gives up the page that is held and fixes the next one. */
    method NextPage() returns (ok: bool)
      requires Valid()
      modifies this`page, this`gptr, this`egptr, this`nextPage, pages
      ensures Valid() && nextPage == old(nextPage) + 1
      ensures ok <==> Start(P(), old(nextPage)) < dataEnd
      ensures !ok ==> page == old(page) && gptr == old(gptr) && egptr == old(egptr) && pages.S() == old(pages.S())
      ensures ok ==>
        var at := Start(P(), old(nextPage));
        && page == old(nextPage) && gptr == 0 && egptr == Min(P(), dataEnd - at)
        && Buffer()[..egptr] == content[at..at + egptr]
    {
      var pageId := nextPage;
      nextPage := nextPage + 1;
      if Start(P(), pageId) >= dataEnd { return false; }
      var data := SwapPage(pageId);
      page, gptr, egptr := pageId, 0, Min(data, dataEnd - Start(P(), pageId));
      PrefixShows(P(), pages.S(), FrameId(f, pageId), content, egptr);
      return true;
    }

    /** `buffer_.Release()` and `FixPage`; the answer is the size of the new page's data. */
    method SwapPage(pageId: nat) returns (data: nat)
      requires Valid() && Start(P(), pageId) < |content|
      modifies pages
      ensures pages.Valid() && FileIs(pages.config, pages.S(), f, content)
      ensures PageShows(P(), pages.S(), FrameId(f, pageId), content)
      ensures data == pages.frames[FrameId(f, pageId)].dataSize == PageBytes(P(), |content|, pageId)
    {
      UnfixShows(pages.config, pages.S(), f, FrameId(f, page), content);
      pages.ReleasePage(FrameId(f, page));
      FixShows(pages.config, pages.S(), f, pageId, content);
      var id := pages.FixPage(f, pageId);
      data := pages.frames[id].dataSize;
      OpenPart(P(), pages.frames[id], pageId, content);
    }

    /** Whether there is anything in the get area, after the next page was fetched if need be. */
    method FillArea() returns (ok: bool)
      requires Valid() && nextPage > 0
      modifies this`page, this`gptr, this`egptr, this`nextPage, pages
      ensures Valid() && nextPage > 0 && Ahead() == old(Ahead())
      ensures if ok then gptr < egptr else Ahead() == []
      ensures old(gptr < egptr) ==> page == old(page) && gptr == old(gptr) && egptr == old(egptr)
      ensures old(Positioned()) ==> Positioned()
    {
      if gptr < egptr { return true; }
      ok := Refill();
    }

    /** The get area is used up. */
    method Refill() returns (ok: bool)
      requires Valid() && nextPage > 0 && gptr >= egptr
      modifies this`page, this`gptr, this`egptr, this`nextPage, pages
      ensures Valid() && nextPage > 0 && Ahead() == old(Ahead())
      ensures if ok then gptr < egptr else Ahead() == []
      ensures Positioned()
    {
      UsedUp();
      ghost var at := Start(P(), nextPage);
      ok := NextPage();
      if ok {
        LandedAtStart(at);
      } else {
        UsedUp();
      }
    }

    /** With the get area used up, the next page is ahead. */
    lemma UsedUp()
      requires Valid() && nextPage > 0 && gptr >= egptr
      ensures Ahead() == Later(content, Start(P(), nextPage), dataEnd)
      ensures Start(P(), nextPage) >= dataEnd ==> Ahead() == [] && Positioned()
    {
      assert Area(0) == [];
    }

    /** What `xsgetn` may deliver at most: the 64-bit difference of size and position. */
    function Left(want: nat): nat
      requires nextPage > 0
      reads this, pages
    {
      Min(want, if f in pages.files then Minus64(pages.files[f].size, GetPosition()) else 0)
    }

    /** Delivers what is ahead, up to `want` bytes and up to the difference of size and position; where
        the stream is positioned that is never too little. */
    method Xsgetn(want: nat) returns (out: seq<Byte>)
      requires Valid() && nextPage > 0
      modifies this`page, this`gptr, this`egptr, this`nextPage, pages
      ensures Valid() && nextPage > 0 && dataEnd == old(dataEnd)
      ensures out + Ahead() == old(Ahead()) && |out| == Min(old(Left(want)), old(|Ahead()|))
      ensures old(Positioned()) ==> Positioned() && |out| == Min(want, old(|Ahead()|))
      ensures want <= old(egptr - gptr) ==> page == old(page) && egptr == old(egptr) && gptr == old(gptr) + |out|
    {
      FileFacts(pages.config, pages.S(), f, content);
      var left := Left(want);
      EnoughIsLeft(Ahead(), GetPosition(), content, dataEnd, want);
      ghost var most, ahead := left, Ahead();
      out := [];
      while left > 0
        invariant Valid() && nextPage > 0 && dataEnd == old(dataEnd)
        invariant out + Ahead() == ahead && |out| + left == most
        invariant old(Positioned()) ==> Positioned()
        invariant want <= old(egptr - gptr) ==> page == old(page) && egptr == old(egptr) && gptr == old(gptr) + |out|
        decreases left
      {
        var m;
        out, m := CopySome(out, left);
        if m == 0 { break; }
        left := left - m;
      }
    }

    /** One round of the loop of `xsgetn`: copies what the get area has, after filling it if need be. */
    method CopySome(out: seq<Byte>, left: nat) returns (longer: seq<Byte>, m: nat)
      requires Valid() && nextPage > 0 && left > 0
      modifies this`page, this`gptr, this`egptr, this`nextPage, pages
      ensures Valid() && nextPage > 0 && m <= left && |longer| == |out| + m && (m == 0 ==> Ahead() == [])
      ensures longer + Ahead() == out + old(Ahead())
      ensures old(Positioned()) ==> Positioned()
      ensures old(gptr < egptr) ==> page == old(page) && egptr == old(egptr) && gptr == old(gptr) + m
    {
      var ok := FillArea();
      if !ok { return out, 0; }
      m := Min(egptr - gptr, left);
      longer := Take(out, m);
    }

    /** Copies from the get area. */
    method Take(out: seq<Byte>, m: nat) returns (longer: seq<Byte>)
      requires Valid() && nextPage > 0 && m <= egptr - gptr
      modifies this`gptr
      ensures Valid() && gptr == old(gptr) + m && |longer| == |out| + m
      ensures longer + Ahead() == out + old(Ahead())
      ensures old(Positioned()) ==> Positioned()
    {
      var buffer := pages.frames[FrameId(f, page)].buffer;
      ghost var later, position := Later(content, Start(P(), nextPage), dataEnd), GetPosition();
      AreaTaken(out, buffer, gptr, egptr, later, m, content, dataEnd, position);
      longer := out + buffer[gptr..gptr + m];
      gptr := gptr + m;
      assert Ahead() == buffer[gptr..egptr] + later && GetPosition() == position + m;
    }

    /** Any series of reads delivers the data piece by piece: together the pieces are what was ahead, as
        far as it was asked for. */
    method XsgetnEach(wants: seq<nat>) returns (outs: seq<seq<Byte>>)
      requires Valid() && nextPage > 0 && Positioned()
      modifies this`page, this`gptr, this`egptr, this`nextPage, pages
      ensures Valid() && nextPage > 0 && Positioned() && dataEnd == old(dataEnd)
      ensures |outs| == |wants| && Delivered(outs, Ahead(), old(Ahead()), Sum(wants, |wants|))
    {
      ghost var rest;
      outs, rest := DeliverEach(wants, Ahead());
      OpenReady(rest);
    }

    method DeliverEach(wants: seq<nat>, ghost ahead: seq<Byte>) returns (outs: seq<seq<Byte>>, ghost rest: seq<Byte>)
      requires Ready(ahead)
      modifies this`page, this`gptr, this`egptr, this`nextPage, pages
      ensures Ready(rest) && dataEnd == old(dataEnd)
      ensures |outs| == |wants| && Delivered(outs, rest, ahead, Sum(wants, |wants|))
    {
      outs, rest := [], ahead;
      NothingDelivered(ahead);
      for i := 0 to |wants|
        invariant Ready(rest) && dataEnd == old(dataEnd)
        invariant |outs| == i && Delivered(outs, rest, ahead, Sum(wants, i))
      {
        var out;
        out, rest := XsgetnNext(wants[i], rest, outs, ahead, Sum(wants, i));
        outs := outs + [out];
      }
    }

    /** The stream is positioned, and `ahead` is ahead. */
    ghost predicate Ready(ahead: seq<Byte>)
      reads this, pages
    {
      forall k {:trigger UnfoldReady(ahead, k)} :: UnfoldReady(ahead, k) ==>
        Valid() && nextPage > 0 && Positioned() && Ahead() == ahead
    }

    lemma OpenReady(ahead: seq<Byte>)
      requires Ready(ahead)
      ensures Valid() && nextPage > 0 && Positioned() && Ahead() == ahead
    {
      assert UnfoldReady(ahead, 0);
    }

    /** One of several reads. */
    method XsgetnNext(want: nat, ghost rest: seq<Byte>, ghost pieces: seq<seq<Byte>>, ghost ahead: seq<Byte>,
                      ghost asked: nat)
      returns (out: seq<Byte>, ghost left: seq<Byte>)
      requires Ready(rest) && Delivered(pieces, rest, ahead, asked)
      modifies this`page, this`gptr, this`egptr, this`nextPage, pages
      ensures Ready(left) && dataEnd == old(dataEnd)
      ensures Delivered(pieces + [out], left, ahead, asked + want)
    {
      OpenReady(rest);
      out := Xsgetn(want);
      left := Ahead();
      DeliveredMore(pieces, rest, out, left, ahead, asked, want);
    }

    /** Whether `NextPage` finds the page of a position: it starts before the end of the data. */
    predicate Reaches(p: nat)
      requires P() > 0
      reads this
    {
      Start(P(), PageNo(P(), p)) < dataEnd
    }

    /** `seekpos` to any position.  Where `NextPage` refuses, the old get area stays in place and is
        moved on in. */
    method SeekPos(p: nat)
      requires Valid()
      modifies this`page, this`gptr, this`egptr, this`nextPage, pages
      ensures Valid() && nextPage > 0
      ensures Reaches(p) ==> Positioned() && Ahead() == content[Min(p, dataEnd)..dataEnd] && GetPosition() == p
      ensures !Reaches(p) ==> Ahead() == old(Area(Skip(P(), p))) && GetPosition() == p + old(gptr)
    {
      PageOf(P(), p);
      GoTo(PageNo(P(), p), Skip(P(), p), Start(P(), PageNo(P(), p)));
    }

    /** The end of `seekpos` and of `Slice`: the page that starts at `at`, and `skip` bytes into it. */
    method GoTo(pageId: nat, skip: nat, ghost at: nat)
      requires Valid() && at == Start(P(), pageId) && skip < P()
      modifies this`page, this`gptr, this`egptr, this`nextPage, pages
      ensures Valid() && nextPage > 0
      ensures at < dataEnd ==>
        Positioned() && Ahead() == content[Min(at + skip, dataEnd)..dataEnd] && GetPosition() == at + skip
      ensures at >= dataEnd ==> Ahead() == old(Area(skip)) && GetPosition() == at + skip + old(gptr)
    {
      ghost var g, area := gptr, Area(skip);
      nextPage := pageId;
      var ok := NextPage();
      gptr := gptr + skip;
      if ok {
        Landed(at, skip);
      } else {
        Refused(at, g + skip, area);
      }
    }

    lemma Landed(at: nat, skip: nat)
      requires Valid() && nextPage == page + 1 && gptr == skip < P() && at <= dataEnd
      requires at == Start(P(), page) && egptr == Min(P(), dataEnd - at)
      requires Buffer()[..egptr] == content[at..at + egptr]
      ensures Positioned() && Ahead() == content[Min(at + skip, dataEnd)..dataEnd] && GetPosition() == at + skip
    {
      AreaAhead(P(), content, Buffer(), nextPage, at, skip, egptr, dataEnd);
    }

    lemma LandedAtStart(at: nat)
      requires Valid() && nextPage == page + 1 && gptr == 0 && at <= dataEnd
      requires at == Start(P(), page) && egptr == Min(P(), dataEnd - at)
      requires Buffer()[..egptr] == content[at..at + egptr]
      ensures Positioned() && Ahead() == Later(content, at, dataEnd)
    {
      Landed(at, 0);
    }

    lemma Refused(at: nat, g: nat, area: seq<Byte>)
      requires Valid() && nextPage > 0 && at == Start(P(), nextPage - 1) && dataEnd <= at && gptr == g
      requires Area(0) == area
      ensures Ahead() == area && GetPosition() == at + g
    {
      assert Start(P(), nextPage) == at + P();
    }

    /** Restricts the stream to `most` bytes from `offset` on, both cut off at the end of the file, and
        goes to the start of the range, as `SeekPos` does. */
    method Slice(offset: nat, most: nat)
      requires Valid()
      modifies this`page, this`gptr, this`egptr, this`nextPage, this`dataEnd, pages
      ensures Valid() && nextPage > 0 && dataEnd == SliceEnd(|content|, Min(|content|, offset), most)
      ensures Sliced(content, Min(|content|, offset), dataEnd, Skip(P(), Min(|content|, offset)),
                     old(Start(P(), page)), old(gptr), old(egptr), Ahead(), GetPosition())
    {
      FileFacts(pages.config, pages.S(), f, content);
      var begin := Min(pages.files[f].size, offset);
      dataEnd := SliceEnd(pages.files[f].size, begin, most);
      GoToRange(begin);
    }

    /** The end of `Slice`. */
    method GoToRange(begin: nat)
      requires Valid() && begin <= dataEnd && (begin == dataEnd ==> dataEnd == |content|)
      modifies this`page, this`gptr, this`egptr, this`nextPage, pages
      ensures Valid() && nextPage > 0
      ensures Sliced(content, begin, dataEnd, Skip(P(), begin),
                     old(Start(P(), page)), old(gptr), old(egptr), Ahead(), GetPosition())
    {
      ghost var at, g, e, area := Start(P(), page), gptr, egptr, Area(Skip(P(), begin));
      AreaIsFile(P(), pages.S(), FrameId(f, page), content, at, Min(g, e), e);
      SeekPos(begin);
      SoughtIsSliced(P(), content, begin, dataEnd, at, g, e, Ahead(), GetPosition(), area);
    }

    /** A slice and a read.  The read delivers the range, or as much of it as was asked for, exactly if
        the range is not empty, or the file does not end on a page boundary, or the get area before the
        slice was at its start or used up, or nothing was asked for.  Otherwise it delivers the bytes
        of the old get area. */
    method SliceAndRead(offset: nat, most: nat, want: nat) returns (out: seq<Byte>)
      requires Valid()
      modifies this`page, this`gptr, this`egptr, this`nextPage, this`dataEnd, pages
      ensures Valid() && nextPage > 0 && dataEnd == SliceEnd(|content|, Min(|content|, offset), most)
      ensures SliceDelivers(content, Min(|content|, offset), dataEnd, Skip(P(), Min(|content|, offset)), want,
                            old(Start(P(), page)), old(gptr), old(egptr), out)
    {
      ghost var p, at, g, e := Min(|content|, offset), Start(P(), page), gptr, egptr;
      Slice(offset, most);
      FileFacts(pages.config, pages.S(), f, content);
      ghost var ahead, position := Ahead(), GetPosition();
      out := Xsgetn(want);
      SliceDelivered(content, p, dataEnd, Skip(P(), p), want, at, g, e, ahead, position, out, Ahead());
    }

    /** From the start of the first page, a read and then a slice behind the end of the file. */
    method ReadThenSlice(first: nat, offset: nat) returns (out: seq<Byte>)
      requires Valid() && nextPage > 0 && Positioned() && Ahead() == content && dataEnd == |content|
      requires page == 0 && gptr == 0 && first <= egptr && offset >= |content|
      modifies this`page, this`gptr, this`egptr, this`nextPage, this`dataEnd, pages
      ensures Valid() && SliceDelivers(content, |content|, |content|, Skip(P(), |content|), 1,
                                       0, first, old(egptr), out)
    {
      ghost var n, e := |content|, egptr;
      var begun := Xsgetn(first);
      assert Start(P(), page) == 0 && gptr == first && egptr == e;
      out := SliceAndRead(offset, 0, 1);
      assert Min(n, offset) == n && dataEnd == n;
    }
  }

  /** After a slice to `p..end`, `skip` bytes into a page, the range is ahead; or else, at the end of the
      data on a page boundary, the old get area, the bytes `g..e` of the page at `at`, still is. */
  ghost predicate Sliced(content: seq<Byte>, p: nat, end: nat, skip: nat, at: nat, g: nat, e: nat,
                         ahead: seq<Byte>, position: nat)
  {
    && p <= end <= |content| && at + e <= |content|
    && if p < end || skip > 0 then ahead == content[p..end] && Lined(ahead, position, content, end)
       else end == |content| && ahead == content[at + Min(g, e)..at + e] && position == end + g
  }

  lemma SoughtIsSliced(P: nat, content: seq<Byte>, p: nat, end: nat, at: nat, g: nat, e: nat,
                       ahead: seq<Byte>, position: nat, area: seq<Byte>)
    requires P > 0 && p <= end <= |content| && at + e <= |content| && (p == end ==> end == |content|)
    requires Skip(P, p) == 0 ==> area == content[at + Min(g, e)..at + e]
    requires Start(P, PageNo(P, p)) < end ==> ahead == content[p..end] && Lined(ahead, position, content, end)
    requires Start(P, PageNo(P, p)) >= end ==> ahead == area && position == p + g
    ensures Sliced(content, p, end, Skip(P, p), at, g, e, ahead, position)
  {
    PageOf(P, p);
  }

  /** What a read of `want` bytes gives after a slice to `p..end`, `skip` bytes into a page, when the get
      area was the bytes `g..e` of the page at `at`. */
  ghost predicate SliceDelivers(content: seq<Byte>, p: nat, end: nat, skip: nat, want: nat,
                                at: nat, g: nat, e: nat, out: seq<Byte>)
  {
    && p <= end <= |content| && at + e <= |content|
    && var range := content[p..p + Min(want, end - p)];
      && (out == range <==> p < end || skip > 0 || g == 0 || g >= e || want == 0)
      && (out != range ==> g < e && out == content[at + g..at + g + Min(want, e - g)])
  }

  lemma SliceDelivered(content: seq<Byte>, p: nat, end: nat, skip: nat, want: nat, at: nat, g: nat, e: nat,
                       ahead: seq<Byte>, position: nat, out: seq<Byte>, rest: seq<Byte>)
    requires Sliced(content, p, end, skip, at, g, e, ahead, position) && |content| < TWO_64
    requires out + rest == ahead && |out| == Min(Min(want, Minus64(|content|, position)), |ahead|)
    ensures SliceDelivers(content, p, end, skip, want, at, g, e, out)
  {
    if p < end || skip > 0 {
      EnoughIsLeft(ahead, position, content, end, want);
      PrefixOf(out, rest, content, p, end);
    } else if g < e {
      StaleLeft(end, g, e, want);
      PrefixOf(out, rest, content, at + g, at + e);
    }
  }

  /** The end of the readable data after `Slice`; size zero means everything up to the end. */
  function SliceEnd(size: nat, begin: nat, most: nat): (end: nat)
    requires begin <= size
  {
    begin + (if most == 0 then size - begin else Min(size - begin, most))
  }

  lemma OpenedIs(c: Config, disk: map<Path, seq<Byte>>, path: Path, flags: Flags)
    requires ConfigOk(c) && path in disk && !flags.createNew && PageNo(c.P, |disk[path]|) < MAX_PAGES
    ensures var (t, r) := OpenFile(PageRuns.Empty(disk), path, flags); r == Opened(0) && FileIs(c, t, 0, disk[path])
  {
    var s := PageRuns.Empty(disk);
    PageRuns.EmptyIsOk(c, disk);
    OpenKeeps(c, s, path, flags);
    UnbufferedIsDisk(c.P, s, path);
    assert IsFile(c, OpenFile(s, path, flags).0, 0, disk[path]);
  }

  /** A file of two bytes in one page: one byte is read, then a slice behind the end of the file, which
      should deliver nothing, delivers the second byte. */
  method SliceBehindTheEnd(one: Byte, two: Byte) returns (out: seq<Byte>)
    ensures out == [two]
  {
    var config, flags := Config(2, 1, [0, 0]), Flags(true, false, false, false, false, false);
    ghost var content := [one, two];
    var disk := map["file" := [one, two]];
    OpenedIs(config, disk, "file", flags);
    var pages := new PageBuffer.FilePageBuffer(config, disk);
    var r := pages.OpenFile("file", flags);
    var stream := new InputFileStreamBuffer(pages, 0, content);
    out := stream.ReadThenSlice(1, 2);
    StaleByte(one, two, out);
  }

  lemma StaleByte(one: Byte, two: Byte, out: seq<Byte>)
    requires SliceDelivers([one, two], 2, 2, Skip(2, 2), 1, 0, 1, 2, out)
    ensures out == [two]
  {
    assert Skip(2, 2) == 0;
  }

  lemma AllOf(content: seq<Byte>)
    ensures Later(content, 0, |content|) == content
  {
  }

  /** The get area `skip` bytes into the page that starts at `at`. */
  lemma AreaAt(P: nat, content: seq<Byte>, buffer: seq<Byte>,
                                  page: nat, at: nat, skip: nat, e: nat, end: nat)
    requires P > 0 && at == Start(P, page) && at + skip <= end <= |content| && skip < P
    requires e == Min(P, end - at) && e <= |buffer| && buffer[..e] == content[at..at + e]
    ensures skip <= e && buffer[skip..e] + Later(content, Start(P, page + 1), end) == content[at + skip..end]
    ensures Lined(content[at + skip..end], at + skip, content, end)
  {
    assert Start(P, page + 1) == at + P;
    SliceOfSlice(buffer, 0, e, skip, e);
    SliceOfSlice(content, at, e, skip, e);
  }

  lemma AreaAhead(P: nat, content: seq<Byte>, buffer: seq<Byte>, next: nat, at: nat, skip: nat, e: nat, end: nat)
    requires P > 0 && next > 0 && at == Start(P, next - 1) && at <= end <= |content| && skip < P
    requires e == Min(P, end - at) && e <= |buffer| && buffer[..e] == content[at..at + e]
    ensures buffer[Min(skip, e)..e] + Later(content, Start(P, next), end) == content[Min(at + skip, end)..end]
    ensures Lined(buffer[Min(skip, e)..e] + Later(content, Start(P, next), end), Start(P, next - 1) + skip,
                  content, end)
  {
    if at + skip <= end {
      AreaAt(P, content, buffer, next - 1, at, skip, e, end);
    } else {
      assert Start(P, next) == at + P;
    }
  }

  lemma AreaTaken(out: seq<Byte>, buffer: seq<Byte>, g: nat, e: nat, later: seq<Byte>, m: nat,
                  content: seq<Byte>, end: nat, position: nat)
    requires g + m <= e <= |buffer| && end <= |content|
    ensures (out + buffer[g..g + m]) + (buffer[g + m..e] + later) == out + (buffer[g..e] + later)
    ensures Lined(buffer[g..e] + later, position, content, end) ==>
      Lined(buffer[g + m..e] + later, position + m, content, end)
  {
    var ahead := buffer[g..e] + later;
    assert buffer[g + m..e] + later == ahead[m..];
    if Lined(ahead, position, content, end) {
      assert content[end - |ahead|..end][m..] == content[end - |ahead| + m..end];
    }
  }

  /** The get area shows the bytes of its page. */
  lemma AreaIsFile(P: nat, s: State, id: FrameId, content: seq<Byte>, at: nat, g: nat, e: nat)
    requires PageShows(P, s, id, content) && at == Start(P, id.page) && g <= e <= s.frames[id].dataSize
    ensures at + e <= |content| && s.frames[id].buffer[g..e] == content[at + g..at + e]
  {
    var frame := s.frames[id];
    OpenPart(P, frame, id.page, content);
    SliceOfSlice(frame.buffer, 0, frame.dataSize, g, e);
    SliceOfSlice(content, at, frame.dataSize, g, e);
  }

  lemma SliceOfSlice<T>(s: seq<T>, at: nat, n: nat, g: nat, e: nat)
    requires g <= e <= n && at + n <= |s|
    ensures s[at..at + n][g..e] == s[at + g..at + e]
  {
    var a, b := s[at..at + n][g..e], s[at + g..at + e];
    assert |a| == |b|;
    forall k | 0 <= k < |a|
      ensures a[k] == b[k]
    {
      assert a[k] == s[at..at + n][g + k];
    }
  }

  /** How far a read may go after a slice to an empty range on a page boundary: the difference of size
      and position wraps around unless the old get area was at its start. */
  lemma StaleLeft(size: nat, g: nat, e: nat, want: nat)
    requires g <= e <= size < TWO_64
    ensures Min(Min(want, Minus64(size, size + g)), e - g) == if g == 0 then 0 else Min(want, e - g)
  {
    if g > 0 {
      WrapsAround(g);
      assert size - (size + g) == -(g as int);
    }
  }

  lemma WrapsAround(g: nat)
    requires 0 < g < TWO_64
    ensures (-(g as int)) % TWO_64 == TWO_64 - g
  {
  }

  lemma PrefixOf(out: seq<Byte>, rest: seq<Byte>, content: seq<Byte>, a: nat, b: nat)
    requires a <= b <= |content| && out + rest == content[a..b]
    ensures |out| <= b - a && out == content[a..a + |out|]
  {
    assert out == (out + rest)[..|out|];
  }

  /** The 64-bit difference never cuts the read short where the stream is positioned. */
  lemma EnoughIsLeft(ahead: seq<Byte>, position: nat, content: seq<Byte>, end: nat, want: nat)
    requires end <= |content| < TWO_64
    ensures Lined(ahead, position, content, end) ==>
      Min(Min(want, Minus64(|content|, position)), |ahead|) == Min(want, |ahead|)
  {
  }

  ghost function Joined<T>(parts: seq<seq<T>>): seq<T> {
    if parts == [] then [] else Joined(parts[..|parts| - 1]) + parts[|parts| - 1]
  }

  /** The sum of the first `i` numbers. */
  ghost function Sum(ns: seq<nat>, i: nat): nat
    requires i <= |ns|
  {
    if i == 0 then 0 else Sum(ns, i - 1) + ns[i - 1]
  }

  lemma JoinedMore<T>(parts: seq<seq<T>>, part: seq<T>)
    ensures Joined(parts + [part]) == Joined(parts) + part
  {
    assert (parts + [part])[..|parts|] == parts;
  }

  /** The pieces are the beginning of what was ahead, as much as was asked for or as there is. */
  ghost predicate Delivered(pieces: seq<seq<Byte>>, rest: seq<Byte>, ahead: seq<Byte>, asked: nat) {
    forall k {:trigger UnfoldPieces(pieces, k)} :: UnfoldPieces(pieces, k) ==>
      Joined(pieces) + rest == ahead && |Joined(pieces)| == Min(asked, |ahead|)
  }

  /** A key to `InputFileStreamBuffer.Ready`. */
  ghost predicate UnfoldReady(ahead: seq<Byte>, k: int) { true }

  /** A key to `Delivered`. */
  ghost predicate UnfoldPieces(pieces: seq<seq<Byte>>, k: int) { true }

  lemma NothingDelivered(ahead: seq<Byte>)
    ensures Delivered([], ahead, ahead, 0)
  {
    assert Joined([]) + ahead == ahead;
  }

  lemma DeliveredMore(pieces: seq<seq<Byte>>, rest: seq<Byte>, piece: seq<Byte>, left: seq<Byte>, ahead: seq<Byte>,
                      asked: nat, want: nat)
    requires Delivered(pieces, rest, ahead, asked) && piece + left == rest && |piece| == Min(want, |rest|)
    ensures Delivered(pieces + [piece], left, ahead, asked + want)
  {
    assert UnfoldPieces(pieces, 0);
    JoinedMore(pieces, piece);
    Regroup(Joined(pieces), piece, left);
  }

  lemma Regroup<T>(a: seq<T>, b: seq<T>, c: seq<T>)
    ensures a + b + c == a + (b + c)
  {
  }

  lemma PartsJoin<T>(s: seq<T>, a: nat, b: nat, d: nat)
    requires a <= b <= d <= |s|
    ensures s[a..b] + s[b..d] == s[a..d]
  {
  }

  lemma PrefixShows(P: nat, s: State, id: FrameId, content: seq<Byte>, n: nat)
    requires PageShows(P, s, id, content) && n <= s.frames[id].dataSize
    ensures Start(P, id.page) + n <= |content|
    ensures s.frames[id].buffer[..n] == content[Start(P, id.page)..Start(P, id.page) + n]
  {
    var frame, at := s.frames[id], Start(P, id.page);
    OpenPart(P, frame, id.page, content);
    assert frame.buffer[..n] == frame.buffer[..frame.dataSize][..n];
    assert content[at..at + n] == content[at..at + frame.dataSize][..n];
  }
}
