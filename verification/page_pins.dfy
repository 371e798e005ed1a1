/** Limits of the page buffer: pins are conserved, how far the capacity holds, and when a write is
    the positional write its caller asked for. */
module PagePins {
  import opened PageState
  import opened PageLaws
  import opened PagePolicy
  import opened PageFiles
  import PageTruncate
  import opened PageRuns

  // ---------------------------------------------------------------------------
  // Pin conservation

  /** Every frame's user count is the number of references held to it. */
  ghost predicate PinsAre(s: State, refs: multiset<FrameId>) {
    forall id :: refs[id] == if id in s.frames then s.frames[id].users else 0
  }

  /** The references held after an operation: `Fix` hands one out, `Release` takes one back. */
  ghost function RefsAfter(s: State, refs: multiset<FrameId>, op: Op): multiset<FrameId> {
    match op
    case Fix(path, page) => if Known(s, path) then refs + multiset{FrameId(s.byName[path], page)} else refs
    case Release(path, page) => if Known(s, path) then refs - multiset{FrameId(s.byName[path], page)} else refs
    case _ => refs
  }

  /** A reference to a page holds the file's latch, so the last reference to the file is not released
      under it.  Any other release only counts down the file's users. */
  ghost predicate NotHeld(s: State, refs: multiset<FrameId>, op: Op) {
    op.Close? && Known(s, op.path) && Closes(s, s.byName[op.path], op.keepDangling) ==>
      forall id :: id in refs ==> id.file != s.byName[op.path]
  }

  lemma PinnedPins(s: State, t: State, refs: multiset<FrameId>, id: FrameId)
    requires PinsAre(s, refs) && Pinned(s, t, id)
    ensures PinsAre(t, refs + multiset{id})
  {
  }

  lemma UnfixPins(s: State, refs: multiset<FrameId>, id: FrameId)
    requires PinsAre(s, refs) && id in s.frames && s.frames[id].users > 0
    ensures PinsAre(Unfix(s, id), refs - multiset{id})
  {
  }

  lemma FixThenUnfix(s: State, t: State, refs: multiset<FrameId>, id: FrameId)
    requires PinsAre(s, refs) && Pinned(s, t, id)
    ensures PinsAre(Unfix(t, id), refs)
  {
    PinnedPins(s, t, refs, id);
    UnfixPins(t, refs + multiset{id}, id);
    assert refs + multiset{id} - multiset{id} == refs;
  }

  lemma ReadPins(c: Config, s: State, f: FileId, n: nat, offset: nat, refs: multiset<FrameId>)
    requires c.P > 0 && Ok(c, s) && f in s.files && PageNo(c.P, offset) < MAX_PAGES && PinsAre(s, refs)
    ensures PinsAre(ReadFile(c, s, f, n, offset).0, refs)
  {
    if ReadMax(s.files[f].size, n, offset) > 0 {
      var page := PageNo(c.P, offset);
      ReadWithin(c, s, f, n, offset);
      FixPins(c, s, f, page);
      FixThenUnfix(s, FixPage(c, s, f, page), refs, FrameId(f, page));
    }
  }

  lemma WritePagePins(c: Config, s: State, f: FileId, data: seq<Byte>, offset: nat, refs: multiset<FrameId>)
    requires Ok(c, s) && CanAccess(c, s, f, offset) && Skip(c.P, offset) + |data| <= c.P && PinsAre(s, refs)
    ensures PinsAre(WritePage(c, s, f, data, offset), refs)
  {
    var id := FrameId(f, PageNo(c.P, offset));
    AccessFixes(c, s, f, offset);
    FixHolds(c, s, f, id.page);
    FixPins(c, s, f, id.page);
    var t := FixPage(c, s, f, id.page);
    PinnedPins(s, t, refs, id);
    var u := Poke(t, id, Skip(c.P, offset), data);
    UnfixPins(u, refs + multiset{id}, id);
    assert refs + multiset{id} - multiset{id} == refs;
  }

  lemma WritePins(c: Config, s: State, f: FileId, data: seq<Byte>, offset: nat, refs: multiset<FrameId>)
    requires c.P > 0 && Ok(c, s) && f in s.files && PageNo(c.P, s.files[f].size) < MAX_PAGES && PinsAre(s, refs)
    requires s.files[f].flags.append ==> CanAccess(c, s, f, offset)
    ensures PinsAre(WriteFile(c, s, f, data, offset).0, refs)
  {
    if s.files[f].flags.write && !GoesToEnd(s.files[f].flags, s.files[f].size, offset) {
      WritePagePins(c, s, f, data[..WriteHere(c.P, |data|, offset)], offset, refs);
    } else {
      AppendOk(c, s, f, data);
      AppendPins(c.P, s, f, data, refs);
    }
  }

  lemma AppendPins(P: nat, s: State, f: FileId, data: seq<Byte>, refs: multiset<FrameId>)
    requires P > 0 && f in s.files && s.files[f].path in s.disk && BuffersOk(P, s) && PinsAre(s, refs)
    ensures PinsAre(Append(P, s, f, data), refs)
  {
  }

  lemma FlushPins(c: Config, s: State, f: FileId, refs: multiset<FrameId>)
    requires Ok(c, s) && f in s.files && PinsAre(s, refs)
    ensures PinsAre(FlushFile(c.P, s, f), refs)
  {
    OpenOk(c, s);
    FlushFileSyncs(c.P, s, f);
    FlushedPins(s, FlushFile(c.P, s, f), s.files[f].pages, refs);
  }

  lemma FlushedPins(s: State, t: State, ids: seq<FrameId>, refs: multiset<FrameId>)
    requires PinsAre(s, refs) && Flushed(s, t, ids)
    ensures PinsAre(t, refs)
  {
  }

  lemma ClosePins(c: Config, s: State, f: FileId, keepDangling: bool, refs: multiset<FrameId>)
    requires Ok(c, s) && f in s.files && s.files[f].users > 0 && PinsAre(s, refs)
    requires Closes(s, f, keepDangling) ==> forall id :: id in refs ==> id.file != f
    ensures PinsAre(PageFiles.Release(c, s, f, keepDangling).0, refs)
  {
    if Closes(s, f, keepDangling) {
      DropPagesKeeps(c, s, f);
      DropPagesEffect(c, s, f);
    }
  }

  /** The user count of every frame is the number of references handed out and not taken back. */
  lemma StepPins(c: Config, s: State, op: Op, refs: multiset<FrameId>)
    requires c.P > 0 && Ok(c, s) && Enabled(c, s, op) && PinsAre(s, refs) && NotHeld(s, refs, op)
    ensures PinsAre(Step(c, s, op).0, RefsAfter(s, refs, op))
  {
    match op
    case Open(path, flags) =>
      NamesAreLive(c, s);
      assert OpenFile(s, path, flags).0.frames == s.frames;
    case Close(path, keepDangling) => ClosePins(c, s, s.byName[path], keepDangling, refs);
    case Read(path, n, offset) => ReadPins(c, s, s.byName[path], n, offset, refs);
    case Write(path, data, offset) => WritePins(c, s, s.byName[path], data, offset, refs);
    case AppendTo(path, data) =>
      AppendOk(c, s, s.byName[path], data);
      AppendPins(c.P, s, s.byName[path], data, refs);
    case Truncate(path, size, fill) =>
    case Flush(path) => FlushPins(c, s, s.byName[path], refs);
    case Fix(path, page) =>
      var id := FrameId(s.byName[path], page);
      FixPins(c, s, id.file, page);
      PinnedPins(s, FixPage(c, s, id.file, page), refs, id);
    case Release(path, page) => UnfixPins(s, refs, FrameId(s.byName[path], page));
  }

  // ---------------------------------------------------------------------------
  // Capacity

  /** What a fix should leave: frames within the capacity, or every other one in use. */
  ghost predicate Roomy(c: Config, s: State, id: FrameId) {
    |s.frames| <= c.capacity || forall k :: k in s.frames && k != id ==> s.frames[k].users > 0
  }

  /** A miss always leaves the buffer roomy.  A hit evicts nothing, so it does exactly if the buffer
      was roomy before. */
  lemma FixIsRoomy(c: Config, s: State, f: FileId, page: nat)
    requires Ok(c, s) && CanFix(c, s, f, page)
    ensures Roomy(c, FixPage(c, s, f, page), FrameId(f, page)) <==>
      FrameId(f, page) !in s.frames || Roomy(c, s, FrameId(f, page))
  {
    FixPins(c, s, f, page);
    var t, id := FixPage(c, s, f, page), FrameId(f, page);
    if id in s.frames {
      assert |t.frames.Keys| == |s.frames.Keys|;
      assert |t.frames| == |t.frames.Keys| && |s.frames| == |s.frames.Keys|;
      assert forall k :: k in t.frames && k != id ==> t.frames[k] == s.frames[k];
    }
  }

  /** A buffer of capacity one whose client fixes two pages at once, releases both and fixes the first
      again. */
  function OverCommit(path: Path, data: seq<Byte>): seq<Op> {
    var flags := Flags(true, true, true, false, true, false);
    [Open(path, flags), AppendTo(path, data)] +
    [Fix(path, 0), Fix(path, 1), Release(path, 0), Release(path, 1), Fix(path, 0)]
  }

  /** From the empty buffer this is a run; at its end the second page is resident, unused and above the
      capacity, although the last operation was a fix. */
  lemma HitCanExceedCapacity(c: Config, path: Path, data: seq<Byte>)
    requires ConfigOk(c) && c.capacity == 1 && |data| >= c.P
    ensures Ok(c, Empty(map[])) && RunEnabled(c, Empty(map[]), OverCommit(path, data))
    ensures !Roomy(c, Run(c, Empty(map[]), OverCommit(path, data)).0, FrameId(0, 0))
  {
    var flags := Flags(true, true, true, false, true, false);
    var start := OpenFile(Empty(map[]), path, flags).0;
    EmptyIsOk(c, map[]);
    OpenedThere(c, path, flags);
    AppendRefines(c, start, 0, data);
    var s := Append(c.P, start, 0, data);
    TwoPages(c, s, data);
    FixesExceed(c, s, path, 0);
    var ops := [Fix(path, 0), Fix(path, 1), Release(path, 0), Release(path, 1), Fix(path, 0)];
    RunCons(c, start, AppendTo(path, data), ops);
    RunCons(c, Empty(map[]), Open(path, flags), [AppendTo(path, data)] + ops);
    assert [Open(path, flags)] + ([AppendTo(path, data)] + ops) == OverCommit(path, data);
  }

  lemma OpenedThere(c: Config, path: Path, flags: Flags)
    requires Ok(c, Empty(map[])) && flags.create && !flags.createNew
    ensures var (t, r) := OpenFile(Empty(map[]), path, flags);
      && Ok(c, t) && r == Opened(0) && t.frames == map[] && t.byName == map[path := 0]
      && t.files == map[0 := BufferedFile(path, flags, 0, 1, [])]
  {
    OpenKeeps(c, Empty(map[]), path, flags);
  }

  /** A file of more than a page, none of it resident. */
  lemma TwoPages(c: Config, s: State, data: seq<Byte>)
    requires c.P > 0 && |data| >= c.P && 0 in s.files && s.files[0].size == |data|
    ensures CanFix(c, s, 0, 0) && CanFix(c, s, 0, 1)
  {
    assert Start(c.P, 1) == Start(c.P, 0) + c.P;
  }

  lemma FixesExceed(c: Config, s: State, path: Path, f: FileId)
    requires c.P > 0 && c.capacity == 1 && Ok(c, s) && s.frames == map[] && Known(s, path) && s.byName[path] == f
    requires CanFix(c, s, f, 0) && CanFix(c, s, f, 1)
    ensures var ops := [Fix(path, 0), Fix(path, 1), Release(path, 0), Release(path, 1), Fix(path, 0)];
      RunEnabled(c, s, ops) && !Roomy(c, Run(c, s, ops).0, FrameId(f, 0))
  {
    var both := FixPage(c, FixPage(c, s, f, 0), f, 1);
    BothFixed(c, s, f);
    ReleasesExceed(c, both, path, f);
    var last := [Release(path, 0), Release(path, 1), Fix(path, 0)];
    RunCons(c, FixPage(c, s, f, 0), Fix(path, 1), last);
    RunCons(c, s, Fix(path, 0), [Fix(path, 1)] + last);
    assert [Fix(path, 0)] + ([Fix(path, 1)] + last) ==
      [Fix(path, 0), Fix(path, 1), Release(path, 0), Release(path, 1), Fix(path, 0)];
  }

  lemma BothFixed(c: Config, s: State, f: FileId)
    requires Ok(c, s) && s.frames == map[] && CanFix(c, s, f, 0) && CanFix(c, s, f, 1)
    ensures var one := FixPage(c, s, f, 0); var both := FixPage(c, one, f, 1);
      && Ok(c, one) && one.byName == s.byName && SameFiles(s, one) && CanFix(c, one, f, 1)
      && Ok(c, both) && both.byName == s.byName && SameFiles(s, both) && CanFix(c, both, f, 0)
      && UsersOf(both, FrameId(f, 0)) == 1 && UsersOf(both, FrameId(f, 1)) == 1
  {
    var one := FixPage(c, s, f, 0);
    FixKeeps(c, s, f, 0);
    FixPins(c, s, f, 0);
    FixKeeps(c, one, f, 1);
    FixPins(c, one, f, 1);
  }

  function UsersOf(s: State, id: FrameId): nat { if id in s.frames then s.frames[id].users else 0 }

  lemma ReleasesExceed(c: Config, both: State, path: Path, f: FileId)
    requires c.P > 0 && c.capacity == 1 && Ok(c, both) && Known(both, path) && both.byName[path] == f
    requires UsersOf(both, FrameId(f, 0)) == 1 && UsersOf(both, FrameId(f, 1)) == 1 && CanFix(c, both, f, 0)
    ensures var ops := [Release(path, 0), Release(path, 1), Fix(path, 0)];
      RunEnabled(c, both, ops) && !Roomy(c, Run(c, both, ops).0, FrameId(f, 0))
  {
    var id, other := FrameId(f, 0), FrameId(f, 1);
    var one := Unfix(both, id);
    UnfixRefines(c, both, id);
    var none := Unfix(one, other);
    UnfixRefines(c, one, other);
    var last := Touch(none, id);
    NowExceeds(c, last, id, other);
    FixKeeps(c, none, f, 0);
    RunCons(c, none, Fix(path, 0), []);
    RunCons(c, one, Release(path, 1), [Fix(path, 0)]);
    RunCons(c, both, Release(path, 0), [Release(path, 1)] + [Fix(path, 0)]);
    assert [Release(path, 0)] + ([Release(path, 1)] + ([Fix(path, 0)] + [])) ==
      [Release(path, 0), Release(path, 1), Fix(path, 0)];
  }

  lemma NowExceeds(c: Config, s: State, id: FrameId, other: FrameId)
    requires c.capacity == 1 && id != other && id in s.frames && other in s.frames && s.frames[other].users == 0
    ensures !Roomy(c, s, id)
  {
    TwoKeys(s.frames, id, other);
  }

  lemma TwoKeys<K, V>(m: map<K, V>, a: K, b: K)
    requires a in m && b in m && a != b
    ensures |m| >= 2
  {
    assert {a, b} <= m.Keys;
    assert |m.Keys| == |m.Keys - {a, b}| + |{a, b}|;
  }

  // ---------------------------------------------------------------------------
  // Truncating

  /** A file of more than a page is written and its first page fixed.  Truncating it to the size that
      it has makes the page claim more bytes than its buffer holds. */
  lemma TruncateOverruns(c: Config, path: Path, data: seq<Byte>)
    requires ConfigOk(c) && |data| > c.P
    ensures Ok(c, Empty(map[]))
    ensures var ops := [Open(path, Flags(true, true, true, false, true, false)), AppendTo(path, data), Fix(path, 0)];
      && RunEnabled(c, Empty(map[]), ops)
      && var t, id := Run(c, Empty(map[]), ops).0, FrameId(0, 0);
         && 0 in t.files && t.files[0].size == |data| && id in t.frames && |t.frames[id].buffer| == c.P
         && PageTruncate.Truncate(c.P, t, 0, |data|, []).frames[id].dataSize == |data|
  {
    var flags := Flags(true, true, true, false, true, false);
    var start := OpenFile(Empty(map[]), path, flags).0;
    EmptyIsOk(c, map[]);
    OpenedThere(c, path, flags);
    AppendRefines(c, start, 0, data);
    var s := Append(c.P, start, 0, data);
    TwoPages(c, s, data);
    FixKeeps(c, s, 0, 0);
    HeldFrame(c, FixPage(c, s, 0, 0), FrameId(0, 0));
    RunCons(c, s, Fix(path, 0), []);
    RunCons(c, start, AppendTo(path, data), [Fix(path, 0)]);
    RunCons(c, Empty(map[]), Open(path, flags), [AppendTo(path, data)] + [Fix(path, 0)]);
    assert [Open(path, flags)] + ([AppendTo(path, data)] + ([Fix(path, 0)] + [])) ==
      [Open(path, flags), AppendTo(path, data), Fix(path, 0)];
  }

  // ---------------------------------------------------------------------------
  // Reopening

  /** A file that is read, and then opened again to be written from scratch.  The disk is empty
      afterwards, but the directory still has the old size: a page fixed now has as many bytes as
      before, and they are those that its new buffer happened to hold. */
  lemma ReopenReadsBlank(c: Config, path: Path, data: seq<Byte>)
    requires ConfigOk(c) && 0 < |data| <= c.P
    ensures var readIt := Flags(true, false, false, false, false, false);
      var s := OpenFile(Empty(map[path := data]), path, readIt).0;
      var (t, r) := OpenFile(s, path, Flags(false, true, false, false, false, true));
      && r == Opened(0) && t.disk == map[path := []] && CanFix(c, t, 0, 0)
      && FixPage(c, t, 0, 0).frames == map[FrameId(0, 0) := Frame(c.blank, |data|, 1, false)]
  {
    var s := OpenFile(Empty(map[path := data]), path, Flags(true, false, false, false, false, false)).0;
    var t := OpenFile(s, path, Flags(false, true, false, false, false, true)).0;
    assert s.files == map[0 := BufferedFile(path, Flags(true, false, false, false, false, false), |data|, 1, [])];
    assert Stored([], 0, |data|) == [] && Splice(c.blank, 0, []) == c.blank;
    assert AllocateFrameBuffer(c, t) == (t, c.blank);
  }

  /** A file opened again to be written stays as it was opened first: every write is refused. */
  lemma ReopenedIsReadOnly(c: Config, s: State, path: Path, flags: Flags, op: Op)
    requires c.P > 0 && Ok(c, s) && Enabled(c, s, Open(path, flags))
    requires Known(s, path) && Reopens(s.files[s.byName[path]].flags, flags)
    requires op.path == path && (op.Write? || op.AppendTo?)
    ensures var (t, out) := Step(c, s, Open(path, flags));
      && out == Done && Ok(c, t)
      && (Enabled(c, t, op) ==> Step(c, t, op) == (t, Refused))
  {
    StepRefines(c, s, Open(path, flags));
  }

  // ---------------------------------------------------------------------------
  // Positional writes

  /** A non-empty write within the file does what a positional write of the reported count does,
      exactly if it is at the end of the file, or the file is open for appending and the bytes
      reported as written lie within it.  A file not open for appending gets the bytes at its end
      (line 557), and bytes written in place past the end are lost though they are counted. */
  lemma WriteIsPositional(P: nat, m: Plain, path: Path, data: seq<Byte>, offset: nat)
    requires P > 0 && PlainEnabled(m, Write(path, data, offset)) && m.handles[path].flags.write
    requires data != [] && offset <= |m.files[path]|
    ensures var content := m.files[path]; var (n, out) := PlainWrite(P, m, path, data, offset);
      && out.Count? && 0 < out.n <= |data|
      && (n.files[path] == Splice(content, offset, data[..out.n]) <==>
           offset == |content| || (m.handles[path].flags.append && offset + out.n <= |content|))
  {
    var content := m.files[path];
    if GoesToEnd(m.handles[path].flags, |content|, offset) {
      assert data[..|data|] == data;
      if offset == |content| {
        assert Splice(content, offset, data) == content + data;
      } else {
        assert |content + data| > |Splice(content, offset, data)|;
      }
    } else {
      var here := data[..WriteHere(P, |data|, offset)];
      if offset + |here| <= |content| {
        assert here[..Min(|here|, |content| - offset)] == here;
      } else {
        assert |WrittenAt(content, offset, here)| < |Splice(content, offset, here)|;
      }
    }
  }
}
