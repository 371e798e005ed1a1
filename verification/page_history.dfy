/** The replacement policy and the pins over whole runs: the queues mean what the record of all fixes
    says, every eviction takes the oldest frame nobody uses, and no reference is lost. */
module PageHistory {
  import opened Wrappers
  import opened PageState
  import opened PageLaws
  import opened PagePolicy
  import opened PageFiles
  import opened PageQueues
  import PageTruncate
  import opened PageRuns
  import opened PagePins

  // ---------------------------------------------------------------------------
  // The record of the fixes

  /** The page that a read fixes: none if there is nothing to read. */
  function FixedByRead(P: nat, size: nat, f: FileId, n: nat, offset: nat): Option<FrameId>
    requires P > 0
  {
    if ReadMax(size, n, offset) == 0 then None else Some(FrameId(f, PageNo(P, offset)))
  }

  /** The page that a write fixes: none if it is refused or goes to the end of the file. */
  function FixedByWrite(P: nat, flags: Flags, size: nat, f: FileId, offset: nat): Option<FrameId>
    requires P > 0
  {
    if !flags.write || GoesToEnd(flags, size, offset) then None else Some(FrameId(f, PageNo(P, offset)))
  }

  ghost function FixedBy(c: Config, s: State, op: Op): Option<FrameId>
    requires Enabled(c, s, op)
  {
    match op
    case Read(path, n, offset) => FixedByRead(c.P, s.files[s.byName[path]].size, s.byName[path], n, offset)
    case Write(path, _, offset) =>
      FixedByWrite(c.P, s.files[s.byName[path]].flags, s.files[s.byName[path]].size, s.byName[path], offset)
    case Fix(path, page) => Some(FrameId(s.byName[path], page))
    case _ => None
  }

  /** The record goes on: the fix, if there was one, is entered, and the frames that left are struck. */
  function Recorded(h: History, frames: set<FrameId>, fixed: Option<FrameId>): History {
    match fixed
    case Some(id) => Fixed(h, frames, id)
    case None => Forget(h, frames)
  }

  ghost function HistoryAfter(c: Config, s: State, h: History, op: Op): History
    requires Ok(c, s) && Enabled(c, s, op)
  {
    Recorded(h, Step(c, s, op).0.frames.Keys, FixedBy(c, s, op))
  }

  // ---------------------------------------------------------------------------
  // What the single operations do to the queues

  lemma UsersTwoQ(s: State, h: History, f: FileId, n: nat)
    requires TwoQ(s, h) && f in s.files
    ensures TwoQ(SetUsers(s, f, n), h)
  {
    OpenTwoQ(s, h);
  }

  lemma OpenKeepsTwoQ(s: State, h: History, path: Path, flags: Flags)
    requires TwoQ(s, h) && IdsOk(s)
    ensures TwoQ(OpenFile(s, path, flags).0, h)
  {
    OpenTwoQ(s, h);
    OpenQueues(s, path, flags);
  }

  lemma OpenQueues(s: State, path: Path, flags: Flags)
    ensures var t := OpenFile(s, path, flags).0; t.frames == s.frames && t.fifo == s.fifo && t.lru == s.lru
  {
  }

  lemma CloseTwoQ(s: State, h: History, f: FileId)
    requires TwoQ(s, h) && f in s.files
    ensures TwoQ(CloseFile(s, f), h)
  {
    OpenTwoQ(s, h);
  }

  lemma AppendFrames(P: nat, s: State, f: FileId, data: seq<Byte>)
    requires P > 0 && BuffersOk(P, s) && f in s.files && s.files[f].path in s.disk
    ensures Append(P, s, f, data).frames.Keys == s.frames.Keys
  {
  }

  lemma AppendTwoQ(c: Config, s: State, h: History, f: FileId, data: seq<Byte>)
    requires c.P > 0 && TwoQ(s, h) && BuffersOk(c.P, s) && f in s.files && s.files[f].path in s.disk
    ensures TwoQ(Append(c.P, s, f, data), h)
  {
    OpenTwoQ(s, h);
    assert Append(c.P, s, f, data).frames.Keys == s.frames.Keys;
  }

  lemma PokeTwoQ(s: State, h: History, id: FrameId, skip: nat, data: seq<Byte>)
    requires TwoQ(s, h) && id in s.frames && skip + |data| <= |s.frames[id].buffer|
    ensures TwoQ(Poke(s, id, skip, data), h)
  {
    OpenTwoQ(s, h);
    assert Poke(s, id, skip, data).frames.Keys == s.frames.Keys;
  }

  lemma UnfixOk(c: Config, s: State, h: History, id: FrameId)
    requires Ok(c, s) && TwoQ(s, h) && id in s.frames && s.frames[id].users > 0
    ensures Ok(c, Unfix(s, id)) && TwoQ(Unfix(s, id), h)
  {
    UnfixRefines(c, s, id);
    OpenTwoQ(s, h);
    assert Unfix(s, id).frames.Keys == s.frames.Keys;
  }

  lemma DropTwoQ(s: State, h: History, id: FrameId)
    requires TwoQ(s, h) && id in s.frames && id.file in s.files
    ensures TwoQ(DropFrame(s, id), Forget(h, DropFrame(s, id).frames.Keys))
  {
    assert DropFrame(s, id).frames.Keys == s.frames.Keys - {id};
    RemovedKeepsTwoQ(s, DropFrame(s, id), h, id);
  }

  lemma FlushFrameTwoQ(P: nat, s: State, h: History, id: FrameId)
    requires TwoQ(s, h) && id in s.frames
    ensures TwoQ(FlushFrame(P, s, id), h)
  {
    OpenTwoQ(s, h);
    FlushEffect(P, s, id);
    assert FlushFrame(P, s, id).frames.Keys == s.frames.Keys;
  }

  lemma ReleaseTwoQ(c: Config, s: State, h: History, f: FileId, keepDangling: bool)
    requires TwoQ(s, h) && f in s.files && s.files[f].users > 0
    ensures var t := PageFiles.Release(c, s, f, keepDangling).0; TwoQ(t, Forget(h, t.frames.Keys))
  {
    if Closes(s, f, keepDangling) {
      DropPagesKeepsTwoQ(c, s, h, f);
      var t := DropPages(c, s, f);
      if f in t.files {
        CloseTwoQ(t, Forget(h, t.frames.Keys), f);
      }
    } else {
      ForgetNone(s, h);
      UsersTwoQ(s, h, f, s.files[f].users - 1);
    }
  }

  lemma FlushTwoQ(c: Config, s: State, h: History, f: FileId)
    requires Ok(c, s) && TwoQ(s, h) && f in s.files
    ensures var t := FlushFile(c.P, s, f); t.frames.Keys == s.frames.Keys && TwoQ(t, h)
  {
    OpenOk(c, s);
    FlushFileSyncs(c.P, s, f);
    OpenTwoQ(s, h);
  }

  lemma ReadTwoQ(c: Config, s: State, h: History, f: FileId, n: nat, offset: nat)
    requires c.P > 0 && Ok(c, s) && TwoQ(s, h) && f in s.files && PageNo(c.P, offset) < MAX_PAGES
    ensures var t := ReadFile(c, s, f, n, offset).0;
      TwoQ(t, Recorded(h, t.frames.Keys, FixedByRead(c.P, s.files[f].size, f, n, offset)))
  {
    if ReadMax(s.files[f].size, n, offset) == 0 {
      ForgetNone(s, h);
    } else {
      var id := FrameId(f, PageNo(c.P, offset));
      ReadWithin(c, s, f, n, offset);
      FixKeepsTwoQ(c, s, h, f, id.page);
      FixKeeps(c, s, f, id.page);
      var t := FixPage(c, s, f, id.page);
      UnfixOk(c, t, Fixed(h, t.frames.Keys, id), id);
      assert Unfix(t, id).frames.Keys == t.frames.Keys;
    }
  }

  lemma WritePageTwoQ(c: Config, s: State, h: History, f: FileId, data: seq<Byte>, offset: nat)
    requires Ok(c, s) && TwoQ(s, h) && CanAccess(c, s, f, offset) && Skip(c.P, offset) + |data| <= c.P
    ensures var t := WritePage(c, s, f, data, offset);
      TwoQ(t, Fixed(h, t.frames.Keys, FrameId(f, PageNo(c.P, offset))))
  {
    var id, skip := FrameId(f, PageNo(c.P, offset)), Skip(c.P, offset);
    AccessFixes(c, s, f, offset);
    FixHolds(c, s, f, id.page);
    FixWrites(c, s, f, offset, data);
    FixKeepsTwoQ(c, s, h, f, id.page);
    var t := FixPage(c, s, f, id.page);
    var g := Fixed(h, t.frames.Keys, id);
    PokeTwoQ(t, g, id, skip, data);
    var u := Poke(t, id, skip, data);
    UnfixOk(c, u, g, id);
    assert Unfix(u, id).frames.Keys == t.frames.Keys;
  }

  lemma WriteTwoQ(c: Config, s: State, h: History, f: FileId, data: seq<Byte>, offset: nat)
    requires c.P > 0 && Ok(c, s) && TwoQ(s, h) && f in s.files && PageNo(c.P, s.files[f].size) < MAX_PAGES
    requires s.files[f].flags.append ==> CanAccess(c, s, f, offset)
    ensures var t := WriteFile(c, s, f, data, offset).0;
      TwoQ(t, Recorded(h, t.frames.Keys, FixedByWrite(c.P, s.files[f].flags, s.files[f].size, f, offset)))
  {
    ForgetNone(s, h);
    if s.files[f].flags.write {
      if GoesToEnd(s.files[f].flags, s.files[f].size, offset) {
        AppendOk(c, s, f, data);
        AppendTwoQ(c, s, h, f, data);
        assert Append(c.P, s, f, data).frames.Keys == s.frames.Keys;
      } else {
        WritePageTwoQ(c, s, h, f, data[..WriteHere(c.P, |data|, offset)], offset);
      }
    }
  }

  lemma TruncateTwoQ(P: nat, s: State, h: History, f: FileId, size: nat, fill: seq<Byte>)
    requires TwoQ(s, h) && f in s.files
    ensures TwoQ(PageTruncate.Truncate(P, s, f, size, fill), h)
  {
    OpenTwoQ(s, h);
  }

  lemma StepKeepsTwoQ(c: Config, s: State, h: History, op: Op)
    requires c.P > 0 && Ok(c, s) && TwoQ(s, h) && Enabled(c, s, op)
    ensures TwoQ(Step(c, s, op).0, HistoryAfter(c, s, h, op))
  {
    NamesAreLive(c, s);
    StaysRecorded(c, s, h, op);
    match op
    case Open(path, flags) => OpenKeepsTwoQ(s, h, path, flags);
    case Close(path, keepDangling) => ReleaseTwoQ(c, s, h, s.byName[path], keepDangling);
    case Read(path, n, offset) => ReadTwoQ(c, s, h, s.byName[path], n, offset);
    case Write(path, data, offset) => WriteTwoQ(c, s, h, s.byName[path], data, offset);
    case AppendTo(path, data) =>
      AppendOk(c, s, s.byName[path], data);
      AppendTwoQ(c, s, h, s.byName[path], data);
    case Truncate(path, size, fill) => TruncateTwoQ(c.P, s, h, s.byName[path], size, fill);
    case Flush(path) => FlushTwoQ(c, s, h, s.byName[path]);
    case Fix(path, page) => FixKeepsTwoQ(c, s, h, s.byName[path], page);
    case Release(path, page) => UnfixOk(c, s, h, FrameId(s.byName[path], page));
  }

  /** Operations that neither fix a page nor drop one leave the record alone. */
  lemma StaysRecorded(c: Config, s: State, h: History, op: Op)
    requires Ok(c, s) && TwoQ(s, h) && Enabled(c, s, op)
    ensures op.Open? || op.AppendTo? || op.Truncate? || op.Flush? || op.Release? ==> HistoryAfter(c, s, h, op) == h
  {
    NamesAreLive(c, s);
    ForgetNone(s, h);
    match op
    case Open(path, flags) => OpenQueues(s, path, flags);
    case AppendTo(path, data) =>
      AppendOk(c, s, s.byName[path], data);
      AppendFrames(c.P, s, s.byName[path], data);
    case Flush(path) => FlushTwoQ(c, s, h, s.byName[path]);
    case Release(path, page) => assert Unfix(s, FrameId(s.byName[path], page)).frames.Keys == s.frames.Keys;
    case _ =>
  }

  // ---------------------------------------------------------------------------
  // Evictions

  /** Whatever is evicted to make room is, in its turn, the oldest frame nobody uses; and the evictions
      stop above the capacity only if every frame is in use. */
  ghost predicate EvictsOldest(c: Config, s: State, h: History)
    decreases |s.frames|
  {
    |s.frames| >= c.capacity ==>
      if Victim(s).None? then forall id :: id in s.frames ==> s.frames[id].users > 0
      else
        var t := Evict(c.P, s, Victim(s).value);
        && OldestUnused(s, h, Victim(s).value)
        && |t.frames| < |s.frames| && EvictsOldest(c, t, Forget(h, t.frames.Keys))
  }

  lemma {:induction false} MakeRoomEvictsOldest(c: Config, s: State, h: History)
    requires Ok(c, s) && TwoQ(s, h)
    ensures EvictsOldest(c, s, h)
    decreases |s.frames|
  {
    OldestVictim(c, s, h);
    if |s.frames| >= c.capacity && Victim(s).Some? {
      var v := Victim(s).value;
      EvictKeeps(c, s, v);
      RemovedKeepsTwoQ(s, Evict(c.P, s, v), h, v);
      MakeRoomEvictsOldest(c, Evict(c.P, s, v), Forget(h, Evict(c.P, s, v).frames.Keys));
    }
  }

  lemma OldestVictim(c: Config, s: State, h: History)
    requires Ok(c, s) && TwoQ(s, h)
    ensures Victim(s).None? ==> forall id :: id in s.frames ==> s.frames[id].users > 0
    ensures Victim(s).Some? ==> OldestUnused(s, h, Victim(s).value)
  {
    OpenOk(c, s);
    OpenTwoQ(s, h);
    VictimIsTheOldest(c.P, s, h);
  }

  // ---------------------------------------------------------------------------
  // Runs

  ghost function RunHistory(c: Config, s: State, h: History, ops: seq<Op>): History
    requires c.P > 0 && Ok(c, s) && RunEnabled(c, s, ops)
    decreases |ops|
  {
    if ops == [] then h
    else
      StepRefines(c, s, ops[0]);
      RunHistory(c, Step(c, s, ops[0]).0, HistoryAfter(c, s, h, ops[0]), ops[1..])
  }

  /** Every miss of the run evicts the oldest frames, told by the record at that point of the run. */
  ghost predicate RunEvictsOldest(c: Config, s: State, h: History, ops: seq<Op>)
    requires c.P > 0 && Ok(c, s) && RunEnabled(c, s, ops)
    decreases |ops|
  {
    if ops == [] then true
    else
      var fixed := FixedBy(c, s, ops[0]);
      StepRefines(c, s, ops[0]);
      && (fixed.Some? && fixed.value !in s.frames ==> EvictsOldest(c, s, h))
      && RunEvictsOldest(c, Step(c, s, ops[0]).0, HistoryAfter(c, s, h, ops[0]), ops[1..])
  }

  /** The references held after the run. */
  ghost function RunRefs(c: Config, s: State, refs: multiset<FrameId>, ops: seq<Op>): multiset<FrameId>
    requires c.P > 0 && Ok(c, s) && RunEnabled(c, s, ops)
    decreases |ops|
  {
    if ops == [] then refs
    else
      StepRefines(c, s, ops[0]);
      RunRefs(c, Step(c, s, ops[0]).0, RefsAfter(s, refs, ops[0]), ops[1..])
  }

  /** No file leaves the buffer while one of its pages is held. */
  ghost predicate NeverHeld(c: Config, s: State, refs: multiset<FrameId>, ops: seq<Op>)
    requires c.P > 0 && Ok(c, s) && RunEnabled(c, s, ops)
    decreases |ops|
  {
    if ops == [] then true
    else
      StepRefines(c, s, ops[0]);
      NotHeld(s, refs, ops[0]) && NeverHeld(c, Step(c, s, ops[0]).0, RefsAfter(s, refs, ops[0]), ops[1..])
  }

  lemma {:induction false} RunKeepsTwoQ(c: Config, s: State, h: History, ops: seq<Op>)
    requires c.P > 0 && Ok(c, s) && TwoQ(s, h) && RunEnabled(c, s, ops)
    ensures TwoQ(Run(c, s, ops).0, RunHistory(c, s, h, ops)) && RunEvictsOldest(c, s, h, ops)
    decreases |ops|
  {
    if ops != [] {
      StepRefines(c, s, ops[0]);
      StepKeepsTwoQ(c, s, h, ops[0]);
      MakeRoomEvictsOldest(c, s, h);
      RunKeepsTwoQ(c, Step(c, s, ops[0]).0, HistoryAfter(c, s, h, ops[0]), ops[1..]);
    }
  }

  lemma {:induction false} RunKeepsPins(c: Config, s: State, refs: multiset<FrameId>, ops: seq<Op>)
    requires c.P > 0 && Ok(c, s) && PinsAre(s, refs) && RunEnabled(c, s, ops) && NeverHeld(c, s, refs, ops)
    ensures PinsAre(Run(c, s, ops).0, RunRefs(c, s, refs, ops))
    decreases |ops|
  {
    if ops != [] {
      StepRefines(c, s, ops[0]);
      StepPins(c, s, ops[0], refs);
      RunKeepsPins(c, Step(c, s, ops[0]).0, RefsAfter(s, refs, ops[0]), ops[1..]);
    }
  }

  // ---------------------------------------------------------------------------
  // Capacity

  /** The pages held, each counted once, with the one that is fixed. */
  ghost function HeldWith(refs: multiset<FrameId>, id: FrameId): set<FrameId> {
    (set k | k in refs) + {id}
  }

  /** At every fix of the run, the pages held at once are no more than the capacity. */
  ghost predicate FewHeld(c: Config, s: State, refs: multiset<FrameId>, ops: seq<Op>)
    requires c.P > 0 && Ok(c, s) && RunEnabled(c, s, ops)
    decreases |ops|
  {
    if ops == [] then true
    else
      var fixed := FixedBy(c, s, ops[0]);
      StepRefines(c, s, ops[0]);
      && (fixed.Some? ==> |HeldWith(refs, fixed.value)| <= c.capacity)
      && FewHeld(c, Step(c, s, ops[0]).0, RefsAfter(s, refs, ops[0]), ops[1..])
  }

  /** The frames are within the capacity after every operation of the run. */
  ghost predicate RunWithin(c: Config, s: State, ops: seq<Op>)
    requires c.P > 0 && Ok(c, s) && RunEnabled(c, s, ops)
    decreases |ops|
  {
    if ops == [] then true
    else
      StepRefines(c, s, ops[0]);
      var t := Step(c, s, ops[0]).0;
      |t.frames| <= c.capacity && RunWithin(c, t, ops[1..])
  }

  lemma FewerKeys<K, V>(m: map<K, V>, n: map<K, V>)
    requires m.Keys <= n.Keys
    ensures |m| <= |n|
  {
    FewerElements(m.Keys, n.Keys);
  }

  lemma FewerElements<K>(a: set<K>, b: set<K>)
    requires a <= b
    ensures |a| <= |b|
  {
    assert b == a + (b - a);
  }

  /** With few frames before a fix, there are few after it exactly if few pages are held. */
  lemma FixFits(c: Config, s: State, f: FileId, page: nat, refs: multiset<FrameId>)
    requires Ok(c, s) && CanFix(c, s, f, page) && PinsAre(s, refs) && |s.frames| <= c.capacity
    ensures |FixPage(c, s, f, page).frames| <= c.capacity <==> |HeldWith(refs, FrameId(f, page))| <= c.capacity
  {
    var t, id := FixPage(c, s, f, page), FrameId(f, page);
    FixPins(c, s, f, page);
    HeldAreResident(s, t, refs, id);
    FewerElements(HeldWith(refs, id), t.frames.Keys);
    if id in s.frames {
      FewerKeys(t.frames, s.frames);
    } else if |t.frames| > c.capacity {
      ResidentAreHeld(s, t, refs, id);
      FewerElements(t.frames.Keys, HeldWith(refs, id));
    }
  }

  lemma HeldAreResident(s: State, t: State, refs: multiset<FrameId>, id: FrameId)
    requires PinsAre(s, refs) && Pinned(s, t, id)
    ensures HeldWith(refs, id) <= t.frames.Keys
  {
    forall k | k in HeldWith(refs, id)
      ensures k in t.frames
    {
      if k != id { assert refs[k] > 0; }
    }
  }

  lemma ResidentAreHeld(s: State, t: State, refs: multiset<FrameId>, id: FrameId)
    requires PinsAre(s, refs) && Pinned(s, t, id)
    requires forall k :: k in t.frames && k != id ==> t.frames[k].users > 0
    ensures t.frames.Keys <= HeldWith(refs, id)
  {
    forall k | k in t.frames
      ensures k in HeldWith(refs, id)
    {
      if k != id { assert refs[k] == s.frames[k].users; }
    }
  }

  /** Operations that fix no page load none. */
  lemma NothingLoaded(c: Config, s: State, op: Op)
    requires c.P > 0 && Ok(c, s) && Enabled(c, s, op) && FixedBy(c, s, op).None?
    ensures Step(c, s, op).0.frames.Keys <= s.frames.Keys
  {
    NamesAreLive(c, s);
    match op
    case Open(path, flags) => OpenQueues(s, path, flags);
    case Close(path, keepDangling) => DropPagesEffect(c, s, s.byName[path]);
    case Read(path, n, offset) =>
    case Write(path, data, offset) => AppendedFrames(c, s, s.byName[path], data);
    case AppendTo(path, data) => AppendedFrames(c, s, s.byName[path], data);
    case Truncate(path, size, fill) =>
    case Flush(path) =>
      OpenOk(c, s);
      FlushFileSyncs(c.P, s, s.byName[path]);
    case Release(path, page) => assert Unfix(s, FrameId(s.byName[path], page)).frames.Keys == s.frames.Keys;
  }

  lemma AppendedFrames(c: Config, s: State, f: FileId, data: seq<Byte>)
    requires c.P > 0 && Ok(c, s) && f in s.files && PageNo(c.P, s.files[f].size) < MAX_PAGES
    ensures BuffersOk(c.P, s) && s.files[f].path in s.disk && Append(c.P, s, f, data).frames.Keys == s.frames.Keys
  {
    AppendOk(c, s, f, data);
    AppendFrames(c.P, s, f, data);
  }

  /** A page that is fixed is loaded, and no other. */
  lemma OnePageLoaded(c: Config, s: State, op: Op)
    requires c.P > 0 && Ok(c, s) && Enabled(c, s, op) && FixedBy(c, s, op).Some?
    ensures var id := FixedBy(c, s, op).value;
      && CanFix(c, s, id.file, id.page)
      && Step(c, s, op).0.frames.Keys == FixPage(c, s, id.file, id.page).frames.Keys
  {
    match op
    case Read(path, n, offset) => ReadWithin(c, s, s.byName[path], n, offset);
    case Write(path, data, offset) =>
      var f, here := s.byName[path], data[..WriteHere(c.P, |data|, offset)];
      AccessFixes(c, s, f, offset);
      FixHolds(c, s, f, PageNo(c.P, offset));
      PokedFrames(FixPage(c, s, f, PageNo(c.P, offset)), FrameId(f, PageNo(c.P, offset)), Skip(c.P, offset), here);
    case Fix(path, page) =>
  }

  lemma PokedFrames(s: State, id: FrameId, skip: nat, data: seq<Byte>)
    requires id in s.frames && s.frames[id].users > 0 && skip + |data| <= |s.frames[id].buffer|
    ensures Unfix(Poke(s, id, skip, data), id).frames.Keys == s.frames.Keys
  {
  }

  lemma StepFits(c: Config, s: State, refs: multiset<FrameId>, op: Op)
    requires c.P > 0 && Ok(c, s) && Enabled(c, s, op) && PinsAre(s, refs) && |s.frames| <= c.capacity
    ensures |Step(c, s, op).0.frames| <= c.capacity <==>
      (FixedBy(c, s, op).Some? ==> |HeldWith(refs, FixedBy(c, s, op).value)| <= c.capacity)
  {
    var t, fixed := Step(c, s, op).0, FixedBy(c, s, op);
    if fixed.None? {
      NothingLoaded(c, s, op);
      FewerKeys(t.frames, s.frames);
    } else {
      var id := fixed.value;
      OnePageLoaded(c, s, op);
      FixFits(c, s, id.file, id.page, refs);
      var u := FixPage(c, s, id.file, id.page);
      FewerKeys(t.frames, u.frames);
      FewerKeys(u.frames, t.frames);
    }
  }

  /** The capacity holds after every operation of a run exactly if its client, at every fix, holds no
      more pages at once than the capacity. */
  lemma {:induction false} RunFits(c: Config, s: State, refs: multiset<FrameId>, ops: seq<Op>)
    requires c.P > 0 && Ok(c, s) && PinsAre(s, refs) && |s.frames| <= c.capacity
    requires RunEnabled(c, s, ops) && NeverHeld(c, s, refs, ops)
    ensures RunWithin(c, s, ops) <==> FewHeld(c, s, refs, ops)
    decreases |ops|
  {
    if ops != [] {
      StepRefines(c, s, ops[0]);
      StepPins(c, s, ops[0], refs);
      StepFits(c, s, refs, ops[0]);
      if |Step(c, s, ops[0]).0.frames| <= c.capacity {
        RunFits(c, Step(c, s, ops[0]).0, RefsAfter(s, refs, ops[0]), ops[1..]);
      }
    }
  }

  lemma EmptyIsInOrder(disk: map<Path, seq<Byte>>)
    ensures TwoQ(Empty(disk), History(0, map[])) && PinsAre(Empty(disk), multiset{})
  {
  }

  /** Every run from the empty buffer: at its end the FIFO queue holds the frames that the record says
      were fixed once since they were loaded, in load order, and the LRU queue the others, in the order
      of their last fixes; every eviction on the way took the oldest frame nobody used; every user count
      is the number of references handed out and not taken back; and the frames stayed within the
      capacity throughout exactly if the pages held at once did. */
  lemma RunFromEmpty(c: Config, disk: map<Path, seq<Byte>>, ops: seq<Op>)
    requires ConfigOk(c) && Ok(c, Empty(disk)) && RunEnabled(c, Empty(disk), ops)
    ensures var t, h := Run(c, Empty(disk), ops).0, RunHistory(c, Empty(disk), History(0, map[]), ops);
      && QueuesMean(t, h) && QueuesOk(t)
      && RunEvictsOldest(c, Empty(disk), History(0, map[]), ops)
      && (NeverHeld(c, Empty(disk), multiset{}, ops) ==>
           && PinsAre(t, RunRefs(c, Empty(disk), multiset{}, ops))
           && (RunWithin(c, Empty(disk), ops) <==> FewHeld(c, Empty(disk), multiset{}, ops)))
  {
    var s, h := Empty(disk), History(0, map[]);
    EmptyIsInOrder(disk);
    OpenOk(c, s);
    RunRefines(c, s, ops);
    RunKeepsTwoQ(c, s, h, ops);
    OpenOk(c, Run(c, s, ops).0);
    OpenTwoQ(Run(c, s, ops).0, RunHistory(c, s, h, ops));
    if NeverHeld(c, s, multiset{}, ops) {
      RunKeepsPins(c, s, multiset{}, ops);
      RunFits(c, s, multiset{}, ops);
    }
  }
}
