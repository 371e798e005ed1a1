/** The page buffer under concurrency.  The directory latch is given up while a page is loaded and
    while one is flushed, so every section between two latch operations is a step of its own here.

    An activity is one fixing and releasing of a page, one attempt to evict it, or one flush of it.
    A thread is a sequence of activities; the model lets any number of them run at once, in any
    order, which allows every interleaving of threads and more.  Activities on different pages touch
    different frames, so the state is one `Page` for every page.  The frame latch is the one of
    `SharedMutex`: who holds it can be read off the program counters. */
module PageSteps {
  import opened Wrappers

  type Bytes = seq<bv8>

  datatype FrameState = NEW | LOADING | LOADED | EVICTING | RELOADED

  datatype Frame = Frame(state: FrameState, buffer: Bytes, users: nat, dirty: bool)

  /** How far `FlushFrame` has come: waiting for the frame latch, holding it shared, bytes written,
      flag cleared, latch released. */
  datatype Stage = Asked | Shared | Written | Cleared | Done

  /** What an activity does.  `Waiting`: page pinned, frame latch not yet held.  `Loading` and
      `Filled`: new frame under the exclusive latch, before and after the disk was read.  `Reading`,
      `Writing`, `Copied`: latch held; bytes copied, but not yet marked dirty. */
  datatype Pc =
    | Idle
    | Waiting(exclusive: bool)
    | Loading(exclusive: bool)
    | Filled(exclusive: bool)
    | Reading
    | Writing
    | Copied
    | Flushing(evict: bool, stage: Stage)

  /** `want` is what the last write to the page put there, or what was on disk at first. */
  datatype Page = Page(frame: Option<Frame>, disk: Bytes, want: Bytes, pcs: seq<Pc>)

  datatype Action =
    | Fix(exclusive: bool, junk: Bytes)
    | ReadDisk
    | FinishLoad
    | Enter
    | Copy(data: Bytes)
    | MarkAsDirty
    | Release
    | StartEvict
    | StartFlush
    | FlushEnter
    | FlushWrite
    | FlushClear
    | FlushLeave
    | FinishFlush

  // ---------------------------------------------------------------------------
  // The frame latch

  predicate Excl(pc: Pc) { pc.Loading? || pc.Filled? || pc.Writing? || pc.Copied? }

  predicate Shares(pc: Pc) {
    pc.Reading? || (pc.Flushing? && (pc.stage.Shared? || pc.stage.Written? || pc.stage.Cleared?))
  }

  ghost predicate NobodyHolds(pcs: seq<Pc>, exclusive: bool) {
    forall j :: 0 <= j < |pcs| ==> !Excl(pcs[j]) && (exclusive ==> !Shares(pcs[j]))
  }

  // ---------------------------------------------------------------------------
  // Steps

  ghost predicate Can(p: Page, i: nat, a: Action) {
    i < |p.pcs| &&
    var pc := p.pcs[i];
    match a
    case Fix(_, _) => pc.Idle? && (p.frame.Some? ==> p.frame.value.state != NEW)
    case ReadDisk => pc.Loading? && p.frame.Some?
    case FinishLoad => pc.Filled? && p.frame.Some?
    case Enter => pc.Waiting? && NobodyHolds(p.pcs, pc.exclusive)
    case Copy(_) => pc.Writing? && p.frame.Some?
    case MarkAsDirty => pc.Copied? && p.frame.Some?
    case Release => (pc.Reading? || pc.Writing?) && p.frame.Some? && p.frame.value.users > 0
    case StartEvict => pc.Idle? && p.frame.Some? && p.frame.value.users == 0 && p.frame.value.state == LOADED
    case StartFlush => pc.Idle? && p.frame.Some?
    case FlushEnter => pc.Flushing? && pc.stage.Asked? && NobodyHolds(p.pcs, false)
    case FlushWrite => pc.Flushing? && pc.stage.Shared? && p.frame.Some?
    case FlushClear => pc.Flushing? && pc.stage.Written? && p.frame.Some?
    case FlushLeave => pc.Flushing? && pc.stage.Cleared?
    case FinishFlush =>
      pc.Flushing? && pc.stage.Done? && p.frame.Some? && p.frame.value.users >= (if pc.evict then 2 else 1)
  }

  /** `FixPage` on a page that is resident.  Whoever is evicting it is told; `reload` is false in a
      variant of the code that does not tell. */
  function Refix(reload: bool, f: Frame): Frame {
    f.(users := f.users + 1, state := if f.state == EVICTING && reload then RELOADED else f.state)
  }

  /** The end of a flush, under the directory latch again.  An evictor gives up if the page is in
      use, erases it if nobody fixed it meanwhile, and makes it evictable again otherwise. */
  function AfterFlush(f: Frame, evict: bool): Option<Frame>
    requires f.users >= if evict then 2 else 1
  {
    if !evict then Some(f.(users := f.users - 1))
    else if f.users > 2 then Some(f.(users := f.users - 2))
    else if f.state == EVICTING then None
    else Some(f.(users := 0, state := LOADED))
  }

  ghost function Do(reload: bool, p: Page, i: nat, a: Action): Page
    requires Can(p, i, a)
  {
    var pc := p.pcs[i];
    match a
    case Fix(exclusive, junk) =>
      if p.frame.Some? then p.(frame := Some(Refix(reload, p.frame.value)), pcs := p.pcs[i := Waiting(exclusive)])
      else p.(frame := Some(Frame(LOADING, junk, 1, false)), pcs := p.pcs[i := Loading(exclusive)])
    case ReadDisk =>
      p.(frame := Some(p.frame.value.(buffer := p.disk)), pcs := p.pcs[i := Filled(pc.exclusive)])
    case FinishLoad =>
      p.(frame := Some(p.frame.value.(state := LOADED, dirty := false)),
         pcs := p.pcs[i := if pc.exclusive then Writing else Waiting(false)])
    case Enter => p.(pcs := p.pcs[i := if pc.exclusive then Writing else Reading])
    case Copy(data) =>
      p.(frame := Some(p.frame.value.(buffer := data)), want := data, pcs := p.pcs[i := Copied])
    case MarkAsDirty => p.(frame := Some(p.frame.value.(dirty := true)), pcs := p.pcs[i := Writing])
    case Release =>
      p.(frame := Some(p.frame.value.(users := p.frame.value.users - 1)), pcs := p.pcs[i := Idle])
    case StartEvict =>
      if p.frame.value.dirty then
        p.(frame := Some(p.frame.value.(state := EVICTING, users := 2)), pcs := p.pcs[i := Flushing(true, Asked)])
      else p.(frame := None)
    case StartFlush =>
      if p.frame.value.dirty then
        p.(frame := Some(p.frame.value.(users := p.frame.value.users + 1)), pcs := p.pcs[i := Flushing(false, Asked)])
      else p
    case FlushEnter => p.(pcs := p.pcs[i := Flushing(pc.evict, Shared)])
    case FlushWrite =>
      if p.frame.value.dirty then p.(disk := p.frame.value.buffer, pcs := p.pcs[i := Flushing(pc.evict, Written)])
      else p.(pcs := p.pcs[i := Flushing(pc.evict, Cleared)])
    case FlushClear =>
      p.(frame := Some(p.frame.value.(dirty := false)), pcs := p.pcs[i := Flushing(pc.evict, Cleared)])
    case FlushLeave => p.(pcs := p.pcs[i := Flushing(pc.evict, Done)])
    case FinishFlush => p.(frame := AfterFlush(p.frame.value, pc.evict), pcs := p.pcs[i := Idle])
  }

  // ---------------------------------------------------------------------------
  // Pins

  function Weight(pc: Pc): nat {
    match pc
    case Idle => 0
    case Flushing(evict, _) => if evict then 2 else 1
    case _ => 1
  }

  function Pins(pcs: seq<Pc>): nat {
    if pcs == [] then 0 else Weight(pcs[0]) + Pins(pcs[1..])
  }

  lemma {:induction false} PinsUpdate(pcs: seq<Pc>, i: nat, pc: Pc)
    requires i < |pcs|
    ensures Pins(pcs[i := pc]) == Pins(pcs) - Weight(pcs[i]) + Weight(pc)
  {
    if i > 0 {
      assert pcs[i := pc][1..] == pcs[1..][i - 1 := pc];
      PinsUpdate(pcs[1..], i - 1, pc);
    }
  }

  lemma {:induction false} PinsBound(pcs: seq<Pc>, i: nat, j: nat)
    requires i < |pcs| && j < |pcs| && i != j
    ensures Weight(pcs[i]) + Weight(pcs[j]) <= Pins(pcs)
  {
    if i == 0 {
      PinBound(pcs[1..], j - 1);
    } else if j == 0 {
      PinBound(pcs[1..], i - 1);
    } else {
      PinsBound(pcs[1..], i - 1, j - 1);
    }
  }

  lemma {:induction false} PinBound(pcs: seq<Pc>, i: nat)
    requires i < |pcs|
    ensures Weight(pcs[i]) <= Pins(pcs)
  {
    if i > 0 { PinBound(pcs[1..], i - 1); }
  }

  lemma {:induction false} NoPins(pcs: seq<Pc>)
    requires forall i :: 0 <= i < |pcs| ==> pcs[i] == Idle
    ensures Pins(pcs) == 0
  {
    if pcs != [] { NoPins(pcs[1..]); }
  }

  lemma OnlyPin(pcs: seq<Pc>, i: nat)
    requires i < |pcs| && Pins(pcs) == Weight(pcs[i])
    ensures forall j :: 0 <= j < |pcs| && j != i ==> pcs[j] == Idle
  {
    forall j | 0 <= j < |pcs| && j != i
      ensures pcs[j] == Idle
    {
      PinsBound(pcs, i, j);
    }
  }

  // ---------------------------------------------------------------------------
  // The invariant

  /** Activities that got hold of the page through `FixPage`. */
  predicate Fixer(pc: Pc) { !pc.Idle? && !pc.Flushing? }

  ghost predicate LatchOk(pcs: seq<Pc>) {
    forall i, j :: 0 <= i < |pcs| && 0 <= j < |pcs| && i != j && Excl(pcs[i]) ==> !Excl(pcs[j]) && !Shares(pcs[j])
  }

  /** A frame that is still being loaded: one loader, others at most waiting. */
  ghost predicate LoadingOk(f: Frame, disk: Bytes, want: Bytes, pcs: seq<Pc>) {
    && !f.dirty && disk == want
    && (exists i :: 0 <= i < |pcs| && (pcs[i].Loading? || pcs[i].Filled?))
    && (forall i :: 0 <= i < |pcs| ==> pcs[i].Idle? || pcs[i].Waiting? || pcs[i].Loading? || pcs[i].Filled?)
    && (forall i :: 0 <= i < |pcs| && pcs[i].Filled? ==> f.buffer == want)
  }

  /** What one activity may rely on once the frame is loaded. */
  predicate PcOk(f: Frame, disk: Bytes, pc: Pc) {
    && !pc.Loading? && !pc.Filled?
    && (f.state == EVICTING ==> !Fixer(pc))
    && (pc.Flushing? && pc.stage.Written? ==> disk == f.buffer)
    && (pc.Flushing? && pc.evict ==> f.state == EVICTING || f.state == RELOADED)
    && (pc.Flushing? && pc.evict && f.state == EVICTING && (pc.stage.Cleared? || pc.stage.Done?) ==> !f.dirty)
  }

  ghost predicate LoadedOk(f: Frame, disk: Bytes, want: Bytes, pcs: seq<Pc>) {
    && f.buffer == want
    && (forall i :: 0 <= i < |pcs| ==> PcOk(f, disk, pcs[i]))
    && (f.dirty || disk == want || exists i :: 0 <= i < |pcs| && pcs[i] == Copied)
    && (forall i, j :: 0 <= i < |pcs| && 0 <= j < |pcs| && i != j && pcs[i].Flushing? && pcs[i].evict ==>
         !(pcs[j].Flushing? && pcs[j].evict))
  }

  ghost predicate FrameOk(f: Frame, disk: Bytes, want: Bytes, pcs: seq<Pc>) {
    && f.state != NEW
    && f.users == Pins(pcs)
    && LatchOk(pcs)
    && (if f.state == LOADING then LoadingOk(f, disk, want, pcs) else LoadedOk(f, disk, want, pcs))
  }

  ghost predicate Inv(p: Page) {
    match p.frame
    case None => p.disk == p.want && forall i :: 0 <= i < |p.pcs| ==> p.pcs[i] == Idle
    case Some(f) => FrameOk(f, p.disk, p.want, p.pcs)
  }

  lemma FixKeeps(p: Page, i: nat, a: Action)
    requires Inv(p) && Can(p, i, a) && a.Fix?
    ensures Inv(Do(true, p, i, a))
  {
    var q := Do(true, p, i, a);
    PinsUpdate(p.pcs, i, q.pcs[i]);
    if p.frame.None? {
      NoPins(p.pcs);
      assert q.pcs[i].Loading?;
    } else if p.frame.value.state == LOADING {
      var k :| 0 <= k < |p.pcs| && (p.pcs[k].Loading? || p.pcs[k].Filled?);
      assert q.pcs[k] == p.pcs[k];
    } else if exists k :: 0 <= k < |p.pcs| && p.pcs[k] == Copied {
      var k :| 0 <= k < |p.pcs| && p.pcs[k] == Copied;
      assert q.pcs[k] == Copied;
    }
  }

  lemma LoadKeeps(p: Page, i: nat, a: Action)
    requires Inv(p) && Can(p, i, a) && (a.ReadDisk? || a.FinishLoad?)
    ensures Inv(Do(true, p, i, a))
  {
    var q := Do(true, p, i, a);
    PinsUpdate(p.pcs, i, q.pcs[i]);
    assert p.frame.value.state == LOADING;
    assert a.ReadDisk? ==> q.pcs[i].Filled?;
  }

  lemma UseKeeps(p: Page, i: nat, a: Action)
    requires Inv(p) && Can(p, i, a) && (a.Enter? || a.Copy? || a.MarkAsDirty? || a.Release?)
    ensures Inv(Do(true, p, i, a))
  {
    var q := Do(true, p, i, a);
    PinsUpdate(p.pcs, i, q.pcs[i]);
    assert a.Copy? ==> q.pcs[i] == Copied;
  }

  lemma FlushKeeps(p: Page, i: nat, a: Action)
    requires Inv(p) && Can(p, i, a) && (a.FlushEnter? || a.FlushWrite? || a.FlushClear? || a.FlushLeave?)
    ensures Inv(Do(true, p, i, a))
  {
    PinsUpdate(p.pcs, i, Do(true, p, i, a).pcs[i]);
  }

  lemma StartKeeps(p: Page, i: nat, a: Action)
    requires Inv(p) && Can(p, i, a) && (a.StartEvict? || a.StartFlush?)
    ensures Inv(Do(true, p, i, a))
  {
    var q := Do(true, p, i, a);
    PinsUpdate(p.pcs, i, q.pcs[i]);
    if a.StartEvict? {
      OnlyPin(p.pcs, i);
    }
  }

  lemma FinishKeeps(p: Page, i: nat, a: Action)
    requires Inv(p) && Can(p, i, a) && a.FinishFlush?
    ensures Inv(Do(true, p, i, a))
  {
    var q := Do(true, p, i, a);
    PinsUpdate(p.pcs, i, q.pcs[i]);
    if p.frame.value.users == Weight(p.pcs[i]) {
      OnlyPin(p.pcs, i);
    }
    if exists k :: 0 <= k < |p.pcs| && p.pcs[k] == Copied {
      var k :| 0 <= k < |p.pcs| && p.pcs[k] == Copied;
      assert q.pcs[k] == Copied;
    }
  }

  lemma StepKeeps(p: Page, i: nat, a: Action)
    requires Inv(p) && Can(p, i, a)
    ensures Inv(Do(true, p, i, a))
  {
    match a
    case Fix(_, _) => FixKeeps(p, i, a);
    case ReadDisk => LoadKeeps(p, i, a);
    case FinishLoad => LoadKeeps(p, i, a);
    case Enter => UseKeeps(p, i, a);
    case Copy(_) => UseKeeps(p, i, a);
    case MarkAsDirty => UseKeeps(p, i, a);
    case Release => UseKeeps(p, i, a);
    case StartEvict => StartKeeps(p, i, a);
    case StartFlush => StartKeeps(p, i, a);
    case FlushEnter => FlushKeeps(p, i, a);
    case FlushWrite => FlushKeeps(p, i, a);
    case FlushClear => FlushKeeps(p, i, a);
    case FlushLeave => FlushKeeps(p, i, a);
    case FinishFlush => FinishKeeps(p, i, a);
  }

  // ---------------------------------------------------------------------------
  // What the invariant says

  /** A frame is erased only when it is clean and nobody else has to do with it: the disk holds the
      last write, and no list iteration stands on the frame. */
  lemma EraseIsSafe(p: Page, i: nat, a: Action)
    requires Inv(p) && Can(p, i, a) && p.frame.Some? && Do(true, p, i, a).frame.None?
    ensures a.StartEvict? || a.FinishFlush?
    ensures !p.frame.value.dirty && p.disk == p.want
    ensures forall j :: 0 <= j < |p.pcs| && j != i ==> p.pcs[j] == Idle
  {
    StepKeeps(p, i, a);
    if a.FinishFlush? {
      OnlyPin(p.pcs, i);
    } else {
      OnlyPin(p.pcs, i);
    }
  }

  /** The assertions of the source hold where it makes them: a released page has a user, an evictor
      that is the only user finds its frame EVICTING or RELOADED, and nobody ever meets a NEW frame,
      so the branch of `FixPage` that waits for one is never taken. */
  lemma SourceAssertionsHold(p: Page, i: nat)
    requires Inv(p) && i < |p.pcs|
    ensures p.pcs[i].Reading? || p.pcs[i].Writing? ==> p.frame.Some? && p.frame.value.users > 0
    ensures p.pcs[i].Flushing? ==> p.frame.Some? && p.frame.value.users >= Weight(p.pcs[i])
    ensures p.pcs[i].Flushing? && p.pcs[i].evict ==> p.frame.value.state == EVICTING || p.frame.value.state == RELOADED
    ensures p.frame.Some? ==> p.frame.value.state != NEW
  {
    PinBound(p.pcs, i);
  }

  // ---------------------------------------------------------------------------
  // Runs

  ghost predicate Reaches(reload: bool, p: Page, run: seq<(nat, Action)>, q: Page)
    decreases |run|
  {
    if run == [] then p == q
    else Can(p, run[0].0, run[0].1) && Reaches(reload, Do(reload, p, run[0].0, run[0].1), run[1..], q)
  }

  /** Nothing of the page is in the buffer. */
  ghost predicate Fresh(p: Page) {
    p.frame.None? && p.disk == p.want && forall i :: 0 <= i < |p.pcs| ==> p.pcs[i] == Idle
  }

  /** The bytes of the last write of a run. */
  function LastWrite(run: seq<(nat, Action)>, before: Bytes): Bytes
    decreases |run|
  {
    if run == [] then before else LastWrite(run[1..], if run[0].1.Copy? then run[0].1.data else before)
  }

  lemma {:induction false} ReachedOk(p: Page, run: seq<(nat, Action)>, q: Page)
    requires Inv(p) && Reaches(true, p, run, q)
    ensures Inv(q) && q.want == LastWrite(run, p.want)
    decreases |run|
  {
    if run != [] {
      StepKeeps(p, run[0].0, run[0].1);
      ReachedOk(Do(true, p, run[0].0, run[0].1), run[1..], q);
    }
  }

  /** All pages, and steps of activities on any of them in any order. */
  type World = map<nat, Page>

  datatype Event = Event(page: nat, who: nat, action: Action)

  ghost predicate WorldReaches(reload: bool, w: World, run: seq<Event>, v: World)
    decreases |run|
  {
    if run == [] then w == v
    else
      var e := run[0];
      && e.page in w && Can(w[e.page], e.who, e.action)
      && WorldReaches(reload, w[e.page := Do(reload, w[e.page], e.who, e.action)], run[1..], v)
  }

  function OnPage(run: seq<Event>, page: nat): seq<(nat, Action)> {
    if run == [] then []
    else if run[0].page == page then [(run[0].who, run[0].action)] + OnPage(run[1..], page)
    else OnPage(run[1..], page)
  }

  lemma {:induction false} RunsOfPages(reload: bool, w: World, run: seq<Event>, v: World, page: nat)
    requires WorldReaches(reload, w, run, v) && page in w
    ensures page in v && Reaches(reload, w[page], OnPage(run, page), v[page])
    decreases |run|
  {
    if run != [] {
      var e := run[0];
      RunsOfPages(reload, w[e.page := Do(reload, w[e.page], e.who, e.action)], run[1..], v, page);
      if e.page == page {
        assert OnPage(run, page)[1..] == OnPage(run[1..], page);
      }
    }
  }

  /** In every interleaving no write is lost: a page that is not resident is on disk as it was last
      written, whoever reads a page reads what was last written to it, a clean page is on disk, and
      the users of a frame are the activities that pin it. */
  lemma NoWriteIsLost(w: World, run: seq<Event>, v: World, page: nat)
    requires (forall id :: id in w ==> Fresh(w[id])) && WorldReaches(true, w, run, v) && page in w
    ensures page in v
    ensures var q, last := v[page], LastWrite(OnPage(run, page), w[page].disk);
      match q.frame
      case None => q.disk == last
      case Some(f) =>
        && f.users == Pins(q.pcs)
        && (forall i :: 0 <= i < |q.pcs| && q.pcs[i].Reading? ==> f.buffer == last)
        && (!f.dirty && (forall i :: 0 <= i < |q.pcs| ==> q.pcs[i] != Copied) ==> q.disk == last)
  {
    RunsOfPages(true, w, run, v, page);
    ReachedOk(w[page], OnPage(run, page), v[page]);
  }

  // ---------------------------------------------------------------------------
  // Without EVICTING -> RELOADED

  lemma First(reload: bool, p: Page, i: nat, a: Action, rest: seq<(nat, Action)>, q: Page)
    requires Can(p, i, a) && Reaches(reload, Do(reload, p, i, a), rest, q)
    ensures Reaches(reload, p, [(i, a)] + rest, q)
  {
    assert ([(i, a)] + rest)[1..] == rest;
  }

  /** If `FixPage` does not tell the evictor, a write can be lost: activity 0 writes a page again
      while activity 1 is evicting it, after the flush and before the frame is erased.  The page ends
      up with nothing resident, `first` on disk and `second` written last, whatever the two are. */
  lemma ReloadedIsNeeded(disk: Bytes, first: Bytes, second: Bytes)
    ensures Fresh(Page(None, disk, disk, [Idle, Idle]))
    ensures exists run ::
      Reaches(false, Page(None, disk, disk, [Idle, Idle]), run, Page(None, first, second, [Idle, Idle]))
  {
    var tail := LoseSecond(disk, first, second);
    var run := WriteFirst(disk, first, tail, Page(None, first, second, [Idle, Idle]));
    assert Reaches(false, Page(None, disk, disk, [Idle, Idle]), run, Page(None, first, second, [Idle, Idle]));
  }

  lemma WriteFirst(disk: Bytes, data: Bytes, tail: seq<(nat, Action)>, q: Page) returns (run: seq<(nat, Action)>)
    requires Reaches(false, Page(Some(Frame(LOADED, data, 0, true)), disk, data, [Idle, Idle]), tail, q)
    ensures Reaches(false, Page(None, disk, disk, [Idle, Idle]), run, q)
  {
    var p0 := Page(None, disk, disk, [Idle, Idle]);
    var p1 := Do(false, p0, 0, Fix(true, disk));
    var p2 := Do(false, p1, 0, ReadDisk);
    var p3 := Do(false, p2, 0, FinishLoad);
    var p4 := Do(false, p3, 0, Copy(data));
    var p5 := Do(false, p4, 0, MarkAsDirty);
    assert Do(false, p5, 0, Release) == Page(Some(Frame(LOADED, data, 0, true)), disk, data, [Idle, Idle]);
    run := tail;
    First(false, p5, 0, Release, run, q);          run := [(0, Release)] + run;
    First(false, p4, 0, MarkAsDirty, run, q);      run := [(0, MarkAsDirty)] + run;
    First(false, p3, 0, Copy(data), run, q);       run := [(0, Copy(data))] + run;
    First(false, p2, 0, FinishLoad, run, q);       run := [(0, FinishLoad)] + run;
    First(false, p1, 0, ReadDisk, run, q);         run := [(0, ReadDisk)] + run;
    First(false, p0, 0, Fix(true, disk), run, q);  run := [(0, Fix(true, disk))] + run;
  }

  lemma LoseSecond(disk: Bytes, first: Bytes, second: Bytes) returns (run: seq<(nat, Action)>)
    ensures Reaches(false, Page(Some(Frame(LOADED, first, 0, true)), disk, first, [Idle, Idle]), run,
                    Page(None, first, second, [Idle, Idle]))
  {
    var p0 := Page(Some(Frame(LOADED, first, 0, true)), disk, first, [Idle, Idle]);
    var q := Page(None, first, second, [Idle, Idle]);
    var p1 := Do(false, p0, 1, StartEvict);
    var p2 := Do(false, p1, 0, Fix(true, disk));
    var p3 := Do(false, p2, 1, FlushEnter);
    var p4 := Do(false, p3, 1, FlushWrite);
    var p5 := Do(false, p4, 1, FlushClear);
    var p6 := Do(false, p5, 1, FlushLeave);
    run := LoseAfterFlush(p6, first, second);
    First(false, p5, 1, FlushLeave, run, q);       run := [(1, FlushLeave)] + run;
    First(false, p4, 1, FlushClear, run, q);       run := [(1, FlushClear)] + run;
    First(false, p3, 1, FlushWrite, run, q);       run := [(1, FlushWrite)] + run;
    First(false, p2, 1, FlushEnter, run, q);       run := [(1, FlushEnter)] + run;
    First(false, p1, 0, Fix(true, disk), run, q);  run := [(0, Fix(true, disk))] + run;
    First(false, p0, 1, StartEvict, run, q);       run := [(1, StartEvict)] + run;
  }

  lemma LoseAfterFlush(p: Page, first: Bytes, second: Bytes) returns (run: seq<(nat, Action)>)
    requires p == Page(Some(Frame(EVICTING, first, 3, false)), first, first, [Waiting(true), Flushing(true, Done)])
    ensures Reaches(false, p, run, Page(None, first, second, [Idle, Idle]))
  {
    var q := Page(None, first, second, [Idle, Idle]);
    var p1 := Do(false, p, 0, Enter);
    var p2 := Do(false, p1, 0, Copy(second));
    var p3 := Do(false, p2, 0, MarkAsDirty);
    var p4 := Do(false, p3, 0, Release);
    assert Do(false, p4, 1, FinishFlush) == q;
    run := [];
    First(false, p4, 1, FinishFlush, run, q);      run := [(1, FinishFlush)] + run;
    First(false, p3, 0, Release, run, q);          run := [(0, Release)] + run;
    First(false, p2, 0, MarkAsDirty, run, q);      run := [(0, MarkAsDirty)] + run;
    First(false, p1, 0, Copy(second), run, q);     run := [(0, Copy(second))] + run;
    First(false, p, 0, Enter, run, q);             run := [(0, Enter)] + run;
  }
}
