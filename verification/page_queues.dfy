/** The replacement policy: what the FIFO and the LRU queue mean, told by the times of the fixes. */
module PageQueues {
  import opened PageState
  import opened PagePolicy
  import opened PageFiles

  /** For every resident frame the times at which it was fixed since it was loaded. */
  datatype History = History(now: nat, fixes: map<FrameId, seq<nat>>)

  function LastFix(h: History, id: FrameId): nat {
    if id in h.fixes && h.fixes[id] != [] then h.fixes[id][|h.fixes[id]| - 1] else 0
  }

  /** Every frame's last fix is earlier than the last fixes of the frames behind it. */
  ghost predicate InFixOrder(h: History, q: seq<FrameId>) {
    q != [] ==> (forall id :: id in q[1..] ==> LastFix(h, q[0]) < LastFix(h, id)) && InFixOrder(h, q[1..])
  }

  ghost predicate FixedOnce(h: History, q: seq<FrameId>) {
    InFixOrder(h, q) && forall id :: id in q ==> id in h.fixes && |h.fixes[id]| == 1
  }

  ghost predicate FixedAgain(h: History, q: seq<FrameId>) {
    InFixOrder(h, q) && forall id :: id in q ==> id in h.fixes && |h.fixes[id]| >= 2
  }

  /** FIFO frames have been fixed once since they were loaded and stand in load order; LRU frames
      have been fixed again and stand in the order of their last fix. */
  ghost predicate QueuesMean(s: State, h: History) {
    && h.fixes.Keys == s.frames.Keys
    && (forall id :: id in h.fixes ==> h.fixes[id] != [] && LastFix(h, id) < h.now)
    && FixedOnce(h, s.fifo)
    && FixedAgain(h, s.lru)
  }

  /** A key to `TwoQ`, as `Unfold` is to `Ok`. */
  ghost predicate UnfoldQueues(s: State, k: int) { true }

  ghost predicate TwoQ(s: State, h: History) {
    forall k {:trigger UnfoldQueues(s, k)} :: UnfoldQueues(s, k) ==> QueuesMean(s, h)
  }

  lemma OpenTwoQ(s: State, h: History)
    requires TwoQ(s, h)
    ensures QueuesMean(s, h)
  {
    assert UnfoldQueues(s, 0);
  }

  /** The history goes on: `id` is fixed now, and frames that left are forgotten. */
  function Fixed(h: History, frames: set<FrameId>, id: FrameId): History {
    History(h.now + 1,
      map k | k in frames && (k == id || k in h.fixes) ::
        if k == id then (if k in h.fixes then h.fixes[k] else []) + [h.now] else h.fixes[k])
  }

  function Forget(h: History, frames: set<FrameId>): History {
    h.(fixes := map k | k in frames && k in h.fixes :: h.fixes[k])
  }

  lemma {:induction false} RemoveKeepsOrder(h: History, q: seq<FrameId>, x: FrameId)
    requires InFixOrder(h, q)
    ensures InFixOrder(h, Remove(q, x)) && x !in Remove(q, x)
  {
    if q != [] {
      if q[0] == x {
        assert x !in q[1..];
      } else {
        var rest := Remove(q[1..], x);
        RemoveKeepsOrder(h, q[1..], x);
        RemoveMembers(q[1..], x);
        assert ([q[0]] + rest)[1..] == rest;
      }
    }
  }

  lemma {:induction false} FirstIsOldest(h: History, frames: map<FrameId, Frame>, q: seq<FrameId>)
    requires InFixOrder(h, q) && FirstUnpinned(frames, q).Some?
    ensures var v := FirstUnpinned(frames, q).value;
      v in q && forall id :: id in q && id in frames && frames[id].users == 0 && id != v ==>
        LastFix(h, v) < LastFix(h, id)
  {
    assert forall id :: id in q ==> id == q[0] || id in q[1..];
    if !(q[0] in frames && frames[q[0]].users == 0) {
      FirstIsOldest(h, frames, q[1..]);
    }
  }

  /** Of the frames nobody uses that were fixed only once, `v` is the one loaded first; or every such
      frame is in use, and `v` is the one of the others whose last fix is the longest ago. */
  ghost predicate OldestUnused(s: State, h: History, v: FrameId) {
    && v in s.frames && v in h.fixes && s.frames[v].users == 0 && h.fixes.Keys == s.frames.Keys
    && (|h.fixes[v]| == 1 ==>
         forall id :: id in s.frames && s.frames[id].users == 0 && |h.fixes[id]| == 1 && id != v ==>
         LastFix(h, v) < LastFix(h, id))
    && (|h.fixes[v]| != 1 ==> forall id :: id in s.frames && s.frames[id].users == 0 && id != v ==>
         |h.fixes[id]| > 1 && LastFix(h, v) < LastFix(h, id))
  }

  /** The victim is the oldest frame nobody uses; there is none only if every frame is in use. */
  lemma VictimIsTheOldest(P: nat, s: State, h: History)
    requires Inv(P, s) && QueuesMean(s, h)
    ensures Victim(s).None? <==> forall id :: id in s.frames ==> s.frames[id].users > 0
    ensures Victim(s).Some? ==> OldestUnused(s, h, Victim(s).value)
  {
    QueuesAreFrames(s);
    if FirstUnpinned(s.frames, s.fifo).Some? {
      FirstIsOldest(h, s.frames, s.fifo);
    } else if FirstUnpinned(s.frames, s.lru).Some? {
      FirstIsOldest(h, s.frames, s.lru);
    }
  }

  lemma QueuesAreFrames(s: State)
    requires QueuesOk(s)
    ensures forall id :: id in s.fifo || id in s.lru <==> id in s.frames
    ensures forall id :: id in s.fifo ==> id !in s.lru
  {
    forall id
      ensures id in s.fifo || id in s.lru <==> id in s.frames
      ensures id in s.fifo ==> id !in s.lru
    {
      assert id in multiset(s.fifo) + multiset(s.lru) <==> id in multiset(s.frames.Keys);
      assert (multiset(s.fifo) + multiset(s.lru))[id] <= 1;
    }
  }

  // ---------------------------------------------------------------------------
  // Every operation keeps the queues' meaning

  lemma {:induction false} SameTimesSameOrder(h: History, g: History, q: seq<FrameId>)
    requires InFixOrder(h, q)
    requires forall id :: id in q ==> LastFix(g, id) == LastFix(h, id)
    ensures InFixOrder(g, q)
  {
    if q != [] {
      SameTimesSameOrder(h, g, q[1..]);
    }
  }

  lemma {:induction false} LatestGoesLast(h: History, q: seq<FrameId>, x: FrameId)
    requires InFixOrder(h, q)
    requires forall id :: id in q ==> LastFix(h, id) < LastFix(h, x)
    ensures InFixOrder(h, q + [x])
  {
    if q != [] {
      LatestGoesLast(h, q[1..], x);
      assert (q + [x])[1..] == q[1..] + [x];
      assert forall id :: id in q[1..] + [x] ==> id in q[1..] || id == x;
    }
  }

  lemma ForgetKeepsQueue(h: History, keys: set<FrameId>, q: seq<FrameId>, v: FrameId)
    requires h.fixes.Keys - {v} == keys
    ensures FixedOnce(h, q) ==> FixedOnce(Forget(h, keys), Remove(q, v))
    ensures FixedAgain(h, q) ==> FixedAgain(Forget(h, keys), Remove(q, v))
  {
    if InFixOrder(h, q) && forall id :: id in q ==> id in h.fixes {
      RemoveKeepsOrder(h, q, v);
      RemoveMembers(q, v);
      SameTimesSameOrder(h, Forget(h, keys), Remove(q, v));
    }
  }

  lemma RemovedKeepsTwoQ(s: State, t: State, h: History, v: FrameId)
    requires TwoQ(s, h) && t.frames.Keys == s.frames.Keys - {v}
    requires t.fifo == Remove(s.fifo, v) && t.lru == Remove(s.lru, v)
    ensures TwoQ(t, Forget(h, t.frames.Keys))
  {
    OpenTwoQ(s, h);
    ForgetKeepsQueue(h, t.frames.Keys, s.fifo, v);
    ForgetKeepsQueue(h, t.frames.Keys, s.lru, v);
  }

  lemma ForgetTwice(h: History, a: set<FrameId>, b: set<FrameId>)
    requires b <= a
    ensures Forget(Forget(h, a), b) == Forget(h, b)
  {
  }

  lemma ForgetNone(s: State, h: History)
    requires TwoQ(s, h)
    ensures Forget(h, s.frames.Keys) == h
  {
    OpenTwoQ(s, h);
  }

  lemma {:induction false} MakeRoomKeepsTwoQ(c: Config, s: State, h: History)
    requires Ok(c, s) && TwoQ(s, h)
    ensures TwoQ(MakeRoom(c, s).0, Forget(h, MakeRoom(c, s).0.frames.Keys))
    decreases |s.frames|
  {
    if |s.frames| >= c.capacity && Victim(s).Some? {
      var v := Victim(s).value;
      var t := Evict(c.P, s, v);
      EvictKeeps(c, s, v);
      RemovedKeepsTwoQ(s, t, h, v);
      MakeRoomKeepsTwoQ(c, t, Forget(h, t.frames.Keys));
      MakeRoomEffect(c, t);
      ForgetTwice(h, t.frames.Keys, MakeRoom(c, t).0.frames.Keys);
    } else {
      ForgetNone(s, h);
    }
  }

  lemma FixedTimes(h: History, frames: set<FrameId>, id: FrameId, q: seq<FrameId>)
    requires InFixOrder(h, q) && id !in q && id in frames
    requires forall k :: k in q ==> k in frames && k in h.fixes && LastFix(h, k) < h.now
    ensures InFixOrder(Fixed(h, frames, id), q)
    ensures InFixOrder(Fixed(h, frames, id), q + [id])
  {
    var g := Fixed(h, frames, id);
    assert forall k :: k in q ==> LastFix(g, k) == LastFix(h, k);
    assert LastFix(g, id) == h.now;
    SameTimesSameOrder(h, g, q);
    LatestGoesLast(g, q, id);
  }

  lemma TouchedFifo(h: History, frames: set<FrameId>, id: FrameId, q: seq<FrameId>)
    requires h.fixes.Keys == frames && id in frames && FixedOnce(h, q)
    requires forall k :: k in h.fixes ==> LastFix(h, k) < h.now
    ensures FixedOnce(Fixed(h, frames, id), Remove(q, id))
  {
    RemoveKeepsOrder(h, q, id);
    RemoveMembers(q, id);
    FixedTimes(h, frames, id, Remove(q, id));
  }

  lemma TouchedLru(h: History, frames: set<FrameId>, id: FrameId, q: seq<FrameId>)
    requires h.fixes.Keys == frames && id in frames && FixedAgain(h, q) && h.fixes[id] != []
    requires forall k :: k in h.fixes ==> LastFix(h, k) < h.now
    ensures FixedAgain(Fixed(h, frames, id), Remove(q, id) + [id])
  {
    RemoveKeepsOrder(h, q, id);
    RemoveMembers(q, id);
    FixedTimes(h, frames, id, Remove(q, id));
  }

  lemma TouchQueues(s: State, id: FrameId)
    requires QueuesOk(s) && id in s.frames
    ensures Touch(s, id).fifo == Remove(s.fifo, id)
    ensures Touch(s, id).lru == Remove(s.lru, id) + [id]
  {
    assert (multiset(s.fifo) + multiset(s.lru))[id] == 1;
    if id in s.lru {
      assert id !in multiset(s.fifo);
      RemoveOne(s.fifo, id);
    } else {
      RemoveOne(s.lru, id);
    }
  }

  lemma TouchedFixes(h: History, frames: set<FrameId>, id: FrameId)
    requires h.fixes.Keys == frames && id in frames
    requires forall k :: k in h.fixes ==> h.fixes[k] != [] && LastFix(h, k) < h.now
    ensures var g := Fixed(h, frames, id);
      g.fixes.Keys == frames && forall k :: k in g.fixes ==> g.fixes[k] != [] && LastFix(g, k) < g.now
  {
  }

  lemma TouchKeepsMeaning(s: State, h: History, id: FrameId)
    requires QueuesOk(s) && QueuesMean(s, h) && id in s.frames
    ensures QueuesMean(Touch(s, id), Fixed(h, s.frames.Keys, id))
  {
    var keys := s.frames.Keys;
    TouchQueues(s, id);
    TouchedFifo(h, keys, id, s.fifo);
    TouchedLru(h, keys, id, s.lru);
    TouchedFixes(h, keys, id);
    assert Touch(s, id).frames.Keys == keys;
  }

  lemma TouchKeepsTwoQ(s: State, h: History, id: FrameId)
    requires QueuesOk(s) && TwoQ(s, h) && id in s.frames
    ensures TwoQ(Touch(s, id), Fixed(h, s.frames.Keys, id))
  {
    OpenTwoQ(s, h);
    TouchKeepsMeaning(s, h, id);
  }

  lemma LoadedFifo(h: History, frames: set<FrameId>, id: FrameId, q: seq<FrameId>)
    requires frames == h.fixes.Keys + {id} && id !in h.fixes && FixedOnce(h, q)
    requires forall k :: k in h.fixes ==> LastFix(h, k) < h.now
    ensures FixedOnce(Fixed(h, frames, id), q + [id])
  {
    FixedTimes(h, frames, id, q);
  }

  lemma LoadedLru(h: History, frames: set<FrameId>, id: FrameId, q: seq<FrameId>)
    requires frames == h.fixes.Keys + {id} && id !in h.fixes && FixedAgain(h, q)
    requires forall k :: k in h.fixes ==> LastFix(h, k) < h.now
    ensures FixedAgain(Fixed(h, frames, id), q)
  {
    FixedTimes(h, frames, id, q);
  }

  lemma LoadKeepsTwoQ(s: State, t: State, h: History, id: FrameId)
    requires TwoQ(s, h) && id !in s.frames && t.frames.Keys == s.frames.Keys + {id}
    requires t.fifo == s.fifo + [id] && t.lru == s.lru
    ensures TwoQ(t, Fixed(h, t.frames.Keys, id))
  {
    OpenTwoQ(s, h);
    LoadedFifo(h, t.frames.Keys, id, s.fifo);
    LoadedLru(h, t.frames.Keys, id, s.lru);
  }

  lemma FixedAfterForget(h: History, frames: set<FrameId>, id: FrameId)
    requires id !in h.fixes && id in frames
    ensures Fixed(Forget(h, frames - {id}), frames, id) == Fixed(h, frames, id)
  {
  }

  lemma LoadQueues(P: nat, s: State, f: FileId, page: nat, buffer: seq<Byte>)
    requires CanLoad(s, f)
    ensures var t, id := Load(P, s, f, page, buffer), FrameId(f, page);
      t.frames.Keys == s.frames.Keys + {id} && t.fifo == s.fifo + [id] && t.lru == s.lru
  {
  }

  lemma AllocateKeepsTwoQ(c: Config, s: State, h: History)
    requires Ok(c, s) && TwoQ(s, h)
    ensures var t := AllocateFrameBuffer(c, s).0; TwoQ(t, Forget(h, t.frames.Keys))
  {
    AllocateKeeps(c, s);
    MakeRoomKeepsTwoQ(c, s, h);
    var t := AllocateFrameBuffer(c, s).0;
    OpenTwoQ(MakeRoom(c, s).0, Forget(h, t.frames.Keys));
  }

  lemma LoadAfterForget(s: State, t: State, h: History, id: FrameId)
    requires TwoQ(s, Forget(h, s.frames.Keys)) && id !in h.fixes && id !in s.frames
    requires t.frames.Keys == s.frames.Keys + {id} && t.fifo == s.fifo + [id] && t.lru == s.lru
    ensures TwoQ(t, Fixed(h, t.frames.Keys, id))
  {
    LoadKeepsTwoQ(s, t, Forget(h, s.frames.Keys), id);
    assert t.frames.Keys - {id} == s.frames.Keys;
    FixedAfterForget(h, t.frames.Keys, id);
  }

  lemma MissKeepsTwoQ(c: Config, s: State, h: History, f: FileId, page: nat)
    requires Ok(c, s) && TwoQ(s, h) && f in s.files && FrameId(f, page) !in s.frames
    ensures var t := FixPage(c, s, f, page); TwoQ(t, Fixed(h, t.frames.Keys, FrameId(f, page)))
  {
    FixMiss(c, s, f, page);
    AllocateKeepsTwoQ(c, s, h);
    var (u, buffer) := AllocateFrameBuffer(c, s);
    FixIsLoad(c, u, f);
    LoadQueues(c.P, u, f, page, buffer);
    OpenTwoQ(s, h);
    LoadAfterForget(u, Load(c.P, u, f, page, buffer), h, FrameId(f, page));
  }

  /** A fix, with all the evictions it brings about, keeps the meaning of both queues. */
  lemma FixKeepsTwoQ(c: Config, s: State, h: History, f: FileId, page: nat)
    requires Ok(c, s) && TwoQ(s, h) && f in s.files
    ensures var t := FixPage(c, s, f, page); TwoQ(t, Fixed(h, t.frames.Keys, FrameId(f, page)))
  {
    var id := FrameId(f, page);
    if id in s.frames {
      OpenOk(c, s);
      TouchKeepsTwoQ(s, h, id);
      assert Touch(s, id).frames.Keys == s.frames.Keys;
    } else {
      MissKeepsTwoQ(c, s, h, f, page);
    }
  }

  /** Releasing a file forgets its frames and disturbs neither queue. */
  lemma {:induction false} DropPagesKeepsTwoQ(c: Config, s: State, h: History, f: FileId)
    requires TwoQ(s, h) && f in s.files
    ensures TwoQ(DropPages(c, s, f), Forget(h, DropPages(c, s, f).frames.Keys))
    decreases |s.files[f].pages|
  {
    if s.files[f].pages != [] && s.files[f].pages[0] in s.frames && s.files[f].pages[0].file == f {
      var id := s.files[f].pages[0];
      var t := DropFirst(c, s, f);
      DropFirstQueues(c, s, f);
      RemovedKeepsTwoQ(s, t, h, id);
      DropPagesKeepsTwoQ(c, t, Forget(h, t.frames.Keys), f);
      DropPagesEffect(c, t, f);
      ForgetTwice(h, t.frames.Keys, DropPages(c, t, f).frames.Keys);
    } else {
      ForgetNone(s, h);
    }
  }

  lemma DropFirstQueues(c: Config, s: State, f: FileId)
    requires f in s.files && s.files[f].pages != []
    requires s.files[f].pages[0] in s.frames && s.files[f].pages[0].file == f
    ensures var t, id := DropFirst(c, s, f), s.files[f].pages[0];
      t.frames.Keys == s.frames.Keys - {id} && t.fifo == Remove(s.fifo, id) && t.lru == Remove(s.lru, id)
  {
    var id := s.files[f].pages[0];
    var t := FlushFrame(c.P, s, id);
    FlushEffect(c.P, s, id);
    DropEffect(Donate(c, t, t.frames[id].buffer), id);
    assert (s.frames[id := t.frames[id]] - {id}).Keys == s.frames.Keys - {id};
  }
}
