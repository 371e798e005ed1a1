/** `SharedMutex` on the parking lot: every atomic load, compare-exchange and fetch operation and
    every section under a lot's mutex is one step, of any number of actors on any number of
    mutexes that share a lot.

    An actor is one call of `lock`, `lock_shared`, `try_lock` or `try_lock_shared` and the unlocking
    that ends it.  `recheck` says which value `try_lock_shared` tests after it has counted itself:
    the one it fetched, or, as the code does (lines 35 to 39), the one it had loaded before. */
module SharedMutex {
  import opened Wrappers
  import opened ParkingLot

  // ---------------------------------------------------------------------------
  // The word

  /** EXCLUSIVE, WAITING_WRITER, WAITING_READER and the 61 bits of the reader count. */
  datatype Word = Word(exclusive: bool, writer: bool, reader: bool, readers: nat) {
    predicate AnyoneWaiting() { writer || reader }
    /** Threads stay parked on such a word. */
    predicate Blocked() { exclusive && AnyoneWaiting() }
  }

  const MAX_READERS: nat := 0x2000_0000_0000_0000

  function Bit(b: bool): nat { if b then 1 else 0 }

  /** The 64-bit value of a word. */
  function Encode(w: Word): nat {
    ((Bit(w.exclusive) * 2 + Bit(w.writer)) * 2 + Bit(w.reader)) * MAX_READERS + w.readers
  }

  /** As long as the count fits its field, adding and subtracting one is counting, no two words
      share a value, and the field and the flags can be read off. */
  lemma WordIsValue(w: Word)
    requires w.readers < MAX_READERS
    ensures Encode(w) < 0x1_0000_0000_0000_0000
    ensures Encode(w) % MAX_READERS == w.readers
    ensures Encode(w) / MAX_READERS % 2 == Bit(w.reader)
    ensures Encode(w) / (2 * MAX_READERS) % 2 == Bit(w.writer)
    ensures Encode(w) / (4 * MAX_READERS) == Bit(w.exclusive)
    ensures w.readers + 1 < MAX_READERS ==> Encode(w.(readers := w.readers + 1)) == Encode(w) + 1
    ensures w.readers > 0 ==> Encode(w.(readers := w.readers - 1)) == Encode(w) - 1
  {
  }

  lemma WordsDiffer(w: Word, v: Word)
    requires w.readers < MAX_READERS && v.readers < MAX_READERS && Encode(w) == Encode(v)
    ensures w == v
  {
    WordIsValue(w);
    WordIsValue(v);
  }

  // ---------------------------------------------------------------------------
  // Actors

  datatype At =
    // try_lock_shared: before the load, before fetch_add with the value loaded, before the back-out
    // try_lock: before the load, before the compare-exchange with the value expected
    | TryLoad
    | FetchAdd(seen: Word)
    | BackOut
    | Cas(seen: Word)
    // tryMarkAsWaiting
    | MarkLoad
    | MarkCas(seen: Word)
    // ParkWithSpinning and Park: the lot's mutex is held in Recheck, Enlist, Check, ToSleep, Leaving
    | Spin(n: nat)
    | ToLot
    | Recheck
    | Enlist
    | Check(bucket: nat)
    | ToSleep(bucket: nat)
    | Asleep(bucket: nat)
    | Awake(bucket: nat)
    | Leaving(bucket: nat)
    | Holding
    // unlock and unlock_shared, and UnparkAll
    | ClearCas(seen: Word)
    | Owes
    | Notify(bucket: nat)

  /** `exclusive`: asks for the lock as a writer.  `blocking`: `lock` rather than `try_lock`. */
  datatype Actor = Idle | Actor(addr: Addr, exclusive: bool, blocking: bool, at: At)

  datatype Sys = Sys(words: map<Addr, Word>, lot: Lot, lotHolder: Option<nat>, actors: seq<Actor>)

  datatype Action =
    | Begin(addr: Addr, exclusive: bool, blocking: bool)
    // The actor's next step.  `weak`: a compare-exchange fails although the value is as expected.
    | Go(weak: bool)
    // A condition variable may wake a thread up for no reason.
    | WakeUp

  predicate NeedsLot(at: At) { at.ToLot? || at.Awake? || at.Owes? }

  predicate HoldsLot(at: At) { at.Recheck? || at.Enlist? || at.Check? || at.ToSleep? || at.Leaving? }

  /** The actor is in the reader count. */
  predicate Counted(x: Actor) { x.Actor? && (x.at.BackOut? || (x.at.Holding? && !x.exclusive)) }

  predicate Reads(x: Actor, a: Addr) { x.Actor? && x.addr == a && x.at.Holding? && !x.exclusive }

  predicate Writes(x: Actor, a: Addr) { x.Actor? && x.addr == a && x.at.Holding? && x.exclusive }

  /** The actor is among the waiting threads of a bucket. */
  predicate InBucket(x: Actor, b: nat) {
    x.Actor? && (x.at.Check? || x.at.ToSleep? || x.at.Asleep? || x.at.Awake? || x.at.Leaving?) && x.at.bucket == b
  }

  // ---------------------------------------------------------------------------
  // Steps

  ghost predicate Can(s: Sys, i: nat, a: Action) {
    && i < |s.actors|
    && (s.actors[i].Actor? ==> s.actors[i].addr in s.words)
    && match a
       case Begin(addr, _, _) => s.actors[i].Idle? && addr in s.words
       case WakeUp => s.actors[i].Actor? && s.actors[i].at.Asleep?
       case Go(_) =>
         && s.actors[i].Actor?
         && !s.actors[i].at.Asleep?
         && (NeedsLot(s.actors[i].at) ==> s.lotHolder.None?)
         && (Counted(s.actors[i]) ==> s.words[s.actors[i].addr].readers > 0)
  }

  /** What a step makes of the actor that takes it and of the word it is about. */
  datatype Local = Local(actor: Actor, word: Word)

  function Move(x: Actor, at: At, w: Word): Local
    requires x.Actor?
  {
    Local(x.(at := at), w)
  }

  /** A failed attempt: `try_lock` gives up, `lock` goes on to mark itself as waiting. */
  function Failed(x: Actor, w: Word): Local
    requires x.Actor?
  {
    if x.blocking then Move(x, MarkLoad, w) else Local(Idle, w)
  }

  /** The test at the head of `try_lock`'s loop. */
  function TryCas(x: Actor, w: Word): Local
    requires x.Actor?
  {
    if w.exclusive || w.readers > 0 then Failed(x, w) else Move(x, Cas(w), w)
  }

  /** The steps of `try_lock_shared` and `try_lock`. */
  function Try(recheck: bool, x: Actor, w: Word, weak: bool): Local
    requires x.Actor? && (x.at.TryLoad? || x.at.FetchAdd? || x.at.BackOut? || x.at.Cas?)
    requires Counted(x) ==> w.readers > 0
  {
    match x.at
    case TryLoad =>
      if x.exclusive then TryCas(x, w)
      else if w.exclusive || w.writer then Failed(x, w)
      else Move(x, FetchAdd(w), w)
    case FetchAdd(seen) =>
      Move(x, if (if recheck then w else seen).exclusive then BackOut else Holding, w.(readers := w.readers + 1))
    case BackOut => Failed(x, w.(readers := w.readers - 1))
    case Cas(seen) =>
      if w == seen && !weak then Move(x, Holding, w.(exclusive := true)) else TryCas(x, w)
  }

  /** The steps from the failed attempt to the parking lot. */
  function Mark(x: Actor, w: Word, weak: bool): Local
    requires x.Actor? && (x.at.MarkLoad? || x.at.MarkCas? || x.at.Spin?)
  {
    match x.at
    case MarkLoad => Move(x, if w.AnyoneWaiting() then Spin(0) else MarkCas(w), w)
    case MarkCas(seen) =>
      if w == seen && !weak then Move(x, Spin(0), if x.exclusive then w.(writer := true) else w.(reader := true))
      else Move(x, TryLoad, w)
    case Spin(n) =>
      Move(x, if n >= 8 then ToLot else if !w.Blocked() then TryLoad else Spin(n + 1), w)
  }

  /** The steps of `Park`; `bucket` is the one it enters. */
  function Park(x: Actor, w: Word, bucket: nat): Local
    requires x.Actor? && (HoldsLot(x.at) || x.at.ToLot? || x.at.Awake?)
  {
    match x.at
    case ToLot => Move(x, Recheck, w)
    case Recheck => Move(x, if !w.Blocked() then TryLoad else Enlist, w)
    case Enlist => Move(x, Check(bucket), w)
    case Check(b) => Move(x, if !w.Blocked() then Leaving(b) else ToSleep(b), w)
    case ToSleep(b) => Move(x, Asleep(b), w)
    case Awake(b) => Move(x, Check(b), w)
    case Leaving(b) => Move(x, TryLoad, w)
  }

  /** The steps of `unlock`, `unlock_shared` and `UnparkAll`; `found` is the address's bucket. */
  function Unlock(x: Actor, w: Word, weak: bool, found: Option<nat>): Local
    requires x.Actor? && (x.at.Holding? || x.at.ClearCas? || x.at.Owes? || x.at.Notify?)
    requires Counted(x) ==> w.readers > 0
  {
    match x.at
    case Holding =>
      if x.exclusive then
        Local(if w.AnyoneWaiting() then x.(at := Owes) else Idle, Word(false, false, false, w.readers))
      else
        var less := w.(readers := w.readers - 1);
        Local(if w.readers == 1 && w.AnyoneWaiting() then x.(at := ClearCas(less)) else Idle, less)
    case ClearCas(seen) =>
      if w == seen && !weak then Move(x, Owes, w.(reader := false)) else Move(x, ClearCas(w), w)
    case Owes => if found.None? then Local(Idle, w) else Move(x, Notify(found.value), w)
    case Notify(_) => Local(Idle, w)
  }

  function Step(recheck: bool, x: Actor, w: Word, weak: bool, lot: Lot): Local
    requires x.Actor? && !x.at.Asleep? && (Counted(x) ==> w.readers > 0)
  {
    match x.at
    case TryLoad => Try(recheck, x, w, weak)
    case FetchAdd(_) => Try(recheck, x, w, weak)
    case BackOut => Try(recheck, x, w, weak)
    case Cas(_) => Try(recheck, x, w, weak)
    case MarkLoad => Mark(x, w, weak)
    case MarkCas(_) => Mark(x, w, weak)
    case Spin(_) => Mark(x, w, weak)
    case Holding => Unlock(x, w, weak, Find(lot, x.addr))
    case ClearCas(_) => Unlock(x, w, weak, Find(lot, x.addr))
    case Owes => Unlock(x, w, weak, Find(lot, x.addr))
    case Notify(_) => Unlock(x, w, weak, Find(lot, x.addr))
    case ToLot => Park(x, w, 0)
    case Recheck => Park(x, w, 0)
    case Enlist => Park(x, w, Acquire(lot, x.addr).1)
    case Check(_) => Park(x, w, 0)
    case ToSleep(_) => Park(x, w, 0)
    case Awake(_) => Park(x, w, 0)
    case Leaving(_) => Park(x, w, 0)
    case Asleep(_) => Local(x, w)
  }

  function WakeIn(x: Actor, b: nat): Actor {
    if x.Actor? && x.at == Asleep(b) then x.(at := Awake(b)) else x
  }

  /** `notify_all`. */
  function NotifyAll(actors: seq<Actor>, b: nat): (r: seq<Actor>)
    ensures |r| == |actors|
    ensures forall k :: 0 <= k < |r| ==> r[k] == WakeIn(actors[k], b)
  {
    if actors == [] then []
    else [WakeIn(actors[0], b)] + NotifyAll(actors[1..], b)
  }

  /** The address a step is about. */
  function AddrOf(s: Sys, i: nat, a: Action): Addr
    requires i < |s.actors|
  {
    if a.Begin? then a.addr else if s.actors[i].Actor? then s.actors[i].addr else 0
  }

  ghost function LocalStep(recheck: bool, s: Sys, i: nat, a: Action): Local
    requires Can(s, i, a)
  {
    var w := s.words[AddrOf(s, i, a)];
    match a
    case Begin(addr, exclusive, blocking) => Local(Actor(addr, exclusive, blocking, TryLoad), w)
    case WakeUp => Move(s.actors[i], Awake(s.actors[i].at.bucket), w)
    case Go(weak) => Step(recheck, s.actors[i], w, weak, s.lot)
  }

  function LotAfter(lot: Lot, x: Actor): Lot {
    if x.Actor? && x.at.Enlist? then Acquire(lot, x.addr).0
    else if x.Actor? && x.at.Leaving? then Leave(lot, x.at.bucket)
    else lot
  }

  predicate Inside(x: Actor) { x.Actor? && HoldsLot(x.at) }

  function HolderAfter(holder: Option<nat>, i: nat, x: Actor, y: Actor): Option<nat> {
    if Inside(y) then Some(i) else if Inside(x) then None else holder
  }

  function OthersAfter(actors: seq<Actor>, x: Actor): (r: seq<Actor>)
    ensures |r| == |actors|
  {
    if x.Actor? && x.at.Notify? then NotifyAll(actors, x.at.bucket) else actors
  }

  ghost function Do(recheck: bool, s: Sys, i: nat, a: Action): Sys
    requires Can(s, i, a)
  {
    var x := s.actors[i];
    var l := LocalStep(recheck, s, i, a);
    Sys(s.words[AddrOf(s, i, a) := l.word],
        LotAfter(s.lot, x),
        HolderAfter(s.lotHolder, i, x, l.actor),
        OthersAfter(s.actors, x)[i := l.actor])
  }

  // ---------------------------------------------------------------------------
  // Counting actors

  datatype Kind = ReadersOf(addr: Addr) | UsersOf(bucket: nat)

  function Weight(k: Kind, x: Actor): nat {
    match k
    case ReadersOf(a) => if Counted(x) && x.addr == a then 1 else 0
    case UsersOf(b) => if InBucket(x, b) then 1 else 0
  }

  function Total(k: Kind, xs: seq<Actor>): nat {
    if xs == [] then 0 else Weight(k, xs[0]) + Total(k, xs[1..])
  }

  lemma {:induction false} TotalUpdate(k: Kind, xs: seq<Actor>, i: nat, y: Actor)
    requires i < |xs|
    ensures Total(k, xs[i := y]) == Total(k, xs) - Weight(k, xs[i]) + Weight(k, y)
  {
    if i > 0 {
      assert xs[i := y][1..] == xs[1..][i - 1 := y];
      TotalUpdate(k, xs[1..], i - 1, y);
    }
  }

  lemma {:induction false} TotalSame(k: Kind, xs: seq<Actor>, ys: seq<Actor>)
    requires |xs| == |ys| && forall i :: 0 <= i < |xs| ==> Weight(k, xs[i]) == Weight(k, ys[i])
    ensures Total(k, xs) == Total(k, ys)
  {
    if xs != [] { TotalSame(k, xs[1..], ys[1..]); }
  }

  lemma {:induction false} TotalBound(k: Kind, xs: seq<Actor>, i: nat)
    requires i < |xs|
    ensures Weight(k, xs[i]) <= Total(k, xs)
  {
    if i > 0 { TotalBound(k, xs[1..], i - 1); }
  }

  lemma {:induction false} TotalIdle(k: Kind, xs: seq<Actor>)
    requires forall i :: 0 <= i < |xs| ==> xs[i] == Idle
    ensures Total(k, xs) == 0
  {
    if xs != [] { TotalIdle(k, xs[1..]); }
  }

  // ---------------------------------------------------------------------------
  // The words

  predicate SeenOk(x: Actor) {
    x.Actor? ==>
      && (x.at.Cas? ==> x.exclusive && !x.at.seen.exclusive && x.at.seen.readers == 0)
      && (x.at.FetchAdd? ==> !x.exclusive && !x.at.seen.exclusive)
      && (x.at.BackOut? ==> !x.exclusive)
  }

  ghost predicate Known(s: Sys, x: Actor) { x.Actor? ==> x.addr in s.words }

  /** The reader count is the readers that hold the lock and those that still have to back out; the
      exclusive bit is set exactly while one actor holds the lock as a writer. */
  ghost predicate WordsOk(s: Sys) {
    && (forall i :: 0 <= i < |s.actors| ==> SeenOk(s.actors[i]) && Known(s, s.actors[i]))
    && (forall a :: a in s.words ==> s.words[a].readers == Total(ReadersOf(a), s.actors))
    && (forall i, a :: 0 <= i < |s.actors| && a in s.words && Writes(s.actors[i], a) ==> s.words[a].exclusive)
    && (forall a :: a in s.words && s.words[a].exclusive ==> HasWriter(s.actors, a))
    && OneWriter(s.actors)
  }

  ghost predicate OneWriter(xs: seq<Actor>) {
    forall i, j, a :: 0 <= i < |xs| && 0 <= j < |xs| && Writes(xs[i], a) && Writes(xs[j], a) ==> i == j
  }

  /** Never a writer together with a reader. */
  ghost predicate Excludes(s: Sys) {
    forall i, j, a :: 0 <= i < |s.actors| && 0 <= j < |s.actors| && Writes(s.actors[i], a) ==> !Reads(s.actors[j], a)
  }

  /** One actor moves on and one word changes: how the exclusive bit follows the writer. */
  predicate ExclusiveFollows(x: Actor, y: Actor, a: Addr, before: Word, after: Word) {
    || (Writes(x, a) == Writes(y, a) && before.exclusive == after.exclusive)
    || (!Writes(x, a) && Writes(y, a) && !before.exclusive && after.exclusive)
    || (Writes(x, a) && !Writes(y, a) && !after.exclusive)
  }

  predicate On(x: Actor, a: Addr) { x.Actor? ==> x.addr == a }

  ghost predicate Moved(s: Sys, t: Sys, i: nat, y: Actor, a: Addr, w: Word) {
    && i < |s.actors| && a in s.words && On(s.actors[i], a) && On(y, a)
    && t.actors == s.actors[i := y] && t.words == s.words[a := w]
  }

  lemma WordsKept(s: Sys, t: Sys, i: nat, y: Actor, a: Addr, w: Word)
    requires WordsOk(s) && Moved(s, t, i, y, a, w) && SeenOk(y)
    requires w.readers + Weight(ReadersOf(a), s.actors[i]) == s.words[a].readers + Weight(ReadersOf(a), y)
    requires ExclusiveFollows(s.actors[i], y, a, s.words[a], w)
    ensures WordsOk(t)
  {
    CountKept(s, t, i, y, a, w);
    WriterKept(s, t, i, y, a, w);
    OneWriterKept(s, t, i, y, a, w);
  }

  lemma OneWriterKept(s: Sys, t: Sys, i: nat, y: Actor, a: Addr, w: Word)
    requires Moved(s, t, i, y, a, w) && ExclusiveFollows(s.actors[i], y, a, s.words[a], w)
    requires forall k, b :: 0 <= k < |s.actors| && b in s.words && Writes(s.actors[k], b) ==> s.words[b].exclusive
    requires OneWriter(s.actors)
    ensures forall k, b :: 0 <= k < |t.actors| && b in t.words && Writes(t.actors[k], b) ==> t.words[b].exclusive
    ensures OneWriter(t.actors)
  {
  }

  ghost predicate HasWriter(xs: seq<Actor>, a: Addr) {
    exists i :: 0 <= i < |xs| && Writes(xs[i], a)
  }

  lemma WriterKept(s: Sys, t: Sys, i: nat, y: Actor, a: Addr, w: Word)
    requires Moved(s, t, i, y, a, w) && ExclusiveFollows(s.actors[i], y, a, s.words[a], w)
    requires forall b :: b in s.words && s.words[b].exclusive ==> HasWriter(s.actors, b)
    ensures forall b :: b in t.words && t.words[b].exclusive ==> HasWriter(t.actors, b)
  {
    forall b | b in t.words && t.words[b].exclusive
      ensures HasWriter(t.actors, b)
    {
      if b == a && Writes(y, a) {
        assert Writes(t.actors[i], b);
      } else {
        var k :| 0 <= k < |s.actors| && Writes(s.actors[k], b);
        assert Writes(t.actors[k], b);
      }
    }
  }

  lemma CountKept(s: Sys, t: Sys, i: nat, y: Actor, a: Addr, w: Word)
    requires Moved(s, t, i, y, a, w)
    requires forall b :: b in s.words ==> s.words[b].readers == Total(ReadersOf(b), s.actors)
    requires w.readers + Weight(ReadersOf(a), s.actors[i]) == s.words[a].readers + Weight(ReadersOf(a), y)
    ensures forall b :: b in t.words ==> t.words[b].readers == Total(ReadersOf(b), t.actors)
  {
    forall b | b in t.words
      ensures t.words[b].readers == Total(ReadersOf(b), t.actors)
    {
      TotalUpdate(ReadersOf(b), s.actors, i, y);
    }
  }

  lemma ExcludesKept(s: Sys, t: Sys, i: nat, y: Actor, a: Addr, w: Word)
    requires WordsOk(s) && Excludes(s) && Moved(s, t, i, y, a, w)
    requires Reads(y, a) ==> Reads(s.actors[i], a) || !s.words[a].exclusive
    requires Writes(y, a) ==> Writes(s.actors[i], a) || s.words[a].readers == 0
    ensures Excludes(t)
  {
    forall j, k, b | 0 <= j < |t.actors| && 0 <= k < |t.actors| && Writes(t.actors[j], b)
      ensures !Reads(t.actors[k], b)
    {
      if s.words[a].readers == 0 && j == i && k != i && b == a {
        TotalBound(ReadersOf(a), s.actors, k);
      }
    }
  }

  // ---------------------------------------------------------------------------
  // Every step keeps the words in order

  /** What a step may do to the count, the exclusive bit and the holders. */
  predicate Fair(x: Actor, w: Word, l: Local, a: Addr) {
    && On(l.actor, a) && SeenOk(l.actor)
    && l.word.readers + Weight(ReadersOf(a), x) == w.readers + Weight(ReadersOf(a), l.actor)
    && ExclusiveFollows(x, l.actor, a, w, l.word)
    && (Writes(l.actor, a) ==> Writes(x, a) || w.readers == 0)
  }

  ghost predicate StepReady(x: Actor, w: Word) {
    x.Actor? && (Counted(x) ==> w.readers > 0) && SeenOk(x) && (Writes(x, x.addr) ==> w.exclusive)
  }

  lemma TryIsFair(recheck: bool, x: Actor, w: Word, weak: bool)
    requires StepReady(x, w) && (x.at.TryLoad? || x.at.FetchAdd? || x.at.BackOut? || x.at.Cas?)
    ensures Fair(x, w, Try(recheck, x, w, weak), x.addr)
  {
  }

  lemma UnlockIsFair(x: Actor, w: Word, weak: bool, found: Option<nat>)
    requires StepReady(x, w) && (x.at.Holding? || x.at.ClearCas? || x.at.Owes? || x.at.Notify?)
    ensures Fair(x, w, Unlock(x, w, weak, found), x.addr)
  {
  }

  lemma MarkIsFair(x: Actor, w: Word, weak: bool)
    requires StepReady(x, w) && (x.at.MarkLoad? || x.at.MarkCas? || x.at.Spin?)
    ensures Fair(x, w, Mark(x, w, weak), x.addr)
  {
  }

  lemma ParkIsFair(x: Actor, w: Word, bucket: nat)
    requires StepReady(x, w) && (HoldsLot(x.at) || x.at.ToLot? || x.at.Awake?)
    ensures Fair(x, w, Park(x, w, bucket), x.addr)
  {
  }

  lemma StepIsFair(recheck: bool, x: Actor, w: Word, weak: bool, lot: Lot)
    requires StepReady(x, w) && !x.at.Asleep?
    ensures Fair(x, w, Step(recheck, x, w, weak, lot), x.addr)
  {
    if x.at.TryLoad? || x.at.FetchAdd? || x.at.BackOut? || x.at.Cas? {
      TryIsFair(recheck, x, w, weak);
    } else if x.at.Holding? || x.at.ClearCas? || x.at.Owes? || x.at.Notify? {
      UnlockIsFair(x, w, weak, Find(lot, x.addr));
    } else if x.at.MarkLoad? || x.at.MarkCas? || x.at.Spin? {
      MarkIsFair(x, w, weak);
    } else {
      ParkIsFair(x, w, if x.at.Enlist? then Acquire(lot, x.addr).1 else 0);
    }
  }

  lemma LocalIsFair(recheck: bool, s: Sys, i: nat, a: Action)
    requires WordsOk(s) && Can(s, i, a)
    ensures AddrOf(s, i, a) in s.words && On(s.actors[i], AddrOf(s, i, a))
    ensures Fair(s.actors[i], s.words[AddrOf(s, i, a)], LocalStep(recheck, s, i, a), AddrOf(s, i, a))
  {
    assert SeenOk(s.actors[i]);
    if a.Go? {
      StepIsFair(recheck, s.actors[i], s.words[s.actors[i].addr], a.weak, s.lot);
    }
  }

  lemma NotifyKeepsWords(s: Sys, b: nat)
    requires WordsOk(s)
    ensures var u := s.(actors := NotifyAll(s.actors, b)); WordsOk(u) && (Excludes(s) ==> Excludes(u))
  {
    var u := s.(actors := NotifyAll(s.actors, b));
    forall a | a in u.words
      ensures u.words[a].readers == Total(ReadersOf(a), u.actors)
    {
      TotalSame(ReadersOf(a), s.actors, u.actors);
    }
    NotifiedHold(s.actors, b);
    forall a | a in u.words && u.words[a].exclusive
      ensures HasWriter(u.actors, a)
    {
      var k :| 0 <= k < |s.actors| && Writes(s.actors[k], a);
      assert Writes(u.actors[k], a);
    }
  }

  lemma NotifiedHold(actors: seq<Actor>, b: nat)
    ensures var after := NotifyAll(actors, b);
      && |after| == |actors|
      && (forall k, a :: 0 <= k < |actors| ==> Writes(after[k], a) == Writes(actors[k], a))
      && (forall k, a :: 0 <= k < |actors| ==> Reads(after[k], a) == Reads(actors[k], a))
  {
  }

  /** A step as the move of one actor, after those it notifies have been moved. */
  lemma AsMove(recheck: bool, s: Sys, i: nat, a: Action) returns (u: Sys)
    requires WordsOk(s) && Can(s, i, a)
    ensures WordsOk(u) && (Excludes(s) ==> Excludes(u)) && |u.actors| == |s.actors|
    ensures u == s.(actors := OthersAfter(s.actors, s.actors[i])) && u.actors[i] == s.actors[i]
    ensures AddrOf(s, i, a) in s.words
    ensures var l := LocalStep(recheck, s, i, a);
      && Moved(u, Do(recheck, s, i, a), i, l.actor, AddrOf(s, i, a), l.word)
      && Fair(u.actors[i], u.words[AddrOf(s, i, a)], l, AddrOf(s, i, a))
  {
    var x := s.actors[i];
    u := s.(actors := OthersAfter(s.actors, x));
    if x.Actor? && x.at.Notify? {
      NotifyKeepsWords(s, x.at.bucket);
    }
    LocalIsFair(recheck, s, i, a);
  }

  /** Whichever value is tested: the count and the exclusive bit say who is there. */
  lemma WordsStep(recheck: bool, s: Sys, i: nat, a: Action)
    requires WordsOk(s) && Can(s, i, a)
    ensures WordsOk(Do(recheck, s, i, a))
  {
    var u := AsMove(recheck, s, i, a);
    var l := LocalStep(recheck, s, i, a);
    WordsKept(u, Do(recheck, s, i, a), i, l.actor, AddrOf(s, i, a), l.word);
  }

  /** The one step that can let a reader in beside a writer: the count goes up on a word that is
      locked exclusively, and nobody looks at what was fetched. */
  ghost predicate FetchesExclusive(s: Sys, i: nat, a: Action)
    requires Can(s, i, a)
  {
    a.Go? && s.actors[i].at.FetchAdd? && s.words[s.actors[i].addr].exclusive
  }

  lemma EntersFree(recheck: bool, x: Actor, w: Word, weak: bool, lot: Lot)
    requires x.Actor? && !x.at.Asleep? && (Counted(x) ==> w.readers > 0) && SeenOk(x)
    requires recheck || !(x.at.FetchAdd? && w.exclusive)
    ensures Reads(Step(recheck, x, w, weak, lot).actor, x.addr) ==> !w.exclusive
  {
  }

  lemma ExcludesStep(recheck: bool, s: Sys, i: nat, a: Action)
    requires WordsOk(s) && Excludes(s) && Can(s, i, a) && (recheck || !FetchesExclusive(s, i, a))
    ensures Excludes(Do(recheck, s, i, a))
  {
    var u := AsMove(recheck, s, i, a);
    var l := LocalStep(recheck, s, i, a);
    if a.Go? {
      assert SeenOk(s.actors[i]);
      EntersFree(recheck, s.actors[i], s.words[s.actors[i].addr], a.weak, s.lot);
    }
    ExcludesKept(u, Do(recheck, s, i, a), i, l.actor, AddrOf(s, i, a), l.word);
  }

  // ---------------------------------------------------------------------------
  // The lot

  function Waiting(lot: Lot, b: nat): nat {
    if Active(lot, b).Some? then Active(lot, b).value.waiting else 0
  }

  /** Who is in a bucket is counted in it and waits for its address; one actor at most is inside the
      lot's mutex. */
  ghost predicate LotInv(s: Sys) {
    && LotOk(s.lot)
    && (forall b: nat :: Waiting(s.lot, b) == Total(UsersOf(b), s.actors))
    && (forall i, b :: 0 <= i < |s.actors| && InBucket(s.actors[i], b) ==> ServesFor(s.lot, b, s.actors[i].addr))
    && (forall i :: 0 <= i < |s.actors| && Inside(s.actors[i]) ==> s.lotHolder == Some(i))
    && (forall i :: s.lotHolder == Some(i) ==> i < |s.actors| && Inside(s.actors[i]))
  }

  predicate ServesFor(lot: Lot, b: nat, a: Addr) { Active(lot, b).Some? && Active(lot, b).value.address == a }

  /** How a step changes one bucket. */
  ghost predicate BucketFollows(s: Sys, lot: Lot, x: Actor, y: Actor, b: nat) {
    && Waiting(lot, b) + Weight(UsersOf(b), x) == Waiting(s.lot, b) + Weight(UsersOf(b), y)
    && (Active(s.lot, b).Some? && Active(lot, b).Some? ==>
      Active(lot, b).value.address == Active(s.lot, b).value.address)
    && (InBucket(y, b) ==> ServesFor(lot, b, y.addr))
  }

  lemma UsersKept(s: Sys, t: Sys, i: nat, y: Actor, b: nat)
    requires i < |s.actors| && t.actors == s.actors[i := y]
    requires Waiting(s.lot, b) == Total(UsersOf(b), s.actors) && BucketFollows(s, t.lot, s.actors[i], y, b)
    ensures Waiting(t.lot, b) == Total(UsersOf(b), t.actors)
  {
    TotalUpdate(UsersOf(b), s.actors, i, y);
  }

  lemma ServedKept(s: Sys, t: Sys, i: nat, y: Actor, k: nat, b: nat)
    requires LotInv(s) && i < |s.actors| && t.actors == s.actors[i := y] && BucketFollows(s, t.lot, s.actors[i], y, b)
    requires k < |t.actors| && InBucket(t.actors[k], b)
    ensures ServesFor(t.lot, b, t.actors[k].addr)
  {
    if k != i {
      assert ServesFor(s.lot, b, s.actors[k].addr);
      UsersKept(s, t, i, y, b);
      TotalBound(UsersOf(b), t.actors, k);
    }
  }

  lemma EnlistFollows(s: Sys, x: Actor, b: nat)
    requires LotOk(s.lot) && x.Actor? && x.at.Enlist?
    ensures LotOk(Acquire(s.lot, x.addr).0)
    ensures BucketFollows(s, Acquire(s.lot, x.addr).0, x, x.(at := Check(Acquire(s.lot, x.addr).1)), b)
  {
    AcquireMeans(s.lot, x.addr);
  }

  lemma LeavingFollows(s: Sys, x: Actor, b: nat)
    requires LotOk(s.lot) && x.Actor? && x.at.Leaving? && ServesFor(s.lot, x.at.bucket, x.addr)
    requires Waiting(s.lot, x.at.bucket) > 0
    ensures LotOk(Leave(s.lot, x.at.bucket))
    ensures BucketFollows(s, Leave(s.lot, x.at.bucket), x, x.(at := TryLoad), b)
  {
    var left := x.at.bucket;
    LeaveMeans(s.lot, left);
    assert Weight(UsersOf(b), x) == if b == left then 1 else 0;
  }

  lemma LeaverIsCounted(s: Sys, i: nat, b: nat)
    requires LotInv(s) && i < |s.actors| && InBucket(s.actors[i], b)
    ensures Waiting(s.lot, b) > 0 && ServesFor(s.lot, b, s.actors[i].addr)
  {
    TotalBound(UsersOf(b), s.actors, i);
  }

  lemma StepFollows(recheck: bool, s: Sys, i: nat, a: Action, b: nat)
    requires LotInv(s) && Can(s, i, a)
    ensures LotOk(LotAfter(s.lot, s.actors[i]))
    ensures BucketFollows(s, LotAfter(s.lot, s.actors[i]), s.actors[i], LocalStep(recheck, s, i, a).actor, b)
  {
    var x := s.actors[i];
    if x.Actor? && x.at.Enlist? {
      EnlistIs(recheck, s, i, a);
      EnlistFollows(s, x, b);
    } else if x.Actor? && x.at.Leaving? {
      LeavingIs(recheck, s, i, a);
      LeaverIsCounted(s, i, x.at.bucket);
      LeavingFollows(s, x, b);
    } else {
      OutsideFollows(recheck, s, i, a, b);
    }
  }

  lemma EnlistIs(recheck: bool, s: Sys, i: nat, a: Action)
    requires Can(s, i, a) && s.actors[i].Actor? && s.actors[i].at.Enlist?
    ensures var x, after := s.actors[i], Acquire(s.lot, s.actors[i].addr);
      && LotAfter(s.lot, x) == after.0
      && LocalStep(recheck, s, i, a).actor == x.(at := Check(after.1))
  {
  }

  lemma LeavingIs(recheck: bool, s: Sys, i: nat, a: Action)
    requires Can(s, i, a) && s.actors[i].Actor? && s.actors[i].at.Leaving?
    ensures var x := s.actors[i];
      && LotAfter(s.lot, x) == Leave(s.lot, x.at.bucket)
      && LocalStep(recheck, s, i, a).actor == x.(at := TryLoad)
  {
  }

  lemma OutsideFollows(recheck: bool, s: Sys, i: nat, a: Action, b: nat)
    requires LotInv(s) && Can(s, i, a) && !(s.actors[i].Actor? && (s.actors[i].at.Enlist? || s.actors[i].at.Leaving?))
    ensures LotAfter(s.lot, s.actors[i]) == s.lot
    ensures BucketFollows(s, s.lot, s.actors[i], LocalStep(recheck, s, i, a).actor, b)
  {
    OtherStepFollows(recheck, s, i, a, b);
    StayFollows(s, i, LocalStep(recheck, s, i, a).actor, b);
  }

  lemma StayFollows(s: Sys, i: nat, y: Actor, b: nat)
    requires LotInv(s) && i < |s.actors| && InBucket(y, b) == InBucket(s.actors[i], b)
    requires InBucket(y, b) ==> y.addr == s.actors[i].addr
    ensures BucketFollows(s, s.lot, s.actors[i], y, b)
  {
  }

  /** An actor stays in its bucket, or out of all, and with its address. */
  predicate Stays(x: Actor, y: Actor, b: nat) {
    InBucket(y, b) == InBucket(x, b) && (x.Actor? ==> On(y, x.addr))
  }

  lemma TryStays(recheck: bool, x: Actor, w: Word, weak: bool, b: nat)
    requires x.Actor? && (x.at.TryLoad? || x.at.FetchAdd? || x.at.BackOut? || x.at.Cas?)
      && (Counted(x) ==> w.readers > 0)
    ensures Stays(x, Try(recheck, x, w, weak).actor, b)
  {
  }

  lemma UnlockStays(x: Actor, w: Word, weak: bool, found: Option<nat>, b: nat)
    requires x.Actor? && (x.at.Holding? || x.at.ClearCas? || x.at.Owes? || x.at.Notify?)
      && (Counted(x) ==> w.readers > 0)
    ensures Stays(x, Unlock(x, w, weak, found).actor, b)
  {
  }

  lemma ParkStays(x: Actor, w: Word, b: nat)
    requires x.Actor? && (HoldsLot(x.at) || x.at.ToLot? || x.at.Awake?) && !x.at.Enlist? && !x.at.Leaving?
    ensures Stays(x, Park(x, w, 0).actor, b)
  {
  }

  /** Every other step stays in its bucket, or out of all. */
  lemma StepStays(recheck: bool, x: Actor, w: Word, weak: bool, lot: Lot, b: nat)
    requires x.Actor? && !x.at.Asleep? && (Counted(x) ==> w.readers > 0) && !x.at.Enlist? && !x.at.Leaving?
    ensures Stays(x, Step(recheck, x, w, weak, lot).actor, b)
  {
    if x.at.TryLoad? || x.at.FetchAdd? || x.at.BackOut? || x.at.Cas? {
      TryStays(recheck, x, w, weak, b);
    } else if x.at.Holding? || x.at.ClearCas? || x.at.Owes? || x.at.Notify? {
      UnlockStays(x, w, weak, Find(lot, x.addr), b);
    } else if !(x.at.MarkLoad? || x.at.MarkCas? || x.at.Spin?) {
      ParkStays(x, w, b);
    }
  }

  lemma OtherStepFollows(recheck: bool, s: Sys, i: nat, a: Action, b: nat)
    requires Can(s, i, a) && !(s.actors[i].Actor? && (s.actors[i].at.Enlist? || s.actors[i].at.Leaving?))
    ensures InBucket(LocalStep(recheck, s, i, a).actor, b) == InBucket(s.actors[i], b)
    ensures On(LocalStep(recheck, s, i, a).actor, AddrOf(s, i, a))
  {
    if a.Go? {
      StepStays(recheck, s.actors[i], s.words[s.actors[i].addr], a.weak, s.lot, b);
    }
  }

  lemma NotifyKeepsLot(s: Sys, b: nat)
    requires LotInv(s)
    ensures LotInv(s.(actors := NotifyAll(s.actors, b)))
  {
    var u := s.(actors := NotifyAll(s.actors, b));
    forall c: nat
      ensures Waiting(u.lot, c) == Total(UsersOf(c), u.actors)
    {
      TotalSame(UsersOf(c), s.actors, u.actors);
    }
    assert forall k, c :: 0 <= k < |s.actors| ==> InBucket(u.actors[k], c) == InBucket(s.actors[k], c);
    assert forall k :: 0 <= k < |s.actors| ==> Inside(u.actors[k]) == Inside(s.actors[k]);
  }

  lemma StepEnters(recheck: bool, x: Actor, w: Word, weak: bool, lot: Lot)
    requires x.Actor? && !x.at.Asleep? && (Counted(x) ==> w.readers > 0)
    ensures Inside(Step(recheck, x, w, weak, lot).actor) ==> Inside(x) || NeedsLot(x.at)
  {
  }

  lemma HolderStep(recheck: bool, s: Sys, i: nat, a: Action)
    requires Can(s, i, a)
    ensures Inside(LocalStep(recheck, s, i, a).actor) && !Inside(s.actors[i]) ==> s.lotHolder.None?
  {
    if a.Go? {
      StepEnters(recheck, s.actors[i], s.words[s.actors[i].addr], a.weak, s.lot);
    }
  }

  lemma LotMoves(s: Sys, t: Sys, i: nat, y: Actor)
    requires LotInv(s) && i < |s.actors| && t.actors == s.actors[i := y] && LotOk(t.lot)
    requires forall b: nat :: BucketFollows(s, t.lot, s.actors[i], y, b)
    requires t.lotHolder == HolderAfter(s.lotHolder, i, s.actors[i], y)
    requires Inside(y) && !Inside(s.actors[i]) ==> s.lotHolder.None?
    ensures LotInv(t)
  {
    forall b: nat
      ensures Waiting(t.lot, b) == Total(UsersOf(b), t.actors)
    {
      UsersKept(s, t, i, y, b);
    }
    forall k, b | 0 <= k < |t.actors| && InBucket(t.actors[k], b)
      ensures ServesFor(t.lot, b, t.actors[k].addr)
    {
      ServedKept(s, t, i, y, k, b);
    }
  }

  lemma LotStep(recheck: bool, s: Sys, i: nat, a: Action)
    requires LotInv(s) && Can(s, i, a)
    ensures LotInv(Do(recheck, s, i, a))
  {
    var x, y := s.actors[i], LocalStep(recheck, s, i, a).actor;
    var u := s.(actors := OthersAfter(s.actors, x));
    if x.Actor? && x.at.Notify? {
      NotifyKeepsLot(s, x.at.bucket);
    }
    forall b: nat
      ensures BucketFollows(u, LotAfter(s.lot, x), x, y, b)
    {
      StepFollows(recheck, s, i, a, b);
    }
    StepFollows(recheck, s, i, a, 0);
    HolderStep(recheck, s, i, a);
    LotMoves(u, Do(recheck, s, i, a), i, y);
  }

  // ---------------------------------------------------------------------------
  // No lost wakeup

  predicate OwesOn(x: Actor, a: Addr) { x.Actor? && x.at.Owes? && x.addr == a }

  predicate NotifiesIn(x: Actor, b: nat) { x.Actor? && x.at == Notify(b) }

  ghost predicate SomeoneOwes(xs: seq<Actor>, a: Addr) {
    exists j :: 0 <= j < |xs| && OwesOn(xs[j], a)
  }

  ghost predicate SomeoneNotifies(xs: seq<Actor>, b: nat) {
    exists j :: 0 <= j < |xs| && NotifiesIn(xs[j], b)
  }

  /** Whoever sleeps, or is about to under the lot's mutex, has an exclusive word with a waiting bit
      before it, or somebody who changed the word and still has to unpark. */
  ghost predicate Safe(s: Sys, x: Actor) {
    x.Actor? ==>
      && x.addr in s.words
      && (x.at.ToSleep? ==> s.words[x.addr].Blocked() || SomeoneOwes(s.actors, x.addr))
      && (x.at.Asleep? ==>
           s.words[x.addr].Blocked() || SomeoneOwes(s.actors, x.addr) || SomeoneNotifies(s.actors, x.at.bucket))
  }

  ghost predicate WakeInv(s: Sys) {
    forall i :: 0 <= i < |s.actors| ==> Safe(s, s.actors[i])
  }

  /** What one step does to sleepers: a word stops being blocked only by a step that then owes an
      unpark, and only a check that failed leads to sleep. */
  predicate Wakes(x: Actor, w: Word, l: Local, lot: Lot) {
    && (x.Actor? ==> w.Blocked() ==> l.word.Blocked() || OwesOn(l.actor, x.addr))
    && (!x.Actor? ==> l.word == w)
    && (l.actor.Actor? && l.actor.at.ToSleep? ==> w.Blocked() && l.word == w)
    && (l.actor.Actor? && l.actor.at.Asleep? ==>
         x.Actor? && x.at == ToSleep(l.actor.at.bucket) && l.actor.addr == x.addr && l.word == w)
  }

  lemma TryWakes(recheck: bool, x: Actor, w: Word, weak: bool, lot: Lot)
    requires x.Actor? && (x.at.TryLoad? || x.at.FetchAdd? || x.at.BackOut? || x.at.Cas?)
      && (Counted(x) ==> w.readers > 0)
    ensures Wakes(x, w, Try(recheck, x, w, weak), lot)
  {
  }

  lemma UnlockWakes(x: Actor, w: Word, weak: bool, found: Option<nat>, lot: Lot)
    requires x.Actor? && (x.at.Holding? || x.at.ClearCas? || x.at.Owes? || x.at.Notify?)
      && (Counted(x) ==> w.readers > 0)
    ensures Wakes(x, w, Unlock(x, w, weak, found), lot)
  {
  }

  lemma ParkWakes(x: Actor, w: Word, bucket: nat, lot: Lot)
    requires x.Actor? && (HoldsLot(x.at) || x.at.ToLot? || x.at.Awake?)
    ensures Wakes(x, w, Park(x, w, bucket), lot)
  {
  }

  lemma StepWakes(recheck: bool, x: Actor, w: Word, weak: bool, lot: Lot)
    requires x.Actor? && !x.at.Asleep? && (Counted(x) ==> w.readers > 0)
    ensures Wakes(x, w, Step(recheck, x, w, weak, lot), lot)
  {
    if x.at.TryLoad? || x.at.FetchAdd? || x.at.BackOut? || x.at.Cas? {
      TryWakes(recheck, x, w, weak, lot);
    } else if x.at.Holding? || x.at.ClearCas? || x.at.Owes? || x.at.Notify? {
      UnlockWakes(x, w, weak, Find(lot, x.addr), lot);
    } else if !(x.at.MarkLoad? || x.at.MarkCas? || x.at.Spin?) {
      ParkWakes(x, w, if x.at.Enlist? then Acquire(lot, x.addr).1 else 0, lot);
    }
  }

  lemma LocalWakes(recheck: bool, s: Sys, i: nat, a: Action)
    requires Can(s, i, a)
    ensures AddrOf(s, i, a) in s.words
    ensures Wakes(s.actors[i], s.words[AddrOf(s, i, a)], LocalStep(recheck, s, i, a), s.lot)
    ensures s.actors[i].Actor? ==> AddrOf(s, i, a) == s.actors[i].addr
    ensures On(LocalStep(recheck, s, i, a).actor, AddrOf(s, i, a))
  {
    if a.Go? {
      StepWakes(recheck, s.actors[i], s.words[s.actors[i].addr], a.weak, s.lot);
    }
  }

  /** Debts are kept by everybody but the one that moves. */
  lemma DebtsKept(s: Sys, t: Sys, i: nat, x: Actor, a: Addr, b: nat)
    requires i < |s.actors| && |t.actors| == |s.actors|
    requires forall j :: 0 <= j < |s.actors| && j != i ==>
      t.actors[j] == s.actors[j] || (s.actors[j].Actor? && s.actors[j].at.Asleep?)
    ensures SomeoneOwes(s.actors, a) ==> SomeoneOwes(t.actors, a) || OwesOn(s.actors[i], a)
    ensures SomeoneNotifies(s.actors, b) ==> SomeoneNotifies(t.actors, b) || NotifiesIn(s.actors[i], b)
  {
    if SomeoneOwes(s.actors, a) {
      var j :| 0 <= j < |s.actors| && OwesOn(s.actors[j], a);
      assert j != i ==> OwesOn(t.actors[j], a);
    }
    if SomeoneNotifies(s.actors, b) {
      var j :| 0 <= j < |s.actors| && NotifiesIn(s.actors[j], b);
      assert j != i ==> NotifiesIn(t.actors[j], b);
    }
  }

  lemma OthersOf(recheck: bool, s: Sys, i: nat, a: Action, k: nat)
    requires Can(s, i, a) && k < |s.actors| && k != i
    ensures var t, x := Do(recheck, s, i, a), s.actors[i];
      && |t.actors| == |s.actors| && t.actors[i] == LocalStep(recheck, s, i, a).actor
      && t.actors[k] == (if x.Actor? && x.at.Notify? then WakeIn(s.actors[k], x.at.bucket) else s.actors[k])
  {
  }

  /** A step by somebody else leaves a sleeper safe. */
  lemma SleeperStaysSafe(recheck: bool, s: Sys, i: nat, a: Action, k: nat)
    requires LotInv(s) && WakeInv(s) && Can(s, i, a) && k < |s.actors| && k != i
    ensures k < |Do(recheck, s, i, a).actors| && Safe(Do(recheck, s, i, a), Do(recheck, s, i, a).actors[k])
  {
    var t, x, y := Do(recheck, s, i, a), s.actors[i], LocalStep(recheck, s, i, a).actor;
    OthersOf(recheck, s, i, a, k);
    LocalWakes(recheck, s, i, a);
    var z := s.actors[k];
    assert Safe(s, z);
    if z.Actor? && (z.at.ToSleep? || z.at.Asleep?) {
      forall j | 0 <= j < |s.actors| && j != i
        ensures t.actors[j] == s.actors[j] || (s.actors[j].Actor? && s.actors[j].at.Asleep?)
      {
        OthersOf(recheck, s, i, a, j);
      }
      DebtsKept(s, t, i, x, z.addr, z.at.bucket);
      assert OwesOn(y, z.addr) ==> OwesOn(t.actors[i], z.addr);
      if OwesOn(x, z.addr) {
        assert InBucket(z, z.at.bucket);
        DebtIsPassedOn(recheck, s, i, a, k);
        assert NotifiesIn(t.actors[i], z.at.bucket);
      }
    }
  }

  /** `UnparkAll` finds the bucket of whoever sleeps, and nobody is about to sleep meanwhile. */
  lemma DebtIsPassedOn(recheck: bool, s: Sys, i: nat, a: Action, k: nat)
    requires LotInv(s) && Can(s, i, a) && k < |s.actors| && k != i
    requires s.actors[k].Actor? && (s.actors[k].at.ToSleep? || s.actors[k].at.Asleep?)
      && OwesOn(s.actors[i], s.actors[k].addr)
    ensures s.actors[k].at.Asleep? && NotifiesIn(LocalStep(recheck, s, i, a).actor, s.actors[k].at.bucket)
  {
    var z := s.actors[k];
    assert InBucket(z, z.at.bucket) && ServesFor(s.lot, z.at.bucket, z.addr);
    FindIsActive(s.lot, z.addr);
    assert Inside(z) ==> s.lotHolder == Some(k);
  }

  /** The actor that moves is safe, too. */
  lemma MoverIsSafe(recheck: bool, s: Sys, i: nat, a: Action)
    requires LotInv(s) && WakeInv(s) && Can(s, i, a)
    ensures i < |Do(recheck, s, i, a).actors| && Safe(Do(recheck, s, i, a), Do(recheck, s, i, a).actors[i])
  {
    var t, x, y := Do(recheck, s, i, a), s.actors[i], LocalStep(recheck, s, i, a).actor;
    LocalWakes(recheck, s, i, a);
    assert Safe(s, x);
    if y.Actor? && y.at.Asleep? {
      forall j | 0 <= j < |s.actors| && j != i
        ensures t.actors[j] == s.actors[j] || (s.actors[j].Actor? && s.actors[j].at.Asleep?)
      {
        OthersOf(recheck, s, i, a, j);
      }
      DebtsKept(s, t, i, x, y.addr, y.at.bucket);
    }
  }

  lemma WakeStep(recheck: bool, s: Sys, i: nat, a: Action)
    requires LotInv(s) && WakeInv(s) && Can(s, i, a)
    ensures WakeInv(Do(recheck, s, i, a))
  {
    forall k | 0 <= k < |s.actors|
      ensures Safe(Do(recheck, s, i, a), Do(recheck, s, i, a).actors[k])
    {
      if k == i {
        MoverIsSafe(recheck, s, i, a);
      } else {
        SleeperStaysSafe(recheck, s, i, a, k);
      }
    }
  }

  // ---------------------------------------------------------------------------
  // Runs

  ghost predicate Reaches(recheck: bool, s: Sys, run: seq<(nat, Action)>, t: Sys)
    decreases |run|
  {
    if run == [] then s == t
    else Can(s, run[0].0, run[0].1) && Reaches(recheck, Do(recheck, s, run[0].0, run[0].1), run[1..], t)
  }

  ghost predicate Start(s: Sys) {
    && (forall a :: a in s.words ==> s.words[a] == Word(false, false, false, 0))
    && s.lot == Lot([], [], 0) && s.lotHolder.None?
    && (forall i :: 0 <= i < |s.actors| ==> s.actors[i] == Idle)
  }

  ghost predicate Inv(s: Sys) { WordsOk(s) && LotInv(s) && WakeInv(s) }

  lemma StartOk(s: Sys)
    requires Start(s)
    ensures Inv(s) && Excludes(s)
  {
    forall a | a in s.words
      ensures s.words[a].readers == Total(ReadersOf(a), s.actors)
    {
      TotalIdle(ReadersOf(a), s.actors);
    }
    forall b: nat
      ensures Waiting(s.lot, b) == Total(UsersOf(b), s.actors)
    {
      TotalIdle(UsersOf(b), s.actors);
    }
  }

  lemma InvStep(recheck: bool, s: Sys, i: nat, a: Action)
    requires Inv(s) && Can(s, i, a)
    ensures Inv(Do(recheck, s, i, a))
  {
    WordsStep(recheck, s, i, a);
    LotStep(recheck, s, i, a);
    WakeStep(recheck, s, i, a);
  }

  lemma {:induction false} InvRun(recheck: bool, s: Sys, run: seq<(nat, Action)>, t: Sys)
    requires Inv(s) && Reaches(recheck, s, run, t)
    ensures Inv(t) && |t.actors| == |s.actors| && t.words.Keys == s.words.Keys
    decreases |run|
  {
    if run != [] {
      InvStep(recheck, s, run[0].0, run[0].1);
      var u := Do(recheck, s, run[0].0, run[0].1);
      assert AddrOf(s, run[0].0, run[0].1) in s.words;
      InvRun(recheck, u, run[1..], t);
    }
  }

  lemma {:induction false} ExcludesRun(s: Sys, run: seq<(nat, Action)>, t: Sys)
    requires WordsOk(s) && Excludes(s) && Reaches(true, s, run, t)
    ensures Excludes(t)
    decreases |run|
  {
    if run != [] {
      WordsStep(true, s, run[0].0, run[0].1);
      ExcludesStep(true, s, run[0].0, run[0].1);
      ExcludesRun(Do(true, s, run[0].0, run[0].1), run[1..], t);
    }
  }

  /** With the test on the fetched value: in every state of every run, a mutex that is held by a
      writer is held by nobody else, and the reader count is the readers that hold it and those
      that have yet to back out. */
  lemma MutualExclusion(s: Sys, run: seq<(nat, Action)>, t: Sys, i: nat, j: nat, a: Addr)
    requires Start(s) && Reaches(true, s, run, t) && i < |t.actors| && j < |t.actors| && i != j && a in t.words
    ensures Writes(t.actors[i], a) ==> !Writes(t.actors[j], a) && !Reads(t.actors[j], a)
    ensures t.words[a].readers == Total(ReadersOf(a), t.actors)
    ensures t.words[a].exclusive <==> HasWriter(t.actors, a)
  {
    StartOk(s);
    InvRun(true, s, run, t);
    ExcludesRun(s, run, t);
  }

  /** No wakeup is lost, whichever value is tested: if an actor is parked, then a writer holds its
      mutex and will find a waiting bit when it unlocks, or somebody is on the way to wake the
      actor's bucket up. */
  lemma NoLostWakeup(recheck: bool, s: Sys, run: seq<(nat, Action)>, t: Sys, i: nat)
    requires Start(s) && Reaches(recheck, s, run, t) && i < |t.actors| && t.actors[i].Actor? && t.actors[i].at.Asleep?
    ensures var a, b := t.actors[i].addr, t.actors[i].at.bucket;
      && a in t.words
      && ServesFor(t.lot, b, a)
      && ((t.words[a].AnyoneWaiting() && HasWriter(t.actors, a))
          || SomeoneOwes(t.actors, a) || SomeoneNotifies(t.actors, b))
  {
    StartOk(s);
    InvRun(recheck, s, run, t);
    assert Safe(t, t.actors[i]);
    assert InBucket(t.actors[i], t.actors[i].at.bucket);
  }

  /** The assertions of `unlock` and `unlock_shared`, and the room in the reader field: fewer than
      2^61 actors never make the count spill over. */
  lemma SourceAssertionsHold(recheck: bool, s: Sys, run: seq<(nat, Action)>, t: Sys, i: nat)
    requires Start(s) && Reaches(recheck, s, run, t) && i < |t.actors| && t.actors[i].Actor?
    ensures t.actors[i].addr in t.words
    ensures var w := t.words[t.actors[i].addr];
      && (t.actors[i].at.Holding? && t.actors[i].exclusive ==> w.exclusive)
      && (Counted(t.actors[i]) ==> w.readers > 0)
      && w.readers <= |s.actors|
      && (|s.actors| < MAX_READERS ==> Encode(w) < 0x1_0000_0000_0000_0000)
  {
    StartOk(s);
    InvRun(recheck, s, run, t);
    var a := t.actors[i].addr;
    assert Known(t, t.actors[i]);
    assert t.actors[i].at.Holding? && t.actors[i].exclusive ==> Writes(t.actors[i], a);
    TotalBound(ReadersOf(a), t.actors, i);
    TotalAtMost(ReadersOf(a), t.actors);
    if |s.actors| < MAX_READERS { WordIsValue(t.words[a]); }
  }

  lemma {:induction false} TotalAtMost(k: Kind, xs: seq<Actor>)
    ensures Total(k, xs) <= |xs|
  {
    if xs != [] { TotalAtMost(k, xs[1..]); }
  }

  // ---------------------------------------------------------------------------
  // The code as written

  ghost predicate AlwaysExcludes(recheck: bool, s: Sys, run: seq<(nat, Action)>)
    decreases |run|
  {
    Excludes(s) && (run != [] && Can(s, run[0].0, run[0].1) ==>
      AlwaysExcludes(recheck, Do(recheck, s, run[0].0, run[0].1), run[1..]))
  }

  ghost predicate NeverFetchesExclusive(recheck: bool, s: Sys, run: seq<(nat, Action)>)
    decreases |run|
  {
    run != [] && Can(s, run[0].0, run[0].1) ==>
      && !FetchesExclusive(s, run[0].0, run[0].1)
      && NeverFetchesExclusive(recheck, Do(recheck, s, run[0].0, run[0].1), run[1..])
  }

  lemma FetchBreaks(s: Sys, i: nat, a: Action)
    requires WordsOk(s) && Can(s, i, a) && FetchesExclusive(s, i, a)
    ensures !Excludes(Do(false, s, i, a))
  {
    var addr, t := s.actors[i].addr, Do(false, s, i, a);
    assert SeenOk(s.actors[i]);
    var k :| 0 <= k < |s.actors| && Writes(s.actors[k], addr);
    assert Writes(t.actors[k], addr) && Reads(t.actors[i], addr);
  }

  /** `try_lock_shared` tests the value it loaded, which never has the exclusive bit there.  So a run
      of the code as written keeps writers and readers apart exactly if no `fetch_add` of a reader
      comes upon a word that is locked exclusively. */
  lemma {:induction false} ExclusionAsWritten(s: Sys, run: seq<(nat, Action)>)
    requires WordsOk(s) && Excludes(s)
    ensures AlwaysExcludes(false, s, run) <==> NeverFetchesExclusive(false, s, run)
    decreases |run|
  {
    if run != [] && Can(s, run[0].0, run[0].1) {
      var t := Do(false, s, run[0].0, run[0].1);
      WordsStep(false, s, run[0].0, run[0].1);
      if FetchesExclusive(s, run[0].0, run[0].1) {
        FetchBreaks(s, run[0].0, run[0].1);
      } else {
        ExcludesStep(false, s, run[0].0, run[0].1);
        ExclusionAsWritten(t, run[1..]);
      }
    }
  }

  lemma First(recheck: bool, s: Sys, i: nat, a: Action, rest: seq<(nat, Action)>, t: Sys)
    requires Can(s, i, a) && Reaches(recheck, Do(recheck, s, i, a), rest, t)
    ensures Reaches(recheck, s, [(i, a)] + rest, t)
  {
    assert ([(i, a)] + rest)[1..] == rest;
  }

  const FREE := Word(false, false, false, 0)

  lemma BothEnter(s: Sys, a: Addr) returns (run: seq<(nat, Action)>, t: Sys)
    requires |s.actors| >= 2 && a in s.words && s.words[a] == FREE
    requires s.actors[0] == Actor(a, true, true, Cas(FREE)) && s.actors[1] == Actor(a, false, true, FetchAdd(FREE))
    ensures Reaches(false, s, run, t) && |t.actors| >= 2 && Writes(t.actors[0], a) && Reads(t.actors[1], a)
  {
    var u := Do(false, s, 0, Go(false));
    t := Do(false, u, 1, Go(false));
    run := [];
    First(false, u, 1, Go(false), run, t);  run := [(1, Go(false))] + run;
    First(false, s, 0, Go(false), run, t);  run := [(0, Go(false))] + run;
  }

  lemma BeginAndLoad(s: Sys, i: nat, a: Addr, exclusive: bool) returns (u: Sys, t: Sys)
    requires i < |s.actors| && s.actors[i] == Idle && a in s.words && s.words[a] == FREE
    ensures Can(s, i, Begin(a, exclusive, true)) && u == Do(false, s, i, Begin(a, exclusive, true))
    ensures Can(u, i, Go(false)) && t == Do(false, u, i, Go(false))
    ensures t.words == s.words
    ensures t.actors == s.actors[i := Actor(a, exclusive, true, if exclusive then Cas(FREE) else FetchAdd(FREE))]
  {
    u := Do(false, s, i, Begin(a, exclusive, true));
    t := Do(false, u, i, Go(false));
  }

  lemma LoadsFirst(s: Sys, i: nat, a: Addr, exclusive: bool, u: Sys, v: Sys, run: seq<(nat, Action)>, t: Sys)
    returns (longer: seq<(nat, Action)>)
    requires Can(s, i, Begin(a, exclusive, true)) && u == Do(false, s, i, Begin(a, exclusive, true))
    requires Can(u, i, Go(false)) && v == Do(false, u, i, Go(false)) && Reaches(false, v, run, t)
    ensures Reaches(false, s, longer, t)
  {
    First(false, u, i, Go(false), run, t);
    longer := [(i, Go(false))] + run;
    First(false, s, i, Begin(a, exclusive, true), longer, t);
    longer := [(i, Begin(a, exclusive, true))] + longer;
  }

  /** Such a run: a reader loads a free word, a writer locks it, the reader counts itself in. */
  lemma ReaderBesideWriter(s: Sys, a: Addr)
    requires Start(s) && a in s.words && |s.actors| >= 2
    ensures exists run, t ::
      Reaches(false, s, run, t) && |t.actors| >= 2 && Writes(t.actors[0], a) && Reads(t.actors[1], a)
  {
    var s1, s2 := BeginAndLoad(s, 1, a, false);
    var s3, s4 := BeginAndLoad(s2, 0, a, true);
    var run, t := BothEnter(s4, a);
    run := LoadsFirst(s2, 0, a, true, s3, s4, run, t);
    run := LoadsFirst(s, 1, a, false, s1, s2, run, t);
    assert Reaches(false, s, run, t) && Writes(t.actors[0], a) && Reads(t.actors[1], a);
  }
}
