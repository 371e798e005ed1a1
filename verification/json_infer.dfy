/** Type inference for flat JSON arrays: counters over the parser's events, the type they lead to, and
    why the array parsers then take every integer of the array. */
module JsonInfer {
  import opened Shred
  import opened ShredLaws

  // ---------------------------------------------------------------------------
  // Events and counters

  /** The parser's events; integers come in the narrowest of four kinds, the unsigned ones if they are
      not negative. */
  datatype Event =
    | Key | NullEvent | StringEvent | Bool
    | Int | Int64 | Uint(u: nat) | Uint64(u: nat) | Double
    | StartObject | StartArray | EndObject | EndArray

  datatype Stats = Stats(bools: nat, strings: nat, int32: nat, int64: nat, uint32: nat, uint32Max: nat,
                         uint64: nat, uint64Max: nat, doubles: nat, objects: nat, arrays: nat)

  const NOTHING := Stats(0, 0, 0, 0, 0, 0, 0, 0, 0, 0, 0)

  const INT32_MAX: nat := 0x7FFF_FFFF
  const INT64_MAX: nat := 0x7FFF_FFFF_FFFF_FFFF

  /** The counter of an event at the depth of the data. */
  function Bump(s: Stats, e: Event): Stats {
    match e
    case StringEvent => s.(strings := s.strings + 1)
    case Bool => s.(bools := s.bools + 1)
    case Int => s.(int32 := s.int32 + 1)
    case Int64 => s.(int64 := s.int64 + 1)
    case Uint(u) => s.(uint32 := s.uint32 + 1, uint32Max := s.uint32Max + if u >= INT32_MAX then 1 else 0)
    case Uint64(u) => s.(uint64 := s.uint64 + 1, uint64Max := s.uint64Max + if u >= INT64_MAX then 1 else 0)
    case Double => s.(doubles := s.doubles + 1)
    case StartObject => s.(objects := s.objects + 1)
    case StartArray => s.(arrays := s.arrays + 1)
    case _ => s
  }

  /** The depth after an event. */
  function Deeper(depth: nat, e: Event): nat {
    if e.StartObject? || e.StartArray? then depth + 1
    else if (e.EndObject? || e.EndArray?) && depth > 0 then depth - 1
    else depth
  }

  datatype Scan = Scan(stats: Stats, depth: nat)

  /** One event: it counts at depth 1 only. */
  function See(a: Scan, e: Event): Scan {
    Scan(if a.depth == 1 then Bump(a.stats, e) else a.stats, Deeper(a.depth, e))
  }

  function SeeAll(a: Scan, es: seq<Event>): Scan
    decreases |es|
  {
    if es == [] then a else SeeAll(See(a, es[0]), es[1..])
  }

  lemma {:induction false} SeeBoth(a: Scan, es: seq<Event>, fs: seq<Event>)
    ensures SeeAll(a, es + fs) == SeeAll(SeeAll(a, es), fs)
    decreases |es|
  {
    if es == [] {
      assert es + fs == fs;
    } else {
      assert (es + fs)[1..] == es[1..] + fs;
      SeeBoth(See(a, es[0]), es[1..], fs);
    }
  }

  // ---------------------------------------------------------------------------
  // The events of a document

  /** The kind in which an integer is reported. */
  function IntEvent(n: int): Event {
    if 0 <= n <= 0xFFFF_FFFF then Uint(n)
    else if 0 <= n <= 0xFFFF_FFFF_FFFF_FFFF then Uint64(n)
    else if -0x8000_0000 <= n < 0 then Int
    else if -0x8000_0000_0000_0000 <= n < 0 then Int64
    else Double
  }

  function Events(v: Json): (r: seq<Event>)
    ensures r != []
    decreases JSize(v), 1
  {
    match v
    case JNull => [NullEvent]
    case JBool(_) => [Bool]
    case JInt(n) => [IntEvent(n)]
    case JReal(_) => [Double]
    case JStr(_) => [StringEvent]
    case JArr(items) => [StartArray] + ItemEvents(items) + [EndArray]
    case JObj(members) => [StartObject] + MemberEvents(members) + [EndObject]
  }

  function ItemEvents(items: Items): seq<Event>
    decreases ISize(items), 0
  {
    if items.NoItems? then [] else Events(items.head) + ItemEvents(items.tail)
  }

  function MemberEvents(ms: Members): seq<Event>
    decreases MSize(ms), 0
  {
    if ms.NoMembers? then [] else [Key] + Events(ms.value) + MemberEvents(ms.rest)
  }

  /** Inside a nested array or object nothing is counted, and the depth comes back. */
  lemma {:induction false} NestedIsSkipped(a: Scan, v: Json)
    requires a.depth > 1
    ensures SeeAll(a, Events(v)) == a
    decreases JSize(v), 1
  {
    match v
    case JArr(items) =>
      var inside := a.(depth := a.depth + 1);
      ItemsAreSkipped(inside, items);
      Bracketed(a, StartArray, ItemEvents(items), EndArray);
    case JObj(members) =>
      var inside := a.(depth := a.depth + 1);
      MembersAreSkipped(inside, members);
      Bracketed(a, StartObject, MemberEvents(members), EndObject);
    case _ => One(a, Events(v)[0]);
  }

  lemma One(a: Scan, e: Event)
    ensures SeeAll(a, [e]) == See(a, e)
  {
    assert [e][1..] == [];
    assert SeeAll(See(a, e), []) == See(a, e);
  }

  lemma Bracketed(a: Scan, open: Event, es: seq<Event>, close: Event)
    ensures SeeAll(a, [open] + es + [close]) == See(SeeAll(See(a, open), es), close)
  {
    SeeBoth(a, [open] + es, [close]);
    SeeBoth(a, [open], es);
    One(a, open);
    One(SeeAll(See(a, open), es), close);
  }

  lemma {:induction false} ItemsAreSkipped(a: Scan, items: Items)
    requires a.depth > 1
    ensures SeeAll(a, ItemEvents(items)) == a
    decreases ISize(items), 0
  {
    if items.Item? {
      SeeBoth(a, Events(items.head), ItemEvents(items.tail));
      NestedIsSkipped(a, items.head);
      ItemsAreSkipped(a, items.tail);
    }
  }

  lemma {:induction false} MembersAreSkipped(a: Scan, ms: Members)
    requires a.depth > 1
    ensures SeeAll(a, MemberEvents(ms)) == a
    decreases MSize(ms), 0
  {
    if ms.Member? {
      SeeBoth(a, [Key] + Events(ms.value), MemberEvents(ms.rest));
      SeeBoth(a, [Key], Events(ms.value));
      One(a, Key);
      NestedIsSkipped(a, ms.value);
      MembersAreSkipped(a, ms.rest);
    }
  }

  /** What an element of the array adds: its own event, whatever is nested in it. */
  function Tally(s: Stats, items: Items): Stats
    decreases items
  {
    if items.NoItems? then s else Tally(Bump(s, Events(items.head)[0]), items.tail)
  }

  lemma ElementIsCounted(s: Stats, v: Json)
    ensures SeeAll(Scan(s, 1), Events(v)) == Scan(Bump(s, Events(v)[0]), 1)
  {
    match v
    case JArr(items) =>
      ItemsAreSkipped(Scan(Bump(s, StartArray), 2), items);
      Bracketed(Scan(s, 1), StartArray, ItemEvents(items), EndArray);
    case JObj(members) =>
      MembersAreSkipped(Scan(Bump(s, StartObject), 2), members);
      Bracketed(Scan(s, 1), StartObject, MemberEvents(members), EndObject);
    case _ => One(Scan(s, 1), Events(v)[0]);
  }

  /** The counters are those of the elements, and the analyzer is done at the closing bracket. */
  lemma {:induction false} ArrayIsTallied(s: Stats, items: Items)
    ensures SeeAll(Scan(s, 1), ItemEvents(items) + [EndArray]) == Scan(Tally(s, items), 0)
    decreases items
  {
    if items.NoItems? {
      assert ItemEvents(items) + [EndArray] == [EndArray];
      One(Scan(s, 1), EndArray);
    } else {
      var v, rest := items.head, ItemEvents(items.tail) + [EndArray];
      assert ItemEvents(items) + [EndArray] == Events(v) + rest;
      SeeBoth(Scan(s, 1), Events(v), rest);
      ElementIsCounted(s, v);
      ArrayIsTallied(Bump(s, Events(v)[0]), items.tail);
    }
  }

  // ---------------------------------------------------------------------------
  // The decision

  datatype Choice = FromSample | Float64 | Integer(bits: nat, signed: bool) | Boolean | NullChoice

  /** `InferDataTypeImpl(stats, samples)`; nested values and strings are decided by the sample. */
  function Infer(s: Stats): Choice {
    var any32 := s.int32 > 0 || s.uint32 > 0;
    var any64 := s.int64 > 0 || s.uint64 > 0;
    if s.objects > 0 || s.arrays > 0 then FromSample
    else if s.strings > 0 then FromSample
    else if s.doubles > 0 then Float64
    else if s.uint64Max > 0 then (if s.int64 > 0 || s.int32 > 0 then Float64 else Integer(64, false))
    else if any64 || (s.int32 > 0 && s.uint32Max > 0) then Integer(64, true)
    else if s.uint32Max > 0 then Integer(32, false)
    else if any32 then Integer(32, true)
    else if s.bools > 0 then Boolean
    else NullChoice
  }

  /** Integers of up to 64 bits, larger ones, which the parser reports as doubles, and nulls. */
  predicate IntegersAndNulls(items: Items) {
    items.Item? ==>
      && (items.head.JInt? || items.head.JReal? || items.head.JNull?)
      && (items.head.JInt? ==> -0x8000_0000_0000_0000 <= items.head.n <= 0xFFFF_FFFF_FFFF_FFFF)
      && IntegersAndNulls(items.tail)
  }

  /** An element of the array is an integer in a range. */
  predicate SomeInt(items: Items, low: int, high: int) {
    items.Item? && ((items.head.JInt? && low <= items.head.n <= high) || SomeInt(items.tail, low, high))
  }

  predicate SomeReal(items: Items) { items.Item? && (items.head.JReal? || SomeReal(items.tail)) }

  const LOW := -0x8000_0000_0000_0000
  const HIGH := 0xFFFF_FFFF_FFFF_FFFF

  /** Which counters are not zero after an array of integers and nulls. */
  ghost predicate Counts(s: Stats, before: Stats, items: Items) {
    && s.bools == before.bools && s.strings == before.strings && s.objects == before.objects
      && s.arrays == before.arrays
    && (s.doubles > 0 <==> before.doubles > 0 || SomeReal(items))
    && (s.int32 > 0 <==> before.int32 > 0 || SomeInt(items, -0x8000_0000, -1))
    && (s.int64 > 0 <==> before.int64 > 0 || SomeInt(items, LOW, -0x8000_0001))
    && (s.uint32 > 0 <==> before.uint32 > 0 || SomeInt(items, 0, 0xFFFF_FFFF))
    && (s.uint32Max > 0 <==> before.uint32Max > 0 || SomeInt(items, INT32_MAX, 0xFFFF_FFFF))
    && (s.uint64 > 0 <==> before.uint64 > 0 || SomeInt(items, 0x1_0000_0000, HIGH))
    && (s.uint64Max > 0 <==> before.uint64Max > 0 || SomeInt(items, INT64_MAX, HIGH))
  }

  lemma {:induction false} TallyCounts(s: Stats, items: Items)
    requires IntegersAndNulls(items)
    ensures Counts(Tally(s, items), s, items)
    decreases items
  {
    if items.Item? {
      TallyCounts(Bump(s, Events(items.head)[0]), items.tail);
    }
  }

  /** All integers of the array lie in a range. */
  predicate AllWithin(items: Items, low: int, high: int) {
    items.Item? ==> (items.head.JInt? ==> low <= items.head.n <= high) && AllWithin(items.tail, low, high)
  }

  lemma {:induction false} NoneElsewhere(items: Items, low: int, high: int)
    requires IntegersAndNulls(items) && !SomeInt(items, LOW, low - 1) && !SomeInt(items, high + 1, HIGH)
    ensures AllWithin(items, low, high)
    decreases items
  {
    if items.Item? { NoneElsewhere(items.tail, low, high); }
  }

  lemma {:induction false} SomeIntSplits(items: Items, low: int, middle: int, high: int)
    requires low <= middle < high
    ensures SomeInt(items, low, high) <==> SomeInt(items, low, middle) || SomeInt(items, middle + 1, high)
    decreases items
  {
    if items.Item? { SomeIntSplits(items.tail, low, middle, high); }
  }

  lemma {:induction false} AllAccepted(items: Items, bits: nat, signed: bool, low: int, high: int)
    requires IntegersAndNulls(items) && !SomeReal(items) && AllWithin(items, low, high)
    requires forall n :: low <= n <= high ==> InRange(n, bits, signed)
    ensures AcceptsAll(IntT(bits, signed), items)
    decreases items
  {
    if items.Item? { AllAccepted(items.tail, bits, signed, low, high); }
  }

  lemma Powers()
    ensures Power2(31) == 0x8000_0000 && Power2(32) == 0x1_0000_0000
    ensures Power2(63) == INT64_MAX + 1 && Power2(64) == HIGH + 1
  {
    Power64();
    Up8(0); Up8(8); Up8(16); Up8(24);
    assert Power2(32) == 2 * Power2(31);
    assert Power2(64) == 2 * Power2(63);
  }

  lemma Ranges()
    ensures forall n :: -0x8000_0000 <= n < INT32_MAX ==> InRange(n, 32, true)
    ensures forall n :: 0 <= n <= 0xFFFF_FFFF ==> InRange(n, 32, false)
    ensures forall n :: LOW <= n < INT64_MAX ==> InRange(n, 64, true)
    ensures forall n :: 0 <= n <= HIGH ==> InRange(n, 64, false)
  {
    Powers();
  }

  /** For every array of integers and nulls: an inferred integer type accepts every element; double is
      inferred exactly if an element exceeds 64 bits, or negative elements meet one of at least
      2^63-1. */
  lemma InferenceIsSound(items: Items)
    requires IntegersAndNulls(items)
    ensures var choice := Infer(SeeAll(Scan(NOTHING, 1), ItemEvents(items) + [EndArray]).stats);
      && (choice.Integer? ==> AcceptsAll(IntT(choice.bits, choice.signed), items))
      && (choice.Float64? <==> SomeReal(items) || (SomeInt(items, INT64_MAX, HIGH) && SomeInt(items, LOW, -1)))
      && (choice.NullChoice? <==> !SomeReal(items) && !SomeInt(items, LOW, HIGH))
      && !choice.FromSample? && !choice.Boolean?
  {
    ArrayIsTallied(NOTHING, items);
    TallyCounts(NOTHING, items);
    SomeIntSplits(items, LOW, -0x8000_0001, -1);
    SomeIntSplits(items, LOW, -1, HIGH);
    SomeIntSplits(items, 0, 0xFFFF_FFFF, HIGH);
    SomeIntSplits(items, LOW, INT64_MAX - 1, HIGH);
    SomeIntSplits(items, 0, INT32_MAX - 1, 0xFFFF_FFFF);
    var choice := Infer(Tally(NOTHING, items));
    if choice.Integer? { IntegerIsSound(items, choice); }
  }

  lemma IntegerIsSound(items: Items, choice: Choice)
    requires IntegersAndNulls(items) && choice == Infer(Tally(NOTHING, items)) && choice.Integer?
    ensures AcceptsAll(IntT(choice.bits, choice.signed), items)
  {
    TallyCounts(NOTHING, items);
    if choice.signed {
      SignedIsSound(items, Tally(NOTHING, items), choice.bits);
    } else {
      UnsignedIsSound(items, Tally(NOTHING, items), choice.bits);
    }
  }

  lemma SignedIsSound(items: Items, s: Stats, bits: nat)
    requires IntegersAndNulls(items) && Counts(s, NOTHING, items) && Infer(s) == Integer(bits, true)
    ensures AcceptsAll(IntT(bits, true), items)
  {
    NoInt(items, LOW, LOW - 1);
    Ranges();
    if bits == 64 {
      NoneElsewhere(items, LOW, INT64_MAX - 1);
      AllAccepted(items, 64, true, LOW, INT64_MAX - 1);
    } else {
      SomeIntSplits(items, INT32_MAX, 0xFFFF_FFFF, HIGH);
      NoneElsewhere(items, -0x8000_0000, INT32_MAX - 1);
      AllAccepted(items, 32, true, -0x8000_0000, INT32_MAX - 1);
    }
  }

  lemma UnsignedIsSound(items: Items, s: Stats, bits: nat)
    requires IntegersAndNulls(items) && Counts(s, NOTHING, items) && Infer(s) == Integer(bits, false)
    ensures AcceptsAll(IntT(bits, false), items)
  {
    NoInt(items, HIGH + 1, HIGH);
    SomeIntSplits(items, LOW, -0x8000_0001, -1);
    Ranges();
    if bits == 64 {
      NoneElsewhere(items, 0, HIGH);
      AllAccepted(items, 64, false, 0, HIGH);
    } else {
      NoneElsewhere(items, 0, 0xFFFF_FFFF);
      AllAccepted(items, 32, false, 0, 0xFFFF_FFFF);
    }
  }

  lemma {:induction false} NoInt(items: Items, low: int, high: int)
    requires low > high
    ensures !SomeInt(items, low, high)
    decreases items
  {
    if items.Item? { NoInt(items.tail, low, high); }
  }

  // ---------------------------------------------------------------------------
  // The analyzer object

  class FlatArrayAnalyzer {
    var stats: Stats
    /** The opening bracket has been consumed before. */
    var depth: nat

    constructor ()
      ensures stats == NOTHING && depth == 1
    {
      stats, depth := NOTHING, 1;
    }

    predicate Done()
      reads this
    {
      depth == 0
    }

    method Handle(e: Event)
      modifies this
      ensures Scan(stats, depth) == See(old(Scan(stats, depth)), e)
    {
      if depth == 1 {
        stats := Bump(stats, e);
      }
      if e.StartObject? || e.StartArray? {
        depth := depth + 1;
      } else if (e.EndObject? || e.EndArray?) && depth > 0 {
        depth := depth - 1;
      }
    }
  }

  /** The analyzer fed with the events of an array. */
  method InferFlatArray(items: Items, events: seq<Event>) returns (choice: Choice)
    requires events == ItemEvents(items) + [EndArray]
    ensures choice == Infer(Tally(NOTHING, items))
    ensures IntegersAndNulls(items) && choice.Integer? ==> AcceptsAll(IntT(choice.bits, choice.signed), items)
  {
    var analyzer := new FlatArrayAnalyzer();
    for i := 0 to |events|
      invariant SeeAll(Scan(analyzer.stats, analyzer.depth), events[i..]) == SeeAll(Scan(NOTHING, 1), events)
    {
      assert events[i..][1..] == events[i + 1..];
      analyzer.Handle(events[i]);
    }
    ArrayIsTallied(NOTHING, items);
    assert analyzer.Done();
    choice := Infer(analyzer.stats);
    if IntegersAndNulls(items) { InferenceIsSound(items); }
  }
}
