/** Streaming a JSON array in batches: the handler that collects events into a document, and the
    readers that cut it off after `n` elements. */
module JsonTable {
  import opened Shred

  // ---------------------------------------------------------------------------
  // Parser events, and a document as the stack that the parser library keeps

  datatype Event =
    | Scalar(v: Json)
    | KeyName(name: string)
    | StartArray
    | EndArray(count: nat)
    | StartObject
    | EndObject(count: nat)

  function ItemsOf(vs: seq<Json>): Items { if vs == [] then NoItems else Item(vs[0], ItemsOf(vs[1..])) }

  function ToSeq(items: Items): (r: seq<Json>)
    ensures |r| == Count(items)
  {
    if items.NoItems? then [] else [items.head] + ToSeq(items.tail)
  }

  /** Keys and values in turn. */
  function MembersOf(vs: seq<Json>): Members {
    if |vs| < 2 then NoMembers
    else Member(if vs[0].JStr? then vs[0].s else "", vs[1], MembersOf(vs[2..]))
  }

  function MemberCount(ms: Members): nat { if ms.NoMembers? then 0 else 1 + MemberCount(ms.rest) }

  /** The values on the top of the stack become the elements of the array below them. */
  function CloseArray(doc: seq<Json>, count: nat): seq<Json> {
    if count < |doc| then doc[..|doc| - count - 1] + [JArr(ItemsOf(doc[|doc| - count..]))] else doc
  }

  function CloseObject(doc: seq<Json>, count: nat): seq<Json> {
    if 2 * count < |doc| then doc[..|doc| - 2 * count - 1] + [JObj(MembersOf(doc[|doc| - 2 * count..]))] else doc
  }

  /** `ArrayBuffer` */
  datatype Buffer = Buffer(doc: seq<Json>, depth: nat, size: nat, done: bool)

  function Sized(b: Buffer): nat { if b.depth == 1 then b.size + 1 else b.size }

  function Handle(b: Buffer, e: Event): Buffer {
    match e
    case Scalar(v) => b.(doc := b.doc + [v], size := Sized(b))
    case KeyName(name) => b.(doc := b.doc + [JStr(name)])
    case StartArray => b.(doc := b.doc + [JArr(NoItems)], depth := b.depth + 1, size := Sized(b))
    case StartObject => b.(doc := b.doc + [JObj(NoMembers)], depth := b.depth + 1, size := Sized(b))
    case EndObject(count) => b.(doc := CloseObject(b.doc, count), depth := if b.depth > 0 then b.depth - 1 else 0)
    case EndArray(count) =>
      if b.depth <= 1 then b.(doc := CloseArray(b.doc, b.size), depth := 0, done := true)
      else b.(doc := CloseArray(b.doc, count), depth := b.depth - 1)
  }

  /** `Flush`: the collected elements, and an empty array to go on with. */
  function Flush(b: Buffer): (Json, Buffer) {
    var doc := if b.done then b.doc else CloseArray(b.doc, b.size);
    (if doc == [] then JNull else doc[|doc| - 1], b.(doc := [JArr(NoItems)], size := 0))
  }

  /** The buffer is to be handed on. */
  predicate Full(b: Buffer, n: nat) { b.done || (b.size >= n && b.depth == 1) }

  /** The loop of `ReadNextN`: events up to a full buffer, and what is left of them. */
  function Pump(b: Buffer, es: seq<Event>, n: nat): (Buffer, seq<Event>)
    decreases |es|
  {
    if es == [] then (b, es)
    else if Full(Handle(b, es[0]), n) then (Handle(b, es[0]), es[1..])
    else Pump(Handle(b, es[0]), es[1..], n)
  }

  // ---------------------------------------------------------------------------
  // The events of a document

  function Events(v: Json): seq<Event>
    decreases JSize(v), 1
  {
    match v
    case JArr(items) => [StartArray] + ItemEvents(items) + [EndArray(Count(items))]
    case JObj(members) => [StartObject] + MemberEvents(members) + [EndObject(MemberCount(members))]
    case _ => [Scalar(v)]
  }

  function ItemEvents(items: Items): seq<Event>
    decreases ISize(items), 0
  {
    if items.NoItems? then [] else Events(items.head) + ItemEvents(items.tail)
  }

  function MemberEvents(ms: Members): seq<Event>
    decreases MSize(ms), 0
  {
    if ms.NoMembers? then [] else [KeyName(ms.name)] + Events(ms.value) + MemberEvents(ms.rest)
  }

  lemma {:induction false} ItemsOfSeq(items: Items)
    ensures ItemsOf(ToSeq(items)) == items
  {
    if items.Item? {
      assert ToSeq(items)[1..] == ToSeq(items.tail);
      ItemsOfSeq(items.tail);
    }
  }

  /** Members on the stack. */
  function Flat(ms: Members): (r: seq<Json>)
    ensures |r| == 2 * MemberCount(ms)
  {
    if ms.NoMembers? then [] else [JStr(ms.name), ms.value] + Flat(ms.rest)
  }

  lemma {:induction false} MembersOfFlat(ms: Members)
    ensures MembersOf(Flat(ms)) == ms
  {
    if ms.Member? {
      assert Flat(ms)[2..] == Flat(ms.rest);
      MembersOfFlat(ms.rest);
    }
  }

  /** One event that does not fill the buffer. */
  lemma PumpOne(b: Buffer, e: Event, es: seq<Event>, n: nat)
    requires !Full(Handle(b, e), n)
    ensures Pump(b, [e] + es, n) == Pump(Handle(b, e), es, n)
  {
    assert ([e] + es)[1..] == es;
  }

  function Pushed(b: Buffer, vs: seq<Json>): Buffer { b.(doc := b.doc + vs) }

  /** Inside a nested value the buffer is never full, and at its end the value is on the stack. */
  lemma {:induction false} NestedIsPushed(b: Buffer, v: Json, es: seq<Event>, n: nat)
    requires b.depth > 1 && !b.done
    ensures Pump(b, Events(v) + es, n) == Pump(Pushed(b, [v]), es, n)
    decreases JSize(v), 1
  {
    match v
    case JArr(items) => ArrayIsPushed(b, items, es, n);
    case JObj(members) => ObjectIsPushed(b, members, es, n);
    case _ => PumpOne(b, Scalar(v), es, n);
  }

  lemma {:induction false} ArrayIsPushed(b: Buffer, items: Items, es: seq<Event>, n: nat)
    requires b.depth > 1 && !b.done
    ensures Pump(b, Events(JArr(items)) + es, n) == Pump(Pushed(b, [JArr(items)]), es, n)
    decreases ISize(items), 1
  {
    var inside := Handle(b, StartArray);
    var rest := [EndArray(Count(items))] + es;
    assert Events(JArr(items)) + es == [StartArray] + (ItemEvents(items) + rest);
    PumpOne(b, StartArray, ItemEvents(items) + rest, n);
    ItemsArePushed(inside, items, rest, n);
    ArrayCloses(b, items);
    PumpOne(Pushed(inside, ToSeq(items)), EndArray(Count(items)), es, n);
  }

  lemma {:induction false} ObjectIsPushed(b: Buffer, members: Members, es: seq<Event>, n: nat)
    requires b.depth > 1 && !b.done
    ensures Pump(b, Events(JObj(members)) + es, n) == Pump(Pushed(b, [JObj(members)]), es, n)
    decreases MSize(members), 1
  {
    var inside := Handle(b, StartObject);
    var rest := [EndObject(MemberCount(members))] + es;
    assert Events(JObj(members)) + es == [StartObject] + (MemberEvents(members) + rest);
    PumpOne(b, StartObject, MemberEvents(members) + rest, n);
    MembersArePushed(inside, members, rest, n);
    ObjectCloses(b, members);
    PumpOne(Pushed(inside, Flat(members)), EndObject(MemberCount(members)), es, n);
  }

  lemma {:induction false} ArrayCloses(b: Buffer, items: Items)
    requires b.depth > 0
    ensures Handle(Pushed(Handle(b, StartArray), ToSeq(items)), EndArray(Count(items))) ==
      Buffer(b.doc + [JArr(items)], b.depth, Sized(b), b.done)
  {
    var doc := b.doc + [JArr(NoItems)] + ToSeq(items);
    assert doc[|doc| - Count(items)..] == ToSeq(items);
    assert doc[..|doc| - Count(items) - 1] == b.doc;
    ItemsOfSeq(items);
  }

  lemma {:induction false} ObjectCloses(b: Buffer, members: Members)
    ensures Handle(Pushed(Handle(b, StartObject), Flat(members)), EndObject(MemberCount(members))) ==
      Buffer(b.doc + [JObj(members)], b.depth, Sized(b), b.done)
  {
    var doc := b.doc + [JObj(NoMembers)] + Flat(members);
    assert doc[|doc| - 2 * MemberCount(members)..] == Flat(members);
    assert doc[..|doc| - 2 * MemberCount(members) - 1] == b.doc;
    MembersOfFlat(members);
  }

  lemma {:induction false} ItemsArePushed(b: Buffer, items: Items, es: seq<Event>, n: nat)
    requires b.depth > 1 && !b.done
    ensures Pump(b, ItemEvents(items) + es, n) == Pump(Pushed(b, ToSeq(items)), es, n)
    decreases ISize(items), 0
  {
    if items.NoItems? {
      assert ItemEvents(items) + es == es;
      assert b.doc + [] == b.doc;
    } else {
      assert ItemEvents(items) + es == Events(items.head) + (ItemEvents(items.tail) + es);
      NestedIsPushed(b, items.head, ItemEvents(items.tail) + es, n);
      ItemsArePushed(Pushed(b, [items.head]), items.tail, es, n);
      assert b.doc + [items.head] + ToSeq(items.tail) == b.doc + ToSeq(items);
    }
  }

  lemma {:induction false} MembersArePushed(b: Buffer, ms: Members, es: seq<Event>, n: nat)
    requires b.depth > 1 && !b.done
    ensures Pump(b, MemberEvents(ms) + es, n) == Pump(Pushed(b, Flat(ms)), es, n)
    decreases MSize(ms), 0
  {
    if ms.NoMembers? {
      assert MemberEvents(ms) + es == es;
      assert b.doc + [] == b.doc;
    } else {
      var rest := Events(ms.value) + (MemberEvents(ms.rest) + es);
      assert MemberEvents(ms) + es == [KeyName(ms.name)] + rest;
      PumpOne(b, KeyName(ms.name), rest, n);
      var c := Handle(b, KeyName(ms.name));
      NestedIsPushed(c, ms.value, MemberEvents(ms.rest) + es, n);
      MembersArePushed(Pushed(c, [ms.value]), ms.rest, es, n);
      assert b.doc + [JStr(ms.name)] + [ms.value] + Flat(ms.rest) == b.doc + Flat(ms);
    }
  }

  // ---------------------------------------------------------------------------
  // Elements of the array that is streamed

  /** Elements collected since the last flush. */
  function Collecting(vs: seq<Json>): Buffer { Buffer([JArr(NoItems)] + vs, 1, |vs|, false) }

  /** One element goes into the buffer as a whole, and only then is the buffer looked at. */
  lemma ElementIsCollected(vs: seq<Json>, v: Json, es: seq<Event>, n: nat)
    requires |vs| < n
    ensures Pump(Collecting(vs), Events(v) + es, n) ==
      if |vs| + 1 >= n then (Collecting(vs + [v]), es) else Pump(Collecting(vs + [v]), es, n)
  {
    var b := Collecting(vs);
    assert b.doc + [v] == Collecting(vs + [v]).doc;
    match v
    case JArr(items) =>
      var inside := Handle(b, StartArray);
      var rest := [EndArray(Count(items))] + es;
      assert Events(v) + es == [StartArray] + (ItemEvents(items) + rest);
      PumpOne(b, StartArray, ItemEvents(items) + rest, n);
      ItemsArePushed(inside, items, rest, n);
      ArrayCloses(b, items);
      assert rest[1..] == es;
    case JObj(members) =>
      var inside := Handle(b, StartObject);
      var rest := [EndObject(MemberCount(members))] + es;
      assert Events(v) + es == [StartObject] + (MemberEvents(members) + rest);
      PumpOne(b, StartObject, MemberEvents(members) + rest, n);
      MembersArePushed(inside, members, rest, n);
      ObjectCloses(b, members);
      assert rest[1..] == es;
    case _ =>
      assert (Events(v) + es)[1..] == es;
  }

  function Drop(items: Items, k: nat): Items {
    if k == 0 || items.NoItems? then items else Drop(items.tail, k - 1)
  }

  function Take(items: Items, k: nat): (r: seq<Json>)
    ensures |r| == if k < Count(items) then k else Count(items)
  {
    if k == 0 || items.NoItems? then [] else [items.head] + Take(items.tail, k - 1)
  }

  /** What is left of a stream. */
  function Stream(items: Items, total: nat): seq<Event> { ItemEvents(items) + [EndArray(total)] }

  /** From `vs` elements collected, the loop stops with `n` elements, or with all that are left. */
  lemma {:induction false} BatchIsCollected(vs: seq<Json>, items: Items, total: nat, n: nat)
    requires |vs| < n
    ensures var (b, es) := Pump(Collecting(vs), Stream(items, total), n); var k := n - |vs|;
      && Flush(b).0 == JArr(ItemsOf(vs + Take(items, k)))
      && (Count(items) >= k ==> Flush(b).1 == Collecting([]) && es == Stream(Drop(items, k), total))
      && (Count(items) < k ==> Flush(b).1.done && es == [])
    decreases items
  {
    if items.NoItems? {
      ArrayEnds(vs, total, n);
    } else {
      var rest := Stream(items.tail, total);
      assert Stream(items, total) == Events(items.head) + rest;
      ElementIsCollected(vs, items.head, rest, n);
      assert vs + [items.head] + Take(items.tail, n - |vs| - 1) == vs + Take(items, n - |vs|);
      if |vs| + 1 >= n {
        FlushCollects(vs + [items.head]);
        assert Take(items.tail, 0) == [];
        assert vs + [items.head] + [] == vs + [items.head];
      } else {
        BatchIsCollected(vs + [items.head], items.tail, total, n);
      }
    }
  }

  lemma FlushCollects(vs: seq<Json>)
    ensures Flush(Collecting(vs)) == (JArr(ItemsOf(vs)), Collecting([]))
  {
    var doc := [JArr(NoItems)] + vs;
    assert doc[|doc| - |vs|..] == vs;
    assert doc[..|doc| - |vs| - 1] == [];
    assert [JArr(NoItems)] + [] == [JArr(NoItems)];
  }

  lemma ArrayEnds(vs: seq<Json>, total: nat, n: nat)
    ensures var (b, es) := Pump(Collecting(vs), Stream(NoItems, total), n);
      Flush(b).0 == JArr(ItemsOf(vs + Take(NoItems, n))) && Flush(b).1.done && es == []
  {
    assert Stream(NoItems, total) == [EndArray(total)];
    assert [EndArray(total)][1..] == [];
    var doc := [JArr(NoItems)] + vs;
    assert doc[|doc| - |vs|..] == vs;
    assert doc[..|doc| - |vs| - 1] == [];
    assert vs + [] == vs;
  }

  // ---------------------------------------------------------------------------
  // All batches

  /** The batches that repeated calls of `ReadNextN` deliver. */
  function Batches(items: Items, n: nat): (r: seq<seq<Json>>)
    requires n > 0
    decreases Count(items)
  {
    DropCounts(items, n);
    if Count(items) < n then [ToSeq(items)] else [Take(items, n)] + Batches(Drop(items, n), n)
  }

  lemma {:induction false} DropCounts(items: Items, k: nat)
    ensures Count(Drop(items, k)) == if k <= Count(items) then Count(items) - k else 0
  {
    if k > 0 && items.Item? { DropCounts(items.tail, k - 1); }
  }

  function Concat(bs: seq<seq<Json>>): seq<Json> { if bs == [] then [] else bs[0] + Concat(bs[1..]) }

  lemma {:induction false} TakeAndDrop(items: Items, k: nat)
    ensures Take(items, k) + ToSeq(Drop(items, k)) == ToSeq(items)
  {
    if k > 0 && items.Item? {
      TakeAndDrop(items.tail, k - 1);
      assert [items.head] + (Take(items.tail, k - 1) + ToSeq(Drop(items.tail, k - 1))) ==
        Take(items, k) + ToSeq(Drop(items, k));
    }
  }

  /** Streaming is parsing: the batches make up the array in order, no element is split, every batch
      but the last has exactly `n` elements and the last has less. */
  lemma {:induction false} BatchesConcatenate(items: Items, n: nat)
    requires n > 0
    ensures Concat(Batches(items, n)) == ToSeq(items)
    ensures var bs := Batches(items, n);
      && bs != [] && |bs[|bs| - 1]| < n
      && forall k :: 0 <= k < |bs| - 1 ==> |bs[k]| == n
    decreases Count(items)
  {
    DropCounts(items, n);
    if Count(items) < n {
      assert Batches(items, n)[1..] == [];
      assert ToSeq(items) + [] == ToSeq(items);
    } else {
      var rest := Batches(Drop(items, n), n);
      BatchesConcatenate(Drop(items, n), n);
      TakeAndDrop(items, n);
      assert Batches(items, n)[1..] == rest;
      assert forall k :: 0 < k < |rest| ==> Batches(items, n)[k] == rest[k - 1];
    }
  }
}
