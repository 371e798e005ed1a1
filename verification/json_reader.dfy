/** The table readers over a stream of events: batches of rows, and columns padded to one length. */
module JsonReader {
  import opened Wrappers
  import opened Shred
  import opened ShredLaws
  import opened ShredDecode
  import opened ShredParser
  import opened JsonTable

  /** The handler: every event changes the document, the depth and the number of elements. */
  class ArrayBuffer {
    var doc: seq<Json>
    var depth: nat
    var size: nat
    var done: bool

    function B(): Buffer
      reads this
    {
      Buffer(doc, depth, size, done)
    }

    constructor ()
      ensures B() == Buffer([], 0, 0, false)
    {
      doc, depth, size, done := [], 0, 0, false;
    }

    method Value(v: Json)
      modifies this
      ensures B() == Handle(old(B()), Scalar(v))
    {
      if depth == 1 { size := size + 1; }
      doc := doc + [v];
    }

    method Start(placeholder: Json)
      requires placeholder == JArr(NoItems) || placeholder == JObj(NoMembers)
      modifies this
      ensures B() == Handle(old(B()), if placeholder.JArr? then StartArray else StartObject)
    {
      if depth == 1 { size := size + 1; }
      depth := depth + 1;
      doc := doc + [placeholder];
    }

    method EndOfObject(count: nat)
      modifies this
      ensures B() == Handle(old(B()), EndObject(count))
    {
      if depth > 0 { depth := depth - 1; }
      doc := CloseObject(doc, count);
    }

    method EndOfArray(count: nat)
      modifies this
      ensures B() == Handle(old(B()), EndArray(count))
    {
      if depth <= 1 {
        depth := 0;
        done := true;
        doc := CloseArray(doc, size);
      } else {
        depth := depth - 1;
        doc := CloseArray(doc, count);
      }
    }

    method Dispatch(e: Event)
      modifies this
      ensures B() == Handle(old(B()), e)
    {
      match e
      case Scalar(v) => Value(v);
      case KeyName(name) => doc := doc + [JStr(name)];
      case StartArray => Start(JArr(NoItems));
      case EndArray(count) => EndOfArray(count);
      case StartObject => Start(JObj(NoMembers));
      case EndObject(count) => EndOfObject(count);
    }

    method FlushDocument() returns (result: Json)
      modifies this
      ensures (result, B()) == Flush(old(B()))
    {
      if !done {
        doc := CloseArray(doc, size);
        size := 0;
      }
      result := if doc == [] then JNull else doc[|doc| - 1];
      doc := [JArr(NoItems)];
      size := 0;
    }
  }

  /** Reads an array of which `rest` has not been delivered. */
  class ArrayReader {
    /** What the parser has not read of the stream. */
    var events: seq<Event>
    const buffer: ArrayBuffer
    ghost var rest: Items
    ghost var total: nat

    ghost predicate Finished()
      reads this
    {
      events == []
    }

    ghost predicate Valid()
      reads this, buffer
    {
      events == [] ||
      (buffer.B() == Collecting([]) && events == Stream(rest, total)) ||
      (buffer.B() == Buffer([], 0, 0, false) && events == [StartArray] + Stream(rest, total))
    }

    constructor (items: Items)
      ensures Valid() && !Finished() && rest == items && fresh(buffer)
    {
      events := Events(JArr(items));
      buffer := new ArrayBuffer();
      rest := items;
      total := Count(items);
      new;
      assert Events(JArr(items)) == [StartArray] + Stream(items, Count(items));
    }

    /** Up to `n` elements; nothing any more once the array has ended. */
    method ReadNextN(n: nat) returns (batch: Option<Json>)
      requires Valid() && n > 0
      modifies this, buffer
      ensures Valid()
      ensures old(Finished()) ==> batch == None && Finished()
      ensures !old(Finished()) ==> batch == Some(JArr(ItemsOf(Take(old(rest), n))))
      ensures !old(Finished()) && Count(old(rest)) >= n ==> !Finished() && rest == Drop(old(rest), n)
      ensures !old(Finished()) && Count(old(rest)) < n ==> Finished()
    {
      if events == [] { return None; }
      ghost var es, b := events, buffer.B();
      Starts(b, es, rest, total, n);
      BatchIsCollected([], rest, total, n);
      assert [] + Take(rest, n) == Take(rest, n);
      while events != []
        invariant Pump(buffer.B(), events, n) == Pump(b, es, n)
        invariant rest == old(rest) && total == old(total)
        invariant events == [] ==> events == es
        decreases |events|
      {
        var e := events[0];
        events := events[1..];
        buffer.Dispatch(e);
        if buffer.done || (buffer.size >= n && buffer.depth == 1) {
          var result := buffer.FlushDocument();
          rest := Drop(rest, n);
          return Some(result);
        }
      }
    }

    /** Repeated calls up to the end of the array: the batches make it up. */
    method ReadBatches(n: nat) returns (batches: seq<seq<Json>>)
      requires Valid() && n > 0 && !Finished()
      modifies this, buffer
      ensures Valid() && Finished() && batches == Batches(old(rest), n)
      ensures Concat(batches) == ToSeq(old(rest))
    {
      batches := [];
      ghost var all := rest;
      BatchesConcatenate(all, n);
      assert [] + Batches(all, n) == Batches(all, n);
      while events != []
        invariant Valid() && Collected(batches, if Finished() then [] else Batches(rest, n), all, n)
        decreases if Finished() then 0 else 1 + Count(rest)
      {
        DropCounts(rest, n);
        CollectsOn(batches, rest, all, n);
        var batch := ReadNextN(n);
        batches := batches + [ToSeq(batch.value.items)];
      }
      assert batches + [] == batches;
    }
  }

  /** The batches so far, and those to come, are the batches of the array. */
  ghost predicate Collected(batches: seq<seq<Json>>, more: seq<seq<Json>>, all: Items, n: nat)
    requires n > 0
  {
    batches + more == Batches(all, n)
  }

  lemma CollectsOn(batches: seq<seq<Json>>, rest: Items, all: Items, n: nat)
    requires n > 0 && Collected(batches, Batches(rest, n), all, n)
    ensures var batch := ToSeq(ItemsOf(Take(rest, n)));
      Collected(batches + [batch], if Count(rest) < n then [] else Batches(Drop(rest, n), n), all, n)
  {
    ToSeqOf(Take(rest, n));
    LastBatch(rest, n);
    if Count(rest) < n {
      OneMore(batches, Take(rest, n), []);
    } else {
      OneMore(batches, Take(rest, n), Batches(Drop(rest, n), n));
    }
  }

  lemma OneMore<T>(xs: seq<T>, x: T, rest: seq<T>)
    ensures xs + ([x] + rest) == xs + [x] + rest
    ensures [x] + [] == [x]
  {
  }

  lemma {:induction false} ToSeqOf(vs: seq<Json>)
    ensures ToSeq(ItemsOf(vs)) == vs
  {
    if vs != [] { ToSeqOf(vs[1..]); }
  }

  lemma LastBatch(items: Items, n: nat)
    requires n > 0
    ensures Count(items) < n ==> Batches(items, n) == [Take(items, n)]
  {
    if Count(items) < n {
      TakeAll(items, n);
      ToSeqOf(Take(items, n));
    }
  }

  /** The opening bracket is read before the first element. */
  lemma Starts(b: Buffer, es: seq<Event>, items: Items, total: nat, n: nat)
    requires n > 0
    requires (b == Collecting([]) && es == Stream(items, total)) ||
             (b == Buffer([], 0, 0, false) && es == [StartArray] + Stream(items, total))
    ensures Pump(b, es, n) == Pump(Collecting([]), Stream(items, total), n)
  {
    if b != Collecting([]) {
      assert [] + [JArr(NoItems)] == [JArr(NoItems)] + [];
      PumpOne(b, StartArray, Stream(items, total), n);
    }
  }

  // ---------------------------------------------------------------------------
  // Splitting rows

  lemma {:induction false} MeaningOfSplit(t: Type, items: Items, k: nat)
    ensures MeaningItems(t, items) == MeaningItems(t, ItemsOf(Take(items, k))) + MeaningItems(t, Drop(items, k))
    ensures AcceptsAll(t, items) <==> AcceptsAll(t, ItemsOf(Take(items, k))) && AcceptsAll(t, Drop(items, k))
    decreases items
  {
    if k > 0 && items.Item? {
      MeaningOfSplit(t, items.tail, k - 1);
      FirstTaken(items, k);
      var first, head, tail := [Meaning(t, items.head)], ItemsOf(Take(items.tail, k - 1)), Drop(items.tail, k - 1);
      assert first + (MeaningItems(t, head) + MeaningItems(t, tail)) ==
        (first + MeaningItems(t, head)) + MeaningItems(t, tail);
    } else {
      assert [] + MeaningItems(t, items) == MeaningItems(t, items);
    }
  }

  lemma FirstTaken(items: Items, k: nat)
    requires k > 0 && items.Item?
    ensures ItemsOf(Take(items, k)) == Item(items.head, ItemsOf(Take(items.tail, k - 1)))
    ensures Drop(items, k) == Drop(items.tail, k - 1)
  {
    assert Take(items, k)[1..] == Take(items.tail, k - 1);
  }

  lemma {:induction false} TakeAll(items: Items, k: nat)
    requires Count(items) < k
    ensures ItemsOf(Take(items, k)) == items && Drop(items, k) == NoItems
    decreases items
  {
    if items.Item? {
      assert Take(items, k)[1..] == Take(items.tail, k - 1);
      TakeAll(items.tail, k - 1);
    }
  }

  lemma {:induction false} CountOf(vs: seq<Json>)
    ensures Count(ItemsOf(vs)) == |vs|
  {
    if vs != [] { CountOf(vs[1..]); }
  }

  // ---------------------------------------------------------------------------
  // Row arrays

  datatype Next = Batch(column: Column) | EndOfTable | Failed

  /** A struct array without null rows. */
  predicate NoNulls(c: Column) { c.StructC? && forall i :: 0 <= i < |c.valid| ==> c.valid[i] }

  lemma NoNullRows(t: Type, c: Column)
    requires t.StructT? && Fits(t, c) && Sound(t, c)
    ensures NoNulls(c) <==> Null !in Decode(t, c)
  {
    if i :| 0 <= i < |c.valid| && !c.valid[i] {
      assert Decode(t, c)[i] == Null;
    }
  }

  /** Rows that make a record batch: their type takes them, and none of them is null. */
  ghost predicate Tabular(t: Type, rows: Items) { AcceptsAll(t, rows) && Null !in MeaningItems(t, rows) }

  class RowArrayTableReader {
    const batchSize: nat
    const reader: ArrayReader
    const parser: ArrayParser

    ghost predicate Valid()
      reads this, reader, reader.buffer, parser
    {
      && batchSize > 0 && parser.typ.StructT?
      && reader.Valid() && parser.Valid() && parser.builder == NewColumn(parser.typ)
    }

    constructor (rows: Items, typ: Type, batchSize: nat)
      requires GoodType(typ) && typ.StructT? && batchSize > 0
      ensures Valid() && parser.typ == typ && reader.rest == rows && !reader.Finished()
      ensures fresh(reader) && fresh(reader.buffer) && fresh(parser)
    {
      this.batchSize := batchSize;
      reader := new ArrayReader(rows);
      parser := new ArrayParser(typ);
    }

    /** `ReadNext`: the next rows as a record batch, which they make exactly if their type takes them
        all and none of them is null; no rows are the end of the table. */
    method ReadNext() returns (next: Next)
      requires Valid()
      modifies reader, reader.buffer, parser
      ensures !next.Failed? ==> Valid()
      ensures old(reader.Finished()) ==> next == EndOfTable && reader.Finished()
      ensures !old(reader.Finished()) ==>
        var rows := ItemsOf(Take(old(reader.rest), batchSize));
        && (next.EndOfTable? <==> rows == NoItems)
        && (next.Batch? <==> rows != NoItems && Tabular(parser.typ, rows))
        && (next.Batch? ==>
             && Fits(parser.typ, next.column) && Sound(parser.typ, next.column) && NoNulls(next.column)
             && Decode(parser.typ, next.column) == MeaningItems(parser.typ, rows))
        && (if Count(old(reader.rest)) >= batchSize
            then !reader.Finished() && reader.rest == Drop(old(reader.rest), batchSize)
            else reader.Finished())
    {
      ghost var rows := ItemsOf(Take(reader.rest, batchSize));
      var batch := reader.ReadNextN(batchSize);
      if batch.Some? {
        var status := parser.AppendValues(batch.value);
        if !status.Good? { return Failed; }
        assert Decode(parser.typ, parser.builder) == [] + MeaningItems(parser.typ, rows);
      }
      var column := parser.Finish();
      if Slots(column) == 0 { return EndOfTable; }
      NoNullRows(parser.typ, column);
      if !NoNulls(column) { return Failed; }
      return Batch(column);
    }

    /** All batches of a table: they are the rows of the whole document, and there are such batches
        exactly if the type takes every row and none of them is null. */
    method ReadTable() returns (rows: Option<seq<Value>>)
      requires Valid() && !reader.Finished()
      modifies reader, reader.buffer, parser
      ensures rows.Some? <==> Tabular(parser.typ, old(reader.rest))
      ensures rows.Some? ==> rows.value == MeaningItems(parser.typ, old(reader.rest))
    {
      ghost var all := reader.rest;
      ghost var left := all;
      var out: seq<Value> := [];
      assert [] + MeaningItems(parser.typ, all) == MeaningItems(parser.typ, all);
      while true
        invariant Valid() && Reads(parser.typ, out, left, all)
        invariant if reader.Finished() then left == NoItems else left == reader.rest
        decreases Count(left), if reader.Finished() then 0 else 1
      {
        ReadsMore(parser.typ, out, left, all, batchSize);
        var next := ReadNext();
        if next.Failed? { return None; }
        if next.EndOfTable? { return Some(out); }
        left := Drop(left, batchSize);
        out := out + Decode(parser.typ, next.column);
      }
      return None;
    }
  }

  /** Rows delivered, and rows left, are the rows of the table. */
  ghost predicate Reads(t: Type, out: seq<Value>, left: Items, all: Items) {
    && out + MeaningItems(t, left) == MeaningItems(t, all)
    && (Tabular(t, all) <==> Tabular(t, left))
  }

  lemma ReadsMore(t: Type, out: seq<Value>, left: Items, all: Items, n: nat)
    requires n > 0 && Reads(t, out, left, all)
    ensures var batch := ItemsOf(Take(left, n));
      && (Tabular(t, batch) ==> Reads(t, out + MeaningItems(t, batch), Drop(left, n), all))
      && (!Tabular(t, batch) ==> !Tabular(t, all))
      && (batch == NoItems ==> out == MeaningItems(t, all) && Tabular(t, all))
    ensures left.Item? ==> Count(Drop(left, n)) < Count(left)
    ensures Count(left) < n ==> Drop(left, n) == NoItems
  {
    var batch, rest := MeaningItems(t, ItemsOf(Take(left, n))), MeaningItems(t, Drop(left, n));
    MeaningOfSplit(t, left, n);
    DropCounts(left, n);
    EndsEmpty(t, left, n);
    if Count(left) < n { TakeAll(left, n); }
    assert out + (batch + rest) == out + batch + rest;
    assert out + [] == out;
  }

  lemma EndsEmpty(t: Type, items: Items, k: nat)
    requires k > 0
    ensures ItemsOf(Take(items, k)) == NoItems ==> items == NoItems && MeaningItems(t, items) == []
  {
  }
}
