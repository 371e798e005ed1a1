/** Column-wise tables: every column is an array of its own, and the batches of a record batch are
    padded with nulls to the longest of them. */
module JsonColumns {
  import opened Wrappers
  import opened Shred
  import opened ShredLaws
  import opened ShredDecode
  import opened ShredParser
  import opened JsonTable
  import opened JsonReader

  function Nulls(t: Type, k: nat): (r: seq<Value>)
    ensures |r| == k
  {
    if k == 0 then [] else [NullOf(t)] + Nulls(t, k - 1)
  }

  lemma {:induction false} NullsAdd(t: Type, a: nat, b: nat)
    ensures Nulls(t, a) + Nulls(t, b) == Nulls(t, a + b)
  {
    if a > 0 {
      NullsAdd(t, a - 1, b);
      assert [NullOf(t)] + Nulls(t, a - 1) + Nulls(t, b) == [NullOf(t)] + (Nulls(t, a - 1) + Nulls(t, b));
    } else {
      assert [] + Nulls(t, b) == Nulls(t, b);
    }
  }

  /** A column of a table with `rows` rows. */
  function Padded(t: Type, items: Items, rows: nat): (r: seq<Value>) {
    MeaningItems(t, items) + Nulls(t, if Count(items) < rows then rows - Count(items) else 0)
  }

  /** A column that has not been read. */
  datatype Source = Source(typ: Type, items: Items)

  function Longest(cols: seq<Source>): nat {
    if cols == [] then 0
    else
      var rest := Longest(cols[1..]);
      if Count(cols[0].items) > rest then Count(cols[0].items) else rest
  }

  lemma {:induction false} LongestIs(cols: seq<Source>)
    ensures forall k :: 0 <= k < |cols| ==> Count(cols[k].items) <= Longest(cols)
    ensures Longest(cols) == 0 || exists k :: 0 <= k < |cols| && Count(cols[k].items) == Longest(cols)
  {
    if cols != [] {
      LongestIs(cols[1..]);
      if Longest(cols) == Count(cols[0].items) {
      } else {
        var k :| 0 <= k < |cols| - 1 && Count(cols[1..][k].items) == Longest(cols[1..]);
        assert cols[k + 1] == cols[1..][k];
      }
      forall k | 0 < k < |cols| ensures Count(cols[k].items) <= Longest(cols) {
        assert cols[k] == cols[1..][k - 1];
      }
    }
  }

  function MinOf(a: nat, b: nat): nat { if a < b then a else b }

  function DropAll(cols: seq<Source>, n: nat): (r: seq<Source>)
    ensures |r| == |cols|
    ensures forall k :: 0 <= k < |cols| ==> r[k] == Source(cols[k].typ, Drop(cols[k].items, n))
  {
    seq(|cols|, k requires 0 <= k < |cols| => Source(cols[k].typ, Drop(cols[k].items, n)))
  }

  predicate GoodColumns(cols: seq<Source>) { forall k :: 0 <= k < |cols| ==> GoodType(cols[k].typ) }

  predicate Readable(cols: seq<Source>) { forall k :: 0 <= k < |cols| ==> AcceptsAll(cols[k].typ, cols[k].items) }

  predicate TakesNext(col: Source, n: nat) { AcceptsAll(col.typ, ItemsOf(Take(col.items, n))) }

  /** Every column's type takes its next `n` elements. */
  predicate Taken(cols: seq<Source>, n: nat) { forall k :: 0 <= k < |cols| ==> TakesNext(cols[k], n) }

  /** What one record batch holds. */
  ghost predicate IsBatch(cols: seq<Source>, n: nat, batch: seq<Column>, rows: nat) {
    && |batch| == |cols| && rows == MinOf(n, Longest(cols))
    && forall k :: 0 <= k < |cols| ==> HoldsBatch(cols[k], n, batch[k], rows)
  }

  /** A key to `HoldsBatch`: what a batch is stays closed in the proofs that only move it along. */
  ghost predicate UnfoldBatch(c: Column, k: int) { true }

  ghost predicate HoldsBatch(col: Source, n: nat, c: Column, rows: nat) {
    forall k {:trigger UnfoldBatch(c, k)} :: UnfoldBatch(c, k) ==> BatchOf(col, n, c, rows)
  }

  lemma OpenBatch(col: Source, n: nat, c: Column, rows: nat)
    requires HoldsBatch(col, n, c, rows)
    ensures BatchOf(col, n, c, rows)
  {
    assert UnfoldBatch(c, 0);
  }

  ghost predicate BatchOf(col: Source, n: nat, c: Column, rows: nat) {
    && Fits(col.typ, c) && Sound(col.typ, c) && |Take(col.items, n)| <= rows
    && Decode(col.typ, c) == FirstRows(col.typ, col.items, n, rows)
  }

  /** A column's parser has taken its next elements. */
  ghost predicate HasRead(col: Source, n: nat, c: Column) {
    && Fits(col.typ, c) && Sound(col.typ, c) && Slots(c) == NextRows(col, n)
    && Decode(col.typ, c) == MeaningItems(col.typ, ItemsOf(Take(col.items, n)))
  }

  function NextRows(col: Source, n: nat): nat { |Take(col.items, n)| }

  /** The longest of the next batches of the first `i` columns. */
  ghost predicate IsLongest(cols: seq<Source>, i: nat, n: nat, rows: nat)
    requires i <= |cols|
  {
    && (forall k :: 0 <= k < i ==> NextRows(cols[k], n) <= rows)
    && (rows == 0 || exists k :: 0 <= k < i && NextRows(cols[k], n) == rows)
  }

  lemma RowsAreLongest(cols: seq<Source>, n: nat, rows: nat)
    requires n > 0 && IsLongest(cols, |cols|, n, rows)
    ensures rows == MinOf(n, Longest(cols)) && (rows == 0 <==> Longest(cols) == 0)
  {
    LongestIs(cols);
    if Longest(cols) > 0 {
      var k :| 0 <= k < |cols| && Count(cols[k].items) == Longest(cols);
      assert NextRows(cols[k], n) <= rows;
    }
    if rows > 0 {
      var k :| 0 <= k < |cols| && NextRows(cols[k], n) == rows;
      assert Count(cols[k].items) <= Longest(cols);
    }
  }

  lemma LongestOfRest(cols: seq<Source>, n: nat)
    ensures Longest(DropAll(cols, n)) == Longest(cols) - MinOf(n, Longest(cols))
  {
    var rest := DropAll(cols, n);
    LongestIs(cols);
    LongestIs(rest);
    forall k | 0 <= k < |cols|
      ensures Count(rest[k].items) == Count(cols[k].items) - MinOf(n, Count(cols[k].items))
    {
      DropCounts(cols[k].items, n);
    }
    if Longest(cols) > 0 {
      var k :| 0 <= k < |cols| && Count(cols[k].items) == Longest(cols);
      assert Count(rest[k].items) == Longest(cols) - MinOf(n, Longest(cols));
    }
  }

  /** The first `m` rows of a padded column. */
  function FirstRows(t: Type, items: Items, n: nat, m: nat): seq<Value>
    requires |Take(items, n)| <= m
  {
    MeaningItems(t, ItemsOf(Take(items, n))) + Nulls(t, m - |Take(items, n)|)
  }

  /** One batch of a column, and the rest of it, make up the column. */
  lemma ColumnSplits(t: Type, items: Items, n: nat, rows: nat)
    requires n > 0 && Count(items) <= rows
    ensures |Take(items, n)| <= MinOf(n, rows) && Count(Drop(items, n)) <= rows - MinOf(n, rows)
    ensures Padded(t, items, rows) ==
      FirstRows(t, items, n, MinOf(n, rows)) + Padded(t, Drop(items, n), rows - MinOf(n, rows))
  {
    DropCounts(items, n);
    if Count(items) >= n {
      assert MinOf(n, rows) == n;
      FullSplits(t, items, n, rows);
    } else {
      LastSplits(t, items, n, rows, MinOf(n, rows));
    }
  }

  lemma FullSplits(t: Type, items: Items, n: nat, rows: nat)
    requires 0 < n <= Count(items) <= rows && Count(Drop(items, n)) == Count(items) - n
    ensures Padded(t, items, rows) == FirstRows(t, items, n, n) + Padded(t, Drop(items, n), rows - n)
  {
    MeaningOfSplit(t, items, n);
    var head, tail := MeaningItems(t, ItemsOf(Take(items, n))), MeaningItems(t, Drop(items, n));
    Regroup(head, tail, [], Nulls(t, rows - Count(items)));
  }

  lemma LastSplits(t: Type, items: Items, n: nat, rows: nat, m: nat)
    requires Count(items) < n && Count(items) <= m <= rows && |Take(items, n)| <= m
    ensures Padded(t, items, rows) == FirstRows(t, items, n, m) + Padded(t, Drop(items, n), rows - m)
  {
    TakeAll(items, n);
    var head, fill, more := MeaningItems(t, items), Nulls(t, m - Count(items)), Nulls(t, rows - m);
    NullsAdd(t, m - Count(items), rows - m);
    Regroup(head, [], fill, more);
  }

  lemma Regroup(head: seq<Value>, tail: seq<Value>, fill: seq<Value>, more: seq<Value>)
    requires tail == [] || fill == []
    ensures head + tail + (fill + more) == head + fill + (tail + more)
    ensures head + tail + more == head + tail + ([] + more)
    ensures head + (fill + more) == head + fill + more
  {
  }

  /** How far a column has come: what was delivered and what is left make up the padded column. */
  ghost predicate Follows(col: Source, out: seq<Value>, left: Source, rows: nat, total: nat) {
    && left.typ == col.typ && Count(left.items) <= rows && Count(col.items) <= total
    && out + Padded(col.typ, left.items, rows) == Padded(col.typ, col.items, total)
  }

  lemma ColumnFollows(col: Source, out: seq<Value>, left: Source, rows: nat, total: nat, n: nat,
                                         c: Column)
    requires n > 0 && Follows(col, out, left, rows, total) && HoldsBatch(left, n, c, MinOf(n, rows))
    requires Fits(left.typ, c) && Sound(left.typ, c)
    ensures Follows(col, out + Decode(left.typ, c), Source(left.typ, Drop(left.items, n)), rows - MinOf(n, rows), total)
  {
    OpenBatch(left, n, c, MinOf(n, rows));
    ColumnSplits(col.typ, left.items, n, rows);
    var more := Padded(col.typ, Drop(left.items, n), rows - MinOf(n, rows));
    assert out + (Decode(left.typ, c) + more) == out + Decode(left.typ, c) + more;
  }

  predicate Decodable(types: seq<Type>, batch: seq<Column>) {
    |batch| == |types| && forall k :: 0 <= k < |types| ==> Fits(types[k], batch[k]) && Sound(types[k], batch[k])
  }

  predicate TypesOf(types: seq<Type>, cols: seq<Source>) {
    |types| == |cols| && forall k :: 0 <= k < |types| ==> types[k] == cols[k].typ
  }

  /** The columns so far and one batch more. */
  function Deliver(columns: seq<seq<Value>>, types: seq<Type>, batch: seq<Column>): (r: seq<seq<Value>>)
    requires |columns| == |types| && Decodable(types, batch)
    ensures |r| == |types| && forall k :: 0 <= k < |types| ==> r[k] == columns[k] + Decode(types[k], batch[k])
  {
    seq(|types|, k requires 0 <= k < |types| => columns[k] + Decode(types[k], batch[k]))
  }

  lemma BatchDecodes(types: seq<Type>, rest: seq<Source>, n: nat, batch: seq<Column>, rows: nat)
    requires TypesOf(types, rest) && IsBatch(rest, n, batch, rows)
    ensures Decodable(types, batch)
  {
    forall k | 0 <= k < |rest|
      ensures Fits(rest[k].typ, batch[k]) && Sound(rest[k].typ, batch[k])
    {
      OpenBatch(rest[k], n, batch[k], rows);
    }
  }

  ghost predicate AllFollow(cols: seq<Source>, columns: seq<seq<Value>>, rest: seq<Source>) {
    && |columns| == |rest| == |cols|
    && forall k :: 0 <= k < |cols| ==> Follows(cols[k], columns[k], rest[k], Longest(rest), Longest(cols))
  }

  lemma DeliverOne(col: Source, out: seq<Value>, left: Source, c: Column, n: nat, rows: nat,
                                      fewer: nat, total: nat,
                                      longer: seq<Value>, next: Source)
    requires n > 0 && Follows(col, out, left, rows, total) && HoldsBatch(left, n, c, MinOf(n, rows))
    requires Fits(left.typ, c) && Sound(left.typ, c)
    requires longer == out + Decode(left.typ, c) && next == Source(left.typ, Drop(left.items, n))
      && fewer == rows - MinOf(n, rows)
    ensures Follows(col, longer, next, fewer, total)
  {
    ColumnFollows(col, out, left, rows, total, n, c);
  }

  lemma DeliverFollows(cols: seq<Source>, columns: seq<seq<Value>>, types: seq<Type>, rest: seq<Source>, n: nat,
                       batch: seq<Column>)
    requires n > 0 && AllFollow(cols, columns, rest) && TypesOf(types, rest)
    requires IsBatch(rest, n, batch, MinOf(n, Longest(rest)))
    ensures Decodable(types, batch) && AllFollow(cols, Deliver(columns, types, batch), DropAll(rest, n))
  {
    var rows, total := Longest(rest), Longest(cols);
    BatchDecodes(types, rest, n, batch, MinOf(n, rows));
    LongestOfRest(rest, n);
    var longer, next := Deliver(columns, types, batch), DropAll(rest, n);
    var fewer := Longest(next);
    forall k | 0 <= k < |cols|
      ensures Follows(cols[k], longer[k], next[k], fewer, total)
    {
      assert types[k] == rest[k].typ;
      DeliverOne(cols[k], columns[k], rest[k], batch[k], n, rows, fewer, total, longer[k], next[k]);
    }
  }

  // ---------------------------------------------------------------------------
  // The readers

  function Behind(col: Source, n: nat): Source { Source(col.typ, Drop(col.items, n)) }

  /** Where a column's reader is: before the elements of `col`, or with the next `n` of them read. */
  datatype Stage = Before(col: Source) | Holding(col: Source, n: nat)

  /** A key to `At`. */
  ghost predicate UnfoldStage(stage: Stage, k: int) { true }

  /** The reader of one column: its stream of events and its array parser. */
  class ColumnReader {
    const reader: ArrayReader
    const parser: ArrayParser

    ghost function Objects(): set<object> { {reader, reader.buffer, parser} }

    /** What has not been read. */
    ghost function Left(): Source
      reads Objects()
    {
      Source(parser.typ, if reader.Finished() then NoItems else reader.rest)
    }

    ghost predicate IsAt(stage: Stage)
      reads Objects()
    {
      && reader.Valid() && parser.Valid()
      && match stage
         case Before(col) => Left() == col && parser.builder == NewColumn(parser.typ)
         case Holding(col, n) =>
           && col.typ == parser.typ && HasRead(col, n, parser.builder) && Left() == Behind(col, n)
           && (Slots(parser.builder) == 0 ==> parser.builder == NewColumn(parser.typ))
    }

    ghost predicate At(stage: Stage)
      reads Objects()
    {
      forall k {:trigger UnfoldStage(stage, k)} :: UnfoldStage(stage, k) ==> IsAt(stage)
    }

    lemma OpenStage(stage: Stage)
      requires At(stage)
      ensures IsAt(stage)
    {
      assert UnfoldStage(stage, 0);
    }

    constructor (col: Source)
      requires GoodType(col.typ)
      ensures At(Before(col)) && parser.typ == col.typ && fresh(Objects())
    {
      reader := new ArrayReader(col.items);
      parser := new ArrayParser(col.typ);
    }

    /** `ReadNextN`: the next elements go to the parser; after the end of the array there are none. */
    method ReadNextN(n: nat, ghost col: Source) returns (ok: bool)
      requires At(Before(col)) && n > 0
      modifies Objects()
      ensures ok <==> TakesNext(col, n)
      ensures ok ==> At(Holding(col, n))
    {
      OpenStage(Before(col));
      assert [] + MeaningItems(col.typ, ItemsOf(Take(col.items, n))) ==
        MeaningItems(col.typ, ItemsOf(Take(col.items, n)));
      CountOf(Take(col.items, n));
      if Count(col.items) < n { TakeAll(col.items, n); }
      var batch := reader.ReadNextN(n);
      if batch.None? { return true; }
      var status := parser.AppendValues(batch.value);
      ok := status.Good?;
    }

    /** `GetLength` */
    method GetLength(ghost col: Source, ghost n: nat) returns (length: nat)
      requires At(Holding(col, n))
      ensures length == NextRows(col, n)
    {
      OpenStage(Holding(col, n));
      length := Slots(parser.builder);
    }

    lemma NothingHeld(col: Source, n: nat)
      requires At(Holding(col, n)) && NextRows(col, n) == 0
      ensures At(Before(Behind(col, n)))
    {
      OpenStage(Holding(col, n));
    }

    /** The loop of the padding. */
    method Pad(rows: nat)
      requires parser.Valid() && Slots(parser.builder) <= rows
      modifies parser
      ensures parser.Valid() && Slots(parser.builder) == rows
      ensures Decode(parser.typ, parser.builder) ==
        old(Decode(parser.typ, parser.builder)) + Nulls(parser.typ, rows - Slots(old(parser.builder)))
    {
      ghost var start, had := Decode(parser.typ, parser.builder), Slots(parser.builder);
      assert start + [] == start;
      while Slots(parser.builder) < rows
        invariant parser.Valid() && had <= Slots(parser.builder) <= rows
        invariant Decode(parser.typ, parser.builder) == start + Nulls(parser.typ, Slots(parser.builder) - had)
        decreases rows - Slots(parser.builder)
      {
        OneNullMore(start, parser.typ, Slots(parser.builder) - had);
        parser.AppendNull();
      }
    }

    /** A batch is padded and handed out by `Finish`. */
    method PadAndFinish(ghost col: Source, ghost n: nat, rows: nat) returns (c: Column)
      requires At(Holding(col, n)) && NextRows(col, n) <= rows
      modifies Objects()
      ensures At(Before(Behind(col, n))) && HoldsBatch(col, n, c, rows)
    {
      OpenStage(Holding(col, n));
      Pad(rows);
      c := parser.Finish();
    }
  }

  lemma OneNullMore(start: seq<Value>, t: Type, added: nat)
    ensures start + Nulls(t, added) + [NullOf(t)] == start + Nulls(t, added + 1)
  {
    NullsAdd(t, added, 1);
    assert Nulls(t, 1) == [NullOf(t)];
  }

  datatype NextColumns = Columns(columns: seq<Column>) | EndOfColumns | FailedColumns

  class ColumnObjectTableReader {
    const batchSize: nat
    const columns: seq<ColumnReader>
    /** What has not been read, column by column. */
    ghost var left: seq<Source>

    /** The objects of all columns. */
    ghost const repr: set<object>

    /** No two columns share an object. */
    ghost predicate Separate()
      reads this
    {
      && this !in repr && |left| == |columns|
      && (forall k :: 0 <= k < |columns| ==> columns[k].Objects() <= repr)
      && forall i, j :: 0 <= i < |columns| && 0 <= j < |columns| && i != j ==>
           columns[i].Objects() !! columns[j].Objects()
    }

    ghost predicate Valid()
      reads this, repr
    {
      && batchSize > 0 && Separate()
      && forall k :: 0 <= k < |columns| ==> columns[k].At(Before(left[k])) && columns[k].parser.typ == left[k].typ
    }

    constructor (cols: seq<Source>, batchSize: nat)
      requires GoodColumns(cols) && batchSize > 0
      ensures Valid() && left == cols && fresh(repr)
    {
      this.batchSize := batchSize;
      var readers, objects := NewReaders(cols);
      columns, left, repr := readers, cols, objects;
    }

    /** The first loop of `ReadNext`: a batch of every column, and the length of the longest. */
    method ReadColumns() returns (numRows: nat, ok: bool)
      requires Valid()
      modifies repr
      ensures ok <==> Taken(left, batchSize)
      ensures ok ==> IsLongest(left, |left|, batchSize, numRows)
      ensures ok ==> forall k :: 0 <= k < |columns| ==> columns[k].At(Holding(left[k], batchSize))
    {
      numRows := 0;
      for i := 0 to |columns|
        invariant IsLongest(left, i, batchSize, numRows) && forall k :: 0 <= k < i ==> TakesNext(left[k], batchSize)
        invariant forall k :: 0 <= k < i ==> columns[k].At(Holding(left[k], batchSize))
        invariant forall k :: i <= k < |columns| ==> columns[k].At(Before(left[k]))
      {
        ok := columns[i].ReadNextN(batchSize, left[i]);
        if !ok { return 0, false; }
        var length := columns[i].GetLength(left[i], batchSize);
        OneColumnMore(left, i, batchSize, numRows, length);
        if length > numRows {
          numRows := length;
        }
      }
      ok := true;
    }

    /** The second loop: every column is padded. */
    method PadColumns(numRows: nat) returns (padded: seq<Column>)
      requires Separate() && IsLongest(left, |left|, batchSize, numRows)
      requires forall k :: 0 <= k < |columns| ==> columns[k].At(Holding(left[k], batchSize))
      modifies repr
      ensures forall k :: 0 <= k < |columns| ==> columns[k].At(Before(Behind(left[k], batchSize)))
      ensures |padded| == |left| && forall k :: 0 <= k < |left| ==> HoldsBatch(left[k], batchSize, padded[k], numRows)
    {
      padded := [];
      for i := 0 to |columns|
        invariant |padded| == i && forall k :: 0 <= k < i ==> HoldsBatch(left[k], batchSize, padded[k], numRows)
        invariant forall k :: 0 <= k < i ==> columns[k].At(Before(Behind(left[k], batchSize)))
        invariant forall k :: i <= k < |columns| ==> columns[k].At(Holding(left[k], batchSize))
      {
        var c := columns[i].PadAndFinish(left[i], batchSize, numRows);
        padded := padded + [c];
      }
    }

    /** `ReadNext`: a batch of every column, all padded to the longest; nothing if every column has
        ended; and a failure exactly if some column's type does not take its elements. */
    method ReadNext() returns (next: NextColumns)
      requires Valid()
      modifies this, repr
      ensures next.FailedColumns? <==> !Taken(old(left), batchSize)
      ensures next.EndOfColumns? ==> Longest(old(left)) == 0
      ensures next.Columns? ==> Longest(old(left)) > 0
      ensures next.Columns? ==> IsBatch(old(left), batchSize, next.columns, MinOf(batchSize, Longest(old(left))))
      ensures !next.FailedColumns? ==> Valid() && left == DropAll(old(left), batchSize)
    {
      var numRows, ok := ReadColumns();
      if !ok { return FailedColumns; }
      RowsAreLongest(left, batchSize, numRows);
      if numRows == 0 {
        forall k | 0 <= k < |columns| ensures columns[k].At(Before(Behind(left[k], batchSize))) {
          columns[k].NothingHeld(left[k], batchSize);
        }
        left := DropAll(left, batchSize);
        return EndOfColumns;
      }
      var padded := PadColumns(numRows);
      left := DropAll(left, batchSize);
      return Columns(padded);
    }

    /** All batches of a column-wise table: every column comes out complete, padded to the longest, if
        their types take all their elements, and only then. */
    method ReadTable() returns (table: Option<seq<seq<Value>>>)
      requires Valid()
      modifies this, repr
      ensures table.Some? <==> Readable(old(left))
      ensures table.Some? ==> IsTable(old(left), table.value)
    {
      ghost var cols := left;
      var out := seq(|columns|, _ => []);
      var types := seq(|columns|, k requires 0 <= k < |columns| => columns[k].parser.typ);
      NothingFollows(cols, out);
      while true
        invariant Valid() && InTable(cols, out, types, left)
        decreases Longest(left)
      {
        ghost var rest := left;
        BatchOrNone(cols, rest, out, types, batchSize);
        var next := ReadNext();
        if next.FailedColumns? { return None; }
        if next.EndOfColumns? { return Some(out); }
        TableGoesOn(cols, out, types, rest, batchSize, next.columns);
        out := Deliver(out, types, next.columns);
      }
      return None;
    }
  }

  /** How far the table has come. */
  ghost predicate InTable(cols: seq<Source>, out: seq<seq<Value>>, types: seq<Type>, rest: seq<Source>) {
    AllFollow(cols, out, rest) && TypesOf(types, rest) && (Readable(cols) <==> Readable(rest))
  }

  lemma BatchOrNone(cols: seq<Source>, rest: seq<Source>, out: seq<seq<Value>>, types: seq<Type>, n: nat)
    requires n > 0 && InTable(cols, out, types, rest)
    ensures !Taken(rest, n) ==> !Readable(cols)
    ensures Longest(rest) == 0 ==> Readable(cols) && IsTable(cols, out)
  {
    ReadableSplits(rest, n);
    if Longest(rest) == 0 {
      AllRead(cols, out, rest);
    }
  }

  lemma TableGoesOn(cols: seq<Source>, out: seq<seq<Value>>, types: seq<Type>, rest: seq<Source>, n: nat,
                    batch: seq<Column>)
    requires n > 0 && InTable(cols, out, types, rest) && Taken(rest, n) && Longest(rest) > 0
    requires IsBatch(rest, n, batch, MinOf(n, Longest(rest)))
    ensures Decodable(types, batch) && InTable(cols, Deliver(out, types, batch), types, DropAll(rest, n))
    ensures Longest(DropAll(rest, n)) < Longest(rest)
  {
    ReadableSplits(rest, n);
    LongestOfRest(rest, n);
    DeliverFollows(cols, out, types, rest, n, batch);
  }

  lemma OneColumnMore(cols: seq<Source>, i: nat, n: nat, rows: nat, next: nat)
    requires i < |cols| && IsLongest(cols, i, n, rows) && next == NextRows(cols[i], n)
    ensures IsLongest(cols, i + 1, n, if next > rows then next else rows)
  {
    if next <= rows && rows > 0 {
      var k :| 0 <= k < i && NextRows(cols[k], n) == rows;
    }
  }

  /** `Prepare` makes one reader for every column. */
  method NewReaders(cols: seq<Source>) returns (readers: seq<ColumnReader>, ghost objects: set<object>)
    requires GoodColumns(cols)
    ensures |readers| == |cols|
    ensures forall k :: 0 <= k < |cols| ==>
      readers[k].At(Before(cols[k])) && readers[k].parser.typ == cols[k].typ && readers[k].Objects() <= objects
    ensures fresh(objects)
    ensures forall i, j :: 0 <= i < |readers| && 0 <= j < |readers| && i != j ==>
      readers[i].Objects() !! readers[j].Objects()
  {
    readers, objects := [], {};
    for n := 0 to |cols|
      invariant |readers| == n
      invariant forall k :: 0 <= k < n ==>
        readers[k].At(Before(cols[k])) && readers[k].parser.typ == cols[k].typ && readers[k].Objects() <= objects
      invariant fresh(objects)
      invariant forall i, j :: 0 <= i < n && 0 <= j < n && i != j ==> readers[i].Objects() !! readers[j].Objects()
    {
      var r := new ColumnReader(cols[n]);
      readers, objects := readers + [r], objects + r.Objects();
    }
  }

  /** Every column, padded to the longest. */
  ghost predicate IsTable(cols: seq<Source>, table: seq<seq<Value>>) {
    |table| == |cols| && forall k :: 0 <= k < |cols| ==> table[k] == Padded(cols[k].typ, cols[k].items, Longest(cols))
  }

  lemma NothingFollows(cols: seq<Source>, out: seq<seq<Value>>)
    requires |out| == |cols| && forall k :: 0 <= k < |cols| ==> out[k] == []
    ensures AllFollow(cols, out, cols)
  {
    LongestIs(cols);
    forall k | 0 <= k < |cols| ensures Follows(cols[k], out[k], cols[k], Longest(cols), Longest(cols)) {
      assert [] + Padded(cols[k].typ, cols[k].items, Longest(cols)) ==
        Padded(cols[k].typ, cols[k].items, Longest(cols));
    }
  }

  lemma AllRead(cols: seq<Source>, out: seq<seq<Value>>, rest: seq<Source>)
    requires AllFollow(cols, out, rest) && Longest(rest) == 0
    ensures IsTable(cols, out) && Readable(rest)
  {
    LongestIs(rest);
    forall k | 0 <= k < |cols|
      ensures out[k] == Padded(cols[k].typ, cols[k].items, Longest(cols)) && AcceptsAll(rest[k].typ, rest[k].items)
    {
      assert Follows(cols[k], out[k], rest[k], 0, Longest(cols));
      assert out[k] + [] == out[k];
    }
  }

  lemma ReadableSplits(cols: seq<Source>, n: nat)
    ensures Readable(cols) <==> Taken(cols, n) && Readable(DropAll(cols, n))
  {
    var rest := DropAll(cols, n);
    forall k | 0 <= k < |cols|
      ensures AcceptsAll(cols[k].typ, cols[k].items) <==>
        AcceptsAll(cols[k].typ, ItemsOf(Take(cols[k].items, n))) && AcceptsAll(rest[k].typ, rest[k].items)
    {
      MeaningOfSplit(cols[k].typ, cols[k].items, n);
    }
  }
}
