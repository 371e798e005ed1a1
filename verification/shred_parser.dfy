/** The array parsers as their callers use them: an empty builder, rows appended one by one, and the
    finished array. */
module ShredParser {
  import opened Wrappers
  import opened Shred
  import opened ShredLaws
  import opened ShredDecode

  // ---------------------------------------------------------------------------
  // Empty builders

  /** Types as Arrow constructs them. */
  predicate GoodType(t: Type)
    decreases t
  {
    match t
    case IntT(bits, _) => 0 < bits <= 64
    case ListT(item) => GoodType(item)
    case FixedT(_, item) => GoodType(item)
    case MapT(key, value) => GoodType(key) && GoodType(value)
    case StructT(fields) => GoodFields(fields)
    case UnionT(_, cases) => cases.Case? && GoodCodes(cases) && GoodCases(cases)
    case _ => true
  }

  predicate GoodFields(fs: Fields)
    decreases fs
  {
    fs.Field? ==> GoodType(fs.typ) && GoodFields(fs.rest)
  }

  predicate GoodCases(ks: Cases)
    decreases ks
  {
    ks.Case? ==> GoodType(ks.typ) && GoodCases(ks.rest)
  }

  /** `Init` */
  function NewColumn(t: Type): (r: Column)
    requires GoodType(t)
    ensures Fits(t, r) && Sound(t, r) && Slots(r) == 0
    decreases t
  {
    match t
    case NullT => NullC(0)
    case BoolT => BoolC([])
    case IntT(_, _) => IntC([])
    case StrT => StrC([])
    case ListT(item) => ListC([], [], NewColumn(item))
    case FixedT(size, item) => FixedC(size, [], NewColumn(item))
    case MapT(key, value) => MapC([], [], NewColumn(key), NewColumn(value))
    case StructT(fields) => StructC([], NewFields(fields))
    case UnionT(dense, cases) => UnionC([], [], NewCases(dense, cases))
  }

  function NewFields(fs: Fields): (r: Columns)
    requires GoodFields(fs)
    ensures FitFields(fs, r) && SoundFields(fs, r, 0)
    decreases fs
  {
    if fs.NoFields? then NoColumns else Col(NewColumn(fs.typ), NewFields(fs.rest))
  }

  function NewCases(dense: bool, ks: Cases): (r: Columns)
    requires GoodCases(ks)
    ensures FitCases(ks, r) && SoundCases(dense, ks, r, 0)
    decreases ks
  {
    if ks.NoCases? then NoColumns else Col(NewColumn(ks.typ), NewCases(dense, ks.rest))
  }

  /** For every type and every list of rows: the rows are taken exactly if the type accepts each of
      them, and then the columns read back as the rows, missing struct members as null. */
  lemma RoundTrip(t: Type, rows: Items)
    requires GoodType(t)
    ensures AppendValues(t, NewColumn(t), rows).Ok? <==> AcceptsAll(t, rows)
    ensures AcceptsAll(t, rows) ==>
      var c := AppendValues(t, NewColumn(t), rows).value;
      && Fits(t, c) && Sound(t, c)
      && Slots(c) == Count(rows)
      && Decode(t, c) == MeaningItems(t, rows)
  {
    AppendAcceptsAll(t, NewColumn(t), rows);
    if AcceptsAll(t, rows) {
      ItemsAreAppended(t, NewColumn(t), rows);
      assert Decode(t, NewColumn(t)) == [];
    }
  }

  /** A union slot of that code was appended. */
  predicate TakenAs(r: Result<Column>, c: Column, code: int)
    requires c.UnionC?
  {
    r.Ok? && r.value.UnionC? && |r.value.codes| == |c.codes| + 1 && r.value.codes[|c.codes|] == code
  }

  lemma {:induction false} CodesAreBytes(ks: Cases)
    requires GoodCodes(ks)
    ensures MaxCode(ks) < 128
  {
    if ks.Case? { CodesAreBytes(ks.rest); }
  }

  /** A pair of type code and value, for every code.  The code is cast to eight bits before it is looked
      up: the pair is taken under its own code exactly if that is a code of the type below 128, under
      another code exactly if the cast changes it to one, and the lookup leaves the table exactly if
      the code's low byte is above the highest code of the type. */
  lemma CodesAreTruncated(dense: bool, cases: Cases, c: Column, n: int, x: Json)
    requires Fits(UnionT(dense, cases), c)
    ensures var r := AppendValue(UnionT(dense, cases), c, JArr(Item(JInt(n), Item(x, NoItems)))); var code := ToInt8(n);
      && (TakenAs(r, c, n) <==> -128 <= n < 128 && HasCode(cases, n) && Accepts(CaseType(cases, n), x))
      && ((exists other :: other != n && TakenAs(r, c, other)) <==>
           IsInt32(n) && code != n && HasCode(cases, code) && Accepts(CaseType(cases, code), x))
      && (FindCode(cases, n).Undefined? <==> n % 256 > MaxCode(cases))
      && (IsInt32(n) && n % 256 > MaxCode(cases) ==> r == Undefined)
  {
    var t, v, code := UnionT(dense, cases), JArr(Item(JInt(n), Item(x, NoItems))), ToInt8(n);
    var r := AppendValue(t, c, v);
    AppendAccepts(t, c, v);
    CodesInTable(cases, code);
    CodesInTable(cases, n);
    CodesAreBytes(cases);
    if r.Ok? {
      assert TakenAs(r, c, code);
    }
    if HasCode(cases, n) { assert code == n; }
  }

  // ---------------------------------------------------------------------------
  // The parser object

  datatype Status = Good | Bad(undefined: bool)

  class ArrayParser {
    const typ: Type
    var builder: Column

    ghost predicate Valid()
      reads this
    {
      GoodType(typ) && Fits(typ, builder) && Sound(typ, builder)
    }

    constructor (typ: Type)
      requires GoodType(typ)
      ensures Valid() && this.typ == typ && builder == NewColumn(typ)
    {
      this.typ := typ;
      builder := NewColumn(typ);
    }

    /** One value.  Nothing is promised of the builder once a value was refused. */
    method AppendValue(v: Json) returns (status: Status)
      requires Valid()
      modifies this
      ensures status.Good? <==> Accepts(typ, v)
      ensures status.Good? ==> Valid()
      ensures status.Good? ==> Shred.AppendValue(typ, old(builder), v) == Ok(builder)
      ensures status.Good? ==> Decode(typ, builder) == old(Decode(typ, builder)) + [Meaning(typ, v)]
    {
      AppendAccepts(typ, builder, v);
      var result := Shred.AppendValue(typ, builder, v);
      match result {
        case Ok(c) =>
          ValueIsAppended(typ, builder, v);
          builder := c;
          return Good;
        case Invalid => return Bad(false);
        case Undefined => return Bad(true);
      }
    }

    method AppendNull()
      requires Valid()
      modifies this
      ensures Valid() && Slots(builder) == Slots(old(builder)) + 1
      ensures Decode(typ, builder) == old(Decode(typ, builder)) + [NullOf(typ)]
    {
      NullIsAppended(typ, builder);
      builder := Shred.AppendNull(typ, builder);
    }

    /** The loop of `AppendValues`; it stops at the first value that is not taken. */
    method AppendValues(rows: Json) returns (status: Status)
      requires Valid()
      modifies this
      ensures status.Good? <==> rows.JArr? && AcceptsAll(typ, rows.items)
      ensures status.Good? ==> Valid()
      ensures status.Good? ==> Decode(typ, builder) == old(Decode(typ, builder)) + MeaningItems(typ, rows.items)
      ensures status.Good? && rows.items == NoItems ==> builder == old(builder)
    {
      if !rows.JArr? { return Bad(false); }
      var rest := rows.items;
      ghost var start := Decode(typ, builder);
      ghost var done := [];
      while rest.Item?
        invariant Valid() && Decode(typ, builder) == start + done
        invariant done + MeaningItems(typ, rest) == MeaningItems(typ, rows.items)
        invariant AcceptsAll(typ, rest) <==> AcceptsAll(typ, rows.items)
        invariant rows.items == NoItems ==> builder == old(builder)
        decreases rest
      {
        status := AppendValue(rest.head);
        if !status.Good? { return; }
        Then(done, Meaning(typ, rest.head), MeaningItems(typ, rest.tail));
        assert start + done + [Meaning(typ, rest.head)] == start + (done + [Meaning(typ, rest.head)]);
        done := done + [Meaning(typ, rest.head)];
        rest := rest.tail;
      }
      assert done + [] == done;
      return Good;
    }

    /** `Finish`: the array is handed out and the builder starts anew. */
    method Finish() returns (column: Column)
      requires Valid()
      modifies this
      ensures Valid() && column == old(builder) && builder == NewColumn(typ)
    {
      column := builder;
      builder := NewColumn(typ);
    }
  }

  /** `ArrayFromJSON` */
  method ArrayFromJSON(typ: Type, rows: Json) returns (column: Option<Column>)
    requires GoodType(typ)
    ensures column.Some? <==> rows.JArr? && AcceptsAll(typ, rows.items)
    ensures column.Some? ==> Fits(typ, column.value) && Sound(typ, column.value)
    ensures column.Some? ==> Decode(typ, column.value) == MeaningItems(typ, rows.items)
  {
    var parser := new ArrayParser(typ);
    var status := parser.AppendValues(rows);
    if !status.Good? { return None; }
    return Some(parser.builder);
  }
}
