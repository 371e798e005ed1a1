/** JSON rows to Arrow columns: what the recursive array parsers append, and what the columns mean by
    the physical memory layout of the Arrow columnar format. */
module Shred {
  import opened Wrappers

  // ---------------------------------------------------------------------------
  // JSON, types and columns

  /** A parsed document.  `JInt` is what the parser delivers for integers of at most 64 bits. */
  datatype Json =
    | JNull
    | JBool(b: bool)
    | JInt(n: int)
    | JReal(x: real)
    | JStr(s: string)
    | JArr(items: Items)
    | JObj(members: Members)

  datatype Items = NoItems | Item(head: Json, tail: Items)

  datatype Members = NoMembers | Member(name: string, value: Json, rest: Members)

  datatype Type =
    | NullT
    | BoolT
    | IntT(bits: nat, signed: bool)
    | StrT
    | ListT(item: Type)
    | FixedT(size: nat, item: Type)
    | MapT(key: Type, value: Type)
    | StructT(fields: Fields)
    | UnionT(dense: bool, cases: Cases)

  datatype Fields = NoFields | Field(name: string, typ: Type, rest: Fields)

  /** The cases of a union with their type codes. */
  datatype Cases = NoCases | Case(code: nat, typ: Type, rest: Cases)

  /** What a string slot holds: a string, or any other value as the JSON writer renders it. */
  datatype Text = Plain(s: string) | Rendered(v: Json)

  /** A builder: validity, offsets and children, as the layout has them.  A list's offsets are the
      starts of its slots; the last slot ends where its child does. */
  datatype Column =
    | NullC(length: nat)
    | BoolC(bools: seq<Option<bool>>)
    | IntC(ints: seq<Option<int>>)
    | StrC(texts: seq<Option<Text>>)
    | ListC(offsets: seq<nat>, valid: seq<bool>, child: Column)
    | FixedC(size: nat, valid: seq<bool>, child: Column)
    | MapC(offsets: seq<nat>, valid: seq<bool>, keys: Column, values: Column)
    | StructC(valid: seq<bool>, children: Columns)
    | UnionC(codes: seq<nat>, offsets: seq<nat>, children: Columns)

  datatype Columns = NoColumns | Col(head: Column, tail: Columns)

  /** A status.  `Undefined`: the source indexes its table of type codes out of bounds. */
  datatype Result<+T> = Ok(value: T) | Invalid | Undefined

  // ---------------------------------------------------------------------------
  // Sizes, for termination

  function JSize(v: Json): nat {
    match v
    case JArr(items) => 1 + ISize(items)
    case JObj(members) => 1 + MSize(members)
    case _ => 1
  }

  function ISize(items: Items): nat { if items.NoItems? then 0 else 1 + JSize(items.head) + ISize(items.tail) }

  function MSize(ms: Members): nat { if ms.NoMembers? then 0 else 1 + JSize(ms.value) + MSize(ms.rest) }

  function Count(items: Items): nat { if items.NoItems? then 0 else 1 + Count(items.tail) }

  /** Exactly two elements. */
  predicate IsPair(items: Items): (r: bool)
    ensures r ==> items.Item? && items.tail.Item?
    ensures r ==> JSize(items.head) < ISize(items) && JSize(items.tail.head) < ISize(items)
  {
    items.Item? && items.tail.Item? && items.tail.tail.NoItems?
  }

  function FieldCount(fs: Fields): nat { if fs.NoFields? then 0 else 1 + FieldCount(fs.rest) }

  /** `FindMember`: the first member of that name. */
  function Find(ms: Members, name: string): (r: Option<Json>)
    ensures r.Some? ==> JSize(r.value) < MSize(ms)
  {
    if ms.NoMembers? then None else if ms.name == name then Some(ms.value) else Find(ms.rest, name)
  }

  // ---------------------------------------------------------------------------
  // Scalars

  function Power2(n: nat): (r: nat)
    ensures r > 0
  {
    if n == 0 then 1 else 2 * Power2(n - 1)
  }

  /** The range of an integer type. */
  predicate InRange(n: int, bits: nat, signed: bool) {
    if signed then bits > 0 && -(Power2(bits - 1) as int) <= n < Power2(bits - 1) else 0 <= n < Power2(bits)
  }

  /** `IsInt`: the parser's 32-bit integers. */
  predicate IsInt32(n: int) { -0x8000_0000 <= n < 0x8000_0000 }

  /** `static_cast<int8_t>` */
  function ToInt8(n: int): int {
    var m := n % 256;
    if m < 128 then m else m - 256
  }

  /** A cast to a type of that width, and the comparison with the value: the tests of `ParseNumber`. */
  function CastTo(n: int, bits: nat, signed: bool): int {
    var m := n % Power2(bits);
    if signed && bits > 0 && m >= Power2(bits - 1) then m - Power2(bits) else m
  }

  predicate ParsesAsInt(n: int, bits: nat, signed: bool) {
    && (if signed then -0x8000_0000_0000_0000 <= n < 0x8000_0000_0000_0000 else 0 <= n < 0x1_0000_0000_0000_0000)
    && CastTo(n, bits, signed) == n
  }

  lemma {:induction false} PowerGrows(a: nat, b: nat)
    requires a <= b
    ensures Power2(a) <= Power2(b)
    decreases b
  {
    if a < b { PowerGrows(a, b - 1); }
  }

  lemma Up8(n: nat)
    ensures Power2(n + 8) == 0x100 * Power2(n)
  {
    assert Power2(n + 8) == 0x10 * Power2(n + 4) by {
      assert Power2(n + 8) == 4 * Power2(n + 6);
    }
    assert Power2(n + 4) == 4 * Power2(n + 2);
  }

  lemma Power64()
    ensures Power2(63) == 0x8000_0000_0000_0000 && Power2(64) == 0x1_0000_0000_0000_0000
  {
    Up8(0); Up8(8); Up8(16); Up8(24); Up8(32); Up8(40); Up8(48); Up8(56);
  }

  lemma ModIs(n: int, p: nat)
    requires p > 0 && -(p as int) <= n < p
    ensures n % p == if n < 0 then n + p else n
  {
    if n < 0 {
      assert (n + p) % p == n + p;
      assert n == -1 * p + (n + p);
    }
  }

  lemma CastIsInRange(n: int, bits: nat, signed: bool)
    requires bits > 0
    ensures InRange(CastTo(n, bits, signed), bits, signed)
    ensures InRange(n, bits, signed) ==> CastTo(n, bits, signed) == n
  {
    var p, h := Power2(bits), Power2(bits - 1);
    assert p == 2 * h;
    assert 0 <= n % p < p;
    if InRange(n, bits, signed) { ModIs(n, p); }
  }

  /** A cast gives the value back exactly if the value is in the range of the type. */
  lemma CastChecksRange(n: int, bits: nat, signed: bool)
    requires 0 < bits <= 64
    ensures ParsesAsInt(n, bits, signed) <==> InRange(n, bits, signed)
  {
    CastIsInRange(n, bits, signed);
    Power64();
    PowerGrows(bits, 64);
    PowerGrows(bits - 1, 63);
  }

  // ---------------------------------------------------------------------------
  // Builders

  function Slots(c: Column): nat {
    match c
    case NullC(n) => n
    case BoolC(b) => |b|
    case IntC(i) => |i|
    case StrC(t) => |t|
    case ListC(_, valid, _) => |valid|
    case FixedC(_, valid, _) => |valid|
    case MapC(_, valid, _, _) => |valid|
    case StructC(valid, _) => |valid|
    case UnionC(codes, _, _) => |codes|
  }

  /** A column has the shape of its type. */
  predicate Fits(t: Type, c: Column)
    decreases t
  {
    match t
    case NullT => c.NullC?
    case BoolT => c.BoolC?
    case IntT(bits, _) => c.IntC? && 0 < bits <= 64
    case StrT => c.StrC?
    case ListT(item) => c.ListC? && Fits(item, c.child)
    case FixedT(size, item) => c.FixedC? && c.size == size && Fits(item, c.child)
    case MapT(key, value) => c.MapC? && Fits(key, c.keys) && Fits(value, c.values)
    case StructT(fields) => c.StructC? && FitFields(fields, c.children)
    case UnionT(_, cases) => c.UnionC? && cases.Case? && GoodCodes(cases) && FitCases(cases, c.children)
  }

  /** The codes of a union are different and fit a byte. */
  predicate GoodCodes(ks: Cases) { ks.Case? ==> ks.code < 128 && !HasCode(ks.rest, ks.code) && GoodCodes(ks.rest) }

  predicate FitFields(fs: Fields, cs: Columns)
    decreases fs
  {
    if fs.NoFields? then cs.NoColumns? else cs.Col? && Fits(fs.typ, cs.head) && FitFields(fs.rest, cs.tail)
  }

  predicate FitCases(ks: Cases, cs: Columns)
    decreases ks
  {
    if ks.NoCases? then cs.NoColumns? else cs.Col? && Fits(ks.typ, cs.head) && FitCases(ks.rest, cs.tail)
  }

  /** `AppendNull`.  Where the layout needs child slots under a null, they are nulls; nobody reads them. */
  function AppendNull(t: Type, c: Column): (r: Column)
    requires Fits(t, c)
    ensures Fits(t, r)
    decreases t, 0
  {
    match t
    case NullT => NullC(c.length + 1)
    case BoolT => BoolC(c.bools + [None])
    case IntT(_, _) => IntC(c.ints + [None])
    case StrT => StrC(c.texts + [None])
    case ListT(item) => ListC(c.offsets + [Slots(c.child)], c.valid + [false], c.child)
    case FixedT(size, item) => FixedC(size, c.valid + [false], AppendNulls(item, c.child, size))
    case MapT(key, value) => MapC(c.offsets + [Slots(c.keys)], c.valid + [false], c.keys, c.values)
    case StructT(fields) => StructC(c.valid + [false], AppendNullFields(fields, c.children))
    case UnionT(dense, cases) =>
      assert FitCases(cases, c.children);
      UnionC(c.codes + [cases.code], c.offsets + [Slots(c.children.head)],
             Col(AppendNull(cases.typ, c.children.head),
                 if dense then c.children.tail else AppendNullCases(cases.rest, c.children.tail)))
  }

  function AppendNulls(t: Type, c: Column, n: nat): (r: Column)
    requires Fits(t, c)
    ensures Fits(t, r)
    decreases t, 1, n
  {
    if n == 0 then c else AppendNulls(t, AppendNull(t, c), n - 1)
  }

  function AppendNullFields(fs: Fields, cs: Columns): (r: Columns)
    requires FitFields(fs, cs)
    ensures FitFields(fs, r)
    decreases fs, 1
  {
    if fs.NoFields? then cs else Col(AppendNull(fs.typ, cs.head), AppendNullFields(fs.rest, cs.tail))
  }

  function AppendNullCases(ks: Cases, cs: Columns): (r: Columns)
    requires FitCases(ks, cs)
    ensures FitCases(ks, r)
    decreases ks, 1
  {
    if ks.NoCases? then cs else Col(AppendNull(ks.typ, cs.head), AppendNullCases(ks.rest, cs.tail))
  }

  /** The highest type code: the table has one entry more. */
  function MaxCode(ks: Cases): nat {
    if ks.NoCases? then 0 else if MaxCode(ks.rest) > ks.code then MaxCode(ks.rest) else ks.code
  }

  predicate HasCode(ks: Cases, code: int) { ks.Case? && (ks.code == code || HasCode(ks.rest, code)) }

  /** The lookup in the table of type codes, after the cast to eight bits. */
  function FindCode(ks: Cases, n: int): (r: Result<nat>)
    ensures r.Ok? ==> HasCode(ks, r.value) && r.value == ToInt8(n)
  {
    var code := ToInt8(n);
    if code < 0 || code > MaxCode(ks) then Undefined
    else if !HasCode(ks, code) then Invalid
    else Ok(code)
  }

  /** `AppendValue`, for every kind of array parser. */
  function AppendValue(t: Type, c: Column, v: Json): (r: Result<Column>)
    requires Fits(t, c)
    ensures r.Ok? ==> Fits(t, r.value)
    decreases JSize(v), 1
  {
    if v.JNull? then Ok(AppendNull(t, c)) else
    match t
    case NullT => Invalid
    case BoolT =>
      if v.JBool? then Ok(BoolC(c.bools + [Some(v.b)]))
      else if v.JInt? && IsInt32(v.n) then Ok(BoolC(c.bools + [Some(v.n != 0)]))
      else Invalid
    case IntT(bits, signed) =>
      if v.JInt? && ParsesAsInt(v.n, bits, signed) then Ok(IntC(c.ints + [Some(v.n)])) else Invalid
    case StrT => Ok(StrC(c.texts + [Some(if v.JStr? then Plain(v.s) else Rendered(v))]))
    case ListT(item) =>
      if !v.JArr? then Invalid
      else
        (match AppendValues(item, c.child, v.items)
         case Ok(child) => Ok(ListC(c.offsets + [Slots(c.child)], c.valid + [true], child))
         case Invalid => Invalid
         case Undefined => Undefined)
    case FixedT(size, item) =>
      if !v.JArr? then Invalid
      else
        (match AppendValues(item, c.child, v.items)
         case Ok(child) => if Count(v.items) == size then Ok(FixedC(size, c.valid + [true], child)) else Invalid
         case Invalid => Invalid
         case Undefined => Undefined)
    case MapT(key, value) =>
      if !v.JArr? then Invalid
      else
        (match AppendPairs(key, value, c.keys, c.values, v.items)
         case Ok(kv) => Ok(MapC(c.offsets + [Slots(c.keys)], c.valid + [true], kv.0, kv.1))
         case Invalid => Invalid
         case Undefined => Undefined)
    case StructT(fields) =>
      if v.JArr? then
        if Count(v.items) != FieldCount(fields) then Invalid
        else
          (match AppendEach(fields, c.children, v.items)
           case Ok(children) => Ok(StructC(c.valid + [true], children))
           case Invalid => Invalid
           case Undefined => Undefined)
      else if v.JObj? then
        (match AppendMembers(fields, c.children, v.members)
         case Ok(children) => Ok(StructC(c.valid + [true], children))
         case Invalid => Invalid
         case Undefined => Undefined)
      else Invalid
    case UnionT(dense, cases) =>
      if !v.JArr? || !IsPair(v.items) || !v.items.head.JInt? || !IsInt32(v.items.head.n) then Invalid
      else
        (match FindCode(cases, v.items.head.n)
         case Invalid => Invalid
         case Undefined => Undefined
         case Ok(code) =>
           match AppendCase(dense, cases, c.children, code, v.items.tail.head)
           case Ok(children) => Ok(UnionC(c.codes + [code], c.offsets + [CaseSlots(cases, c.children, code)], children))
           case Invalid => Invalid
           case Undefined => Undefined)
  }

  /** `AppendValues`: the loop over an array. */
  function AppendValues(t: Type, c: Column, items: Items): (r: Result<Column>)
    requires Fits(t, c)
    ensures r.Ok? ==> Fits(t, r.value)
    decreases ISize(items), 0
  {
    match items
    case NoItems => Ok(c)
    case Item(v, rest) =>
      match AppendValue(t, c, v)
      case Ok(next) => AppendValues(t, next, rest)
      case Invalid => Invalid
      case Undefined => Undefined
  }

  /** The loop of `MapArrayParser::AppendValue`. */
  function AppendPairs(key: Type, value: Type, ks: Column, vs: Column, items: Items): (r: Result<(Column, Column)>)
    requires Fits(key, ks) && Fits(value, vs)
    ensures r.Ok? ==> Fits(key, r.value.0) && Fits(value, r.value.1)
    decreases ISize(items), 0
  {
    match items
    case NoItems => Ok((ks, vs))
    case Item(pair, rest) =>
      match AppendPair(key, value, ks, vs, pair)
      case Ok(next) => AppendPairs(key, value, next.0, next.1, rest)
      case Invalid => Invalid
      case Undefined => Undefined
  }

  /** One key, which must not be null, and its value. */
  function AppendPair(key: Type, value: Type, ks: Column, vs: Column, pair: Json): (r: Result<(Column, Column)>)
    requires Fits(key, ks) && Fits(value, vs)
    ensures r.Ok? ==> Fits(key, r.value.0) && Fits(value, r.value.1)
    decreases JSize(pair), 0
  {
    if !pair.JArr? || !IsPair(pair.items) || pair.items.head.JNull? then Invalid
    else Both(AppendValue(key, ks, pair.items.head), AppendValue(value, vs, pair.items.tail.head))
  }

  /** The first result that is not good decides. */
  function Both(a: Result<Column>, b: Result<Column>): (r: Result<(Column, Column)>)
    ensures r.Ok? <==> a.Ok? && b.Ok?
  {
    match a
    case Invalid => Invalid
    case Undefined => Undefined
    case Ok(x) =>
      match b
      case Invalid => Invalid
      case Undefined => Undefined
      case Ok(y) => Ok((x, y))
  }

  /** A struct written as an array: one element for every field. */
  function AppendEach(fs: Fields, cs: Columns, items: Items): (r: Result<Columns>)
    requires FitFields(fs, cs) && Count(items) == FieldCount(fs)
    ensures r.Ok? ==> FitFields(fs, r.value)
    decreases ISize(items), 0
  {
    if fs.NoFields? then Ok(cs)
    else
      match AppendValue(fs.typ, cs.head, items.head)
      case Invalid => Invalid
      case Undefined => Undefined
      case Ok(head) =>
        match AppendEach(fs.rest, cs.tail, items.tail)
        case Ok(tail) => Ok(Col(head, tail))
        case Invalid => Invalid
        case Undefined => Undefined
  }

  /** A struct written as an object: members by name, null for those that are missing. */
  function AppendMembers(fs: Fields, cs: Columns, ms: Members): (r: Result<Columns>)
    requires FitFields(fs, cs)
    ensures r.Ok? ==> FitFields(fs, r.value)
    decreases MSize(ms), 2, fs
  {
    if fs.NoFields? then Ok(cs)
    else
      match (match Find(ms, fs.name)
             case None => Ok(AppendNull(fs.typ, cs.head))
             case Some(v) => AppendValue(fs.typ, cs.head, v))
      case Invalid => Invalid
      case Undefined => Undefined
      case Ok(head) =>
        match AppendMembers(fs.rest, cs.tail, ms)
        case Ok(tail) => Ok(Col(head, tail))
        case Invalid => Invalid
        case Undefined => Undefined
  }

  /** A union's value goes to the child of its code; in a sparse union every other child gets a null. */
  function AppendCase(dense: bool, ks: Cases, cs: Columns, code: nat, v: Json): (r: Result<Columns>)
    requires FitCases(ks, cs) && HasCode(ks, code)
    ensures r.Ok? ==> FitCases(ks, r.value)
    decreases JSize(v), 2, ks
  {
    if ks.code == code then
      match AppendValue(ks.typ, cs.head, v)
      case Ok(head) => Ok(Col(head, if dense then cs.tail else AppendNullCases(ks.rest, cs.tail)))
      case Invalid => Invalid
      case Undefined => Undefined
    else
      match AppendCase(dense, ks.rest, cs.tail, code, v)
      case Ok(tail) => Ok(Col(if dense then cs.head else AppendNull(ks.typ, cs.head), tail))
      case Invalid => Invalid
      case Undefined => Undefined
  }

  /** The slots that the child of a code has. */
  function CaseSlots(ks: Cases, cs: Columns, code: nat): nat
    requires FitCases(ks, cs) && HasCode(ks, code)
  {
    if ks.code == code then Slots(cs.head) else CaseSlots(ks.rest, cs.tail, code)
  }
}
