/** Shredding and reading back: the columns that the array parsers build decode to the rows. */
module ShredLaws {
  import opened Shred

  // ---------------------------------------------------------------------------
  // What a JSON value means for a type

  datatype Value =
    | Null
    | BoolV(b: bool)
    | IntV(n: int)
    | TextV(t: Text)
    | ListV(vs: seq<Value>)
    | MapV(keys: seq<Value>, vals: seq<Value>)
    | StructV(vs: seq<Value>)
    | UnionV(code: nat, v: Value)

  /** Null, also for a member that is missing.  A union has no validity of its own: its null is a null
      of its first case. */
  function NullOf(t: Type): Value {
    if t.UnionT? && t.cases.Case? then UnionV(t.cases.code, NullOf(t.cases.typ)) else Null
  }

  function CaseType(ks: Cases, code: int): Type {
    if ks.NoCases? then NullT else if ks.code == code then ks.typ else CaseType(ks.rest, code)
  }

  function Meaning(t: Type, v: Json): Value
    decreases JSize(v), 1
  {
    if v.JNull? then NullOf(t) else
    match t
    case NullT => Null
    case BoolT => BoolV(if v.JInt? then v.n != 0 else v == JBool(true))
    case IntT(_, _) => if v.JInt? then IntV(v.n) else Null
    case StrT => TextV(if v.JStr? then Plain(v.s) else Rendered(v))
    case ListT(item) => if v.JArr? then ListV(MeaningItems(item, v.items)) else Null
    case FixedT(_, item) => if v.JArr? then ListV(MeaningItems(item, v.items)) else Null
    case MapT(key, value) =>
      if v.JArr? then MapV(MeaningOfPairs(key, v.items, true), MeaningOfPairs(value, v.items, false)) else Null
    case StructT(fields) =>
      if v.JArr? then StructV(MeaningEach(fields, v.items))
      else if v.JObj? then StructV(MeaningMembers(fields, v.members))
      else Null
    case UnionT(_, cases) =>
      if v.JArr? && IsPair(v.items) && v.items.head.JInt? && ToInt8(v.items.head.n) >= 0 then
        var code := ToInt8(v.items.head.n);
        UnionV(code, Meaning(CaseType(cases, code), v.items.tail.head))
      else Null
  }

  function MeaningItems(t: Type, items: Items): (r: seq<Value>)
    ensures |r| == Count(items)
    decreases ISize(items), 0
  {
    if items.NoItems? then [] else [Meaning(t, items.head)] + MeaningItems(t, items.tail)
  }

  /** The first or the second parts of the pairs of a map. */
  function MeaningOfPairs(t: Type, items: Items, first: bool): (r: seq<Value>)
    ensures |r| == Count(items)
    decreases ISize(items), 0
  {
    if items.NoItems? then [] else [MeaningInPair(t, items.head, first)] + MeaningOfPairs(t, items.tail, first)
  }

  function MeaningInPair(t: Type, pair: Json, first: bool): Value
    decreases JSize(pair), 0
  {
    if !pair.JArr? || !IsPair(pair.items) then Null
    else if first then Meaning(t, pair.items.head)
    else Meaning(t, pair.items.tail.head)
  }

  function MeaningEach(fs: Fields, items: Items): (r: seq<Value>)
    ensures |r| == FieldCount(fs)
    decreases ISize(items), 0, fs
  {
    if fs.NoFields? then []
    else if items.NoItems? then [Null] + MeaningEach(fs.rest, items)
    else [Meaning(fs.typ, items.head)] + MeaningEach(fs.rest, items.tail)
  }

  /** Members by name, null for those that are missing. */
  function MeaningMembers(fs: Fields, ms: Members): (r: seq<Value>)
    ensures |r| == FieldCount(fs)
    decreases MSize(ms), 2, fs
  {
    if fs.NoFields? then []
    else
      [match Find(ms, fs.name)
       case None => NullOf(fs.typ)
       case Some(v) => Meaning(fs.typ, v)]
      + MeaningMembers(fs.rest, ms)
  }

  // ---------------------------------------------------------------------------
  // Which JSON values a type accepts

  predicate Accepts(t: Type, v: Json)
    decreases JSize(v), 1
  {
    v.JNull? ||
    match t
    case NullT => false
    case BoolT => v.JBool? || (v.JInt? && IsInt32(v.n))
    case IntT(bits, signed) => v.JInt? && InRange(v.n, bits, signed)
    case StrT => true
    case ListT(item) => v.JArr? && AcceptsAll(item, v.items)
    case FixedT(size, item) => v.JArr? && AcceptsAll(item, v.items) && Count(v.items) == size
    case MapT(key, value) => v.JArr? && AcceptsPairs(key, value, v.items)
    case StructT(fields) =>
      || (v.JArr? && Count(v.items) == FieldCount(fields) && AcceptsEach(fields, v.items))
      || (v.JObj? && AcceptsMembers(fields, v.members))
    case UnionT(_, cases) =>
      && v.JArr? && IsPair(v.items) && v.items.head.JInt? && IsInt32(v.items.head.n)
      && HasCode(cases, ToInt8(v.items.head.n))
      && Accepts(CaseType(cases, ToInt8(v.items.head.n)), v.items.tail.head)
  }

  predicate AcceptsAll(t: Type, items: Items)
    decreases ISize(items), 0
  {
    items.Item? ==> Accepts(t, items.head) && AcceptsAll(t, items.tail)
  }

  predicate AcceptsPairs(key: Type, value: Type, items: Items)
    decreases ISize(items), 0
  {
    items.Item? ==> AcceptsPair(key, value, items.head) && AcceptsPairs(key, value, items.tail)
  }

  predicate AcceptsPair(key: Type, value: Type, pair: Json)
    decreases JSize(pair), 0
  {
    && pair.JArr? && IsPair(pair.items) && !pair.items.head.JNull?
    && Accepts(key, pair.items.head) && Accepts(value, pair.items.tail.head)
  }

  predicate AcceptsEach(fs: Fields, items: Items)
    requires Count(items) == FieldCount(fs)
    decreases ISize(items), 0
  {
    fs.Field? ==> Accepts(fs.typ, items.head) && AcceptsEach(fs.rest, items.tail)
  }

  predicate AcceptsMembers(fs: Fields, ms: Members)
    decreases MSize(ms), 2, fs
  {
    fs.Field? ==>
      && (Find(ms, fs.name).Some? ==> Accepts(fs.typ, Find(ms, fs.name).value))
      && AcceptsMembers(fs.rest, ms)
  }

  // ---------------------------------------------------------------------------
  // Acceptance

  lemma {:induction false} CodesInTable(ks: Cases, code: int)
    ensures HasCode(ks, code) ==> 0 <= code <= MaxCode(ks)
  {
    if ks.Case? { CodesInTable(ks.rest, code); }
  }

  /** A value is appended exactly if its type accepts it. */
  lemma {:induction false} AppendAccepts(t: Type, c: Column, v: Json)
    requires Fits(t, c)
    ensures AppendValue(t, c, v).Ok? <==> Accepts(t, v)
    decreases JSize(v), 1
  {
    if !v.JNull? {
      match t
      case NullT =>
      case BoolT =>
      case IntT(bits, signed) => if v.JInt? { CastChecksRange(v.n, bits, signed); }
      case StrT =>
      case ListT(item) => if v.JArr? { AppendAcceptsAll(item, c.child, v.items); }
      case FixedT(size, item) => if v.JArr? { AppendAcceptsAll(item, c.child, v.items); }
      case MapT(key, value) => if v.JArr? { AppendAcceptsPairs(key, value, c.keys, c.values, v.items); }
      case StructT(fields) => AppendAcceptsStruct(fields, c, v);
      case UnionT(dense, cases) => AppendAcceptsUnion(dense, cases, c, v);
    }
  }

  lemma {:induction false} AppendAcceptsStruct(fields: Fields, c: Column, v: Json)
    requires Fits(StructT(fields), c) && !v.JNull?
    ensures AppendValue(StructT(fields), c, v).Ok? <==> Accepts(StructT(fields), v)
    decreases JSize(v), 0
  {
    if v.JArr? && Count(v.items) == FieldCount(fields) { AppendAcceptsEach(fields, c.children, v.items); }
    if v.JObj? { AppendAcceptsMembers(fields, c.children, v.members); }
  }

  lemma {:induction false} AppendAcceptsUnion(dense: bool, cases: Cases, c: Column, v: Json)
    requires Fits(UnionT(dense, cases), c) && !v.JNull?
    ensures AppendValue(UnionT(dense, cases), c, v).Ok? <==> Accepts(UnionT(dense, cases), v)
    decreases JSize(v), 0
  {
    if v.JArr? && IsPair(v.items) && v.items.head.JInt? {
      var code := ToInt8(v.items.head.n);
      CodesInTable(cases, code);
      if HasCode(cases, code) {
        AppendAcceptsCase(dense, cases, c.children, code, v.items.tail.head);
      }
    }
  }

  lemma {:induction false} AppendAcceptsAll(t: Type, c: Column, items: Items)
    requires Fits(t, c)
    ensures AppendValues(t, c, items).Ok? <==> AcceptsAll(t, items)
    decreases ISize(items), 0
  {
    if items.Item? {
      AppendAccepts(t, c, items.head);
      if AppendValue(t, c, items.head).Ok? {
        AppendAcceptsAll(t, AppendValue(t, c, items.head).value, items.tail);
      }
    }
  }

  lemma {:induction false} AppendAcceptsPairs(key: Type, value: Type, ks: Column, vs: Column, items: Items)
    requires Fits(key, ks) && Fits(value, vs)
    ensures AppendPairs(key, value, ks, vs, items).Ok? <==> AcceptsPairs(key, value, items)
    decreases ISize(items), 0
  {
    if items.Item? {
      AppendAcceptsPair(key, value, ks, vs, items.head);
      if AppendPair(key, value, ks, vs, items.head).Ok? {
        var next := AppendPair(key, value, ks, vs, items.head).value;
        AppendAcceptsPairs(key, value, next.0, next.1, items.tail);
      }
    }
  }

  lemma {:induction false} AppendAcceptsPair(key: Type, value: Type, ks: Column, vs: Column, pair: Json)
    requires Fits(key, ks) && Fits(value, vs)
    ensures AppendPair(key, value, ks, vs, pair).Ok? <==> AcceptsPair(key, value, pair)
    decreases JSize(pair), 0
  {
    if pair.JArr? && IsPair(pair.items) {
      AppendAccepts(key, ks, pair.items.head);
      AppendAccepts(value, vs, pair.items.tail.head);
      PairFollows(key, value, ks, vs, pair, pair.items.head, pair.items.tail.head);
    }
  }

  lemma {:induction false} PairFollows(key: Type, value: Type, ks: Column, vs: Column, pair: Json, k: Json, x: Json)
    requires Fits(key, ks) && Fits(value, vs) && pair == JArr(Item(k, Item(x, NoItems)))
    requires AppendValue(key, ks, k).Ok? <==> Accepts(key, k)
    requires AppendValue(value, vs, x).Ok? <==> Accepts(value, x)
    ensures AppendPair(key, value, ks, vs, pair).Ok? <==> AcceptsPair(key, value, pair)
  {
    var items := Item(k, Item(x, NoItems));
    assert pair.items == items && IsPair(items) && items.head == k && items.tail.head == x;
  }

  lemma {:induction false} AppendAcceptsEach(fs: Fields, cs: Columns, items: Items)
    requires FitFields(fs, cs) && Count(items) == FieldCount(fs)
    ensures AppendEach(fs, cs, items).Ok? <==> AcceptsEach(fs, items)
    decreases ISize(items), 0
  {
    if fs.Field? {
      AppendAccepts(fs.typ, cs.head, items.head);
      AppendAcceptsEach(fs.rest, cs.tail, items.tail);
    }
  }

  lemma {:induction false} AppendAcceptsMembers(fs: Fields, cs: Columns, ms: Members)
    requires FitFields(fs, cs)
    ensures AppendMembers(fs, cs, ms).Ok? <==> AcceptsMembers(fs, ms)
    decreases MSize(ms), 2, fs
  {
    if fs.Field? {
      if Find(ms, fs.name).Some? { AppendAccepts(fs.typ, cs.head, Find(ms, fs.name).value); }
      AppendAcceptsMembers(fs.rest, cs.tail, ms);
    }
  }

  lemma {:induction false} AppendAcceptsCase(dense: bool, ks: Cases, cs: Columns, code: nat, v: Json)
    requires FitCases(ks, cs) && HasCode(ks, code)
    ensures AppendCase(dense, ks, cs, code, v).Ok? <==> Accepts(CaseType(ks, code), v)
    decreases JSize(v), 2, ks
  {
    if ks.code == code {
      AppendAccepts(ks.typ, cs.head, v);
    } else {
      AppendAcceptsCase(dense, ks.rest, cs.tail, code, v);
    }
  }
}
