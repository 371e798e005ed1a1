/** The round trip: reading the columns by their layout gives back what was appended. */
module ShredDecode {
  import opened Shred
  import opened ShredLaws

  // ---------------------------------------------------------------------------
  // Columns that fit together

  /** Where slot `i` ends. */
  function End(offsets: seq<nat>, i: nat, last: nat): nat
    requires i < |offsets|
  {
    if i + 1 < |offsets| then offsets[i + 1] else last
  }

  predicate OffsetsOk(offsets: seq<nat>, last: nat) {
    forall i :: 0 <= i < |offsets| ==> offsets[i] <= End(offsets, i, last) <= last
  }

  /** The invariants of the layout: offsets ascend within the child, children are as long as their
      parent has slots for. */
  predicate Sound(t: Type, c: Column)
    requires Fits(t, c)
    decreases t
  {
    match t
    case ListT(item) => Sound(item, c.child) && |c.offsets| == |c.valid| && OffsetsOk(c.offsets, Slots(c.child))
    case FixedT(size, item) => Sound(item, c.child) && Slots(c.child) == Times(size, |c.valid|)
    case MapT(key, value) =>
      && Sound(key, c.keys) && Sound(value, c.values) && Slots(c.values) == Slots(c.keys)
      && |c.offsets| == |c.valid| && OffsetsOk(c.offsets, Slots(c.keys))
    case StructT(fields) => SoundFields(fields, c.children, |c.valid|)
    case UnionT(dense, cases) =>
      && SoundCases(dense, cases, c.children, |c.codes|)
      && |c.offsets| == |c.codes|
      && forall i :: 0 <= i < |c.codes| ==>
           HasCode(cases, c.codes[i]) && (dense ==> c.offsets[i] < CaseSlots(cases, c.children, c.codes[i]))
    case _ => true
  }

  /** Every child of a struct has the length of the struct. */
  predicate SoundFields(fs: Fields, cs: Columns, n: nat)
    requires FitFields(fs, cs)
    decreases fs
  {
    fs.Field? ==> Sound(fs.typ, cs.head) && Slots(cs.head) == n && SoundFields(fs.rest, cs.tail, n)
  }

  predicate SoundCases(dense: bool, ks: Cases, cs: Columns, n: nat)
    requires FitCases(ks, cs)
    decreases ks
  {
    ks.Case? ==> Sound(ks.typ, cs.head) && (!dense ==> Slots(cs.head) == n) && SoundCases(dense, ks.rest, cs.tail, n)
  }

  /** The child slots of `n` fixed-size slots. */
  function Times(size: nat, n: nat): nat { if n == 0 then 0 else Times(size, n - 1) + size }

  // ---------------------------------------------------------------------------
  // Reading columns

  /** Slots that are stretches of a child. */
  function Stretches(vs: seq<Value>, offsets: seq<nat>, valid: seq<bool>): (r: seq<Value>)
    requires |offsets| == |valid| && OffsetsOk(offsets, |vs|)
    ensures |r| == |valid|
  {
    seq(|valid|, i requires 0 <= i < |valid| => if valid[i] then ListV(vs[offsets[i]..End(offsets, i, |vs|)]) else Null)
  }

  function Chunks(vs: seq<Value>, size: nat, valid: seq<bool>): (r: seq<Value>)
    requires |vs| == Times(size, |valid|)
    ensures |r| == |valid|
    decreases |valid|
  {
    if valid == [] then []
    else
      var n := |valid| - 1;
      Chunks(vs[..Times(size, n)], size, valid[..n]) + [if valid[n] then ListV(vs[Times(size, n)..]) else Null]
  }

  function Entries(ks: seq<Value>, vs: seq<Value>, offsets: seq<nat>, valid: seq<bool>): (r: seq<Value>)
    requires |offsets| == |valid| && OffsetsOk(offsets, |ks|) && |vs| == |ks|
    ensures |r| == |valid|
  {
    seq(|valid|, i requires 0 <= i < |valid| =>
      if valid[i] then MapV(ks[offsets[i]..End(offsets, i, |ks|)], vs[offsets[i]..End(offsets, i, |ks|)]) else Null)
  }

  predicate Even(cols: seq<seq<Value>>, n: nat) { forall k :: 0 <= k < |cols| ==> |cols[k]| == n }

  /** One value from every column. */
  function Row(cols: seq<seq<Value>>, n: nat, i: nat): (r: seq<Value>)
    requires Even(cols, n) && i < n
  {
    seq(|cols|, k requires 0 <= k < |cols| => cols[k][i])
  }

  function Rows(cols: seq<seq<Value>>, valid: seq<bool>): (r: seq<Value>)
    requires Even(cols, |valid|)
    ensures |r| == |valid|
  {
    seq(|valid|, i requires 0 <= i < |valid| => if valid[i] then StructV(Row(cols, |valid|, i)) else Null)
  }

  /** Which child a code stands for. */
  function ChildOf(ks: Cases, code: int): (k: nat)
    requires HasCode(ks, code)
  {
    if ks.code == code then 0 else 1 + ChildOf(ks.rest, code)
  }

  predicate ChoiceOk(ks: Cases, cols: seq<seq<Value>>, code: nat, at: nat) {
    HasCode(ks, code) && ChildOf(ks, code) < |cols| && at < |cols[ChildOf(ks, code)]|
  }

  predicate ChoicesOk(dense: bool, ks: Cases, cols: seq<seq<Value>>, codes: seq<nat>, offsets: seq<nat>) {
    && |offsets| == |codes|
    && forall i :: 0 <= i < |codes| ==> ChoiceOk(ks, cols, codes[i], if dense then offsets[i] else i)
  }

  /** A dense union's slot is at its offset in its child, a sparse union's at its own place. */
  function Choices(dense: bool, ks: Cases, cols: seq<seq<Value>>, codes: seq<nat>, offsets: seq<nat>): (r: seq<Value>)
    requires ChoicesOk(dense, ks, cols, codes, offsets)
    ensures |r| == |codes|
  {
    seq(|codes|, i requires 0 <= i < |codes| =>
      UnionV(codes[i], cols[ChildOf(ks, codes[i])][if dense then offsets[i] else i]))
  }

  function Decode(t: Type, c: Column): (r: seq<Value>)
    requires Fits(t, c) && Sound(t, c)
    ensures |r| == Slots(c)
    decreases t, 0
  {
    match t
    case NullT => seq(c.length, _ => Null)
    case BoolT =>
      seq(|c.bools|, i requires 0 <= i < |c.bools| => if c.bools[i].Some? then BoolV(c.bools[i].value) else Null)
    case IntT(_, _) =>
      seq(|c.ints|, i requires 0 <= i < |c.ints| => if c.ints[i].Some? then IntV(c.ints[i].value) else Null)
    case StrT =>
      seq(|c.texts|, i requires 0 <= i < |c.texts| => if c.texts[i].Some? then TextV(c.texts[i].value) else Null)
    case ListT(item) => Stretches(Decode(item, c.child), c.offsets, c.valid)
    case FixedT(size, item) => Chunks(Decode(item, c.child), size, c.valid)
    case MapT(key, value) => Entries(Decode(key, c.keys), Decode(value, c.values), c.offsets, c.valid)
    case StructT(fields) => Rows(DecodeFields(fields, c.children, |c.valid|), c.valid)
    case UnionT(dense, cases) =>
      var cols := DecodeCases(dense, cases, c.children, |c.codes|);
      ChoicesFit(dense, cases, c.children, |c.codes|, c.codes, c.offsets);
      Choices(dense, cases, cols, c.codes, c.offsets)
  }

  function DecodeFields(fs: Fields, cs: Columns, n: nat): (r: seq<seq<Value>>)
    requires FitFields(fs, cs) && SoundFields(fs, cs, n)
    ensures |r| == FieldCount(fs) && Even(r, n)
    decreases fs, 1
  {
    if fs.NoFields? then [] else [Decode(fs.typ, cs.head)] + DecodeFields(fs.rest, cs.tail, n)
  }

  function CaseCount(ks: Cases): nat { if ks.NoCases? then 0 else 1 + CaseCount(ks.rest) }

  function DecodeCases(dense: bool, ks: Cases, cs: Columns, n: nat): (r: seq<seq<Value>>)
    requires FitCases(ks, cs) && SoundCases(dense, ks, cs, n)
    ensures |r| == CaseCount(ks) && (!dense ==> Even(r, n))
    decreases ks, 1
  {
    if ks.NoCases? then [] else [Decode(ks.typ, cs.head)] + DecodeCases(dense, ks.rest, cs.tail, n)
  }

  lemma {:induction false} ChildHasSlots(dense: bool, ks: Cases, cs: Columns, n: nat, code: nat)
    requires FitCases(ks, cs) && SoundCases(dense, ks, cs, n) && HasCode(ks, code)
    ensures var cols, k := DecodeCases(dense, ks, cs, n), ChildOf(ks, code);
      k < |cols| && |cols[k]| == CaseSlots(ks, cs, code)
    decreases ks, 2
  {
    if ks.code != code { ChildHasSlots(dense, ks.rest, cs.tail, n, code); }
  }

  lemma ChoicesFit(dense: bool, ks: Cases, cs: Columns, n: nat, codes: seq<nat>, offsets: seq<nat>)
    requires FitCases(ks, cs) && SoundCases(dense, ks, cs, n) && |offsets| == |codes| == n
    requires forall i :: 0 <= i < n ==> HasCode(ks, codes[i]) && (dense ==> offsets[i] < CaseSlots(ks, cs, codes[i]))
    ensures ChoicesOk(dense, ks, DecodeCases(dense, ks, cs, n), codes, offsets)
    decreases ks, 3
  {
    forall i | 0 <= i < n
      ensures ChoiceOk(ks, DecodeCases(dense, ks, cs, n), codes[i], if dense then offsets[i] else i)
    {
      ChildHasSlots(dense, ks, cs, n, codes[i]);
      SparseSlots(dense, ks, cs, n, codes[i]);
    }
  }

  lemma {:induction false} SparseSlots(dense: bool, ks: Cases, cs: Columns, n: nat, code: nat)
    requires FitCases(ks, cs) && SoundCases(dense, ks, cs, n) && HasCode(ks, code)
    ensures !dense ==> CaseSlots(ks, cs, code) == n
    decreases ks, 2
  {
    if ks.code != code { SparseSlots(dense, ks.rest, cs.tail, n, code); }
  }

  // ---------------------------------------------------------------------------
  // One slot more, layout by layout

  lemma OffsetsGrow(offsets: seq<nat>, last: nat, more: nat)
    requires OffsetsOk(offsets, last)
    ensures OffsetsOk(offsets + [last], last + more)
    ensures forall i :: 0 <= i < |offsets| ==> End(offsets + [last], i, last + more) == End(offsets, i, last)
  {
  }

  lemma StretchesGrow(vs: seq<Value>, more: seq<Value>, offsets: seq<nat>, valid: seq<bool>, b: bool)
    requires |offsets| == |valid| && OffsetsOk(offsets, |vs|)
    ensures OffsetsOk(offsets + [|vs|], |vs + more|)
    ensures Stretches(vs + more, offsets + [|vs|], valid + [b]) ==
      Stretches(vs, offsets, valid) + [if b then ListV(more) else Null]
  {
    OffsetsGrow(offsets, |vs|, |more|);
    forall i | 0 <= i < |valid|
      ensures (vs + more)[offsets[i]..End(offsets, i, |vs|)] == vs[offsets[i]..End(offsets, i, |vs|)]
    {
    }
    assert (vs + more)[|vs|..|vs + more|] == more;
  }

  lemma EntriesGrow(ks: seq<Value>, vs: seq<Value>, k: seq<Value>, v: seq<Value>, offsets: seq<nat>,
                    valid: seq<bool>, b: bool)
    requires |offsets| == |valid| && OffsetsOk(offsets, |ks|) && |vs| == |ks| && |k| == |v|
    ensures OffsetsOk(offsets + [|ks|], |ks + k|)
    ensures Entries(ks + k, vs + v, offsets + [|ks|], valid + [b]) ==
      Entries(ks, vs, offsets, valid) + [if b then MapV(k, v) else Null]
  {
    OffsetsGrow(offsets, |ks|, |k|);
    forall i | 0 <= i < |valid|
      ensures (ks + k)[offsets[i]..End(offsets, i, |ks|)] == ks[offsets[i]..End(offsets, i, |ks|)]
      ensures (vs + v)[offsets[i]..End(offsets, i, |ks|)] == vs[offsets[i]..End(offsets, i, |ks|)]
    {
    }
    assert (ks + k)[|ks|..|ks + k|] == k && (vs + v)[|ks|..|ks + k|] == v;
  }

  lemma ChunksGrow(vs: seq<Value>, more: seq<Value>, size: nat, valid: seq<bool>, b: bool)
    requires |vs| == Times(size, |valid|) && |more| == size
    ensures |vs + more| == Times(size, |valid + [b]|)
    ensures Chunks(vs + more, size, valid + [b]) == Chunks(vs, size, valid) + [if b then ListV(more) else Null]
  {
    assert (valid + [b])[..|valid|] == valid;
    assert (vs + more)[..|vs|] == vs && (vs + more)[|vs|..] == more;
  }

  ghost predicate Grown(cols: seq<seq<Value>>, next: seq<seq<Value>>, ms: seq<Value>) {
    |next| == |cols| == |ms| && forall k :: 0 <= k < |cols| ==> next[k] == cols[k] + [ms[k]]
  }

  lemma RowsGrow(cols: seq<seq<Value>>, next: seq<seq<Value>>, ms: seq<Value>, valid: seq<bool>, b: bool)
    requires Even(cols, |valid|) && Grown(cols, next, ms)
    ensures Even(next, |valid| + 1)
    ensures Rows(next, valid + [b]) == Rows(cols, valid) + [if b then StructV(ms) else Null]
  {
    var n := |valid|;
    forall i | 0 <= i < n
      ensures Row(next, n + 1, i) == Row(cols, n, i)
    {
      forall k | 0 <= k < |cols| ensures Row(next, n + 1, i)[k] == Row(cols, n, i)[k] {
        assert next[k] == cols[k] + [ms[k]];
      }
    }
    forall k | 0 <= k < |cols| ensures Row(next, n + 1, n)[k] == ms[k] {
      assert next[k] == cols[k] + [ms[k]];
    }
    assert Row(next, n + 1, n) == ms;
    assert Rows(next, valid + [b])[..n] == Rows(cols, valid);
  }

  /** One child of a union got a value; the others are as they were, or got one as well. */
  ghost predicate GrownAt(cols: seq<seq<Value>>, next: seq<seq<Value>>, k: nat, m: Value, dense: bool) {
    && |next| == |cols| && k < |cols| && next[k] == cols[k] + [m]
    && forall j :: 0 <= j < |cols| && j != k ==>
         cols[j] <= next[j] && |next[j]| == if dense then |cols[j]| else |cols[j]| + 1
  }

  lemma ChoicesGrow(dense: bool, ks: Cases, cols: seq<seq<Value>>, next: seq<seq<Value>>, codes: seq<nat>,
                    offsets: seq<nat>, code: nat, at: nat, m: Value)
    requires ChoicesOk(dense, ks, cols, codes, offsets) && HasCode(ks, code)
    requires GrownAt(cols, next, ChildOf(ks, code), m, dense) && at == |cols[ChildOf(ks, code)]|
    requires !dense ==> at == |codes|
    ensures ChoicesOk(dense, ks, next, codes + [code], offsets + [at])
    ensures Choices(dense, ks, next, codes + [code], offsets + [at]) ==
      Choices(dense, ks, cols, codes, offsets) + [UnionV(code, m)]
  {
    forall i | 0 <= i < |codes| + 1
      ensures ChoiceOk(ks, next, (codes + [code])[i], if dense then (offsets + [at])[i] else i)
    {
      if i < |codes| {
        assert ChoiceOk(ks, cols, codes[i], if dense then offsets[i] else i);
        assert cols[ChildOf(ks, codes[i])] <= next[ChildOf(ks, codes[i])];
      }
    }
    forall i | 0 <= i < |codes|
      ensures Choices(dense, ks, next, codes + [code], offsets + [at])[i] == Choices(dense, ks, cols, codes, offsets)[i]
    {
      assert ChoiceOk(ks, cols, codes[i], if dense then offsets[i] else i);
      assert cols[ChildOf(ks, codes[i])] <= next[ChildOf(ks, codes[i])];
    }
  }

  // ---------------------------------------------------------------------------
  // Appending null

  ghost predicate Appended(t: Type, c: Column, r: Column, ms: seq<Value>)
    requires Fits(t, c) && Sound(t, c) && Fits(t, r)
  {
    Sound(t, r) && Decode(t, r) == Decode(t, c) + ms
  }

  function NullsOf(fs: Fields): seq<Value> { if fs.NoFields? then [] else [NullOf(fs.typ)] + NullsOf(fs.rest) }

  /** A null reads as null, whatever the layout puts under it. */
  lemma {:induction false} NullIsAppended(t: Type, c: Column)
    requires Fits(t, c) && Sound(t, c)
    ensures Appended(t, c, AppendNull(t, c), [NullOf(t)])
    decreases t, 1
  {
    match t
    case ListT(item) => NullStretch(item, c);
    case FixedT(size, item) => NullChunk(size, item, c);
    case MapT(key, value) => NullEntry(key, value, c);
    case StructT(fields) => NullRow(fields, c);
    case UnionT(dense, cases) => NullChoice(dense, cases, c);
    case _ =>
  }

  lemma NothingMore(vs: seq<Value>)
    ensures vs + [] == vs
  {
  }

  lemma NullStretch(item: Type, c: Column)
    requires Fits(ListT(item), c) && Sound(ListT(item), c)
    ensures Appended(ListT(item), c, AppendNull(ListT(item), c), [Null])
  {
    StretchesGrow(Decode(item, c.child), [], c.offsets, c.valid, false);
    NothingMore(Decode(item, c.child));
  }

  lemma NullEntry(key: Type, value: Type, c: Column)
    requires Fits(MapT(key, value), c) && Sound(MapT(key, value), c)
    ensures Appended(MapT(key, value), c, AppendNull(MapT(key, value), c), [Null])
  {
    EntriesGrow(Decode(key, c.keys), Decode(value, c.values), [], [], c.offsets, c.valid, false);
    NothingMore(Decode(key, c.keys));
    NothingMore(Decode(value, c.values));
  }

  lemma {:induction false} NullRow(fields: Fields, c: Column)
    requires Fits(StructT(fields), c) && Sound(StructT(fields), c)
    ensures Appended(StructT(fields), c, AppendNull(StructT(fields), c), [Null])
    decreases StructT(fields), 0
  {
    NullsAreAppended(fields, c.children, |c.valid|);
    RowsGrow(DecodeFields(fields, c.children, |c.valid|),
             DecodeFields(fields, AppendNullFields(fields, c.children), |c.valid| + 1), NullsOf(fields), c.valid,
               false);
  }

  lemma {:induction false} NullChunk(size: nat, item: Type, c: Column)
    requires Fits(FixedT(size, item), c) && Sound(FixedT(size, item), c)
    ensures Appended(FixedT(size, item), c, AppendNull(FixedT(size, item), c), [Null])
    decreases FixedT(size, item), 0
  {
    var fill := FillIsAppended(item, c.child, size);
    ChunksGrow(Decode(item, c.child), fill, size, c.valid, false);
  }

  lemma {:induction false} FillIsAppended(t: Type, c: Column, n: nat) returns (fill: seq<Value>)
    requires Fits(t, c) && Sound(t, c)
    ensures |fill| == n && Appended(t, c, AppendNulls(t, c, n), fill)
    decreases t, 2, n
  {
    if n == 0 {
      fill := [];
      NothingMore(Decode(t, c));
    } else {
      NullIsAppended(t, c);
      var more := FillIsAppended(t, AppendNull(t, c), n - 1);
      fill := [NullOf(t)] + more;
      assert Decode(t, c) + [NullOf(t)] + more == Decode(t, c) + fill;
    }
  }

  lemma {:induction false} NullsAreAppended(fs: Fields, cs: Columns, n: nat)
    requires FitFields(fs, cs) && SoundFields(fs, cs, n)
    ensures SoundFields(fs, AppendNullFields(fs, cs), n + 1)
    ensures Grown(DecodeFields(fs, cs, n), DecodeFields(fs, AppendNullFields(fs, cs), n + 1), NullsOf(fs))
    decreases fs, 1
  {
    if fs.Field? {
      NullIsAppended(fs.typ, cs.head);
      NullsAreAppended(fs.rest, cs.tail, n);
    }
  }

  /** Every column is one longer and begins as before. */
  ghost predicate Longer(cols: seq<seq<Value>>, next: seq<seq<Value>>) {
    |next| == |cols| && forall j :: 0 <= j < |cols| ==> cols[j] <= next[j] && |next[j]| == |cols[j]| + 1
  }

  lemma LongerCons(col: seq<Value>, m: Value, cols: seq<seq<Value>>, next: seq<seq<Value>>)
    requires Longer(cols, next)
    ensures Longer([col] + cols, [col + [m]] + next)
  {
  }

  /** The children of a sparse union that a value does not go to. */
  lemma {:induction false} OthersAreAppended(ks: Cases, cs: Columns, n: nat)
    requires FitCases(ks, cs) && SoundCases(false, ks, cs, n)
    ensures SoundCases(false, ks, AppendNullCases(ks, cs), n + 1)
    ensures Longer(DecodeCases(false, ks, cs, n), DecodeCases(false, ks, AppendNullCases(ks, cs), n + 1))
    decreases ks, 1
  {
    if ks.Case? {
      NullIsAppended(ks.typ, cs.head);
      OthersAreAppended(ks.rest, cs.tail, n);
      LongerCons(Decode(ks.typ, cs.head), NullOf(ks.typ), DecodeCases(false, ks.rest, cs.tail, n),
                 DecodeCases(false, ks.rest, AppendNullCases(ks.rest, cs.tail), n + 1));
    }
  }

  /** The first child got the value. */
  lemma GrownFirst(col: seq<Value>, m: Value, cols: seq<seq<Value>>, next: seq<seq<Value>>, dense: bool)
    requires if dense then next == cols else Longer(cols, next)
    ensures GrownAt([col] + cols, [col + [m]] + next, 0, m, dense)
  {
  }

  /** A later child got the value. */
  lemma GrownLater(col: seq<Value>, other: seq<Value>, m: Value, cols: seq<seq<Value>>, next: seq<seq<Value>>,
                   k: nat, dense: bool)
    requires GrownAt(cols, next, k, m, dense) && col <= other && |other| == if dense then |col| else |col| + 1
    ensures GrownAt([col] + cols, [other] + next, k + 1, m, dense)
  {
  }

  lemma {:induction false} DenseAnyLength(ks: Cases, cs: Columns, n: nat, m: nat)
    requires FitCases(ks, cs) && SoundCases(true, ks, cs, n)
    ensures SoundCases(true, ks, cs, m) && DecodeCases(true, ks, cs, m) == DecodeCases(true, ks, cs, n)
    decreases ks
  {
    if ks.Case? { DenseAnyLength(ks.rest, cs.tail, n, m); }
  }

  /** A union whose children have grown at one place has one slot more. */
  lemma {:induction false} UnionGrows(dense: bool, ks: Cases, c: Column, children: Columns, code: nat, m: Value)
    requires Fits(UnionT(dense, ks), c) && Sound(UnionT(dense, ks), c) && HasCode(ks, code)
    requires FitCases(ks, children) && SoundCases(dense, ks, children, |c.codes| + 1)
    requires GrownAt(DecodeCases(dense, ks, c.children, |c.codes|), DecodeCases(dense, ks, children, |c.codes| + 1),
                     ChildOf(ks, code), m, dense)
    ensures Appended(UnionT(dense, ks), c,
      UnionC(c.codes + [code], c.offsets + [CaseSlots(ks, c.children, code)], children), [UnionV(code, m)])
  {
    var n, at := |c.codes|, CaseSlots(ks, c.children, code);
    var cols, next := DecodeCases(dense, ks, c.children, n), DecodeCases(dense, ks, children, n + 1);
    var codes, offsets := c.codes + [code], c.offsets + [at];
    ChoicesFit(dense, ks, c.children, n, c.codes, c.offsets);
    ChildHasSlots(dense, ks, c.children, n, code);
    SparseSlots(dense, ks, c.children, n, code);
    ChoicesGrow(dense, ks, cols, next, c.codes, c.offsets, code, at, m);
    forall i | 0 <= i <= n
      ensures HasCode(ks, codes[i]) && (dense ==> offsets[i] < CaseSlots(ks, children, codes[i]))
    {
      assert ChoiceOk(ks, next, codes[i], if dense then offsets[i] else i);
      ChildHasSlots(dense, ks, children, n + 1, codes[i]);
    }
  }

  lemma {:induction false} NullChoice(dense: bool, cases: Cases, c: Column)
    requires Fits(UnionT(dense, cases), c) && Sound(UnionT(dense, cases), c)
    ensures Appended(UnionT(dense, cases), c, AppendNull(UnionT(dense, cases), c), [NullOf(UnionT(dense, cases))])
    decreases UnionT(dense, cases), 0
  {
    var n, cs := |c.codes|, c.children;
    NullIsAppended(cases.typ, cs.head);
    if dense {
      DenseAnyLength(cases.rest, cs.tail, n, n + 1);
    } else {
      OthersAreAppended(cases.rest, cs.tail, n);
    }
    var tail := if dense then cs.tail else AppendNullCases(cases.rest, cs.tail);
    GrownFirst(Decode(cases.typ, cs.head), NullOf(cases.typ), DecodeCases(dense, cases.rest, cs.tail, n),
               DecodeCases(dense, cases.rest, tail, n + 1), dense);
    UnionGrows(dense, cases, c, Col(AppendNull(cases.typ, cs.head), tail), cases.code, NullOf(cases.typ));
  }

  // ---------------------------------------------------------------------------
  // Appending values

  /** On success a column has one slot more, which reads as the value; all others read as before. */
  lemma {:induction false} ValueIsAppended(t: Type, c: Column, v: Json)
    requires Fits(t, c) && Sound(t, c) && AppendValue(t, c, v).Ok?
    ensures Appended(t, c, AppendValue(t, c, v).value, [Meaning(t, v)])
    decreases JSize(v), 1
  {
    if v.JNull? {
      NullIsAppended(t, c);
    } else {
      match t
      case ListT(item) => ListIsAppended(item, c, v);
      case FixedT(size, item) => FixedIsAppended(size, item, c, v);
      case MapT(key, value) => MapIsAppended(key, value, c, v);
      case StructT(fields) => StructIsAppended(fields, c, v);
      case UnionT(dense, cases) => UnionIsAppended(dense, cases, c, v);
      case _ =>
    }
  }

  lemma {:induction false} ListIsAppended(item: Type, c: Column, v: Json)
    requires Fits(ListT(item), c) && Sound(ListT(item), c) && AppendValue(ListT(item), c, v).Ok? && !v.JNull?
    ensures Appended(ListT(item), c, AppendValue(ListT(item), c, v).value, [Meaning(ListT(item), v)])
    decreases JSize(v), 0
  {
    ItemsAreAppended(item, c.child, v.items);
    StretchesGrow(Decode(item, c.child), MeaningItems(item, v.items), c.offsets, c.valid, true);
  }

  lemma {:induction false} FixedIsAppended(size: nat, item: Type, c: Column, v: Json)
    requires Fits(FixedT(size, item), c) && Sound(FixedT(size, item), c)
      && AppendValue(FixedT(size, item), c, v).Ok? && !v.JNull?
    ensures
      Appended(FixedT(size, item), c, AppendValue(FixedT(size, item), c, v).value, [Meaning(FixedT(size, item), v)])
    decreases JSize(v), 0
  {
    ItemsAreAppended(item, c.child, v.items);
    ChunksGrow(Decode(item, c.child), MeaningItems(item, v.items), size, c.valid, true);
  }

  lemma {:induction false} MapIsAppended(key: Type, value: Type, c: Column, v: Json)
    requires Fits(MapT(key, value), c) && Sound(MapT(key, value), c) && AppendValue(MapT(key, value), c, v).Ok?
      && !v.JNull?
    ensures Appended(MapT(key, value), c, AppendValue(MapT(key, value), c, v).value, [Meaning(MapT(key, value), v)])
    decreases JSize(v), 0
  {
    PairsAreAppended(key, value, c.keys, c.values, v.items);
    EntriesGrow(Decode(key, c.keys), Decode(value, c.values), MeaningOfPairs(key, v.items, true),
                MeaningOfPairs(value, v.items, false), c.offsets, c.valid, true);
  }

  lemma {:induction false} StructIsAppended(fields: Fields, c: Column, v: Json)
    requires Fits(StructT(fields), c) && Sound(StructT(fields), c) && AppendValue(StructT(fields), c, v).Ok?
      && !v.JNull?
    ensures Appended(StructT(fields), c, AppendValue(StructT(fields), c, v).value, [Meaning(StructT(fields), v)])
    decreases JSize(v), 0
  {
    var n := |c.valid|;
    var children := AppendValue(StructT(fields), c, v).value.children;
    var ms;
    if v.JArr? {
      EachIsAppended(fields, c.children, v.items, n);
      ms := MeaningEach(fields, v.items);
    } else {
      MembersAreAppended(fields, c.children, v.members, n);
      ms := MeaningMembers(fields, v.members);
    }
    RowsGrow(DecodeFields(fields, c.children, n), DecodeFields(fields, children, n + 1), ms, c.valid, true);
  }

  lemma {:induction false} UnionIsAppended(dense: bool, cases: Cases, c: Column, v: Json)
    requires Fits(UnionT(dense, cases), c) && Sound(UnionT(dense, cases), c)
    requires AppendValue(UnionT(dense, cases), c, v).Ok? && !v.JNull?
    ensures
      var t := UnionT(dense, cases);
      Appended(t, c, AppendValue(t, c, v).value, [Meaning(t, v)])
    decreases JSize(v), 0
  {
    var code: nat := ToInt8(v.items.head.n);
    var x := v.items.tail.head;
    CaseIsAppended(dense, cases, c.children, code, x, |c.codes|);
    UnionGrows(dense, cases, c, AppendCase(dense, cases, c.children, code, x).value, code,
               Meaning(CaseType(cases, code), x));
  }

  lemma {:induction false} ItemsAreAppended(t: Type, c: Column, items: Items)
    requires Fits(t, c) && Sound(t, c) && AppendValues(t, c, items).Ok?
    ensures Appended(t, c, AppendValues(t, c, items).value, MeaningItems(t, items))
    decreases ISize(items), 0
  {
    if items.NoItems? {
      NothingMore(Decode(t, c));
    } else {
      ValueIsAppended(t, c, items.head);
      var next := AppendValue(t, c, items.head).value;
      ItemsAreAppended(t, next, items.tail);
      Then(Decode(t, c), Meaning(t, items.head), MeaningItems(t, items.tail));
    }
  }

  lemma {:induction false} PairsAreAppended(key: Type, value: Type, ks: Column, vs: Column, items: Items)
    requires Fits(key, ks) && Sound(key, ks) && Fits(value, vs) && Sound(value, vs)
    requires AppendPairs(key, value, ks, vs, items).Ok?
    ensures Appended(key, ks, AppendPairs(key, value, ks, vs, items).value.0, MeaningOfPairs(key, items, true))
    ensures Appended(value, vs, AppendPairs(key, value, ks, vs, items).value.1, MeaningOfPairs(value, items, false))
    decreases ISize(items), 0
  {
    if items.NoItems? {
      NothingMore(Decode(key, ks));
      NothingMore(Decode(value, vs));
    } else {
      var next := AppendPair(key, value, ks, vs, items.head).value;
      PairIsAppended(key, value, ks, vs, items.head);
      PairsAreAppended(key, value, next.0, next.1, items.tail);
      Then(Decode(key, ks), MeaningInPair(key, items.head, true), MeaningOfPairs(key, items.tail, true));
      Then(Decode(value, vs), MeaningInPair(value, items.head, false), MeaningOfPairs(value, items.tail, false));
    }
  }

  lemma {:induction false} PairIsAppended(key: Type, value: Type, ks: Column, vs: Column, pair: Json)
    requires Fits(key, ks) && Sound(key, ks) && Fits(value, vs) && Sound(value, vs)
    requires AppendPair(key, value, ks, vs, pair).Ok?
    ensures var next := AppendPair(key, value, ks, vs, pair).value;
      && Appended(key, ks, next.0, [MeaningInPair(key, pair, true)])
      && Appended(value, vs, next.1, [MeaningInPair(value, pair, false)])
    decreases JSize(pair), 0
  {
    ValueIsAppended(key, ks, pair.items.head);
    ValueIsAppended(value, vs, pair.items.tail.head);
  }

  lemma Then(vs: seq<Value>, m: Value, ms: seq<Value>)
    ensures vs + [m] + ms == vs + ([m] + ms)
  {
  }

  lemma {:induction false} EachIsAppended(fs: Fields, cs: Columns, items: Items, n: nat)
    requires FitFields(fs, cs) && SoundFields(fs, cs, n) && Count(items) == FieldCount(fs)
      && AppendEach(fs, cs, items).Ok?
    ensures SoundFields(fs, AppendEach(fs, cs, items).value, n + 1)
    ensures Grown(DecodeFields(fs, cs, n), DecodeFields(fs, AppendEach(fs, cs, items).value, n + 1),
                  MeaningEach(fs, items))
    decreases ISize(items), 0
  {
    if fs.Field? {
      ValueIsAppended(fs.typ, cs.head, items.head);
      EachIsAppended(fs.rest, cs.tail, items.tail, n);
    }
  }

  lemma {:induction false} MembersAreAppended(fs: Fields, cs: Columns, ms: Members, n: nat)
    requires FitFields(fs, cs) && SoundFields(fs, cs, n) && AppendMembers(fs, cs, ms).Ok?
    ensures SoundFields(fs, AppendMembers(fs, cs, ms).value, n + 1)
    ensures Grown(DecodeFields(fs, cs, n), DecodeFields(fs, AppendMembers(fs, cs, ms).value, n + 1),
      MeaningMembers(fs, ms))
    decreases MSize(ms), 2, fs
  {
    if fs.Field? {
      match Find(ms, fs.name) {
        case None => NullIsAppended(fs.typ, cs.head);
        case Some(v) => ValueIsAppended(fs.typ, cs.head, v);
      }
      MembersAreAppended(fs.rest, cs.tail, ms, n);
    }
  }

  lemma {:induction false} CaseIsAppended(dense: bool, ks: Cases, cs: Columns, code: nat, v: Json, n: nat)
    requires FitCases(ks, cs) && SoundCases(dense, ks, cs, n) && HasCode(ks, code)
      && AppendCase(dense, ks, cs, code, v).Ok?
    ensures SoundCases(dense, ks, AppendCase(dense, ks, cs, code, v).value, n + 1)
    ensures GrownAt(DecodeCases(dense, ks, cs, n),
                    DecodeCases(dense, ks, AppendCase(dense, ks, cs, code, v).value, n + 1),
                    ChildOf(ks, code), Meaning(CaseType(ks, code), v), dense)
    decreases JSize(v), 2, ks
  {
    var head, tail := Decode(ks.typ, cs.head), DecodeCases(dense, ks.rest, cs.tail, n);
    var r := AppendCase(dense, ks, cs, code, v).value;
    if ks.code == code {
      ValueIsAppended(ks.typ, cs.head, v);
      if dense {
        DenseAnyLength(ks.rest, cs.tail, n, n + 1);
      } else {
        OthersAreAppended(ks.rest, cs.tail, n);
      }
      GrownFirst(head, Meaning(ks.typ, v), tail, DecodeCases(dense, ks.rest, r.tail, n + 1), dense);
    } else {
      CaseIsAppended(dense, ks.rest, cs.tail, code, v, n);
      if !dense { NullIsAppended(ks.typ, cs.head); }
      GrownLater(head, Decode(ks.typ, r.head), Meaning(CaseType(ks, code), v), tail,
                 DecodeCases(dense, ks.rest, r.tail, n + 1), ChildOf(ks.rest, code), dense);
    }
  }
}
