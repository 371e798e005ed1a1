/** The keyed FNV-1a hashes of `hash_ext`: what a byte does to the state, and what the framing bytes
    make of a list of keys and values. */
module Fnv {
  import opened Wrappers
  import opened JsonScan
  import opened JsonGrammar

  const INIT: bv64 := 0xCBF2_9CE4_8422_2325

  const KEY_END: Byte := 0xFF
  const VALUE_END: Byte := 0xFE

  /** `$$null_placeholder$$` */
  const NULL_PLACEHOLDER: Bytes :=
    [0x24, 0x24, 0x6E, 0x75, 0x6C, 0x6C, 0x5F, 0x70, 0x6C, 0x61,
     0x63, 0x65, 0x68, 0x6F, 0x6C, 0x64, 0x65, 0x72, 0x24, 0x24]

  const NULL_TEXT: Bytes := [0x6E, 0x75, 0x6C, 0x6C]

  // ---------------------------------------------------------------------------
  // The state

  function Xor(h: bv64, b: Byte): bv64 { h ^ (b as bv64) }

  /** `wrapping_mul` with the FNV prime, 1099511628211. */
  function Times(x: bv64): bv64 { x * 0x100_0000_01B3 }

  /** The inverse of the prime modulo 2^64. */
  function Untimes(x: bv64): bv64 { x * 0xCE96_5057_AFF6_957B }

  function Mix(h: bv64, b: Byte): bv64 { Times(Xor(h, b)) }

  function Unmix(h: bv64, b: Byte): bv64 { Xor(Untimes(h), b) }

  lemma UntimesOfProduct(x: bv64)
    ensures Untimes(x * 0x100_0000_01B3) == x && Times(x * 0xCE96_5057_AFF6_957B) == x
  {
  }

  lemma AsProducts(x: bv64)
    ensures Times(x) == x * 0x100_0000_01B3 && Untimes(x) == x * 0xCE96_5057_AFF6_957B
  {
  }

  lemma PrimeHasInverse(x: bv64)
    ensures Untimes(Times(x)) == x && Times(Untimes(x)) == x
  {
    UntimesOfProduct(x);
    AsProducts(x);
  }

  lemma XorTwice(h: bv64, b: Byte)
    ensures Xor(Xor(h, b), b) == h
  {
  }

  lemma XorTellsBytes(h: bv64, a: Byte, b: Byte)
    requires Xor(h, a) == Xor(h, b)
    ensures a == b
  {
  }

  /** Every byte permutes the 2^64 states. */
  lemma MixIsBijective(h: bv64, b: Byte)
    ensures Unmix(Mix(h, b), b) == h && Mix(Unmix(h, b), b) == h
  {
    PrimeHasInverse(Xor(h, b));
    PrimeHasInverse(h);
    XorTwice(h, b);
    XorTwice(Untimes(h), b);
  }

  /** From one state, different bytes lead to different states. */
  lemma MixTellsBytes(h: bv64, a: Byte, b: Byte)
    requires Mix(h, a) == Mix(h, b)
    ensures a == b
  {
    PrimeHasInverse(Xor(h, a));
    PrimeHasInverse(Xor(h, b));
    XorTellsBytes(h, a, b);
  }

  function Feed(h: bv64, s: Bytes): bv64
    decreases |s|
  {
    if s == [] then h else Feed(Mix(h, s[0]), s[1..])
  }

  lemma {:induction false} FeedAppend(h: bv64, s: Bytes, t: Bytes)
    ensures Feed(h, s + t) == Feed(Feed(h, s), t)
    decreases |s|
  {
    if s == [] {
      assert s + t == t;
    } else {
      assert (s + t)[1..] == s[1..] + t;
      FeedAppend(Mix(h, s[0]), s[1..], t);
    }
  }

  lemma {:induction false} FeedIsInjective(h: bv64, g: bv64, s: Bytes)
    requires Feed(h, s) == Feed(g, s)
    ensures h == g
    decreases |s|
  {
    if s != [] {
      FeedIsInjective(Mix(h, s[0]), Mix(g, s[0]), s[1..]);
      MixIsBijective(h, s[0]);
      MixIsBijective(g, s[0]);
    }
  }

  /** Two inputs that differ in one byte only never collide in 64 bits. */
  lemma OneByteIsSeen(h: bv64, before: Bytes, a: Byte, b: Byte, after: Bytes)
    requires a != b
    ensures Feed(h, before + [a] + after) != Feed(h, before + [b] + after)
  {
    var g := Feed(h, before);
    FeedAppend(h, before + [a], after);
    FeedAppend(h, before + [b], after);
    FeedAppend(h, before, [a]);
    FeedAppend(h, before, [b]);
    if Feed(Mix(g, a), after) == Feed(Mix(g, b), after) {
      FeedIsInjective(Mix(g, a), Mix(g, b), after);
      MixTellsBytes(g, a, b);
    }
  }

  /** The same for any position of two inputs of one length. */
  lemma OneByteApart(h: bv64, s: Bytes, t: Bytes, k: nat)
    requires |s| == |t| && k < |s| && s[k] != t[k] && forall j :: 0 <= j < |s| && j != k ==> s[j] == t[j]
    ensures Feed(h, s) != Feed(h, t)
  {
    OneByteIsSeen(h, s[..k], s[k], t[k], s[k + 1..]);
    assert s == s[..k] + [s[k]] + s[k + 1..];
    assert t == s[..k] + [t[k]] + s[k + 1..];
  }

  // ---------------------------------------------------------------------------
  // Framed streams

  function Frame(key: Bytes, value: Bytes): Bytes { key + [KEY_END] + value + [VALUE_END] }

  datatype Field = Field(key: Bytes, value: Bytes)

  function Stream(fields: seq<Field>): Bytes {
    if fields == [] then [] else Frame(fields[0].key, fields[0].value) + Stream(fields[1..])
  }

  predicate Clean(s: Bytes) { KEY_END !in s && VALUE_END !in s }

  predicate CleanFields(fields: seq<Field>) {
    forall k :: 0 <= k < |fields| ==> Clean(fields[k].key) && Clean(fields[k].value)
  }

  /** A mark that occurs in neither beginning splits a text in one way only. */
  lemma MarkSplits(a: Bytes, b: Bytes, mark: Byte, s: Bytes, t: Bytes)
    requires mark !in a && mark !in b && a + [mark] + s == b + [mark] + t
    ensures a == b && s == t
  {
    var l, r := a + [mark] + s, b + [mark] + t;
    assert l[|a|] == mark && r[|b|] == mark;
    assert forall k :: 0 <= k < |a| ==> l[k] == a[k];
    assert forall k :: 0 <= k < |b| ==> r[k] == b[k];
    assert |a| == |b|;
    assert a == l[..|a|] && b == r[..|b|];
    assert s == l[|a| + 1..] && t == r[|b| + 1..];
  }

  /** The framing can be undone: fields without the framing bytes are told apart by their stream. */
  lemma {:induction false} StreamDecodes(p: seq<Field>, q: seq<Field>)
    requires CleanFields(p) && CleanFields(q) && Stream(p) == Stream(q)
    ensures p == q
    decreases |p|
  {
    if p != [] && q != [] {
      var a, b := p[0], q[0];
      FirstField(p);
      FirstField(q);
      MarkSplits(a.key, b.key, KEY_END, AfterKey(p), AfterKey(q));
      MarkSplits(a.value, b.value, VALUE_END, Stream(p[1..]), Stream(q[1..]));
      StreamDecodes(p[1..], q[1..]);
      assert p == [p[0]] + p[1..] && q == [q[0]] + q[1..];
    }
  }

  function AfterKey(p: seq<Field>): Bytes
    requires p != []
  {
    p[0].value + [VALUE_END] + Stream(p[1..])
  }

  lemma FirstField(p: seq<Field>)
    requires p != []
    ensures Stream(p) == p[0].key + [KEY_END] + AfterKey(p)
  {
  }

  /** `hash_two` has one mark only; it is undone if no first part contains it. */
  function Pair(a: Bytes, b: Bytes): Bytes { a + [KEY_END] + b }

  lemma PairDecodes(a: Bytes, b: Bytes, c: Bytes, d: Bytes)
    requires KEY_END !in a && KEY_END !in c && Pair(a, b) == Pair(c, d)
    ensures a == c && b == d
  {
    MarkSplits(a, c, KEY_END, b, d);
  }

  // ---------------------------------------------------------------------------
  // UTF-8, by the grammar of section 4 of RFC 3629

  predicate Tail(b: Byte) { 0x80 <= b <= 0xBF }

  predicate Utf8Char(s: Bytes) {
    || (|s| == 1 && s[0] <= 0x7F)
    || (|s| == 2 && 0xC2 <= s[0] <= 0xDF && Tail(s[1]))
    || (|s| == 3 && Tail(s[2]) &&
        ((s[0] == 0xE0 && 0xA0 <= s[1] <= 0xBF) || (0xE1 <= s[0] <= 0xEC && Tail(s[1]))
         || (s[0] == 0xED && 0x80 <= s[1] <= 0x9F) || (0xEE <= s[0] <= 0xEF && Tail(s[1]))))
    || (|s| == 4 && Tail(s[2]) && Tail(s[3]) &&
        ((s[0] == 0xF0 && 0x90 <= s[1] <= 0xBF) || (0xF1 <= s[0] <= 0xF3 && Tail(s[1]))
         || (s[0] == 0xF4 && 0x80 <= s[1] <= 0x8F)))
  }

  ghost predicate Utf8(s: Bytes)
    decreases |s|
  {
    s == [] || exists n :: 0 < n <= |s| && Utf8Char(s[..n]) && Utf8(s[n..])
  }

  /** Neither framing byte occurs in UTF-8 text. */
  lemma {:induction false} Utf8IsClean(s: Bytes)
    requires Utf8(s)
    ensures Clean(s)
    decreases |s|
  {
    if s != [] {
      var n :| 0 < n <= |s| && Utf8Char(s[..n]) && Utf8(s[n..]);
      Utf8IsClean(s[n..]);
      assert Clean(s[..n]);
      assert s == s[..n] + s[n..];
    }
  }

  // ---------------------------------------------------------------------------
  // Fields of a JSON text

  function Text(json: Bytes, slice: Slice): Bytes
    requires slice.from <= slice.to <= |json|
  {
    json[slice.from..slice.to]
  }

  /** The value that is hashed for a key: the text found, or the placeholder for none or for `null`. */
  function FieldValue(json: Bytes, key: Bytes): Bytes {
    match JsonFind(json, key)
    case None => NULL_PLACEHOLDER
    case Some(slice) => if Text(json, slice) == NULL_TEXT then NULL_PLACEHOLDER else Text(json, slice)
  }

  /** A missing member, `null`, and the strings `"null"` and `"$$null_placeholder$$"` are one to the
      hash; any two other values are told apart by their texts. */
  lemma PlaceholderMeans(json: Bytes, key: Bytes)
    ensures FieldValue(json, key) == NULL_PLACEHOLDER <==>
      JsonFind(json, key).None? || Text(json, JsonFind(json, key).value) in {NULL_TEXT, NULL_PLACEHOLDER}
  {
  }

  function Fields(json: Bytes, keys: seq<Bytes>): (r: seq<Field>)
    ensures |r| == |keys|
    ensures forall k :: 0 <= k < |keys| ==> r[k] == Field(keys[k], FieldValue(json, keys[k]))
  {
    if keys == [] then [] else [Field(keys[0], FieldValue(json, keys[0]))] + Fields(json, keys[1..])
  }

  lemma {:induction false} StreamSnoc(fields: seq<Field>, f: Field)
    ensures Stream(fields + [f]) == Stream(fields) + Frame(f.key, f.value)
  {
    if fields == [] {
      assert fields + [f] == [f] && Stream([f]) == Frame(f.key, f.value) + Stream([]);
    } else {
      assert (fields + [f])[1..] == fields[1..] + [f];
      StreamSnoc(fields[1..], f);
    }
  }

  lemma FieldsAreClean(json: Bytes, keys: seq<Bytes>)
    requires Clean(json) && forall k :: 0 <= k < |keys| ==> Clean(keys[k])
    ensures CleanFields(Fields(json, keys))
  {
    forall k | 0 <= k < |keys|
      ensures Clean(FieldValue(json, keys[k]))
    {
      FieldIsClean(json, keys[k]);
    }
  }

  lemma FieldIsClean(json: Bytes, key: Bytes)
    requires Clean(json)
    ensures Clean(FieldValue(json, key))
  {
    PlaceholderIsClean();
    if JsonFind(json, key).Some? {
      PartIsClean(json, JsonFind(json, key).value);
    }
  }

  lemma PlaceholderIsClean()
    ensures Clean(NULL_PLACEHOLDER)
  {
  }

  lemma PartIsClean(json: Bytes, slice: Slice)
    requires slice.from <= slice.to <= |json| && Clean(json)
    ensures Clean(Text(json, slice))
  {
    assert forall k :: 0 <= k < |Text(json, slice)| ==> Text(json, slice)[k] == json[slice.from + k];
  }

  /** What is hashed for two rows of UTF-8 text under the same keys is the same exactly if the rows
      agree on every key. */
  lemma StreamsAgree(json: Bytes, other: Bytes, keys: seq<Bytes>)
    requires Utf8(json) && Utf8(other) && forall k :: 0 <= k < |keys| ==> Utf8(keys[k])
    ensures Stream(Fields(json, keys)) == Stream(Fields(other, keys)) <==>
      forall k :: 0 <= k < |keys| ==> FieldValue(json, keys[k]) == FieldValue(other, keys[k])
  {
    Utf8IsClean(json);
    Utf8IsClean(other);
    forall k | 0 <= k < |keys| ensures Clean(keys[k]) { Utf8IsClean(keys[k]); }
    FieldsAreClean(json, keys);
    FieldsAreClean(other, keys);
    if Stream(Fields(json, keys)) == Stream(Fields(other, keys)) {
      StreamDecodes(Fields(json, keys), Fields(other, keys));
      forall k | 0 <= k < |keys|
        ensures FieldValue(json, keys[k]) == FieldValue(other, keys[k])
      {
        assert Fields(json, keys)[k] == Fields(other, keys)[k];
      }
    }
    if forall k :: 0 <= k < |keys| ==> FieldValue(json, keys[k]) == FieldValue(other, keys[k]) {
      assert Fields(json, keys) == Fields(other, keys);
    }
  }

  // ---------------------------------------------------------------------------
  // Rows that are JSON objects

  /** A row: an object, and whatever else the text holds around it. */
  datatype Row = Row(before: Bytes, body: Value, after: Bytes)

  function RowText(row: Row): Bytes { row.before + Print(row.body) + row.after }

  predicate ValidRow(row: Row) {
    LBRACE !in row.before && Valid(row.body) && (row.body.Obj? || row.body.EmptyObj?)
  }

  /** What is hashed for a member, or for none. */
  function HashedText(member: Option<Value>): Bytes {
    if member.None? || AnswerText(member.value) == NULL_TEXT then NULL_PLACEHOLDER else AnswerText(member.value)
  }

  lemma FieldIsHashed(row: Row, key: Bytes)
    requires ValidRow(row)
    ensures FieldValue(RowText(row), key) == HashedText(MemberOf(row.body, key))
  {
    var json, member := RowText(row), MemberOf(row.body, key);
    ObjectIsSearched(json, row.before, row.body, row.after, key);
    OutcomeIs(json, JsonFind(json, key), member);
  }

  lemma OutcomeIs(json: Bytes, r: Option<Slice>, member: Option<Value>)
    requires Outcome(json, r, member)
    ensures if member.None? then r == None else Answers(json, r, member.value)
  {
    assert UnfoldOutcome(r, 0);
  }

  /** A missing member, `null`, and the strings `"null"` and `"$$null_placeholder$$"`. */
  predicate CountsAsMissing(member: Option<Value>) {
    member.None? || AnswerText(member.value) == NULL_TEXT || AnswerText(member.value) == NULL_PLACEHOLDER
  }

  /** Two members are hashed alike if both count as missing, or if their texts are the same: those of
      strings without their quotes, those of objects and arrays cut off. */
  predicate HashedAlike(member: Option<Value>, other: Option<Value>) {
    || (CountsAsMissing(member) && CountsAsMissing(other))
    || (member.Some? && other.Some? && AnswerText(member.value) == AnswerText(other.value))
  }

  /** The streams of two objects under the same keys are the same exactly if, key by key, their first
      members with the key are hashed alike. */
  lemma RowsAgree(row: Row, other: Row, keys: seq<Bytes>)
    requires ValidRow(row) && ValidRow(other) && Utf8(RowText(row)) && Utf8(RowText(other))
    requires forall k :: 0 <= k < |keys| ==> Utf8(keys[k])
    ensures Stream(Fields(RowText(row), keys)) == Stream(Fields(RowText(other), keys)) <==>
      forall k :: 0 <= k < |keys| ==> HashedAlike(MemberOf(row.body, keys[k]), MemberOf(other.body, keys[k]))
  {
    StreamsAgree(RowText(row), RowText(other), keys);
    forall k | 0 <= k < |keys|
      ensures FieldValue(RowText(row), keys[k]) == FieldValue(RowText(other), keys[k]) <==>
        HashedAlike(MemberOf(row.body, keys[k]), MemberOf(other.body, keys[k]))
    {
      FieldsAlike(row, other, keys[k]);
    }
  }

  lemma FieldsAlike(row: Row, other: Row, key: Bytes)
    requires ValidRow(row) && ValidRow(other)
    ensures FieldValue(RowText(row), key) == FieldValue(RowText(other), key) <==>
      HashedAlike(MemberOf(row.body, key), MemberOf(other.body, key))
  {
    FieldIsHashed(row, key);
    FieldIsHashed(other, key);
  }

  /** An object with one member. */
  function Single(key: Bytes, value: Value): Row {
    Row([], Obj(LastMember(Member([], key, [], Item([], value, [])))), [])
  }

  lemma SingleIsRow(key: Bytes, value: Value)
    requires RawString(key) && Valid(value)
    ensures ValidRow(Single(key, value)) && MemberOf(Single(key, value).body, key) == Some(value)
  {
    var m := Member([], key, [], Item([], value, []));
    assert ValidItem(m.item);
    assert ValidMember(m);
    assert ValidMembers(LastMember(m));
  }

  /** The stream of an object under one key. */
  function StreamOf(row: Row, key: Bytes): Bytes { Stream(Fields(RowText(row), [key])) }

  lemma SingleStream(key: Bytes, value: Value, text: Bytes)
    requires RawString(key) && Valid(value) && text == HashedText(Some(value))
    ensures StreamOf(Single(key, value), key) == Frame(key, text)
  {
    SingleIsRow(key, value);
    FieldIsHashed(Single(key, value), key);
    OneField(RowText(Single(key, value)), key);
  }

  lemma EmptyStream(key: Bytes)
    ensures StreamOf(Row([], EmptyObj([]), []), key) == Frame(key, NULL_PLACEHOLDER)
  {
    FieldIsHashed(Row([], EmptyObj([]), []), key);
    OneField(RowText(Row([], EmptyObj([]), [])), key);
  }

  lemma OneField(json: Bytes, key: Bytes)
    ensures Stream(Fields(json, [key])) == Frame(key, FieldValue(json, key))
  {
    assert Fields(json, [key]) == [Field(key, FieldValue(json, key))];
    assert Stream(Fields(json, [key])[1..]) == [];
  }

  /** `[1,x]` for a digit `x`. */
  function OneAnd(digit: Byte): Value {
    Arr(MoreItems(Item([], Scalar([0x31]), []), LastItem(Item([], Scalar([digit]), []))))
  }

  /** Under any key: no member at all, `null` and the string `"$$null_placeholder$$"` make one stream;
      so do a number and the string of its digits; and so do arrays such as `[1,2]` and `[1,3]`. */
  lemma DifferentRowsAlike(key: Bytes, number: Bytes, a: Byte, b: Byte)
    requires RawString(key) && RawString(number) && ScalarText(number) && ScalarByte(a) && ScalarByte(b)
    ensures StreamOf(Row([], EmptyObj([]), []), key) == StreamOf(Single(key, Scalar(NULL_TEXT)), key)
    ensures StreamOf(Row([], EmptyObj([]), []), key) == StreamOf(Single(key, Str(NULL_PLACEHOLDER)), key)
    ensures StreamOf(Single(key, Scalar(number)), key) == StreamOf(Single(key, Str(number)), key)
    ensures StreamOf(Single(key, OneAnd(a)), key) == StreamOf(Single(key, OneAnd(b)), key)
  {
    EmptyStream(key);
    NullStream(key);
    PlaceholderIsRaw(NULL_PLACEHOLDER);
    LongWordStream(key, NULL_PLACEHOLDER);
    NumberStreams(key, number);
    OneAndStream(key, a);
    OneAndStream(key, b);
  }

  lemma NullStream(key: Bytes)
    requires RawString(key)
    ensures StreamOf(Single(key, Scalar(NULL_TEXT)), key) == Frame(key, NULL_PLACEHOLDER)
  {
    SingleStream(key, Scalar(NULL_TEXT), NULL_PLACEHOLDER);
  }

  lemma LongWordStream(key: Bytes, word: Bytes)
    requires RawString(key) && RawString(word) && |word| > |NULL_TEXT|
    ensures StreamOf(Single(key, Str(word)), key) == Frame(key, word)
  {
    SingleStream(key, Str(word), word);
  }

  lemma PlaceholderIsRaw(word: Bytes)
    requires word == NULL_PLACEHOLDER
    ensures RawString(word) && |word| > |NULL_TEXT|
  {
    PlainIsRaw(word);
  }

  lemma NumberStreams(key: Bytes, number: Bytes)
    requires RawString(key) && RawString(number) && ScalarText(number)
    ensures StreamOf(Single(key, Scalar(number)), key) == StreamOf(Single(key, Str(number)), key)
  {
    var text := HashedText(Some(Scalar(number)));
    SingleStream(key, Scalar(number), text);
    SingleStream(key, Str(number), text);
  }

  lemma OneAndStream(key: Bytes, digit: Byte)
    requires RawString(key) && ScalarByte(digit)
    ensures StreamOf(Single(key, OneAnd(digit)), key) == Frame(key, [LBRACKET, 0x31])
  {
    OneAndIsCut(digit);
    SingleStream(key, OneAnd(digit), [LBRACKET, 0x31]);
  }

  lemma {:induction false} PlainIsRaw(s: Bytes)
    requires forall k :: 0 <= k < |s| ==> s[k] != QUOTE && s[k] != BACKSLASH
    ensures RawString(s)
    decreases |s|
  {
    if s != [] { PlainIsRaw(s[1..]); }
  }

  lemma OneAndIsCut(digit: Byte)
    requires ScalarByte(digit)
    ensures Valid(OneAnd(digit)) && AnswerText(OneAnd(digit)) == [LBRACKET, 0x31]
  {
    assert ScalarByte(0x31);
    var one, other := Item([], Scalar([0x31]), []), Item([], Scalar([digit]), []);
    assert ValidItem(one) && ValidItem(other) && ValidItems(LastItem(other));
    assert PrintItem(one) == [0x31] && PrintItem(other) == [digit];
    assert PrintItems(LastItem(other)) == [digit];
    assert PrintItems(MoreItems(one, LastItem(other))) == [0x31] + [COMMA] + [digit];
    var p := Print(OneAnd(digit));
    assert p == [LBRACKET, 0x31, COMMA, digit, RBRACKET];
    assert p[1..] == [0x31, COMMA, digit, RBRACKET];
    assert p[1..][1..] == [COMMA, digit, RBRACKET];
    assert Cut(p[1..][1..]) == [] && Cut(p[1..]) == [0x31] && Cut(p) == [LBRACKET] + [0x31];
  }

  // ---------------------------------------------------------------------------
  // The hashes as they are computed

  method Fnv1aFeed(start: bv64, bytes: Bytes) returns (h: bv64)
    ensures h == Feed(start, bytes)
  {
    h := start;
    for i := 0 to |bytes|
      invariant Feed(h, bytes[i..]) == Feed(start, bytes)
    {
      assert bytes[i..][1..] == bytes[i + 1..];
      h := Xor(h, bytes[i]);
      h := Times(h);
    }
  }

  /** One more byte, as the framing bytes are fed. */
  method FeedByte(start: bv64, b: Byte) returns (h: bv64)
    ensures h == Feed(start, [b])
  {
    h := Xor(start, b);
    h := Times(h);
  }

  method HashTwo(a: Bytes, b: Bytes) returns (h: bv64)
    ensures h == Feed(INIT, Pair(a, b))
  {
    FeedAppend(INIT, a + [KEY_END], b);
    FeedAppend(INIT, a, [KEY_END]);
    h := Fnv1aFeed(INIT, a);
    h := FeedByte(h, KEY_END);
    h := Fnv1aFeed(h, b);
  }

  /** `fnv1a_hash_json_field`, and the lower half of the state that `hash_json` returns. */
  method HashJson(json: Bytes, key: Bytes) returns (out: Option<bv32>)
    ensures out == match JsonFind(json, key)
      case None => None
      case Some(slice) => Some(Low(Feed(INIT, Pair(key, Text(json, slice)))))
  {
    var found := JsonFindValue(json, key);
    if found.None? { return None; }
    var h := HashTwo(key, json[found.value.from..found.value.to]);
    return Some(Low(h));
  }

  function Low(h: bv64): bv32 { (h & 0xFFFF_FFFF) as bv32 }

  lemma FeedFrame(h: bv64, key: Bytes, value: Bytes)
    ensures Feed(h, Frame(key, value)) == Feed(Feed(Feed(Feed(h, key), [KEY_END]), value), [VALUE_END])
  {
    FeedAppend(h, key + [KEY_END] + value, [VALUE_END]);
    FeedAppend(h, key + [KEY_END], value);
    FeedAppend(h, key, [KEY_END]);
  }

  /** `fnv1a_hash_json_field_feed` */
  method FeedField(start: bv64, json: Bytes, key: Bytes) returns (h: bv64)
    ensures h == Feed(start, Frame(key, FieldValue(json, key)))
  {
    var found := JsonFindValue(json, key);
    var value := NULL_PLACEHOLDER;
    if found.Some? && json[found.value.from..found.value.to] != NULL_TEXT {
      value := json[found.value.from..found.value.to];
    }
    FeedFrame(start, key, value);
    h := Fnv1aFeed(start, key);
    h := FeedByte(h, KEY_END);
    h := Fnv1aFeed(h, value);
    h := FeedByte(h, VALUE_END);
  }

  lemma FieldsSnoc(json: Bytes, keys: seq<Bytes>, key: Bytes)
    ensures Fields(json, keys + [key]) == Fields(json, keys) + [Field(key, FieldValue(json, key))]
  {
  }

  /** The fold over a key list is one feed of the framed stream. */
  method FeedKeys(start: bv64, json: Bytes, keys: seq<Bytes>) returns (h: bv64)
    ensures h == Feed(start, Stream(Fields(json, keys)))
  {
    h := start;
    ghost var fields := Fields(json, keys);
    for i := 0 to |keys|
      invariant h == Feed(start, Stream(fields[..i]))
    {
      assert fields[..i + 1] == fields[..i] + [fields[i]];
      StreamSnoc(fields[..i], fields[i]);
      FeedAppend(start, Stream(fields[..i]), Frame(fields[i].key, fields[i].value));
      h := FeedField(h, json, keys[i]);
    }
    assert fields[..|keys|] == fields;
  }

  /** `hash_json_keys` for one row; 1 for an empty key list. */
  method HashJsonKeys(json: Bytes, keys: seq<Bytes>) returns (out: bv32)
    ensures out == if keys == [] then 1 else Low(Feed(INIT, Stream(Fields(json, keys))))
  {
    if |keys| == 0 { return 1; }
    var h := FeedKeys(INIT, json, keys);
    return Low(h);
  }

  /** The hashes of one row of the metric table: the target's match hash is the key-list hash of the
      parent keys and the target key. */
  method MetricHashes(json: Bytes, parents: seq<Bytes>, target: Bytes)
    returns (parentMatch: Option<bv32>, targetMatch: Option<bv32>, targetValue: Option<bv32>)
    ensures parentMatch == if parents == [] then None else Some(Low(Feed(INIT, Stream(Fields(json, parents)))))
    ensures targetMatch ==
      if target == [] then None else Some(Low(Feed(INIT, Stream(Fields(json, parents + [target])))))
    ensures targetValue ==
      if target == [] || JsonFind(json, target).None? then None
      else Some(Low(Feed(INIT, Pair(target, Text(json, JsonFind(json, target).value)))))
  {
    parentMatch, targetMatch, targetValue := None, None, None;
    if |parents| > 0 {
      var h := FeedKeys(INIT, json, parents);
      parentMatch := Some(Low(h));
    }
    if |target| > 0 {
      var h := FeedKeys(INIT, json, parents);
      FieldsSnoc(json, parents, target);
      StreamSnoc(Fields(json, parents), Field(target, FieldValue(json, target)));
      FeedAppend(INIT, Stream(Fields(json, parents)), Frame(target, FieldValue(json, target)));
      h := FeedField(h, json, target);
      targetMatch := Some(Low(h));
      targetValue := HashJson(json, target);
    }
  }
}
