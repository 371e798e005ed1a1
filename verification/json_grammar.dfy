/** JSON texts as the grammar of sections 2 to 7 of RFC 8259 builds them, and what the scanner makes
    of them, however they are nested and spaced. */
module JsonGrammar {
  import opened Wrappers
  import opened JsonScan

  /** A JSON text with its white space.  `raw` is a string as written, escapes and all; `text` is a
      number or one of the literals. */
  datatype Value =
    | Scalar(text: Bytes)
    | Str(raw: Bytes)
    | EmptyArr(space: Bytes)
    | Arr(items: Items)
    | EmptyObj(space: Bytes)
    | Obj(members: Members)

  datatype Items =
    | LastItem(item: Item)
    | MoreItems(item: Item, rest: Items)

  datatype Item = Item(before: Bytes, value: Value, after: Bytes)

  datatype Members =
    | LastMember(member: Member)
    | MoreMembers(member: Member, rest: Members)

  datatype Member = Member(before: Bytes, key: Bytes, afterKey: Bytes, item: Item)

  // ---------------------------------------------------------------------------
  // Well-formed texts

  predicate Space(s: Bytes) { forall k :: 0 <= k < |s| ==> IsWs(s[k]) }

  /** Section 7: no bare quote, and every backslash escapes the byte after it.  (The grammar restricts
      both further.) */
  predicate RawString(s: Bytes)
    decreases |s|
  {
    if s == [] then true
    else if s[0] == BACKSLASH then |s| >= 2 && RawString(s[2..])
    else s[0] != QUOTE && RawString(s[1..])
  }

  /** The bytes of numbers and literals, among others. */
  predicate ScalarByte(b: Byte) { !Delimits(b) && !Opens(b) && b != QUOTE }

  predicate ScalarText(s: Bytes) { s != [] && forall k :: 0 <= k < |s| ==> ScalarByte(s[k]) }

  predicate Valid(v: Value)
    decreases v, 0
  {
    match v
    case Scalar(text) => ScalarText(text)
    case Str(raw) => RawString(raw)
    case EmptyArr(space) => Space(space)
    case Arr(items) => ValidItems(items)
    case EmptyObj(space) => Space(space)
    case Obj(members) => ValidMembers(members)
  }

  predicate ValidItem(i: Item)
    decreases i, 1
  {
    Space(i.before) && Valid(i.value) && Space(i.after)
  }

  predicate ValidItems(items: Items)
    decreases items, 2
  {
    ValidItem(items.item) && (items.MoreItems? ==> ValidItems(items.rest))
  }

  predicate ValidMember(m: Member)
    decreases m, 2
  {
    Space(m.before) && RawString(m.key) && Space(m.afterKey) && ValidItem(m.item)
  }

  predicate ValidMembers(ms: Members)
    decreases ms, 3
  {
    ValidMember(ms.member) && (ms.MoreMembers? ==> ValidMembers(ms.rest))
  }

  // ---------------------------------------------------------------------------
  // Printing

  function Print(v: Value): (r: Bytes)
    ensures Valid(v) ==> r != []
    decreases v, 0
  {
    match v
    case Scalar(text) => text
    case Str(raw) => Quoted(raw)
    case EmptyArr(space) => [LBRACKET] + space + [RBRACKET]
    case Arr(items) => [LBRACKET] + PrintItems(items) + [RBRACKET]
    case EmptyObj(space) => [LBRACE] + space + [RBRACE]
    case Obj(members) => [LBRACE] + PrintMembers(members) + [RBRACE]
  }

  function Quoted(raw: Bytes): Bytes { [QUOTE] + raw + [QUOTE] }

  function PrintItem(i: Item): Bytes
    decreases i, 1
  {
    i.before + Print(i.value) + i.after
  }

  function PrintItems(items: Items): Bytes
    decreases items, 2
  {
    match items
    case LastItem(item) => PrintItem(item)
    case MoreItems(item, rest) => PrintItem(item) + [COMMA] + PrintItems(rest)
  }

  function PrintMember(m: Member): Bytes
    decreases m, 2
  {
    m.before + Quoted(m.key) + m.afterKey + [COLON] + PrintItem(m.item)
  }

  function PrintMembers(ms: Members): Bytes
    decreases ms, 3
  {
    match ms
    case LastMember(m) => PrintMember(m)
    case MoreMembers(m, rest) => PrintMember(m) + [COMMA] + PrintMembers(rest)
  }

  // ---------------------------------------------------------------------------
  // Texts at an index

  ghost predicate Has(json: Bytes, i: nat, p: Bytes) { i + |p| <= |json| && json[i..i + |p|] == p }

  lemma HasParts(json: Bytes, i: nat, p: Bytes, q: Bytes)
    requires Has(json, i, p + q)
    ensures Has(json, i, p) && Has(json, i + |p|, q)
  {
    assert (p + q)[..|p|] == p && (p + q)[|p|..] == q;
    assert json[i..i + |p + q|][..|p|] == json[i..i + |p|];
    assert json[i..i + |p + q|][|p|..] == json[i + |p|..i + |p| + |q|];
  }

  lemma HasByte(json: Bytes, i: nat, p: Bytes, k: nat)
    requires Has(json, i, p) && k < |p|
    ensures json[i + k] == p[k]
  {
    assert json[i..i + |p|][k] == p[k];
  }

  lemma HasTail(json: Bytes, i: nat, p: Bytes, k: nat)
    requires Has(json, i, p) && k <= |p|
    ensures Has(json, i + k, p[k..])
  {
    assert p == p[..k] + p[k..];
    HasParts(json, i, p[..k], p[k..]);
  }

  // ---------------------------------------------------------------------------
  // Strings, white space, scalars

  /** A string ends at its closing quote, whatever it escapes. */
  lemma {:induction false} StringIsRead(json: Bytes, i: nat, raw: Bytes)
    requires RawString(raw) && Has(json, i, raw + [QUOTE])
    ensures StringEnd(json, i) == Some(i + |raw| + 1)
    decreases |raw|
  {
    var p := raw + [QUOTE];
    HasByte(json, i, p, 0);
    if raw != [] {
      var k := if raw[0] == BACKSLASH then 2 else 1;
      HasTail(json, i, p, k);
      assert p[k..] == raw[k..] + [QUOTE];
      StringIsRead(json, i + k, raw[k..]);
    }
  }

  lemma QuotedIsRead(json: Bytes, i: nat, raw: Bytes)
    requires RawString(raw) && Has(json, i, Quoted(raw))
    ensures json[i] == QUOTE && StringEnd(json, i + 1) == Some(i + |Quoted(raw)|)
  {
    assert Quoted(raw) == [QUOTE] + (raw + [QUOTE]);
    HasParts(json, i, [QUOTE], raw + [QUOTE]);
    HasByte(json, i, Quoted(raw), 0);
    StringIsRead(json, i + 1, raw);
  }

  lemma {:induction false} SpaceIsSkipped(json: Bytes, i: nat, space: Bytes)
    requires Space(space) && Has(json, i, space)
    ensures WsEnd(json, i) == WsEnd(json, i + |space|)
    decreases |space|
  {
    if space != [] {
      HasByte(json, i, space, 0);
      HasTail(json, i, space, 1);
      SpaceIsSkipped(json, i + 1, space[1..]);
    }
  }

  lemma {:induction false} ScalarIsRead(json: Bytes, i: nat, text: Bytes)
    requires (forall k :: 0 <= k < |text| ==> ScalarByte(text[k])) && Has(json, i, text)
    requires i + |text| < |json| ==> Delimits(json[i + |text|])
    ensures ScalarEnd(json, i) == i + |text|
    decreases |text|
  {
    if text != [] {
      HasByte(json, i, text, 0);
      HasTail(json, i, text, 1);
      ScalarIsRead(json, i + 1, text[1..]);
    }
  }

  // ---------------------------------------------------------------------------
  // Inside an object or array

  /** The scanner passes over the text and is at the same depth again. */
  ghost predicate Passes(json: Bytes, i: nat, n: nat, depth: nat)
    requires depth > 0
  {
    CloseEnd(json, i, depth) == CloseEnd(json, i + n, depth)
  }

  /** Bytes that the scanner does not look at. */
  predicate Plain(b: Byte) { b != QUOTE && !Opens(b) && !Closes(b) }

  lemma {:induction false} PlainPasses(json: Bytes, i: nat, p: Bytes, depth: nat)
    requires (forall k :: 0 <= k < |p| ==> Plain(p[k])) && Has(json, i, p) && depth > 0
    ensures Passes(json, i, |p|, depth)
    decreases |p|
  {
    if p != [] {
      HasByte(json, i, p, 0);
      HasTail(json, i, p, 1);
      PlainPasses(json, i + 1, p[1..], depth);
    }
  }

  lemma QuotedPasses(json: Bytes, i: nat, raw: Bytes, depth: nat)
    requires RawString(raw) && Has(json, i, Quoted(raw)) && depth > 0
    ensures Passes(json, i, |Quoted(raw)|, depth)
  {
    QuotedIsRead(json, i, raw);
  }

  /** Brackets around a text that is passed over: the depth goes up by one and comes down again. */
  lemma BracketsPass(json: Bytes, i: nat, open: Byte, p: Bytes, close: Byte, depth: nat)
    requires Opens(open) && Closes(close) && Has(json, i, [open] + p + [close]) && depth > 0
    requires Has(json, i + 1, p) ==> Passes(json, i + 1, |p|, depth + 1)
    ensures Passes(json, i, |p| + 2, depth) && Has(json, i + 1, p) && json[i] == open && json[i + 1 + |p|] == close
  {
    var all := [open] + p + [close];
    HasByte(json, i, all, 0);
    HasByte(json, i, all, |p| + 1);
    assert all == [open] + (p + [close]);
    HasParts(json, i, [open], p + [close]);
    HasParts(json, i + 1, p, [close]);
  }

  lemma {:induction false} ValuePasses(json: Bytes, i: nat, v: Value, depth: nat)
    requires Valid(v) && Has(json, i, Print(v)) && depth > 0
    ensures Passes(json, i, |Print(v)|, depth)
    decreases v, 0
  {
    match v
    case Scalar(text) => PlainPasses(json, i, text, depth);
    case Str(raw) => QuotedPasses(json, i, raw, depth);
    case EmptyArr(space) =>
      if Has(json, i + 1, space) { PlainPasses(json, i + 1, space, depth + 1); }
      BracketsPass(json, i, LBRACKET, space, RBRACKET, depth);
    case Arr(items) =>
      if Has(json, i + 1, PrintItems(items)) { ItemsPass(json, i + 1, items, depth + 1); }
      BracketsPass(json, i, LBRACKET, PrintItems(items), RBRACKET, depth);
    case EmptyObj(space) =>
      if Has(json, i + 1, space) { PlainPasses(json, i + 1, space, depth + 1); }
      BracketsPass(json, i, LBRACE, space, RBRACE, depth);
    case Obj(members) =>
      if Has(json, i + 1, PrintMembers(members)) { MembersPass(json, i + 1, members, depth + 1); }
      BracketsPass(json, i, LBRACE, PrintMembers(members), RBRACE, depth);
  }

  lemma {:induction false} ItemPasses(json: Bytes, i: nat, item: Item, depth: nat)
    requires ValidItem(item) && Has(json, i, PrintItem(item)) && depth > 0
    ensures Passes(json, i, |PrintItem(item)|, depth)
    decreases item, 1
  {
    ItemParts(json, i, item);
    PlainPasses(json, i, item.before, depth);
    ValuePasses(json, i + |item.before|, item.value, depth);
    PlainPasses(json, i + |item.before| + |Print(item.value)|, item.after, depth);
  }

  lemma {:induction false} ItemsPass(json: Bytes, i: nat, items: Items, depth: nat)
    requires ValidItems(items) && Has(json, i, PrintItems(items)) && depth > 0
    ensures Passes(json, i, |PrintItems(items)|, depth)
    decreases items, 2
  {
    match items
    case LastItem(item) => ItemPasses(json, i, item, depth);
    case MoreItems(item, rest) =>
      HasParts(json, i, PrintItem(item) + [COMMA], PrintItems(rest));
      HasParts(json, i, PrintItem(item), [COMMA]);
      ItemPasses(json, i, item, depth);
      PlainPasses(json, i + |PrintItem(item)|, [COMMA], depth);
      ItemsPass(json, i + |PrintItem(item)| + 1, rest, depth);
  }

  lemma {:induction false} MemberPasses(json: Bytes, i: nat, m: Member, depth: nat)
    requires ValidMember(m) && Has(json, i, PrintMember(m)) && depth > 0
    ensures Passes(json, i, |PrintMember(m)|, depth)
    decreases m, 2
  {
    var k, end, at := MemberParts(json, i, m);
    PlainPasses(json, i, m.before, depth);
    QuotedPasses(json, k, m.key, depth);
    PlainPasses(json, end, m.afterKey, depth);
    PlainPasses(json, end + |m.afterKey|, [COLON], depth);
    ItemPasses(json, at, m.item, depth);
  }

  lemma {:induction false} MembersPass(json: Bytes, i: nat, ms: Members, depth: nat)
    requires ValidMembers(ms) && Has(json, i, PrintMembers(ms)) && depth > 0
    ensures Passes(json, i, |PrintMembers(ms)|, depth)
    decreases ms, 3
  {
    match ms
    case LastMember(m) => MemberPasses(json, i, m, depth);
    case MoreMembers(m, rest) =>
      HasParts(json, i, PrintMember(m) + [COMMA], PrintMembers(rest));
      HasParts(json, i, PrintMember(m), [COMMA]);
      MemberPasses(json, i, m, depth);
      PlainPasses(json, i + |PrintMember(m)|, [COMMA], depth);
      MembersPass(json, i + |PrintMember(m)| + 1, rest, depth);
  }

  /** Where the parts of a printed member lie: the key at `k`, what follows it at `end`, the value and
      its white space at `at`. */
  ghost predicate Laid(json: Bytes, i: nat, m: Member, k: nat, end: nat, at: nat) {
    && Has(json, i, m.before) && k == i + |m.before|
    && Has(json, k, Quoted(m.key)) && end == k + |Quoted(m.key)|
    && Has(json, end, m.afterKey) && Has(json, end + |m.afterKey|, [COLON]) && at == end + |m.afterKey| + 1
    && Has(json, at, PrintItem(m.item))
  }

  lemma MemberParts(json: Bytes, i: nat, m: Member) returns (k: nat, end: nat, at: nat)
    requires Has(json, i, PrintMember(m))
    ensures Laid(json, i, m, k, end, at) && i + |PrintMember(m)| == at + |PrintItem(m.item)|
  {
    HasParts(json, i, m.before + Quoted(m.key) + m.afterKey + [COLON], PrintItem(m.item));
    HasParts(json, i, m.before + Quoted(m.key) + m.afterKey, [COLON]);
    HasParts(json, i, m.before + Quoted(m.key), m.afterKey);
    HasParts(json, i, m.before, Quoted(m.key));
    k := i + |m.before|;
    end := k + |Quoted(m.key)|;
    at := end + |m.afterKey| + 1;
  }

  // ---------------------------------------------------------------------------
  // skip_value

  lemma BracketsEnd(json: Bytes, i: nat, open: Byte, p: Bytes, close: Byte)
    requires Opens(open) && Closes(close) && Has(json, i, [open] + p + [close])
    requires Has(json, i + 1, p) ==> Passes(json, i + 1, |p|, 1)
    ensures ValueEnd(json, i) == Some(i + |p| + 2)
  {
    var all := [open] + p + [close];
    HasByte(json, i, all, 0);
    HasByte(json, i, all, |p| + 1);
    assert all == [open] + (p + [close]);
    HasParts(json, i, [open], p + [close]);
    HasParts(json, i + 1, p, [close]);
  }

  lemma ContainerIsSkipped(json: Bytes, i: nat, v: Value)
    requires Valid(v) && Has(json, i, Print(v)) && !v.Scalar? && !v.Str?
    ensures ValueEnd(json, i) == Some(i + |Print(v)|)
  {
    match v
    case EmptyArr(space) =>
      if Has(json, i + 1, space) { PlainPasses(json, i + 1, space, 1); }
      BracketsEnd(json, i, LBRACKET, space, RBRACKET);
    case Arr(items) =>
      if Has(json, i + 1, PrintItems(items)) { ItemsPass(json, i + 1, items, 1); }
      BracketsEnd(json, i, LBRACKET, PrintItems(items), RBRACKET);
    case EmptyObj(space) =>
      if Has(json, i + 1, space) { PlainPasses(json, i + 1, space, 1); }
      BracketsEnd(json, i, LBRACE, space, RBRACE);
    case Obj(members) =>
      if Has(json, i + 1, PrintMembers(members)) { MembersPass(json, i + 1, members, 1); }
      BracketsEnd(json, i, LBRACE, PrintMembers(members), RBRACE);
  }

  /** `skip_value` stops exactly at the end of any value, at any nesting, whatever its strings hold;
      a number or literal must be followed by a delimiter or by the end of the text. */
  lemma ValueIsSkipped(json: Bytes, i: nat, v: Value)
    requires Valid(v) && Has(json, i, Print(v))
    requires v.Scalar? && i + |Print(v)| < |json| ==> Delimits(json[i + |Print(v)|])
    ensures ValueEnd(json, i) == Some(i + |Print(v)|)
  {
    if v.Scalar? {
      HasByte(json, i, v.text, 0);
      ScalarIsRead(json, i, v.text);
    } else if v.Str? {
      QuotedIsRead(json, i, v.raw);
    } else {
      ContainerIsSkipped(json, i, v);
    }
  }

  // ---------------------------------------------------------------------------
  // json_find_value

  /** No value begins with white space. */
  lemma PrintBegins(json: Bytes, i: nat, v: Value)
    requires Valid(v) && Has(json, i, Print(v))
    ensures i < |json| && !IsWs(json[i])
    ensures v.Str? <==> json[i] == QUOTE
  {
    HasByte(json, i, Print(v), 0);
  }

  /** A printed member value, with what follows it. */
  ghost predicate ItemHere(json: Bytes, i: nat, item: Item) {
    && ValidItem(item) && Has(json, i, PrintItem(item))
    && i + |PrintItem(item)| < |json|
    && (json[i + |PrintItem(item)|] == COMMA || json[i + |PrintItem(item)|] == RBRACE)
  }

  lemma SpaceThen(json: Bytes, i: nat, space: Bytes)
    requires Space(space) && Has(json, i, space) && i + |space| < |json| && !IsWs(json[i + |space|])
    ensures WsEnd(json, i) == i + |space|
  {
    SpaceIsSkipped(json, i, space);
  }

  lemma ItemRead(json: Bytes, i: nat, item: Item, at: nat, end: nat)
    requires ItemHere(json, i, item) && at == i + |item.before| && end == at + |Print(item.value)|
    ensures WsEnd(json, i) == at < |json| && Has(json, at, Print(item.value))
    ensures end < |json| && Delimits(json[end]) && ValueEnd(json, at) == Some(end)
    ensures WsEnd(json, end) == i + |PrintItem(item)|
  {
    ItemBounds(json, i, item, at, end);
    ValueIsSkipped(json, at, item.value);
  }

  lemma ItemBounds(json: Bytes, i: nat, item: Item, at: nat, end: nat)
    requires ItemHere(json, i, item) && at == i + |item.before| && end == at + |Print(item.value)|
    ensures WsEnd(json, i) == at < |json| && Has(json, at, Print(item.value))
    ensures end < |json| && Delimits(json[end]) && WsEnd(json, end) == i + |PrintItem(item)|
  {
    var space := item.after;
    ItemParts(json, i, item);
    ItemBegins(json, i, item, at);
    AfterItem(json, end, space);
  }

  lemma ItemBegins(json: Bytes, i: nat, item: Item, at: nat)
    requires ValidItem(item) && at == i + |item.before| && Has(json, i, item.before) && Has(json, at, Print(item.value))
    ensures WsEnd(json, i) == at < |json|
  {
    PrintBegins(json, at, item.value);
    SpaceThen(json, i, item.before);
  }

  lemma ItemParts(json: Bytes, i: nat, item: Item)
    requires Has(json, i, PrintItem(item))
    ensures Has(json, i, item.before) && Has(json, i + |item.before|, Print(item.value))
    ensures Has(json, i + |item.before| + |Print(item.value)|, item.after)
    ensures |PrintItem(item)| == |item.before| + |Print(item.value)| + |item.after|
  {
    HasParts(json, i, item.before + Print(item.value), item.after);
    HasParts(json, i, item.before, Print(item.value));
  }

  lemma AfterItem(json: Bytes, i: nat, space: Bytes)
    requires Space(space) && Has(json, i, space) && i + |space| < |json|
    requires json[i + |space|] == COMMA || json[i + |space|] == RBRACE
    ensures i < |json| && Delimits(json[i]) && WsEnd(json, i) == i + |space|
  {
    SpaceThen(json, i, space);
    if space != [] {
      HasByte(json, i, space, 0);
    }
  }

  lemma ColonRead(json: Bytes, i: nat, space: Bytes, at: nat)
    requires Space(space) && Has(json, i, space) && Has(json, i + |space|, [COLON])
    requires WsEnd(json, i + |space| + 1) == at < |json|
    ensures AfterColon(json, i) == Some(at)
  {
    HasByte(json, i + |space|, [COLON], 0);
    SpaceThen(json, i, space);
  }

  /** A key is read. */
  lemma KeyBegins(json: Bytes, i: nat, before: Bytes, k: nat, key: Bytes, end: nat)
    requires Space(before) && Has(json, i, before) && k == i + |before|
    requires RawString(key) && Has(json, k, Quoted(key)) && end == k + |Quoted(key)|
    ensures WsEnd(json, i) == k < |json| && json[k] == QUOTE && StringEnd(json, k + 1) == Some(end)
    ensures json[k + 1..end - 1] == key
  {
    QuotedIsRead(json, k, key);
    KeyRead(json, k, key);
    SpaceThen(json, i, before);
  }

  /** One member, by its places in the text. */
  lemma {:induction false} RoundRead(json: Bytes, i: nat, n: nat, end: nat, at: nat, next: nat, key: Bytes)
    requires i <= |json| && WsEnd(json, i) == n < |json| && json[n] == QUOTE
    requires StringEnd(json, n + 1) == Some(end) && AfterColon(json, end) == Some(at)
      && ValueEnd(json, at) == Some(next)
    ensures FindMember(json, i, key) ==
      if json[n + 1..end - 1] == key then Found(json, at) else FindMember(json, next, key)
  {
  }

  /** One member: its value is found or skipped. */
  lemma MemberRead(json: Bytes, i: nat, m: Member, k: nat, end: nat, at: nat, value: nat,
                                      next: nat, key: Bytes)
    requires ValidMember(m) && Laid(json, i, m, k, end, at)
    requires WsEnd(json, at) == value < |json| && ValueEnd(json, value) == Some(next)
    ensures next <= |json|
    ensures FindMember(json, i, key) == if m.key == key then Found(json, value) else FindMember(json, next, key)
  {
    KeyBegins(json, i, m.before, k, m.key, end);
    ColonRead(json, end, m.afterKey, value);
    RoundRead(json, i, k, end, value, next, key);
  }

  lemma KeyRead(json: Bytes, i: nat, raw: Bytes)
    requires Has(json, i, Quoted(raw))
    ensures json[i + 1..i + |Quoted(raw)| - 1] == raw
  {
    assert Quoted(raw) == [QUOTE] + (raw + [QUOTE]);
    HasParts(json, i, [QUOTE], raw + [QUOTE]);
    HasParts(json, i + 1, raw, [QUOTE]);
  }

  /** The value of the first member with a key, keys compared as written. */
  function Lookup(ms: Members, key: Bytes): Option<Value>
    decreases ms
  {
    if ms.member.key == key then Some(ms.member.item.value)
    else if ms.MoreMembers? then Lookup(ms.rest, key)
    else None
  }

  function MemberOf(v: Value, key: Bytes): Option<Value> { if v.Obj? then Lookup(v.members, key) else None }

  /** A text up to its first delimiter. */
  function Cut(s: Bytes): Bytes { if s == [] || Delimits(s[0]) then [] else [s[0]] + Cut(s[1..]) }

  lemma {:induction false} CutMeans(s: Bytes)
    ensures |Cut(s)| <= |s| && Cut(s) == s[..|Cut(s)|]
    ensures forall k :: 0 <= k < |Cut(s)| ==> !Delimits(s[k])
    ensures |Cut(s)| < |s| ==> Delimits(s[|Cut(s)|])
  {
    if s != [] && !Delimits(s[0]) {
      CutMeans(s[1..]);
    }
  }

  /** What the caller gets for a value: the text of a string between its quotes, the text of a number
      or literal; an object or array is cut off at the first delimiter after its opening bracket. */
  function AnswerText(v: Value): Bytes {
    match v
    case Str(raw) => raw
    case Scalar(text) => text
    case _ => Cut(Print(v))
  }

  /** The text that is printed for an object or array is never the answer, only a beginning of it. */
  lemma ContainerIsCutOff(v: Value)
    requires !v.Str? && !v.Scalar?
    ensures var k := |AnswerText(v)|;
      && 0 < k < |Print(v)| && AnswerText(v) == Print(v)[..k]
      && Delimits(Print(v)[k]) && forall j :: 0 <= j < k ==> !Delimits(Print(v)[j])
  {
    CutMeans(Print(v));
    assert Closes(Print(v)[|Print(v)| - 1]) && Opens(Print(v)[0]);
  }

  ghost predicate Answers(json: Bytes, r: Option<Slice>, v: Value) {
    r.Some? && r.value.from <= r.value.to <= |json| && json[r.value.from..r.value.to] == AnswerText(v)
  }

  /** A text that ends in a delimiter is read up to its first one. */
  lemma {:induction false} CutIsRead(json: Bytes, i: nat, p: Bytes)
    requires Has(json, i, p) && p != [] && Delimits(p[|p| - 1])
    ensures ScalarEnd(json, i) == i + |Cut(p)| <= |json| && json[i..i + |Cut(p)|] == Cut(p)
    decreases |p|
  {
    HasByte(json, i, p, 0);
    if !Delimits(p[0]) {
      HasTail(json, i, p, 1);
      CutIsRead(json, i + 1, p[1..]);
    }
  }

  lemma ContainerIsRead(json: Bytes, i: nat, v: Value)
    requires Valid(v) && Has(json, i, Print(v)) && !v.Str? && !v.Scalar?
    ensures ScalarEnd(json, i) <= |json| && json[i..ScalarEnd(json, i)] == AnswerText(v)
  {
    var p := Print(v);
    assert Delimits(p[|p| - 1]);
    CutIsRead(json, i, p);
  }

  lemma FoundAnswers(json: Bytes, i: nat, v: Value)
    requires Valid(v) && Has(json, i, Print(v)) && i < |json|
    requires v.Scalar? ==> i + |Print(v)| < |json| && Delimits(json[i + |Print(v)|])
    ensures Answers(json, Found(json, i), v)
  {
    PrintBegins(json, i, v);
    match v
    case Str(raw) =>
      QuotedIsRead(json, i, raw);
      KeyRead(json, i, raw);
    case Scalar(text) => ScalarIsRead(json, i, text);
    case _ => ContainerIsRead(json, i, v);
  }

  /** The outcome of looking a value up. */
  ghost predicate Outcome(json: Bytes, r: Option<Slice>, v: Option<Value>) {
    forall k {:trigger UnfoldOutcome(r, k)} :: UnfoldOutcome(r, k) ==>
      if v.None? then r == None else Answers(json, r, v.value)
  }

  /** A key to `Outcome`. */
  ghost predicate UnfoldOutcome(r: Option<Slice>, k: int) { true }

  /** A member either answers the search or is passed over. */
  lemma OneMember(json: Bytes, i: nat, m: Member, stop: nat, key: Bytes) returns (next: nat)
    requires ValidMember(m) && Has(json, i, PrintMember(m)) && stop == i + |PrintMember(m)| < |json|
    requires json[stop] == COMMA || json[stop] == RBRACE
    ensures m.key == key ==> Answers(json, FindMember(json, i, key), m.item.value)
    ensures next <= |json| && WsEnd(json, next) == stop
    ensures m.key != key ==> FindMember(json, i, key) == FindMember(json, next, key)
  {
    var k, end, at := MemberParts(json, i, m);
    var value := at + |m.item.before|;
    next := value + |Print(m.item.value)|;
    ItemRead(json, at, m.item, value, next);
    MemberRead(json, i, m, k, end, at, value, next, key);
    if m.key == key {
      FoundAnswers(json, value, m.item.value);
    }
  }

  lemma {:induction false} MembersRead(json: Bytes, i: nat, ms: Members, key: Bytes)
    requires ValidMembers(ms) && Has(json, i, PrintMembers(ms) + [RBRACE])
    ensures Outcome(json, FindMember(json, i, key), Lookup(ms, key))
    decreases ms
  {
    var stop := i + |PrintMember(ms.member)|;
    MembersSplit(json, i, ms);
    var next := OneMember(json, i, ms.member, stop, key);
    if ms.member.key != key {
      if ms.MoreMembers? {
        NextMember(json, next, stop, key);
        MembersRead(json, stop + 1, ms.rest, key);
      } else {
        LastMemberRead(json, next, key);
      }
    }
  }

  lemma NextMember(json: Bytes, i: nat, comma: nat, key: Bytes)
    requires i <= |json| && WsEnd(json, i) == comma < |json| && json[comma] == COMMA
    ensures FindMember(json, i, key) == FindMember(json, comma + 1, key)
  {
  }

  lemma LastMemberRead(json: Bytes, i: nat, key: Bytes)
    requires i <= |json| && WsEnd(json, i) < |json| && json[WsEnd(json, i)] == RBRACE
    ensures FindMember(json, i, key) == None
  {
  }

  /** The first member of a list, and what comes after it. */
  lemma MembersSplit(json: Bytes, i: nat, ms: Members)
    requires Has(json, i, PrintMembers(ms) + [RBRACE])
    ensures Has(json, i, PrintMember(ms.member)) && i + |PrintMember(ms.member)| < |json|
    ensures json[i + |PrintMember(ms.member)|] == if ms.MoreMembers? then COMMA else RBRACE
    ensures ms.MoreMembers? ==> Has(json, i + |PrintMember(ms.member)| + 1, PrintMembers(ms.rest) + [RBRACE])
  {
    var m := ms.member;
    var rest := if ms.MoreMembers? then [COMMA] + (PrintMembers(ms.rest) + [RBRACE]) else [RBRACE];
    assert PrintMembers(ms) + [RBRACE] == PrintMember(m) + rest;
    HasParts(json, i, PrintMember(m), rest);
    HasByte(json, i + |PrintMember(m)|, rest, 0);
    if ms.MoreMembers? {
      HasParts(json, i + |PrintMember(m)|, [COMMA], PrintMembers(ms.rest) + [RBRACE]);
    }
  }

  lemma HasMiddle(before: Bytes, p: Bytes, after: Bytes)
    ensures Has(before + p + after, |before|, p)
    ensures forall j :: 0 <= j < |before| ==> (before + p + after)[j] == before[j]
  {
  }

  lemma BraceIsFirst(json: Bytes, k: nat)
    requires k < |json| && json[k] == LBRACE && forall j :: 0 <= j < k ==> json[j] != LBRACE
    ensures BraceAt(json, 0) == Some(k)
  {
  }

  /** `json_find_value` on any object, in whatever surroundings and with any white space: the first
      member whose key is written like the argument, or nothing if there is none. */
  lemma ObjectIsSearched(json: Bytes, before: Bytes, v: Value, after: Bytes, key: Bytes)
    requires json == before + Print(v) + after && LBRACE !in before && Valid(v) && (v.Obj? || v.EmptyObj?)
    ensures Outcome(json, JsonFind(json, key), MemberOf(v, key))
  {
    var k := |before|;
    HasMiddle(before, Print(v), after);
    HasByte(json, k, Print(v), 0);
    BraceIsFirst(json, k);
    if v.Obj? {
      InBraces(json, k, v.members);
      MembersRead(json, k + 1, v.members, key);
    } else {
      EmptyIsSearched(json, k, v.space, key);
    }
  }

  lemma InBraces(json: Bytes, k: nat, members: Members)
    requires Has(json, k, [LBRACE] + PrintMembers(members) + [RBRACE])
    ensures Has(json, k + 1, PrintMembers(members) + [RBRACE])
  {
    assert [LBRACE] + PrintMembers(members) + [RBRACE] == [LBRACE] + (PrintMembers(members) + [RBRACE]);
    HasParts(json, k, [LBRACE], PrintMembers(members) + [RBRACE]);
  }

  lemma EmptyIsSearched(json: Bytes, k: nat, space: Bytes, key: Bytes)
    requires Space(space) && Has(json, k, [LBRACE] + space + [RBRACE])
    ensures FindMember(json, k + 1, key) == None
  {
    HasParts(json, k, [LBRACE] + space, [RBRACE]);
    HasParts(json, k, [LBRACE], space);
    HasByte(json, k + 1 + |space|, [RBRACE], 0);
    SpaceThen(json, k + 1, space);
  }
}
