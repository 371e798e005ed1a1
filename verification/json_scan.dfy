/** The JSON scanner of `hash_ext`: one depth counter and a few loops over bytes, against the
    recursive grammar of sections 2 to 7 of RFC 8259. */
module JsonScan {
  import opened Wrappers

  type Byte = bv8
  type Bytes = seq<Byte>

  const QUOTE: Byte := 0x22
  const BACKSLASH: Byte := 0x5C
  const COMMA: Byte := 0x2C
  const COLON: Byte := 0x3A
  const LBRACE: Byte := 0x7B
  const RBRACE: Byte := 0x7D
  const LBRACKET: Byte := 0x5B
  const RBRACKET: Byte := 0x5D

  predicate IsWs(b: Byte) { b == 0x20 || b == 0x09 || b == 0x0A || b == 0x0D }

  predicate Opens(b: Byte) { b == LBRACE || b == LBRACKET }

  predicate Closes(b: Byte) { b == RBRACE || b == RBRACKET }

  /** What ends a number or a literal. */
  predicate Delimits(b: Byte) { b == COMMA || Closes(b) || IsWs(b) }

  // ---------------------------------------------------------------------------
  // What the scanner computes

  function WsEnd(json: Bytes, i: nat): (r: nat)
    requires i <= |json|
    ensures i <= r <= |json| && (r < |json| ==> !IsWs(json[r]))
    decreases |json| - i
  {
    if i < |json| && IsWs(json[i]) then WsEnd(json, i + 1) else i
  }

  /** The index after the quote that ends a string; an escape may point past the end of the text. */
  function StringEnd(json: Bytes, i: nat): (r: Option<nat>)
    ensures r.Some? ==> i < r.value <= |json| && json[r.value - 1] == QUOTE
    decreases |json| - i
  {
    if i >= |json| then None
    else if json[i] == BACKSLASH then StringEnd(json, i + 2)
    else if json[i] == QUOTE then Some(i + 1)
    else StringEnd(json, i + 1)
  }

  /** The index after the bracket that closes the object or array at a depth. */
  function CloseEnd(json: Bytes, i: nat, depth: nat): (r: Option<nat>)
    requires depth > 0
    ensures r.Some? ==> i < r.value <= |json|
    decreases |json| - i
  {
    if i >= |json| then None
    else if json[i] == QUOTE then
      (match StringEnd(json, i + 1)
       case None => None
       case Some(end) => CloseEnd(json, end, depth))
    else if Opens(json[i]) then CloseEnd(json, i + 1, depth + 1)
    else if Closes(json[i]) then (if depth == 1 then Some(i + 1) else CloseEnd(json, i + 1, depth - 1))
    else CloseEnd(json, i + 1, depth)
  }

  function ScalarEnd(json: Bytes, i: nat): (r: nat)
    requires i <= |json|
    ensures i <= r <= |json| && (r < |json| ==> Delimits(json[r]))
    decreases |json| - i
  {
    if i < |json| && !Delimits(json[i]) then ScalarEnd(json, i + 1) else i
  }

  /** `skip_value`. */
  function ValueEnd(json: Bytes, i: nat): (r: Option<nat>)
    ensures r.Some? ==> i <= r.value <= |json|
  {
    if i >= |json| then None
    else if json[i] == QUOTE then StringEnd(json, i + 1)
    else if Opens(json[i]) then CloseEnd(json, i + 1, 1)
    else Some(ScalarEnd(json, i))
  }

  /** A part of the text. */
  datatype Slice = Slice(from: nat, to: nat)

  predicate Within(r: Option<Slice>, json: Bytes) { r.Some? ==> r.value.from <= r.value.to <= |json| }

  /** The value that was looked for: a string without its quotes, anything else up to the first
      delimiter. */
  function Found(json: Bytes, i: nat): (r: Option<Slice>)
    requires i < |json|
    ensures Within(r, json)
  {
    if json[i] == QUOTE then
      match StringEnd(json, i + 1)
      case None => None
      case Some(end) => Some(Slice(i + 1, end - 1))
    else Some(Slice(i, ScalarEnd(json, i)))
  }

  /** The index of the value after a key: past the colon and the white space around it. */
  function AfterColon(json: Bytes, i: nat): (r: Option<nat>)
    requires i <= |json|
    ensures r.Some? ==> i < r.value < |json|
  {
    var n := WsEnd(json, i);
    if n == |json| || json[n] != COLON then None
    else
      var m := WsEnd(json, n + 1);
      if m == |json| then None else Some(m)
  }

  /** The loop of `json_find_value`, inside the object. */
  function FindMember(json: Bytes, i: nat, key: Bytes): (r: Option<Slice>)
    requires i <= |json|
    ensures Within(r, json)
    decreases |json| - i
  {
    var n := WsEnd(json, i);
    if n == |json| || json[n] == RBRACE then None
    else if json[n] == COMMA then FindMember(json, n + 1, key)
    else if json[n] != QUOTE then None
    else match StringEnd(json, n + 1)
      case None => None
      case Some(end) =>
        match AfterColon(json, end)
        case None => None
        case Some(value) =>
          if json[n + 1..end - 1] == key then Found(json, value)
          else match ValueEnd(json, value)
            case None => None
            case Some(next) => FindMember(json, next, key)
  }

  function BraceAt(json: Bytes, i: nat): (r: Option<nat>)
    requires i <= |json|
    ensures r.Some? ==> i <= r.value < |json| && json[r.value] == LBRACE
    ensures forall k :: i <= k < (if r.Some? then r.value else |json|) ==> json[k] != LBRACE
    decreases |json| - i
  {
    if i == |json| then None else if json[i] == LBRACE then Some(i) else BraceAt(json, i + 1)
  }

  /** `json_find_value`. */
  function JsonFind(json: Bytes, key: Bytes): (r: Option<Slice>)
    ensures Within(r, json)
  {
    match BraceAt(json, 0)
    case None => None
    case Some(k) => FindMember(json, k + 1, key)
  }

  // ---------------------------------------------------------------------------
  // The scanner as it is

  method SkipWs(json: Bytes, start: nat) returns (i: nat)
    requires start <= |json|
    ensures i == WsEnd(json, start)
  {
    i := start;
    while i < |json| && IsWs(json[i])
      invariant start <= i <= |json| && WsEnd(json, i) == WsEnd(json, start)
    {
      i := i + 1;
    }
  }

  method SkipString(json: Bytes, start: nat) returns (r: Option<nat>)
    ensures r == StringEnd(json, start)
  {
    var i := start;
    while i < |json|
      invariant StringEnd(json, i) == StringEnd(json, start)
    {
      if json[i] == BACKSLASH {
        i := i + 2;
      } else if json[i] == QUOTE {
        return Some(i + 1);
      } else {
        i := i + 1;
      }
    }
    return None;
  }

  /** The loop over an object or array.  The depth, an `i32` in the source, is at most the number of
      bytes read, so it cannot overflow on texts of less than 2^31 bytes. */
  method SkipBrackets(json: Bytes, start: nat) returns (r: Option<nat>)
    ensures r == CloseEnd(json, start, 1)
  {
    var i, depth := start, 1;
    while i < |json|
      invariant start <= i && 1 <= depth <= i - start + 1
      invariant CloseEnd(json, i, depth) == CloseEnd(json, start, 1)
      decreases |json| - i
    {
      if json[i] == QUOTE {
        var end := SkipString(json, i + 1);
        if end.None? { return None; }
        i := end.value;
      } else if Opens(json[i]) {
        depth, i := depth + 1, i + 1;
      } else if Closes(json[i]) {
        if depth == 1 { return Some(i + 1); }
        depth, i := depth - 1, i + 1;
      } else {
        i := i + 1;
      }
    }
    return None;
  }

  method SkipScalar(json: Bytes, start: nat) returns (i: nat)
    requires start <= |json|
    ensures i == ScalarEnd(json, start)
  {
    i := start;
    while i < |json| && !Delimits(json[i])
      invariant start <= i <= |json| && ScalarEnd(json, i) == ScalarEnd(json, start)
    {
      i := i + 1;
    }
  }

  method SkipValue(json: Bytes, i: nat) returns (r: Option<nat>)
    ensures r == ValueEnd(json, i)
  {
    if i >= |json| { return None; }
    if json[i] == QUOTE {
      r := SkipString(json, i + 1);
    } else if Opens(json[i]) {
      r := SkipBrackets(json, i + 1);
    } else {
      var end := SkipScalar(json, i);
      r := Some(end);
    }
  }

  method SkipColon(json: Bytes, start: nat) returns (r: Option<nat>)
    requires start <= |json|
    ensures r == AfterColon(json, start)
  {
    var i := SkipWs(json, start);
    if i >= |json| || json[i] != COLON { return None; }
    i := SkipWs(json, i + 1);
    if i >= |json| { return None; }
    return Some(i);
  }

  method TakeValue(json: Bytes, i: nat) returns (r: Option<Slice>)
    requires i < |json|
    ensures r == Found(json, i)
  {
    if json[i] == QUOTE {
      var end := SkipString(json, i + 1);
      if end.None? { return None; }
      return Some(Slice(i + 1, end.value - 1));
    }
    var end := SkipScalar(json, i);
    return Some(Slice(i, end));
  }

  method JsonFindValue(json: Bytes, key: Bytes) returns (r: Option<Slice>)
    ensures r == JsonFind(json, key)
  {
    var i := 0;
    while i < |json| && json[i] != LBRACE
      invariant i <= |json| && BraceAt(json, i) == BraceAt(json, 0)
    {
      i := i + 1;
    }
    if i >= |json| { return None; }
    i := i + 1;
    while true
      invariant i <= |json| && FindMember(json, i, key) == JsonFind(json, key)
      decreases |json| - i
    {
      var done;
      done, r, i := ReadMember(json, i, key);
      if done { return; }
    }
  }

  /** One round of the loop: the answer, or where the next round starts. */
  method ReadMember(json: Bytes, start: nat, key: Bytes) returns (done: bool, r: Option<Slice>, i: nat)
    requires start <= |json|
    ensures done ==> r == FindMember(json, start, key)
    ensures !done ==> start < i <= |json| && FindMember(json, i, key) == FindMember(json, start, key)
  {
    done, r := true, None;
    i := SkipWs(json, start);
    if i >= |json| { return; }
    if json[i] == RBRACE { return; }
    if json[i] == COMMA { return false, None, i + 1; }
    if json[i] != QUOTE { return; }
    var end := SkipString(json, i + 1);
    if end.None? { return; }
    var value := SkipColon(json, end.value);
    if value.None? { return; }
    if json[i + 1..end.value - 1] == key {
      r := TakeValue(json, value.value);
      return;
    }
    var next := SkipValue(json, value.value);
    if next.None? { return; }
    return false, None, next.value;
  }
}
