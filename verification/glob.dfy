/** Globs to regular expressions: the text that the compiler emits, how it parses under section 15.10
    of ECMA-262 (3rd edition), and what it then matches. */
module Glob {

  datatype Options = Options(extended: bool, globStar: bool, caseInsensitive: bool, global: bool)

  // ---------------------------------------------------------------------------
  // The emitted text

  /** Characters that are always escaped. */
  predicate Escaped(c: char) {
    c in ['/', '$', '^', '+', '.', '(', ')', '=', '!', '|']
  }

  /** The index after a run of stars. */
  function EndOfStars(p: string, i: nat): (j: nat)
    requires i <= |p|
    ensures i <= j <= |p| && (j < |p| ==> p[j] != '*') && (forall k :: i <= k < j ==> p[k] == '*')
    decreases |p| - i
  {
    if i < |p| && p[i] == '*' then EndOfStars(p, i + 1) else i
  }

  const GLOB_STAR := "((?:[^/]*(?:\\/|$))*)"
  const SEGMENT := "([^/]*)"

  /** What one character other than a star emits, and whether a group is open after it. */
  function EmitChar(c: char, inGroup: bool, o: Options): (string, bool) {
    if Escaped(c) then (['\\', c], inGroup)
    else if c == '?' then (if o.extended then "." else "\\?", inGroup)
    else if c == '[' || c == ']' then (if o.extended then [c] else ['\\', c], inGroup)
    else if c == '{' then (if o.extended then ("(", true) else ("\\{", inGroup))
    else if c == '}' then (if o.extended then (")", false) else ("\\}", inGroup))
    else if c == ',' then (if inGroup then "|" else "\\,", inGroup)
    else ([c], inGroup)
  }

  /** What a run of stars from `i` emits, and where the scan goes on. */
  function EmitStars(p: string, i: nat, o: Options): (r: (string, nat))
    requires i < |p| && p[i] == '*'
    ensures r.1 > i
  {
    var j := EndOfStars(p, i + 1);
    if !o.globStar then (".*", j)
    else if j - i > 1 && (i == 0 || p[i - 1] == '/') && (j == |p| || p[j] == '/') then (GLOB_STAR, j + 1)
    else (SEGMENT, j)
  }

  function Emit(p: string, i: nat, inGroup: bool, o: Options): string
    decreases |p| - i
  {
    if i >= |p| then ""
    else if p[i] == '*' then
      var (text, j) := EmitStars(p, i, o);
      text + Emit(p, j, inGroup, o)
    else
      var (text, open) := EmitChar(p[i], inGroup, o);
      text + Emit(p, i + 1, open, o)
  }

  function Compile(p: string, o: Options): string {
    (if o.global then ".*" else "^") + Emit(p, 0, false, o) + (if o.global then ".*" else "$")
  }

  /** The inner loop: moves over all consecutive stars. */
  method SkipStars(pattern: string, start: nat) returns (i: nat, starCount: nat)
    requires start < |pattern| && pattern[start] == '*'
    ensures start <= i < |pattern| && starCount == i - start + 1 && i + 1 == EndOfStars(pattern, start + 1)
  {
    i, starCount := start, 1;
    while i + 1 < |pattern| && pattern[i + 1] == '*'
      invariant start <= i < |pattern| && starCount == i - start + 1
      invariant EndOfStars(pattern, i + 1) == EndOfStars(pattern, start + 1)
    {
      starCount := starCount + 1;
      i := i + 1;
    }
  }

  /** The case of a star. */
  method StarText(pattern: string, start: nat, options: Options) returns (text: string, i: nat)
    requires start < |pattern| && pattern[start] == '*'
    ensures (text, i + 1) == EmitStars(pattern, start, options)
  {
    var prev := if start == 0 then '/' else pattern[start - 1];
    var starCount;
    i, starCount := SkipStars(pattern, start);
    var next := if i + 1 < |pattern| then pattern[i + 1] else '/';
    if !options.globStar {
      text := ".*";
    } else if starCount > 1 && prev == '/' && next == '/' {
      text := GLOB_STAR;
      i := i + 1;
    } else {
      text := SEGMENT;
    }
  }

  lemma Joined(a: string, b: string, c: string)
    ensures a + (b + c) == a + b + c
  {
  }

  /** `glob_to_regex`, up to the construction of the `std::regex`. */
  method GlobToRegex(pattern: string, options: Options) returns (exp: string)
    ensures exp == Compile(pattern, options)
  {
    exp := if options.global then ".*" else "^";
    ghost var head := exp;
    var inGroup, i := false, 0;
    while i < |pattern|
      invariant exp + Emit(pattern, i, inGroup, options) == head + Emit(pattern, 0, false, options)
      decreases |pattern| - i
    {
      var text;
      ghost var start, was := i, inGroup;
      if pattern[i] == '*' {
        text, i := StarText(pattern, i, options);
      } else {
        var (emitted, open) := EmitChar(pattern[i], inGroup, options);
        text, inGroup := emitted, open;
      }
      i := i + 1;
      assert Emit(pattern, start, was, options) == text + Emit(pattern, i, inGroup, options);
      Joined(exp, text, Emit(pattern, i, inGroup, options));
      exp := exp + text;
    }
    assert exp + "" == exp;
    exp := exp + (if options.global then ".*" else "$");
  }
}
