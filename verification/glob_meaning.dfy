/** The glob compiler preserves meaning: the emitted text is a regular expression, and it matches a
    name exactly if the glob does. */
module GlobMeaning {
  import opened Wrappers
  import opened Glob
  import opened Regex

  // ---------------------------------------------------------------------------
  // What a glob means

  /** Glob text from `i` to `e` of `p` matches `s` from `a` to `b`: a star is any stretch of a line, in
      extended mode a question mark is any character of a line, everything else is itself. */
  ghost predicate GlobMatches(p: string, i: nat, e: nat, extended: bool, s: string, a: nat, b: nat)
    requires i <= e <= |p| && a <= b <= |s|
    decreases e - i
  {
    if i == e then a == b
    else if p[i] == '*' then
      exists k :: a <= k <= b && NoLineTerminator(s, a, k) && GlobMatches(p, i + 1, e, extended, s, k, b)
    else
      && a < b
      && (if p[i] == '?' && extended then !LineTerminator(s[a]) else s[a] == p[i])
      && GlobMatches(p, i + 1, e, extended, s, a + 1, b)
  }

  /** A run of stars acts as one. */
  lemma {:induction false} StarsAreOne(p: string, i: nat, j: nat, e: nat, extended: bool, s: string, a: nat, b: nat)
    requires i < j <= e <= |p| && a <= b <= |s| && forall k :: i <= k < j ==> p[k] == '*'
    ensures GlobMatches(p, i, e, extended, s, a, b) <==>
      exists k :: a <= k <= b && NoLineTerminator(s, a, k) && GlobMatches(p, j, e, extended, s, k, b)
    decreases j - i
  {
    if i + 1 < j {
      if GlobMatches(p, i, e, extended, s, a, b) {
        var k :| a <= k <= b && NoLineTerminator(s, a, k) && GlobMatches(p, i + 1, e, extended, s, k, b);
        StarsAreOne(p, i + 1, j, e, extended, s, k, b);
        var m :| k <= m <= b && NoLineTerminator(s, k, m) && GlobMatches(p, j, e, extended, s, m, b);
        assert NoLineTerminator(s, a, m);
      }
      if k :| a <= k <= b && NoLineTerminator(s, a, k) && GlobMatches(p, j, e, extended, s, k, b) {
        StarsAreOne(p, i + 1, j, e, extended, s, k, b);
        assert NoLineTerminator(s, k, k);
        assert GlobMatches(p, i + 1, e, extended, s, k, b);
      }
    }
  }

  // ---------------------------------------------------------------------------
  // The terms of a stretch of glob text

  /** Characters of a stretch of text: no backslash and, in extended mode, no brackets and braces;
      inside a group no comma either. */
  predicate TextChar(c: char, extended: bool, inGroup: bool) {
    c != '\\' && (extended ==> c !in ['[', ']', '{', '}']) && (inGroup ==> c != ',')
  }

  predicate Text(p: string, i: nat, e: nat, extended: bool, inGroup: bool)
    requires i <= e <= |p|
  {
    && (forall k :: i <= k < e ==> TextChar(p[k], extended, inGroup))
    && (e < |p| ==> p[e] != '*')
  }

  function TermOf(c: char, extended: bool): Term { if c == '?' && extended then One(Dot) else One(Chr(c)) }

  /** The terms for the text from `i` to `e`, and more. */
  function TermsOf(p: string, i: nat, e: nat, extended: bool, more: Terms): Terms
    requires i <= e <= |p| && (e < |p| ==> p[e] != '*')
    decreases e - i
  {
    if i == e then more
    else if p[i] == '*' then
      var j := EndOfStars(p, i + 1);
      if j <= e then Cons(Many(Dot), TermsOf(p, j, e, extended, more)) else more
    else Cons(TermOf(p[i], extended), TermsOf(p, i + 1, e, extended, more))
  }

  lemma StarsEnd(p: string, i: nat, e: nat)
    requires i < e <= |p| && (e < |p| ==> p[e] != '*')
    ensures EndOfStars(p, i + 1) <= e
  {
  }

  /** What the terms match is what the text matches, and then more. */
  lemma {:induction false} TermsMatch(p: string, i: nat, e: nat, extended: bool, more: Terms, s: string, a: nat, b: nat)
    requires i <= e <= |p| && (e < |p| ==> p[e] != '*') && a <= b <= |s|
    ensures MatchesTerms(TermsOf(p, i, e, extended, more), s, a, b) <==>
      exists m :: a <= m <= b && GlobMatches(p, i, e, extended, s, a, m) && MatchesTerms(more, s, m, b)
    decreases e - i
  {
    if i == e {
      assert MatchesTerms(more, s, a, b) ==> GlobMatches(p, i, e, extended, s, a, a);
    } else if p[i] == '*' {
      StarTermsMatch(p, i, e, extended, more, s, a, b);
    } else {
      CharTermsMatch(p, i, e, extended, more, s, a, b);
    }
  }

  lemma {:induction false} CharTermsMatch(p: string, i: nat, e: nat, extended: bool, more: Terms, s: string, a: nat,
                                          b: nat)
    requires i < e <= |p| && (e < |p| ==> p[e] != '*') && a <= b <= |s| && p[i] != '*'
    ensures MatchesTerms(TermsOf(p, i, e, extended, more), s, a, b) <==>
      exists m :: a <= m <= b && GlobMatches(p, i, e, extended, s, a, m) && MatchesTerms(more, s, m, b)
    decreases e - i, 0
  {
    var t, rest := TermOf(p[i], extended), TermsOf(p, i + 1, e, extended, more);
    if a < b {
      TermsMatch(p, i + 1, e, extended, more, s, a + 1, b);
    }
    if MatchesTerms(Cons(t, rest), s, a, b) {
      var k := SplitTerms(t, rest, s, a, b);
      assert k == a + 1;
      var m :| a + 1 <= m <= b && GlobMatches(p, i + 1, e, extended, s, a + 1, m) && MatchesTerms(more, s, m, b);
      assert GlobMatches(p, i, e, extended, s, a, m);
    }
    if m :| a <= m <= b && GlobMatches(p, i, e, extended, s, a, m) && MatchesTerms(more, s, m, b) {
      assert GlobMatches(p, i + 1, e, extended, s, a + 1, m);
      TermsMatch(p, i + 1, e, extended, more, s, a + 1, b);
      JoinTerms(t, rest, s, a, a + 1, b);
    }
  }

  lemma {:induction false} StarTermsMatch(p: string, i: nat, e: nat, extended: bool, more: Terms, s: string, a: nat,
                                          b: nat)
    requires i < e <= |p| && (e < |p| ==> p[e] != '*') && a <= b <= |s| && p[i] == '*'
    ensures MatchesTerms(TermsOf(p, i, e, extended, more), s, a, b) <==>
      exists m :: a <= m <= b && GlobMatches(p, i, e, extended, s, a, m) && MatchesTerms(more, s, m, b)
    decreases e - i, 0
  {
    var j := EndOfStars(p, i + 1);
    StarsEnd(p, i, e);
    var star, rest := TermsOf(p, i, e, extended, more).head, TermsOf(p, j, e, extended, more);
    if MatchesTerms(Cons(star, rest), s, a, b) {
      var k := SplitTerms(star, rest, s, a, b);
      DotStar(star, s, a, k);
      TermsMatch(p, j, e, extended, more, s, k, b);
      var m :| k <= m <= b && GlobMatches(p, j, e, extended, s, k, m) && MatchesTerms(more, s, m, b);
      StarsAreOne(p, i, j, e, extended, s, a, m);
      assert GlobMatches(p, i, e, extended, s, a, m);
    }
    if m :| a <= m <= b && GlobMatches(p, i, e, extended, s, a, m) && MatchesTerms(more, s, m, b) {
      StarsAreOne(p, i, j, e, extended, s, a, m);
      var k :| a <= k <= m && NoLineTerminator(s, a, k) && GlobMatches(p, j, e, extended, s, k, m);
      DotStar(star, s, a, k);
      TermsMatch(p, j, e, extended, more, s, k, b);
      assert GlobMatches(p, j, e, extended, s, k, m) && MatchesTerms(more, s, m, b);
      assert MatchesTerms(rest, s, k, b);
      JoinTerms(star, rest, s, a, k, b);
    }
  }

  // ---------------------------------------------------------------------------
  // How the emitted text parses

  lemma EmitOne(p: string, i: nat, inGroup: bool, o: Options, end: string)
    requires i < |p| && p[i] != '*'
    ensures Emit(p, i, inGroup, o) + end ==
      EmitChar(p[i], inGroup, o).0 + (Emit(p, i + 1, EmitChar(p[i], inGroup, o).1, o) + end)
  {
    Joined(EmitChar(p[i], inGroup, o).0, Emit(p, i + 1, EmitChar(p[i], inGroup, o).1, o), end);
  }

  /** The emitted text of one character is one term. */
  lemma CharParses(c: char, inGroup: bool, o: Options, rest: string)
    requires TextChar(c, o.extended, inGroup) && c != '*' && !StartsQuantifier(rest)
    ensures var text := EmitChar(c, inGroup, o).0;
      && EmitChar(c, inGroup, o).1 == inGroup
      && text != "" && text[0] != '|' && text[0] != ')' && text[0] != '^' && !StartsQuantifier(text + rest)
      && ParseTerm(text + rest) == Some((TermOf(c, o.extended), rest))
  {
    var text := EmitChar(c, inGroup, o).0;
    if |text| == 2 {
      assert (text + rest)[2..] == rest && (text + rest)[1] == c;
    } else {
      assert (text + rest)[1..] == rest;
    }
  }

  lemma StarParses(rest: string)
    requires !StartsQuantifier(rest)
    ensures ParseTerm(".*" + rest) == Some((Many(Dot), rest)) && !StartsQuantifier(".*" + rest)
  {
    var t := ".*" + rest;
    assert t[1..][1..] == rest;
    assert ParseAtom(t) == Some((Dot, t[1..]));
  }

  /** The text of a stretch of glob is its terms, followed by those of the rest. */
  lemma {:induction false} TextParses(p: string, i: nat, e: nat, inGroup: bool, o: Options, end: string, more: Terms,
                                      left: string)
    requires !o.globStar && i <= e <= |p| && Text(p, i, e, o.extended, inGroup)
    requires ParseTerms(Emit(p, e, inGroup, o) + end) == Some((more, left))
    requires !StartsQuantifier(Emit(p, e, inGroup, o) + end)
    ensures ParseTerms(Emit(p, i, inGroup, o) + end) == Some((TermsOf(p, i, e, o.extended, more), left))
    ensures !StartsQuantifier(Emit(p, i, inGroup, o) + end)
    decreases e - i
  {
    if i < e {
      var j := if p[i] == '*' then EndOfStars(p, i + 1) else i + 1;
      var text := if p[i] == '*' then ".*" else EmitChar(p[i], inGroup, o).0;
      if p[i] == '*' { StarsEnd(p, i, e); }
      var rest := Emit(p, j, inGroup, o) + end;
      TextParses(p, j, e, inGroup, o, end, more, left);
      if p[i] == '*' { StarParses(rest); } else { CharParses(p[i], inGroup, o, rest); }
      assert Emit(p, i, inGroup, o) == text + Emit(p, j, inGroup, o);
      Joined(text, Emit(p, j, inGroup, o), end);
      assert Emit(p, i, inGroup, o) + end == text + rest;
    }
  }

  // ---------------------------------------------------------------------------
  // Whole patterns

  /** The glob matches a part of the name; what is around it are stretches of a line. */
  ghost predicate GlobMatchesWithin(p: string, extended: bool, s: string) {
    exists a, b :: 0 <= a <= b <= |s| && NoLineTerminator(s, 0, a) && NoLineTerminator(s, b, |s|)
      && GlobMatches(p, 0, |p|, extended, s, a, b)
  }

  /** The beginning of the emitted text. */
  lemma CompiledParses(p: string, o: Options, end: string, ts: Terms)
    requires end == if o.global then ".*" else "$"
    requires ParseTerms(Emit(p, 0, false, o) + end) == Some((ts, "")) && !StartsQuantifier(Emit(p, 0, false, o) + end)
    ensures Parse(Compile(p, o)) == Some(Alternative(Cons(if o.global then Many(Dot) else AtStart, ts)))
  {
    var rest := Emit(p, 0, false, o) + end;
    if o.global {
      Joined(".*", Emit(p, 0, false, o), end);
      StarParses(rest);
      assert ParseTerms(".*" + rest) == Some((Cons(Many(Dot), ts), ""));
    } else {
      Joined("^", Emit(p, 0, false, o), end);
      assert ("^" + rest)[1..] == rest;
      assert ParseTerm("^" + rest) == Some((AtStart, rest));
      assert ParseTerms("^" + rest) == Some((Cons(AtStart, ts), ""));
    }
  }

  /** The expression for a pattern that is one stretch of text. */
  function Regexp(p: string, o: Options): Disjunction {
    Alternative(
      if o.global then Cons(Many(Dot), TermsOf(p, 0, |p|, o.extended, Cons(Many(Dot), Nil)))
      else Cons(AtStart, TermsOf(p, 0, |p|, o.extended, Cons(AtEnd, Nil))))
  }

  lemma PatternParses(p: string, o: Options)
    requires !o.globStar && Text(p, 0, |p|, o.extended, false)
    ensures Parse(Compile(p, o)) == Some(Regexp(p, o))
  {
    var end := if o.global then ".*" else "$";
    var last := if o.global then Cons(Many(Dot), Nil) else Cons(AtEnd, Nil);
    EndParses(o.global);
    assert Emit(p, |p|, false, o) + end == end;
    TextParses(p, 0, |p|, false, o, end, last, "");
    CompiledParses(p, o, end, TermsOf(p, 0, |p|, o.extended, last));
  }

  lemma EndParses(global: bool)
    ensures var end := if global then ".*" else "$";
      ParseTerms(end) == Some((if global then Cons(Many(Dot), Nil) else Cons(AtEnd, Nil), "")) && !StartsQuantifier(end)
  {
    if global {
      StarParses("");
      assert ".*" + "" == ".*";
    } else {
      assert "$"[1..] == "";
    }
  }

  /** Without `glob_star`, for every pattern without backslash (in extended mode also without brackets
      and braces): the emitted text is a regular expression, and it matches a whole name exactly if
      the glob does; with `global`, exactly if the glob matches within the name. */
  lemma MeaningIsPreserved(p: string, o: Options, s: string)
    requires !o.globStar && Text(p, 0, |p|, o.extended, false)
    ensures Parse(Compile(p, o)).Some?
    ensures FullMatch(Parse(Compile(p, o)).value, s) <==>
      if o.global then GlobMatchesWithin(p, o.extended, s) else GlobMatches(p, 0, |p|, o.extended, s, 0, |s|)
  {
    PatternParses(p, o);
    if o.global { GlobalMatches(p, o, s); } else { AnchoredMatches(p, o, s); }
  }

  lemma AnchoredMatches(p: string, o: Options, s: string)
    requires !o.global
    ensures FullMatch(Regexp(p, o), s) <==> GlobMatches(p, 0, |p|, o.extended, s, 0, |s|)
  {
    var more := Cons(AtEnd, Nil);
    var terms := TermsOf(p, 0, |p|, o.extended, more);
    TermsMatch(p, 0, |p|, o.extended, more, s, 0, |s|);
    forall m | 0 <= m <= |s|
      ensures MatchesTerms(more, s, m, |s|) <==> m == |s|
    {
      EndMatches(more, s, m);
    }
    if FullMatch(Regexp(p, o), s) {
      var k := SplitTerms(AtStart, terms, s, 0, |s|);
    }
    if MatchesTerms(terms, s, 0, |s|) {
      assert MatchesTerm(AtStart, s, 0, 0);
      JoinTerms(AtStart, terms, s, 0, 0, |s|);
    }
  }

  lemma EndMatches(ts: Terms, s: string, m: nat)
    requires ts == Cons(AtEnd, Nil) && m <= |s|
    ensures MatchesTerms(ts, s, m, |s|) <==> m == |s|
  {
    if MatchesTerms(ts, s, m, |s|) {
      var k := SplitTerms(ts.head, ts.tail, s, m, |s|);
    }
    if m == |s| {
      assert MatchesTerm(ts.head, s, m, m) && MatchesTerms(ts.tail, s, m, m);
      JoinTerms(ts.head, ts.tail, s, m, m, m);
    }
  }

  lemma TailMatches(ts: Terms, s: string, m: nat)
    requires ts == Cons(Many(Dot), Nil) && m <= |s|
    ensures MatchesTerms(ts, s, m, |s|) <==> NoLineTerminator(s, m, |s|)
  {
    DotStar(ts.head, s, m, |s|);
    if MatchesTerms(ts, s, m, |s|) {
      var k := SplitTerms(ts.head, ts.tail, s, m, |s|);
    }
    if NoLineTerminator(s, m, |s|) {
      assert MatchesTerms(ts.tail, s, |s|, |s|);
      JoinTerms(ts.head, ts.tail, s, m, |s|, |s|);
    }
  }

  lemma GlobalMatches(p: string, o: Options, s: string)
    requires o.global
    ensures FullMatch(Regexp(p, o), s) <==> GlobMatchesWithin(p, o.extended, s)
  {
    var ts := Regexp(p, o).ts;
    var star, terms, more := ts.head, ts.tail, Cons(Many(Dot), Nil);
    if MatchesTerms(Cons(star, terms), s, 0, |s|) {
      var a := SplitTerms(star, terms, s, 0, |s|);
      DotStar(star, s, 0, a);
      TermsMatch(p, 0, |p|, o.extended, more, s, a, |s|);
      var b :| a <= b <= |s| && GlobMatches(p, 0, |p|, o.extended, s, a, b) && MatchesTerms(more, s, b, |s|);
      TailMatches(more, s, b);
    }
    if GlobMatchesWithin(p, o.extended, s) {
      var a, b :| 0 <= a <= b <= |s| && NoLineTerminator(s, 0, a) && NoLineTerminator(s, b, |s|)
        && GlobMatches(p, 0, |p|, o.extended, s, a, b);
      DotStar(star, s, 0, a);
      TailMatches(more, s, b);
      TermsMatch(p, 0, |p|, o.extended, more, s, a, |s|);
      assert GlobMatches(p, 0, |p|, o.extended, s, a, b) && MatchesTerms(more, s, b, |s|);
      assert MatchesTerms(terms, s, a, |s|);
      JoinTerms(star, terms, s, 0, a, |s|);
    }
  }
}
