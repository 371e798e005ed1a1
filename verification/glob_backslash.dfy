/** Backslashes in globs.  The compiler passes a backslash through, so the escape that it writes for the
    next character turns into an escaped backslash and a bare character.  Here is exactly when that
    leaves the meaning of the pattern alone. */
module GlobBackslash {
  import opened Wrappers
  import opened Glob
  import opened Regex
  import opened RegexLaws
  import opened GlobMeaning

  /** Escaped by the compiler, and itself without the escape. */
  predicate Harmless(c: char) { c in ['/', '=', '!', ','] }

  /** Every backslash stands before one of these. */
  predicate HarmlessBackslashes(p: string, i: nat)
    requires i <= |p|
  {
    forall k :: i <= k < |p| && p[k] == '\\' ==> k + 1 < |p| && Harmless(p[k + 1])
  }

  predicate Bracketless(p: string, extended: bool) {
    extended ==> forall k :: 0 <= k < |p| ==> p[k] !in ['[', ']', '{', '}']
  }

  ghost predicate Means(p: string, o: Options, s: string) {
    if o.global then GlobMatchesWithin(p, o.extended, s) else GlobMatches(p, 0, |p|, o.extended, s, 0, |s|)
  }

  /** The emitted text is a regular expression that matches the names that the glob matches. */
  ghost predicate MeaningIsKept(p: string, o: Options) {
    && Parse(Compile(p, o)).Some?
    && forall s: string :: FullMatch(Parse(Compile(p, o)).value, s) <==> Means(p, o, s)
  }

  // ---------------------------------------------------------------------------
  // Length

  /** The characters from `i` on that are no stars: what the glob matches has at least that many. */
  function NonStars(p: string, i: nat): nat
    decreases |p| - i
  {
    if i >= |p| then 0 else (if p[i] == '*' then 0 else 1) + NonStars(p, i + 1)
  }

  lemma {:induction false} StarsDoNotCount(p: string, i: nat)
    requires i <= |p|
    ensures NonStars(p, EndOfStars(p, i)) == NonStars(p, i)
    decreases |p| - i
  {
    if i < |p| && p[i] == '*' { StarsDoNotCount(p, i + 1); }
  }

  lemma {:induction false} MatchesAreLong(p: string, i: nat, extended: bool, s: string, a: nat, b: nat)
    requires i <= |p| && a <= b <= |s| && GlobMatches(p, i, |p|, extended, s, a, b)
    ensures b - a >= NonStars(p, i)
    decreases |p| - i
  {
    if i < |p| {
      if p[i] == '*' {
        var k :| a <= k <= b && NoLineTerminator(s, a, k) && GlobMatches(p, i + 1, |p|, extended, s, k, b);
        MatchesAreLong(p, i + 1, extended, s, k, b);
      } else {
        MatchesAreLong(p, i + 1, extended, s, a + 1, b);
      }
    }
  }

  /** The pattern without its stars. */
  function Starless(p: string, i: nat): (r: string)
    ensures |r| == NonStars(p, i)
    decreases |p| - i
  {
    if i >= |p| then "" else (if p[i] == '*' then "" else [p[i]]) + Starless(p, i + 1)
  }

  lemma {:induction false} StarlessMatches(p: string, i: nat, extended: bool, s: string, a: nat)
    requires i <= |p| && a <= |s| && s[a..] == Starless(p, i)
    ensures GlobMatches(p, i, |p|, extended, s, a, |s|)
    decreases |p| - i
  {
    if i < |p| {
      if p[i] == '*' {
        StarlessMatches(p, i + 1, extended, s, a);
        assert NoLineTerminator(s, a, a);
      } else {
        assert s[a] == s[a..][0] && s[a + 1..] == s[a..][1..];
        StarlessMatches(p, i + 1, extended, s, a + 1);
      }
    }
  }

  lemma SomethingIsMeant(p: string, o: Options)
    ensures Means(p, o, Starless(p, 0))
  {
    var s := Starless(p, 0);
    assert s[0..] == s;
    StarlessMatches(p, 0, o.extended, s, 0);
    assert NoLineTerminator(s, 0, 0) && NoLineTerminator(s, |s|, |s|);
  }

  lemma MeantIsLong(p: string, o: Options, s: string)
    requires Means(p, o, s)
    ensures |s| >= NonStars(p, 0)
    ensures |s| == NonStars(p, 0) ==> GlobMatches(p, 0, |p|, o.extended, s, 0, |s|)
  {
    if o.global {
      var a, b :| 0 <= a <= b <= |s| && NoLineTerminator(s, 0, a) && NoLineTerminator(s, b, |s|)
        && GlobMatches(p, 0, |p|, o.extended, s, a, b);
      MatchesAreLong(p, 0, o.extended, s, a, b);
    } else {
      MatchesAreLong(p, 0, o.extended, s, 0, |s|);
    }
  }

  // ---------------------------------------------------------------------------
  // Patterns that lose characters

  /** Where the next piece begins: after a run of stars, or a character, or a backslash and what it
      stands before. */
  function PieceEnd(p: string, i: nat): (j: nat)
    requires i < |p|
    ensures i < j <= |p|
  {
    if p[i] == '*' then EndOfStars(p, i + 1)
    else if p[i] == '\\' && i + 1 < |p| then (if p[i + 1] == '*' then EndOfStars(p, i + 2) else i + 2)
    else i + 1
  }

  /** No backslash swallows a character, or is swallowed. */
  predicate Flat(p: string, i: nat, global: bool)
    decreases |p| - i
  {
    i < |p| ==>
      && (p[i] == '\\' ==> if i + 1 == |p| then !global else Harmless(p[i + 1]) || p[i + 1] == '.')
      && Flat(p, PieceEnd(p, i), global)
  }

  function End(global: bool): string { if global then ".*" else "$" }

  function Rest(p: string, i: nat, o: Options): string { Emit(p, i, false, o) + End(o.global) }

  lemma RestOfStars(p: string, i: nat, o: Options)
    requires i < |p| && p[i] == '*' && !o.globStar
    ensures Rest(p, i, o) == ".*" + Rest(p, EndOfStars(p, i + 1), o)
  {
    Joined(".*", Emit(p, EndOfStars(p, i + 1), false, o), End(o.global));
  }

  lemma RestOfChar(p: string, i: nat, o: Options)
    requires i < |p| && p[i] != '*' && Bracketless(p, o.extended)
    ensures Rest(p, i, o) == EmitChar(p[i], false, o).0 + Rest(p, i + 1, o)
  {
    EmitOne(p, i, false, o, End(o.global));
  }

  lemma DotStarIsNothing(rest: string)
    ensures Singles(".*" + rest) == Singles(rest)
    ensures Singles("\\" + (".*" + rest)) == Singles(rest)
  {
    var t, u := ".*" + rest, "\\" + (".*" + rest);
    assert t[1..] == "*" + rest && ("*" + rest)[1..] == rest;
    assert u[2..] == "*" + rest;
  }

  lemma CharIsOne(c: char, o: Options, rest: string)
    requires c != '*' && c != '\\' && (o.extended ==> c !in ['[', ']', '{', '}'])
    ensures Singles(EmitChar(c, false, o).0 + rest) <= 1 + Singles(rest)
  {
    var text := EmitChar(c, false, o).0;
    if |text| == 2 {
      assert (text + rest)[2..] == rest;
    } else {
      assert (text + rest)[1..] == rest;
    }
  }

  /** A backslash and a character: two single characters at most, and fewer if the character is bare
      and means something, or lost its backslash. */
  lemma PairIsTwo(c: char, o: Options, rest: string)
    requires c != '*' && (o.extended ==> c !in ['[', ']', '{', '}'])
    ensures var n := Singles("\\" + (EmitChar(c, false, o).0 + rest));
      n <= 2 + Singles(rest) && (Harmless(c) || c == '.' || n <= 1 + Singles(rest))
  {
    var text := EmitChar(c, false, o).0;
    var t := "\\" + (text + rest);
    if |text| == 2 {
      var bare := [c] + rest;
      assert t[2..] == bare && bare[1..] == rest;
    } else {
      assert t[2..] == rest;
    }
  }

  /** The emitted text has no more single characters than the pattern, and fewer if it is not flat. */
  lemma {:induction false} CharactersAreLost(p: string, i: nat, o: Options)
    requires !o.globStar && Bracketless(p, o.extended) && i <= |p|
    ensures Singles(Rest(p, i, o)) <= NonStars(p, i)
    ensures !Flat(p, i, o.global) ==> Singles(Rest(p, i, o)) < NonStars(p, i)
    decreases |p| - i
  {
    if i == |p| {
      EndIsNothing(o.global);
      assert Rest(p, i, o) == End(o.global);
    } else {
      CharactersAreLost(p, PieceEnd(p, i), o);
      if p[i] == '\\' {
        BackslashLoses(p, i, o);
      } else {
        PieceKeeps(p, i, o);
      }
    }
  }

  lemma PieceKeeps(p: string, i: nat, o: Options)
    requires !o.globStar && Bracketless(p, o.extended) && i < |p| && p[i] != '\\'
    ensures Singles(Rest(p, i, o)) - Singles(Rest(p, PieceEnd(p, i), o)) <= NonStars(p, i) - NonStars(p, PieceEnd(p, i))
  {
    if p[i] == '*' {
      RestOfStars(p, i, o);
      DotStarIsNothing(Rest(p, EndOfStars(p, i + 1), o));
      StarsDoNotCount(p, i + 1);
    } else {
      RestOfChar(p, i, o);
      CharIsOne(p[i], o, Rest(p, i + 1, o));
    }
  }

  lemma EndIsNothing(global: bool)
    ensures Singles(End(global)) == 0
    ensures Singles("\\" + End(global)) == if global then 0 else 1
  {
    if global {
      DotStarIsNothing("");
      assert ".*" + "" == ".*";
    } else {
      assert "$"[1..] == "" && "\\$"[2..] == "";
    }
  }

  lemma BackslashLoses(p: string, i: nat, o: Options)
    requires !o.globStar && Bracketless(p, o.extended) && i < |p| && p[i] == '\\'
    ensures
      var j := PieceEnd(p, i);
      var lost := Singles(Rest(p, j, o)) + NonStars(p, i) - NonStars(p, j) - Singles(Rest(p, i, o));
      lost >= 0 && (lost > 0 || (if i + 1 == |p| then !o.global else Harmless(p[i + 1]) || p[i + 1] == '.'))
  {
    RestOfChar(p, i, o);
    assert EmitChar(p[i], false, o).0 == "\\";
    if i + 1 == |p| {
      assert Rest(p, i + 1, o) == End(o.global);
      EndIsNothing(o.global);
    } else if p[i + 1] == '*' {
      RestOfStars(p, i + 1, o);
      DotStarIsNothing(Rest(p, EndOfStars(p, i + 2), o));
      StarsDoNotCount(p, i + 2);
    } else {
      RestOfChar(p, i + 1, o);
      PairIsTwo(p[i + 1], o, Rest(p, i + 2, o));
    }
  }

  /** Then the expression, if it is one, matches a name that is too short for the glob. */
  lemma LossChangesMeaning(p: string, o: Options)
    requires !o.globStar && Bracketless(p, o.extended) && !Flat(p, 0, o.global)
    ensures !MeaningIsKept(p, o)
  {
    if MeaningIsKept(p, o) {
      var d := Parse(Compile(p, o)).value;
      SomethingIsMeant(p, o);
      var w := ShortMatch(d, Starless(p, 0));
      DisjunctionCounts(Compile(p, o));
      CharactersAreLost(p, 0, o);
      StartIsNothing(p, o);
      MeantIsLong(p, o, w);
    }
  }

  lemma StartIsNothing(p: string, o: Options)
    ensures Singles(Compile(p, o)) == Singles(Rest(p, 0, o))
  {
    if o.global {
      Joined(".*", Emit(p, 0, false, o), ".*");
      DotStarIsNothing(Rest(p, 0, o));
    } else {
      Joined("^", Emit(p, 0, false, o), "$");
      assert ("^" + Rest(p, 0, o))[1..] == Rest(p, 0, o);
    }
  }

  // ---------------------------------------------------------------------------
  // Patterns that lose none

  function Bare(c: char): Term { One(if c == '.' then Dot else Chr(c)) }

  /** The terms of a flat pattern.  A backslash at the end takes the anchor for its character. */
  function FlatTerms(p: string, i: nat, o: Options, last: Terms): Terms
    decreases |p| - i
  {
    if i >= |p| then last
    else if p[i] == '*' then Cons(Many(Dot), FlatTerms(p, PieceEnd(p, i), o, last))
    else if p[i] == '\\' then
      (if i + 1 == |p| then Cons(One(Chr('$')), Nil)
       else Cons(One(Chr('\\')), Cons(Bare(p[i + 1]), FlatTerms(p, PieceEnd(p, i), o, last))))
    else Cons(TermOf(p[i], o.extended), FlatTerms(p, i + 1, o, last))
  }

  function Last(global: bool): Terms { if global then Cons(Many(Dot), Nil) else Cons(AtEnd, Nil) }

  lemma {:induction false} FlatParses(p: string, i: nat, o: Options)
    requires !o.globStar && Bracketless(p, o.extended) && Flat(p, i, o.global) && i <= |p|
    ensures ParseTerms(Rest(p, i, o)) == Some((FlatTerms(p, i, o, Last(o.global)), ""))
    ensures !StartsQuantifier(Rest(p, i, o))
    decreases |p| - i
  {
    if i == |p| {
      EndParses(o.global);
      assert Rest(p, i, o) == End(o.global);
    } else {
      var j := PieceEnd(p, i);
      FlatParses(p, j, o);
      if p[i] == '\\' {
        BackslashParses(p, i, j, o, Rest(p, j, o), FlatTerms(p, j, o, Last(o.global)));
      } else {
        PieceParses(p, i, j, o, Rest(p, j, o), FlatTerms(p, j, o, Last(o.global)));
      }
    }
  }

  lemma PieceParses(p: string, i: nat, j: nat, o: Options, rest: string, ts: Terms)
    requires !o.globStar && Bracketless(p, o.extended) && i < |p| && p[i] != '\\' && j == PieceEnd(p, i)
    requires rest == Rest(p, j, o) && ts == FlatTerms(p, j, o, Last(o.global))
    requires ParseTerms(rest) == Some((ts, "")) && !StartsQuantifier(rest)
    ensures ParseTerms(Rest(p, i, o)) == Some((FlatTerms(p, i, o, Last(o.global)), ""))
      && !StartsQuantifier(Rest(p, i, o))
  {
    if p[i] == '*' {
      RestOfStars(p, i, o);
      StarParses(rest);
      assert ParseTerms(".*" + rest) == Some((Cons(Many(Dot), ts), ""));
    } else {
      RestOfChar(p, i, o);
      CharParses(p[i], false, o, rest);
      assert ParseTerms(EmitChar(p[i], false, o).0 + rest) == Some((Cons(TermOf(p[i], o.extended), ts), ""));
    }
  }

  lemma {:induction false} BackslashParses(p: string, i: nat, j: nat, o: Options, rest: string, ts: Terms)
    requires !o.globStar && Bracketless(p, o.extended) && i < |p| && p[i] == '\\' && Flat(p, i, o.global)
      && j == PieceEnd(p, i)
    requires rest == Rest(p, j, o) && ts == FlatTerms(p, j, o, Last(o.global))
    requires ParseTerms(rest) == Some((ts, "")) && !StartsQuantifier(rest)
    ensures ParseTerms(Rest(p, i, o)) == Some((FlatTerms(p, i, o, Last(o.global)), ""))
      && !StartsQuantifier(Rest(p, i, o))
  {
    RestOfChar(p, i, o);
    if i + 1 < |p| {
      RestOfChar(p, i + 1, o);
      PairParses(p[i + 1], o, rest, ts);
    } else {
      EndParsesEscaped();
      assert Rest(p, i, o) == "\\$";
    }
  }

  lemma PairParses(c: char, o: Options, rest: string, ts: Terms)
    requires (Harmless(c) || c == '.') && !StartsQuantifier(rest) && ParseTerms(rest) == Some((ts, ""))
    ensures var t := "\\" + (EmitChar(c, false, o).0 + rest);
      !StartsQuantifier(t) && ParseTerms(t) == Some((Cons(One(Chr('\\')), Cons(Bare(c), ts)), ""))
  {
    var t, bare := "\\" + (EmitChar(c, false, o).0 + rest), [c] + rest;
    assert t[2..] == bare && bare[1..] == rest;
    assert ParseAtom(t) == Some((Chr('\\'), bare));
    assert ParseTerm(bare) == Some((Bare(c), rest));
    assert ParseTerms(bare) == Some((Cons(Bare(c), ts), ""));
  }

  lemma EndParsesEscaped()
    ensures ParseTerms("\\$") == Some((Cons(One(Chr('$')), Nil), ""))
  {
    assert "\\$"[2..] == "";
    assert ParseTerm("\\$") == Some((One(Chr('$')), ""));
  }

  function FlatRegexp(p: string, o: Options): Disjunction {
    Alternative(Cons(if o.global then Many(Dot) else AtStart, FlatTerms(p, 0, o, Last(o.global))))
  }

  lemma FlatPatternParses(p: string, o: Options)
    requires !o.globStar && Bracketless(p, o.extended) && Flat(p, 0, o.global)
    ensures Parse(Compile(p, o)) == Some(FlatRegexp(p, o))
  {
    FlatParses(p, 0, o);
    CompiledParses(p, o, End(o.global), FlatTerms(p, 0, o, Last(o.global)));
  }

  /** A shortest name that the terms match; where they have a dot, it has a letter. */
  function Instance(p: string, i: nat, extended: bool): (r: string)
    ensures |r| == NonStars(p, i)
    decreases |p| - i
  {
    if i >= |p| then ""
    else if p[i] == '*' then StarsDoNotCount(p, i + 1); Instance(p, PieceEnd(p, i), extended)
    else if p[i] == '\\' && i + 1 == |p| then "$"
    else if p[i] == '\\' && p[i + 1] != '*' then
      ['\\', if p[i + 1] == '.' then 'x' else p[i + 1]] + Instance(p, i + 2, extended)
    else [p[i]] + Instance(p, i + 1, extended)
  }

  lemma {:induction false} InstanceMatches(p: string, i: nat, o: Options, s: string, a: nat)
    requires Flat(p, i, o.global) && i <= |p| && a <= |s| && s[a..] == Instance(p, i, o.extended)
    ensures MatchesTerms(FlatTerms(p, i, o, Last(o.global)), s, a, |s|)
    decreases |p| - i
  {
    var n := |s|;
    if i == |p| {
      assert a == n;
      LastMatches(Last(o.global), o.global, s);
    } else {
      var j := PieceEnd(p, i);
      var rest := FlatTerms(p, j, o, Last(o.global));
      if p[i] == '*' {
        InstanceMatches(p, j, o, s, a);
        var star := FlatTerms(p, i, o, Last(o.global)).head;
        DotStar(star, s, a, a);
        JoinTerms(star, rest, s, a, a, n);
      } else if p[i] == '\\' && i + 1 == |p| {
        assert s[a] == s[a..][0];
        JoinTerms(One(Chr('$')), Nil, s, a, n, n);
      } else if p[i] == '\\' {
        assert s[a] == s[a..][0] && s[a + 1] == s[a..][1] && s[a + 2..] == s[a..][2..];
        InstanceMatches(p, j, o, s, a + 2);
        JoinTerms(Bare(p[i + 1]), rest, s, a + 1, a + 2, n);
        JoinTerms(One(Chr('\\')), Cons(Bare(p[i + 1]), rest), s, a, a + 1, n);
      } else {
        assert s[a] == s[a..][0] && s[a + 1..] == s[a..][1..];
        InstanceMatches(p, j, o, s, a + 1);
        JoinTerms(TermOf(p[i], o.extended), rest, s, a, a + 1, n);
      }
    }
  }

  lemma LastMatches(ts: Terms, global: bool, s: string)
    requires ts == Last(global)
    ensures MatchesTerms(ts, s, |s|, |s|)
  {
    if global { TailMatches(ts, s, |s|); } else { EndMatches(ts, s, |s|); }
  }

  lemma InstanceIsMatched(p: string, o: Options)
    requires Flat(p, 0, o.global)
    ensures FullMatch(FlatRegexp(p, o), Instance(p, 0, o.extended))
  {
    var s := Instance(p, 0, o.extended);
    assert s[0..] == s;
    InstanceMatches(p, 0, o, s, 0);
    var first := FlatRegexp(p, o).ts.head;
    if o.global { DotStar(first, s, 0, 0); }
    JoinTerms(first, FlatRegexp(p, o).ts.tail, s, 0, 0, |s|);
  }

  /** The glob matches that name only if every backslash is harmless. */
  lemma {:induction false} InstanceIsMeant(p: string, i: nat, o: Options, s: string, a: nat)
    requires Flat(p, i, o.global) && i <= |p| && a <= |s| && s[a..] == Instance(p, i, o.extended)
    requires GlobMatches(p, i, |p|, o.extended, s, a, |s|)
    ensures HarmlessBackslashes(p, i)
    decreases |p| - i
  {
    if i < |p| {
      var j := PieceEnd(p, i);
      if p[i] == '*' {
        StarsAreOne(p, i, j, |p|, o.extended, s, a, |s|);
        var k :| a <= k <= |s| && NoLineTerminator(s, a, k) && GlobMatches(p, j, |p|, o.extended, s, k, |s|);
        MatchesAreLong(p, j, o.extended, s, k, |s|);
        StarsDoNotCount(p, i + 1);
        InstanceIsMeant(p, j, o, s, a);
      } else if p[i] == '\\' && i + 1 < |p| {
        assert s[a + 1] == s[a..][1] && s[a + 2..] == s[a..][2..];
        assert GlobMatches(p, i + 1, |p|, o.extended, s, a + 1, |s|);
        InstanceIsMeant(p, j, o, s, a + 2);
      } else {
        assert s[a] == s[a..][0] && s[a + 1..] == s[a..][1..];
        InstanceIsMeant(p, j, o, s, a + 1);
      }
    }
  }

  // ---------------------------------------------------------------------------
  // Harmless backslashes

  lemma {:induction false} HarmlessIsFlat(p: string, i: nat, o: Options)
    requires i <= |p| && HarmlessBackslashes(p, i)
    ensures Flat(p, i, o.global) && FlatTerms(p, i, o, Last(o.global)) == TermsOf(p, i, |p|, o.extended, Last(o.global))
    decreases |p| - i
  {
    if i < |p| {
      HarmlessIsFlat(p, PieceEnd(p, i), o);
      if p[i] == '\\' {
        assert Harmless(p[i + 1]);
        assert TermsOf(p, i + 1, |p|, o.extended, Last(o.global)) ==
          Cons(Bare(p[i + 1]), TermsOf(p, i + 2, |p|, o.extended, Last(o.global)));
      }
    }
  }

  /** Without `glob_star`, for every pattern (in extended mode without brackets and braces): the emitted
      text is a regular expression with the meaning of the glob exactly if every backslash of the
      pattern stands before a slash, an equals sign, an exclamation mark or a comma. */
  lemma BackslashesAreHarmless(p: string, o: Options)
    requires !o.globStar && Bracketless(p, o.extended)
    ensures MeaningIsKept(p, o) <==> HarmlessBackslashes(p, 0)
  {
    if !Flat(p, 0, o.global) {
      LossChangesMeaning(p, o);
      if HarmlessBackslashes(p, 0) { HarmlessIsFlat(p, 0, o); }
    } else {
      FlatPatternParses(p, o);
      if HarmlessBackslashes(p, 0) {
        HarmlessIsFlat(p, 0, o);
        forall s: string
          ensures FullMatch(FlatRegexp(p, o), s) <==> Means(p, o, s)
        {
          if o.global { GlobalMatches(p, o, s); } else { AnchoredMatches(p, o, s); }
        }
      }
      if MeaningIsKept(p, o) {
        var s := Instance(p, 0, o.extended);
        InstanceIsMatched(p, o);
        MeantIsLong(p, o, s);
        assert s[0..] == s;
        InstanceIsMeant(p, 0, o, s, 0);
      }
    }
  }

  /** The glob for a backslash and a dot matches any character in the place of the dot. */
  lemma BackslashBeforeDot()
    ensures !MeaningIsKept("\\.", Options(false, false, false, false))
    ensures MeaningIsKept("\\/", Options(false, false, false, false))
  {
    BackslashesAreHarmless("\\.", Options(false, false, false, false));
    BackslashesAreHarmless("\\/", Options(false, false, false, false));
    assert "\\."[0] == '\\' && !Harmless("\\."[1]);
  }
}
