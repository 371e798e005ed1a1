/** Flat groups in extended mode: `{a,b}` becomes `(a|b)`, and means it. */
module GlobGroups {
  import opened Wrappers
  import opened Glob
  import opened Regex
  import opened GlobMeaning

  // ---------------------------------------------------------------------------
  // Globs with groups

  datatype Alts = LastAlt(text: string) | MoreAlts(text: string, rest: Alts)

  /** Text, then perhaps a group and what follows it. */
  datatype Pattern = Plain(text: string) | Grouped(text: string, alts: Alts, rest: Pattern)

  function PrintAlts(alts: Alts): string {
    if alts.LastAlt? then alts.text else alts.text + "," + PrintAlts(alts.rest)
  }

  function Print(g: Pattern): string {
    if g.Plain? then g.text else g.text + "{" + PrintAlts(g.alts) + "}" + Print(g.rest)
  }

  predicate PlainText(t: string, inGroup: bool) { forall k :: 0 <= k < |t| ==> TextChar(t[k], true, inGroup) }

  predicate GoodAlts(alts: Alts) { PlainText(alts.text, true) && (alts.MoreAlts? ==> GoodAlts(alts.rest)) }

  predicate GoodPattern(g: Pattern) {
    PlainText(g.text, false) && (g.Grouped? ==> GoodAlts(g.alts) && GoodPattern(g.rest))
  }

  ghost predicate TextMatches(t: string, s: string, a: nat, b: nat)
    requires a <= b <= |s|
  {
    GlobMatches(t, 0, |t|, true, s, a, b)
  }

  /** One of the alternatives matches. */
  ghost predicate AltsMatch(alts: Alts, s: string, a: nat, b: nat)
    requires a <= b <= |s|
  {
    TextMatches(alts.text, s, a, b) || (alts.MoreAlts? && AltsMatch(alts.rest, s, a, b))
  }

  ghost predicate PatternMatches(g: Pattern, s: string, a: nat, b: nat)
    requires a <= b <= |s|
  {
    if g.Plain? then TextMatches(g.text, s, a, b)
    else
      exists m, n :: a <= m <= n <= b
        && TextMatches(g.text, s, a, m) && AltsMatch(g.alts, s, m, n) && PatternMatches(g.rest, s, n, b)
  }

  // ---------------------------------------------------------------------------
  // Stretches of a printed pattern

  /** `t` stands in `p` at `i`. */
  ghost predicate At(p: string, i: nat, t: string) { i + |t| <= |p| && p[i..i + |t|] == t }

  lemma AtParts(p: string, i: nat, t: string, u: string)
    requires At(p, i, t + u)
    ensures At(p, i, t) && At(p, i + |t|, u)
  {
    assert (t + u)[..|t|] == t && (t + u)[|t|..] == u;
    assert p[i..i + |t + u|][..|t|] == p[i..i + |t|];
    assert p[i..i + |t + u|][|t|..] == p[i + |t|..i + |t| + |u|];
  }

  lemma AtChar(p: string, i: nat, t: string, k: nat)
    requires At(p, i, t) && k < |t|
    ensures p[i + k] == t[k]
  {
    assert p[i..i + |t|][k] == t[k];
  }

  /** A run of stars at the end of a stretch does not go on after it. */
  lemma {:induction false} StarsShift(p: string, i: nat, t: string, k: nat)
    requires At(p, i, t) && (i + |t| < |p| ==> p[i + |t|] != '*') && k <= |t|
    ensures EndOfStars(p, i + k) == i + EndOfStars(t, k)
    decreases |t| - k
  {
    if k < |t| {
      AtChar(p, i, t, k);
      if t[k] == '*' { StarsShift(p, i, t, k + 1); }
    }
  }

  lemma {:induction false} TermsShift(p: string, i: nat, e: nat, t: string, k: nat, more: Terms)
    requires At(p, i, t) && e == i + |t| && (e < |p| ==> p[e] != '*') && k <= |t|
    ensures TermsOf(p, i + k, e, true, more) == TermsOf(t, k, |t|, true, more)
    decreases |t| - k
  {
    if k < |t| {
      AtChar(p, i, t, k);
      if t[k] == '*' {
        StarsShift(p, i, t, k + 1);
        StarsEnd(t, k, |t|);
        TermsShift(p, i, e, t, EndOfStars(t, k + 1), more);
      } else {
        TermsShift(p, i, e, t, k + 1, more);
      }
    }
  }

  /** A stretch before something that is not a star. */
  lemma TextIsAt(p: string, i: nat, t: string, inGroup: bool)
    requires At(p, i, t) && PlainText(t, inGroup) && (i + |t| < |p| ==> p[i + |t|] != '*')
    ensures Text(p, i, i + |t|, true, inGroup)
  {
    forall k | i <= k < i + |t|
      ensures TextChar(p[k], true, inGroup)
    {
      AtChar(p, i, t, k - i);
    }
  }

  // ---------------------------------------------------------------------------
  // The expression for a pattern

  function TextTerms(t: string, more: Terms): Terms { TermsOf(t, 0, |t|, true, more) }

  function AltsRegexp(alts: Alts): Disjunction {
    if alts.LastAlt? then Alternative(TextTerms(alts.text, Nil))
    else Either(TextTerms(alts.text, Nil), AltsRegexp(alts.rest))
  }

  function PatternTerms(g: Pattern, more: Terms): Terms {
    if g.Plain? then TextTerms(g.text, more)
    else TextTerms(g.text, Cons(One(Group(AltsRegexp(g.alts))), PatternTerms(g.rest, more)))
  }

  lemma AltsAt(p: string, i: nat, alts: Alts)
    requires At(p, i, PrintAlts(alts))
    ensures At(p, i, alts.text)
    ensures alts.MoreAlts? ==> At(p, i + |alts.text| + 1, PrintAlts(alts.rest)) && p[i + |alts.text|] == ','
    ensures alts.MoreAlts? ==> |PrintAlts(alts)| == |alts.text| + 1 + |PrintAlts(alts.rest)|
  {
    if alts.MoreAlts? {
      AtParts(p, i, alts.text + ",", PrintAlts(alts.rest));
      AtParts(p, i, alts.text, ",");
      AtChar(p, i + |alts.text|, ",", 0);
    }
  }

  lemma PatternAt(p: string, i: nat, g: Pattern) returns (e: nat, close: nat, next: nat)
    requires i <= |p| && p[i..] == Print(g)
    ensures At(p, i, g.text) && e == i + |g.text|
    ensures g.Plain? ==> e == |p|
    ensures g.Grouped? ==>
      && close == e + 1 + |PrintAlts(g.alts)| < |p| && p[e] == '{' && At(p, e + 1, PrintAlts(g.alts)) && p[close] == '}'
      && next == close + 1 && p[next..] == Print(g.rest)
  {
    assert p[i..|p|] == p[i..];
    e, close, next := i + |g.text|, 0, 0;
    if g.Grouped? {
      close := e + 1 + |PrintAlts(g.alts)|;
      next := close + 1;
      AtParts(p, i, g.text + "{" + PrintAlts(g.alts) + "}", Print(g.rest));
      AtParts(p, i, g.text + "{" + PrintAlts(g.alts), "}");
      AtParts(p, i, g.text + "{", PrintAlts(g.alts));
      AtParts(p, i, g.text, "{");
      AtChar(p, i + |g.text|, "{", 0);
      AtChar(p, i + |g.text| + 1 + |PrintAlts(g.alts)|, "}", 0);
    }
  }

  // ---------------------------------------------------------------------------
  // Parsing

  /** A stretch of text in a printed pattern. */
  lemma StretchParses(p: string, i: nat, e: nat, t: string, inGroup: bool, o: Options,
                                         end: string, more: Terms, left: string)
    requires o.extended && !o.globStar && At(p, i, t) && e == i + |t| && PlainText(t, inGroup)
      && (e < |p| ==> p[e] != '*')
    requires ParseTerms(Emit(p, e, inGroup, o) + end) == Some((more, left))
    requires !StartsQuantifier(Emit(p, e, inGroup, o) + end)
    ensures ParseTerms(Emit(p, i, inGroup, o) + end) == Some((TextTerms(t, more), left))
    ensures !StartsQuantifier(Emit(p, i, inGroup, o) + end)
  {
    TextIsAt(p, i, t, inGroup);
    TextParses(p, i, e, inGroup, o, end, more, left);
    TermsShift(p, i, e, t, 0, more);
  }

  /** Where an alternative ends. */
  lemma AltEnds(p: string, e: nat, o: Options, end: string)
    requires o.extended && e < |p| && (p[e] == ',' || p[e] == '}')
    ensures Emit(p, e, true, o) + end == (if p[e] == ',' then "|" else ")") + (Emit(p, e + 1, p[e] == ',', o) + end)
  {
    EmitOne(p, e, true, o, end);
  }

  lemma FirstAlt(p: string, i: nat, e: nat, alts: Alts, o: Options, end: string)
    requires o.extended && !o.globStar && GoodAlts(alts) && e == i + |alts.text| < |p| && At(p, i, alts.text)
    requires p[e] == if alts.MoreAlts? then ',' else '}'
    ensures ParseTerms(Emit(p, i, true, o) + end) ==
      Some((TextTerms(alts.text, Nil),
            (if alts.MoreAlts? then "|" else ")") + (Emit(p, e + 1, alts.MoreAlts?, o) + end)))
    ensures !StartsQuantifier(Emit(p, i, true, o) + end)
  {
    AltEnds(p, e, o, end);
    StretchParses(p, i, e, alts.text, true, o, end, Nil, Emit(p, e, true, o) + end);
  }

  lemma {:induction false} AltsParse(p: string, i: nat, alts: Alts, o: Options, end: string, close: nat)
    requires o.extended && !o.globStar && GoodAlts(alts) && close == i + |PrintAlts(alts)|
    requires close < |p| && At(p, i, PrintAlts(alts)) && p[close] == '}'
    ensures ParseDisjunction(Emit(p, i, true, o) + end) ==
      Some((AltsRegexp(alts), ")" + (Emit(p, close + 1, false, o) + end)))
    ensures !StartsQuantifier(Emit(p, i, true, o) + end)
    decreases alts
  {
    var e := i + |alts.text|;
    AltsAt(p, i, alts);
    FirstAlt(p, i, e, alts, o, end);
    var t, ts, rest := Emit(p, i, true, o) + end, TextTerms(alts.text, Nil), Emit(p, close + 1, false, o) + end;
    if alts.MoreAlts? {
      var next := e + 1;
      var inside := Emit(p, next, true, o) + end;
      assert ParseTerms(t) == Some((ts, "|" + inside));
      AltsParse(p, next, alts.rest, o, end, close);
      MoreParse(t, ts, inside, AltsRegexp(alts.rest), ")" + rest);
    } else {
      LastParses(t, ts, rest);
    }
  }

  lemma LastParses(t: string, ts: Terms, rest: string)
    requires ParseTerms(t) == Some((ts, ")" + rest))
    ensures ParseDisjunction(t) == Some((Alternative(ts), ")" + rest))
  {
  }

  lemma MoreParse(t: string, ts: Terms, inside: string, others: Disjunction, left: string)
    requires ParseTerms(t) == Some((ts, "|" + inside)) && ParseDisjunction(inside) == Some((others, left))
    ensures ParseDisjunction(t) == Some((Either(ts, others), left))
  {
    assert ("|" + inside)[1..] == inside;
  }

  lemma GroupParses(d: Disjunction, inside: string, rest: string)
    requires ParseDisjunction(inside) == Some((d, ")" + rest)) && !StartsQuantifier(inside) && !StartsQuantifier(rest)
    ensures ParseTerm("(" + inside) == Some((One(Group(d)), rest)) && !StartsQuantifier("(" + inside)
  {
    assert ("(" + inside)[1..] == inside;
    assert (")" + rest)[1..] == rest;
    assert ParseAtom("(" + inside) == Some((Group(d), rest));
  }

  lemma {:induction false} PatternParses(p: string, i: nat, g: Pattern, o: Options, end: string, more: Terms)
    requires o.extended && !o.globStar && GoodPattern(g) && i <= |p| && p[i..] == Print(g)
    requires ParseTerms(end) == Some((more, "")) && !StartsQuantifier(end)
    ensures ParseTerms(Emit(p, i, false, o) + end) == Some((PatternTerms(g, more), ""))
    ensures !StartsQuantifier(Emit(p, i, false, o) + end)
    decreases g
  {
    var e, close, next := PatternAt(p, i, g);
    if g.Plain? {
      assert "" + end == end;
      StretchParses(p, i, e, g.text, false, o, end, more, "");
    } else {
      PatternParses(p, next, g.rest, o, end, more);
      GroupedParses(p, i, e, close, next, g, o, end, PatternTerms(g.rest, more));
    }
  }

  lemma GroupedParses(p: string, i: nat, e: nat, close: nat, next: nat, g: Pattern, o: Options, end: string,
                      tail: Terms)
    requires o.extended && !o.globStar && GoodPattern(g) && g.Grouped? && At(p, i, g.text) && e == i + |g.text|
    requires close == e + 1 + |PrintAlts(g.alts)| < |p| && p[e] == '{' && At(p, e + 1, PrintAlts(g.alts))
      && p[close] == '}' && next == close + 1
    requires ParseTerms(Emit(p, next, false, o) + end) == Some((tail, ""))
    requires !StartsQuantifier(Emit(p, next, false, o) + end)
    ensures ParseTerms(Emit(p, i, false, o) + end) ==
      Some((TextTerms(g.text, Cons(One(Group(AltsRegexp(g.alts))), tail)), ""))
    ensures !StartsQuantifier(Emit(p, i, false, o) + end)
  {
    var d, inside, rest := AltsRegexp(g.alts), Emit(p, e + 1, true, o) + end, Emit(p, next, false, o) + end;
    AltsInside(p, e, g.alts, o, end, close, next, inside, rest);
    GroupThen(p, e, o, end, d, inside, rest, tail);
    StretchParses(p, i, e, g.text, false, o, end, Cons(One(Group(d)), tail), "");
  }

  lemma AltsInside(p: string, e: nat, alts: Alts, o: Options, end: string, close: nat, next: nat,
                   inside: string, rest: string)
    requires o.extended && !o.globStar && GoodAlts(alts) && close == e + 1 + |PrintAlts(alts)| && next == close + 1
    requires close < |p| && At(p, e + 1, PrintAlts(alts)) && p[close] == '}'
    requires inside == Emit(p, e + 1, true, o) + end && rest == Emit(p, next, false, o) + end
    ensures ParseDisjunction(inside) == Some((AltsRegexp(alts), ")" + rest)) && !StartsQuantifier(inside)
  {
    AltsParse(p, e + 1, alts, o, end, close);
  }

  /** A group and what follows it. */
  lemma GroupThen(p: string, e: nat, o: Options, end: string, d: Disjunction, inside: string,
                                     rest: string, tail: Terms)
    requires o.extended && e < |p| && p[e] == '{' && inside == Emit(p, e + 1, true, o) + end
    requires ParseDisjunction(inside) == Some((d, ")" + rest)) && !StartsQuantifier(inside) && !StartsQuantifier(rest)
    requires ParseTerms(rest) == Some((tail, ""))
    ensures ParseTerms(Emit(p, e, false, o) + end) == Some((Cons(One(Group(d)), tail), ""))
    ensures !StartsQuantifier(Emit(p, e, false, o) + end)
  {
    EmitOne(p, e, false, o, end);
    GroupParses(d, inside, rest);
  }

  // ---------------------------------------------------------------------------
  // Matching

  lemma {:induction false} AltsRegexpMatches(alts: Alts, s: string, a: nat, b: nat)
    requires a <= b <= |s|
    ensures MatchesDisjunction(AltsRegexp(alts), s, a, b) <==> AltsMatch(alts, s, a, b)
    decreases alts
  {
    TextAlone(alts.text, s, a, b);
    if alts.MoreAlts? { AltsRegexpMatches(alts.rest, s, a, b); }
  }

  lemma TextAlone(t: string, s: string, a: nat, b: nat)
    requires a <= b <= |s|
    ensures MatchesTerms(TextTerms(t, Nil), s, a, b) <==> TextMatches(t, s, a, b)
  {
    TermsMatch(t, 0, |t|, true, Nil, s, a, b);
    assert MatchesTerms(Nil, s, b, b);
  }

  /** A pattern, and then more. */
  ghost predicate Followed(g: Pattern, more: Terms, s: string, a: nat, b: nat)
    requires a <= b <= |s|
  {
    exists m :: a <= m <= b && PatternMatches(g, s, a, m) && MatchesTerms(more, s, m, b)
  }

  /** A group, a pattern, and then more. */
  ghost predicate GroupFollowed(alts: Alts, rest: Pattern, more: Terms, s: string, a: nat, b: nat)
    requires a <= b <= |s|
  {
    exists n :: a <= n <= b && AltsMatch(alts, s, a, n) && Followed(rest, more, s, n, b)
  }

  /** The terms match what the pattern matches, and then more. */
  lemma {:induction false} PatternTermsMatch(g: Pattern, more: Terms, s: string, a: nat, b: nat)
    requires a <= b <= |s|
    ensures MatchesTerms(PatternTerms(g, more), s, a, b) <==> Followed(g, more, s, a, b)
    decreases g
  {
    if g.Plain? {
      PlainMatches(g, more, s, a, b);
    } else {
      var t, ts := One(Group(AltsRegexp(g.alts))), PatternTerms(g.rest, more);
      forall n | 0 <= n <= b
        ensures MatchesTerms(ts, s, n, b) <==> Followed(g.rest, more, s, n, b)
      {
        PatternTermsMatch(g.rest, more, s, n, b);
      }
      forall m | a <= m <= b
        ensures MatchesTerms(Cons(t, ts), s, m, b) <==> GroupFollowed(g.alts, g.rest, more, s, m, b)
      {
        GroupTailMatches(t, ts, g, more, s, m, b);
      }
      TextThen(g, more, Cons(t, ts), s, a, b);
    }
  }

  lemma PlainMatches(g: Pattern, more: Terms, s: string, a: nat, b: nat)
    requires g.Plain? && a <= b <= |s|
    ensures MatchesTerms(TextTerms(g.text, more), s, a, b) <==> Followed(g, more, s, a, b)
  {
    var t := g.text;
    TermsMatch(t, 0, |t|, true, more, s, a, b);
    if MatchesTerms(TextTerms(t, more), s, a, b) {
      var m :| a <= m <= b && GlobMatches(t, 0, |t|, true, s, a, m) && MatchesTerms(more, s, m, b);
      assert PatternMatches(g, s, a, m);
    }
    if m :| a <= m <= b && PatternMatches(g, s, a, m) && MatchesTerms(more, s, m, b) {
      assert GlobMatches(t, 0, |t|, true, s, a, m);
    }
  }

  lemma GroupTailMatches(t: Term, ts: Terms, g: Pattern, more: Terms, s: string, m: nat, b: nat)
    requires g.Grouped? && m <= b <= |s| && t == One(Group(AltsRegexp(g.alts)))
    requires forall n :: 0 <= n <= b ==> (MatchesTerms(ts, s, n, b) <==> Followed(g.rest, more, s, n, b))
    ensures MatchesTerms(Cons(t, ts), s, m, b) <==> GroupFollowed(g.alts, g.rest, more, s, m, b)
  {
    forall n | m <= n <= b
      ensures MatchesTerm(t, s, m, n) <==> AltsMatch(g.alts, s, m, n)
    {
      GroupMatches(g.alts, t, s, m, n);
    }
    ConsMatches(t, ts, g.alts, g.rest, more, s, m, b);
  }

  lemma ConsMatches(t: Term, ts: Terms, alts: Alts, rest: Pattern, more: Terms, s: string, m: nat,
                                       b: nat)
    requires m <= b <= |s|
    requires forall n :: m <= n <= b ==> (MatchesTerm(t, s, m, n) <==> AltsMatch(alts, s, m, n))
    requires forall n :: m <= n <= b ==> (MatchesTerms(ts, s, n, b) <==> Followed(rest, more, s, n, b))
    ensures MatchesTerms(Cons(t, ts), s, m, b) <==> GroupFollowed(alts, rest, more, s, m, b)
  {
    if MatchesTerms(Cons(t, ts), s, m, b) {
      var n := SplitTerms(t, ts, s, m, b);
    }
    if n :| m <= n <= b && AltsMatch(alts, s, m, n) && Followed(rest, more, s, n, b) {
      JoinTerms(t, ts, s, m, n, b);
    }
  }

  lemma TextThen(g: Pattern, more: Terms, tail: Terms, s: string, a: nat, b: nat)
    requires g.Grouped? && a <= b <= |s|
    requires forall m :: a <= m <= b ==> (MatchesTerms(tail, s, m, b) <==> GroupFollowed(g.alts, g.rest, more, s, m, b))
    ensures MatchesTerms(TextTerms(g.text, tail), s, a, b) <==> Followed(g, more, s, a, b)
  {
    var t := g.text;
    TermsMatch(t, 0, |t|, true, tail, s, a, b);
    if MatchesTerms(TextTerms(t, tail), s, a, b) {
      var m :| a <= m <= b && GlobMatches(t, 0, |t|, true, s, a, m) && MatchesTerms(tail, s, m, b);
      GroupedFollows(g, more, s, a, m, b);
    }
    if Followed(g, more, s, a, b) {
      var m := FollowedSplits(g, more, s, a, b);
      assert GlobMatches(t, 0, |t|, true, s, a, m) && MatchesTerms(tail, s, m, b);
    }
  }

  lemma GroupedFollows(g: Pattern, more: Terms, s: string, a: nat, m: nat, b: nat)
    requires g.Grouped? && a <= m <= b <= |s| && TextMatches(g.text, s, a, m)
      && GroupFollowed(g.alts, g.rest, more, s, m, b)
    ensures Followed(g, more, s, a, b)
  {
    var n :| m <= n <= b && AltsMatch(g.alts, s, m, n) && Followed(g.rest, more, s, n, b);
    var k :| n <= k <= b && PatternMatches(g.rest, s, n, k) && MatchesTerms(more, s, k, b);
    assert PatternMatches(g, s, a, k);
  }

  lemma FollowedSplits(g: Pattern, more: Terms, s: string, a: nat, b: nat) returns (m: nat)
    requires g.Grouped? && a <= b <= |s| && Followed(g, more, s, a, b)
    ensures a <= m <= b && TextMatches(g.text, s, a, m) && GroupFollowed(g.alts, g.rest, more, s, m, b)
  {
    var k :| a <= k <= b && PatternMatches(g, s, a, k) && MatchesTerms(more, s, k, b);
    var n;
    m, n :| a <= m <= n <= k && TextMatches(g.text, s, a, m) && AltsMatch(g.alts, s, m, n)
      && PatternMatches(g.rest, s, n, k);
    assert Followed(g.rest, more, s, n, b);
  }

  lemma GroupMatches(alts: Alts, t: Term, s: string, a: nat, b: nat)
    requires a <= b <= |s| && t == One(Group(AltsRegexp(alts)))
    ensures MatchesTerm(t, s, a, b) <==> AltsMatch(alts, s, a, b)
  {
    AltsRegexpMatches(alts, s, a, b);
    assert MatchesTerm(t, s, a, b) <==> MatchesAtom(t.a, s, a, b);
  }

  /** The pattern matches a part of the name; what is around it are stretches of a line. */
  ghost predicate PatternMatchesWithin(g: Pattern, s: string) {
    exists a, b :: 0 <= a <= b <= |s| && NoLineTerminator(s, 0, a) && NoLineTerminator(s, b, |s|)
      && PatternMatches(g, s, a, b)
  }

  /** In extended mode, for every pattern with flat groups: the emitted text is a regular expression,
      and it matches a whole name exactly if the pattern does; with `global`, exactly if the pattern
      matches within the name. */
  lemma MeaningOfGroups(g: Pattern, o: Options, s: string)
    requires o.extended && !o.globStar && GoodPattern(g)
    ensures Parse(Compile(Print(g), o)).Some?
    ensures FullMatch(Parse(Compile(Print(g), o)).value, s) <==>
      if o.global then PatternMatchesWithin(g, s) else PatternMatches(g, s, 0, |s|)
  {
    var p := Print(g);
    var end := if o.global then ".*" else "$";
    var more := if o.global then Cons(Many(Dot), Nil) else Cons(AtEnd, Nil);
    assert p[0..] == p;
    EndParses(o.global);
    PatternParses(p, 0, g, o, end, more);
    CompiledParses(p, o, end, PatternTerms(g, more));
    if o.global {
      GlobalGroups(g, PatternTerms(g, more), s);
    } else {
      AnchoredGroups(g, PatternTerms(g, more), s);
    }
  }

  lemma GlobalGroups(g: Pattern, ts: Terms, s: string)
    requires ts == PatternTerms(g, Cons(Many(Dot), Nil))
    ensures FullMatch(Alternative(Cons(Many(Dot), ts)), s) <==> PatternMatchesWithin(g, s)
  {
    var star, more := Alternative(Cons(Many(Dot), ts)).ts.head, Cons(Many(Dot), Nil);
    if MatchesTerms(Cons(star, ts), s, 0, |s|) {
      var a := SplitTerms(star, ts, s, 0, |s|);
      DotStar(star, s, 0, a);
      PatternTermsMatch(g, more, s, a, |s|);
      var b :| a <= b <= |s| && PatternMatches(g, s, a, b) && MatchesTerms(more, s, b, |s|);
      TailMatches(more, s, b);
    }
    if PatternMatchesWithin(g, s) {
      var a, b :| 0 <= a <= b <= |s| && NoLineTerminator(s, 0, a) && NoLineTerminator(s, b, |s|)
        && PatternMatches(g, s, a, b);
      DotStar(star, s, 0, a);
      TailMatches(more, s, b);
      PatternTermsMatch(g, more, s, a, |s|);
      assert Followed(g, more, s, a, |s|);
      JoinTerms(star, ts, s, 0, a, |s|);
    }
  }

  lemma AnchoredGroups(g: Pattern, ts: Terms, s: string)
    requires ts == PatternTerms(g, Cons(AtEnd, Nil))
    ensures FullMatch(Alternative(Cons(AtStart, ts)), s) <==> PatternMatches(g, s, 0, |s|)
  {
    var more := Cons(AtEnd, Nil);
    PatternTermsMatch(g, more, s, 0, |s|);
    forall m | 0 <= m <= |s|
      ensures MatchesTerms(more, s, m, |s|) <==> m == |s|
    {
      EndMatches(more, s, m);
    }
    if FullMatch(Alternative(Cons(AtStart, ts)), s) {
      var k := SplitTerms(AtStart, ts, s, 0, |s|);
    }
    if MatchesTerms(ts, s, 0, |s|) {
      assert MatchesTerm(AtStart, s, 0, 0);
      JoinTerms(AtStart, ts, s, 0, 0, |s|);
    }
  }
}
