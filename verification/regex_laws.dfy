/** How short a match can be: a regular expression that matches anything at all matches something no
    longer than its single characters, and there are no more of those than its text has. */
module RegexLaws {
  import opened Regex

  // ---------------------------------------------------------------------------
  // Single characters of an expression

  function SizeOfTerms(ts: Terms): nat {
    if ts.Nil? then 0 else SizeOfTerm(ts.head) + SizeOfTerms(ts.tail)
  }

  /** What a term matches at least, at most: nothing for a term that may be left out. */
  function SizeOfTerm(t: Term): nat {
    match t
    case One(a) => SizeOfAtom(a)
    case Plus(a) => SizeOfAtom(a)
    case _ => 0
  }

  function SizeOfAtom(a: Atom): nat { if a.Group? then SizeOf(a.d) else 1 }

  function SizeOf(d: Disjunction): nat { SizeOfTerms(d.ts) + if d.Either? then SizeOf(d.others) else 0 }

  // ---------------------------------------------------------------------------
  // Short matches

  /** `w` is matched wherever it stands; at the start, or the end, of a text only, if so asked. */
  ghost predicate TermsTake(ts: Terms, w: string, start: bool, end: bool) {
    forall a: string, b: string :: (start ==> a == "") && (end ==> b == "") ==>
      MatchesTerms(ts, a + w + b, |a|, |a| + |w|)
  }

  ghost predicate TermTakes(t: Term, w: string, start: bool, end: bool) {
    forall a: string, b: string :: (start ==> a == "") && (end ==> b == "") ==>
      MatchesTerm(t, a + w + b, |a|, |a| + |w|)
  }

  ghost predicate AtomTakes(x: Atom, w: string, start: bool, end: bool) {
    forall a: string, b: string :: (start ==> a == "") && (end ==> b == "") ==>
      MatchesAtom(x, a + w + b, |a|, |a| + |w|)
  }

  ghost predicate Takes(d: Disjunction, w: string, start: bool, end: bool) {
    forall a: string, b: string :: (start ==> a == "") && (end ==> b == "") ==>
      MatchesDisjunction(d, a + w + b, |a|, |a| + |w|)
  }

  lemma {:induction false} ShortTerms(ts: Terms, s: string, i: nat, j: nat) returns (w: string)
    requires i <= j <= |s| && MatchesTerms(ts, s, i, j)
    ensures |w| <= j - i && |w| <= SizeOfTerms(ts) && TermsTake(ts, w, i == 0, j == |s|)
    decreases ts, 3
  {
    if ts.Nil? {
      return "";
    }
    var k := SplitTerms(ts.head, ts.tail, s, i, j);
    var first := ShortTerm(ts.head, s, i, k);
    var rest := ShortTerms(ts.tail, s, k, j);
    w := first + rest;
    forall a: string, b: string | (i == 0 ==> a == "") && (j == |s| ==> b == "")
      ensures MatchesTerms(ts, a + w + b, |a|, |a| + |w|)
    {
      var u, v := a + first, rest + b;
      assert a + first + v == a + w + b && u + rest + b == a + w + b;
      assert MatchesTerm(ts.head, a + first + v, |a|, |a| + |first|);
      assert MatchesTerms(ts.tail, u + rest + b, |u|, |u| + |rest|);
      JoinTerms(ts.head, ts.tail, a + w + b, |a|, |u|, |u| + |rest|);
    }
  }

  lemma {:induction false} ShortTerm(t: Term, s: string, i: nat, j: nat) returns (w: string)
    requires i <= j <= |s| && MatchesTerm(t, s, i, j)
    ensures |w| <= j - i && |w| <= SizeOfTerm(t) && TermTakes(t, w, i == 0, j == |s|)
    decreases t, 2
  {
    match t
    case One(x) =>
      w := ShortAtom(x, s, i, j);
      forall a: string, b: string | (i == 0 ==> a == "") && (j == |s| ==> b == "")
        ensures MatchesTerm(t, a + w + b, |a|, |a| + |w|)
      {
        assert MatchesAtom(x, a + w + b, |a|, |a| + |w|);
      }
    case Plus(x) =>
      var k :| i <= k <= j && MatchesAtom(x, s, i, k) && MatchesMany(x, s, k, j);
      w := ShortAtom(x, s, i, k);
      forall a: string, b: string | (i == 0 ==> a == "") && (j == |s| ==> b == "")
        ensures MatchesTerm(t, a + w + b, |a|, |a| + |w|)
      {
        assert MatchesAtom(x, a + w + b, |a|, |a| + |w|);
        assert MatchesMany(x, a + w + b, |a| + |w|, |a| + |w|);
      }
    case Many(x) => w := "";
    case Maybe(x) => w := "";
    case AtStart => w := "";
    case AtEnd => w := "";
  }

  lemma {:induction false} ShortAtom(x: Atom, s: string, i: nat, j: nat) returns (w: string)
    requires i <= j <= |s| && MatchesAtom(x, s, i, j)
    ensures |w| <= j - i && |w| <= SizeOfAtom(x) && AtomTakes(x, w, i == 0, j == |s|)
    decreases x, 0
  {
    if x.Group? {
      w := Short(x.d, s, i, j);
      forall a: string, b: string | (i == 0 ==> a == "") && (j == |s| ==> b == "")
        ensures MatchesAtom(x, a + w + b, |a|, |a| + |w|)
      {
        assert MatchesDisjunction(x.d, a + w + b, |a|, |a| + |w|);
      }
    } else {
      w := [s[i]];
    }
  }

  lemma {:induction false} Short(d: Disjunction, s: string, i: nat, j: nat) returns (w: string)
    requires i <= j <= |s| && MatchesDisjunction(d, s, i, j)
    ensures |w| <= j - i && |w| <= SizeOf(d) && Takes(d, w, i == 0, j == |s|)
    decreases d, 4
  {
    if MatchesTerms(d.ts, s, i, j) {
      w := ShortTerms(d.ts, s, i, j);
      forall a: string, b: string | (i == 0 ==> a == "") && (j == |s| ==> b == "")
        ensures MatchesDisjunction(d, a + w + b, |a|, |a| + |w|)
      {
        assert MatchesTerms(d.ts, a + w + b, |a|, |a| + |w|);
      }
    } else {
      w := Short(d.others, s, i, j);
      forall a: string, b: string | (i == 0 ==> a == "") && (j == |s| ==> b == "")
        ensures MatchesDisjunction(d, a + w + b, |a|, |a| + |w|)
      {
        assert MatchesDisjunction(d.others, a + w + b, |a|, |a| + |w|);
      }
    }
  }

  /** An expression that matches some text matches one no longer than its single characters. */
  lemma ShortMatch(d: Disjunction, s: string) returns (w: string)
    requires FullMatch(d, s)
    ensures FullMatch(d, w) && |w| <= SizeOf(d)
  {
    w := Short(d, s, 0, |s|);
    var a, b := "", "";
    assert MatchesDisjunction(d, a + w + b, |a|, |a| + |w|);
    assert a + w + b == w;
  }

  // ---------------------------------------------------------------------------
  // Single characters of a text

  /** A character counts unless it may be left out. */
  function Counts(rest: string): nat { if rest != "" && (rest[0] == '*' || rest[0] == '?') then 0 else 1 }

  function Singles(t: string): nat {
    if t == "" then 0
    else if t[0] == '\\' && |t| >= 2 then Counts(t[2..]) + Singles(t[2..])
    else if t[0] == '.' || PatternChar(t[0]) then Counts(t[1..]) + Singles(t[1..])
    else Singles(t[1..])
  }

  lemma QuantifierCounts(a: Atom, rest: string)
    requires ParseQuantifier(a, rest).Some?
    ensures var (t, left) := ParseQuantifier(a, rest).value;
      && Singles(left) == Singles(rest)
      && (!a.Group? ==> SizeOfTerm(t) == Counts(rest))
      && SizeOfTerm(t) <= SizeOfAtom(a)
  {
    if StartsQuantifier(rest) {
      assert Singles(rest) == Singles(rest[1..]);
    }
  }

  lemma {:induction false} AtomCounts(t: string)
    requires ParseAtom(t).Some?
    ensures var (a, rest) := ParseAtom(t).value;
      if a.Group? then SizeOfAtom(a) + Singles(rest) <= Singles(t) else Singles(t) == Counts(rest) + Singles(rest)
    decreases |t|, 0
  {
    if t[0] == '(' {
      DisjunctionCounts(t[1..]);
      var (d, rest) := ParseDisjunction(t[1..]).value;
      assert Singles(rest) == Singles(rest[1..]);
    }
  }

  lemma {:induction false} TermCounts(t: string)
    requires ParseTerm(t).Some?
    ensures var (x, rest) := ParseTerm(t).value; SizeOfTerm(x) + Singles(rest) <= Singles(t)
    decreases |t|, 1
  {
    if t[0] != '^' && t[0] != '$' {
      AtomCounts(t);
      var (a, rest) := ParseAtom(t).value;
      QuantifierCounts(a, rest);
    }
  }

  lemma {:induction false} TermsCount(t: string)
    requires ParseTerms(t).Some?
    ensures var (ts, rest) := ParseTerms(t).value; SizeOfTerms(ts) + Singles(rest) <= Singles(t)
    decreases |t|, 2
  {
    if !(t == "" || t[0] == '|' || t[0] == ')') {
      TermCounts(t);
      TermsCount(ParseTerm(t).value.1);
    }
  }

  /** An expression has no more single characters than its text. */
  lemma {:induction false} DisjunctionCounts(t: string)
    requires ParseDisjunction(t).Some?
    ensures var (d, rest) := ParseDisjunction(t).value; SizeOf(d) + Singles(rest) <= Singles(t)
    decreases |t|, 3
  {
    TermsCount(t);
    var (ts, rest) := ParseTerms(t).value;
    if rest != "" && rest[0] == '|' {
      DisjunctionCounts(rest[1..]);
      assert Singles(rest) == Singles(rest[1..]);
    }
  }
}
