/** The part of ECMA-262 regular expressions (3rd edition, section 15.10) that the glob compiler
    emits: grammar, and which stretches of a text an expression matches.

    Character classes and counted repetition are not part of the model, nor are escapes of letters,
    digits and underscores: a text with one of these does not parse here.  An escaped
    character is taken for itself if it is not a letter, digit or underscore.  (The standard also
    excludes `$`, which may occur in identifiers; implementations of `std::regex` take it.) */
module Regex {
  import opened Wrappers

  datatype Atom = Chr(c: char) | Dot | Group(d: Disjunction)

  datatype Term = One(a: Atom) | Many(a: Atom) | Plus(a: Atom) | Maybe(a: Atom) | AtStart | AtEnd

  datatype Terms = Nil | Cons(head: Term, tail: Terms)

  datatype Disjunction = Alternative(ts: Terms) | Either(ts: Terms, others: Disjunction)

  // ---------------------------------------------------------------------------
  // Grammar

  predicate WordChar(c: char) { 'a' <= c <= 'z' || 'A' <= c <= 'Z' || '0' <= c <= '9' || c == '_' }

  /** `PatternCharacter` */
  predicate PatternChar(c: char) {
    c !in ['^', '$', '\\', '.', '*', '+', '?', '(', ')', '[', ']', '{', '}', '|']
  }

  predicate StartsQuantifier(t: string) { t != "" && t[0] in ['*', '+', '?', '{'] }

  /** A question mark after a quantifier changes which match is preferred, not which there are. */
  function AfterLazy(t: string): (r: string)
    ensures |r| <= |t|
  {
    if t != "" && t[0] == '?' then t[1..] else t
  }

  /** What an atom is followed by: nothing, or `*`, `+` or `?`. */
  function ParseQuantifier(a: Atom, rest: string): (r: Option<(Term, string)>)
    ensures r.Some? ==> |r.value.1| <= |rest|
  {
    if !StartsQuantifier(rest) then Some((One(a), rest))
    else if rest[0] == '*' then Some((Many(a), AfterLazy(rest[1..])))
    else if rest[0] == '+' then Some((Plus(a), AfterLazy(rest[1..])))
    else if rest[0] == '?' then Some((Maybe(a), AfterLazy(rest[1..])))
    else None
  }

  function ParseAtom(t: string): (r: Option<(Atom, string)>)
    ensures r.Some? ==> |r.value.1| < |t|
    decreases |t|, 0
  {
    if t == "" then None
    else if t[0] == '.' then Some((Dot, t[1..]))
    else if t[0] == '\\' then (if |t| >= 2 && !WordChar(t[1]) then Some((Chr(t[1]), t[2..])) else None)
    else if t[0] == '(' then
      (if |t| >= 2 && t[1] == '?' then None
       else
         match ParseDisjunction(t[1..])
         case None => None
         case Some((d, rest)) => if rest != "" && rest[0] == ')' then Some((Group(d), rest[1..])) else None)
    else if PatternChar(t[0]) then Some((Chr(t[0]), t[1..]))
    else None
  }

  function ParseTerm(t: string): (r: Option<(Term, string)>)
    ensures r.Some? ==> |r.value.1| < |t|
    decreases |t|, 1
  {
    if t == "" then None
    else if t[0] == '^' then Some((AtStart, t[1..]))
    else if t[0] == '$' then Some((AtEnd, t[1..]))
    else
      match ParseAtom(t)
      case None => None
      case Some((a, rest)) => ParseQuantifier(a, rest)
  }

  function ParseTerms(t: string): (r: Option<(Terms, string)>)
    ensures r.Some? ==> |r.value.1| <= |t|
    decreases |t|, 2
  {
    if t == "" || t[0] == '|' || t[0] == ')' then Some((Nil, t))
    else
      match ParseTerm(t)
      case None => None
      case Some((head, rest)) =>
        match ParseTerms(rest)
        case None => None
        case Some((tail, left)) => Some((Cons(head, tail), left))
  }

  function ParseDisjunction(t: string): (r: Option<(Disjunction, string)>)
    ensures r.Some? ==> |r.value.1| <= |t|
    decreases |t|, 3
  {
    match ParseTerms(t)
    case None => None
    case Some((ts, rest)) =>
      if rest == "" || rest[0] != '|' then Some((Alternative(ts), rest))
      else
        match ParseDisjunction(rest[1..])
        case None => None
        case Some((others, left)) => Some((Either(ts, others), left))
  }

  /** A text is a pattern if it is used up. */
  function Parse(t: string): Option<Disjunction> {
    match ParseDisjunction(t)
    case None => None
    case Some((d, rest)) => if rest == "" then Some(d) else None
  }

  // ---------------------------------------------------------------------------
  // Matching

  predicate LineTerminator(c: char) { c == '\n' || c == '\r' || c == '\U{2028}' || c == '\U{2029}' }

  /** The term list matches `s` from `i` to `j`. */
  ghost predicate MatchesTerms(ts: Terms, s: string, i: nat, j: nat)
    requires i <= j <= |s|
    decreases ts, 3
  {
    match ts
    case Nil => i == j
    case Cons(t, rest) => exists k :: i <= k <= j && MatchesTerm(t, s, i, k) && MatchesTerms(rest, s, k, j)
  }

  ghost predicate MatchesTerm(t: Term, s: string, i: nat, j: nat)
    requires i <= j <= |s|
    decreases t, 2
  {
    match t
    case One(a) => MatchesAtom(a, s, i, j)
    case Many(a) => MatchesMany(a, s, i, j)
    case Plus(a) => exists k :: i <= k <= j && MatchesAtom(a, s, i, k) && MatchesMany(a, s, k, j)
    case Maybe(a) => i == j || MatchesAtom(a, s, i, j)
    case AtStart => i == j == 0
    case AtEnd => i == j == |s|
  }

  ghost predicate MatchesMany(a: Atom, s: string, i: nat, j: nat)
    requires i <= j <= |s|
    decreases a, 1, j - i
  {
    i == j || exists k :: i < k <= j && MatchesAtom(a, s, i, k) && MatchesMany(a, s, k, j)
  }

  ghost predicate MatchesAtom(a: Atom, s: string, i: nat, j: nat)
    requires i <= j <= |s|
    decreases a, 0
  {
    match a
    case Chr(c) => j == i + 1 && s[i] == c
    case Dot => j == i + 1 && !LineTerminator(s[i])
    case Group(d) => MatchesDisjunction(d, s, i, j)
  }

  ghost predicate MatchesDisjunction(d: Disjunction, s: string, i: nat, j: nat)
    requires i <= j <= |s|
    decreases d, 4
  {
    MatchesTerms(d.ts, s, i, j) || (d.Either? && MatchesDisjunction(d.others, s, i, j))
  }

  /** `std::regex_match`: the whole text is matched. */
  ghost predicate FullMatch(d: Disjunction, s: string) { MatchesDisjunction(d, s, 0, |s|) }

  predicate NoLineTerminator(s: string, i: nat, j: nat)
    requires i <= j <= |s|
  {
    forall k :: i <= k < j ==> !LineTerminator(s[k])
  }

  /** `.*` is any stretch of a line. */
  lemma {:induction false} DotsMatch(s: string, i: nat, j: nat)
    requires i <= j <= |s|
    ensures MatchesMany(Dot, s, i, j) <==> NoLineTerminator(s, i, j)
    decreases j - i
  {
    if i < j {
      DotsMatch(s, i + 1, j);
      if NoLineTerminator(s, i, j) {
        assert MatchesAtom(Dot, s, i, i + 1) && MatchesMany(Dot, s, i + 1, j);
      }
    }
  }

  lemma DotStar(t: Term, s: string, i: nat, j: nat)
    requires t == Many(Dot) && i <= j <= |s|
    ensures MatchesTerm(t, s, i, j) <==> NoLineTerminator(s, i, j)
  {
    assert MatchesTerm(t, s, i, j) <==> MatchesMany(t.a, s, i, j);
    DotsMatch(s, i, j);
  }

  lemma SplitTerms(t: Term, rest: Terms, s: string, i: nat, j: nat) returns (k: nat)
    requires i <= j <= |s| && MatchesTerms(Cons(t, rest), s, i, j)
    ensures i <= k <= j && MatchesTerm(t, s, i, k) && MatchesTerms(rest, s, k, j)
  {
    k :| i <= k <= j && MatchesTerm(t, s, i, k) && MatchesTerms(rest, s, k, j);
  }

  lemma JoinTerms(t: Term, rest: Terms, s: string, i: nat, k: nat, j: nat)
    requires i <= k <= j <= |s| && MatchesTerm(t, s, i, k) && MatchesTerms(rest, s, k, j)
    ensures MatchesTerms(Cons(t, rest), s, i, j)
  {
  }
}
