/** Parsing expressions as the parser's rules combine them, and regular expressions as the standard's productions do. */
module Peg {
  import opened Terms

  /** Then is seq, Else is the ordered choice sor, Star repeats greedily and never gives back. */
  datatype Peg =
    | Empty
    | Class(accepts: char -> bool)
    | Then(first: Peg, second: Peg)
    | Else(preferred: Peg, other: Peg)
    | Star(item: Peg)

  function Plus(item: Peg): Peg {
    Then(item, Star(item))
  }

  function Opt(item: Peg): Peg {
    Else(item, Empty)
  }

  function One(wanted: char): Peg {
    Class(c => c == wanted)
  }

  /** How much of the text the rule consumes from its start, if it succeeds. */
  function Match(p: Peg, s: string): (r: Option<nat>)
    ensures r.Some? ==> r.value <= |s|
    decreases p, |s|
  {
    match p
    case Empty => Some(0)
    case Class(accepts) => if s != [] && accepts(s[0]) then Some(1) else None
    case Then(first, second) =>
      var a := Match(first, s);
      if a.None? then None
      else
        var b := Match(second, s[a.value..]);
        if b.None? then None else Some(a.value + b.value)
    case Else(preferred, other) =>
      var a := Match(preferred, s);
      if a.Some? then a else Match(other, s)
    case Star(item) =>
      var a := Match(item, s);
      if a.None? || a.value == 0 then Some(0)
      else
        var rest := Match(p, s[a.value..]);
        Some(a.value + rest.value)
  }

  /** A production denotes a set of texts. */
  datatype Regex =
    | Nothing
    | Letter(member: char -> bool)
    | Cat(left: Regex, right: Regex)
    | Alt(one: Regex, two: Regex)
    | Rep(part: Regex)

  function Char(wanted: char): Regex {
    Letter(c => c == wanted)
  }

  function Maybe(part: Regex): Regex {
    Alt(part, Nothing)
  }

  function Some1(part: Regex): Regex {
    Cat(part, Rep(part))
  }

  ghost predicate Matches(r: Regex, s: string)
    decreases r, |s|, 1
  {
    match r
    case Nothing => s == []
    case Letter(member) => |s| == 1 && member(s[0])
    case Cat(left, right) => exists k: nat :: CatSplit(left, right, s, k)
    case Alt(one, two) => Matches(one, s) || Matches(two, s)
    case Rep(part) => s == [] || exists k: nat :: RepSplit(part, s, k)
  }

  ghost predicate CatSplit(left: Regex, right: Regex, s: string, k: nat)
    decreases Cat(left, right), |s|, 0
  {
    k <= |s| && Matches(left, s[..k]) && Matches(right, s[k..])
  }

  /** A first part, never empty, and the rest. */
  ghost predicate RepSplit(part: Regex, s: string, k: nat)
    decreases Rep(part), |s|, 0
  {
    0 < k <= |s| && Matches(part, s[..k]) && Matches(Rep(part), s[k..])
  }

  /** The rule consumes the longest prefix in the production, and fails only if no prefix is in it. */
  ghost predicate Longest(p: Peg, r: Regex, s: string) {
    match Match(p, s)
    case None => forall k :: 0 <= k <= |s| ==> !Matches(r, s[..k])
    case Some(n) => Matches(r, s[..n]) && forall k :: 0 <= k <= |s| && Matches(r, s[..k]) ==> k <= n
  }

  /** A token: at most one prefix of any text is in the production, never the empty one, and the rule consumes it. */
  ghost predicate TokenAt(p: Peg, r: Regex, s: string) {
    match Match(p, s)
    case None => forall k :: 0 <= k <= |s| ==> !Matches(r, s[..k])
    case Some(n) => n > 0 && forall k :: 0 <= k <= |s| ==> (Matches(r, s[..k]) <==> k == n)
  }

  ghost predicate Token(p: Peg, r: Regex) {
    forall s: string :: TokenAt(p, r, s)
  }
}
