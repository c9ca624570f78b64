/** Glob patterns as token lists, and when a string matches one. */
module Glob {
  import opened Bytes

  const QUESTION: byte := 63
  const OPEN: byte := 91
  const BACKSLASH: byte := 92
  const CLOSE: byte := 93
  const CARET: byte := 94
  const DASH: byte := 45

  /** A member of a class: a byte, an escaped byte, or a range. */
  datatype Item = One(c: byte) | Escaped(c: byte) | Range(lo: byte, hi: byte)

  datatype Token = Star | Any | Class(negated: bool, items: seq<Item>) | Lit(c: byte)

  /** tolower of the C locale. */
  function Fold(c: int): int {
    if 65 <= c <= 90 then c + 32 else c
  }

  /** A plain char is signed. */
  function AsChar(c: byte): int {
    if c < 128 then c else c - 256
  }

  /** The bounds are put in order before they are folded; an escaped byte is
      never folded. */
  predicate ItemMatches(it: Item, c: byte, nocase: bool) {
    match it
    case One(x) => if nocase then Fold(AsChar(x)) == Fold(AsChar(c)) else x == c
    case Escaped(x) => x == c
    case Range(x, y) =>
      var lo := if AsChar(x) > AsChar(y) then AsChar(y) else AsChar(x);
      var hi := if AsChar(x) > AsChar(y) then AsChar(x) else AsChar(y);
      if nocase then Fold(lo) <= Fold(AsChar(c)) <= Fold(hi) else lo <= AsChar(c) <= hi
  }

  predicate TokenMatches(t: Token, c: byte, nocase: bool)
    requires !t.Star?
  {
    match t
    case Any => true
    case Class(negated, items) => negated != exists k :: 0 <= k < |items| && ItemMatches(items[k], c, nocase)
    case Lit(x) => if nocase then Fold(AsChar(x)) == Fold(AsChar(c)) else x == c
  }

  /** The declarative meaning: a star stands for some prefix, any other token
      for one byte. */
  predicate Matches(ts: seq<Token>, s: Bytes, nocase: bool)
    decreases |ts|
  {
    if ts == [] then s == []
    else if ts[0].Star? then exists k :: 0 <= k <= |s| && Matches(ts[1..], s[k..], nocase)
    else s != [] && TokenMatches(ts[0], s[0], nocase) && Matches(ts[1..], s[1..], nocase)
  }

  // ---- From pattern text to tokens ----

  /** The members of a class from index i on, and where the text goes on. A
      class that is never closed ends with the pattern. */
  function Members(p: Bytes, i: nat): (r: (seq<Item>, nat))
    requires i <= |p|
    ensures i <= r.1 <= |p|
    decreases |p| - i
  {
    if i == |p| then ([], i)
    else if p[i] == BACKSLASH then
      if i + 1 == |p| then ([], |p|)
      else var (rest, e) := Members(p, i + 2); ([Escaped(p[i + 1])] + rest, e)
    else if p[i] == CLOSE then ([], i + 1)
    else if |p| - i >= 3 && p[i + 1] == DASH then
      var (rest, e) := Members(p, i + 3); ([Range(p[i], p[i + 2])] + rest, e)
    else var (rest, e) := Members(p, i + 1); ([One(p[i])] + rest, e)
  }

  /** No backslash is the last byte of the class. */
  predicate Closes(p: Bytes, i: nat)
    requires i <= |p|
    decreases |p| - i
  {
    if i == |p| || p[i] == CLOSE then true
    else if p[i] == BACKSLASH then i + 1 < |p| && Closes(p, i + 2)
    else if |p| - i >= 3 && p[i + 1] == DASH then Closes(p, i + 3)
    else Closes(p, i + 1)
  }

  /** Where the members of a class opened at i begin. */
  function ClassStart(p: Bytes, i: nat): (k: nat)
    requires i < |p|
    ensures i < k <= |p|
  {
    if i + 1 < |p| && p[i + 1] == CARET then i + 2 else i + 1
  }

  function Tokens(p: Bytes, i: nat): seq<Token>
    requires i <= |p|
    decreases |p| - i
  {
    if i == |p| then []
    else if p[i] == STAR then [Star] + Tokens(p, i + 1)
    else if p[i] == QUESTION then [Any] + Tokens(p, i + 1)
    else if p[i] == OPEN then
      var (items, e) := Members(p, ClassStart(p, i));
      [Class(ClassStart(p, i) == i + 2, items)] + Tokens(p, e)
    else if p[i] == BACKSLASH && i + 1 < |p| then [Lit(p[i + 1])] + Tokens(p, i + 2)
    else [Lit(p[i])] + Tokens(p, i + 1)
  }

  /** Every class of the pattern from i on ends without a dangling backslash. */
  predicate WellFormed(p: Bytes, i: nat)
    requires i <= |p|
    decreases |p| - i
  {
    if i == |p| then true
    else if p[i] == OPEN then
      Closes(p, ClassStart(p, i)) && WellFormed(p, Members(p, ClassStart(p, i)).1)
    else if p[i] == BACKSLASH && i + 1 < |p| then WellFormed(p, i + 2)
    else WellFormed(p, i + 1)
  }

  // ---- Laws of matching ----

  predicate AllStars(ts: seq<Token>) {
    forall k :: 0 <= k < |ts| ==> ts[k].Star?
  }

  lemma AllStarsTail(ts: seq<Token>)
    requires ts != []
    ensures AllStars(ts) <==> ts[0].Star? && AllStars(ts[1..])
  {
    assert forall k :: 1 <= k < |ts| ==> ts[k] == ts[1..][k - 1];
  }

  /** Only stars match nothing. */
  lemma {:induction false} MatchesEmpty(ts: seq<Token>, nocase: bool)
    ensures Matches(ts, [], nocase) <==> AllStars(ts)
    decreases |ts|
  {
    if ts != [] {
      MatchesEmpty(ts[1..], nocase);
      AllStarsTail(ts);
      var none: Bytes := [];
      assert none[0..] == none;
    }
  }

  /** A run of stars means what one star means. */
  lemma StarsCollapse(ts: seq<Token>, s: Bytes, nocase: bool)
    requires |ts| >= 2 && ts[0].Star? && ts[1].Star?
    ensures Matches(ts, s, nocase) <==> Matches(ts[1..], s, nocase)
  {
    var rest := ts[1..][1..];
    if Matches(ts[1..], s, nocase) {
      assert s[0..] == s;
    }
    if Matches(ts, s, nocase) {
      var k :| 0 <= k <= |s| && Matches(ts[1..], s[k..], nocase);
      var m :| 0 <= m <= |s[k..]| && Matches(rest, s[k..][m..], nocase);
      assert s[k..][m..] == s[k + m..];
    }
  }

  lemma StarAlone(s: Bytes, nocase: bool)
    ensures Matches([Star], s, nocase)
  {
    assert s[|s|..] == [];
    assert Matches([Star][1..], s[|s|..], nocase);
  }

  // ---- How the token at a position is spelled ----

  lemma StarAt(p: Bytes, i: nat)
    requires i < |p| && p[i] == STAR && WellFormed(p, i)
    ensures Tokens(p, i) == [Star] + Tokens(p, i + 1) && WellFormed(p, i + 1)
  {
  }

  lemma OtherAt(p: Bytes, i: nat)
    requires i < |p| && p[i] != STAR
    ensures Tokens(p, i) != [] && !Tokens(p, i)[0].Star?
  {
  }

  lemma AnyAt(p: Bytes, i: nat)
    requires i < |p| && p[i] == QUESTION && WellFormed(p, i)
    ensures Tokens(p, i) == [Any] + Tokens(p, i + 1) && WellFormed(p, i + 1)
  {
  }

  lemma ClassAt(p: Bytes, i: nat)
    requires i < |p| && p[i] == OPEN && WellFormed(p, i)
    ensures Closes(p, ClassStart(p, i))
    ensures var (items, e) := Members(p, ClassStart(p, i));
            && Tokens(p, i) == [Class(ClassStart(p, i) == i + 2, items)] + Tokens(p, e)
            && WellFormed(p, e)
  {
  }

  lemma LitAt(p: Bytes, i: nat)
    requires i < |p| && p[i] !in {STAR, QUESTION, OPEN} && WellFormed(p, i)
    ensures var k := if p[i] == BACKSLASH && i + 1 < |p| then i + 1 else i;
            Tokens(p, i) == [Lit(p[k])] + Tokens(p, k + 1) && WellFormed(p, k + 1)
  {
  }
}
