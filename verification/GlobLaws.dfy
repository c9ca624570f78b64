/** What patterns mean, told by their text: which bytes a class stands for, and
    which strings literal text, escapes, question marks and stars match. */
module GlobLaws {
  import opened Bytes
  import opened Glob

  /** The same byte, or upper and lower case of one letter. */
  predicate SameLetter(x: byte, c: byte) {
    x == c || (65 <= x <= 90 && c == x + 32) || (65 <= c <= 90 && x == c + 32)
  }

  /** The place of a byte in the order of a signed char, counted from zero. */
  function Rank(c: byte): nat {
    (c + 128) % 256
  }

  lemma MatchesOne(t: Token, s: Bytes, nocase: bool)
    requires !t.Star?
    ensures Matches([t], s, nocase) <==> |s| == 1 && TokenMatches(t, s[0], nocase)
  {
    if s != [] { assert [t][1..] == []; }
  }

  // ---- Classes ----

  /** A member as it is spelled. */
  function ItemText(it: Item): Bytes {
    match it
    case One(c) => [c]
    case Escaped(c) => [BACKSLASH, c]
    case Range(lo, hi) => [lo, DASH, hi]
  }

  function ItemTexts(items: seq<Item>): Bytes {
    if items == [] then [] else ItemText(items[0]) + ItemTexts(items[1..])
  }

  /** A class with these members in its brackets. */
  function ClassText(items: seq<Item>): Bytes {
    [OPEN] + ItemTexts(items) + [CLOSE]
  }

  /** No byte of special meaning stands where a member begins. */
  predicate Plainly(it: Item) {
    match it
    case One(c) => c !in {CLOSE, BACKSLASH, DASH, CARET}
    case Escaped(_) => true
    case Range(lo, _) => lo !in {CLOSE, BACKSLASH, DASH, CARET}
  }

  lemma {:induction false} MembersOfText(p: Bytes, i: nat, items: seq<Item>)
    requires i <= |p| && p[i..] == ItemTexts(items) + [CLOSE] && forall it :: it in items ==> Plainly(it)
    ensures Members(p, i) == (items, |p|)
    decreases |items|
  {
    hide Members, ItemText, Plainly;
    if items == [] {
      assert p[i] == p[i..][0] == CLOSE;
      NoMember(p, i);
    } else {
      var x, rest := ItemText(items[0]), ItemTexts(items[1..]) + [CLOSE];
      assert items[0] in items;
      assert p[i..] == x + rest;
      NotDash(items[1..]);
      MemberFirst(p, i, items[0], rest);
      assert p[i + |x|..] == p[i..][|x|..] == rest;
      MembersOfText(p, i + |x|, items[1..]);
      assert [items[0]] + items[1..] == items;
    }
  }

  lemma NoMember(p: Bytes, i: nat)
    requires i < |p| && p[i] == CLOSE
    ensures Members(p, i) == ([], i + 1)
  {
  }

  lemma NotDash(items: seq<Item>)
    requires forall it :: it in items ==> Plainly(it)
    ensures (ItemTexts(items) + [CLOSE])[0] != DASH
  {
    if items != [] { assert items[0] in items; }
  }

  lemma MemberFirst(p: Bytes, i: nat, it: Item, rest: Bytes)
    requires i <= |p| && p[i..] == ItemText(it) + rest && rest != [] && Plainly(it)
    ensures var x := ItemText(it);
            && i + |x| <= |p|
            && (rest[0] != DASH ==>
                  Members(p, i) == ([it] + Members(p, i + |x|).0, Members(p, i + |x|).1))
  {
    var x := ItemText(it);
    assert forall k :: 0 <= k < |x| ==> p[i + k] == p[i..][k] == x[k];
    assert p[i + |x|] == p[i..][|x|] == rest[0];
  }

  lemma ClassTokens(items: seq<Item>)
    requires items != [] && forall it :: it in items ==> Plainly(it)
    ensures Tokens(ClassText(items), 0) == [Class(false, items)]
  {
    hide Tokens, Members, ItemTexts;
    var p := ClassText(items);
    assert p[1..] == ItemTexts(items) + [CLOSE];
    MembersOfText(p, 1, items);
    assert items[0] in items;
    assert p[1] == p[1..][0] == ItemText(items[0])[0] by { FirstText(items); }
    WholeClass(p, items);
  }

  lemma FirstText(items: seq<Item>)
    requires items != []
    ensures ItemTexts(items) != [] && ItemTexts(items)[0] == ItemText(items[0])[0]
  {
  }

  lemma WholeClass(p: Bytes, items: seq<Item>)
    requires |p| > 1 && p[0] == OPEN && p[1] != CARET && Members(p, 1) == (items, |p|)
    ensures Tokens(p, 0) == [Class(false, items)]
  {
    hide Members;
    assert Tokens(p, |p|) == [];
  }

  /** A class stands for what its members stand for, one by one. */
  lemma {:induction false} ClassIsUnion(items: seq<Item>, s: Bytes, nocase: bool)
    requires items != [] && forall it :: it in items ==> Plainly(it)
    ensures Matches(Tokens(ClassText(items), 0), s, nocase) <==>
            exists it :: it in items && Matches(Tokens(ClassText([it]), 0), s, nocase)
  {
    hide Matches, Tokens, ClassText, ItemMatches;
    ClassTokens(items);
    MatchesOne(Class(false, items), s, nocase);
    forall it | it in items
      ensures Matches(Tokens(ClassText([it]), 0), s, nocase) <==> |s| == 1 && ItemMatches(it, s[0], nocase)
    {
      MemberAlone(it, s, nocase);
    }
    if |s| == 1 {
      forall k | 0 <= k < |items| ensures items[k] in items {}
    }
  }

  lemma MemberAlone(it: Item, s: Bytes, nocase: bool)
    requires Plainly(it)
    ensures Matches(Tokens(ClassText([it]), 0), s, nocase) <==> |s| == 1 && ItemMatches(it, s[0], nocase)
  {
    hide Matches, Tokens, ClassText, ItemMatches;
    ClassTokens([it]);
    MatchesOne(Class(false, [it]), s, nocase);
    assert [it][0] == it;
  }

  lemma OneText(it: Item)
    ensures ClassText([it]) == [OPEN] + ItemText(it) + [CLOSE]
  {
    assert [it][1..] == [];
    assert ItemTexts([it]) == ItemText(it) + [];
  }

  lemma RangeItem(x: byte, y: byte, c: byte)
    ensures ItemMatches(Range(x, y), c, false) <==>
            Rank(x) <= Rank(c) <= Rank(y) || Rank(y) <= Rank(c) <= Rank(x)
  {
  }

  /** [x-y] matches the bytes from x to y, both included, in the order of signed
      chars; the bounds may be given in either order, and y may be any byte. */
  lemma RangeMatches(x: byte, y: byte, s: Bytes)
    requires x !in {CLOSE, BACKSLASH, DASH, CARET}
    ensures Matches(Tokens([OPEN, x, DASH, y, CLOSE], 0), s, false) <==>
            && |s| == 1
            && (Rank(x) <= Rank(s[0]) <= Rank(y) || Rank(y) <= Rank(s[0]) <= Rank(x))
  {
    hide Matches, Tokens, ClassText;
    OneText(Range(x, y));
    assert ClassText([Range(x, y)]) == [OPEN, x, DASH, y, CLOSE];
    MemberAlone(Range(x, y), s, false);
    hide ItemMatches, Rank;
    if |s| == 1 { RangeItem(x, y, s[0]); }
  }

  /** A range of lower-case letters matches, regardless of case, these letters in
      both cases, and nothing else. */
  lemma FoldedRangeMatches(x: byte, y: byte, s: Bytes)
    requires 97 <= x <= y <= 122
    ensures Matches(Tokens([OPEN, x, DASH, y, CLOSE], 0), s, true) <==>
            |s| == 1 && (x <= s[0] <= y || x - 32 <= s[0] <= y - 32)
  {
    hide Matches, Tokens, ClassText;
    OneText(Range(x, y));
    assert ClassText([Range(x, y)]) == [OPEN, x, DASH, y, CLOSE];
    MemberAlone(Range(x, y), s, true);
  }

  /** Bounds may be exchanged, with and without regard to case. */
  lemma RangeEitherWay(x: byte, y: byte, s: Bytes, nocase: bool)
    requires x !in {CLOSE, BACKSLASH, DASH, CARET} && y !in {CLOSE, BACKSLASH, DASH, CARET}
    ensures Matches(Tokens([OPEN, x, DASH, y, CLOSE], 0), s, nocase) <==>
            Matches(Tokens([OPEN, y, DASH, x, CLOSE], 0), s, nocase)
  {
    hide Matches, Tokens, ClassText;
    OneText(Range(x, y));
    OneText(Range(y, x));
    assert ClassText([Range(x, y)]) == [OPEN, x, DASH, y, CLOSE];
    assert ClassText([Range(y, x)]) == [OPEN, y, DASH, x, CLOSE];
    MemberAlone(Range(x, y), s, nocase);
    MemberAlone(Range(y, x), s, nocase);
  }

  /** An escaped byte in a class matches itself only, whatever it is. */
  lemma EscapedMatches(x: byte, s: Bytes, nocase: bool)
    ensures Matches(Tokens([OPEN, BACKSLASH, x, CLOSE], 0), s, nocase) <==> s == [x]
  {
    hide Matches, Tokens, ClassText;
    OneText(Escaped(x));
    assert ClassText([Escaped(x)]) == [OPEN, BACKSLASH, x, CLOSE];
    MemberAlone(Escaped(x), s, nocase);
  }

  /** A byte in a class matches itself, and regardless of case its other case. */
  lemma SingleMatches(x: byte, s: Bytes, nocase: bool)
    requires x !in {CLOSE, BACKSLASH, DASH, CARET}
    ensures Matches(Tokens([OPEN, x, CLOSE], 0), s, nocase) <==>
            |s| == 1 && if nocase then SameLetter(x, s[0]) else x == s[0]
  {
    hide Matches, Tokens, ClassText;
    OneText(One(x));
    assert ClassText([One(x)]) == [OPEN, x, CLOSE];
    MemberAlone(One(x), s, nocase);
  }

  // ---- Negation ----

  lemma {:induction false} MembersShift(p: Bytes, q: Bytes, i: nat)
    requires i <= |p| && i + 1 <= |q| && q[i + 1..] == p[i..]
    ensures Members(q, i + 1) == (Members(p, i).0, Members(p, i).1 + 1)
    decreases |p| - i
  {
    assert |q| == |p| + 1;
    forall k | i <= k < |p| ensures q[k + 1] == p[k] {
      assert q[i + 1..][k - i] == p[i..][k - i];
    }
    if i < |p| && p[i] != CLOSE {
      var d := if p[i] == BACKSLASH then (if i + 1 == |p| then 1 else 2)
               else if |p| - i >= 3 && p[i + 1] == DASH then 3 else 1;
      assert q[i + d + 1..] == p[i + d..];
      MembersShift(p, q, i + d);
    }
  }

  /** With a caret behind the bracket the answer for every byte is the opposite,
      whatever the class, as long as it takes up the whole pattern. */
  lemma {:induction false} NegationIsOpposite(t: Bytes, c: byte, nocase: bool)
    requires (t != [] ==> t[0] != CARET) && Members([OPEN] + t, 1).1 == 1 + |t|
    ensures Matches(Tokens([OPEN, CARET] + t, 0), [c], nocase) <==>
            !Matches(Tokens([OPEN] + t, 0), [c], nocase)
  {
    hide Matches, Members;
    var p, q := [OPEN] + t, [OPEN, CARET] + t;
    assert q[2..] == p[1..];
    MembersShift(p, q, 1);
    var items := Members(p, 1).0;
    assert Tokens(p, |p|) == [] && Tokens(q, |q|) == [];
    assert Tokens(p, 0) == [Class(false, items)];
    assert Tokens(q, 0) == [Class(true, items)];
    MatchesOne(Class(false, items), [c], nocase);
    MatchesOne(Class(true, items), [c], nocase);
  }

  // ---- Literal text, question marks and stars ----

  predicate Plain(x: Bytes) {
    forall k :: 0 <= k < |x| ==> x[k] !in {STAR, QUESTION, OPEN, BACKSLASH}
  }

  predicate Alike(x: Bytes, s: Bytes, nocase: bool) {
    if nocase then |x| == |s| && forall k :: 0 <= k < |x| ==> SameLetter(x[k], s[k]) else x == s
  }

  function Lits(x: Bytes): (ts: seq<Token>)
    ensures |ts| == |x| && forall k :: 0 <= k < |x| ==> ts[k] == Lit(x[k])
  {
    seq(|x|, k requires 0 <= k < |x| => Lit(x[k]))
  }

  lemma PlainToken(p: Bytes, i: nat)
    requires i < |p| && p[i] !in {STAR, QUESTION, OPEN, BACKSLASH}
    ensures Tokens(p, i) == [Lit(p[i])] + Tokens(p, i + 1)
  {
  }

  lemma {:induction false} TokensPlain(p: Bytes, i: nat, j: nat)
    requires i <= j <= |p| && Plain(p[i..j])
    ensures Tokens(p, i) == Lits(p[i..j]) + Tokens(p, j)
    decreases j - i
  {
    hide Tokens;
    if i == j {
      assert Lits(p[i..j]) + Tokens(p, j) == Tokens(p, j);
    } else {
      assert p[i] == p[i..j][0];
      assert p[i + 1..j] == p[i..j][1..];
      PlainToken(p, i);
      TokensPlain(p, i + 1, j);
      assert Lits(p[i..j]) == [Lit(p[i])] + Lits(p[i + 1..j]);
      assert [Lit(p[i])] + Lits(p[i + 1..j]) + Tokens(p, j) == [Lit(p[i])] + (Lits(p[i + 1..j]) + Tokens(p, j));
    }
  }

  lemma LitMatches(x: byte, c: byte, nocase: bool)
    ensures TokenMatches(Lit(x), c, nocase) <==> if nocase then SameLetter(x, c) else x == c
  {
  }

  lemma {:induction false} MatchesLits(x: Bytes, ts: seq<Token>, s: Bytes, nocase: bool)
    ensures Matches(Lits(x) + ts, s, nocase) <==>
            |x| <= |s| && Alike(x, s[..|x|], nocase) && Matches(ts, s[|x|..], nocase)
    decreases |x|
  {
    hide TokenMatches;
    if x == [] {
      assert Lits(x) + ts == ts && s[0..] == s && s[..0] == [];
    } else if s != [] {
      assert (Lits(x) + ts)[1..] == Lits(x[1..]) + ts && (Lits(x) + ts)[0] == Lit(x[0]);
      LitMatches(x[0], s[0], nocase);
      MatchesLits(x[1..], ts, s[1..], nocase);
      if |x| <= |s| {
        assert s[1..][|x| - 1..] == s[|x|..];
        AlikeFirst(x, s[..|x|], nocase);
        assert s[..|x|][1..] == s[1..][..|x| - 1];
      }
    }
  }

  lemma AlikeFirst(x: Bytes, s: Bytes, nocase: bool)
    requires x != [] && |x| == |s|
    ensures Alike(x, s, nocase) <==>
            (if nocase then SameLetter(x[0], s[0]) else x[0] == s[0]) && Alike(x[1..], s[1..], nocase)
  {
    assert x == [x[0]] + x[1..] && s == [s[0]] + s[1..];
    assert forall k :: 1 <= k < |x| ==> x[k] == x[1..][k - 1] && s[k] == s[1..][k - 1];
  }

  /** Text without special bytes matches itself only, or regardless of case its
      other spellings. */
  lemma TextMatches(x: Bytes, s: Bytes, nocase: bool)
    requires Plain(x)
    ensures Matches(Tokens(x, 0), s, nocase) <==> Alike(x, s, nocase)
  {
    assert x[0..|x|] == x && Tokens(x, |x|) == [];
    TokensPlain(x, 0, |x|);
    MatchesLits(x, [], s, nocase);
    if |x| == |s| { assert s[..|x|] == s && s[|x|..] == []; }
  }

  /** An escaped byte matches itself, special or not. */
  lemma EscapedTextMatches(x: byte, s: Bytes, nocase: bool)
    ensures Matches(Tokens([BACKSLASH, x], 0), s, nocase) <==> Alike([x], s, nocase)
  {
    var p: Bytes := [BACKSLASH, x];
    assert Tokens(p, 2) == [];
    assert Tokens(p, 0) == [Lit(x)];
    MatchesOne(Lit(x), s, nocase);
    LitMatches(x, if s == [] then x else s[0], nocase);
  }

  lemma QuestionMatches(s: Bytes, nocase: bool)
    ensures Matches(Tokens([QUESTION], 0), s, nocase) <==> |s| == 1
  {
    var p: Bytes := [QUESTION];
    assert Tokens(p, 1) == [];
    assert Tokens(p, 0) == [Any];
    MatchesOne(Any, s, nocase);
  }

  /** A star between two texts stands for anything, also for nothing. */
  lemma StarMatches(x: Bytes, y: Bytes, s: Bytes, nocase: bool)
    requires Plain(x) && Plain(y)
    ensures Matches(Tokens(x + [STAR] + y, 0), s, nocase) <==>
            |x| + |y| <= |s| && Alike(x, s[..|x|], nocase) && Alike(y, s[|s| - |y|..], nocase)
  {
    hide Matches, Alike;
    var p := x + [STAR] + y;
    assert p[0..|x|] == x && p[|x| + 1..|p|] == y && p[|x|] == STAR;
    TokensPlain(p, 0, |x|);
    TokensPlain(p, |x| + 1, |p|);
    assert Tokens(p, |p|) == [];
    var ts := [Star] + Lits(y);
    assert Tokens(p, 0) == Lits(x) + ts by { assert Lits(y) + [] == Lits(y); }
    MatchesLits(x, ts, s, nocase);
    if |x| <= |s| {
      var t := s[|x|..];
      StarThen(y, t, nocase);
      if |y| <= |t| { assert t[|t| - |y|..] == s[|s| - |y|..]; }
    }
  }

  lemma StarThen(y: Bytes, t: Bytes, nocase: bool)
    ensures Matches([Star] + Lits(y), t, nocase) <==> |y| <= |t| && Alike(y, t[|t| - |y|..], nocase)
  {
    hide TokenMatches, Alike;
    var ts := [Star] + Lits(y);
    assert ts[1..] == Lits(y);
    forall k | 0 <= k <= |t|
      ensures Matches(Lits(y), t[k..], nocase) <==> |y| == |t| - k && Alike(y, t[|t| - |y|..], nocase)
    {
      MatchesLits(y, [], t[k..], nocase);
      assert Lits(y) + [] == Lits(y);
      if |y| <= |t| - k {
        assert t[k..][|y|..] == t[k + |y|..];
        if |y| == |t| - k { assert t[k..][..|y|] == t[|t| - |y|..]; }
      }
    }
    if |y| <= |t| { assert Matches(Lits(y), t[|t| - |y|..], nocase) <==> Alike(y, t[|t| - |y|..], nocase); }
  }
}
