/** The key range a pattern is turned into, and for which patterns the range
    holds every key the pattern matches. */
module PatternLimits {
  import opened Bytes
  import opened Glob

  // ---- The range ----

  predicate Plain(c: byte) {
    c != STAR && c != QUESTION && c != OPEN && c != BACKSLASH
  }

  /** Where the literal prefix of a pattern, from i on, ends. */
  function PrefixEnd(p: Bytes, i: nat): (j: nat)
    requires i <= |p|
    ensures i <= j <= |p|
    ensures forall k :: i <= k < j ==> Plain(p[k])
    ensures j < |p| ==> !Plain(p[j])
    decreases |p| - i
  {
    if i < |p| && Plain(p[i]) then PrefixEnd(p, i + 1) else i
  }

  function Prefix(p: Bytes): Bytes {
    p[..PrefixEnd(p, 0)]
  }

  /** The upper bound: the last byte is raised, or a zero byte is appended when
      it cannot be. */
  function Above(prefix: Bytes): Bytes
    requires prefix != []
  {
    var last := |prefix| - 1;
    if prefix[last] == 255 then prefix + [0] else prefix[..last] + [prefix[last] + 1]
  }

  /** Bytewise order of keys. */
  predicate Below(a: Bytes, b: Bytes)
    decreases |b|
  {
    b != [] && (a == [] || a[0] < b[0] || (a[0] == b[0] && Below(a[1..], b[1..])))
  }

  predicate InRange(s: Bytes, prefix: Bytes)
    requires prefix != []
  {
    !Below(s, prefix) && Below(s, Above(prefix))
  }

  /** Turns the prefix in place into the upper bound. */
  method Raise(end: array<byte>, len: nat) returns (endLen: nat)
    requires 0 < len < end.Length
    modifies end
    ensures endLen <= end.Length && end[..endLen] == Above(old(end[..len]))
  {
    endLen := len;
    if end[endLen - 1] == 0xFF {
      end[endLen] := 0;
      endLen := endLen + 1;
    } else {
      end[len - 1] := end[len - 1] + 1;
    }
  }

  /** Returns 1 when every key has to be looked at, 0 with the two bounds
      otherwise. The variable `star` of the original is always 1. */
  method Limits(pattern: Bytes)
      returns (all: int, start: array?<byte>, startLen: nat, end: array?<byte>, endLen: nat)
    ensures pattern == [STAR] ==> all == 1 && start == null && end == null && startLen == 0 && endLen == 0
    ensures pattern != [STAR] ==>
              && start != null && fresh(start) && start.Length == 2 * |pattern|
              && end != null && fresh(end) && end.Length == 2 * |pattern| && start != end
              && startLen <= start.Length && endLen <= end.Length
              && start[..startLen] == Prefix(pattern)
              && all == (if Prefix(pattern) == [] then 1 else 0)
              && end[..endLen] == (if Prefix(pattern) == [] then [] else Above(Prefix(pattern)))
  {
    hide Above;
    if |pattern| == 1 && pattern[0] == STAR {
      return 1, null, 0, null, 0;
    }
    start := new byte[2 * |pattern|](_ => 0);
    end := new byte[2 * |pattern|](_ => 0);
    var i, j := 0, 0;
    while i < |pattern| && Plain(pattern[i])
      invariant i == j <= |pattern| && PrefixEnd(pattern, 0) == PrefixEnd(pattern, i)
      invariant forall k :: 0 <= k < j ==> start[k] == pattern[k] && end[k] == pattern[k]
    {
      start[j] := pattern[i];
      end[j] := pattern[i];
      i, j := i + 1, j + 1;
    }
    assert start[..j] == pattern[..j] && end[..j] == pattern[..j];
    startLen, endLen, all := j, j, 1;
    if j != 0 {
      endLen := Raise(end, j);
      all := 0;
    }
  }

  lemma ToIntStep(n: nat, d: nat)
    ensures ToInt(ToInt(n) * 10 + d) == ToInt(n * 10 + d)
  {
    var q := (n + INT_LIMIT) / 0x1_0000_0000;
    var b := n * 10 + d + INT_LIMIT;
    assert ToInt(n) * 10 + d + INT_LIMIT == 0x1_0000_0000 * (b / 0x1_0000_0000 - 10 * q) + b % 0x1_0000_0000;
  }

  lemma ToIntExact(n: nat)
    ensures ToInt(n) == n <==> n < INT_LIMIT
  {
  }

  predicate AllDigits(str: Bytes) {
    forall k :: 0 <= k < |str| ==> IsDigit(str[k])
  }

  /** -1 on a byte that is no digit; otherwise the number as an int, which is the
      number itself exactly when an int can hold it. So -1 means "no number"
      except for the numbers that wrap to it. */
  method Atop(str: Bytes) returns (ret: int)
    ensures ret == -1 <==> !AllDigits(str) || ToInt(Digits(str, 0)) == -1
    ensures AllDigits(str) ==>
              && ret == ToInt(Digits(str, 0))
              && (ret == Digits(str, 0) <==> Digits(str, 0) < INT_LIMIT)
  {
    hide ToInt;
    ghost var n: nat := 0;
    ToIntExact(0);
    ret := 0;
    for i := 0 to |str|
      invariant ret == ToInt(n)
      invariant forall k :: 0 <= k < i ==> IsDigit(str[k])
      invariant Digits(str, 0) == Digits(str[i..], n)
    {
      if !IsDigit(str[i]) {
        return -1;
      }
      ret := ToInt(ret * 10 + (str[i] - 48));
      assert str[i..][1..] == str[i + 1..];
      ToIntStep(n, str[i] - 48);
      n := 10 * n + (str[i] - 48);
    }
    ToIntExact(n);
  }

  /** The digits 4294967295 are read as -1. */
  lemma MinusOneInDigits()
    ensures exists str: Bytes :: AllDigits(str) && ToInt(Digits(str, 0)) == -1
  {
    var n := 2 * INT_LIMIT - 1;
    DigitsOfDecimal(n);
    assert AllDigits(Decimal(n)) && ToInt(n) == -1;
  }

  // ---- What the range holds ----

  lemma {:induction false} BelowItself(a: Bytes, c: byte)
    ensures !Below(a, a)
    ensures Below(a, a + [c])
  {
    if a != [] {
      assert (a + [c])[1..] == a[1..] + [c];
      BelowItself(a[1..], c);
    }
  }

  /** Two keys that share their first bytes compare like the rest of them. */
  lemma {:induction false} BelowAfter(common: Bytes, a: Bytes, b: Bytes)
    ensures Below(common + a, common + b) <==> Below(a, b)
  {
    if common == [] {
      assert common + a == a && common + b == b;
    } else {
      assert (common + a)[1..] == common[1..] + a && (common + b)[1..] == common[1..] + b;
      BelowAfter(common[1..], a, b);
    }
  }

  /** Keys below an extension of a prefix but not below the prefix start with it. */
  lemma {:induction false} StartsWith(s: Bytes, prefix: Bytes, tail: Bytes)
    requires !Below(s, prefix) && Below(s, prefix + tail)
    ensures prefix <= s
  {
    if prefix != [] {
      assert s != [];
      assert (prefix + tail)[1..] == prefix[1..] + tail;
      StartsWith(s[1..], prefix[1..], tail);
      assert s == [s[0]] + s[1..] && prefix == [prefix[0]] + prefix[1..];
    }
  }

  /** Raising the last byte makes the range of all keys with the prefix;
      appending a zero byte leaves only the prefix itself. */
  lemma RangeHolds(s: Bytes, prefix: Bytes)
    requires prefix != []
    ensures InRange(s, prefix) <==>
            if prefix[|prefix| - 1] == 255 then s == prefix else prefix <= s
  {
    var last := |prefix| - 1;
    var init, c := prefix[..last], prefix[last];
    assert prefix == init + [c];
    if c == 255 {
      BelowItself(prefix, 0);
      if InRange(s, prefix) {
        StartsWith(s, prefix, [0]);
        assert s == prefix + s[|prefix|..];
        BelowAfter(prefix, s[|prefix|..], [0]);
      }
    } else {
      if prefix <= s {
        var rest := s[|prefix|..];
        assert s == prefix + rest && prefix == prefix + [];
        BelowAfter(prefix, rest, []);
        assert s == init + ([c] + rest);
        BelowAfter(init, [c] + rest, [c + 1]);
      } else if InRange(s, prefix) {
        NotBelowFirst(s, init, [c]);
        StartsWith(s, init, [c + 1]);
        var rest := s[last..];
        assert s == init + rest;
        BelowAfter(init, rest, [c]);
        BelowAfter(init, rest, [c + 1]);
      }
    }
  }

  lemma {:induction false} NotBelowFirst(s: Bytes, a: Bytes, tail: Bytes)
    requires !Below(s, a + tail)
    ensures !Below(s, a)
  {
    if a != [] && s != [] {
      assert (a + tail)[1..] == a[1..] + tail;
      if a[0] == s[0] {
        NotBelowFirst(s[1..], a[1..], tail);
      }
    }
  }

  // ---- What a pattern with a literal prefix matches ----

  function Lits(a: Bytes): seq<Token> {
    seq(|a|, k requires 0 <= k < |a| => Lit(a[k]))
  }

  lemma PlainAt(p: Bytes, i: nat)
    requires i < |p| && Plain(p[i])
    ensures Tokens(p, i) == [Lit(p[i])] + Tokens(p, i + 1)
  {
  }

  lemma {:induction false} TokensOfPrefix(p: Bytes, i: nat)
    requires i <= |p|
    ensures Tokens(p, i) == Lits(p[i..PrefixEnd(p, i)]) + Tokens(p, PrefixEnd(p, i))
    decreases |p| - i
  {
    hide Tokens;
    var j := PrefixEnd(p, i);
    var rest := Tokens(p, j);
    if i < j {
      TokensOfPrefix(p, i + 1);
      PlainAt(p, i);
      assert Lits(p[i..j]) == [Lit(p[i])] + Lits(p[i + 1..j]);
    } else {
      assert Lits(p[i..j]) == [];
    }
  }

  predicate Alike(a: Bytes, s: Bytes, nocase: bool) {
    |a| <= |s| && forall k :: 0 <= k < |a| ==> TokenMatches(Lit(a[k]), s[k], nocase)
  }

  lemma {:induction false} MatchesPrefix(a: Bytes, ts: seq<Token>, s: Bytes, nocase: bool)
    ensures Matches(Lits(a) + ts, s, nocase) <==> Alike(a, s, nocase) && Matches(ts, s[|a|..], nocase)
  {
    if a == [] {
      assert Lits(a) + ts == ts && s[|a|..] == s;
    } else {
      var all := Lits(a) + ts;
      assert all[0] == Lit(a[0]) && all[1..] == Lits(a[1..]) + ts;
      if s != [] {
        MatchesPrefix(a[1..], ts, s[1..], nocase);
        assert |a| <= |s| ==> s[1..][|a[1..]|..] == s[|a|..];
        if Alike(a[1..], s[1..], nocase) && TokenMatches(Lit(a[0]), s[0], nocase) {
          forall k | 0 <= k < |a| ensures TokenMatches(Lit(a[k]), s[k], nocase) {
            if k > 0 { assert a[k] == a[1..][k - 1] && s[k] == s[1..][k - 1]; }
          }
        }
        if Alike(a, s, nocase) {
          forall k | 0 <= k < |a[1..]| ensures TokenMatches(Lit(a[1..][k]), s[1..][k], nocase) {
            assert a[1..][k] == a[k + 1] && s[1..][k] == s[k + 1];
          }
        }
      }
    }
  }

  // ---- Patterns that match something ----

  /** A class that no byte is in; no key can match a pattern that has one. */
  ghost predicate Barren(ts: seq<Token>, nocase: bool) {
    exists k :: 0 <= k < |ts| && ts[k].Class? && NoneIn(ts[k], nocase)
  }

  ghost predicate NoneIn(t: Token, nocase: bool)
    requires !t.Star?
  {
    forall c: byte :: !TokenMatches(t, c, nocase)
  }

  lemma {:induction false} BarrenMatchesNothing(ts: seq<Token>, s: Bytes, nocase: bool)
    requires Barren(ts, nocase)
    ensures !Matches(ts, s, nocase)
    decreases |ts|
  {
    var k :| 0 <= k < |ts| && ts[k].Class? && NoneIn(ts[k], nocase);
    if k > 0 {
      assert ts[1..][k - 1] == ts[k];
      forall t: Bytes ensures !Matches(ts[1..], t, nocase) {
        BarrenMatchesNothing(ts[1..], t, nocase);
      }
    }
  }

  /** One byte for every token, a zero byte for a star. */
  lemma {:induction false} Witness(ts: seq<Token>, nocase: bool) returns (s: Bytes)
    requires !Barren(ts, nocase)
    ensures Matches(ts, s, nocase) && |s| == |ts|
    decreases |ts|
  {
    if ts == [] {
      s := [];
    } else {
      var t := ts[0];
      forall k | 0 <= k < |ts[1..]| && ts[1..][k].Class? ensures !NoneIn(ts[1..][k], nocase) {
        assert ts[1..][k] == ts[k + 1];
      }
      var rest := Witness(ts[1..], nocase);
      var c := WitnessByte(t, nocase);
      s := [c] + rest;
      assert s[1..] == rest;
    }
  }

  lemma WitnessByte(t: Token, nocase: bool) returns (c: byte)
    requires t.Class? ==> !NoneIn(t, nocase)
    ensures !t.Star? ==> TokenMatches(t, c, nocase)
  {
    match t
    case Star => c := 0;
    case Any => c := 0;
    case Lit(x) => c := x;
    case Class(_, _) => c :| TokenMatches(t, c, nocase);
  }

  // ---- When the range is complete ----

  /** Every key the pattern matches lies in the planned range. */
  ghost predicate Covers(p: Bytes, nocase: bool)
    requires Prefix(p) != []
  {
    forall s: Bytes :: s != [] && Matches(Tokens(p, 0), s, nocase) ==> InRange(s, Prefix(p))
  }

  predicate IsLetter(c: byte) {
    65 <= c <= 90 || 97 <= c <= 122
  }

  /** What a caller can look up in the pattern: no letter in the prefix is
      matched regardless of case, and a prefix that ends in 0xFF is the whole
      pattern. */
  predicate Plannable(p: Bytes, nocase: bool)
    requires Prefix(p) != []
  {
    && (nocase ==> forall k :: 0 <= k < |Prefix(p)| ==> !IsLetter(Prefix(p)[k]))
    && (Prefix(p)[|Prefix(p)| - 1] == 255 ==> Prefix(p) == p)
  }

  /** The other case of a letter. */
  function Flip(c: byte): (r: byte)
    requires IsLetter(c)
    ensures r != c && Fold(AsChar(r)) == Fold(AsChar(c))
  {
    if c <= 90 then c + 32 else c - 32
  }

  lemma SameUnlessLetter(a: byte, c: byte)
    requires Fold(AsChar(a)) == Fold(AsChar(c)) && !IsLetter(a)
    ensures a == c
  {
  }

  /** A key the pattern matches starts with the prefix, if letters are told apart. */
  lemma AlikeStartsWith(a: Bytes, s: Bytes, nocase: bool)
    requires Alike(a, s, nocase)
    requires nocase ==> forall k :: 0 <= k < |a| ==> !IsLetter(a[k])
    ensures a <= s
  {
    forall k | 0 <= k < |a| ensures a[k] == s[k] {
      if nocase { SameUnlessLetter(a[k], s[k]); }
    }
  }

  lemma PlannableCovers(p: Bytes, s: Bytes, nocase: bool)
    requires Prefix(p) != [] && Plannable(p, nocase) && Matches(Tokens(p, 0), s, nocase)
    ensures InRange(s, Prefix(p)) && Prefix(p) <= s
  {
    var prefix, j := Prefix(p), PrefixEnd(p, 0);
    TokensOfPrefix(p, 0);
    assert p[0..j] == prefix;
    MatchesPrefix(prefix, Tokens(p, j), s, nocase);
    AlikeStartsWith(prefix, s, nocase);
    if prefix == p {
      assert Tokens(p, j) == [];
      assert s == prefix + s[|prefix|..];
    }
    RangeHolds(s, prefix);
  }

  /** A key outside the range, for a pattern that cannot be planned. */
  lemma Missed(p: Bytes, nocase: bool) returns (s: Bytes)
    requires Prefix(p) != [] && !Plannable(p, nocase) && !Barren(Tokens(p, 0), nocase)
    ensures s != [] && Matches(Tokens(p, 0), s, nocase) && !InRange(s, Prefix(p))
  {
    var prefix, j := Prefix(p), PrefixEnd(p, 0);
    var rest := Tokens(p, j);
    TokensOfPrefix(p, 0);
    assert p[0..j] == prefix;
    forall k | 0 <= k < |rest| && rest[k].Class? ensures !NoneIn(rest[k], nocase) {
      assert Tokens(p, 0)[|prefix| + k] == rest[k];
    }
    var tail := Witness(rest, nocase);
    var head := OtherHead(p, nocase);
    if head == prefix { assert rest != []; }
    s := head + tail;
    OutsideRange(prefix, head, tail);
    AlikeLonger(prefix, head, tail, nocase);
    assert s[|prefix|..] == tail;
    MatchesPrefix(prefix, rest, s, nocase);
  }

  /** The prefix, one letter of it in the other case where that matters. */
  lemma OtherHead(p: Bytes, nocase: bool) returns (head: Bytes)
    requires Prefix(p) != [] && !Plannable(p, nocase)
    ensures |head| == |Prefix(p)| && Alike(Prefix(p), head, nocase)
    ensures head == Prefix(p) ==> Prefix(p)[|Prefix(p)| - 1] == 255 && Prefix(p) != p
  {
    var prefix := Prefix(p);
    head := prefix;
    if nocase && exists k :: 0 <= k < |prefix| && IsLetter(prefix[k]) {
      var k :| 0 <= k < |prefix| && IsLetter(prefix[k]);
      head := prefix[k := Flip(prefix[k])];
      assert head[k] != prefix[k];
    }
  }

  lemma AlikeLonger(prefix: Bytes, head: Bytes, tail: Bytes, nocase: bool)
    requires |head| == |prefix| && Alike(prefix, head, nocase)
    ensures Alike(prefix, head + tail, nocase)
  {
    hide TokenMatches;
    forall k | 0 <= k < |prefix| ensures TokenMatches(Lit(prefix[k]), (head + tail)[k], nocase) {
      assert (head + tail)[k] == head[k];
    }
  }

  lemma OutsideRange(prefix: Bytes, head: Bytes, tail: Bytes)
    requires prefix != [] && |head| == |prefix|
    requires head == prefix ==> prefix[|prefix| - 1] == 255 && tail != []
    ensures !InRange(head + tail, prefix)
  {
    hide InRange;
    RangeHolds(head + tail, prefix);
    assert (head + tail)[..|prefix|] == head;
  }

  /** The planned range is complete for exactly the patterns that can be
      planned, and for those that match nothing at all. */
  lemma CompleteExactly(p: Bytes, nocase: bool)
    requires Prefix(p) != []
    ensures Covers(p, nocase) <==> Plannable(p, nocase) || Barren(Tokens(p, 0), nocase)
  {
    if Barren(Tokens(p, 0), nocase) {
      forall s: Bytes ensures !Matches(Tokens(p, 0), s, nocase) {
        BarrenMatchesNothing(Tokens(p, 0), s, nocase);
      }
    } else if Plannable(p, nocase) {
      forall s: Bytes | s != [] && Matches(Tokens(p, 0), s, nocase) ensures InRange(s, Prefix(p)) {
        PlannableCovers(p, s, nocase);
      }
    } else {
      var s := Missed(p, nocase);
    }
  }

  /** The pattern FF* matches the key FF 00, which the range leaves out. */
  lemma LastByteMissed()
    ensures Prefix([255, STAR]) == [255] && !Covers([255, STAR], false)
  {
    var p: Bytes := [255, STAR];
    assert PrefixEnd(p, 1) == 1;
    assert Prefix(p) == [255];
    var s := [255, 0];
    TokensOfPrefix(p, 0);
    assert p[0..1] == [255] && Tokens(p, 1) == [Star] + Tokens(p, 2) && Tokens(p, 2) == [];
    assert Tokens(p, 1) == [Star];
    StarAlone(s[1..], false);
    MatchesPrefix([255], [Star], s, false);
    RangeHolds(s, [255]);
  }

  /** The pattern a, compared regardless of case, matches the key A. */
  lemma OtherCaseMissed()
    ensures Prefix([97]) == [97] && !Covers([97], true)
  {
    var p: Bytes := [97];
    assert PrefixEnd(p, 0) == 1;
    assert Prefix(p) == [97];
    assert Tokens(p, 1) == [];
    assert Tokens(p, 0) == [Lit(97)];
    var s: Bytes := [65];
    assert Matches([Lit(97)][1..], s[1..], true);
    RangeHolds(s, [97]);
  }
}
