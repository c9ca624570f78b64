/** The matcher: pointer and length variables walk over pattern and string; the
    byte behind the pattern is read too. */
module GlobMatch {
  import opened Bytes
  import opened Glob

  /** The byte behind the pattern must not look like more pattern. */
  predicate Harmless(c: byte) {
    c != STAR && c != CLOSE && c != BACKSLASH && c != CARET
  }

  /** `pattern` points into memory, `patternLen` bytes from there belong to the
      pattern, and one more byte can be read. */
  ghost predicate Readable(memory: Bytes, pattern: nat, patternLen: nat) {
    && pattern + patternLen < |memory| && Harmless(memory[pattern + patternLen])
    && WellFormed(memory[..pattern + patternLen], pattern)
  }

  predicate Hit(items: seq<Item>, c: byte, nocase: bool) {
    exists k :: 0 <= k < |items| && ItemMatches(items[k], c, nocase)
  }

  lemma HitCons(it: Item, items: seq<Item>, c: byte, nocase: bool)
    ensures Hit([it] + items, c, nocase) <==> ItemMatches(it, c, nocase) || Hit(items, c, nocase)
  {
    var all := [it] + items;
    if Hit(items, c, nocase) {
      var k :| 0 <= k < |items| && ItemMatches(items[k], c, nocase);
      assert all[k + 1] == items[k];
    }
    if Hit(all, c, nocase) {
      var k :| 0 <= k < |all| && ItemMatches(all[k], c, nocase);
      if k > 0 { assert all[k] == items[k - 1]; }
    }
    assert all[0] == it;
  }

  /** The loop over the members of a class. It stops on the closing bracket, or
      on the last byte of a class that is never closed. */
  method ScanClass(memory: Bytes, from: nat, fromLen: nat, c: byte, nocase: bool)
      returns (found: bool, pattern: nat, patternLen: nat)
    requires 0 < from && from + fromLen < |memory| && Harmless(memory[from + fromLen])
    requires Closes(memory[..from + fromLen], from)
    ensures found <==> Hit(Members(memory[..from + fromLen], from).0, c, nocase)
    ensures patternLen > 0 && pattern + patternLen == from + fromLen
    ensures pattern + 1 == Members(memory[..from + fromLen], from).1
  {
    ghost var p := memory[..from + fromLen];
    ghost var all := Members(p, from);
    pattern, patternLen, found := from, fromLen, false;
    while memory[pattern] != CLOSE && (memory[pattern] == BACKSLASH || patternLen != 0)
      invariant pattern + patternLen == |p| && 0 < pattern && Closes(p, pattern)
      invariant Members(p, pattern).1 == all.1
      invariant Hit(all.0, c, nocase) <==> found || Hit(Members(p, pattern).0, c, nocase)
      decreases patternLen
    {
      if patternLen > 0 { assert p[pattern] == memory[pattern]; }
      ghost var rest := Members(p, pattern).0;
      if memory[pattern] == BACKSLASH {
        HitCons(Escaped(p[pattern + 1]), Members(p, pattern + 2).0, c, nocase);
        pattern, patternLen := pattern + 1, patternLen - 1;
        if memory[pattern] == c {
          found := true;
        }
      } else if memory[pattern + 1] == DASH && patternLen >= 3 {
        HitCons(Range(p[pattern], p[pattern + 2]), Members(p, pattern + 3).0, c, nocase);
        var start, end, k := AsChar(memory[pattern]), AsChar(memory[pattern + 2]), AsChar(c);
        if start > end {
          start, end := end, start;
        }
        if nocase {
          start, end, k := Fold(start), Fold(end), Fold(k);
        }
        pattern, patternLen := pattern + 2, patternLen - 2;
        if start <= k <= end {
          found := true;
        }
      } else {
        HitCons(One(p[pattern]), Members(p, pattern + 1).0, c, nocase);
        if !nocase {
          if memory[pattern] == c {
            found := true;
          }
        } else if Fold(AsChar(memory[pattern])) == Fold(AsChar(c)) {
          found := true;
        }
      }
      pattern, patternLen := pattern + 1, patternLen - 1;
    }
    if patternLen == 0 {
      pattern, patternLen := pattern - 1, 1;
    } else {
      assert p[pattern] == memory[pattern];
    }
  }

  /** Skips the stars behind an exhausted string. */
  method SkipStars(memory: Bytes, from: nat, fromLen: nat) returns (pattern: nat, patternLen: nat)
    requires Readable(memory, from, fromLen)
    ensures pattern + patternLen == from + fromLen
    ensures patternLen == 0 <==> AllStars(Tokens(memory[..from + fromLen], from))
  {
    hide Tokens, WellFormed, AllStars;
    ghost var p := memory[..from + fromLen];
    pattern, patternLen := from, fromLen;
    while memory[pattern] == STAR
      invariant pattern + patternLen == |p| && WellFormed(p, pattern)
      invariant AllStars(Tokens(p, from)) <==> AllStars(Tokens(p, pattern))
      decreases patternLen
    {
      assert p[pattern] == memory[pattern];
      StarAt(p, pattern);
      AllStarsTail(Tokens(p, pattern));
      pattern, patternLen := pattern + 1, patternLen - 1;
    }
    if patternLen > 0 {
      assert p[pattern] == memory[pattern];
      OtherAt(p, pattern);
      AllStarsTail(Tokens(p, pattern));
    } else {
      NoTokens(p);
    }
  }

  lemma NoTokens(p: Bytes)
    ensures Tokens(p, |p|) == [] && AllStars(Tokens(p, |p|))
  {
  }

  /** What a step over one token tells: the pattern pointer is left on the
      token's last byte. */
  ghost predicate Stepped(p: Bytes, from: nat, c: byte, nocase: bool, matched: bool, pattern: nat, patternLen: nat)
    requires from < |p|
  {
    var ts := Tokens(p, from);
    && ts != [] && !ts[0].Star?
    && (matched <==> TokenMatches(ts[0], c, nocase))
    && from <= pattern && patternLen > 0 && pattern + patternLen == |p|
    && ts[1..] == Tokens(p, pattern + 1) && WellFormed(p, pattern + 1)
  }

  /** A class against the first byte of the string. */
  method StepClass(memory: Bytes, from: nat, fromLen: nat, c: byte, nocase: bool)
      returns (matched: bool, pattern: nat, patternLen: nat)
    requires Readable(memory, from, fromLen) && fromLen > 0 && memory[from] == OPEN
    ensures Stepped(memory[..from + fromLen], from, c, nocase, matched, pattern, patternLen)
  {
    hide Tokens, Members, WellFormed, Closes, ItemMatches;
    ghost var p := memory[..from + fromLen];
    assert p[from] == memory[from];
    ClassAt(p, from);
    pattern, patternLen := from + 1, fromLen - 1;
    var negated := memory[pattern] == CARET;
    if patternLen > 0 { assert p[pattern] == memory[pattern]; }
    if negated {
      pattern, patternLen := pattern + 1, patternLen - 1;
    }
    matched, pattern, patternLen := ScanClass(memory, pattern, patternLen, c, nocase);
    if negated {
      matched := !matched;
    }
  }

  /** One token that is not a star against the first byte of the string. */
  method StepToken(memory: Bytes, from: nat, fromLen: nat, c: byte, nocase: bool)
      returns (matched: bool, pattern: nat, patternLen: nat)
    requires Readable(memory, from, fromLen) && fromLen > 0 && memory[from] != STAR
    ensures Stepped(memory[..from + fromLen], from, c, nocase, matched, pattern, patternLen)
  {
    hide Tokens, WellFormed;
    ghost var p := memory[..from + fromLen];
    assert p[from] == memory[from];
    pattern, patternLen := from, fromLen;
    if memory[pattern] == QUESTION {
      AnyAt(p, from);
      matched := true;
    } else if memory[pattern] == OPEN {
      matched, pattern, patternLen := StepClass(memory, from, fromLen, c, nocase);
    } else {
      LitAt(p, from);
      if memory[pattern] == BACKSLASH && patternLen >= 2 {
        pattern, patternLen := pattern + 1, patternLen - 1;
      }
      assert p[pattern] == memory[pattern];
      matched := if !nocase then memory[pattern] == c else Fold(AsChar(memory[pattern])) == Fold(AsChar(c));
    }
  }

  /** The loop that drops all but the last of a run of stars. */
  method LastStar(memory: Bytes, from: nat, fromLen: nat, ghost s: Bytes, ghost nocase: bool)
      returns (pattern: nat, patternLen: nat)
    requires Readable(memory, from, fromLen) && fromLen > 0 && memory[from] == STAR
    ensures from <= pattern && patternLen > 0 && pattern + patternLen == from + fromLen
    ensures memory[pattern] == STAR && memory[pattern + 1] != STAR
    ensures var p := memory[..from + fromLen];
            && WellFormed(p, pattern)
            && (Matches(Tokens(p, from), s, nocase) <==> Matches(Tokens(p, pattern), s, nocase))
  {
    hide Tokens, WellFormed, Matches;
    ghost var p := memory[..from + fromLen];
    pattern, patternLen := from, fromLen;
    while memory[pattern + 1] == STAR
      invariant from <= pattern && patternLen > 0 && pattern + patternLen == |p|
      invariant WellFormed(p, pattern) && memory[pattern] == STAR
      invariant Matches(Tokens(p, from), s, nocase) <==> Matches(Tokens(p, pattern), s, nocase)
      decreases patternLen
    {
      assert p[pattern] == memory[pattern] && p[pattern + 1] == memory[pattern + 1];
      StarAt(p, pattern);
      StarAt(p, pattern + 1);
      StarsCollapse(Tokens(p, pattern), s, nocase);
      pattern, patternLen := pattern + 1, patternLen - 1;
    }
  }

  /** An empty string is taken for longer than it is when the byte behind it
      fits the first token of the pattern. */
  predicate Misread(ts: seq<Token>, behind: byte, nocase: bool) {
    ts != [] && (ts[0].Lit? || ts[0].Class?) && TokenMatches(ts[0], behind, nocase)
  }

  /** Returns true exactly when the string matches the pattern. The byte behind
      the string is looked at only if the string is empty. */
  method StringMatchLen(memory: Bytes, pattern0: nat, patternLen0: nat,
                        s: Bytes, str0: nat, strLen0: nat, behind: byte, nocase: bool) returns (r: bool)
    requires Readable(memory, pattern0, patternLen0)
    requires str0 + strLen0 == |s|
    requires strLen0 > 0 || !Misread(Tokens(memory[..pattern0 + patternLen0], pattern0), behind, nocase)
    ensures r <==> Matches(Tokens(memory[..pattern0 + patternLen0], pattern0), s[str0..], nocase)
    decreases patternLen0, 1
  {
    hide Tokens, WellFormed, Matches, TokenMatches, AllStars;
    ghost var p := memory[..pattern0 + patternLen0];
    ghost var goal := Matches(Tokens(p, pattern0), s[str0..], nocase);
    var pattern, patternLen, str, strLen := pattern0, patternLen0, str0, strLen0;
    while patternLen != 0
      invariant pattern0 <= pattern <= |p| && pattern + patternLen == |p| && WellFormed(p, pattern)
      invariant str0 <= str <= |s| && str + strLen == |s|
      invariant strLen > 0 || (pattern == pattern0 && str == str0)
      invariant goal <==> Matches(Tokens(p, pattern), s[str..], nocase)
      decreases patternLen
    {
      assert p[pattern] == memory[pattern];
      if memory[pattern] == STAR {
        pattern, patternLen := LastStar(memory, pattern, patternLen, s[str..], nocase);
        assert p[pattern] == memory[pattern];
        if patternLen == 1 {
          StarAt(p, pattern);
          NoTokens(p);
          assert Tokens(p, pattern) == [Star];
          StarAlone(s[str..], nocase);
          return true;
        }
        r := TrySuffixes(memory, pattern, patternLen, s, str, strLen, behind, nocase);
        return;
      }
      var matched;
      ghost var here := Tokens(p, pattern);
      if memory[pattern] == QUESTION && strLen == 0 {
        OtherAt(p, pattern);
        EmptyFails(here, s[str..], nocase);
        return false;
      }
      if memory[pattern] != QUESTION { NotAny(p, pattern); }
      var c := if strLen > 0 then s[str] else behind;
      matched, pattern, patternLen := StepToken(memory, pattern, patternLen, c, nocase);
      if strLen > 0 { OneByte(here, s[str..], nocase); } else { EmptyFails(here, s[str..], nocase); }
      if !matched {
        return false;
      }
      assert s[str..][1..] == s[str + 1..];
      str, strLen := str + 1, strLen - 1;
      pattern, patternLen := pattern + 1, patternLen - 1;
      if strLen == 0 {
        MatchesEmpty(Tokens(p, pattern), nocase);
        assert s[str..] == [];
        pattern, patternLen := SkipStars(memory, pattern, patternLen);
        return patternLen == 0;
      }
    }
    NoTokens(p);
    NothingLeft(s[str..], nocase);
    r := strLen == 0;
  }

  /** Nothing but stars matches an empty string. */
  lemma EmptyFails(ts: seq<Token>, s: Bytes, nocase: bool)
    requires ts != [] && !ts[0].Star? && s == []
    ensures !Matches(ts, s, nocase)
  {
  }

  lemma NotAny(p: Bytes, i: nat)
    requires i < |p| && p[i] != STAR && p[i] != QUESTION
    ensures Tokens(p, i) != [] && (Tokens(p, i)[0].Lit? || Tokens(p, i)[0].Class?)
  {
  }

  lemma OneByte(ts: seq<Token>, s: Bytes, nocase: bool)
    requires ts != [] && !ts[0].Star? && s != []
    ensures Matches(ts, s, nocase) <==> TokenMatches(ts[0], s[0], nocase) && Matches(ts[1..], s[1..], nocase)
  {
  }

  lemma NothingLeft(s: Bytes, nocase: bool)
    ensures Matches([], s, nocase) <==> s == []
  {
  }

  lemma SomeTail(ts: seq<Token>, rest: seq<Token>, s: Bytes, nocase: bool)
    requires ts == [Star] + rest
    ensures Matches(ts, s, nocase) <==> exists k :: 0 <= k <= |s| && Matches(rest, s[k..], nocase)
  {
    assert ts[1..] == rest;
  }

  /** A star in front of more pattern: every non-empty tail of the string is
      tried; the empty one cannot match, the next token not being a star. */
  method TrySuffixes(memory: Bytes, pattern: nat, patternLen: nat,
                     s: Bytes, str0: nat, strLen0: nat, behind: byte, nocase: bool) returns (r: bool)
    requires Readable(memory, pattern, patternLen) && patternLen > 1
    requires memory[pattern] == STAR && memory[pattern + 1] != STAR
    requires str0 + strLen0 == |s|
    ensures r <==> Matches(Tokens(memory[..pattern + patternLen], pattern), s[str0..], nocase)
    decreases patternLen, 0
  {
    hide Tokens, WellFormed, Matches, AllStars;
    ghost var p := memory[..pattern + patternLen];
    assert p[pattern] == memory[pattern] && p[pattern + 1] == memory[pattern + 1];
    StarAt(p, pattern);
    OtherAt(p, pattern + 1);
    ghost var rest := Tokens(p, pattern + 1);
    ghost var tail := s[str0..];
    SomeTail(Tokens(p, pattern), rest, tail, nocase);
    var str, strLen := str0, strLen0;
    while strLen != 0
      invariant str0 <= str <= |s| && str + strLen == |s|
      invariant forall k :: 0 <= k < str - str0 ==> !Matches(rest, tail[k..], nocase)
    {
      var found := StringMatchLen(memory, pattern + 1, patternLen - 1, s, str, strLen, behind, nocase);
      assert tail[str - str0..] == s[str..];
      if found {
        return true;
      }
      str, strLen := str + 1, strLen - 1;
    }
    MatchesEmpty(rest, nocase);
    AllStarsTail(rest);
    assert tail[|tail|..] == [];
    r := false;
  }
}
