/** Redis `KEYS` pattern matching, restricted to the `*` wildcard (the only one the
    system's patterns use): `*` matches any run of characters, every other character
    matches itself. */
module Glob {
  import opened Text

  function Match(p: string, k: string): bool
    decreases |p| + |k|
  {
    if |p| == 0 then |k| == 0
    else if p[0] == '*' then Match(p[1..], k) || (|k| > 0 && Match(p, k[1..]))
    else |k| > 0 && p[0] == k[0] && Match(p[1..], k[1..])
  }

  /** `*` alone matches every key. */
  lemma {:induction false} MatchStar(k: string)
    ensures Match("*", k)
    decreases |k|
  {
    if |k| > 0 {
      MatchStar(k[1..]);
    }
  }

  /** A wildcard-free head must be a literal prefix of the key. */
  lemma {:induction false} MatchLiteralHead(lit: string, rest: string, k: string)
    requires '*' !in lit
    ensures Match(lit + rest, k) <==> IsPrefix(lit, k) && Match(rest, k[|lit|..])
    decreases |lit|
  {
    if |lit| == 0 {
      assert lit + rest == rest;
      assert k[0..] == k;
    } else {
      var p := lit + rest;
      assert p[0] == lit[0] && p[1..] == lit[1..] + rest;
      if |k| > 0 {
        MatchLiteralHead(lit[1..], rest, k[1..]);
        if |lit| <= |k| {
          assert k[1..][|lit| - 1..] == k[|lit|..];
          assert k[..|lit|] == [k[0]] + k[1..][..|lit| - 1];
          assert lit == [lit[0]] + lit[1..];
        }
      }
    }
  }

  /** A wildcard-free pattern matches only itself. */
  lemma MatchLiteral(lit: string, k: string)
    requires '*' !in lit
    ensures Match(lit, k) <==> k == lit
  {
    MatchLiteralHead(lit, "", k);
    assert lit + "" == lit;
  }

  /** `*` followed by a wildcard-free tail matches exactly the keys ending in that tail. */
  lemma {:induction false} MatchStarTail(tail: string, k: string)
    requires '*' !in tail
    ensures Match("*" + tail, k) <==> IsSuffix(tail, k)
    decreases |k|
  {
    var p := "*" + tail;
    assert p[1..] == tail;
    MatchLiteral(tail, k);
    if |k| > 0 {
      MatchStarTail(tail, k[1..]);
      if |tail| <= |k| - 1 {
        assert k[1..][|k| - 1 - |tail|..] == k[|k| - |tail|..];
      }
    }
  }

  /** `lit*` (no other wildcard) matches exactly the keys starting with `lit`. */
  lemma MatchPrefixPattern(lit: string, k: string)
    requires '*' !in lit
    ensures Match(lit + "*", k) <==> IsPrefix(lit, k)
  {
    MatchLiteralHead(lit, "*", k);
    if IsPrefix(lit, k) {
      MatchStar(k[|lit|..]);
    }
  }

  /** `head*tail` (no other wildcard) matches the keys that start with `head` and end with
      `tail` without the two overlapping. */
  lemma MatchPrefixSuffixPattern(head: string, tail: string, k: string)
    requires '*' !in head && '*' !in tail
    ensures Match(head + "*" + tail, k) <==>
            |head| + |tail| <= |k| && IsPrefix(head, k) && IsSuffix(tail, k)
  {
    assert head + "*" + tail == head + ("*" + tail);
    MatchLiteralHead(head, "*" + tail, k);
    if IsPrefix(head, k) {
      MatchStarTail(tail, k[|head|..]);
      if |head| + |tail| <= |k| {
        assert k[|head|..][|k| - |head| - |tail|..] == k[|k| - |tail|..];
      }
    }
  }

  /** `*lit*` (no other wildcard) matches exactly the keys containing `lit`. */
  lemma {:induction false} MatchInfix(lit: string, k: string)
    requires '*' !in lit
    ensures Match("*" + lit + "*", k) <==> Contains(k, lit)
    decreases |k|
  {
    var p := "*" + lit + "*";
    assert p[0] == '*' && p[1..] == lit + "*";
    MatchPrefixPattern(lit, k);
    if IsPrefix(lit, k) {
      assert OccursAt(k, lit, 0);
    }
    if |k| > 0 {
      MatchInfix(lit, k[1..]);
      if Contains(k[1..], lit) {
        var i :| 0 <= i <= |k[1..]| - |lit| && OccursAt(k[1..], lit, i);
        assert k[i + 1..i + 1 + |lit|] == k[1..][i..i + |lit|];
        assert OccursAt(k, lit, i + 1);
      }
      if Contains(k, lit) {
        var i :| 0 <= i <= |k| - |lit| && OccursAt(k, lit, i);
        if i > 0 {
          assert k[1..][i - 1..i - 1 + |lit|] == k[i..i + |lit|];
          assert OccursAt(k[1..], lit, i - 1);
        }
      }
    } else if Contains(k, lit) {
      assert IsPrefix(lit, k);
    }
  }
}
