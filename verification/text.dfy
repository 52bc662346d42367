/** Python string operations the model needs: `startswith`, `endswith`, `in`, `lower`,
    `" ".join` and `split`. */
module Text {
  import opened Results

  predicate IsPrefix(p: string, s: string) {
    |p| <= |s| && s[..|p|] == p
  }

  predicate IsSuffix(x: string, s: string) {
    |x| <= |s| && s[|s| - |x|..] == x
  }

  /** `sub` occurs in `s` starting at index `i`. */
  predicate OccursAt(s: string, sub: string, i: int) {
    0 <= i && i + |sub| <= |s| && s[i..i + |sub|] == sub
  }

  /** Python's `sub in s` on strings. */
  predicate Contains(s: string, sub: string) {
    exists i :: 0 <= i <= |s| - |sub| && OccursAt(s, sub, i)
  }

  /** `str.lower` on the ASCII letters; every other character is kept. */
  function LowerChar(c: char): char {
    if 'A' <= c <= 'Z' then (c as int + 32) as char else c
  }

  function Lower(s: string): (r: string)
    ensures |r| == |s|
    ensures forall i :: 0 <= i < |s| ==> r[i] == LowerChar(s[i])
  {
    seq(|s|, i requires 0 <= i < |s| => LowerChar(s[i]))
  }

  /** `sep.join(parts)`. */
  function Join(parts: seq<string>, sep: string): string {
    if |parts| == 0 then ""
    else if |parts| == 1 then parts[0]
    else parts[0] + sep + Join(parts[1..], sep)
  }

  /** `s.split(c)`: the pieces between occurrences of `c`; never empty. */
  function Split(s: string, c: char): (parts: seq<string>)
    ensures |parts| >= 1
    decreases |s|
  {
    if |s| == 0 then [""]
    else
      var rest := Split(s[1..], c);
      if s[0] == c then [""] + rest else [[s[0]] + rest[0]] + rest[1..]
  }

  /** Splitting and joining with the same separator gives the string back. */
  lemma {:induction false} JoinSplit(s: string, c: char)
    ensures Join(Split(s, c), [c]) == s
    decreases |s|
  {
    if |s| > 0 {
      var rest := Split(s[1..], c);
      JoinSplit(s[1..], c);
      if s[0] == c {
        assert Split(s, c) == [""] + rest;
        assert Join(Split(s, c), [c]) == "" + [c] + Join(rest, [c]);
        assert s == [s[0]] + s[1..];
      } else {
        var parts := Split(s, c);
        assert parts == [[s[0]] + rest[0]] + rest[1..];
        if |rest| == 1 {
          assert Join(parts, [c]) == [s[0]] + rest[0];
          assert Join(rest, [c]) == rest[0];
        } else {
          assert parts[1..] == rest[1..];
          assert Join(parts, [c]) == [s[0]] + rest[0] + [c] + Join(rest[1..], [c]);
          assert Join(rest, [c]) == rest[0] + [c] + Join(rest[1..], [c]);
        }
        assert s == [s[0]] + s[1..];
      }
    }
  }

  /** A piece free of the separator, followed by the separator, splits off as one part. */
  lemma {:induction false} SplitAfterPiece(x: string, c: char, y: string)
    requires c !in x
    ensures Split(x + [c] + y, c) == [x] + Split(y, c)
    decreases |x|
  {
    if |x| == 0 {
      assert x + [c] + y == [c] + y;
      assert ([c] + y)[1..] == y;
    } else {
      var s := x + [c] + y;
      assert s[0] == x[0];
      assert s[1..] == x[1..] + [c] + y;
      SplitAfterPiece(x[1..], c, y);
      assert [x[0]] + x[1..] == x;
    }
  }

  /** No part of a split contains the separator. */
  lemma {:induction false} SplitPartsAvoidSeparator(s: string, c: char)
    ensures forall i :: 0 <= i < |Split(s, c)| ==> c !in Split(s, c)[i]
    decreases |s|
  {
    if |s| > 0 {
      var rest := Split(s[1..], c);
      SplitPartsAvoidSeparator(s[1..], c);
      if s[0] != c {
        var parts := Split(s, c);
        assert parts[0] == [s[0]] + rest[0];
        assert forall i :: 1 <= i < |parts| ==> parts[i] == rest[i];
      }
    }
  }

  lemma {:induction false} SplitWithout(x: string, c: char)
    requires c !in x
    ensures Split(x, c) == [x]
    decreases |x|
  {
    if |x| > 0 {
      SplitWithout(x[1..], c);
      assert [x[0]] + x[1..] == x;
    }
  }

  lemma OccursInLeft(a: string, b: string, sub: string, i: int)
    requires OccursAt(a, sub, i)
    ensures OccursAt(a + b, sub, i)
  {
    assert (a + b)[i..i + |sub|] == a[i..i + |sub|];
  }

  lemma OccursInRight(a: string, b: string, sub: string, i: int)
    requires OccursAt(b, sub, i)
    ensures OccursAt(a + b, sub, |a| + i)
  {
    assert (a + b)[|a| + i..|a| + i + |sub|] == b[i..i + |sub|];
  }

  lemma CharOfOccurrence(s: string, sub: string, i: int, k: int)
    requires OccursAt(s, sub, i) && i <= k < i + |sub|
    ensures s[k] in sub
  {
    assert sub[k - i] == s[i..i + |sub|][k - i];
  }

  /** An occurrence in `a + [c] + b` of a needle free of `c` lies wholly in `a` or in `b`. */
  lemma ContainsAcrossSeparator(a: string, c: char, b: string, sub: string)
    requires c !in sub
    ensures Contains(a + [c] + b, sub) <==> Contains(a, sub) || Contains(b, sub)
  {
    var s := a + [c] + b;
    if Contains(s, sub) {
      var i :| 0 <= i <= |s| - |sub| && OccursAt(s, sub, i);
      if i + |sub| <= |a| {
        assert a[i..i + |sub|] == s[i..i + |sub|];
        assert OccursAt(a, sub, i);
      } else if i > |a| {
        var j := i - |a| - 1;
        assert s[|a| + 1..] == b;
        assert s[i..i + |sub|] == s[|a| + 1..][j..j + |sub|];
        assert OccursAt(b, sub, j);
      } else {
        CharOfOccurrence(s, sub, i, |a|);
        assert false;
      }
    }
    if Contains(a, sub) {
      var i :| 0 <= i <= |a| - |sub| && OccursAt(a, sub, i);
      OccursInLeft(a, [c] + b, sub, i);
      assert a + ([c] + b) == s;
    }
    if Contains(b, sub) {
      var i :| 0 <= i <= |b| - |sub| && OccursAt(b, sub, i);
      OccursInRight(a + [c], b, sub, i);
    }
  }

  lemma LowerConcat(a: string, b: string)
    ensures Lower(a + b) == Lower(a) + Lower(b)
  {
  }

  /** A lower-case needle without spaces occurs in the lowered space-joined parts exactly
      when it occurs in one lowered part. */
  lemma {:induction false} ContainsLowerJoin(parts: seq<string>, sub: string)
    requires ' ' !in sub && |sub| > 0
    ensures Contains(Lower(Join(parts, " ")), sub) <==>
            exists i :: 0 <= i < |parts| && Contains(Lower(parts[i]), sub)
  {
    if |parts| == 0 {
      assert Lower("") == "";
    } else if |parts| == 1 {
    } else {
      var tail := parts[1..];
      ContainsLowerJoin(tail, sub);
      LowerConcat(parts[0] + " ", Join(tail, " "));
      LowerConcat(parts[0], " ");
      assert Lower(" ") == " ";
      assert Lower(Join(parts, " ")) == Lower(parts[0]) + [' '] + Lower(Join(tail, " "));
      ContainsAcrossSeparator(Lower(parts[0]), ' ', Lower(Join(tail, " ")), sub);
      if exists i :: 0 <= i < |tail| && Contains(Lower(tail[i]), sub) {
        var i :| 0 <= i < |tail| && Contains(Lower(tail[i]), sub);
        assert parts[i + 1] == tail[i];
      }
      if exists i :: 0 <= i < |parts| && Contains(Lower(parts[i]), sub) {
        var i :| 0 <= i < |parts| && Contains(Lower(parts[i]), sub);
        if i > 0 {
          assert tail[i - 1] == parts[i];
        }
      }
    }
  }

  /** A string contains every one of its own slices. */
  lemma ContainsWitness(s: string, sub: string, i: int)
    requires OccursAt(s, sub, i)
    ensures Contains(s, sub)
  {
  }

  predicate IsDigit(c: char) {
    '0' <= c <= '9'
  }

  predicate AllDigits(s: string) {
    forall i :: 0 <= i < |s| ==> IsDigit(s[i])
  }

  /** The number a run of decimal digits denotes. */
  function DigitsValue(s: string): nat
    requires AllDigits(s)
  {
    if |s| == 0 then 0
    else DigitsValue(s[..|s| - 1]) * 10 + (s[|s| - 1] as int - '0' as int)
  }

  /** The whitespace `int()` strips from text: the ASCII blanks of `IsAsciiSpace` and the
      Unicode spaces above U+007F; the separators U+001C..U+001F are not stripped. */
  predicate IsSpace(c: char) {
    IsAsciiSpace(c) || c == '\U{85}' || c == '\U{A0}' || c == '\U{1680}' ||
    '\U{2000}' <= c <= '\U{200A}' || c == '\U{2028}' || c == '\U{2029}' ||
    c == '\U{202F}' || c == '\U{205F}' || c == '\U{3000}'
  }

  /** The whitespace `int()` strips from bytes: space, tab, line feed, vertical tab, form
      feed and carriage return. */
  predicate IsAsciiSpace(c: char) {
    c == ' ' || '\t' <= c <= '\r'
  }

  /** The whitespace `int()` strips: ASCII only for bytes, Unicode for text. */
  predicate Blank(c: char, bytes: bool) {
    if bytes then IsAsciiSpace(c) else IsSpace(c)
  }

  predicate AllSpace(s: string, bytes: bool) {
    forall i :: 0 <= i < |s| ==> Blank(s[i], bytes)
  }

  /** How many blanks `s` starts with. */
  function LeadingBlanks(s: string, bytes: bool): (n: nat)
    ensures n <= |s|
  {
    if |s| > 0 && Blank(s[0], bytes) then LeadingBlanks(s[1..], bytes) + 1 else 0
  }

  /** The leading blanks are blanks, and the character after them is not. */
  lemma {:induction false} LeadingBlanksShape(s: string, bytes: bool)
    ensures var n := LeadingBlanks(s, bytes);
            && (forall i :: 0 <= i < n ==> Blank(s[i], bytes))
            && (n < |s| ==> !Blank(s[n], bytes))
    decreases |s|
  {
    if |s| > 0 && Blank(s[0], bytes) {
      LeadingBlanksShape(s[1..], bytes);
      assert forall i :: 1 <= i < |s| ==> s[i] == s[1..][i - 1];
    }
  }

  /** How many blanks `s` ends with. */
  function TrailingBlanks(s: string, bytes: bool): (n: nat)
    ensures n <= |s|
  {
    if |s| > 0 && Blank(s[|s| - 1], bytes) then TrailingBlanks(s[..|s| - 1], bytes) + 1 else 0
  }

  /** The trailing blanks are blanks, and the character before them is not. */
  lemma {:induction false} TrailingBlanksShape(s: string, bytes: bool)
    ensures var n := TrailingBlanks(s, bytes);
            && (forall i :: |s| - n <= i < |s| ==> Blank(s[i], bytes))
            && (n < |s| ==> !Blank(s[|s| - n - 1], bytes))
    decreases |s|
  {
    if |s| > 0 && Blank(s[|s| - 1], bytes) {
      TrailingBlanksShape(s[..|s| - 1], bytes);
      assert forall i :: 0 <= i < |s| - 1 ==> s[i] == s[..|s| - 1][i];
    }
  }

  /** `s.strip()` for the given notion of whitespace. */
  function Strip(s: string, bytes: bool): string {
    var a := LeadingBlanks(s, bytes);
    s[a..|s| - TrailingBlanks(s[a..], bytes)]
  }

  /** `strip` keeps a slice of `s`, starting after the leading blanks. */
  lemma StripKeepsSlice(s: string, bytes: bool)
    ensures var r := Strip(s, bytes);
            && LeadingBlanks(s, bytes) + |r| <= |s|
            && r == s[LeadingBlanks(s, bytes)..LeadingBlanks(s, bytes) + |r|]
  {
    var a := LeadingBlanks(s, bytes);
    var b := TrailingBlanks(s[a..], bytes);
    assert a + |Strip(s, bytes)| == |s| - b;
  }

  /** The first and last characters `strip` keeps are not blanks. */
  lemma StripEndsNotBlank(s: string, bytes: bool)
    ensures var r := Strip(s, bytes);
            |r| > 0 ==> !Blank(r[0], bytes) && !Blank(r[|r| - 1], bytes)
  {
    var a := LeadingBlanks(s, bytes);
    var rest := s[a..];
    var b := TrailingBlanks(rest, bytes);
    var r := s[a..|s| - b];
    assert Strip(s, bytes) == r;
    LeadingBlanksShape(s, bytes);
    TrailingBlanksShape(rest, bytes);
    if |r| > 0 {
      assert r[0] == s[a];
      assert r[|r| - 1] == rest[|rest| - b - 1];
    }
  }

  /** Everything `strip` cuts off, before and after the slice it keeps, is blank. */
  lemma StripCutsBlanks(s: string, bytes: bool)
    ensures forall i :: 0 <= i < LeadingBlanks(s, bytes) ==> Blank(s[i], bytes)
    ensures forall i :: LeadingBlanks(s, bytes) + |Strip(s, bytes)| <= i < |s| ==> Blank(s[i], bytes)
  {
    var a := LeadingBlanks(s, bytes);
    var rest := s[a..];
    var b := TrailingBlanks(rest, bytes);
    assert |Strip(s, bytes)| == |s| - b - a;
    LeadingBlanksShape(s, bytes);
    TrailingBlanksShape(rest, bytes);
    forall i | |s| - b <= i < |s| ensures Blank(s[i], bytes) {
      assert s[i] == rest[i - a];
    }
  }

  lemma {:induction false} LeadingBlanksPadded(pre: string, t: string, bytes: bool)
    requires AllSpace(pre, bytes) && |t| > 0 && !Blank(t[0], bytes)
    ensures LeadingBlanks(pre + t, bytes) == |pre|
    decreases |pre|
  {
    if |pre| > 0 {
      assert (pre + t)[1..] == pre[1..] + t;
      LeadingBlanksPadded(pre[1..], t, bytes);
    } else {
      assert pre + t == t;
    }
  }

  lemma {:induction false} TrailingBlanksPadded(t: string, post: string, bytes: bool)
    requires AllSpace(post, bytes) && |t| > 0 && !Blank(t[|t| - 1], bytes)
    ensures TrailingBlanks(t + post, bytes) == |post|
    decreases |post|
  {
    if |post| > 0 {
      assert (t + post)[..|t + post| - 1] == t + post[..|post| - 1];
      TrailingBlanksPadded(t, post[..|post| - 1], bytes);
    } else {
      assert t + post == t;
    }
  }

  /** Whitespace around a text with non-blank ends is exactly what `strip` removes. */
  lemma StripPadded(pre: string, t: string, post: string, bytes: bool)
    requires AllSpace(pre, bytes) && AllSpace(post, bytes)
    requires |t| > 0 && !Blank(t[0], bytes) && !Blank(t[|t| - 1], bytes)
    ensures Strip(pre + t + post, bytes) == t
  {
    var s := pre + t + post;
    assert s == pre + (t + post);
    LeadingBlanksPadded(pre, t + post, bytes);
    assert s[|pre|..] == t + post;
    TrailingBlanksPadded(t, post, bytes);
  }

  /** The body of a base-10 literal: decimal digits, with single underscores allowed
      between two digits. */
  predicate DigitGroups(s: string)
    decreases |s|
  {
    && |s| > 0 && IsDigit(s[0])
    && (|s| == 1 || if s[1] == '_' then DigitGroups(s[2..]) else DigitGroups(s[1..]))
  }

  /** A literal body consists of digits and underscores. */
  lemma {:induction false} GroupsChars(s: string)
    requires DigitGroups(s)
    ensures forall i :: 0 <= i < |s| ==> IsDigit(s[i]) || s[i] == '_'
    decreases |s|
  {
    if |s| > 1 {
      var k := if s[1] == '_' then 2 else 1;
      GroupsChars(s[k..]);
      assert forall i :: k <= i < |s| ==> s[i] == s[k..][i - k];
    }
  }

  /** `s` with its underscores removed. */
  function DropUnderscores(s: string): (r: string)
    ensures |r| <= |s|
  {
    if |s| == 0 then ""
    else
      var rest := DropUnderscores(s[1..]);
      if s[0] == '_' then rest else [s[0]] + rest
  }

  /** Without its underscores, a text of digits and underscores is all digits. */
  lemma {:induction false} DropUnderscoresLeavesDigits(s: string)
    requires forall i :: 0 <= i < |s| ==> IsDigit(s[i]) || s[i] == '_'
    ensures AllDigits(DropUnderscores(s))
    decreases |s|
  {
    if |s| > 0 {
      assert forall i :: 1 <= i < |s| ==> s[1..][i - 1] == s[i];
      DropUnderscoresLeavesDigits(s[1..]);
    }
  }

  lemma {:induction false} DropUnderscoresConcat(a: string, b: string)
    ensures DropUnderscores(a + b) == DropUnderscores(a) + DropUnderscores(b)
    decreases |a|
  {
    if |a| > 0 {
      assert (a + b)[1..] == a[1..] + b;
      DropUnderscoresConcat(a[1..], b);
    } else {
      assert a + b == b;
    }
  }

  lemma {:induction false} DropUnderscoresOfDigits(s: string)
    requires AllDigits(s)
    ensures DropUnderscores(s) == s
    decreases |s|
  {
    if |s| > 0 {
      DropUnderscoresOfDigits(s[1..]);
      assert [s[0]] + s[1..] == s;
    }
  }

  /** The number a base-10 literal body denotes. */
  function GroupsValue(s: string): nat
    requires DigitGroups(s)
  {
    GroupsChars(s);
    DropUnderscoresLeavesDigits(s);
    DigitsValue(DropUnderscores(s))
  }

  /** Python's `int(s)` in base 10: an optional sign, then digit groups, with whitespace
      (the kind `bytes` selects) allowed only around the whole; `None` where Python raises
      `ValueError`. */
  function ParseWith(s: string, bytes: bool): Option<int> {
    var t := Strip(s, bytes);
    if |t| > 0 && (t[0] == '-' || t[0] == '+') && DigitGroups(t[1..]) then
      var m: int := GroupsValue(t[1..]);
      Some(if t[0] == '-' then -m else m)
    else if DigitGroups(t) then Some(GroupsValue(t))
    else None
  }

  /** `int(s)` for a text value. */
  function ParseInt(s: string): Option<int> {
    ParseWith(s, false)
  }

  /** `int(b)` for a bytes value, whose whitespace is ASCII only. */
  function ParseBytesInt(s: string): Option<int> {
    ParseWith(s, true)
  }

  /** `str(n)` for a natural number: its shortest decimal spelling. */
  function NatToString(n: nat): (r: string)
    ensures |r| > 0 && AllDigits(r)
  {
    var d := ['0' + (n % 10) as char];
    if n < 10 then d else NatToString(n / 10) + d
  }

  /** `str(n)`. */
  function IntToString(n: int): string {
    if n < 0 then "-" + NatToString(-n) else NatToString(n)
  }

  lemma {:induction false} DigitsOfNat(n: nat)
    ensures DigitsValue(NatToString(n)) == n
  {
    var s := NatToString(n);
    if n >= 10 {
      DigitsOfNat(n / 10);
      assert s[..|s| - 1] == NatToString(n / 10);
    }
  }

  /** The decimal text of an integer has no blanks, no underscores and a digit last. */
  lemma IntToStringShape(n: int)
    ensures var t := IntToString(n);
            && |t| > 0 && IsDigit(t[|t| - 1]) && (IsDigit(t[0]) || (t[0] == '-' && |t| > 1))
            && (t[0] == '-' ==> AllDigits(t[1..]) && DigitsValue(t[1..]) == -n)
            && (IsDigit(t[0]) ==> AllDigits(t) && DigitsValue(t) == n)
  {
    if n < 0 {
      DigitsOfNat(-n);
      assert IntToString(n)[1..] == NatToString(-n);
    } else {
      DigitsOfNat(n);
    }
  }

  /** A run of digits is a literal body without underscores. */
  lemma {:induction false} DigitsAreGroups(s: string)
    requires |s| > 0 && AllDigits(s)
    ensures DigitGroups(s) && GroupsValue(s) == DigitsValue(s)
    decreases |s|
  {
    if |s| > 1 {
      DigitsAreGroups(s[1..]);
    }
    DropUnderscoresOfDigits(s);
  }

  /** Parsing the decimal text of an integer gives the integer back, however much
      whitespace surrounds it. */
  lemma ParseIntToString(n: int, pre: string, post: string, bytes: bool)
    requires AllSpace(pre, bytes) && AllSpace(post, bytes)
    ensures ParseWith(pre + IntToString(n) + post, bytes) == Some(n)
  {
    var t := IntToString(n);
    IntToStringShape(n);
    StripPadded(pre, t, post, bytes);
    if t[0] == '-' {
      ParseStrippedNegative(pre + t + post, t, bytes);
    } else {
      ParseStrippedDigits(pre + t + post, t, bytes);
    }
  }

  /** A text that strips to `-` and digits parses as the negated digits. */
  lemma ParseStrippedNegative(s: string, t: string, bytes: bool)
    requires Strip(s, bytes) == t && |t| > 1 && t[0] == '-' && AllDigits(t[1..])
    ensures ParseWith(s, bytes) == Some(-(DigitsValue(t[1..]) as int))
  {
    DigitsAreGroups(t[1..]);
  }

  /** A text that strips to digits alone parses as their value. */
  lemma ParseStrippedDigits(s: string, t: string, bytes: bool)
    requires Strip(s, bytes) == t && |t| > 0 && AllDigits(t)
    ensures ParseWith(s, bytes) == Some(DigitsValue(t))
  {
    assert IsDigit(t[0]);
    DigitsAreGroups(t);
  }

  lemma JoinedDigits(x: string, y: string)
    requires AllDigits(x) && AllDigits(y)
    ensures DropUnderscores(x + "_" + y) == x + y
  {
    var u: string := ['_'];
    assert DropUnderscores(u) == DropUnderscores(u[1..]) && u[1..] == [];
    DropUnderscoresConcat(x, u);
    DropUnderscoresOfDigits(x);
    assert DropUnderscores(x + u) == x;
    DropUnderscoresConcat(x + u, y);
    DropUnderscoresOfDigits(y);
  }

  /** Two runs of digits joined by one underscore form a literal body. */
  lemma {:induction false} JoinedGroups(x: string, y: string)
    requires |x| > 0 && |y| > 0 && AllDigits(x) && AllDigits(y)
    ensures DigitGroups(x + "_" + y)
    decreases |x|
  {
    var s := x + "_" + y;
    if |x| == 1 {
      assert s[2..] == y;
      DigitsAreGroups(y);
    } else {
      assert s[1..] == x[1..] + "_" + y;
      JoinedGroups(x[1..], y);
    }
  }

  /** A single underscore between two runs of digits does not change the number:
      `int("1_000") == int("1000")`. */
  lemma ParseIntSkipsUnderscore(x: string, y: string)
    requires |x| > 0 && |y| > 0 && AllDigits(x) && AllDigits(y)
    ensures ParseInt(x + "_" + y) == ParseInt(x + y) == Some(DigitsValue(x + y))
  {
    var s := x + "_" + y;
    assert s[0] == x[0];
    assert s[|s| - 1] == y[|y| - 1];
    NoPadding(s, false);
    JoinedGroups(x, y);
    JoinedDigits(x, y);
    assert AllDigits(x + y);
    ParseDigits(x + y);
  }

  /** A run of digits parses to the number it denotes. */
  lemma ParseDigits(t: string)
    requires |t| > 0 && AllDigits(t)
    ensures ParseInt(t) == Some(DigitsValue(t))
  {
    NoPadding(t, false);
    DigitsAreGroups(t);
  }

  /** A text without blanks at its ends strips to itself. */
  lemma NoPadding(s: string, bytes: bool)
    requires |s| > 0 && !Blank(s[0], bytes) && !Blank(s[|s| - 1], bytes)
    ensures Strip(s, bytes) == s
  {
    StripPadded("", s, "", bytes);
    assert "" + s + "" == s;
  }

  /** Two underscores in a row, or one at either end, make the text unparsable. */
  lemma ParseIntRejectsLooseUnderscores()
    ensures ParseInt("1__0") == None
    ensures ParseInt("_1") == None
    ensures ParseInt("1_") == None
  {
    NoPadding("1__0", false);
    assert "1__0"[1] == '_' && "1__0"[2] == '_';
    NoPadding("_1", false);
    NoPadding("1_", false);
  }
}
