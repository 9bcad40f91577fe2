/**
 * The handful of Python `str` operations the modelled code relies on:
 * `lower`, `capitalize`, `strip`, the `in` substring test, `replace`,
 * prefix slicing `s[:n]` and `sep.join(parts)`.
 *
 * Case mapping is ASCII only; `strip` uses Python's full whitespace set.
 */
module Text {

  predicate IsUpperAscii(c: char) { 'A' <= c <= 'Z' }

  predicate IsLowerAscii(c: char) { 'a' <= c <= 'z' }

  function LowerChar(c: char): char
  {
    if IsUpperAscii(c) then (c as int + 32) as char else c
  }

  function UpperChar(c: char): char
  {
    if IsLowerAscii(c) then (c as int - 32) as char else c
  }

  /** `s.lower()` on ASCII letters. */
  function Lower(s: string): (r: string)
    ensures |r| == |s|
    ensures forall i :: 0 <= i < |r| ==> !IsUpperAscii(r[i])
    ensures forall i :: 0 <= i < |s| && !IsUpperAscii(s[i]) ==> r[i] == s[i]
  {
    seq(|s|, i requires 0 <= i < |s| => LowerChar(s[i]))
  }

  /** `s.capitalize()`: first character upper-cased, the rest lower-cased. */
  function Capitalize(s: string): (r: string)
    ensures |r| == |s|
    ensures s != [] ==> !IsLowerAscii(r[0])
    ensures forall i :: 1 <= i < |r| ==> !IsUpperAscii(r[i])
  {
    if s == [] then [] else [UpperChar(s[0])] + Lower(s[1..])
  }

  /** The characters `str.isspace()` accepts, which `str.strip()` removes. */
  predicate IsSpace(c: char)
  {
    || c == ' ' || '\t' <= c <= '\r' || '\U{1C}' <= c <= '\U{1F}'
    || c == '\U{85}' || c == '\U{A0}' || c == '\U{1680}'
    || '\U{2000}' <= c <= '\U{200A}' || c == '\U{2028}' || c == '\U{2029}'
    || c == '\U{202F}' || c == '\U{205F}' || c == '\U{3000}'
  }

  /** `s.lstrip()`: the suffix left after dropping leading whitespace. */
  function TrimStart(s: string): (r: string)
    ensures |r| <= |s| && r == s[|s| - |r|..]
    ensures forall k :: 0 <= k < |s| - |r| ==> IsSpace(s[k])
    ensures r != [] ==> !IsSpace(r[0])
  {
    if s != [] && IsSpace(s[0]) then
      var tail := s[1..];
      var r := TrimStart(tail);
      SuffixAfterSpace(s, tail, r);
      r
    else s
  }

  /** A whitespace-only prefix of `s[1..]`, extended by the space `s[0]`, is one of `s`. */
  lemma SuffixAfterSpace(s: string, tail: string, r: string)
    requires s != [] && IsSpace(s[0]) && tail == s[1..]
    requires |r| <= |tail| && r == tail[|tail| - |r|..]
    requires forall k :: 0 <= k < |tail| - |r| ==> IsSpace(tail[k])
    ensures r == s[|s| - |r|..]
    ensures forall k :: 0 <= k < |s| - |r| ==> IsSpace(s[k])
  {
    forall k | 1 <= k < |s| - |r|
      ensures IsSpace(s[k])
    {
      assert s[k] == tail[k - 1];
    }
  }

  /** `s.rstrip()`: the prefix left after dropping trailing whitespace. */
  function TrimEnd(s: string): (r: string)
    ensures |r| <= |s| && r == s[..|r|]
    ensures forall k :: |r| <= k < |s| ==> IsSpace(s[k])
    ensures r != [] ==> !IsSpace(r[|r| - 1])
  {
    if s != [] && IsSpace(s[|s| - 1]) then
      var init := s[..|s| - 1];
      var r := TrimEnd(init);
      PrefixBeforeSpace(s, init, r);
      r
    else s
  }

  /** A prefix of `s[..|s| - 1]` followed only by whitespace, the last space included, is one of `s`. */
  lemma PrefixBeforeSpace(s: string, init: string, r: string)
    requires s != [] && IsSpace(s[|s| - 1]) && init == s[..|s| - 1]
    requires |r| <= |init| && r == init[..|r|]
    requires forall k :: |r| <= k < |init| ==> IsSpace(init[k])
    ensures r == s[..|r|]
    ensures forall k :: |r| <= k < |s| ==> IsSpace(s[k])
  {
    forall k | |r| <= k < |init|
      ensures IsSpace(s[k])
    {
      assert s[k] == init[k];
    }
  }

  /** `s.strip()`. */
  function Strip(s: string): (r: string)
    ensures r != [] ==> !IsSpace(r[0]) && !IsSpace(r[|r| - 1])
    ensures (forall k :: 0 <= k < |s| ==> !IsSpace(s[k])) ==> r == s
  {
    TrimEnd(TrimStart(s))
  }

  /** `r` is `s[i..i + |r|]`, and everything of `s` outside that slice is whitespace. */
  ghost predicate StrippedAt(s: string, r: string, i: int)
  {
    && 0 <= i && i + |r| <= |s| && r == s[i..i + |r|]
    && (forall k :: 0 <= k < i ==> IsSpace(s[k]))
    && (forall k :: i + |r| <= k < |s| ==> IsSpace(s[k]))
  }

  /**
   * `strip()` removes whitespace on either side and nothing else: the result
   * is a slice of `s`, and only whitespace lies outside it.
   */
  lemma StripIsSlice(s: string)
    ensures StrippedAt(s, Strip(s), |s| - |TrimStart(s)|)
  {
    var t := TrimStart(s);
    PrefixOfSuffix(s, |s| - |t|, t, TrimEnd(t));
  }

  /**
   * A prefix `r` of the suffix `t == s[i..]`, with only whitespace before
   * `t` in `s` and after `r` in `t`.
   */
  lemma PrefixOfSuffix(s: string, i: nat, t: string, r: string)
    requires i <= |s| && t == s[i..] && |r| <= |t| && r == t[..|r|]
    requires forall k :: 0 <= k < i ==> IsSpace(s[k])
    requires forall k :: |r| <= k < |t| ==> IsSpace(t[k])
    ensures StrippedAt(s, r, i)
  {
    assert s[i..][..|r|] == s[i..i + |r|];
    forall k | i + |r| <= k < |s|
      ensures IsSpace(s[k])
    {
      assert s[k] == t[k - i];
    }
  }

  /** Every character of `w` is whitespace. */
  predicate AllSpace(w: string)
  {
    forall k :: 0 <= k < |w| ==> IsSpace(w[k])
  }

  /** Lower-casing neither creates nor removes whitespace. */
  lemma LowerCharKeepsSpace(c: char)
    ensures IsSpace(LowerChar(c)) <==> IsSpace(c)
  {
  }

  /** `s.lower().lstrip() == s.lstrip().lower()`. */
  lemma {:induction false} TrimStartLower(s: string)
    ensures TrimStart(Lower(s)) == Lower(TrimStart(s))
    decreases |s|
  {
    if s != [] {
      LowerCharKeepsSpace(s[0]);
      if IsSpace(s[0]) {
        assert Lower(s)[1..] == Lower(s[1..]);
        TrimStartLower(s[1..]);
      }
    }
  }

  /** `s.lower().rstrip() == s.rstrip().lower()`. */
  lemma {:induction false} TrimEndLower(s: string)
    ensures TrimEnd(Lower(s)) == Lower(TrimEnd(s))
    decreases |s|
  {
    if s != [] {
      LowerCharKeepsSpace(s[|s| - 1]);
      if IsSpace(s[|s| - 1]) {
        assert Lower(s)[..|s| - 1] == Lower(s[..|s| - 1]);
        TrimEndLower(s[..|s| - 1]);
      }
    }
  }

  /** Stripping and lower-casing commute. */
  lemma StripLower(s: string)
    ensures Strip(Lower(s)) == Lower(Strip(s))
  {
    TrimStartLower(s);
    TrimEndLower(TrimStart(s));
  }

  /** Lower-casing twice is lower-casing once. */
  lemma LowerTwice(s: string)
    ensures Lower(Lower(s)) == Lower(s)
  {
  }

  /** A leading whitespace character does not survive `strip()`. */
  lemma StripLeadingSpace(c: char, s: string)
    requires IsSpace(c)
    ensures Strip([c] + s) == Strip(s)
  {
    var t := [c] + s;
    assert t[0] == c && t[1..] == s;
    assert TrimStart(t) == TrimStart(s);
  }

  /** `lstrip()` of text with a whitespace character appended. */
  lemma {:induction false} TrimStartSnocSpace(s: string, c: char)
    requires IsSpace(c)
    ensures TrimStart(s + [c]) == if TrimStart(s) == [] then [] else TrimStart(s) + [c]
    decreases |s|
  {
    var t := s + [c];
    if s == [] {
      assert t[0] == c && t[1..] == [];
      assert TrimStart(t) == TrimStart([]);
    } else {
      assert t[0] == s[0] && t[1..] == s[1..] + [c];
      if IsSpace(s[0]) {
        assert TrimStart(t) == TrimStart(s[1..] + [c]);
        assert TrimStart(s) == TrimStart(s[1..]);
        TrimStartSnocSpace(s[1..], c);
      } else {
        assert TrimStart(t) == t && TrimStart(s) == s;
      }
    }
  }

  /** A trailing whitespace character does not survive `strip()`. */
  lemma StripTrailingSpace(s: string, c: char)
    requires IsSpace(c)
    ensures Strip(s + [c]) == Strip(s)
  {
    TrimStartSnocSpace(s, c);
    var t := TrimStart(s);
    if t != [] {
      assert (t + [c])[..|t|] == t;
    }
  }

  /** Leading whitespace of any length does not survive `strip()`. */
  lemma {:induction false} StripLeadingSpaces(w: string, s: string)
    requires AllSpace(w)
    ensures Strip(w + s) == Strip(s)
    decreases |w|
  {
    if w != [] {
      assert w + s == [w[0]] + (w[1..] + s);
      StripLeadingSpace(w[0], w[1..] + s);
      StripLeadingSpaces(w[1..], s);
    } else {
      assert w + s == s;
    }
  }

  /** Trailing whitespace of any length does not survive `strip()`. */
  lemma {:induction false} StripTrailingSpaces(s: string, w: string)
    requires AllSpace(w)
    ensures Strip(s + w) == Strip(s)
    decreases |w|
  {
    if w != [] {
      var init := w[..|w| - 1];
      assert s + w == (s + init) + [w[|w| - 1]];
      StripTrailingSpace(s + init, w[|w| - 1]);
      StripTrailingSpaces(s, init);
    } else {
      assert s + w == s;
    }
  }

  predicate IsPrefix(p: string, s: string)
  {
    |p| <= |s| && s[..|p|] == p
  }

  ghost predicate OccursAt(s: string, p: string, i: int)
  {
    0 <= i && i + |p| <= |s| && s[i..i + |p|] == p
  }

  /** Python's `p in s`. */
  predicate Contains(s: string, p: string)
    ensures Contains(s, p) <==> exists i :: OccursAt(s, p, i)
    decreases |s|
  {
    if IsPrefix(p, s) then
      assert OccursAt(s, p, 0);
      true
    else if s == [] then
      false
    else
      var r := Contains(s[1..], p);
      assert forall i :: OccursAt(s[1..], p, i) ==> OccursAt(s, p, i + 1);
      assert forall i :: OccursAt(s, p, i) && i > 0 ==> OccursAt(s[1..], p, i - 1);
      r
  }

  /** No non-empty pattern occurs in the empty string. */
  lemma NothingInEmpty(p: string)
    requires p != []
    ensures !Contains([], p)
  {
  }

  /**
   * `s.replace(p, r)` for a non-empty pattern: occurrences are found left
   * to right and do not overlap.
   */
  function Replace(s: string, p: string, r: string): (t: string)
    requires p != []
    ensures !Contains(s, p) ==> t == s
    decreases |s|
  {
    if |s| < |p| then s
    else if s[..|p|] == p then r + Replace(s[|p|..], p, r)
    else
      assert forall i :: OccursAt(s[1..], p, i) ==> OccursAt(s, p, i + 1);
      [s[0]] + Replace(s[1..], p, r)
  }

  /** An occurrence past the first character is an occurrence in the tail. */
  lemma OccursInTail(s: string, p: string, i: int)
    requires s != [] && 0 < i
    ensures OccursAt(s, p, i) <==> OccursAt(s[1..], p, i - 1)
  {
    if i + |p| <= |s| {
      assert s[1..][i - 1..i - 1 + |p|] == s[i..i + |p|];
    }
  }

  /** `replace` when the text starts with the pattern. */
  lemma ReplaceAtHead(s: string, p: string, r: string)
    requires p != [] && |s| >= |p| && s[..|p|] == p
    ensures Replace(s, p, r) == r + Replace(s[|p|..], p, r)
  {
  }

  /** `replace` when the text does not start with the pattern. */
  lemma ReplaceSkipsHead(s: string, p: string, r: string)
    requires p != [] && |s| >= |p| && s[..|p|] != p
    ensures Replace(s, p, r) == [s[0]] + Replace(s[1..], p, r)
  {
  }

  /** Putting back the first character of `a` in front of `a[1..] + x + y`. */
  lemma ConsAppend(a: string, x: string, y: string, rest: string, whole: string)
    requires a != [] && rest == a[1..] + x + y && whole == [a[0]] + rest
    ensures whole == a + x + y
  {
    assert [a[0]] + a[1..] == a;
  }

  /** Dropping the first character of `a` keeps `p` from occurring before `b`'s copy of it. */
  lemma NoEarlierInTail(a: string, p: string, b: string)
    requires a != []
    requires forall j :: 0 <= j < |a| ==> !OccursAt(a + p + b, p, j)
    ensures (a + p + b)[0] == a[0] && (a + p + b)[1..] == a[1..] + p + b
    ensures |a + p + b| >= |p| && (a + p + b)[..|p|] != p
    ensures forall j :: 0 <= j < |a| - 1 ==> !OccursAt(a[1..] + p + b, p, j)
  {
    var s := a + p + b;
    assert !OccursAt(s, p, 0);
    assert s[1..] == a[1..] + p + b;
    forall j | 0 <= j < |a| - 1
      ensures !OccursAt(a[1..] + p + b, p, j)
    {
      OccursInTail(s, p, j + 1);
    }
  }

  /**
   * `replace` rewrites the first occurrence and carries on after it: in
   * `a + p + b` where `p` first occurs right after `a`, the prefix `a` is kept,
   * the occurrence becomes `r`, and the rest `b` is rewritten.
   */
  lemma {:induction false} ReplaceFirstOccurrence(a: string, p: string, b: string, r: string)
    requires p != []
    requires forall j :: 0 <= j < |a| ==> !OccursAt(a + p + b, p, j)
    ensures Replace(a + p + b, p, r) == a + r + Replace(b, p, r)
    decreases |a|
  {
    var s := a + p + b;
    if a == [] {
      assert s == p + b && s[..|p|] == p && s[|p|..] == b;
      ReplaceAtHead(s, p, r);
    } else {
      NoEarlierInTail(a, p, b);
      ReplaceSkipsHead(s, p, r);
      ReplaceFirstOccurrence(a[1..], p, b, r);
      ConsAppend(a, r, Replace(b, p, r), Replace(a[1..] + p + b, p, r), Replace(s, p, r));
    }
  }

  /** A whole string equal to the pattern is replaced by `r`. */
  lemma ReplaceWhole(p: string, r: string)
    requires p != []
    ensures Replace(p, p, r) == r
  {
    ReplaceFirstOccurrence([], p, [], r);
    assert [] + p + [] == p;
  }

  /** `s[:n]` for a non-negative `n`. */
  function Take(s: string, n: nat): (r: string)
    ensures |r| == if n < |s| then n else |s|
    ensures IsPrefix(r, s)
  {
    if n < |s| then s[..n] else s
  }

  /** The summed length of `parts`. */
  function TotalLength(parts: seq<string>): nat
  {
    if parts == [] then 0 else |parts[0]| + TotalLength(parts[1..])
  }

  /** `sep.join(parts)`. */
  function Join(sep: string, parts: seq<string>): (r: string)
    ensures parts == [] ==> r == []
    ensures parts != [] ==> |r| == TotalLength(parts) + (|parts| - 1) * |sep|
    ensures |parts| == 1 ==> r == parts[0]
  {
    if parts == [] then []
    else if |parts| == 1 then parts[0]
    else parts[0] + sep + Join(sep, parts[1..])
  }

  /** Joining two non-empty runs of parts puts one separator between them. */
  lemma {:induction false} JoinAppend(sep: string, a: seq<string>, b: seq<string>)
    requires a != [] && b != []
    ensures Join(sep, a + b) == Join(sep, a) + sep + Join(sep, b)
  {
    if |a| == 1 {
      assert (a + b)[1..] == b;
    } else {
      assert (a + b)[1..] == a[1..] + b;
      JoinAppend(sep, a[1..], b);
    }
  }
}
