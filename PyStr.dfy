/** The handful of Python `str` operations the negotiator relies on:
    `strip()`, `split(sep)`, `startswith(prefix)`, `replace(" ", "")` and the
    substring test `sub in s`, each as a pure function over `seq<char>`. */
module PyStr {

  /** `c.isspace()`: the characters Python's `str.strip()` removes when it
      is called without arguments. */
  predicate IsSpace(c: char) {
    || ('\t' <= c <= '\r')
    || ('\U{1c}' <= c <= '\U{1f}')
    || c == ' '
    || c == '\U{85}'
    || c == '\U{a0}'
    || c == '\U{1680}'
    || ('\U{2000}' <= c <= '\U{200a}')
    || c == '\U{2028}'
    || c == '\U{2029}'
    || c == '\U{202f}'
    || c == '\U{205f}'
    || c == '\U{3000}'
  }

  predicate AllSpace(s: string) {
    forall i :: 0 <= i < |s| ==> IsSpace(s[i])
  }

  /** `s.lstrip()`: what is left once the leading whitespace is gone. */
  function StripLeft(s: string): (r: string)
    ensures |r| <= |s|
  {
    if |s| > 0 && IsSpace(s[0]) then StripLeft(s[1..]) else s
  }

  /** `s.rstrip()`: what is left once the trailing whitespace is gone. */
  function StripRight(s: string): (r: string)
    ensures |r| <= |s|
  {
    if |s| > 0 && IsSpace(s[|s| - 1]) then StripRight(s[..|s| - 1]) else s
  }

  /** `s.strip()`. */
  function Strip(s: string): (r: string)
    ensures |r| <= |s|
  {
    StripRight(StripLeft(s))
  }

  /** `lstrip()` removes a whitespace prefix, and all of it. */
  lemma {:induction false} StripLeftSpec(s: string)
    ensures var r := StripLeft(s);
      && r == s[|s| - |r|..]
      && AllSpace(s[..|s| - |r|])
      && (r == [] || !IsSpace(r[0]))
  {
    if |s| > 0 && IsSpace(s[0]) {
      StripLeftSpec(s[1..]);
      var r := StripLeft(s);
      assert s[1..][|s| - 1 - |r|..] == s[|s| - |r|..];
      assert forall i :: 0 <= i < |s| - |r| ==> s[..|s| - |r|][i] == s[i];
      assert forall i :: 1 <= i < |s| - |r| ==> s[i] == s[1..][..|s| - 1 - |r|][i - 1];
    }
  }

  /** `rstrip()` removes a whitespace suffix, and all of it. */
  lemma {:induction false} StripRightSpec(s: string)
    ensures var r := StripRight(s);
      && r == s[..|r|]
      && AllSpace(s[|r|..])
      && (r == [] || !IsSpace(r[|r| - 1]))
  {
    if |s| > 0 && IsSpace(s[|s| - 1]) {
      StripRightSpec(s[..|s| - 1]);
      var r := StripRight(s);
      assert s[..|s| - 1][..|r|] == s[..|r|];
      assert s[|r|..] == s[..|s| - 1][|r|..] + [s[|s| - 1]];
    }
  }

  /** The result of `strip()` is empty exactly when the text is all
      whitespace, and otherwise neither starts nor ends with whitespace. */
  lemma StripSpec(s: string)
    ensures var r := Strip(s);
      && (r == [] <==> AllSpace(s))
      && (r != [] ==> !IsSpace(r[0]) && !IsSpace(r[|r| - 1]))
  {
    var l := StripLeft(s);
    var r := StripRight(l);
    StripLeftSpec(s);
    StripRightSpec(l);
    assert l != [] ==> !IsSpace(s[|s| - |l|]);
    assert |r| < |l| ==> IsSpace(l[|r|]) by {
      if |r| < |l| { assert l[|r|] == l[|r|..][0]; }
    }
    assert l == [] ==> s[..|s| - |l|] == s;
    assert r != [] ==> r[0] == l[0];
  }

  /** Text whose first and last characters are not whitespace. */
  predicate Trimmed(s: string) {
    s != [] && !IsSpace(s[0]) && !IsSpace(s[|s| - 1])
  }

  /** `strip()` leaves trimmed text as it is. */
  lemma StripTrimmed(s: string)
    requires Trimmed(s)
    ensures Strip(s) == s
  {
    StripPadded([], s, []);
    assert [] + s + [] == s;
  }

  /** Stripping a whitespace-padded text whose own ends are not whitespace
      gives back exactly that text: `Strip` removes the padding and nothing
      else. */
  lemma {:induction false} StripPadded(pre: string, mid: string, post: string)
    requires AllSpace(pre) && AllSpace(post)
    requires mid == [] || (!IsSpace(mid[0]) && !IsSpace(mid[|mid| - 1]))
    ensures Strip(pre + mid + post) == mid
  {
    assert pre + mid + post == pre + (mid + post);
    if mid == [] {
      assert mid + post == post;
      StripLeftPadded(pre, post);
      StripLeftAllSpace(post);
      StripRightAllSpace([]);
    } else {
      StripLeftPadded(pre, mid + post);
      StripRightPadded(mid, post);
    }
  }

  lemma {:induction false} StripLeftPadded(pre: string, rest: string)
    requires AllSpace(pre)
    requires rest == [] || !IsSpace(rest[0]) || AllSpace(rest)
    ensures StripLeft(pre + rest) == StripLeft(rest)
    ensures rest != [] && !IsSpace(rest[0]) ==> StripLeft(pre + rest) == rest
  {
    if pre != [] {
      assert (pre + rest)[1..] == pre[1..] + rest;
      StripLeftPadded(pre[1..], rest);
    } else {
      assert pre + rest == rest;
    }
  }

  lemma {:induction false} StripLeftAllSpace(s: string)
    requires AllSpace(s)
    ensures StripLeft(s) == []
  {
    if s != [] {
      StripLeftAllSpace(s[1..]);
    }
  }

  lemma {:induction false} StripRightAllSpace(s: string)
    requires AllSpace(s)
    ensures StripRight(s) == []
  {
    if s != [] {
      StripRightAllSpace(s[..|s| - 1]);
    }
  }

  lemma {:induction false} StripRightPadded(mid: string, post: string)
    requires AllSpace(post)
    requires mid != [] && !IsSpace(mid[|mid| - 1])
    ensures StripRight(mid + post) == mid
  {
    if post != [] {
      assert (mid + post)[..|mid + post| - 1] == mid + post[..|post| - 1];
      StripRightPadded(mid, post[..|post| - 1]);
    } else {
      assert mid + post == mid;
    }
  }

  /** `sep.join(parts)`: the inverse of `Split`. */
  function Join(parts: seq<string>, sep: char): string
    requires |parts| >= 1
  {
    if |parts| == 1 then parts[0] else parts[0] + [sep] + Join(parts[1..], sep)
  }

  /** `s.split(sep)` with a one-character separator: at least one piece,
      the empty text splitting into one empty piece. */
  function Split(s: string, sep: char): (r: seq<string>)
    ensures |r| >= 1
    ensures s == [] ==> r == [""]
  {
    if |s| == 0 then [""]
    else
      var rest := Split(s[1..], sep);
      if s[0] == sep then [""] + rest
      else [[s[0]] + rest[0]] + rest[1..]
  }

  /** No piece of `Split(s, sep)` holds the separator, and joining the
      pieces with it gives back `s`. */
  lemma {:induction false} SplitPieces(s: string, sep: char)
    ensures forall i :: 0 <= i < |Split(s, sep)| ==> sep !in Split(s, sep)[i]
    ensures Join(Split(s, sep), sep) == s
  {
    if |s| > 0 {
      var rest := Split(s[1..], sep);
      SplitPieces(s[1..], sep);
      var r := Split(s, sep);
      if s[0] == sep {
        assert r == [""] + rest;
        assert r[1..] == rest;
        assert [sep] + Join(rest, sep) == s;
      } else {
        assert r == [[s[0]] + rest[0]] + rest[1..];
        assert Join(r, sep) == s by {
          if |rest| == 1 {
            assert r == [[s[0]] + rest[0]];
          } else {
            assert r[1..] == rest[1..];
            assert Join(rest, sep) == rest[0] + [sep] + Join(rest[1..], sep);
          }
        }
        forall i | 0 <= i < |r|
          ensures sep !in r[i]
        {
          if i > 0 {
            assert r[i] == rest[i];
          }
        }
      }
    }
  }

  /** Splitting is the inverse of joining pieces that do not hold the
      separator, so the pieces `Split` returns are the only ones possible. */
  lemma {:induction false} SplitJoin(parts: seq<string>, sep: char)
    requires |parts| >= 1
    requires forall i :: 0 <= i < |parts| ==> sep !in parts[i]
    ensures Split(Join(parts, sep), sep) == parts
  {
    if |parts| == 1 {
      SplitNoSep(parts[0], sep);
    } else {
      SplitJoin(parts[1..], sep);
      SplitPrefix(parts[0], Join(parts[1..], sep), sep);
      assert [parts[0]] + parts[1..] == parts;
    }
  }

  /** Text without the separator splits into itself. */
  lemma {:induction false} SplitNoSep(s: string, sep: char)
    ensures sep !in s ==> Split(s, sep) == [s]
  {
    if s != [] && sep !in s {
      SplitNoSep(s[1..], sep);
      assert [s[0]] + s[1..] == s;
    }
  }

  lemma {:induction false} SplitPrefix(head: string, tail: string, sep: char)
    requires sep !in head
    ensures Split(head + [sep] + tail, sep) == [head] + Split(tail, sep)
  {
    if head == [] {
      assert ([sep] + tail)[1..] == tail;
    } else {
      assert (head + [sep] + tail)[1..] == head[1..] + [sep] + tail;
      SplitPrefix(head[1..], tail, sep);
      assert [head[0]] + head[1..] == head;
    }
  }

  /** `s.startswith(prefix)`. */
  predicate StartsWith(s: string, prefix: string) {
    |prefix| <= |s| && s[..|prefix|] == prefix
  }

  /** `s.replace(" ", "")`: every space removed, every other character kept
      in order. */
  function RemoveSpaces(s: string): (r: string)
    ensures ' ' !in r
    ensures |r| <= |s|
  {
    if s == [] then []
    else if s[0] == ' ' then RemoveSpaces(s[1..])
    else [s[0]] + RemoveSpaces(s[1..])
  }

  /** Removing spaces works piece by piece. */
  lemma {:induction false} RemoveSpacesAppend(a: string, b: string)
    ensures RemoveSpaces(a + b) == RemoveSpaces(a) + RemoveSpaces(b)
  {
    if a == [] {
      assert a + b == b;
    } else {
      assert (a + b)[1..] == a[1..] + b;
      assert (a + b)[0] == a[0];
      RemoveSpacesAppend(a[1..], b);
      if a[0] == ' ' {
        assert RemoveSpaces(a + b) == RemoveSpaces(a[1..] + b);
      } else {
        assert RemoveSpaces(a + b) == [a[0]] + RemoveSpaces(a[1..] + b);
        assert [a[0]] + RemoveSpaces(a[1..]) + RemoveSpaces(b) == [a[0]] + (RemoveSpaces(a[1..]) + RemoveSpaces(b));
      }
    }
  }

  /** A text without spaces is left as it is. */
  lemma {:induction false} RemoveSpacesNoSpace(s: string)
    requires ' ' !in s
    ensures RemoveSpaces(s) == s
  {
    if s != [] {
      RemoveSpacesNoSpace(s[1..]);
      assert [s[0]] + s[1..] == s;
    }
  }

  /** `sub in s`: some window of `s` equals `sub`. */
  predicate Contains(s: string, sub: string)
  {
    StartsWith(s, sub) || (|s| > |sub| && Contains(s[1..], sub))
  }

  /** `sub` occurs in `s` at offset `i`. */
  predicate OccursAt(s: string, sub: string, i: int) {
    0 <= i <= |s| - |sub| && s[i..i + |sub|] == sub
  }

  /** `Contains` holds exactly when `sub` occurs at some offset of `s`. */
  lemma {:induction false} ContainsAt(s: string, sub: string)
    ensures Contains(s, sub) <==> exists i :: OccursAt(s, sub, i)
  {
    if StartsWith(s, sub) {
      assert OccursAt(s, sub, 0);
    } else if |s| > |sub| {
      ContainsAt(s[1..], sub);
      if Contains(s[1..], sub) {
        var i :| OccursAt(s[1..], sub, i);
        assert s[1..][i..i + |sub|] == s[i + 1..i + 1 + |sub|];
        assert OccursAt(s, sub, i + 1);
      }
      if i :| OccursAt(s, sub, i) {
        assert i != 0;
        assert s[1..][i - 1..i - 1 + |sub|] == s[i..i + |sub|];
        assert OccursAt(s[1..], sub, i - 1);
      }
    } else {
      forall i ensures !OccursAt(s, sub, i) {
        if 0 <= i <= |s| - |sub| {
          assert i == 0 && s[i..i + |sub|] == s[..|sub|];
        }
      }
    }
  }

  lemma {:induction false} ContainsFits(s: string, sub: string)
    requires Contains(s, sub)
    ensures |sub| <= |s|
  {
    if !StartsWith(s, sub) {
      ContainsFits(s[1..], sub);
    }
  }

  /** A separator-free text occurs in `a + [sep] + b` only inside `a` or
      inside `b`: it cannot straddle the separator. */
  lemma {:induction false} ContainsAcrossSeparator(a: string, b: string, sep: char, sub: string)
    requires sep !in sub && sub != []
    ensures Contains(a + [sep] + b, sub) <==> Contains(a, sub) || Contains(b, sub)
  {
    var s := a + [sep] + b;
    if a == [] {
      assert |sub| <= |s| ==> s[..|sub|][0] == sep;
      assert !StartsWith(s, sub);
      assert s[1..] == b;
      assert !Contains(a, sub);
      if Contains(b, sub) { ContainsFits(b, sub); }
    } else {
      assert |a| < |sub| <= |s| ==> s[..|sub|][|a|] == sep;
      assert |sub| <= |a| ==> s[..|sub|] == a[..|sub|];
      assert StartsWith(s, sub) <==> StartsWith(a, sub);
      assert s[1..] == a[1..] + [sep] + b;
      ContainsAcrossSeparator(a[1..], b, sep, sub);
      if Contains(a[1..], sub) { ContainsFits(a[1..], sub); }
      if Contains(b, sub) { ContainsFits(b, sub); }
    }
  }
}
