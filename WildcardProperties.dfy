/** The wildcard's substring tests (zstd_asgi/headers.py:99-106) read
    element by element; which bans a header states they honour, which they
    invent and which they miss; and why the order of a header's elements
    never changes the answer. */
module WildcardProperties {
  import opened Wrappers
  import opened PyStr
  import opened Headers
  import opened HeaderProperties

  /** Some element of `parts`, once its spaces are removed, contains `sub`. */
  predicate ElementContains(parts: seq<string>, sub: string) {
    exists i :: 0 <= i < |parts| && Contains(RemoveSpaces(parts[i]), sub)
  }

  /** Text made of decimal digits only. */
  predicate Digits(d: string) {
    forall j :: 0 <= j < |d| ==> '0' <= d[j] <= '9'
  }

  // ---------------------------------------------------------------------
  // The substring tests, element by element

  /** Removing spaces works on each side of a separator that is not a
      space. */
  lemma RemoveSpacesAround(a: string, b: string, sep: char)
    requires sep != ' '
    ensures RemoveSpaces(a + [sep] + b) == RemoveSpaces(a) + [sep] + RemoveSpaces(b)
  {
    RemoveSpacesAppend(a + [sep], b);
    RemoveSpacesAppend(a, [sep]);
    assert [sep][1..] == [];
  }

  /** Spaces removed, the comma-joined pieces contain a comma-free text
      exactly when one of the pieces does. */
  lemma {:induction false} JoinedContains(parts: seq<string>, sub: string)
    requires |parts| >= 1 && ',' !in sub && sub != []
    ensures Contains(RemoveSpaces(Join(parts, ',')), sub) <==> ElementContains(parts, sub)
  {
    if |parts| == 1 {
      if Contains(RemoveSpaces(parts[0]), sub) {
        assert 0 < |parts|;
      }
    } else {
      var rest := parts[1..];
      JoinedContains(rest, sub);
      RemoveSpacesAround(parts[0], Join(rest, ','), ',');
      ContainsAcrossSeparator(RemoveSpaces(parts[0]), RemoveSpaces(Join(rest, ',')), ',', sub);
      if ElementContains(rest, sub) {
        var i :| 0 <= i < |rest| && Contains(RemoveSpaces(rest[i]), sub);
        assert parts[i + 1] == rest[i];
      }
      if ElementContains(parts, sub) {
        var i :| 0 <= i < |parts| && Contains(RemoveSpaces(parts[i]), sub);
        if i > 0 {
          assert rest[i - 1] == parts[i];
        }
      }
    }
  }

  /** The wildcard's answer depends only on which elements, spaces removed,
      contain `zstd;q=0` and `gzip;q=0`: a text can never be found across
      the comma between two elements. */
  lemma WildcardByElements(acceptEncoding: string, gzipFallback: bool)
    ensures var parts := Split(acceptEncoding, ',');
      WildcardChoice(acceptEncoding, gzipFallback) ==
        if !ElementContains(parts, "zstd;q=0") then Zstd
        else if gzipFallback && !ElementContains(parts, "gzip;q=0") then Gzip
        else Identity
  {
    SplitPieces(acceptEncoding, ',');
    JoinedContains(Split(acceptEncoding, ','), "zstd;q=0");
    JoinedContains(Split(acceptEncoding, ','), "gzip;q=0");
  }

  /** A text contains itself. */
  lemma ContainsSelf(s: string)
    ensures Contains(s, s)
  {
    ContainsAt(s, s);
    assert OccursAt(s, s, 0);
  }

  /** The ban the wildcard honours: an element that reads `zstd;q=0` once
      its spaces are removed keeps the wildcard from answering zstd. */
  lemma ZstdBanHonoured(acceptEncoding: string, gzipFallback: bool, i: nat)
    requires i < |Split(acceptEncoding, ',')|
    requires RemoveSpaces(Split(acceptEncoding, ',')[i]) == "zstd;q=0"
    ensures WildcardChoice(acceptEncoding, gzipFallback) != Zstd
  {
    ContainsSelf("zstd;q=0");
    WildcardByElements(acceptEncoding, gzipFallback);
  }

  /** Likewise an element that reads `gzip;q=0` keeps the wildcard from
      answering gzip. */
  lemma GzipBanHonoured(acceptEncoding: string, gzipFallback: bool, i: nat)
    requires i < |Split(acceptEncoding, ',')|
    requires RemoveSpaces(Split(acceptEncoding, ',')[i]) == "gzip;q=0"
    ensures WildcardChoice(acceptEncoding, gzipFallback) != Gzip
  {
    ContainsSelf("gzip;q=0");
    WildcardByElements(acceptEncoding, gzipFallback);
  }

  // ---------------------------------------------------------------------
  // Where the substring test and the parsed weights disagree

  /** The ban the wildcard invents, in any header: an element that strips
      to `zstd;q=0.<digits>`, whose weight reads as positive, yields a kept
      zstd token, yet the wildcard treats zstd as forbidden. */
  lemma InventedZstdBan(acceptEncoding: string, gzipFallback: bool, parseQ: FloatParser, i: nat, d: string)
    requires i < |Split(acceptEncoding, ',')| && Strip(Split(acceptEncoding, ',')[i]) == "zstd;q=0." + d
    requires Digits(d)
    requires parseQ("0." + d).Some? && 0.0 < parseQ("0." + d).value <= 1.0
    ensures PartOptions(Split(acceptEncoding, ',')[i], parseQ) == [Token(parseQ("0." + d).value, 0, "zstd")]
    ensures WildcardChoice(acceptEncoding, gzipFallback) != Zstd
  {
    var x := Split(acceptEncoding, ',')[i];
    InventedElement(d, parseQ);
    StripIdempotent(x);
    SameStrippedSameToken(x, "zstd;q=0." + d, parseQ);
    BanTextsVisible();
    ElementStripped(x, "zstd;q=0");
    WildcardByElements(acceptEncoding, gzipFallback);
  }

  /** `zstd;q=0.<digits>` is kept with its weight, and its text contains
      `zstd;q=0`. */
  lemma InventedElement(d: string, parseQ: FloatParser)
    requires Digits(d)
    requires parseQ("0." + d).Some? && 0.0 < parseQ("0." + d).value <= 1.0
    ensures PartOptions("zstd;q=0." + d, parseQ) == [Token(parseQ("0." + d).value, 0, "zstd")]
    ensures Contains(RemoveSpaces("zstd;q=0." + d), "zstd;q=0")
  {
    var text := "0." + d;
    var e := "zstd;q=0." + d;
    assert e == "zstd" + ";q=" + text;
    assert ';' !in text by {
      assert forall j :: 2 <= j < |text| ==> text[j] == d[j - 2];
    }
    WeightedPart("zstd", text, parseQ);
    InventedText(d);
  }

  lemma InventedText(d: string)
    requires Digits(d)
    ensures Contains(RemoveSpaces("zstd;q=0." + d), "zstd;q=0")
  {
    var e := "zstd;q=0." + d;
    assert ' ' !in e by {
      assert forall j :: 9 <= j < |e| ==> e[j] == d[j - 9];
    }
    RemoveSpacesNoSpace(e);
    ContainsAt(e, "zstd;q=0");
    assert OccursAt(e, "zstd;q=0", 0);
  }

  /** `zstd;q=` followed by a text that does not start with `0` and holds
      no `;` does not contain `zstd;q=0`. */
  lemma BanTextAbsent(t: string)
    requires t != [] && t[0] != '0' && ';' !in t
    ensures !Contains("zstd;q=" + t, "zstd;q=0")
  {
    var s := "zstd;q=" + t;
    var sub := "zstd;q=0";
    forall i | 0 <= i <= |s| - |sub| ensures !OccursAt(s, sub, i) {
      if i == 0 {
        assert s[i..i + |sub|][7] != sub[7];
      } else if i < 3 {
        assert s[i..i + |sub|][4] != sub[4];
      } else {
        assert s[i + 4] == t[i - 3] && t[i - 3] in t;
        assert s[i..i + |sub|][4] != sub[4];
      }
    }
    ContainsAt(s, sub);
  }

  /** A weight text that the wildcard's test cannot see as a ban: not
      starting with `0`, and free of `;`, `,` and whitespace. */
  predicate HiddenBanText(t: string) {
    && t != [] && t[0] != '0'
    && forall j :: 0 <= j < |t| ==> t[j] != ';' && t[j] != ',' && !IsSpace(t[j])
  }

  /** The ban the wildcard misses: `zstd;q=<t>, *`, where `t` is malformed
      or reads as a weight of at most 0, forbids zstd, and its zstd element
      yields no token; yet the wildcard answers zstd, as long as `t` is
      non-empty, does not start with `0`, and holds no whitespace, `;` or
      `,` (`zstd;q=x, *`, `zstd;q=-1, *`). */
  lemma MissedZstdBan(t: string, gzipFallback: bool, parseQ: FloatParser)
    requires HiddenBanText(t)
    requires parseQ(t).None? || parseQ(t).value <= 0.0
    ensures PartOptions("zstd;q=" + t, parseQ) == []
    ensures Preferred("zstd;q=" + t + ", *", gzipFallback, parseQ) == Zstd
  {
    MissedElement(t, parseQ);
    MissedSplit(t);
    WildcardOptions("zstd;q=" + t, parseQ);
    MissedWildcard(t, gzipFallback);
    OnlyWildcard("zstd;q=" + t + ", *", gzipFallback, parseQ, Token(1.0, 999, "*"));
  }

  /** A header whose only option is the wildcard, at any weight, gets the
      wildcard's answer. */
  lemma OnlyWildcard(acceptEncoding: string, gzipFallback: bool, parseQ: FloatParser, t: Token)
    requires HeaderOptions(Split(acceptEncoding, ','), parseQ) == [t] && t.name == "*"
    ensures Preferred(acceptEncoding, gzipFallback, parseQ) == WildcardChoice(acceptEncoding, gzipFallback)
  {
    assert SortByKey([t]) == [t];
  }

  lemma MissedElement(t: string, parseQ: FloatParser)
    requires HiddenBanText(t)
    requires parseQ(t).None? || parseQ(t).value <= 0.0
    ensures PartOptions("zstd;q=" + t, parseQ) == []
  {
    assert "zstd;q=" + t == "zstd" + ";q=" + t;
    assert ';' !in t by {
      assert forall j :: 0 <= j < |t| ==> t[j] != ';';
    }
    WeightedPart("zstd", t, parseQ);
  }

  lemma MissedSplit(t: string)
    requires HiddenBanText(t)
    ensures Split("zstd;q=" + t + ", *", ',') == ["zstd;q=" + t, " *"]
  {
    var e := "zstd;q=" + t;
    assert ',' !in e by {
      assert forall j :: 7 <= j < |e| ==> e[j] == t[j - 7];
    }
    assert e + ", *" == e + [','] + " *";
    SplitPrefix(e, " *", ',');
    SplitNoSep(" *", ',');
  }

  lemma MissedWildcard(t: string, gzipFallback: bool)
    requires HiddenBanText(t)
    ensures WildcardChoice("zstd;q=" + t + ", *", gzipFallback) == Zstd
  {
    var e := "zstd;q=" + t;
    MissedSplit(t);
    assert ' ' !in e && ';' !in t by {
      assert forall j :: 7 <= j < |e| ==> e[j] == t[j - 7];
    }
    RemoveSpacesNoSpace(e);
    BanTextAbsent(t);
    assert !Contains(RemoveSpaces(" *"), "zstd;q=0") by {
      if Contains(RemoveSpaces(" *"), "zstd;q=0") {
        ContainsFits(RemoveSpaces(" *"), "zstd;q=0");
      }
    }
    WildcardByElements(e + ", *", gzipFallback);
  }

  /** A dropped element followed by ` *` leaves the wildcard token alone. */
  lemma WildcardOptions(e: string, parseQ: FloatParser)
    requires PartOptions(e, parseQ) == []
    ensures HeaderOptions([e, " *"], parseQ) == [Token(1.0, 999, "*")]
  {
    PaddedPart(" ", "*", "", parseQ);
    assert " " + "*" + "" == " *";
    BarePart("*", parseQ);
    HeaderOptionsAppend([e], [" *"], parseQ);
    HeaderOptionsLast([e], parseQ);
    HeaderOptionsLast([" *"], parseQ);
    assert [e][..0] == [] && [" *"][..0] == [];
    assert [e] + [" *"] == [e, " *"];
  }

  /** The forbidden identity that is still answered: `identity;q=0`
      forbids identity and yields no token, yet the answer is identity. */
  lemma IdentityBanAnswered(gzipFallback: bool, parseQ: FloatParser)
    requires parseQ("0") == Some(0.0)
    ensures PartOptions("identity;q=0", parseQ) == []
    ensures Preferred("identity;q=0", gzipFallback, parseQ) == Identity
  {
    IdentityBanDropped(parseQ);
    assert ',' !in "identity;q=0";
    OnlyDropped("identity;q=0", gzipFallback, parseQ);
  }

  /** A header of one element that yields no token negotiates identity. */
  lemma OnlyDropped(acceptEncoding: string, gzipFallback: bool, parseQ: FloatParser)
    requires ',' !in acceptEncoding && PartOptions(acceptEncoding, parseQ) == []
    ensures Preferred(acceptEncoding, gzipFallback, parseQ) == Identity
  {
    SplitNoSep(acceptEncoding, ',');
    HeaderOptionsLast([acceptEncoding], parseQ);
    assert [acceptEncoding][..0] == [];
    NoOptionsIdentity(acceptEncoding, gzipFallback, parseQ);
  }

  lemma IdentityBanDropped(parseQ: FloatParser)
    requires parseQ("0") == Some(0.0)
    ensures PartOptions("identity;q=0", parseQ) == []
  {
    assert "identity;q=0" == "identity" + ";q=" + "0";
    WeightedPart("identity", "0", parseQ);
  }

  /** Whitespace that `replace(" ", "")` keeps: a tab, a newline, and the
      like. */
  predicate HiddenPadding(pad: string) {
    pad != [] && forall j :: 0 <= j < |pad| ==> IsSpace(pad[j]) && pad[j] != ' '
  }

  /** The ban the wildcard misses when the parameter is padded with other
      whitespace than spaces: `zstd;\tq=0, *` forbids zstd, since
      `parse_part` strips the parameter to `q=0`; but removing spaces keeps
      the tab, so the wildcard answers zstd. */
  lemma PaddedBanMissed(pad: string, gzipFallback: bool, parseQ: FloatParser)
    requires HiddenPadding(pad)
    requires parseQ("0") == Some(0.0)
    ensures PartOptions("zstd;" + pad + "q=0", parseQ) == []
    ensures Preferred("zstd;" + pad + "q=0" + ", *", gzipFallback, parseQ) == Zstd
  {
    var e := "zstd;" + pad + "q=0";
    PaddedElementDropped(pad, parseQ);
    PaddedSplit(pad);
    WildcardOptions(e, parseQ);
    PaddedWildcard(pad, gzipFallback);
    OnlyWildcard(e + ", *", gzipFallback, parseQ, Token(1.0, 999, "*"));
  }

  /** `zstd;\tq=0, *` negotiates zstd. */
  lemma TabBanMissed(gzipFallback: bool, parseQ: FloatParser)
    requires parseQ("0") == Some(0.0)
    ensures PartOptions("zstd;\tq=0", parseQ) == []
    ensures Preferred("zstd;\tq=0, *", gzipFallback, parseQ) == Zstd
  {
    assert "zstd;" + "\t" + "q=0" == "zstd;\tq=0";
    assert "zstd;" + "\t" + "q=0" + ", *" == "zstd;\tq=0, *";
    PaddedBanMissed("\t", gzipFallback, parseQ);
  }

  lemma PaddedElementDropped(pad: string, parseQ: FloatParser)
    requires HiddenPadding(pad)
    requires parseQ("0") == Some(0.0)
    ensures PartOptions("zstd;" + pad + "q=0", parseQ) == []
  {
    assert "zstd;" + pad + "q=0" == "zstd" + ";" + pad + "q=0";
    PaddedParam("zstd", pad, "q=0", parseQ);
    assert "zstd" + ";" + "q=0" == "zstd" + ";q=" + "0";
    WeightedPart("zstd", "0", parseQ);
  }

  lemma PaddedSplit(pad: string)
    requires HiddenPadding(pad)
    ensures Split("zstd;" + pad + "q=0" + ", *", ',') == ["zstd;" + pad + "q=0", " *"]
  {
    var e := "zstd;" + pad + "q=0";
    assert ',' !in e by {
      assert forall j :: 5 <= j < 5 + |pad| ==> e[j] == pad[j - 5];
    }
    assert e + ", *" == e + [','] + " *";
    SplitPrefix(e, " *", ',');
    SplitNoSep(" *", ',');
  }

  lemma PaddedWildcard(pad: string, gzipFallback: bool)
    requires HiddenPadding(pad)
    ensures WildcardChoice("zstd;" + pad + "q=0" + ", *", gzipFallback) == Zstd
  {
    var e := "zstd;" + pad + "q=0";
    var sub := "zstd;q=0";
    PaddedSplit(pad);
    assert forall j :: 5 <= j < 5 + |pad| ==> e[j] == pad[j - 5];
    assert ' ' !in e;
    RemoveSpacesNoSpace(e);
    forall i | 0 <= i <= |e| - |sub| ensures !OccursAt(e, sub, i) {
      if i == 0 {
        assert e[i..i + |sub|][5] != sub[5];
      } else {
        assert e[i..i + |sub|][4] != sub[4];
      }
    }
    ContainsAt(e, sub);
    assert !Contains(RemoveSpaces(" *"), sub) by {
      if Contains(RemoveSpaces(" *"), sub) {
        ContainsFits(RemoveSpaces(" *"), sub);
      }
    }
    WildcardByElements(e + ", *", gzipFallback);
  }

  // ---------------------------------------------------------------------
  // The order of the elements

  /** The options of a reordering of the elements are a reordering of the
      options. */
  lemma {:induction false} OptionsPermutation(p: seq<string>, q: seq<string>, parseQ: FloatParser)
    requires multiset(p) == multiset(q)
    ensures multiset(HeaderOptions(p, parseQ)) == multiset(HeaderOptions(q, parseQ))
    decreases |p|
  {
    if p == [] {
      assert |q| == |multiset(q)| == 0;
    } else {
      var x := p[0];
      assert x in multiset(q);
      var i :| 0 <= i < |q| && q[i] == x;
      Around(p, 0);
      Around(q, i);
      var pa, pb, qa, qb := p[..0], p[1..], q[..i], q[i + 1..];
      MultisetWithout(p, pa, x, pb);
      MultisetWithout(q, qa, x, qb);
      OptionsPermutation(pa + pb, qa + qb, parseQ);
      OptionsWithout(p, pa, x, pb, parseQ);
      OptionsWithout(q, qa, x, qb, parseQ);
    }
  }

  lemma Around<T>(s: seq<T>, i: nat)
    requires i < |s|
    ensures s == s[..i] + [s[i]] + s[i + 1..]
  {
  }

  /** Taking `x` out of `a + [x] + b` takes it out of the multiset. */
  lemma MultisetWithout<T>(s: seq<T>, a: seq<T>, x: T, b: seq<T>)
    requires s == a + [x] + b
    ensures multiset(a + b) == multiset(s) - multiset{x}
  {
  }

  /** Taking `x` out of `a + [x] + b` takes its option out of the options. */
  lemma OptionsWithout(s: seq<string>, a: seq<string>, x: string, b: seq<string>, parseQ: FloatParser)
    requires s == a + [x] + b
    ensures multiset(HeaderOptions(s, parseQ))
         == multiset(HeaderOptions(a + b, parseQ)) + multiset(PartOptions(x, parseQ))
  {
    OptionsAround(a, x, b, parseQ);
    HeaderOptionsAppend(a, b, parseQ);
    MultisetMiddle(HeaderOptions(a, parseQ), PartOptions(x, parseQ), HeaderOptions(b, parseQ),
                   HeaderOptions(s, parseQ), HeaderOptions(a + b, parseQ));
  }

  /** The options of `a + [x] + b` are those of `a`, of `x` and of `b`. */
  lemma OptionsAround(a: seq<string>, x: string, b: seq<string>, parseQ: FloatParser)
    ensures HeaderOptions(a + [x] + b, parseQ)
         == HeaderOptions(a, parseQ) + PartOptions(x, parseQ) + HeaderOptions(b, parseQ)
  {
    HeaderOptionsAppend(a + [x], b, parseQ);
    HeaderOptionsLast(a + [x], parseQ);
    assert (a + [x])[..|a|] == a;
  }

  lemma MultisetMiddle(a: seq<Token>, x: seq<Token>, b: seq<Token>, whole: seq<Token>, rest: seq<Token>)
    requires whole == a + x + b && rest == a + b
    ensures multiset(whole) == multiset(rest) + multiset(x)
  {
  }

  /** Whether some element contains a text does not depend on their
      order. */
  lemma ElementContainsPermutation(p: seq<string>, q: seq<string>, sub: string)
    requires multiset(p) == multiset(q)
    ensures ElementContains(p, sub) == ElementContains(q, sub)
  {
    if ElementContains(p, sub) {
      var i :| 0 <= i < |p| && Contains(RemoveSpaces(p[i]), sub);
      assert p[i] in multiset(q);
      var j :| 0 <= j < |q| && q[j] == p[i];
    }
    if ElementContains(q, sub) {
      var j :| 0 <= j < |q| && Contains(RemoveSpaces(q[j]), sub);
      assert q[j] in multiset(p);
      var i :| 0 <= i < |p| && p[i] == q[j];
    }
  }

  // ---------------------------------------------------------------------
  // Whitespace around the elements

  /** Every piece of `parts`, stripped as `parse_part` strips it. */
  function StripAll(parts: seq<string>): seq<string> {
    seq(|parts|, i requires 0 <= i < |parts| => Strip(parts[i]))
  }

  /** Text none of whose characters is whitespace. */
  predicate Visible(sub: string) {
    forall j :: 0 <= j < |sub| ==> !IsSpace(sub[j])
  }

  /** Neither text the wildcard looks for holds whitespace. */
  lemma BanTextsVisible()
    ensures Visible("zstd;q=0") && Visible("gzip;q=0")
  {
    assert forall j :: 0 <= j < 8 ==> "zstd;q=0"[j] in {'z', 's', 't', 'd', ';', 'q', '=', '0'};
    assert forall j :: 0 <= j < 8 ==> "gzip;q=0"[j] in {'g', 'z', 'i', 'p', ';', 'q', '=', '0'};
  }

  /** Every text is its stripped text between two runs of whitespace. */
  lemma StripAround(s: string) returns (pre: string, post: string)
    ensures s == pre + Strip(s) + post
    ensures AllSpace(pre) && AllSpace(post)
  {
    var l := StripLeft(s);
    var r := StripRight(l);
    StripLeftSpec(s);
    StripRightSpec(l);
    pre, post := s[..|s| - |l|], l[|r|..];
    assert s == pre + l;
    assert l == r + post;
  }

  /** Stripping twice is stripping once. */
  lemma StripIdempotent(s: string)
    ensures Strip(Strip(s)) == Strip(s)
  {
    StripSpec(s);
    if Strip(s) != [] {
      StripTrimmed(Strip(s));
    }
  }

  /** Removing spaces from whitespace leaves whitespace. */
  lemma {:induction false} RemoveSpacesAllSpace(s: string)
    requires AllSpace(s)
    ensures AllSpace(RemoveSpaces(s))
  {
    if s != [] {
      RemoveSpacesAllSpace(s[1..]);
    }
  }

  /** A text without whitespace occurs in `m` padded with whitespace
      exactly when it occurs in `m`. */
  lemma ContainsPadded(a: string, m: string, b: string, sub: string)
    requires AllSpace(a) && AllSpace(b) && Visible(sub) && sub != []
    ensures Contains(a + m + b, sub) <==> Contains(m, sub)
  {
    var s := a + m + b;
    ContainsAt(s, sub);
    ContainsAt(m, sub);
    if Contains(m, sub) {
      var i :| OccursAt(m, sub, i);
      assert forall k :: |a| + i <= k < |a| + i + |sub| ==> s[k] == m[k - |a|];
      assert s[|a| + i..|a| + i + |sub|] == m[i..i + |sub|];
      assert OccursAt(s, sub, |a| + i);
    }
    if Contains(s, sub) {
      var i :| OccursAt(s, sub, i);
      var n := |sub|;
      assert forall k :: 0 <= k < |a| ==> s[k] == a[k];
      assert forall k :: |a| + |m| <= k < |s| ==> s[k] == b[k - |a| - |m|];
      assert s[i] == sub[0] && s[i + n - 1] == sub[n - 1];
      assert |a| <= i && i + n <= |a| + |m|;
      assert forall k :: i - |a| <= k < i - |a| + n ==> m[k] == s[k + |a|];
      assert m[i - |a|..i - |a| + n] == s[i..i + n];
      assert OccursAt(m, sub, i - |a|);
    }
  }

  /** Spaces removed, an element contains a text without whitespace exactly
      when its stripped text does. */
  lemma ElementStripped(x: string, sub: string)
    requires Visible(sub) && sub != []
    ensures Contains(RemoveSpaces(x), sub) <==> Contains(RemoveSpaces(Strip(x)), sub)
  {
    var pre, post := StripAround(x);
    RemoveSpacesAppend(pre + Strip(x), post);
    RemoveSpacesAppend(pre, Strip(x));
    RemoveSpacesAllSpace(pre);
    RemoveSpacesAllSpace(post);
    ContainsPadded(RemoveSpaces(pre), RemoveSpaces(Strip(x)), RemoveSpaces(post), sub);
  }

  /** Whether some element contains a text without whitespace does not
      change when every element is stripped. */
  lemma ElementContainsStripped(p: seq<string>, sub: string)
    requires Visible(sub) && sub != []
    ensures ElementContains(p, sub) == ElementContains(StripAll(p), sub)
  {
    var q := StripAll(p);
    if ElementContains(p, sub) {
      var i :| 0 <= i < |p| && Contains(RemoveSpaces(p[i]), sub);
      ElementStripped(p[i], sub);
      assert Contains(RemoveSpaces(q[i]), sub);
    }
    if ElementContains(q, sub) {
      var i :| 0 <= i < |q| && Contains(RemoveSpaces(q[i]), sub);
      ElementStripped(p[i], sub);
      assert Contains(RemoveSpaces(p[i]), sub);
    }
  }

  /** Stripping every element first collects the same options. */
  lemma {:induction false} OptionsStripped(p: seq<string>, parseQ: FloatParser)
    ensures HeaderOptions(StripAll(p), parseQ) == HeaderOptions(p, parseQ)
  {
    if p != [] {
      var n := |p| - 1;
      OptionsStripped(p[..n], parseQ);
      assert StripAll(p)[..n] == StripAll(p[..n]);
      StripIdempotent(p[n]);
      SameStrippedSameToken(StripAll(p)[n], p[n], parseQ);
    }
  }

  /** Two headers whose elements, once stripped, are the same up to order
      negotiate the same encoding: a swap anywhere in
      `br, zstd;q=0.8, gzip;q=0.8`, or any other reordering, never changes
      the answer, whatever whitespace surrounds the elements. */
  lemma PermutedElements(h1: string, h2: string, gzipFallback: bool, parseQ: FloatParser)
    requires multiset(StripAll(Split(h1, ','))) == multiset(StripAll(Split(h2, ',')))
    ensures Preferred(h1, gzipFallback, parseQ) == Preferred(h2, gzipFallback, parseQ)
  {
    var p1, p2 := Split(h1, ','), Split(h2, ',');
    var s1, s2 := StripAll(p1), StripAll(p2);
    OptionsPermutation(s1, s2, parseQ);
    OptionsStripped(p1, parseQ);
    OptionsStripped(p2, parseQ);
    BanTextsVisible();
    WildcardByElements(h1, gzipFallback);
    WildcardByElements(h2, gzipFallback);
    ElementContainsStripped(p1, "zstd;q=0");
    ElementContainsStripped(p2, "zstd;q=0");
    ElementContainsStripped(p1, "gzip;q=0");
    ElementContainsStripped(p2, "gzip;q=0");
    ElementContainsPermutation(s1, s2, "zstd;q=0");
    ElementContainsPermutation(s1, s2, "gzip;q=0");
    OrderIrrelevant(h1, h2, gzipFallback, parseQ);
  }
}
