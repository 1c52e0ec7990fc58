/** The negotiation table of the project's tests, each row proved for every
    float reader that reads the table's decimal literals as Python's `float`
    does. Every literal is taken apart in small steps: an element's
    components, its stripping and splitting, then the header's split, its
    tokens, their order and, where a wildcard occurs, the substring tests. */
module Examples {
  import opened Wrappers
  import opened PyStr
  import opened Headers
  import opened HeaderProperties
  import opened WildcardProperties

  /** `parseQ` reads the decimal literals of the table as `float` does. */
  predicate ReadsDecimals(parseQ: FloatParser) {
    && parseQ("1.0") == Some(1.0)
    && parseQ("0.9") == Some(0.9)
    && parseQ("0.8") == Some(0.8)
    && parseQ("0.6") == Some(0.6)
    && parseQ("0.5") == Some(0.5)
    && parseQ("0.1") == Some(0.1)
    && parseQ("0") == Some(0.0)
  }

  // ---------------------------------------------------------------------
  // Building blocks

  /** An element that strips to `name;param` has the components `name`
      and `param`. */
  lemma ElementComponents(part: string, name: string, param: string, parseQ: FloatParser)
    requires ';' !in name && ';' !in param && Strip(part) == Join([name, param], ';')
    ensures PartToken(part, parseQ) == ComponentsToken([name, param], parseQ)
  {
    SplitJoin([name, param], ';');
    assert Strip(part)[|name|] == ';';
  }

  /** A recognised name with a `q=` parameter whose text reads as a
      weight in (0, 1] yields a token with that weight. */
  lemma KeptComponents(name: string, param: string, text: string, v: real, parseQ: FloatParser)
    requires Trimmed(name) && Trimmed(param) && StartsWith(param, "q=") && param[2..] == text
    requires name in CodingPriorities && parseQ(text) == Some(v) && 0.0 < v <= 1.0
    ensures ComponentsToken([name, param], parseQ) == Some(Token(v, CodingPriorities[name], name))
  {
    StripTrimmed(name);
    StripTrimmed(param);
    assert [name, param][1..] == [param];
    assert QText([param]) == Some(text);
  }

  /** An unrecognised name, or a `q=` parameter whose text reads as a
      weight of at most 0, yields no token. */
  lemma DroppedComponents(name: string, param: string, text: string, parseQ: FloatParser)
    requires Trimmed(name) && Trimmed(param) && StartsWith(param, "q=") && param[2..] == text
    requires name !in CodingPriorities || (parseQ(text).Some? && parseQ(text).value <= 0.0)
    ensures ComponentsToken([name, param], parseQ) == None
  {
    StripTrimmed(name);
    StripTrimmed(param);
    assert [name, param][1..] == [param];
    assert QText([param]) == Some(text);
  }

  lemma Single(a: string, parseQ: FloatParser)
    ensures HeaderOptions([a], parseQ) == PartOptions(a, parseQ)
  {
    HeaderOptionsLast([a], parseQ);
    assert [a][..0] == [];
  }

  lemma Pair(a: string, b: string, parseQ: FloatParser)
    ensures HeaderOptions([a, b], parseQ) == PartOptions(a, parseQ) + PartOptions(b, parseQ)
  {
    HeaderOptionsAppend([a], [b], parseQ);
    Single(a, parseQ);
    Single(b, parseQ);
  }

  lemma Triple(a: string, b: string, c: string, parseQ: FloatParser)
    ensures HeaderOptions([a, b, c], parseQ) == PartOptions(a, parseQ) + PartOptions(b, parseQ) + PartOptions(c, parseQ)
  {
    HeaderOptionsAppend([a, b], [c], parseQ);
    assert [a, b] + [c] == [a, b, c];
    Pair(a, b, parseQ);
    Single(c, parseQ);
  }

  /** Removing the spaces of `a, b` leaves `a,b` when the elements hold
      none. */
  lemma CompactElements(h: string, a: string, b: string)
    requires h == a + ", " + b && ' ' !in a && ' ' !in b
    ensures RemoveSpaces(h) == a + [','] + b
  {
    assert h == (a + ",") + (" " + b);
    RemoveSpacesAppend(a + ",", " " + b);
    CompactHead(a);
    CompactTail(b);
  }

  lemma CompactHead(a: string)
    requires ' ' !in a
    ensures RemoveSpaces(a + ",") == a + ","
  {
    RemoveSpacesNoSpace(a + ",");
  }

  lemma CompactTail(b: string)
    requires ' ' !in b
    ensures RemoveSpaces(" " + b) == b
  {
    assert (" " + b)[1..] == b;
    RemoveSpacesNoSpace(b);
  }

  /** A text shorter than `sub` does not contain it. */
  lemma ShorterAbsent(s: string, sub: string)
    requires |s| < |sub|
    ensures !Contains(s, sub)
  {
    if Contains(s, sub) {
      ContainsFits(s, sub);
    }
  }

  /** A text without the first character of `sub` does not contain it. */
  lemma FirstCharAbsent(s: string, sub: string)
    requires sub != [] && sub[0] !in s
    ensures !Contains(s, sub)
  {
    ContainsAt(s, sub);
  }

  /** The wildcard's answer is read off the header with its spaces
      removed. */
  lemma WildcardOfCompact(h: string, compact: string, gzipFallback: bool)
    requires RemoveSpaces(h) == compact
    ensures WildcardChoice(h, gzipFallback) ==
      if !Contains(compact, "zstd;q=0") then Zstd
      else if gzipFallback && !Contains(compact, "gzip;q=0") then Gzip
      else Identity
  {
  }

  /** The answer is the scan over the sorted tokens. */
  lemma ScanSorted(h: string, gzipFallback: bool, parseQ: FloatParser, sorted: seq<Token>)
    requires SortByKey(HeaderOptions(Split(h, ','), parseQ)) == sorted
    ensures Preferred(h, gzipFallback, parseQ) == Select(sorted, h, gzipFallback)
  {
  }

  // ---------------------------------------------------------------------
  // The elements of the table, one at a time

  lemma ZstdAt10Components(parseQ: FloatParser)
    requires parseQ("1.0") == Some(1.0)
    ensures ComponentsToken(["zstd", "q=1.0"], parseQ) == Some(Token(1.0, 0, "zstd"))
  {
    KeptComponents("zstd", "q=1.0", "1.0", 1.0, parseQ);
  }

  lemma ZstdAt10Split(parseQ: FloatParser)
    ensures PartToken("zstd;q=1.0", parseQ) == ComponentsToken(["zstd", "q=1.0"], parseQ)
  {
    StripTrimmed("zstd;q=1.0");
    ElementComponents("zstd;q=1.0", "zstd", "q=1.0", parseQ);
  }

  /** `zstd;q=1.0` yields the token (1.0, 0, zstd). */
  lemma ZstdAt10(parseQ: FloatParser)
    requires parseQ("1.0") == Some(1.0)
    ensures PartOptions("zstd;q=1.0", parseQ) == [Token(1.0, 0, "zstd")]
  {
    ZstdAt10Components(parseQ);
    ZstdAt10Split(parseQ);
  }

  lemma SpacedGzipAt05Components(parseQ: FloatParser)
    requires parseQ("0.5") == Some(0.5)
    ensures ComponentsToken(["gzip", "q=0.5"], parseQ) == Some(Token(0.5, 1, "gzip"))
  {
    KeptComponents("gzip", "q=0.5", "0.5", 0.5, parseQ);
  }

  lemma SpacedGzipAt05Split(parseQ: FloatParser)
    ensures PartToken(" gzip;q=0.5", parseQ) == ComponentsToken(["gzip", "q=0.5"], parseQ)
  {
    StripPadded(" ", "gzip;q=0.5", "");
    assert " " + "gzip;q=0.5" + "" == " gzip;q=0.5";
    ElementComponents(" gzip;q=0.5", "gzip", "q=0.5", parseQ);
  }

  /** ` gzip;q=0.5` yields the token (0.5, 1, gzip). */
  lemma SpacedGzipAt05(parseQ: FloatParser)
    requires parseQ("0.5") == Some(0.5)
    ensures PartOptions(" gzip;q=0.5", parseQ) == [Token(0.5, 1, "gzip")]
  {
    SpacedGzipAt05Components(parseQ);
    SpacedGzipAt05Split(parseQ);
  }

  lemma ZstdAt05Components(parseQ: FloatParser)
    requires parseQ("0.5") == Some(0.5)
    ensures ComponentsToken(["zstd", "q=0.5"], parseQ) == Some(Token(0.5, 0, "zstd"))
  {
    KeptComponents("zstd", "q=0.5", "0.5", 0.5, parseQ);
  }

  lemma ZstdAt05Split(parseQ: FloatParser)
    ensures PartToken("zstd;q=0.5", parseQ) == ComponentsToken(["zstd", "q=0.5"], parseQ)
  {
    StripTrimmed("zstd;q=0.5");
    ElementComponents("zstd;q=0.5", "zstd", "q=0.5", parseQ);
  }

  /** `zstd;q=0.5` yields the token (0.5, 0, zstd). */
  lemma ZstdAt05(parseQ: FloatParser)
    requires parseQ("0.5") == Some(0.5)
    ensures PartOptions("zstd;q=0.5", parseQ) == [Token(0.5, 0, "zstd")]
  {
    ZstdAt05Components(parseQ);
    ZstdAt05Split(parseQ);
  }

  lemma SpacedGzipAt10Components(parseQ: FloatParser)
    requires parseQ("1.0") == Some(1.0)
    ensures ComponentsToken(["gzip", "q=1.0"], parseQ) == Some(Token(1.0, 1, "gzip"))
  {
    KeptComponents("gzip", "q=1.0", "1.0", 1.0, parseQ);
  }

  lemma SpacedGzipAt10Split(parseQ: FloatParser)
    ensures PartToken(" gzip;q=1.0", parseQ) == ComponentsToken(["gzip", "q=1.0"], parseQ)
  {
    StripPadded(" ", "gzip;q=1.0", "");
    assert " " + "gzip;q=1.0" + "" == " gzip;q=1.0";
    ElementComponents(" gzip;q=1.0", "gzip", "q=1.0", parseQ);
  }

  /** ` gzip;q=1.0` yields the token (1.0, 1, gzip). */
  lemma SpacedGzipAt10(parseQ: FloatParser)
    requires parseQ("1.0") == Some(1.0)
    ensures PartOptions(" gzip;q=1.0", parseQ) == [Token(1.0, 1, "gzip")]
  {
    SpacedGzipAt10Components(parseQ);
    SpacedGzipAt10Split(parseQ);
  }

  lemma ZstdAt08Components(parseQ: FloatParser)
    requires parseQ("0.8") == Some(0.8)
    ensures ComponentsToken(["zstd", "q=0.8"], parseQ) == Some(Token(0.8, 0, "zstd"))
  {
    KeptComponents("zstd", "q=0.8", "0.8", 0.8, parseQ);
  }

  lemma ZstdAt08Split(parseQ: FloatParser)
    ensures PartToken("zstd;q=0.8", parseQ) == ComponentsToken(["zstd", "q=0.8"], parseQ)
  {
    StripTrimmed("zstd;q=0.8");
    ElementComponents("zstd;q=0.8", "zstd", "q=0.8", parseQ);
  }

  /** `zstd;q=0.8` yields the token (0.8, 0, zstd). */
  lemma ZstdAt08(parseQ: FloatParser)
    requires parseQ("0.8") == Some(0.8)
    ensures PartOptions("zstd;q=0.8", parseQ) == [Token(0.8, 0, "zstd")]
  {
    ZstdAt08Components(parseQ);
    ZstdAt08Split(parseQ);
  }

  lemma SpacedGzipAt08Components(parseQ: FloatParser)
    requires parseQ("0.8") == Some(0.8)
    ensures ComponentsToken(["gzip", "q=0.8"], parseQ) == Some(Token(0.8, 1, "gzip"))
  {
    KeptComponents("gzip", "q=0.8", "0.8", 0.8, parseQ);
  }

  lemma SpacedGzipAt08Split(parseQ: FloatParser)
    ensures PartToken(" gzip;q=0.8", parseQ) == ComponentsToken(["gzip", "q=0.8"], parseQ)
  {
    StripPadded(" ", "gzip;q=0.8", "");
    assert " " + "gzip;q=0.8" + "" == " gzip;q=0.8";
    ElementComponents(" gzip;q=0.8", "gzip", "q=0.8", parseQ);
  }

  /** ` gzip;q=0.8` yields the token (0.8, 1, gzip). */
  lemma SpacedGzipAt08(parseQ: FloatParser)
    requires parseQ("0.8") == Some(0.8)
    ensures PartOptions(" gzip;q=0.8", parseQ) == [Token(0.8, 1, "gzip")]
  {
    SpacedGzipAt08Components(parseQ);
    SpacedGzipAt08Split(parseQ);
  }

  lemma GzipAt08Components(parseQ: FloatParser)
    requires parseQ("0.8") == Some(0.8)
    ensures ComponentsToken(["gzip", "q=0.8"], parseQ) == Some(Token(0.8, 1, "gzip"))
  {
    KeptComponents("gzip", "q=0.8", "0.8", 0.8, parseQ);
  }

  lemma GzipAt08Split(parseQ: FloatParser)
    ensures PartToken("gzip;q=0.8", parseQ) == ComponentsToken(["gzip", "q=0.8"], parseQ)
  {
    StripTrimmed("gzip;q=0.8");
    ElementComponents("gzip;q=0.8", "gzip", "q=0.8", parseQ);
  }

  /** `gzip;q=0.8` yields the token (0.8, 1, gzip). */
  lemma GzipAt08(parseQ: FloatParser)
    requires parseQ("0.8") == Some(0.8)
    ensures PartOptions("gzip;q=0.8", parseQ) == [Token(0.8, 1, "gzip")]
  {
    GzipAt08Components(parseQ);
    GzipAt08Split(parseQ);
  }

  lemma SpacedZstdAt08Components(parseQ: FloatParser)
    requires parseQ("0.8") == Some(0.8)
    ensures ComponentsToken(["zstd", "q=0.8"], parseQ) == Some(Token(0.8, 0, "zstd"))
  {
    KeptComponents("zstd", "q=0.8", "0.8", 0.8, parseQ);
  }

  lemma SpacedZstdAt08Split(parseQ: FloatParser)
    ensures PartToken(" zstd;q=0.8", parseQ) == ComponentsToken(["zstd", "q=0.8"], parseQ)
  {
    StripPadded(" ", "zstd;q=0.8", "");
    assert " " + "zstd;q=0.8" + "" == " zstd;q=0.8";
    ElementComponents(" zstd;q=0.8", "zstd", "q=0.8", parseQ);
  }

  /** ` zstd;q=0.8` yields the token (0.8, 0, zstd). */
  lemma SpacedZstdAt08(parseQ: FloatParser)
    requires parseQ("0.8") == Some(0.8)
    ensures PartOptions(" zstd;q=0.8", parseQ) == [Token(0.8, 0, "zstd")]
  {
    SpacedZstdAt08Components(parseQ);
    SpacedZstdAt08Split(parseQ);
  }

  lemma BrAt10Components(parseQ: FloatParser)
    ensures ComponentsToken(["br", "q=1.0"], parseQ) == None
  {
    DroppedComponents("br", "q=1.0", "1.0", parseQ);
  }

  lemma BrAt10Split(parseQ: FloatParser)
    ensures PartToken("br;q=1.0", parseQ) == ComponentsToken(["br", "q=1.0"], parseQ)
  {
    StripTrimmed("br;q=1.0");
    ElementComponents("br;q=1.0", "br", "q=1.0", parseQ);
  }

  /** `br;q=1.0` is dropped: the name is not recognised. */
  lemma BrAt10(parseQ: FloatParser)
    ensures PartOptions("br;q=1.0", parseQ) == []
  {
    BrAt10Components(parseQ);
    BrAt10Split(parseQ);
  }

  lemma SpacedZstdAt09Components(parseQ: FloatParser)
    requires parseQ("0.9") == Some(0.9)
    ensures ComponentsToken(["zstd", "q=0.9"], parseQ) == Some(Token(0.9, 0, "zstd"))
  {
    KeptComponents("zstd", "q=0.9", "0.9", 0.9, parseQ);
  }

  lemma SpacedZstdAt09Split(parseQ: FloatParser)
    ensures PartToken(" zstd;q=0.9", parseQ) == ComponentsToken(["zstd", "q=0.9"], parseQ)
  {
    StripPadded(" ", "zstd;q=0.9", "");
    assert " " + "zstd;q=0.9" + "" == " zstd;q=0.9";
    ElementComponents(" zstd;q=0.9", "zstd", "q=0.9", parseQ);
  }

  /** ` zstd;q=0.9` yields the token (0.9, 0, zstd). */
  lemma SpacedZstdAt09(parseQ: FloatParser)
    requires parseQ("0.9") == Some(0.9)
    ensures PartOptions(" zstd;q=0.9", parseQ) == [Token(0.9, 0, "zstd")]
  {
    SpacedZstdAt09Components(parseQ);
    SpacedZstdAt09Split(parseQ);
  }

  lemma ZstdAt0Components(parseQ: FloatParser)
    requires parseQ("0") == Some(0.0)
    ensures ComponentsToken(["zstd", "q=0"], parseQ) == None
  {
    DroppedComponents("zstd", "q=0", "0", parseQ);
  }

  lemma ZstdAt0Split(parseQ: FloatParser)
    ensures PartToken("zstd;q=0", parseQ) == ComponentsToken(["zstd", "q=0"], parseQ)
  {
    StripTrimmed("zstd;q=0");
    ElementComponents("zstd;q=0", "zstd", "q=0", parseQ);
  }

  /** `zstd;q=0` is dropped: a weight of 0 forbids the coding. */
  lemma ZstdAt0(parseQ: FloatParser)
    requires parseQ("0") == Some(0.0)
    ensures PartOptions("zstd;q=0", parseQ) == []
  {
    ZstdAt0Components(parseQ);
    ZstdAt0Split(parseQ);
  }

  lemma SpacedGzipAt0Components(parseQ: FloatParser)
    requires parseQ("0") == Some(0.0)
    ensures ComponentsToken(["gzip", "q=0"], parseQ) == None
  {
    DroppedComponents("gzip", "q=0", "0", parseQ);
  }

  lemma SpacedGzipAt0Split(parseQ: FloatParser)
    ensures PartToken(" gzip;q=0", parseQ) == ComponentsToken(["gzip", "q=0"], parseQ)
  {
    StripPadded(" ", "gzip;q=0", "");
    assert " " + "gzip;q=0" + "" == " gzip;q=0";
    ElementComponents(" gzip;q=0", "gzip", "q=0", parseQ);
  }

  /** ` gzip;q=0` is dropped: a weight of 0 forbids the coding. */
  lemma SpacedGzipAt0(parseQ: FloatParser)
    requires parseQ("0") == Some(0.0)
    ensures PartOptions(" gzip;q=0", parseQ) == []
  {
    SpacedGzipAt0Components(parseQ);
    SpacedGzipAt0Split(parseQ);
  }

  lemma SpacedAnyAt05Components(parseQ: FloatParser)
    requires parseQ("0.5") == Some(0.5)
    ensures ComponentsToken(["*", "q=0.5"], parseQ) == Some(Token(0.5, 999, "*"))
  {
    KeptComponents("*", "q=0.5", "0.5", 0.5, parseQ);
  }

  lemma SpacedAnyAt05Split(parseQ: FloatParser)
    ensures PartToken(" *;q=0.5", parseQ) == ComponentsToken(["*", "q=0.5"], parseQ)
  {
    StripPadded(" ", "*;q=0.5", "");
    assert " " + "*;q=0.5" + "" == " *;q=0.5";
    ElementComponents(" *;q=0.5", "*", "q=0.5", parseQ);
  }

  /** ` *;q=0.5` yields the token (0.5, 999, *). */
  lemma SpacedAnyAt05(parseQ: FloatParser)
    requires parseQ("0.5") == Some(0.5)
    ensures PartOptions(" *;q=0.5", parseQ) == [Token(0.5, 999, "*")]
  {
    SpacedAnyAt05Components(parseQ);
    SpacedAnyAt05Split(parseQ);
  }

  lemma ZstdAt01Components(parseQ: FloatParser)
    requires parseQ("0.1") == Some(0.1)
    ensures ComponentsToken(["zstd", "q=0.1"], parseQ) == Some(Token(0.1, 0, "zstd"))
  {
    KeptComponents("zstd", "q=0.1", "0.1", 0.1, parseQ);
  }

  lemma ZstdAt01Split(parseQ: FloatParser)
    ensures PartToken("zstd;q=0.1", parseQ) == ComponentsToken(["zstd", "q=0.1"], parseQ)
  {
    StripTrimmed("zstd;q=0.1");
    ElementComponents("zstd;q=0.1", "zstd", "q=0.1", parseQ);
  }

  /** `zstd;q=0.1` yields the token (0.1, 0, zstd). */
  lemma ZstdAt01(parseQ: FloatParser)
    requires parseQ("0.1") == Some(0.1)
    ensures PartOptions("zstd;q=0.1", parseQ) == [Token(0.1, 0, "zstd")]
  {
    ZstdAt01Components(parseQ);
    ZstdAt01Split(parseQ);
  }

  lemma SpacedIdentityAt05Components(parseQ: FloatParser)
    requires parseQ("0.5") == Some(0.5)
    ensures ComponentsToken(["identity", "q=0.5"], parseQ) == Some(Token(0.5, 998, "identity"))
  {
    KeptComponents("identity", "q=0.5", "0.5", 0.5, parseQ);
  }

  lemma SpacedIdentityAt05Split(parseQ: FloatParser)
    ensures PartToken(" identity;q=0.5", parseQ) == ComponentsToken(["identity", "q=0.5"], parseQ)
  {
    StripPadded(" ", "identity;q=0.5", "");
    assert " " + "identity;q=0.5" + "" == " identity;q=0.5";
    ElementComponents(" identity;q=0.5", "identity", "q=0.5", parseQ);
  }

  /** ` identity;q=0.5` yields the token (0.5, 998, identity). */
  lemma SpacedIdentityAt05(parseQ: FloatParser)
    requires parseQ("0.5") == Some(0.5)
    ensures PartOptions(" identity;q=0.5", parseQ) == [Token(0.5, 998, "identity")]
  {
    SpacedIdentityAt05Components(parseQ);
    SpacedIdentityAt05Split(parseQ);
  }

  lemma IdentityAt0Components(parseQ: FloatParser)
    requires parseQ("0") == Some(0.0)
    ensures ComponentsToken(["identity", "q=0"], parseQ) == None
  {
    DroppedComponents("identity", "q=0", "0", parseQ);
  }

  lemma IdentityAt0Split(parseQ: FloatParser)
    ensures PartToken("identity;q=0", parseQ) == ComponentsToken(["identity", "q=0"], parseQ)
  {
    StripTrimmed("identity;q=0");
    ElementComponents("identity;q=0", "identity", "q=0", parseQ);
  }

  /** `identity;q=0` is dropped: a weight of 0 forbids the coding. */
  lemma IdentityAt0(parseQ: FloatParser)
    requires parseQ("0") == Some(0.0)
    ensures PartOptions("identity;q=0", parseQ) == []
  {
    IdentityAt0Components(parseQ);
    IdentityAt0Split(parseQ);
  }

  lemma SpacedZstdAt05Components(parseQ: FloatParser)
    requires parseQ("0.5") == Some(0.5)
    ensures ComponentsToken(["zstd", "q=0.5"], parseQ) == Some(Token(0.5, 0, "zstd"))
  {
    KeptComponents("zstd", "q=0.5", "0.5", 0.5, parseQ);
  }

  lemma SpacedZstdAt05Split(parseQ: FloatParser)
    ensures PartToken(" zstd;q=0.5", parseQ) == ComponentsToken(["zstd", "q=0.5"], parseQ)
  {
    StripPadded(" ", "zstd;q=0.5", "");
    assert " " + "zstd;q=0.5" + "" == " zstd;q=0.5";
    ElementComponents(" zstd;q=0.5", "zstd", "q=0.5", parseQ);
  }

  /** ` zstd;q=0.5` yields the token (0.5, 0, zstd). */
  lemma SpacedZstdAt05(parseQ: FloatParser)
    requires parseQ("0.5") == Some(0.5)
    ensures PartOptions(" zstd;q=0.5", parseQ) == [Token(0.5, 0, "zstd")]
  {
    SpacedZstdAt05Components(parseQ);
    SpacedZstdAt05Split(parseQ);
  }

  lemma GzipAt10Components(parseQ: FloatParser)
    requires parseQ("1.0") == Some(1.0)
    ensures ComponentsToken(["gzip", "q=1.0"], parseQ) == Some(Token(1.0, 1, "gzip"))
  {
    KeptComponents("gzip", "q=1.0", "1.0", 1.0, parseQ);
  }

  lemma GzipAt10Split(parseQ: FloatParser)
    ensures PartToken("gzip;q=1.0", parseQ) == ComponentsToken(["gzip", "q=1.0"], parseQ)
  {
    StripTrimmed("gzip;q=1.0");
    ElementComponents("gzip;q=1.0", "gzip", "q=1.0", parseQ);
  }

  /** `gzip;q=1.0` yields the token (1.0, 1, gzip). */
  lemma GzipAt10(parseQ: FloatParser)
    requires parseQ("1.0") == Some(1.0)
    ensures PartOptions("gzip;q=1.0", parseQ) == [Token(1.0, 1, "gzip")]
  {
    GzipAt10Components(parseQ);
    GzipAt10Split(parseQ);
  }

  lemma SpacedAnyAt06Components(parseQ: FloatParser)
    requires parseQ("0.6") == Some(0.6)
    ensures ComponentsToken(["*", "q=0.6"], parseQ) == Some(Token(0.6, 999, "*"))
  {
    KeptComponents("*", "q=0.6", "0.6", 0.6, parseQ);
  }

  lemma SpacedAnyAt06Split(parseQ: FloatParser)
    ensures PartToken(" *;q=0.6", parseQ) == ComponentsToken(["*", "q=0.6"], parseQ)
  {
    StripPadded(" ", "*;q=0.6", "");
    assert " " + "*;q=0.6" + "" == " *;q=0.6";
    ElementComponents(" *;q=0.6", "*", "q=0.6", parseQ);
  }

  /** ` *;q=0.6` yields the token (0.6, 999, *). */
  lemma SpacedAnyAt06(parseQ: FloatParser)
    requires parseQ("0.6") == Some(0.6)
    ensures PartOptions(" *;q=0.6", parseQ) == [Token(0.6, 999, "*")]
  {
    SpacedAnyAt06Components(parseQ);
    SpacedAnyAt06Split(parseQ);
  }

  // ---------------------------------------------------------------------
  // The headers of the table

  lemma ZstdAt10GzipAt05Pieces()
    ensures Split("zstd;q=1.0, gzip;q=0.5", ',') == ["zstd;q=1.0", " gzip;q=0.5"]
  {
    assert "zstd;q=1.0, gzip;q=0.5" == Join(["zstd;q=1.0", " gzip;q=0.5"], ',');
    SplitJoin(["zstd;q=1.0", " gzip;q=0.5"], ',');
  }

  lemma ZstdAt10GzipAt05Elements(parseQ: FloatParser)
    requires ReadsDecimals(parseQ)
    ensures HeaderOptions(["zstd;q=1.0", " gzip;q=0.5"], parseQ) == [Token(1.0, 0, "zstd"), Token(0.5, 1, "gzip")]
  {
    ZstdAt10(parseQ);
    SpacedGzipAt05(parseQ);
    Pair("zstd;q=1.0", " gzip;q=0.5", parseQ);
  }

  lemma ZstdAt10GzipAt05Options(parseQ: FloatParser)
    requires ReadsDecimals(parseQ)
    ensures HeaderOptions(Split("zstd;q=1.0, gzip;q=0.5", ','), parseQ) == [Token(1.0, 0, "zstd"), Token(0.5, 1, "gzip")]
  {
    ZstdAt10GzipAt05Pieces();
    ZstdAt10GzipAt05Elements(parseQ);
  }

  lemma ZstdAt10GzipAt05Order()
    ensures SortByKey([Token(1.0, 0, "zstd"), Token(0.5, 1, "gzip")]) == [Token(1.0, 0, "zstd"), Token(0.5, 1, "gzip")]
  {
  }

  /** The tokens of `zstd;q=1.0, gzip;q=0.5`, in the order the scan visits them. */
  lemma ZstdAt10GzipAt05Sorted(parseQ: FloatParser)
    requires ReadsDecimals(parseQ)
    ensures SortByKey(HeaderOptions(Split("zstd;q=1.0, gzip;q=0.5", ','), parseQ)) == [Token(1.0, 0, "zstd"), Token(0.5, 1, "gzip")]
  {
    ZstdAt10GzipAt05Options(parseQ);
    ZstdAt10GzipAt05Order();
  }

  lemma ZstdAt05GzipAt10Pieces()
    ensures Split("zstd;q=0.5, gzip;q=1.0", ',') == ["zstd;q=0.5", " gzip;q=1.0"]
  {
    assert "zstd;q=0.5, gzip;q=1.0" == Join(["zstd;q=0.5", " gzip;q=1.0"], ',');
    SplitJoin(["zstd;q=0.5", " gzip;q=1.0"], ',');
  }

  lemma ZstdAt05GzipAt10Elements(parseQ: FloatParser)
    requires ReadsDecimals(parseQ)
    ensures HeaderOptions(["zstd;q=0.5", " gzip;q=1.0"], parseQ) == [Token(0.5, 0, "zstd"), Token(1.0, 1, "gzip")]
  {
    ZstdAt05(parseQ);
    SpacedGzipAt10(parseQ);
    Pair("zstd;q=0.5", " gzip;q=1.0", parseQ);
  }

  lemma ZstdAt05GzipAt10Options(parseQ: FloatParser)
    requires ReadsDecimals(parseQ)
    ensures HeaderOptions(Split("zstd;q=0.5, gzip;q=1.0", ','), parseQ) == [Token(0.5, 0, "zstd"), Token(1.0, 1, "gzip")]
  {
    ZstdAt05GzipAt10Pieces();
    ZstdAt05GzipAt10Elements(parseQ);
  }

  lemma ZstdAt05GzipAt10Order()
    ensures SortByKey([Token(0.5, 0, "zstd"), Token(1.0, 1, "gzip")]) == [Token(1.0, 1, "gzip"), Token(0.5, 0, "zstd")]
  {
  }

  /** The tokens of `zstd;q=0.5, gzip;q=1.0`, in the order the scan visits them. */
  lemma ZstdAt05GzipAt10Sorted(parseQ: FloatParser)
    requires ReadsDecimals(parseQ)
    ensures SortByKey(HeaderOptions(Split("zstd;q=0.5, gzip;q=1.0", ','), parseQ)) == [Token(1.0, 1, "gzip"), Token(0.5, 0, "zstd")]
  {
    ZstdAt05GzipAt10Options(parseQ);
    ZstdAt05GzipAt10Order();
  }

  lemma ZstdAt08GzipAt08Pieces()
    ensures Split("zstd;q=0.8, gzip;q=0.8", ',') == ["zstd;q=0.8", " gzip;q=0.8"]
  {
    assert "zstd;q=0.8, gzip;q=0.8" == Join(["zstd;q=0.8", " gzip;q=0.8"], ',');
    SplitJoin(["zstd;q=0.8", " gzip;q=0.8"], ',');
  }

  lemma ZstdAt08GzipAt08Elements(parseQ: FloatParser)
    requires ReadsDecimals(parseQ)
    ensures HeaderOptions(["zstd;q=0.8", " gzip;q=0.8"], parseQ) == [Token(0.8, 0, "zstd"), Token(0.8, 1, "gzip")]
  {
    ZstdAt08(parseQ);
    SpacedGzipAt08(parseQ);
    Pair("zstd;q=0.8", " gzip;q=0.8", parseQ);
  }

  lemma ZstdAt08GzipAt08Options(parseQ: FloatParser)
    requires ReadsDecimals(parseQ)
    ensures HeaderOptions(Split("zstd;q=0.8, gzip;q=0.8", ','), parseQ) == [Token(0.8, 0, "zstd"), Token(0.8, 1, "gzip")]
  {
    ZstdAt08GzipAt08Pieces();
    ZstdAt08GzipAt08Elements(parseQ);
  }

  lemma ZstdAt08GzipAt08Order()
    ensures SortByKey([Token(0.8, 0, "zstd"), Token(0.8, 1, "gzip")]) == [Token(0.8, 0, "zstd"), Token(0.8, 1, "gzip")]
  {
  }

  /** The tokens of `zstd;q=0.8, gzip;q=0.8`, in the order the scan visits them. */
  lemma ZstdAt08GzipAt08Sorted(parseQ: FloatParser)
    requires ReadsDecimals(parseQ)
    ensures SortByKey(HeaderOptions(Split("zstd;q=0.8, gzip;q=0.8", ','), parseQ)) == [Token(0.8, 0, "zstd"), Token(0.8, 1, "gzip")]
  {
    ZstdAt08GzipAt08Options(parseQ);
    ZstdAt08GzipAt08Order();
  }

  lemma GzipAt08ZstdAt08Pieces()
    ensures Split("gzip;q=0.8, zstd;q=0.8", ',') == ["gzip;q=0.8", " zstd;q=0.8"]
  {
    assert "gzip;q=0.8, zstd;q=0.8" == Join(["gzip;q=0.8", " zstd;q=0.8"], ',');
    SplitJoin(["gzip;q=0.8", " zstd;q=0.8"], ',');
  }

  lemma GzipAt08ZstdAt08Elements(parseQ: FloatParser)
    requires ReadsDecimals(parseQ)
    ensures HeaderOptions(["gzip;q=0.8", " zstd;q=0.8"], parseQ) == [Token(0.8, 1, "gzip"), Token(0.8, 0, "zstd")]
  {
    GzipAt08(parseQ);
    SpacedZstdAt08(parseQ);
    Pair("gzip;q=0.8", " zstd;q=0.8", parseQ);
  }

  lemma GzipAt08ZstdAt08Options(parseQ: FloatParser)
    requires ReadsDecimals(parseQ)
    ensures HeaderOptions(Split("gzip;q=0.8, zstd;q=0.8", ','), parseQ) == [Token(0.8, 1, "gzip"), Token(0.8, 0, "zstd")]
  {
    GzipAt08ZstdAt08Pieces();
    GzipAt08ZstdAt08Elements(parseQ);
  }

  lemma GzipAt08ZstdAt08Order()
    ensures SortByKey([Token(0.8, 1, "gzip"), Token(0.8, 0, "zstd")]) == [Token(0.8, 0, "zstd"), Token(0.8, 1, "gzip")]
  {
  }

  /** The tokens of `gzip;q=0.8, zstd;q=0.8`, in the order the scan visits them. */
  lemma GzipAt08ZstdAt08Sorted(parseQ: FloatParser)
    requires ReadsDecimals(parseQ)
    ensures SortByKey(HeaderOptions(Split("gzip;q=0.8, zstd;q=0.8", ','), parseQ)) == [Token(0.8, 0, "zstd"), Token(0.8, 1, "gzip")]
  {
    GzipAt08ZstdAt08Options(parseQ);
    GzipAt08ZstdAt08Order();
  }

  lemma BrAt10ZstdAt09GzipAt08Pieces()
    ensures Split("br;q=1.0, zstd;q=0.9, gzip;q=0.8", ',') == ["br;q=1.0", " zstd;q=0.9", " gzip;q=0.8"]
  {
    assert "br;q=1.0, zstd;q=0.9, gzip;q=0.8" == Join(["br;q=1.0", " zstd;q=0.9", " gzip;q=0.8"], ',');
    SplitJoin(["br;q=1.0", " zstd;q=0.9", " gzip;q=0.8"], ',');
  }

  lemma BrAt10ZstdAt09GzipAt08Elements(parseQ: FloatParser)
    requires ReadsDecimals(parseQ)
    ensures HeaderOptions(["br;q=1.0", " zstd;q=0.9", " gzip;q=0.8"], parseQ) == [Token(0.9, 0, "zstd"), Token(0.8, 1, "gzip")]
  {
    BrAt10(parseQ);
    SpacedZstdAt09(parseQ);
    SpacedGzipAt08(parseQ);
    Triple("br;q=1.0", " zstd;q=0.9", " gzip;q=0.8", parseQ);
  }

  lemma BrAt10ZstdAt09GzipAt08Options(parseQ: FloatParser)
    requires ReadsDecimals(parseQ)
    ensures HeaderOptions(Split("br;q=1.0, zstd;q=0.9, gzip;q=0.8", ','), parseQ) == [Token(0.9, 0, "zstd"), Token(0.8, 1, "gzip")]
  {
    BrAt10ZstdAt09GzipAt08Pieces();
    BrAt10ZstdAt09GzipAt08Elements(parseQ);
  }

  lemma BrAt10ZstdAt09GzipAt08Order()
    ensures SortByKey([Token(0.9, 0, "zstd"), Token(0.8, 1, "gzip")]) == [Token(0.9, 0, "zstd"), Token(0.8, 1, "gzip")]
  {
  }

  /** The tokens of `br;q=1.0, zstd;q=0.9, gzip;q=0.8`, in the order the scan visits them. */
  lemma BrAt10ZstdAt09GzipAt08Sorted(parseQ: FloatParser)
    requires ReadsDecimals(parseQ)
    ensures SortByKey(HeaderOptions(Split("br;q=1.0, zstd;q=0.9, gzip;q=0.8", ','), parseQ)) == [Token(0.9, 0, "zstd"), Token(0.8, 1, "gzip")]
  {
    BrAt10ZstdAt09GzipAt08Options(parseQ);
    BrAt10ZstdAt09GzipAt08Order();
  }

  lemma ZstdAt0GzipAt10Pieces()
    ensures Split("zstd;q=0, gzip;q=1.0", ',') == ["zstd;q=0", " gzip;q=1.0"]
  {
    assert "zstd;q=0, gzip;q=1.0" == Join(["zstd;q=0", " gzip;q=1.0"], ',');
    SplitJoin(["zstd;q=0", " gzip;q=1.0"], ',');
  }

  lemma ZstdAt0GzipAt10Elements(parseQ: FloatParser)
    requires ReadsDecimals(parseQ)
    ensures HeaderOptions(["zstd;q=0", " gzip;q=1.0"], parseQ) == [Token(1.0, 1, "gzip")]
  {
    ZstdAt0(parseQ);
    SpacedGzipAt10(parseQ);
    Pair("zstd;q=0", " gzip;q=1.0", parseQ);
  }

  lemma ZstdAt0GzipAt10Options(parseQ: FloatParser)
    requires ReadsDecimals(parseQ)
    ensures HeaderOptions(Split("zstd;q=0, gzip;q=1.0", ','), parseQ) == [Token(1.0, 1, "gzip")]
  {
    ZstdAt0GzipAt10Pieces();
    ZstdAt0GzipAt10Elements(parseQ);
  }

  /** The tokens of `zstd;q=0, gzip;q=1.0`, in the order the scan visits them. */
  lemma ZstdAt0GzipAt10Sorted(parseQ: FloatParser)
    requires ReadsDecimals(parseQ)
    ensures SortByKey(HeaderOptions(Split("zstd;q=0, gzip;q=1.0", ','), parseQ)) == [Token(1.0, 1, "gzip")]
  {
    ZstdAt0GzipAt10Options(parseQ);
  }

  lemma ZstdAt0GzipAt0Pieces()
    ensures Split("zstd;q=0, gzip;q=0", ',') == ["zstd;q=0", " gzip;q=0"]
  {
    assert "zstd;q=0, gzip;q=0" == Join(["zstd;q=0", " gzip;q=0"], ',');
    SplitJoin(["zstd;q=0", " gzip;q=0"], ',');
  }

  lemma ZstdAt0GzipAt0Elements(parseQ: FloatParser)
    requires ReadsDecimals(parseQ)
    ensures HeaderOptions(["zstd;q=0", " gzip;q=0"], parseQ) == []
  {
    ZstdAt0(parseQ);
    SpacedGzipAt0(parseQ);
    Pair("zstd;q=0", " gzip;q=0", parseQ);
  }

  lemma ZstdAt0GzipAt0Options(parseQ: FloatParser)
    requires ReadsDecimals(parseQ)
    ensures HeaderOptions(Split("zstd;q=0, gzip;q=0", ','), parseQ) == []
  {
    ZstdAt0GzipAt0Pieces();
    ZstdAt0GzipAt0Elements(parseQ);
  }

  /** The tokens of `zstd;q=0, gzip;q=0`, in the order the scan visits them. */
  lemma ZstdAt0GzipAt0Sorted(parseQ: FloatParser)
    requires ReadsDecimals(parseQ)
    ensures SortByKey(HeaderOptions(Split("zstd;q=0, gzip;q=0", ','), parseQ)) == []
  {
    ZstdAt0GzipAt0Options(parseQ);
  }

  lemma BrAt10AnyAt05Pieces()
    ensures Split("br;q=1.0, *;q=0.5", ',') == ["br;q=1.0", " *;q=0.5"]
  {
    assert "br;q=1.0, *;q=0.5" == Join(["br;q=1.0", " *;q=0.5"], ',');
    SplitJoin(["br;q=1.0", " *;q=0.5"], ',');
  }

  lemma BrAt10AnyAt05Elements(parseQ: FloatParser)
    requires ReadsDecimals(parseQ)
    ensures HeaderOptions(["br;q=1.0", " *;q=0.5"], parseQ) == [Token(0.5, 999, "*")]
  {
    BrAt10(parseQ);
    SpacedAnyAt05(parseQ);
    Pair("br;q=1.0", " *;q=0.5", parseQ);
  }

  lemma BrAt10AnyAt05Options(parseQ: FloatParser)
    requires ReadsDecimals(parseQ)
    ensures HeaderOptions(Split("br;q=1.0, *;q=0.5", ','), parseQ) == [Token(0.5, 999, "*")]
  {
    BrAt10AnyAt05Pieces();
    BrAt10AnyAt05Elements(parseQ);
  }

  /** The tokens of `br;q=1.0, *;q=0.5`, in the order the scan visits them. */
  lemma BrAt10AnyAt05Sorted(parseQ: FloatParser)
    requires ReadsDecimals(parseQ)
    ensures SortByKey(HeaderOptions(Split("br;q=1.0, *;q=0.5", ','), parseQ)) == [Token(0.5, 999, "*")]
  {
    BrAt10AnyAt05Options(parseQ);
  }

  lemma BrAt10AnyAt05Compact()
    ensures RemoveSpaces("br;q=1.0, *;q=0.5") == "br;q=1.0" + [','] + "*;q=0.5"
  {
    assert "br;q=1.0, *;q=0.5" == "br;q=1.0" + ", " + "*;q=0.5";
    CompactElements("br;q=1.0, *;q=0.5", "br;q=1.0", "*;q=0.5");
  }

  lemma BrAt10AnyAt05ZstdText()
    ensures !Contains("br;q=1.0" + [','] + "*;q=0.5", "zstd;q=0")
  {
    ContainsAcrossSeparator("br;q=1.0", "*;q=0.5", ',', "zstd;q=0");
    FirstCharAbsent("br;q=1.0", "zstd;q=0");
    ShorterAbsent("*;q=0.5", "zstd;q=0");
  }

  lemma BrAt10AnyAt05GzipText()
    ensures !Contains("br;q=1.0" + [','] + "*;q=0.5", "gzip;q=0")
  {
    ContainsAcrossSeparator("br;q=1.0", "*;q=0.5", ',', "gzip;q=0");
    FirstCharAbsent("br;q=1.0", "gzip;q=0");
    ShorterAbsent("*;q=0.5", "gzip;q=0");
  }

  /** What the wildcard stands for in `br;q=1.0, *;q=0.5`. */
  lemma BrAt10AnyAt05Wildcard()
    ensures WildcardChoice("br;q=1.0, *;q=0.5", true) == Zstd
    ensures WildcardChoice("br;q=1.0, *;q=0.5", false) == Zstd
  {
    BrAt10AnyAt05Compact();
    BrAt10AnyAt05ZstdText();
    BrAt10AnyAt05GzipText();
    WildcardOfCompact("br;q=1.0, *;q=0.5", "br;q=1.0" + [','] + "*;q=0.5", true);
    WildcardOfCompact("br;q=1.0, *;q=0.5", "br;q=1.0" + [','] + "*;q=0.5", false);
  }

  lemma ZstdAt0AnyAt05Pieces()
    ensures Split("zstd;q=0, *;q=0.5", ',') == ["zstd;q=0", " *;q=0.5"]
  {
    assert "zstd;q=0, *;q=0.5" == Join(["zstd;q=0", " *;q=0.5"], ',');
    SplitJoin(["zstd;q=0", " *;q=0.5"], ',');
  }

  lemma ZstdAt0AnyAt05Elements(parseQ: FloatParser)
    requires ReadsDecimals(parseQ)
    ensures HeaderOptions(["zstd;q=0", " *;q=0.5"], parseQ) == [Token(0.5, 999, "*")]
  {
    ZstdAt0(parseQ);
    SpacedAnyAt05(parseQ);
    Pair("zstd;q=0", " *;q=0.5", parseQ);
  }

  lemma ZstdAt0AnyAt05Options(parseQ: FloatParser)
    requires ReadsDecimals(parseQ)
    ensures HeaderOptions(Split("zstd;q=0, *;q=0.5", ','), parseQ) == [Token(0.5, 999, "*")]
  {
    ZstdAt0AnyAt05Pieces();
    ZstdAt0AnyAt05Elements(parseQ);
  }

  /** The tokens of `zstd;q=0, *;q=0.5`, in the order the scan visits them. */
  lemma ZstdAt0AnyAt05Sorted(parseQ: FloatParser)
    requires ReadsDecimals(parseQ)
    ensures SortByKey(HeaderOptions(Split("zstd;q=0, *;q=0.5", ','), parseQ)) == [Token(0.5, 999, "*")]
  {
    ZstdAt0AnyAt05Options(parseQ);
  }

  lemma ZstdAt0AnyAt05Compact()
    ensures RemoveSpaces("zstd;q=0, *;q=0.5") == "zstd;q=0" + [','] + "*;q=0.5"
  {
    assert "zstd;q=0, *;q=0.5" == "zstd;q=0" + ", " + "*;q=0.5";
    CompactElements("zstd;q=0, *;q=0.5", "zstd;q=0", "*;q=0.5");
  }

  lemma ZstdAt0AnyAt05ZstdText()
    ensures Contains("zstd;q=0" + [','] + "*;q=0.5", "zstd;q=0")
  {
    ContainsAcrossSeparator("zstd;q=0", "*;q=0.5", ',', "zstd;q=0");
    assert OccursAt("zstd;q=0", "zstd;q=0", 0);
    ContainsAt("zstd;q=0", "zstd;q=0");
    ShorterAbsent("*;q=0.5", "zstd;q=0");
  }

  lemma ZstdAt0AnyAt05GzipText()
    ensures !Contains("zstd;q=0" + [','] + "*;q=0.5", "gzip;q=0")
  {
    ContainsAcrossSeparator("zstd;q=0", "*;q=0.5", ',', "gzip;q=0");
    FirstCharAbsent("zstd;q=0", "gzip;q=0");
    ShorterAbsent("*;q=0.5", "gzip;q=0");
  }

  /** What the wildcard stands for in `zstd;q=0, *;q=0.5`. */
  lemma ZstdAt0AnyAt05Wildcard()
    ensures WildcardChoice("zstd;q=0, *;q=0.5", true) == Gzip
    ensures WildcardChoice("zstd;q=0, *;q=0.5", false) == Identity
  {
    ZstdAt0AnyAt05Compact();
    ZstdAt0AnyAt05ZstdText();
    ZstdAt0AnyAt05GzipText();
    WildcardOfCompact("zstd;q=0, *;q=0.5", "zstd;q=0" + [','] + "*;q=0.5", true);
    WildcardOfCompact("zstd;q=0, *;q=0.5", "zstd;q=0" + [','] + "*;q=0.5", false);
  }

  lemma ZstdAt01IdentityAt05Pieces()
    ensures Split("zstd;q=0.1, identity;q=0.5", ',') == ["zstd;q=0.1", " identity;q=0.5"]
  {
    assert "zstd;q=0.1, identity;q=0.5" == Join(["zstd;q=0.1", " identity;q=0.5"], ',');
    SplitJoin(["zstd;q=0.1", " identity;q=0.5"], ',');
  }

  lemma ZstdAt01IdentityAt05Elements(parseQ: FloatParser)
    requires ReadsDecimals(parseQ)
    ensures HeaderOptions(["zstd;q=0.1", " identity;q=0.5"], parseQ) == [Token(0.1, 0, "zstd"), Token(0.5, 998, "identity")]
  {
    ZstdAt01(parseQ);
    SpacedIdentityAt05(parseQ);
    Pair("zstd;q=0.1", " identity;q=0.5", parseQ);
  }

  lemma ZstdAt01IdentityAt05Options(parseQ: FloatParser)
    requires ReadsDecimals(parseQ)
    ensures HeaderOptions(Split("zstd;q=0.1, identity;q=0.5", ','), parseQ) == [Token(0.1, 0, "zstd"), Token(0.5, 998, "identity")]
  {
    ZstdAt01IdentityAt05Pieces();
    ZstdAt01IdentityAt05Elements(parseQ);
  }

  lemma ZstdAt01IdentityAt05Order()
    ensures SortByKey([Token(0.1, 0, "zstd"), Token(0.5, 998, "identity")]) == [Token(0.5, 998, "identity"), Token(0.1, 0, "zstd")]
  {
  }

  /** The tokens of `zstd;q=0.1, identity;q=0.5`, in the order the scan visits them. */
  lemma ZstdAt01IdentityAt05Sorted(parseQ: FloatParser)
    requires ReadsDecimals(parseQ)
    ensures SortByKey(HeaderOptions(Split("zstd;q=0.1, identity;q=0.5", ','), parseQ)) == [Token(0.5, 998, "identity"), Token(0.1, 0, "zstd")]
  {
    ZstdAt01IdentityAt05Options(parseQ);
    ZstdAt01IdentityAt05Order();
  }

  lemma IdentityAt0ZstdAt05Pieces()
    ensures Split("identity;q=0, zstd;q=0.5", ',') == ["identity;q=0", " zstd;q=0.5"]
  {
    assert "identity;q=0, zstd;q=0.5" == Join(["identity;q=0", " zstd;q=0.5"], ',');
    SplitJoin(["identity;q=0", " zstd;q=0.5"], ',');
  }

  lemma IdentityAt0ZstdAt05Elements(parseQ: FloatParser)
    requires ReadsDecimals(parseQ)
    ensures HeaderOptions(["identity;q=0", " zstd;q=0.5"], parseQ) == [Token(0.5, 0, "zstd")]
  {
    IdentityAt0(parseQ);
    SpacedZstdAt05(parseQ);
    Pair("identity;q=0", " zstd;q=0.5", parseQ);
  }

  lemma IdentityAt0ZstdAt05Options(parseQ: FloatParser)
    requires ReadsDecimals(parseQ)
    ensures HeaderOptions(Split("identity;q=0, zstd;q=0.5", ','), parseQ) == [Token(0.5, 0, "zstd")]
  {
    IdentityAt0ZstdAt05Pieces();
    IdentityAt0ZstdAt05Elements(parseQ);
  }

  /** The tokens of `identity;q=0, zstd;q=0.5`, in the order the scan visits them. */
  lemma IdentityAt0ZstdAt05Sorted(parseQ: FloatParser)
    requires ReadsDecimals(parseQ)
    ensures SortByKey(HeaderOptions(Split("identity;q=0, zstd;q=0.5", ','), parseQ)) == [Token(0.5, 0, "zstd")]
  {
    IdentityAt0ZstdAt05Options(parseQ);
  }

  lemma GzipAt10Pieces()
    ensures Split("gzip;q=1.0", ',') == ["gzip;q=1.0"]
  {
    SplitNoSep("gzip;q=1.0", ',');
  }

  lemma GzipAt10Elements(parseQ: FloatParser)
    requires ReadsDecimals(parseQ)
    ensures HeaderOptions(["gzip;q=1.0"], parseQ) == [Token(1.0, 1, "gzip")]
  {
    GzipAt10(parseQ);
    Single("gzip;q=1.0", parseQ);
  }

  lemma GzipAt10Options(parseQ: FloatParser)
    requires ReadsDecimals(parseQ)
    ensures HeaderOptions(Split("gzip;q=1.0", ','), parseQ) == [Token(1.0, 1, "gzip")]
  {
    GzipAt10Pieces();
    GzipAt10Elements(parseQ);
  }

  /** The tokens of `gzip;q=1.0`, in the order the scan visits them. */
  lemma GzipAt10Sorted(parseQ: FloatParser)
    requires ReadsDecimals(parseQ)
    ensures SortByKey(HeaderOptions(Split("gzip;q=1.0", ','), parseQ)) == [Token(1.0, 1, "gzip")]
  {
    GzipAt10Options(parseQ);
  }

  lemma ZstdAt05AnyAt06Pieces()
    ensures Split("zstd;q=0.5, *;q=0.6", ',') == ["zstd;q=0.5", " *;q=0.6"]
  {
    assert "zstd;q=0.5, *;q=0.6" == Join(["zstd;q=0.5", " *;q=0.6"], ',');
    SplitJoin(["zstd;q=0.5", " *;q=0.6"], ',');
  }

  lemma ZstdAt05AnyAt06Elements(parseQ: FloatParser)
    requires ReadsDecimals(parseQ)
    ensures HeaderOptions(["zstd;q=0.5", " *;q=0.6"], parseQ) == [Token(0.5, 0, "zstd"), Token(0.6, 999, "*")]
  {
    ZstdAt05(parseQ);
    SpacedAnyAt06(parseQ);
    Pair("zstd;q=0.5", " *;q=0.6", parseQ);
  }

  lemma ZstdAt05AnyAt06Options(parseQ: FloatParser)
    requires ReadsDecimals(parseQ)
    ensures HeaderOptions(Split("zstd;q=0.5, *;q=0.6", ','), parseQ) == [Token(0.5, 0, "zstd"), Token(0.6, 999, "*")]
  {
    ZstdAt05AnyAt06Pieces();
    ZstdAt05AnyAt06Elements(parseQ);
  }

  lemma ZstdAt05AnyAt06Order()
    ensures SortByKey([Token(0.5, 0, "zstd"), Token(0.6, 999, "*")]) == [Token(0.6, 999, "*"), Token(0.5, 0, "zstd")]
  {
  }

  /** The tokens of `zstd;q=0.5, *;q=0.6`, in the order the scan visits them. */
  lemma ZstdAt05AnyAt06Sorted(parseQ: FloatParser)
    requires ReadsDecimals(parseQ)
    ensures SortByKey(HeaderOptions(Split("zstd;q=0.5, *;q=0.6", ','), parseQ)) == [Token(0.6, 999, "*"), Token(0.5, 0, "zstd")]
  {
    ZstdAt05AnyAt06Options(parseQ);
    ZstdAt05AnyAt06Order();
  }

  lemma ZstdAt05AnyAt06Compact()
    ensures RemoveSpaces("zstd;q=0.5, *;q=0.6") == "zstd;q=0.5" + [','] + "*;q=0.6"
  {
    assert "zstd;q=0.5, *;q=0.6" == "zstd;q=0.5" + ", " + "*;q=0.6";
    CompactElements("zstd;q=0.5, *;q=0.6", "zstd;q=0.5", "*;q=0.6");
  }

  lemma ZstdAt05AnyAt06ZstdText()
    ensures Contains("zstd;q=0.5" + [','] + "*;q=0.6", "zstd;q=0")
  {
    ContainsAcrossSeparator("zstd;q=0.5", "*;q=0.6", ',', "zstd;q=0");
    assert OccursAt("zstd;q=0.5", "zstd;q=0", 0);
    ContainsAt("zstd;q=0.5", "zstd;q=0");
    ShorterAbsent("*;q=0.6", "zstd;q=0");
  }

  lemma ZstdAt05AnyAt06GzipText()
    ensures !Contains("zstd;q=0.5" + [','] + "*;q=0.6", "gzip;q=0")
  {
    ContainsAcrossSeparator("zstd;q=0.5", "*;q=0.6", ',', "gzip;q=0");
    FirstCharAbsent("zstd;q=0.5", "gzip;q=0");
    ShorterAbsent("*;q=0.6", "gzip;q=0");
  }

  /** What the wildcard stands for in `zstd;q=0.5, *;q=0.6`. */
  lemma ZstdAt05AnyAt06Wildcard()
    ensures WildcardChoice("zstd;q=0.5, *;q=0.6", true) == Gzip
    ensures WildcardChoice("zstd;q=0.5, *;q=0.6", false) == Identity
  {
    ZstdAt05AnyAt06Compact();
    ZstdAt05AnyAt06ZstdText();
    ZstdAt05AnyAt06GzipText();
    WildcardOfCompact("zstd;q=0.5, *;q=0.6", "zstd;q=0.5" + [','] + "*;q=0.6", true);
    WildcardOfCompact("zstd;q=0.5, *;q=0.6", "zstd;q=0.5" + [','] + "*;q=0.6", false);
  }

  // ---------------------------------------------------------------------
  // The table

  lemma ZstdHigherQScan()
    ensures Select([Token(1.0, 0, "zstd"), Token(0.5, 1, "gzip")], "zstd;q=1.0, gzip;q=0.5", true) == Zstd
  {
  }

  /** 1. zstd has the higher weight. */
  lemma ZstdHigherQ(parseQ: FloatParser)
    requires ReadsDecimals(parseQ)
    ensures Preferred("zstd;q=1.0, gzip;q=0.5", true, parseQ) == Zstd
  {
    ZstdAt10GzipAt05Sorted(parseQ);
    ScanSorted("zstd;q=1.0, gzip;q=0.5", true, parseQ, [Token(1.0, 0, "zstd"), Token(0.5, 1, "gzip")]);
    ZstdHigherQScan();
  }

  lemma GzipHigherQScan()
    ensures Select([Token(1.0, 1, "gzip"), Token(0.5, 0, "zstd")], "zstd;q=0.5, gzip;q=1.0", true) == Gzip
  {
  }

  /** 2. gzip has the higher weight, and the fallback is on. */
  lemma GzipHigherQ(parseQ: FloatParser)
    requires ReadsDecimals(parseQ)
    ensures Preferred("zstd;q=0.5, gzip;q=1.0", true, parseQ) == Gzip
  {
    ZstdAt05GzipAt10Sorted(parseQ);
    ScanSorted("zstd;q=0.5, gzip;q=1.0", true, parseQ, [Token(1.0, 1, "gzip"), Token(0.5, 0, "zstd")]);
    GzipHigherQScan();
  }

  lemma EqualQZstdFirstScan()
    ensures Select([Token(0.8, 0, "zstd"), Token(0.8, 1, "gzip")], "zstd;q=0.8, gzip;q=0.8", true) == Zstd
  {
  }

  /** 3. Equal weights: the table's priority picks zstd. */
  lemma EqualQZstdFirst(parseQ: FloatParser)
    requires ReadsDecimals(parseQ)
    ensures Preferred("zstd;q=0.8, gzip;q=0.8", true, parseQ) == Zstd
  {
    ZstdAt08GzipAt08Sorted(parseQ);
    ScanSorted("zstd;q=0.8, gzip;q=0.8", true, parseQ, [Token(0.8, 0, "zstd"), Token(0.8, 1, "gzip")]);
    EqualQZstdFirstScan();
  }

  lemma EqualQGzipFirstScan()
    ensures Select([Token(0.8, 0, "zstd"), Token(0.8, 1, "gzip")], "gzip;q=0.8, zstd;q=0.8", true) == Zstd
  {
  }

  /** 3. Equal weights, gzip listed first: zstd still wins. */
  lemma EqualQGzipFirst(parseQ: FloatParser)
    requires ReadsDecimals(parseQ)
    ensures Preferred("gzip;q=0.8, zstd;q=0.8", true, parseQ) == Zstd
  {
    GzipAt08ZstdAt08Sorted(parseQ);
    ScanSorted("gzip;q=0.8, zstd;q=0.8", true, parseQ, [Token(0.8, 0, "zstd"), Token(0.8, 1, "gzip")]);
    EqualQGzipFirstScan();
  }

  lemma UnsupportedSkippedScan()
    ensures Select([Token(0.9, 0, "zstd"), Token(0.8, 1, "gzip")], "br;q=1.0, zstd;q=0.9, gzip;q=0.8", true) == Zstd
  {
  }

  /** 4. `br` has the highest weight but is not recognised. */
  lemma UnsupportedSkipped(parseQ: FloatParser)
    requires ReadsDecimals(parseQ)
    ensures Preferred("br;q=1.0, zstd;q=0.9, gzip;q=0.8", true, parseQ) == Zstd
  {
    BrAt10ZstdAt09GzipAt08Sorted(parseQ);
    ScanSorted("br;q=1.0, zstd;q=0.9, gzip;q=0.8", true, parseQ, [Token(0.9, 0, "zstd"), Token(0.8, 1, "gzip")]);
    UnsupportedSkippedScan();
  }

  lemma ZstdForbiddenScan()
    ensures Select([Token(1.0, 1, "gzip")], "zstd;q=0, gzip;q=1.0", true) == Gzip
  {
  }

  /** 5. zstd is forbidden, so gzip. */
  lemma ZstdForbidden(parseQ: FloatParser)
    requires ReadsDecimals(parseQ)
    ensures Preferred("zstd;q=0, gzip;q=1.0", true, parseQ) == Gzip
  {
    ZstdAt0GzipAt10Sorted(parseQ);
    ScanSorted("zstd;q=0, gzip;q=1.0", true, parseQ, [Token(1.0, 1, "gzip")]);
    ZstdForbiddenScan();
  }

  lemma BothForbiddenScan()
    ensures Select([], "zstd;q=0, gzip;q=0", true) == Identity
  {
  }

  /** 6. Both compressors forbidden: no compression. */
  lemma BothForbidden(parseQ: FloatParser)
    requires ReadsDecimals(parseQ)
    ensures Preferred("zstd;q=0, gzip;q=0", true, parseQ) == Identity
  {
    ZstdAt0GzipAt0Sorted(parseQ);
    ScanSorted("zstd;q=0, gzip;q=0", true, parseQ, []);
    BothForbiddenScan();
  }

  lemma WildcardZstdScan()
    ensures Select([Token(0.5, 999, "*")], "br;q=1.0, *;q=0.5", true) == Zstd
  {
    BrAt10AnyAt05Wildcard();
  }

  /** 7. The wildcard stands for zstd. */
  lemma WildcardZstd(parseQ: FloatParser)
    requires ReadsDecimals(parseQ)
    ensures Preferred("br;q=1.0, *;q=0.5", true, parseQ) == Zstd
  {
    BrAt10AnyAt05Sorted(parseQ);
    ScanSorted("br;q=1.0, *;q=0.5", true, parseQ, [Token(0.5, 999, "*")]);
    WildcardZstdScan();
  }

  lemma WildcardZstdForbiddenScan()
    ensures Select([Token(0.5, 999, "*")], "zstd;q=0, *;q=0.5", true) == Gzip
  {
    ZstdAt0AnyAt05Wildcard();
  }

  /** 8. The wildcard with zstd forbidden stands for gzip. */
  lemma WildcardZstdForbidden(parseQ: FloatParser)
    requires ReadsDecimals(parseQ)
    ensures Preferred("zstd;q=0, *;q=0.5", true, parseQ) == Gzip
  {
    ZstdAt0AnyAt05Sorted(parseQ);
    ScanSorted("zstd;q=0, *;q=0.5", true, parseQ, [Token(0.5, 999, "*")]);
    WildcardZstdForbiddenScan();
  }

  lemma IdentityPreferredScan()
    ensures Select([Token(0.5, 998, "identity"), Token(0.1, 0, "zstd")], "zstd;q=0.1, identity;q=0.5", true) == Identity
  {
  }

  /** 9. identity has the higher weight. */
  lemma IdentityPreferred(parseQ: FloatParser)
    requires ReadsDecimals(parseQ)
    ensures Preferred("zstd;q=0.1, identity;q=0.5", true, parseQ) == Identity
  {
    ZstdAt01IdentityAt05Sorted(parseQ);
    ScanSorted("zstd;q=0.1, identity;q=0.5", true, parseQ, [Token(0.5, 998, "identity"), Token(0.1, 0, "zstd")]);
    IdentityPreferredScan();
  }

  lemma IdentityForbiddenScan()
    ensures Select([Token(0.5, 0, "zstd")], "identity;q=0, zstd;q=0.5", true) == Zstd
  {
  }

  /** 10. identity forbidden: zstd. */
  lemma IdentityForbidden(parseQ: FloatParser)
    requires ReadsDecimals(parseQ)
    ensures Preferred("identity;q=0, zstd;q=0.5", true, parseQ) == Zstd
  {
    IdentityAt0ZstdAt05Sorted(parseQ);
    ScanSorted("identity;q=0, zstd;q=0.5", true, parseQ, [Token(0.5, 0, "zstd")]);
    IdentityForbiddenScan();
  }

  lemma NoFallbackZstdScan()
    ensures Select([Token(1.0, 1, "gzip"), Token(0.5, 0, "zstd")], "zstd;q=0.5, gzip;q=1.0", false) == Zstd
  {
  }

  /** 11. gzip has the higher weight but the fallback is off. */
  lemma NoFallbackZstd(parseQ: FloatParser)
    requires ReadsDecimals(parseQ)
    ensures Preferred("zstd;q=0.5, gzip;q=1.0", false, parseQ) == Zstd
  {
    ZstdAt05GzipAt10Sorted(parseQ);
    ScanSorted("zstd;q=0.5, gzip;q=1.0", false, parseQ, [Token(1.0, 1, "gzip"), Token(0.5, 0, "zstd")]);
    NoFallbackZstdScan();
  }

  lemma NoFallbackIdentityScan()
    ensures Select([Token(1.0, 1, "gzip")], "zstd;q=0, gzip;q=1.0", false) == Identity
  {
  }

  /** 12. zstd forbidden and the fallback off: no compression. */
  lemma NoFallbackIdentity(parseQ: FloatParser)
    requires ReadsDecimals(parseQ)
    ensures Preferred("zstd;q=0, gzip;q=1.0", false, parseQ) == Identity
  {
    ZstdAt0GzipAt10Sorted(parseQ);
    ScanSorted("zstd;q=0, gzip;q=1.0", false, parseQ, [Token(1.0, 1, "gzip")]);
    NoFallbackIdentityScan();
  }

  lemma OnlyGzipNoFallbackScan()
    ensures Select([Token(1.0, 1, "gzip")], "gzip;q=1.0", false) == Identity
  {
  }

  /** 13. Only gzip, and the fallback off: no compression. */
  lemma OnlyGzipNoFallback(parseQ: FloatParser)
    requires ReadsDecimals(parseQ)
    ensures Preferred("gzip;q=1.0", false, parseQ) == Identity
  {
    GzipAt10Sorted(parseQ);
    ScanSorted("gzip;q=1.0", false, parseQ, [Token(1.0, 1, "gzip")]);
    OnlyGzipNoFallbackScan();
  }

  lemma WildcardSubstringQuirkScan()
    ensures Select([Token(0.6, 999, "*"), Token(0.5, 0, "zstd")], "zstd;q=0.5, *;q=0.6", true) == Gzip
  {
    ZstdAt05AnyAt06Wildcard();
  }

  /** The wildcard test looks for the text `zstd;q=0`, which `zstd;q=0.5` contains, so the wildcard stands for gzip although zstd is acceptable. */
  lemma WildcardSubstringQuirk(parseQ: FloatParser)
    requires ReadsDecimals(parseQ)
    ensures Preferred("zstd;q=0.5, *;q=0.6", true, parseQ) == Gzip
  {
    ZstdAt05AnyAt06Sorted(parseQ);
    ScanSorted("zstd;q=0.5, *;q=0.6", true, parseQ, [Token(0.6, 999, "*"), Token(0.5, 0, "zstd")]);
    WildcardSubstringQuirkScan();
  }

  lemma EqualQStripped()
    ensures StripAll(["zstd;q=0.8", " gzip;q=0.8"]) == ["zstd;q=0.8", "gzip;q=0.8"]
    ensures StripAll(["gzip;q=0.8", " zstd;q=0.8"]) == ["gzip;q=0.8", "zstd;q=0.8"]
  {
    StripTrimmed("zstd;q=0.8");
    StripTrimmed("gzip;q=0.8");
    StripPadded(" ", "gzip;q=0.8", "");
    StripPadded(" ", "zstd;q=0.8", "");
    assert " " + "gzip;q=0.8" + "" == " gzip;q=0.8";
    assert " " + "zstd;q=0.8" + "" == " zstd;q=0.8";
  }

  /** Stripped, the elements of the two orders are the same up to order. */
  lemma EqualQSameElements()
    ensures multiset(StripAll(Split("zstd;q=0.8, gzip;q=0.8", ',')))
         == multiset(StripAll(Split("gzip;q=0.8, zstd;q=0.8", ',')))
  {
    ZstdAt08GzipAt08Pieces();
    GzipAt08ZstdAt08Pieces();
    EqualQStripped();
  }

  /** The two orders of the tie in the table's rows for `zstd;q=0.8` and
      `gzip;q=0.8` negotiate alike, for every float reader. */
  lemma EqualQSwapped(gzipFallback: bool, parseQ: FloatParser)
    ensures Preferred("zstd;q=0.8, gzip;q=0.8", gzipFallback, parseQ)
         == Preferred("gzip;q=0.8, zstd;q=0.8", gzipFallback, parseQ)
  {
    EqualQSameElements();
    PermutedElements("zstd;q=0.8, gzip;q=0.8", "gzip;q=0.8, zstd;q=0.8", gzipFallback, parseQ);
  }
}
