/** What `parse_part` and `get_preferred_encoding` promise, proved about the
    pure model in module Headers. */
module HeaderProperties {
  import opened Wrappers
  import opened PyStr
  import opened Headers

  // ---------------------------------------------------------------------
  // parse_part

  /** An empty or all-whitespace element yields no token. */
  lemma BlankPartDropped(part: string, parseQ: FloatParser)
    requires AllSpace(part)
    ensures PartToken(part, parseQ) == None
  {
    StripSpec(part);
  }

  /** Only the four names of the table are recognised, exactly as written:
      `br`, `deflate` or `GZIP` yield no token. */
  lemma UnknownNameDropped(part: string, parseQ: FloatParser)
    requires CodingName(part) != "zstd" && CodingName(part) != "gzip"
    requires CodingName(part) != "identity" && CodingName(part) != "*"
    ensures PartToken(part, parseQ) == None
  {
    CodingTable(CodingName(part));
  }

  /** Every token carries one of the four names and that name's priority
      from the table. */
  lemma TokenPriority(part: string, parseQ: FloatParser)
    requires PartToken(part, parseQ).Some?
    ensures var t := PartToken(part, parseQ).value;
      || (t.name == "zstd" && t.priority == 0)
      || (t.name == "gzip" && t.priority == 1)
      || (t.name == "identity" && t.priority == 998)
      || (t.name == "*" && t.priority == 999)
  {
    var t := PartToken(part, parseQ).value;
    CodingTable(t.name);
  }

  /** The first parameter that starts with `q=` decides the weight; the
      parameters after it are not read. */
  lemma {:induction false} QTextFirst(params: seq<string>, k: nat)
    requires k < |params| && StartsWith(Strip(params[k]), "q=")
    requires forall i :: 0 <= i < k ==> !StartsWith(Strip(params[i]), "q=")
    ensures QText(params) == Some(Strip(params[k])[2..])
  {
    if k > 0 {
      assert params[1..][k - 1] == params[k];
      forall i | 0 <= i < k - 1
        ensures !StartsWith(Strip(params[1..][i]), "q=")
      {
        assert params[1..][i] == params[i + 1];
      }
      QTextFirst(params[1..], k - 1);
    }
  }

  /** A recognised element with no `q=` parameter has weight 1. */
  lemma DefaultWeight(part: string, parseQ: FloatParser)
    requires !AllSpace(part) && CodingName(part) in CodingPriorities
    requires forall i :: 0 <= i < |Params(part)| ==> !StartsWith(Strip(Params(part)[i]), "q=")
    ensures PartToken(part, parseQ) == Some(Token(1.0, CodingPriorities[CodingName(part)], CodingName(part)))
  {
    var components := Split(Strip(part), ';');
    assert PartToken(part, parseQ) == ComponentsToken(components, parseQ);
    assert Params(part) == components[1..];
    assert RawQ(components[1..], parseQ) == 1.0;
  }

  /** A recognised element whose first `q=` parameter holds `text` is kept
      with weight min(v, 1) when `text` reads as a positive number v, and is
      dropped when v <= 0 or `text` is malformed. */
  lemma FirstWeight(part: string, parseQ: FloatParser, k: nat)
    requires !AllSpace(part) && CodingName(part) in CodingPriorities
    requires k < |Params(part)| && StartsWith(Strip(Params(part)[k]), "q=")
    requires forall i :: 0 <= i < k ==> !StartsWith(Strip(Params(part)[i]), "q=")
    ensures var name := CodingName(part);
            var r := PartToken(part, parseQ);
            match parseQ(Strip(Params(part)[k])[2..])
            case None => r == None
            case Some(v) =>
              && (v <= 0.0 ==> r == None)
              && (0.0 < v <= 1.0 ==> r == Some(Token(v, CodingPriorities[name], name)))
              && (v > 1.0 ==> r == Some(Token(1.0, CodingPriorities[name], name)))
  {
    var components := Split(Strip(part), ';');
    assert PartToken(part, parseQ) == ComponentsToken(components, parseQ);
    QTextFirst(Params(part), k);
    var text := Strip(Params(part)[k])[2..];
    assert RawQ(components[1..], parseQ) == match parseQ(text) case Some(v) => v case None => 0.0;
  }

  /** Elements that strip to the same text parse to the same token. */
  lemma SameStrippedSameToken(a: string, b: string, parseQ: FloatParser)
    requires Strip(a) == Strip(b)
    ensures PartToken(a, parseQ) == PartToken(b, parseQ)
  {
  }

  /** Whitespace around an element does not change its token. */
  lemma PaddedPart(pre: string, part: string, post: string, parseQ: FloatParser)
    requires AllSpace(pre) && AllSpace(post) && Trimmed(part)
    ensures PartToken(pre + part + post, parseQ) == PartToken(part, parseQ)
  {
    StripPadded(pre, part, post);
    StripTrimmed(part);
    SameStrippedSameToken(pre + part + post, part, parseQ);
  }

  /** The parameter `q=text` is trimmed when `text` does not end in
      whitespace, and reads as `text`. */
  lemma WeightParam(text: string)
    requires text == [] || !IsSpace(text[|text| - 1])
    ensures Trimmed("q=" + text)
    ensures QText(["q=" + text]) == Some(text)
  {
    var param := "q=" + text;
    assert param[0] == 'q';
    assert param[|param| - 1] == if text == [] then '=' else text[|text| - 1];
    StripTrimmed(param);
    assert StartsWith(param, "q=") && param[2..] == text;
  }

  /** An element `name;param`, with a trimmed name and a parameter that does
      not end in whitespace, splits into its name and its one parameter. */
  lemma TwoComponents(name: string, param: string, parseQ: FloatParser)
    requires Trimmed(name) && ';' !in name && ';' !in param
    requires param != [] && !IsSpace(param[|param| - 1])
    ensures PartToken(name + ";" + param, parseQ) == ComponentsToken([name, param], parseQ)
  {
    var part := name + ";" + param;
    assert part == name + [';'] + param;
    assert Trimmed(part) by {
      assert part[0] == name[0] && part[|part| - 1] == param[|param| - 1];
    }
    StripTrimmed(part);
    SplitPrefix(name, param, ';');
    SplitNoSep(param, ';');
  }

  /** In the one-parameter element `name;<pad>param`, whitespace before the
      parameter does not change the token. */
  lemma PaddedParam(name: string, pad: string, param: string, parseQ: FloatParser)
    requires Trimmed(name) && ';' !in name
    requires AllSpace(pad) && Trimmed(param) && ';' !in param
    ensures PartToken(name + ";" + pad + param, parseQ) == PartToken(name + ";" + param, parseQ)
  {
    var padded := pad + param;
    assert ';' !in padded by {
      assert forall j :: 0 <= j < |pad| ==> padded[j] == pad[j];
      assert forall j :: |pad| <= j < |padded| ==> padded[j] == param[j - |pad|];
    }
    StripPadded(pad, param, "");
    StripTrimmed(param);
    assert pad + param + "" == padded;
    assert name + ";" + pad + param == name + ";" + padded;
    TwoComponents(name, padded, parseQ);
    TwoComponents(name, param, parseQ);
    SameQSameToken([name, padded], [name, param], parseQ);
  }

  /** The element `name;q=text`, its weight read from `text`. */
  lemma WeightedPart(name: string, text: string, parseQ: FloatParser)
    requires Trimmed(name) && ';' !in name
    requires ';' !in text && (text == [] || !IsSpace(text[|text| - 1]))
    ensures var r := PartToken(name + ";q=" + text, parseQ);
            if name !in CodingPriorities then r == None
            else match parseQ(text)
              case None => r == None
              case Some(v) =>
                && (v <= 0.0 ==> r == None)
                && (0.0 < v <= 1.0 ==> r == Some(Token(v, CodingPriorities[name], name)))
                && (v > 1.0 ==> r == Some(Token(1.0, CodingPriorities[name], name)))
  {
    WeightParam(text);
    assert name + ";q=" + text == name + ";" + ("q=" + text);
    TwoComponents(name, "q=" + text, parseQ);
    StripTrimmed(name);
    assert [name, "q=" + text][1..] == ["q=" + text];
  }

  /** The bare element `name`: weight 1 when the name is recognised. */
  lemma BarePart(name: string, parseQ: FloatParser)
    requires Trimmed(name) && ';' !in name
    ensures PartToken(name, parseQ) ==
      if name in CodingPriorities then Some(Token(1.0, CodingPriorities[name], name)) else None
  {
    StripTrimmed(name);
    SplitNoSep(name, ';');
    assert [name][1..] == [];
  }

  /** Components with the same name and the same `q=` text give the same
      token. */
  lemma SameQSameToken(c1: seq<string>, c2: seq<string>, parseQ: FloatParser)
    requires |c1| >= 1 && |c2| >= 1 && c1[0] == c2[0]
    requires QText(c1[1..]) == QText(c2[1..])
    ensures ComponentsToken(c1, parseQ) == ComponentsToken(c2, parseQ)
  {
    assert RawQ(c1[1..], parseQ) == RawQ(c2[1..], parseQ);
  }

  /** Parameters after a leading `q=` parameter are ignored, a second `q=`
      included. */
  lemma FirstQOnly(name: string, text: string, rest: string, parseQ: FloatParser)
    requires Trimmed(name) && ';' !in name
    requires ';' !in text && (text == [] || !IsSpace(text[|text| - 1]))
    requires rest == [] || !IsSpace(rest[|rest| - 1])
    ensures PartToken(name + ";q=" + text + ";" + rest, parseQ) == PartToken(name + ";q=" + text, parseQ)
  {
    var param := "q=" + text;
    WeightParam(text);
    assert name + ";q=" + text == name + ";" + param;
    assert name + ";q=" + text + ";" + rest == name + ";" + param + ";" + rest;
    TwoComponents(name, param, parseQ);
    LongComponents(name, param, rest);
    var components := [name] + ([param] + Split(rest, ';'));
    assert components[1..] == [param] + Split(rest, ';');
    LeadingWeight(param, Split(rest, ';'));
    SameQSameToken(components, [name, param], parseQ);
  }

  /** The trimmed element `name;param;rest` splits into its name, `param`
      and the `;`-segments of `rest`. */
  lemma LongComponents(name: string, param: string, rest: string)
    requires Trimmed(name) && Trimmed(param) && ';' !in name && ';' !in param
    requires rest == [] || !IsSpace(rest[|rest| - 1])
    ensures Split(Strip(name + ";" + param + ";" + rest), ';') == [name] + ([param] + Split(rest, ';'))
  {
    LongAssociates(name, param, rest);
    LongTrimmed(name, param, rest);
    LongSplit(name, param, rest);
    StripTrimmed(name + [';'] + (param + [';'] + rest));
  }

  /** Kept apart from `LongComponents`: stated inline there, the regrouping
      makes that proof depend on the solver's random seed. */
  lemma LongAssociates(name: string, param: string, rest: string)
    ensures name + ";" + param + ";" + rest == name + [';'] + (param + [';'] + rest)
  {
  }

  lemma LongTrimmed(name: string, param: string, rest: string)
    requires Trimmed(name) && (rest == [] || !IsSpace(rest[|rest| - 1]))
    ensures Trimmed(name + [';'] + (param + [';'] + rest))
  {
    var tail := param + [';'] + rest;
    assert tail[|tail| - 1] == if rest == [] then ';' else rest[|rest| - 1];
    TrimmedAfterSeparator(name, tail);
  }

  lemma LongSplit(name: string, param: string, rest: string)
    requires ';' !in name && ';' !in param
    ensures Split(name + [';'] + (param + [';'] + rest), ';') == [name] + ([param] + Split(rest, ';'))
  {
    SplitPrefix(name, param + [';'] + rest, ';');
    SplitPrefix(param, rest, ';');
  }

  /** `head;tail` is trimmed when `head` is and `tail` does not end in
      whitespace. */
  lemma TrimmedAfterSeparator(head: string, tail: string)
    requires Trimmed(head) && (tail == [] || !IsSpace(tail[|tail| - 1]))
    ensures Trimmed(head + [';'] + tail)
  {
    var s := head + [';'] + tail;
    assert s[0] == head[0];
    assert s[|s| - 1] == if tail == [] then ';' else tail[|tail| - 1];
  }

  /** A leading parameter that reads `q=...` decides the `q=` text. */
  lemma LeadingWeight(param: string, rest: seq<string>)
    requires Trimmed(param) && StartsWith(param, "q=")
    ensures QText([param] + rest) == QText([param])
  {
    StripTrimmed(param);
    assert ([param] + rest)[0] == param;
  }

  // ---------------------------------------------------------------------
  // get_preferred_encoding

  /** The scan answers with the first element, in sorted order, that
      decides. */
  lemma {:induction false} SelectFirstDecisive(options: seq<Token>, acceptEncoding: string, gzipFallback: bool, k: nat)
    requires k < |options| && Decide(options[k].name, acceptEncoding, gzipFallback).Some?
    requires forall i :: 0 <= i < k ==> Decide(options[i].name, acceptEncoding, gzipFallback) == None
    ensures Select(options, acceptEncoding, gzipFallback) == Decide(options[k].name, acceptEncoding, gzipFallback).value
  {
    if k > 0 {
      SelectFirstDecisive(options[1..], acceptEncoding, gzipFallback, k - 1);
    }
  }

  /** When no element decides, the answer is identity. */
  lemma {:induction false} SelectNoneDecisive(options: seq<Token>, acceptEncoding: string, gzipFallback: bool)
    requires forall i :: 0 <= i < |options| ==> Decide(options[i].name, acceptEncoding, gzipFallback) == None
    ensures Select(options, acceptEncoding, gzipFallback) == Identity
  {
    if options != [] {
      SelectNoneDecisive(options[1..], acceptEncoding, gzipFallback);
    }
  }

  /** The options of a header, in the order the scan visits them. */
  function SortedOptions(acceptEncoding: string, parseQ: FloatParser): seq<Token> {
    SortByKey(HeaderOptions(Split(acceptEncoding, ','), parseQ))
  }

  /** The answer is that of the first option, by descending q and then
      ascending priority, that is zstd, identity, the wildcard, or gzip with
      the fallback on. */
  lemma PreferredFirstDecisive(acceptEncoding: string, gzipFallback: bool, parseQ: FloatParser, k: nat)
    requires var s := SortedOptions(acceptEncoding, parseQ);
      && k < |s| && Decide(s[k].name, acceptEncoding, gzipFallback).Some?
      && forall i :: 0 <= i < k ==> Decide(s[i].name, acceptEncoding, gzipFallback) == None
    ensures Preferred(acceptEncoding, gzipFallback, parseQ)
      == Decide(SortedOptions(acceptEncoding, parseQ)[k].name, acceptEncoding, gzipFallback).value
  {
    SelectFirstDecisive(SortedOptions(acceptEncoding, parseQ), acceptEncoding, gzipFallback, k);
  }

  /** With no option that decides, the answer is identity. */
  lemma PreferredNoneDecisive(acceptEncoding: string, gzipFallback: bool, parseQ: FloatParser)
    requires var s := SortedOptions(acceptEncoding, parseQ);
      forall i :: 0 <= i < |s| ==> Decide(s[i].name, acceptEncoding, gzipFallback) == None
    ensures Preferred(acceptEncoding, gzipFallback, parseQ) == Identity
  {
    SelectNoneDecisive(SortedOptions(acceptEncoding, parseQ), acceptEncoding, gzipFallback);
  }

  /** If no element parses to a token (an empty header, only unsupported
      codings, every supported coding forbidden) the answer is identity. */
  lemma NoOptionsIdentity(acceptEncoding: string, gzipFallback: bool, parseQ: FloatParser)
    requires HeaderOptions(Split(acceptEncoding, ','), parseQ) == []
    ensures Preferred(acceptEncoding, gzipFallback, parseQ) == Identity
  {
  }

  /** An empty header negotiates identity. */
  lemma EmptyHeaderIdentity(gzipFallback: bool, parseQ: FloatParser)
    ensures Preferred("", gzipFallback, parseQ) == Identity
  {
    assert Split("", ',') == [""];
    assert HeaderOptions([""], parseQ) == [];
  }

  /** An option that sorts no later than every other option and decides is
      the answer. */
  lemma BestOptionDecides(acceptEncoding: string, gzipFallback: bool, parseQ: FloatParser, t: Token)
    requires var options := HeaderOptions(Split(acceptEncoding, ','), parseQ);
      && t in options
      && (forall u :: u in options ==> KeyLe(t, u))
      && Decide(t.name, acceptEncoding, gzipFallback).Some?
    ensures Preferred(acceptEncoding, gzipFallback, parseQ) == Decide(t.name, acceptEncoding, gzipFallback).value
  {
    var options := HeaderOptions(Split(acceptEncoding, ','), parseQ);
    var s := SortByKey(options);
    assert t in multiset(s);
    SortedHeadLeast(s, t);
    assert s[0] in multiset(options);
    ValidMember(options, s[0]);
    ValidMember(options, t);
    KeyLeAntisymmetric(s[0], t);
    SelectFirstDecisive(s, acceptEncoding, gzipFallback, 0);
  }

  /** zstd offered at the highest q in the header wins, whatever else is
      offered at that q and wherever it stands in the header: on equal q the
      server prefers zstd. */
  lemma ZstdWinsTies(acceptEncoding: string, gzipFallback: bool, parseQ: FloatParser, t: Token)
    requires var options := HeaderOptions(Split(acceptEncoding, ','), parseQ);
      && t in options && t.name == "zstd"
      && forall u :: u in options ==> u.q <= t.q
    ensures Preferred(acceptEncoding, gzipFallback, parseQ) == Zstd
  {
    var options := HeaderOptions(Split(acceptEncoding, ','), parseQ);
    ValidMember(options, t);
    assert t.priority == 0;
    forall u | u in options ensures KeyLe(t, u) {
      ValidMember(options, u);
      CodingTable(u.name);
    }
    BestOptionDecides(acceptEncoding, gzipFallback, parseQ, t);
  }

  /** The answer depends on the order of the elements only through the
      wildcard's substring test: headers with the same tokens and the same
      wildcard answer negotiate the same encoding. */
  lemma OrderIrrelevant(h1: string, h2: string, gzipFallback: bool, parseQ: FloatParser)
    requires multiset(HeaderOptions(Split(h1, ','), parseQ)) == multiset(HeaderOptions(Split(h2, ','), parseQ))
    requires WildcardChoice(h1, gzipFallback) == WildcardChoice(h2, gzipFallback)
    ensures Preferred(h1, gzipFallback, parseQ) == Preferred(h2, gzipFallback, parseQ)
  {
    var o1 := HeaderOptions(Split(h1, ','), parseQ);
    var o2 := HeaderOptions(Split(h2, ','), parseQ);
    var s1 := SortByKey(o1);
    var s2 := SortByKey(o2);
    assert multiset(s1) == multiset(s2);
    AllValidPermutation(o1, s1);
    SortedUnique(s1, s2);
    SelectWildcardOnly(s1, h1, h2, gzipFallback);
  }

  /** `Select` reads the header only through the wildcard answer. */
  lemma {:induction false} SelectWildcardOnly(options: seq<Token>, h1: string, h2: string, gzipFallback: bool)
    requires WildcardChoice(h1, gzipFallback) == WildcardChoice(h2, gzipFallback)
    ensures Select(options, h1, gzipFallback) == Select(options, h2, gzipFallback)
  {
    if options != [] {
      SelectWildcardOnly(options[1..], h1, h2, gzipFallback);
    }
  }

  /** Each element is parsed on its own: the options of a concatenation
      of element lists are the concatenation of their options. */
  lemma {:induction false} HeaderOptionsAppend(p: seq<string>, q: seq<string>, parseQ: FloatParser)
    ensures HeaderOptions(p + q, parseQ) == HeaderOptions(p, parseQ) + HeaderOptions(q, parseQ)
  {
    if q == [] {
      assert p + q == p;
    } else {
      var n := |q| - 1;
      var init, last := q[..n], q[n];
      var pq := p + q;
      HeaderOptionsLast(pq, parseQ);
      HeaderOptionsLast(q, parseQ);
      assert pq[..|pq| - 1] == p + init;
      assert pq[|pq| - 1] == last;
      HeaderOptionsAppend(p, init, parseQ);
      ConcatAssociates(HeaderOptions(p, parseQ), HeaderOptions(init, parseQ), PartOptions(last, parseQ));
    }
  }

  lemma HeaderOptionsLast(parts: seq<string>, parseQ: FloatParser)
    requires parts != []
    ensures HeaderOptions(parts, parseQ)
         == HeaderOptions(parts[..|parts| - 1], parseQ) + PartOptions(parts[|parts| - 1], parseQ)
  {
  }

  /** Kept apart from `HeaderOptionsAppend`: stated inline there, the
      regrouping sends the solver out of resource. */
  lemma ConcatAssociates(a: seq<Token>, b: seq<Token>, c: seq<Token>)
    ensures (a + b) + c == a + (b + c)
  {
  }
}
