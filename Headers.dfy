/** `Accept-Encoding` negotiation (zstd_asgi/headers.py): splitting a header
    into elements, parsing each element into a token, ordering the tokens by
    client weight and server preference, and picking the answer. */
module Headers {
  import opened Wrappers
  import opened PyStr

  /** `CODING_PRIORITIES`: the coding names the server recognises and its own
      preference among them; lower is preferred when q-values tie. */
  const CodingPriorities: map<string, int> :=
    map["zstd" := 0, "gzip" := 1, "identity" := 998, "*" := 999]

  /** `SupportedEncoding`: the three answers negotiation can give. */
  datatype Encoding = Zstd | Gzip | Identity
  {
    /** The string the Python function returns for this answer: one of the
        table's names, never the wildcard. */
    function Name(): (r: string)
      ensures r in CodingPriorities && r != "*"
    {
      match this
      case Zstd => "zstd"
      case Gzip => "gzip"
      case Identity => "identity"
    }
  }

  /** One parsed header element: `(q, priority, name)`. */
  datatype Token = Token(q: real, priority: int, name: string)

  /** Python's `float(text)` restricted to finite results; `None` stands for
      the `ValueError` it raises on malformed text. */
  type FloatParser = string -> Option<real>

  /** What every token `parse_part` returns satisfies: a recognised name,
      the priority the table gives it, and a weight in (0, 1]. */
  predicate ValidToken(t: Token) {
    && t.name in CodingPriorities
    && t.priority == CodingPriorities[t.name]
    && 0.0 < t.q <= 1.0
  }

  predicate AllValid(s: seq<Token>) {
    forall i :: 0 <= i < |s| ==> ValidToken(s[i])
  }

  // ---------------------------------------------------------------------
  // parse_part

  /** The text after `q=` in the first parameter that, once stripped, starts
      with `q=`; later parameters are never looked at. */
  function QText(params: seq<string>): (r: Option<string>)
    ensures r.Some? <==> exists i :: 0 <= i < |params| && StartsWith(Strip(params[i]), "q=")
  {
    if params == [] then None
    else
      var param := Strip(params[0]);
      if StartsWith(param, "q=") then Some(param[2..]) else QText(params[1..])
  }

  /** The weight before the range checks: 1.0 when there is no `q=`
      parameter, 0.0 when its value is malformed. */
  function RawQ(params: seq<string>, parseQ: FloatParser): (r: real)
    ensures (forall i :: 0 <= i < |params| ==> !StartsWith(Strip(params[i]), "q=")) ==> r == 1.0
    ensures r <= 0.0 ==> QText(params).Some?
  {
    match QText(params)
    case None => 1.0
    case Some(text) =>
      match parseQ(text)
      case Some(v) => v
      case None => 0.0
  }

  /** The coding name of an element: its stripped first `;`-segment. It
      holds no `;` and neither starts nor ends with whitespace. */
  function CodingName(part: string): (r: string)
    ensures ';' !in r
    ensures r != [] ==> !IsSpace(r[0]) && !IsSpace(r[|r| - 1])
  {
    var first := Split(Strip(part), ';')[0];
    SplitPieces(Strip(part), ';');
    StripLeftSpec(first);
    StripRightSpec(StripLeft(first));
    StripSpec(first);
    Strip(first)
  }

  /** The parameters of an element: its `;`-segments after the first. None
      holds a `;`, and an element without `;` has none. */
  function Params(part: string): (r: seq<string>)
    ensures forall i :: 0 <= i < |r| ==> ';' !in r[i]
    ensures ';' !in Strip(part) ==> r == []
  {
    SplitPieces(Strip(part), ';');
    SplitNoSep(Strip(part), ';');
    Split(Strip(part), ';')[1..]
  }

  /** The token for an element already stripped and split on `;`: the
      stripped first segment names the coding, the other segments are its
      parameters. */
  function ComponentsToken(components: seq<string>, parseQ: FloatParser): (r: Option<Token>)
    requires |components| >= 1
    ensures r.Some? ==> ValidToken(r.value) && r.value.name == Strip(components[0])
  {
    var name := Strip(components[0]);
    if name !in CodingPriorities then None
    else
      var q := RawQ(components[1..], parseQ);
      if q <= 0.0 then None
      else Some(Token(if q > 1.0 then 1.0 else q, CodingPriorities[name], name))
  }

  /** The token `parse_part` returns for one element of the header. */
  function PartToken(part: string, parseQ: FloatParser): (r: Option<Token>)
    ensures r.Some? ==> ValidToken(r.value)
    ensures r.Some? ==> r.value.name == CodingName(part)
  {
    var p := Strip(part);
    if p == [] then None else ComponentsToken(Split(p, ';'), parseQ)
  }

  /** `parse_part`, with its scan over the parameters that stops at the
      first `q=`. */
  method ParsePart(part: string, parseQ: FloatParser) returns (r: Option<Token>)
    ensures r == PartToken(part, parseQ)
  {
    var p := Strip(part);
    if p == [] {
      return None;
    }
    var components := Split(p, ';');
    var codingName := Strip(components[0]);
    if codingName !in CodingPriorities {
      return None;
    }
    var priority := CodingPriorities[codingName];
    var q := 1.0;
    var i := 1;
    while i < |components|
      invariant 1 <= i <= |components|
      invariant QText(components[i..]) == QText(components[1..])
      invariant q == 1.0
    {
      var param := Strip(components[i]);
      if StartsWith(param, "q=") {
        q := match parseQ(param[2..]) case Some(v) => v case None => 0.0;
        break;
      }
      assert components[i..][1..] == components[i + 1..];
      i := i + 1;
    }
    assert i == |components| ==> components[i..] == [];
    assert q == RawQ(components[1..], parseQ);
    assert PartToken(part, parseQ) == ComponentsToken(components, parseQ) ==
      if q <= 0.0 then None else Some(Token(if q > 1.0 then 1.0 else q, priority, codingName));
    if q <= 0.0 {
      return None;
    }
    if q > 1.0 {
      q := 1.0;
    }
    return Some(Token(q, priority, codingName));
  }

  // ---------------------------------------------------------------------
  // get_preferred_encoding, step 1: the options list

  /** The `options` list after the parsing loop has seen `parts`: the tokens
      of the elements that parse, in header order. */
  function HeaderOptions(parts: seq<string>, parseQ: FloatParser): (r: seq<Token>)
    ensures AllValid(r)
    ensures |r| <= |parts|
  {
    if parts == [] then []
    else HeaderOptions(parts[..|parts| - 1], parseQ) + PartOptions(parts[|parts| - 1], parseQ)
  }

  /** The token of one element as a list of at most one option. */
  function PartOptions(part: string, parseQ: FloatParser): (r: seq<Token>)
    ensures AllValid(r) && |r| <= 1
  {
    var parsed := PartToken(part, parseQ);
    if parsed.Some? then
      assert ValidToken(parsed.value);
      [parsed.value]
    else []
  }

  // ---------------------------------------------------------------------
  // get_preferred_encoding, step 2: the sort by key (-q, priority)

  /** `t` sorts no later than `u` under the key `(-q, priority)`. */
  predicate KeyLe(t: Token, u: Token) {
    t.q > u.q || (t.q == u.q && t.priority <= u.priority)
  }

  predicate SortedByKey(s: seq<Token>) {
    forall i, j :: 0 <= i < j < |s| ==> KeyLe(s[i], s[j])
  }

  /** Inserts `t` before the first element it does not sort after. */
  function Insert(t: Token, s: seq<Token>): (r: seq<Token>)
    ensures multiset(r) == multiset(s) + multiset{t}
  {
    if s == [] || KeyLe(t, s[0]) then [t] + s
    else
      assert s == [s[0]] + s[1..];
      [s[0]] + Insert(t, s[1..])
  }

  /** Inserting into a sorted sequence keeps it sorted. */
  lemma {:induction false} InsertSorted(t: Token, s: seq<Token>)
    requires SortedByKey(s)
    ensures SortedByKey(Insert(t, s))
  {
    if s != [] && !KeyLe(t, s[0]) {
      var tail := s[1..];
      var rest := Insert(t, tail);
      assert SortedByKey(tail) by {
        forall i, j | 0 <= i < j < |tail| ensures KeyLe(tail[i], tail[j]) {
          assert tail[i] == s[i + 1] && tail[j] == s[j + 1];
        }
      }
      InsertSorted(t, tail);
      forall k | 0 <= k < |rest| ensures KeyLe(s[0], rest[k]) {
        assert rest[k] in multiset(rest);
        if rest[k] != t {
          assert rest[k] in multiset(tail);
          var m :| 0 <= m < |tail| && tail[m] == rest[k];
          assert tail[m] == s[m + 1];
        }
      }
      var r := [s[0]] + rest;
      forall i, j | 0 <= i < j < |r| ensures KeyLe(r[i], r[j]) {
        if i > 0 {
          assert r[i] == rest[i - 1] && r[j] == rest[j - 1];
        } else {
          assert r[j] == rest[j - 1];
        }
      }
    }
  }

  /** The options in sorted order: a permutation of `s` ordered by
      descending q and, on equal q, ascending priority. */
  function SortByKey(s: seq<Token>): (r: seq<Token>)
    ensures SortedByKey(r)
    ensures multiset(r) == multiset(s)
  {
    if s == [] then []
    else
      assert s == [s[0]] + s[1..];
      var rest := SortByKey(s[1..]);
      InsertSorted(s[0], rest);
      Insert(s[0], rest)
  }

  /** The table has exactly four entries. */
  lemma CodingTable(name: string)
    ensures name in CodingPriorities <==> name == "zstd" || name == "gzip" || name == "identity" || name == "*"
    ensures name == "zstd" ==> CodingPriorities[name] == 0
    ensures name == "gzip" ==> CodingPriorities[name] == 1
    ensures name == "identity" ==> CodingPriorities[name] == 998
    ensures name == "*" ==> CodingPriorities[name] == 999
  {
  }

  /** Valid tokens with the same sort key are the same token: the table
      gives each name its own priority. */
  lemma KeyLeAntisymmetric(t: Token, u: Token)
    requires ValidToken(t) && ValidToken(u)
    requires KeyLe(t, u) && KeyLe(u, t)
    ensures t == u
  {
    assert t.name in {"zstd", "gzip", "identity", "*"};
    assert u.name in {"zstd", "gzip", "identity", "*"};
  }

  /** Two sorted arrangements of the same valid tokens are identical, so
      whether the sort is stable cannot change the outcome. */
  lemma {:induction false} SortedUnique(x: seq<Token>, y: seq<Token>)
    requires SortedByKey(x) && SortedByKey(y)
    requires multiset(x) == multiset(y)
    requires AllValid(x)
    ensures x == y
  {
    if x == [] {
      assert |y| == |multiset(y)| == 0;
    } else {
      assert |y| == |multiset(y)| == |x|;
      SortedHeadLeast(y, x[0]);
      SortedHeadLeast(x, y[0]);
      assert ValidToken(y[0]) by {
        var j :| 0 <= j < |x| && x[j] == y[0];
      }
      KeyLeAntisymmetric(x[0], y[0]);
      MultisetTail(x);
      MultisetTail(y);
      SortedTail(x);
      SortedTail(y);
      SortedUnique(x[1..], y[1..]);
    }
  }

  /** A member of a sequence of valid tokens is valid. */
  lemma ValidMember(s: seq<Token>, t: Token)
    requires AllValid(s) && t in multiset(s)
    ensures ValidToken(t)
  {
    var i :| 0 <= i < |s| && s[i] == t;
  }

  /** Rearranging valid tokens keeps them valid. */
  lemma AllValidPermutation(x: seq<Token>, y: seq<Token>)
    requires AllValid(x) && multiset(x) == multiset(y)
    ensures AllValid(y)
  {
    forall i | 0 <= i < |y|
      ensures ValidToken(y[i])
    {
      assert y[i] in multiset(y);
      ValidMember(x, y[i]);
    }
  }

  /** The first element of a sorted sequence sorts no later than any
      element of it. */
  lemma SortedHeadLeast(s: seq<Token>, e: Token)
    requires SortedByKey(s) && e in multiset(s)
    ensures s != [] && KeyLe(s[0], e)
  {
    var i :| 0 <= i < |s| && s[i] == e;
    if i > 0 {
      assert KeyLe(s[0], s[i]);
    }
  }

  lemma MultisetTail(s: seq<Token>)
    requires s != []
    ensures multiset(s[1..]) == multiset(s) - multiset{s[0]}
  {
    assert s == [s[0]] + s[1..];
  }

  lemma SortedTail(s: seq<Token>)
    requires SortedByKey(s) && s != []
    ensures SortedByKey(s[1..])
  {
    forall i, j | 0 <= i < j < |s| - 1 ensures KeyLe(s[1..][i], s[1..][j]) {
      assert s[1..][i] == s[i + 1] && s[1..][j] == s[j + 1];
    }
  }

  method Swap(a: array<Token>, i: int, j: int)
    requires 0 <= i < a.Length && 0 <= j < a.Length
    modifies a
    ensures a[i] == old(a[j]) && a[j] == old(a[i])
    ensures forall k :: 0 <= k < a.Length && k != i && k != j ==> a[k] == old(a[k])
    ensures multiset(a[..]) == multiset(old(a[..]))
  {
    a[i], a[j] := a[j], a[i];
  }

  /** One insertion step: `a[i]` sinks into the sorted prefix `a[..i]`.
      Afterwards `a[..i + 1]` is sorted and holds the tokens it held before,
      and the rest of the array is untouched. */
  method SinkInto(a: array<Token>, i: int)
    requires 0 <= i < a.Length && SortedByKey(a[..i])
    modifies a
    ensures SortedByKey(a[..i + 1])
    ensures multiset(a[..i + 1]) == multiset(old(a[..i + 1]))
    ensures a[i + 1..] == old(a[i + 1..])
    ensures multiset(a[..]) == multiset(old(a[..]))
  {
    var j := i;
    while j > 0 && !KeyLe(a[j - 1], a[j])
      invariant 0 <= j <= i
      invariant multiset(a[..]) == multiset(old(a[..]))
      invariant a[i + 1..] == old(a[i + 1..])
      invariant forall p, q :: 0 <= p < q <= i && p != j && q != j ==> KeyLe(a[p], a[q])
      invariant forall q :: j < q <= i ==> KeyLe(a[j], a[q])
    {
      Swap(a, j - 1, j);
      j := j - 1;
    }
    SunkSorted(a[..], i, j);
    PrefixPermutation(a[..], old(a[..]), i + 1);
  }

  /** Once the sinking token at `j` sorts no earlier than its left
      neighbour, the whole prefix up to `i` is sorted. */
  lemma SunkSorted(s: seq<Token>, i: int, j: int)
    requires 0 <= j <= i < |s|
    requires forall p, q :: 0 <= p < q <= i && p != j && q != j ==> KeyLe(s[p], s[q])
    requires forall q :: j < q <= i ==> KeyLe(s[j], s[q])
    requires j == 0 || KeyLe(s[j - 1], s[j])
    ensures SortedByKey(s[..i + 1])
  {
    forall p, q | 0 <= p < q <= i ensures KeyLe(s[p], s[q]) {
      if q == j && p < j - 1 {
        assert KeyLe(s[p], s[j - 1]);
      }
    }
  }

  /** Two permutations of each other that agree from `n` on are
      permutations of each other before `n`. */
  lemma PrefixPermutation(x: seq<Token>, y: seq<Token>, n: nat)
    requires n <= |x| == |y| && multiset(x) == multiset(y) && x[n..] == y[n..]
    ensures multiset(x[..n]) == multiset(y[..n])
  {
    assert x == x[..n] + x[n..];
    assert y == y[..n] + y[n..];
    assert multiset(x[..n]) == multiset(x) - multiset(x[n..]);
    assert multiset(y[..n]) == multiset(y) - multiset(y[n..]);
  }

  /** `options.sort(key=lambda p: (-p[0], p[1]))`, as an insertion sort in
      place: afterwards the array is sorted by key and holds the same tokens,
      and for parsed tokens it is exactly `SortByKey` of what it held. */
  method SortOptions(a: array<Token>)
    modifies a
    ensures SortedByKey(a[..])
    ensures multiset(a[..]) == multiset(old(a[..]))
    ensures AllValid(old(a[..])) ==> a[..] == SortByKey(old(a[..]))
  {
    var i := 0;
    while i < a.Length
      invariant 0 <= i <= a.Length
      invariant SortedByKey(a[..i])
      invariant multiset(a[..]) == multiset(old(a[..]))
    {
      SinkInto(a, i);
      i := i + 1;
    }
    assert a[..a.Length] == a[..];
    if AllValid(old(a[..])) {
      AllValidPermutation(old(a[..]), a[..]);
      SortedUnique(a[..], SortByKey(old(a[..])));
    }
  }

  // ---------------------------------------------------------------------
  // get_preferred_encoding, step 3: the scan

  /** What a wildcard element answers: the header with its spaces removed is
      searched for the literal texts `zstd;q=0` and `gzip;q=0`. */
  function WildcardChoice(acceptEncoding: string, gzipFallback: bool): (e: Encoding)
    ensures e == Gzip ==> gzipFallback
  {
    var compact := RemoveSpaces(acceptEncoding);
    if !Contains(compact, "zstd;q=0") then Zstd
    else if gzipFallback && !Contains(compact, "gzip;q=0") then Gzip
    else Identity
  }

  /** What the scan does on reaching an element named `name`: answer, or
      (`None`) move on to the next element. */
  function Decide(name: string, acceptEncoding: string, gzipFallback: bool): (r: Option<Encoding>)
    ensures r.Some? ==> name in CodingPriorities
    ensures name in CodingPriorities && name != "gzip" ==> r.Some?
    ensures r == Some(Gzip) ==> gzipFallback
  {
    if name == "zstd" then Some(Zstd)
    else if name == "gzip" && gzipFallback then Some(Gzip)
    else if name == "identity" then Some(Identity)
    else if name == "*" then Some(WildcardChoice(acceptEncoding, gzipFallback))
    else None
  }

  /** The answer of the scan over `options`; `identity` once they run out.
      Without the gzip fallback it never answers gzip. */
  function Select(options: seq<Token>, acceptEncoding: string, gzipFallback: bool): (e: Encoding)
    ensures !gzipFallback ==> e != Gzip
  {
    if options == [] then Identity
    else
      match Decide(options[0].name, acceptEncoding, gzipFallback)
      case Some(e) => e
      case None => Select(options[1..], acceptEncoding, gzipFallback)
  }

  /** The answer of `get_preferred_encoding(acceptEncoding, gzipFallback)`. */
  function Preferred(acceptEncoding: string, gzipFallback: bool, parseQ: FloatParser): (e: Encoding)
    ensures !gzipFallback ==> e != Gzip
  {
    Select(SortByKey(HeaderOptions(Split(acceptEncoding, ','), parseQ)), acceptEncoding, gzipFallback)
  }

  /** Step 1 of `get_preferred_encoding`: split the header on `,` and
      append the token of every element that parses. */
  method CollectOptions(acceptEncoding: string, parseQ: FloatParser) returns (options: seq<Token>)
    ensures options == HeaderOptions(Split(acceptEncoding, ','), parseQ)
  {
    var parts := Split(acceptEncoding, ',');
    options := [];
    for k := 0 to |parts|
      invariant options == HeaderOptions(parts[..k], parseQ)
    {
      var parsed := ParsePart(parts[k], parseQ);
      HeaderOptionsPrefix(parts, k, parseQ);
      if parsed.Some? {
        options := options + [parsed.value];
      }
    }
    assert parts[..|parts|] == parts;
  }

  /** The options of the first `k + 1` elements extend those of the first
      `k` by the token of element `k`, if any. */
  lemma HeaderOptionsPrefix(parts: seq<string>, k: nat, parseQ: FloatParser)
    requires k < |parts|
    ensures HeaderOptions(parts[..k + 1], parseQ) == HeaderOptions(parts[..k], parseQ) + PartOptions(parts[k], parseQ)
  {
    assert parts[..k + 1][..k] == parts[..k];
  }

  /** Step 3 of `get_preferred_encoding`: walk the sorted options and
      return at the first element that decides. */
  method ScanOptions(sorted: array<Token>, acceptEncoding: string, gzipFallback: bool)
    returns (e: Encoding)
    ensures e == Select(sorted[..], acceptEncoding, gzipFallback)
  {
    for k := 0 to sorted.Length
      invariant Select(sorted[k..], acceptEncoding, gzipFallback) == Select(sorted[..], acceptEncoding, gzipFallback)
    {
      var name := sorted[k].name;
      assert sorted[k..][1..] == sorted[k + 1..];
      if name == "zstd" {
        return Zstd;
      }
      if name == "gzip" {
        if gzipFallback {
          return Gzip;
        }
      }
      if name == "identity" {
        return Identity;
      }
      if name == "*" {
        if !Contains(RemoveSpaces(acceptEncoding), "zstd;q=0") {
          return Zstd;
        }
        if gzipFallback && !Contains(RemoveSpaces(acceptEncoding), "gzip;q=0") {
          return Gzip;
        }
        return Identity;
      }
    }
    assert sorted[sorted.Length..] == [];
    return Identity;
  }

  /** `get_preferred_encoding` without its cache: collect the options, sort
      them in place, scan them. */
  method GetPreferredEncoding(acceptEncoding: string, gzipFallback: bool, parseQ: FloatParser)
    returns (e: Encoding)
    ensures e == Preferred(acceptEncoding, gzipFallback, parseQ)
  {
    var options := CollectOptions(acceptEncoding, parseQ);
    var sorted := ToArray(options);
    SortOptions(sorted);
    assert sorted[..] == SortByKey(options);
    e := ScanOptions(sorted, acceptEncoding, gzipFallback);
  }

  /** A fresh array holding `s`, for the in-place sort. */
  method ToArray(s: seq<Token>) returns (a: array<Token>)
    ensures fresh(a) && a[..] == s
  {
    a := new Token[|s|](i requires 0 <= i < |s| => s[i]);
    assert forall i :: 0 <= i < |s| ==> a[i] == s[i];
  }
}
