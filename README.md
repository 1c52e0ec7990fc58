# zstd-asgi: `Accept-Encoding` negotiation in Dafny

This project models the content-coding negotiator of `zstd_asgi/headers.py`
and proves what it promises. The negotiator has two parts:

- `parse_part` turns one comma-separated element of an `Accept-Encoding`
  header, such as `gzip;q=0.8`, into a token `(q, priority, name)` or into
  nothing. Only the four names of `CODING_PRIORITIES` are recognised
  (`zstd`, `gzip`, `identity`, `*`). The weight defaults to 1, is clamped
  to at most 1, and an element whose weight is at most 0 or malformed is
  dropped.
- `get_preferred_encoding(accept_encoding, gzip_fallback)` splits the
  header on `,` and collects the tokens. It sorts them by descending q and
  then ascending priority, and scans them:
  - `zstd` answers zstd;
  - `gzip` answers gzip only with the fallback on;
  - `identity` answers identity;
  - `*` answers by substring tests on the header with its spaces removed.

  When the scan finds nothing, the answer is identity. The function is
  memoised by `@lru_cache(maxsize=128)`.

Modules:

- `Wrappers` holds `Option`.
- `PyStr` holds the Python `str` operations the code uses: `strip()`,
  `split(sep)`, `startswith`, `replace(" ", "")` and `sub in s`. Each is a
  pure function, with lemmas that characterise it.
- `Headers` holds the model proper.
  - The priority table and the token.
  - `PartToken`, a pure specification of `parse_part`, and the method
    `ParsePart`, which keeps the source's loop over the parameters with its
    early `break`.
  - `Preferred`, a pure specification of `get_preferred_encoding`.
  - The method `GetPreferredEncoding`, which keeps the source's three steps
    as methods: the append loop `CollectOptions`, the in-place sort
    `SortOptions` on an array, and the scan `ScanOptions` with its early
    returns. Each is proved equal to its specification.
- `HeaderProperties` holds the promises of both functions, proved about
  the pure specifications.
- `WildcardProperties` reads the wildcard's substring tests element by
  element. It shows which bans in a header the tests honour, which they
  invent and which they miss. It proves that the order of a header's
  elements never changes the answer, whatever whitespace surrounds each
  element.
- `Examples` holds the parametrised negotiation table of the project's
  tests, one lemma per row, plus the wildcard quirk on a header of its own.
- `Cache` holds the memo: the class `PreferenceCache`, a table with least
  recently used eviction, whose invariant is that every cached answer is
  the uncached one.

Python's `float()` is not modelled. It is the parameter
`parseQ: string -> Option<real>`, where `None` stands for `ValueError`.
The general theorems hold for every such reader. The examples of the
test table assume only that the reader reads the table's decimal literals
(`ReadsDecimals`). The witnesses of the wildcard's quirks state in their
own preconditions what they need of the reader, such as `parseQ("0")`
being 0.

## Model

| member | source | states |
|---|---|---|
| Headers.CodingTable | zstd_asgi/headers.py:10-15 | A name is in the table exactly when it is `zstd`, `gzip`, `identity` or `*`, with priorities 0, 1, 998 and 999 |
| Headers.ComponentsToken | zstd_asgi/headers.py:31-56 | A token built from an element's `;`-components is valid (name in the table, its table priority, 0 < q <= 1) and is named by the stripped first component |
| Headers.PartToken | zstd_asgi/headers.py:21-56 | Every token `parse_part` returns is valid and carries the element's coding name |
| Headers.ParsePart | zstd_asgi/headers.py:21-56 | The loop over the parameters, which stops at the first `q=`, returns exactly `PartToken` |
| Headers.Encoding.Name | zstd_asgi/headers.py:17-18 | Every answer is returned as one of the table's names other than `*`, that is `zstd`, `gzip` or `identity` |
| Headers.CodingName | zstd_asgi/headers.py:30-31 | The coding name holds no `;` and neither starts nor ends with whitespace |
| Headers.Params | zstd_asgi/headers.py:30-41 | No parameter holds a `;`, and an element without `;` has no parameters |
| Headers.QText | zstd_asgi/headers.py:41-48 | A weight text is read exactly when some parameter, stripped, starts with `q=` |
| Headers.RawQ | zstd_asgi/headers.py:38-48 | Without a `q=` parameter the weight is 1.0; a weight of at most 0 can only come from a `q=` parameter |
| Headers.HeaderOptions | zstd_asgi/headers.py:70-76 | The collected options are all valid, at most one per element |
| Headers.PartOptions | zstd_asgi/headers.py:74-76 | One element contributes at most one valid option |
| Headers.CollectOptions | zstd_asgi/headers.py:70-76 | The append loop over the split header yields exactly `HeaderOptions` of the split |
| Headers.Insert | zstd_asgi/headers.py:79 | Inserting a token adds exactly that token to the multiset |
| Headers.InsertSorted | zstd_asgi/headers.py:79 | Inserting into a list sorted by (descending q, ascending priority) keeps it sorted |
| Headers.SortByKey | zstd_asgi/headers.py:79 | The sort key's order holds and the result is a permutation of the input |
| Headers.SinkInto | zstd_asgi/headers.py:79 | One insertion step leaves the prefix one longer, sorted and holding the tokens it held before, and the rest of the array untouched |
| Headers.SortOptions | zstd_asgi/headers.py:79 | The in-place sort of the options array leaves it sorted, a permutation of the input, and, for valid tokens, equal to `SortByKey` |
| Headers.KeyLeAntisymmetric | zstd_asgi/headers.py:10-15 | Two valid tokens with equal (q, priority) are equal, because the priorities are one per name |
| Headers.SortedUnique | zstd_asgi/headers.py:79 | Valid tokens have only one sorted order, so the stability of `list.sort` cannot change the result |
| Headers.WildcardChoice | zstd_asgi/headers.py:99-106 | The wildcard answers gzip only with the fallback on |
| Headers.Decide | zstd_asgi/headers.py:83-106 | An element decides only when its name is in the table; every recognised name but `gzip` decides; gzip is answered only with the fallback on |
| Headers.Select | zstd_asgi/headers.py:82-111 | Without the gzip fallback the scan never answers gzip |
| Headers.ScanOptions | zstd_asgi/headers.py:82-111 | The scan loop with its early returns answers exactly `Select` over the sorted array |
| Headers.Preferred | zstd_asgi/headers.py:59-111 | Without the gzip fallback the negotiated encoding is never gzip |
| Headers.GetPreferredEncoding | zstd_asgi/headers.py:59-111 | Collecting, sorting in place and scanning answers exactly `Preferred` |
| HeaderProperties.BlankPartDropped | zstd_asgi/headers.py:26-28 | An empty or all-whitespace element yields no token |
| HeaderProperties.UnknownNameDropped | zstd_asgi/headers.py:30-35 | A coding name other than exactly `zstd`, `gzip`, `identity` or `*` (such as `br` or `GZIP`) yields no token |
| HeaderProperties.TokenPriority | zstd_asgi/headers.py:33-37 | Every token carries one of the four names with that name's priority |
| HeaderProperties.QTextFirst | zstd_asgi/headers.py:41-48 | The first parameter starting with `q=` supplies the weight text, whatever follows it |
| HeaderProperties.DefaultWeight | zstd_asgi/headers.py:37-56 | A recognised element without a `q=` parameter has weight 1.0 |
| HeaderProperties.FirstWeight | zstd_asgi/headers.py:41-56 | A recognised element with a first `q=` parameter: malformed or at most 0 gives no token, a value in (0, 1] gives that weight, a value above 1 is clamped to 1.0 |
| HeaderProperties.SameStrippedSameToken | zstd_asgi/headers.py:26-31 | Elements that strip to the same text parse alike |
| HeaderProperties.PaddedPart | zstd_asgi/headers.py:26 | Whitespace around an element does not change its token |
| HeaderProperties.PaddedParam | zstd_asgi/headers.py:41-43 | In the one-parameter element `name;<pad>param`, whitespace `pad` before the parameter, which `param.strip()` removes, does not change the token |
| HeaderProperties.WeightParam | zstd_asgi/headers.py:42-45 | `q=text` is recognised as a weight parameter and its text is `text` |
| HeaderProperties.TwoComponents | zstd_asgi/headers.py:26-31 | `name;param` splits into its name and its one parameter |
| HeaderProperties.WeightedPart | zstd_asgi/headers.py:30-56 | The element `name;q=text`: no token for an unknown name or for a malformed weight or one of at most 0; otherwise the weight, clamped to 1 |
| HeaderProperties.BarePart | zstd_asgi/headers.py:30-38 | A bare name yields weight 1.0 when recognised and nothing otherwise |
| HeaderProperties.SameQSameToken | zstd_asgi/headers.py:37-56 | Only the name and the first `q=` text decide the token |
| HeaderProperties.FirstQOnly | zstd_asgi/headers.py:41-48 | Parameters after a leading `q=` parameter, a second `q=` included, do not change the token |
| HeaderProperties.LeadingWeight | zstd_asgi/headers.py:41-48 | A leading `q=` parameter hides the ones after it |
| HeaderProperties.SelectFirstDecisive | zstd_asgi/headers.py:82-106 | The scan answers with the first option that decides (zstd, identity, the wildcard, or gzip with the fallback on) |
| HeaderProperties.SelectNoneDecisive | zstd_asgi/headers.py:108-111 | When no option decides, the scan answers identity |
| HeaderProperties.PreferredFirstDecisive | zstd_asgi/headers.py:79-106 | The answer is that of the first deciding option in (descending q, ascending priority) order |
| HeaderProperties.PreferredNoneDecisive | zstd_asgi/headers.py:108-111 | With no deciding option the answer is identity |
| HeaderProperties.NoOptionsIdentity | zstd_asgi/headers.py:70-111 | When no element parses to a token the answer is identity |
| HeaderProperties.EmptyHeaderIdentity | zstd_asgi/headers.py:73-111 | The empty header negotiates identity |
| HeaderProperties.BestOptionDecides | zstd_asgi/headers.py:79-92 | A deciding option that sorts no later than every other option is the answer |
| HeaderProperties.ZstdWinsTies | zstd_asgi/headers.py:79-84 | zstd offered at the highest q wins, whatever else is offered at that q and wherever it stands |
| HeaderProperties.OrderIrrelevant | zstd_asgi/headers.py:79 | Headers with the same tokens and the same wildcard answer negotiate the same encoding |
| HeaderProperties.SelectWildcardOnly | zstd_asgi/headers.py:94-106 | The scan reads the header text only through the wildcard's answer |
| HeaderProperties.HeaderOptionsAppend | zstd_asgi/headers.py:73-76 | Each element is parsed on its own: the options of concatenated element lists are concatenated |
| WildcardProperties.JoinedContains | zstd_asgi/headers.py:99 | Spaces removed, comma-joined elements contain a comma-free text exactly when one of the elements does |
| WildcardProperties.WildcardByElements | zstd_asgi/headers.py:99-106 | The wildcard answers zstd unless some element, spaces removed, contains `zstd;q=0`; else gzip when the fallback is on and no element contains `gzip;q=0`; else identity |
| WildcardProperties.ZstdBanHonoured | zstd_asgi/headers.py:95-100 | An element that reads `zstd;q=0` once its spaces are removed keeps the wildcard from answering zstd |
| WildcardProperties.GzipBanHonoured | zstd_asgi/headers.py:95-103 | An element that reads `gzip;q=0` once its spaces are removed keeps the wildcard from answering gzip |
| WildcardProperties.InventedZstdBan | zstd_asgi/headers.py:41-100 | In any header, an element that strips to `zstd;q=0.<digits>` and whose weight reads in (0, 1] yields a kept zstd token, yet the wildcard never answers zstd |
| WildcardProperties.MissedZstdBan | zstd_asgi/headers.py:45-100 | `zstd;q=<t>, *` with `t` malformed or at most 0, non-empty, not starting with `0`, and free of whitespace, `;` and `,`, drops its zstd element, yet negotiates zstd |
| WildcardProperties.PaddedBanMissed | zstd_asgi/headers.py:42-100 | `zstd;<pad>q=0, *` with `pad` whitespace other than spaces drops its zstd element, yet negotiates zstd |
| WildcardProperties.TabBanMissed | zstd_asgi/headers.py:42-100 | `zstd;\tq=0, *` drops its zstd element, yet negotiates zstd |
| WildcardProperties.IdentityBanAnswered | zstd_asgi/headers.py:50-111 | `identity;q=0` forbids identity and yields no token, yet negotiates identity |
| WildcardProperties.OnlyWildcard | zstd_asgi/headers.py:94-106 | A header whose only option is the wildcard, at any weight, gets the wildcard's answer |
| WildcardProperties.OnlyDropped | zstd_asgi/headers.py:73-111 | A one-element header whose element yields no token negotiates identity |
| WildcardProperties.OptionsAround | zstd_asgi/headers.py:73-76 | The options of `a + [x] + b` are those of `a`, then of `x`, then of `b` |
| WildcardProperties.OptionsPermutation | zstd_asgi/headers.py:73-76 | Reordering the elements reorders the collected options and changes nothing else |
| WildcardProperties.ElementContainsPermutation | zstd_asgi/headers.py:99-102 | Whether some element contains a text does not depend on the elements' order |
| WildcardProperties.StripAround | zstd_asgi/headers.py:26 | Every text is its stripped text between two runs of whitespace |
| WildcardProperties.StripIdempotent | zstd_asgi/headers.py:26-31 | Stripping a stripped text changes nothing |
| WildcardProperties.RemoveSpacesAllSpace | zstd_asgi/headers.py:99 | Removing spaces from whitespace leaves only whitespace |
| WildcardProperties.ContainsPadded | zstd_asgi/headers.py:99 | A text without whitespace occurs in a whitespace-padded text exactly when it occurs in the unpadded one |
| WildcardProperties.ElementStripped | zstd_asgi/headers.py:99 | Spaces removed, an element contains a text without whitespace, such as `zstd;q=0`, exactly when its stripped text does |
| WildcardProperties.ElementContainsStripped | zstd_asgi/headers.py:99-102 | Whether some element contains a text without whitespace, such as `zstd;q=0` or `gzip;q=0`, does not change when every element is stripped |
| WildcardProperties.OptionsStripped | zstd_asgi/headers.py:26-76 | Stripping every element first collects exactly the same options |
| WildcardProperties.PermutedElements | zstd_asgi/headers.py:70-111 | Any two headers whose `,`-elements, once stripped, are the same up to order negotiate the same encoding |
| PyStr.StripLeftSpec | zstd_asgi/headers.py:26 | `lstrip` removes a whitespace prefix, all of it, and nothing else |
| PyStr.StripRightSpec | zstd_asgi/headers.py:26 | `rstrip` removes a whitespace suffix, all of it, and nothing else |
| PyStr.StripSpec | zstd_asgi/headers.py:26-27 | `strip()` is empty exactly for all-whitespace text and otherwise neither starts nor ends with whitespace |
| PyStr.StripTrimmed | zstd_asgi/headers.py:31 | `strip()` leaves text without surrounding whitespace unchanged |
| PyStr.StripPadded | zstd_asgi/headers.py:26 | `strip()` removes whitespace padding and nothing more |
| PyStr.SplitPieces | zstd_asgi/headers.py:30 | No piece of `split(sep)` holds the separator, and joining the pieces gives back the text |
| PyStr.SplitJoin | zstd_asgi/headers.py:73 | Splitting inverts joining separator-free pieces |
| PyStr.SplitNoSep | zstd_asgi/headers.py:30 | Text without the separator splits into itself |
| PyStr.SplitPrefix | zstd_asgi/headers.py:30 | Splitting `head + sep + tail` gives `head` followed by the pieces of `tail` |
| PyStr.RemoveSpaces | zstd_asgi/headers.py:99 | `replace(" ", "")` leaves no space and never lengthens the text |
| PyStr.RemoveSpacesAppend | zstd_asgi/headers.py:99 | Removing spaces works piece by piece |
| PyStr.RemoveSpacesNoSpace | zstd_asgi/headers.py:99 | Text without spaces is left unchanged |
| PyStr.ContainsAt | zstd_asgi/headers.py:99 | `sub in s` holds exactly when `sub` occurs at some offset of `s` |
| PyStr.ContainsFits | zstd_asgi/headers.py:99 | A contained text is no longer than its container |
| PyStr.ContainsAcrossSeparator | zstd_asgi/headers.py:99-102 | A separator-free text occurs in `a,b` exactly when it occurs in `a` or in `b` |
| Cache.Remove | zstd_asgi/headers.py:59 | Dropping a key from the recency list keeps every other key |
| Cache.RemoveDistinct | zstd_asgi/headers.py:59 | Dropping a key from a repeat-free list keeps it repeat-free, one shorter when the key was there |
| Cache.Touched | zstd_asgi/headers.py:59 | A hit that moves its key to the most recent end keeps the list tracking the table |
| Cache.Added | zstd_asgi/headers.py:59 | A miss with room appends the key and keeps the list tracking the table |
| Cache.Evicted | zstd_asgi/headers.py:59 | A miss on a full table drops the least recently used key, appends the new one and keeps the list tracking the table |
| Cache.MissTracks | zstd_asgi/headers.py:59 | A miss keeps the recency list tracking the table, at most 128 keys |
| Cache.MissEffect | zstd_asgi/headers.py:59 | After a miss the new key holds the answer and is the most recently used; the oldest key survives exactly when there was room; every other entry is unchanged |
| Cache.AnswersStored | zstd_asgi/headers.py:59 | Storing the negotiated answer, after any eviction, keeps every cached answer right |
| Cache.MissAnswers | zstd_asgi/headers.py:59 | A miss keeps every cached answer equal to the uncached one |
| Cache.HitKeeps | zstd_asgi/headers.py:59 | A hit keeps the invariant, and the cached answer is the negotiated one |
| Cache.MissKeeps | zstd_asgi/headers.py:59 | A miss that stores the negotiated answer keeps the invariant |
| Cache.PreferenceCache.constructor | zstd_asgi/headers.py:59 | The cache starts empty and valid |
| Cache.PreferenceCache.Get | zstd_asgi/headers.py:59-63 | The cached call always answers what the uncached negotiation answers: on a hit from the table, the key made most recent; on a miss after computing it, evicting the least recently used key when 128 are held |
| Cache.PreferenceCache.Touch | zstd_asgi/headers.py:59 | A hit answers the cached value, which is the negotiated one, and makes the key most recent |
| Cache.PreferenceCache.Store | zstd_asgi/headers.py:59 | A miss stores the negotiated answer as `Miss` describes and keeps the invariant |
| Examples.ZstdHigherQ | tests.py:223 | `zstd;q=1.0, gzip;q=0.5` with the fallback on negotiates zstd |
| Examples.GzipHigherQ | tests.py:226 | `zstd;q=0.5, gzip;q=1.0` with the fallback on negotiates gzip |
| Examples.EqualQZstdFirst | tests.py:229 | `zstd;q=0.8, gzip;q=0.8` negotiates zstd |
| Examples.EqualQGzipFirst | tests.py:230 | `gzip;q=0.8, zstd;q=0.8` negotiates zstd |
| Examples.UnsupportedSkipped | tests.py:233 | `br;q=1.0, zstd;q=0.9, gzip;q=0.8` negotiates zstd |
| Examples.ZstdForbidden | tests.py:236 | `zstd;q=0, gzip;q=1.0` with the fallback on negotiates gzip |
| Examples.BothForbidden | tests.py:239 | `zstd;q=0, gzip;q=0` negotiates identity |
| Examples.WildcardZstd | tests.py:242 | `br;q=1.0, *;q=0.5` negotiates zstd |
| Examples.WildcardZstdForbidden | tests.py:245 | `zstd;q=0, *;q=0.5` with the fallback on negotiates gzip |
| Examples.IdentityPreferred | tests.py:248 | `zstd;q=0.1, identity;q=0.5` negotiates identity |
| Examples.IdentityForbidden | tests.py:251 | `identity;q=0, zstd;q=0.5` negotiates zstd |
| Examples.NoFallbackZstd | tests.py:256 | `zstd;q=0.5, gzip;q=1.0` with the fallback off negotiates zstd |
| Examples.NoFallbackIdentity | tests.py:259 | `zstd;q=0, gzip;q=1.0` with the fallback off negotiates identity |
| Examples.OnlyGzipNoFallback | tests.py:262 | `gzip;q=1.0` with the fallback off negotiates identity |
| Examples.EqualQSameElements | tests.py:229-230 | Stripped, the elements of `zstd;q=0.8, gzip;q=0.8` and `gzip;q=0.8, zstd;q=0.8` are the same up to order |
| Examples.EqualQSwapped | tests.py:229-230 | `zstd;q=0.8, gzip;q=0.8` and `gzip;q=0.8, zstd;q=0.8` negotiate alike for every float reader and either flag |
| Examples.WildcardSubstringQuirk | zstd_asgi/headers.py:99-103 | `zstd;q=0.5, *;q=0.6` with the fallback on negotiates gzip, because the compacted header contains `zstd;q=0` |

## Left out

- The `ZstdMiddleware` response interceptor is not part of this model: its
  ASGI plumbing, buffering, size threshold, excluded handlers and header
  rewriting are not in `zstd_asgi/headers.py`.
- The default negotiation mode (`respect_q_factors=False`) lives in the
  middleware and is not part of this model.
- The zstd and gzip codecs are foreign libraries and are not modelled.
- Python's `float()` is the parameter `parseQ`. Exponents, underscores,
  `inf` and `nan` are therefore not modelled. A `nan` would pass both
  range checks of `zstd_asgi/headers.py:50-54` and break the sort, and
  real numbers have no such value. Weights are exact reals rather than
  binary floats. For the table's literals the order is the same.
- `ReadsDecimals` assumes the exact decimal values of the table's
  literals, where `float` gives the nearest binary doubles; the order
  among those literals is the same either way.
- Headers.SortOptions: `list.sort` is Timsort. The model sorts by
  insertion, so it equals `SortByKey` only for valid tokens, which are the
  only ones `CollectOptions` produces. Because the sorted order of valid
  tokens is unique (`SortedUnique`), any correct sort gives the same list.
- Cache.PreferenceCache.Get: `functools.lru_cache` is modelled only as a
  least-recently-used table of 128 entries. The following are not
  modelled:
  - its locking and thread safety;
  - `cache_info`, `cache_clear` and the hit/miss counters;
  - hashing of the key, where Python treats `True` and `1` alike.
  The float reader is fixed per cache, as `float` is in the program.
- Headers.WildcardChoice: follows the substring tests of
  `zstd_asgi/headers.py:99-103` as written, not the promise of the comment
  at lines 95-97 that explicitly forbidden encodings are avoided. The tests
  and the parsed weights disagree in both directions, and
  `WildcardProperties` proves each case:
  - a ban is invented: `zstd;q=0.5, *;q=0.6` keeps a zstd token at 0.5,
    yet the wildcard refuses zstd (`InventedZstdBan`,
    `Examples.WildcardSubstringQuirk`);
  - a ban is missed: `zstd;q=x, *`, `zstd;q=-1, *` and `zstd;\tq=0, *` all
    forbid zstd (line 47 calls a malformed weight "not acceptable"), yet
    negotiate zstd (`MissedZstdBan`, `PaddedBanMissed`, `TabBanMissed`);
  - `identity;q=0` forbids identity, yet negotiates identity, since the
    fallback at lines 108-111 ignores bans (`IdentityBanAnswered`).
  The model keeps the program's behaviour and states no corrected rule.
- `str.isspace` is written out as a fixed set of code points. Unicode
  tables beyond that set are not consulted.
