/** The `@lru_cache(maxsize=128)` memo in front of
    `get_preferred_encoding`: at most 128 answers keyed by the call's
    arguments, the least recently used one evicted to make room. */
module Cache {
  import opened Headers

  /** The arguments of a call: the header and the gzip fallback flag. */
  type Key = (string, bool)

  const MaxSize: nat := 128

  predicate Distinct(s: seq<Key>) {
    forall i, j :: 0 <= i < j < |s| ==> s[i] != s[j]
  }

  /** `s` without `k`, the order of the rest kept. */
  function Remove(s: seq<Key>, k: Key): (r: seq<Key>)
    ensures forall x :: x in r <==> x in s && x != k
    ensures k !in s ==> r == s
  {
    if s == [] then []
    else if s[0] == k then Remove(s[1..], k)
    else [s[0]] + Remove(s[1..], k)
  }

  /** Removing a key from a list without repeats leaves a list without
      repeats, one shorter when the key was there. */
  lemma {:induction false} RemoveDistinct(s: seq<Key>, k: Key)
    requires Distinct(s)
    ensures Distinct(Remove(s, k))
    ensures |Remove(s, k)| == if k in s then |s| - 1 else |s|
  {
    if s != [] {
      DistinctTail(s);
      RemoveDistinct(s[1..], k);
      if s[0] != k {
        DistinctCons(s[0], Remove(s[1..], k));
      }
    }
  }

  /** The tail of a list without repeats has none and lacks the head. */
  lemma DistinctTail(s: seq<Key>)
    requires Distinct(s) && s != []
    ensures Distinct(s[1..]) && s[0] !in s[1..]
  {
    forall i, j | 0 <= i < j < |s| - 1 ensures s[1..][i] != s[1..][j] {
      assert s[1..][i] == s[i + 1] && s[1..][j] == s[j + 1];
    }
    forall i | 0 <= i < |s| - 1 ensures s[1..][i] != s[0] {
      assert s[1..][i] == s[i + 1];
    }
  }

  /** A key put in front of a list without repeats that lacks it. */
  lemma DistinctCons(x: Key, r: seq<Key>)
    requires Distinct(r) && x !in r
    ensures Distinct([x] + r)
  {
    forall i, j | 0 <= i < j < |r| + 1 ensures ([x] + r)[i] != ([x] + r)[j] {
      if i > 0 {
        assert ([x] + r)[i] == r[i - 1];
      }
      assert ([x] + r)[j] == r[j - 1];
    }
  }

  /** The recency list holds each of `keys` once and nothing else, and
      there are at most `MaxSize` of them. */
  predicate Tracks(keys: set<Key>, recency: seq<Key>) {
    && Distinct(recency)
    && keys == (set k | k in recency)
    && |recency| <= MaxSize
  }

  /** Every cached answer is the one the negotiation gives for its key. */
  ghost predicate Answers(entries: map<Key, Encoding>, parseQ: FloatParser) {
    forall k {:trigger IsAnswer(entries[k], k, parseQ)} :: k in entries ==> IsAnswer(entries[k], k, parseQ)
  }

  /** `e` is what `get_preferred_encoding` answers for the call `k`. */
  ghost predicate IsAnswer(e: Encoding, k: Key, parseQ: FloatParser) {
    e == Preferred(k.0, k.1, parseQ)
  }

  /** A hit moves the key to the most recent end; the list still tracks
      the same keys. */
  lemma Touched(keys: set<Key>, recency: seq<Key>, key: Key)
    requires Tracks(keys, recency) && key in keys
    ensures Tracks(keys, Remove(recency, key) + [key])
  {
    RemoveDistinct(recency, key);
    var r := Remove(recency, key) + [key];
    assert Distinct(r) by {
      forall i, j | 0 <= i < j < |r| ensures r[i] != r[j] {
        if j == |r| - 1 {
          assert r[i] in Remove(recency, key);
        }
      }
    }
    assert (set k | k in r) == set k | k in recency;
  }

  /** A miss with room to spare appends the new key. */
  lemma Added(keys: set<Key>, recency: seq<Key>, key: Key)
    requires Tracks(keys, recency) && key !in keys && |recency| < MaxSize
    ensures Tracks(keys + {key}, recency + [key])
  {
    var r := recency + [key];
    assert Distinct(r) by {
      forall i, j | 0 <= i < j < |r| ensures r[i] != r[j] {
        if j == |r| - 1 {
          assert r[i] in recency;
        }
      }
    }
    assert (set k | k in r) == (set k | k in recency) + {key};
  }

  /** A miss on a full table drops the least recently used key and
      appends the new one. */
  lemma Evicted(keys: set<Key>, recency: seq<Key>, key: Key)
    requires Tracks(keys, recency) && key !in keys && |recency| == MaxSize
    ensures Tracks(keys - {recency[0]} + {key}, recency[1..] + [key])
  {
    var oldest := recency[0];
    var r := recency[1..] + [key];
    assert forall i :: 0 <= i < |recency| - 1 ==> recency[1..][i] == recency[i + 1];
    assert oldest !in recency[1..];
    assert Distinct(r) by {
      forall i, j | 0 <= i < j < |r| ensures r[i] != r[j] {
        if j == |r| - 1 {
          assert r[i] in recency;
        } else {
          assert r[i] == recency[i + 1] && r[j] == recency[j + 1];
        }
      }
    }
    assert (set k | k in recency) == (set k | k in recency[1..]) + {oldest};
    assert (set k | k in r) == (set k | k in recency[1..]) + {key};
  }

  /** The table and recency list after a miss on `key` answered `e`:
      when the table is full the least recently used key goes first. */
  function Miss(entries: map<Key, Encoding>, recency: seq<Key>, key: Key, e: Encoding): (map<Key, Encoding>, seq<Key>) {
    if |recency| < MaxSize then (entries[key := e], recency + [key])
    else ((entries - {recency[0]})[key := e], recency[1..] + [key])
  }

  /** A miss keeps the recency list tracking the table. */
  lemma MissTracks(entries: map<Key, Encoding>, recency: seq<Key>, key: Key, e: Encoding)
    requires Tracks(entries.Keys, recency) && key !in entries
    ensures Tracks(Miss(entries, recency, key, e).0.Keys, Miss(entries, recency, key, e).1)
  {
    if |recency| < MaxSize {
      Added(entries.Keys, recency, key);
      assert entries[key := e].Keys == entries.Keys + {key};
    } else {
      var oldest := recency[0];
      Evicted(entries.Keys, recency, key);
      assert (entries - {oldest})[key := e].Keys == entries.Keys - {oldest} + {key};
    }
  }

  /** After a miss the new key holds the answer and is the most recently
      used; the least recently used key is kept exactly when there was
      room; every other entry is unchanged. */
  lemma MissEffect(entries: map<Key, Encoding>, recency: seq<Key>, key: Key, e: Encoding)
    requires Tracks(entries.Keys, recency) && key !in entries
    ensures var (entries', recency') := Miss(entries, recency, key, e);
      && key in entries' && entries'[key] == e
      && recency'[|recency'| - 1] == key
      && (recency != [] ==> (recency[0] in entries' <==> |recency| < MaxSize))
      && forall k :: k in entries && k != key && (k != recency[0] || |recency| < MaxSize) ==> k in entries' && entries'[k] == entries[k]
  {
    if |recency| >= MaxSize {
      assert recency[0] in entries;
    }
  }

  /** Storing the negotiated answer on a miss keeps every cached answer
      right. */
  lemma MissAnswers(entries: map<Key, Encoding>, recency: seq<Key>, parseQ: FloatParser, key: Key, e: Encoding)
    requires Answers(entries, parseQ) && e == Preferred(key.0, key.1, parseQ)
    ensures Answers(Miss(entries, recency, key, e).0, parseQ)
  {
    if |recency| < MaxSize {
      AnswersStored(entries, parseQ, {}, key);
      assert entries - {} == entries;
    } else {
      AnswersStored(entries, parseQ, {recency[0]}, key);
    }
  }

  /** Storing the negotiated answer, after dropping any entries, keeps
      every cached answer right. */
  lemma AnswersStored(entries: map<Key, Encoding>, parseQ: FloatParser, drop: set<Key>, key: Key)
    requires Answers(entries, parseQ)
    ensures Answers((entries - drop)[key := Preferred(key.0, key.1, parseQ)], parseQ)
  {
    var entries' := (entries - drop)[key := Preferred(key.0, key.1, parseQ)];
    forall k | k in entries'
      ensures IsAnswer(entries'[k], k, parseQ)
    {
      if k != key {
        assert IsAnswer(entries[k], k, parseQ);
      }
    }
  }

  /** The cache invariant: the recency list tracks the table and every
      cached answer is right. */
  ghost predicate Memo(entries: map<Key, Encoding>, recency: seq<Key>, parseQ: FloatParser) {
    Tracks(entries.Keys, recency) && Answers(entries, parseQ)
  }

  /** A hit keeps the invariant, and its cached answer is the negotiated
      one. */
  lemma HitKeeps(entries: map<Key, Encoding>, recency: seq<Key>, parseQ: FloatParser, key: Key)
    requires Memo(entries, recency, parseQ) && key in entries
    ensures Memo(entries, Remove(recency, key) + [key], parseQ)
    ensures entries[key] == Preferred(key.0, key.1, parseQ)
  {
    assert IsAnswer(entries[key], key, parseQ);
    Touched(entries.Keys, recency, key);
  }

  /** A miss that stores the negotiated answer keeps the invariant. */
  lemma MissKeeps(entries: map<Key, Encoding>, recency: seq<Key>, parseQ: FloatParser, key: Key, e: Encoding)
    requires Memo(entries, recency, parseQ) && key !in entries && e == Preferred(key.0, key.1, parseQ)
    ensures Memo(Miss(entries, recency, key, e).0, Miss(entries, recency, key, e).1, parseQ)
  {
    MissTracks(entries, recency, key, e);
    MissAnswers(entries, recency, parseQ, key, e);
  }

  class PreferenceCache {
    /** How the header's weights are read; fixed for the cache's life. */
    const parseQ: FloatParser
    /** The cached answers. */
    var entries: map<Key, Encoding>
    /** The cached keys, least recently used first. */
    var recency: seq<Key>

    /** The keys in `recency` are those of `entries`, each once; there are
        at most `MaxSize` of them; every cached answer is the one the
        negotiation gives for its key. */
    ghost predicate Valid()
      reads this
    {
      Memo(entries, recency, parseQ)
    }

    constructor (parseQ: FloatParser)
      ensures Valid()
      ensures this.parseQ == parseQ && entries == map[] && recency == []
    {
      this.parseQ := parseQ;
      entries := map[];
      recency := [];
    }

    /** A call of the cached `get_preferred_encoding`. A hit answers from
        the table and makes the key the most recently used; a miss computes
        the answer and stores it as `Miss` says. Either way the answer is
        the uncached one. */
    method Get(acceptEncoding: string, gzipFallback: bool) returns (e: Encoding)
      requires Valid()
      modifies this
      ensures Valid()
      ensures e == Preferred(acceptEncoding, gzipFallback, parseQ)
      ensures var key := (acceptEncoding, gzipFallback);
        if key in old(entries) then
          && e == old(entries)[key]
          && entries == old(entries)
          && recency == Remove(old(recency), key) + [key]
        else
          (entries, recency) == Miss(old(entries), old(recency), key, e)
    {
      var key := (acceptEncoding, gzipFallback);
      if key in entries {
        e := Touch(key);
      } else {
        e := GetPreferredEncoding(acceptEncoding, gzipFallback, parseQ);
        Store(key, e);
      }
    }

    /** A hit: the cached answer, the key made the most recently used. */
    method Touch(key: Key) returns (e: Encoding)
      requires Valid() && key in entries
      modifies this
      ensures Valid()
      ensures entries == old(entries) && recency == Remove(old(recency), key) + [key]
      ensures e == entries[key] && e == Preferred(key.0, key.1, parseQ)
    {
      e := entries[key];
      HitKeeps(entries, recency, parseQ, key);
      recency := Remove(recency, key) + [key];
    }

    /** A miss: the negotiated answer stored, evicting first when full. */
    method Store(key: Key, e: Encoding)
      requires Valid() && key !in entries && e == Preferred(key.0, key.1, parseQ)
      modifies this
      ensures Valid()
      ensures (entries, recency) == Miss(old(entries), old(recency), key, e)
    {
      MissKeeps(entries, recency, parseQ, key, e);
      entries, recency := Miss(entries, recency, key, e).0, Miss(entries, recency, key, e).1;
    }
  }
}
