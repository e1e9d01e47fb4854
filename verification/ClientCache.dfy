/**
 The bounded cache of clients. A map in insertion order is kept in order of last use by
 deleting and inserting again; the specification speaks of the history of requests alone.
 */
module ClientCache {

  const MAX_CACHED_CLIENTS: nat := 32

  type Key = string

  class Codex {
    const options: Key

    constructor (options: Key)
      ensures this.options == options
    {
      this.options := options;
    }
  }

  // -------------------------------------------------------------- specification

  function Without(keys: seq<Key>, key: Key): (rest: seq<Key>)
    ensures forall k :: k in rest <==> k in keys && k != key
    ensures |rest| <= |keys|
    ensures key !in keys ==> rest == keys
  {
    if keys == [] then []
    else if keys[0] == key then Without(keys[1..], key)
    else [keys[0]] + Without(keys[1..], key)
  }

  /** The distinct keys of a history in order of last use. */
  function Recency(history: seq<Key>): seq<Key> {
    if history == [] then []
    else
      var key := history[|history| - 1];
      Without(Recency(history[..|history| - 1]), key) + [key]
  }

  function LastFew(keys: seq<Key>, n: nat): seq<Key> {
    if |keys| <= n then keys else keys[|keys| - n..]
  }

  /** The keys that a cache of this size should hold after a history. */
  function Cached(history: seq<Key>): seq<Key> {
    LastFew(Recency(history), MAX_CACHED_CLIENTS)
  }

  /** The last request for a key. */
  function LastUse(history: seq<Key>, key: Key): (n: nat)
    requires key in history
    ensures n < |history| && history[n] == key && forall m :: n < m < |history| ==> history[m] != key
  {
    var last := |history| - 1;
    if history[last] == key then last
    else
      assert history == history[..last] + [history[last]];
      LastUse(history[..last], key)
  }

  /** The list is strictly ordered by the rank. */
  ghost predicate Ordered(rank: Key -> int, keys: seq<Key>) {
    forall i, j :: 0 <= i < j < |keys| ==> rank(keys[i]) < rank(keys[j])
  }

  lemma {:induction false} WithoutKeepsOrder(rank: Key -> int, keys: seq<Key>, key: Key)
    requires Ordered(rank, keys)
    ensures Ordered(rank, Without(keys, key))
  {
    if keys != [] {
      assert forall i :: 0 <= i < |keys[1..]| ==> keys[1..][i] == keys[i + 1];
      WithoutKeepsOrder(rank, keys[1..], key);
      var rest := Without(keys[1..], key);
      forall j | 0 <= j < |rest| ensures rank(keys[0]) < rank(rest[j]) {
        assert rest[j] in keys[1..];
      }
    }
  }

  lemma {:induction false} RecencyKeys(history: seq<Key>)
    ensures forall k :: k in Recency(history) <==> k in history
  {
    if history != [] {
      RecencyKeys(history[..|history| - 1]);
      assert history == history[..|history| - 1] + [history[|history| - 1]];
    }
  }

  /** When a key was last used; never counts as before everything else. */
  function Rank(history: seq<Key>): Key -> int {
    key => if key in history then LastUse(history, key) else -1
  }

  lemma RankGrows(history: seq<Key>, key: Key, k: Key)
    ensures Rank(history + [key])(k) == (if k == key then |history| else Rank(history)(k))
    ensures Rank(history)(k) < |history|
  {
    assert (history + [key])[..|history|] == history;
  }

  lemma OrderedAppend(rank: Key -> int, later: Key -> int, keys: seq<Key>, key: Key)
    requires Ordered(rank, keys)
    requires forall k :: k in keys ==> later(k) == rank(k) < later(key)
    ensures Ordered(later, keys + [key])
  {
    var all := keys + [key];
    forall i, j | 0 <= i < j < |all| ensures later(all[i]) < later(all[j]) {
      assert keys[i] in keys && (j < |keys| ==> keys[j] in keys);
    }
  }

  lemma RecencyGrows(history: seq<Key>, key: Key)
    ensures Recency(history + [key]) == Without(Recency(history), key) + [key]
  {
    assert (history + [key])[..|history|] == history;
  }

  lemma RanksAfter(history: seq<Key>, key: Key, keys: seq<Key>)
    requires key !in keys
    ensures forall k :: k in keys ==> Rank(history + [key])(k) == Rank(history)(k) < Rank(history + [key])(key)
  {
    RankGrows(history, key, key);
    forall k | k in keys ensures Rank(history + [key])(k) == Rank(history)(k) < Rank(history + [key])(key) {
      RankGrows(history, key, k);
    }
  }

  lemma RecencyStaysOrdered(history: seq<Key>, key: Key)
    requires Ordered(Rank(history), Recency(history))
    ensures Ordered(Rank(history + [key]), Recency(history + [key]))
  {
    var (rank, later, kept) := (Rank(history), Rank(history + [key]), Without(Recency(history), key));
    WithoutKeepsOrder(rank, Recency(history), key);
    RanksAfter(history, key, kept);
    OrderedAppend(rank, later, kept, key);
    RecencyGrows(history, key);
  }

  /** The recency list is in order of last use, so it holds every key once. */
  lemma {:induction false} RecencyIsOrdered(history: seq<Key>)
    ensures Ordered(Rank(history), Recency(history))
  {
    if history != [] {
      var (earlier, key) := (history[..|history| - 1], history[|history| - 1]);
      assert history == earlier + [key];
      RecencyIsOrdered(earlier);
      RecencyStaysOrdered(earlier, key);
    }
  }

  lemma WithoutAppend(a: seq<Key>, b: seq<Key>, key: Key)
    ensures Without(a + b, key) == Without(a, key) + Without(b, key)
  {
    if a == [] {
      assert a + b == b;
    } else {
      assert (a + b)[1..] == a[1..] + b;
      WithoutAppend(a[1..], b, key);
    }
  }

  lemma {:induction false} WithoutOne(keys: seq<Key>, key: Key, rank: Key -> int)
    requires Ordered(rank, keys) && key in keys
    ensures |Without(keys, key)| == |keys| - 1
  {
    if keys[0] == key {
      assert forall j :: 0 < j < |keys| ==> rank(keys[0]) < rank(keys[j]);
      assert forall j :: 0 <= j < |keys[1..]| ==> keys[1..][j] == keys[j + 1];
      assert key !in keys[1..];
    } else {
      assert forall i :: 0 <= i < |keys[1..]| ==> keys[1..][i] == keys[i + 1];
      WithoutOne(keys[1..], key, rank);
    }
  }

  lemma OrderedSuffix(rank: Key -> int, keys: seq<Key>, key: Key, n: nat)
    requires Ordered(rank, keys) && n <= |keys| && key in keys[n..]
    ensures Ordered(rank, keys[n..]) && key !in keys[..n]
  {
    var j :| 0 <= j < |keys[n..]| && keys[n..][j] == key;
    forall i | 0 <= i < n ensures keys[..n][i] != key {
      assert rank(keys[i]) < rank(keys[n + j]);
    }
  }

  lemma LastFewMoves(keys: seq<Key>, key: Key, n: nat, rank: Key -> int)
    requires Ordered(rank, keys) && n <= |keys| && key in keys[n..]
    ensures Without(keys, key) + [key] == keys[..n] + (Without(keys[n..], key) + [key])
    ensures |Without(keys[n..], key)| == |keys| - n - 1
  {
    var (front, back) := (keys[..n], keys[n..]);
    assert keys == front + back;
    OrderedSuffix(rank, keys, key, n);
    WithoutAppend(front, back, key);
    WithoutOne(back, key, rank);
  }

  function KeySet(keys: seq<Key>): set<Key> {
    set k | k in keys
  }

  lemma {:induction false} OrderedSize(rank: Key -> int, keys: seq<Key>)
    requires Ordered(rank, keys)
    ensures |KeySet(keys)| == |keys|
  {
    if keys != [] {
      var rest := keys[1..];
      assert forall i :: 0 <= i < |rest| ==> rest[i] == keys[i + 1];
      OrderedSize(rank, rest);
      assert forall i :: 0 <= i < |rest| ==> rank(keys[0]) < rank(rest[i]);
      assert keys[0] !in rest && KeySet(keys) == {keys[0]} + KeySet(rest);
    }
  }

  lemma RankOfPlace(rank: Key -> int, keys: seq<Key>, i: nat, p: nat)
    requires Ordered(rank, keys) && i < |keys| && p < |keys|
    ensures i < p <==> rank(keys[i]) < rank(keys[p])
  {
  }

  lemma SuffixByRank(rank: Key -> int, keys: seq<Key>, p: nat, k: Key)
    requires Ordered(rank, keys) && p < |keys|
    ensures k in keys[p..] <==> k in keys && rank(keys[p]) <= rank(k)
  {
    if k in keys {
      var i :| 0 <= i < |keys| && keys[i] == k;
      RankOfPlace(rank, keys, i, p);
      assert forall j :: 0 <= j < |keys[p..]| ==> keys[p..][j] == keys[p + j];
      if i >= p {
        assert keys[p..][i - p] == k;
      }
    }
  }

  lemma UsedSince(history: seq<Key>, use: nat, k: Key)
    requires use < |history|
    ensures k in history[use..] <==> k in history && use <= LastUse(history, k)
  {
    if k in history {
      var last := LastUse(history, k);
      assert forall j :: 0 <= j < |history[use..]| ==> history[use..][j] == history[use + j];
      if use <= last {
        assert history[use..][last - use] == k;
      }
    }
  }

  lemma SuffixKey(history: seq<Key>, keys: seq<Key>, rank: Key -> int, p: nat, use: nat, k: Key)
    requires rank == Rank(history) && Ordered(rank, keys) && (k in keys <==> k in history)
    requires p < |keys| && keys[p] in history && use == LastUse(history, keys[p])
    ensures k in keys[p..] <==> k in history[use..]
  {
    SuffixByRank(rank, keys, p, k);
    UsedSince(history, use, k);
  }

  /** From some place in the recency list on stand exactly the keys used since the key there. */
  lemma SuffixIsUsedSince(history: seq<Key>, keys: seq<Key>, rank: Key -> int, p: nat, use: nat)
    requires rank == Rank(history) && Ordered(rank, keys) && (forall k :: k in keys <==> k in history)
    requires p < |keys| && keys[p] in history && use == LastUse(history, keys[p])
    ensures KeySet(keys[p..]) == KeySet(history[use..])
  {
    forall k ensures k in keys[p..] <==> k in history[use..] {
      SuffixKey(history, keys, rank, p, use, k);
    }
  }

  /** A key is cached exactly when at most as many keys as fit, itself included, were used since its last use. */
  lemma CachedIffRecent(history: seq<Key>, key: Key)
    requires key in history
    ensures key in Cached(history) <==> |KeySet(history[LastUse(history, key)..])| <= 32
  {
    var keys := Recency(history);
    RecencyKeys(history);
    RecencyIsOrdered(history);
    var p :| 0 <= p < |keys| && keys[p] == key;
    SuffixIsUsedSince(history, keys, Rank(history), p, LastUse(history, key));
    SuffixSize(Rank(history), keys, p);
    CachedPosition(history, p);
  }

  lemma SuffixSize(rank: Key -> int, keys: seq<Key>, p: nat)
    requires Ordered(rank, keys) && p <= |keys|
    ensures |KeySet(keys[p..])| == |keys| - p
  {
    OrderedSize(rank, keys[p..]);
  }

  lemma CachedPosition(history: seq<Key>, p: nat)
    requires p < |Recency(history)|
    ensures Recency(history)[p] in Cached(history) <==> |Recency(history)| - p <= MAX_CACHED_CLIENTS
  {
    var keys := Recency(history);
    var n := if |keys| <= MAX_CACHED_CLIENTS then 0 else |keys| - MAX_CACHED_CLIENTS;
    assert Cached(history) == keys[n..];
    RecencyIsOrdered(history);
    if p >= n {
      assert keys[n..][p - n] == keys[p];
    } else {
      forall j | 0 <= j < |keys[n..]| ensures keys[n..][j] != keys[p] {
        assert Rank(history)(keys[p]) < Rank(history)(keys[n + j]);
      }
    }
  }

  /** A hit moves the key to the end of the cached keys. */
  lemma HitMoves(history: seq<Key>, key: Key)
    requires key in Cached(history)
    ensures Cached(history + [key]) == Without(Cached(history), key) + [key]
  {
    var keys := Recency(history);
    var n := if |keys| <= MAX_CACHED_CLIENTS then 0 else |keys| - MAX_CACHED_CLIENTS;
    assert Cached(history) == keys[n..];
    RecencyIsOrdered(history);
    RecencyGrows(history, key);
    LastFewMoves(keys, key, n, Rank(history));
  }

  lemma LastFewAppends(keys: seq<Key>, key: Key, n: nat)
    requires n <= |keys| && key !in keys[n..]
    ensures Without(keys, key) + [key] == Without(keys[..n], key) + (keys[n..] + [key])
  {
    assert keys == keys[..n] + keys[n..];
    WithoutAppend(keys[..n], keys[n..], key);
  }

  /** A miss appends the key; a full cache loses its first key. */
  lemma MissAppends(history: seq<Key>, key: Key)
    requires key !in Cached(history)
    ensures var cached := Cached(history);
            Cached(history + [key]) == (if |cached| >= MAX_CACHED_CLIENTS then cached[1..] else cached) + [key]
  {
    var keys := Recency(history);
    var n := if |keys| <= MAX_CACHED_CLIENTS then 0 else |keys| - MAX_CACHED_CLIENTS;
    assert Cached(history) == keys[n..];
    RecencyGrows(history, key);
    LastFewAppends(keys, key, n);
  }

  /** The request that made the client which the last request of a history gets: its key's latest miss. */
  function Maker(history: seq<Key>): (n: nat)
    requires history != []
    ensures n < |history| && history[n] == history[|history| - 1]
    decreases |history|
  {
    var (earlier, key) := (history[..|history| - 1], history[|history| - 1]);
    if key in Cached(earlier) then
      CachedWasUsed(earlier, key);
      Maker(earlier[..LastUse(earlier, key) + 1])
    else |earlier|
  }

  lemma CachedWasUsed(history: seq<Key>, key: Key)
    requires key in Cached(history)
    ensures key in history
  {
    RecencyKeys(history);
  }

  /** The request found nothing in the cache. */
  predicate Misses(history: seq<Key>, n: nat)
    requires n < |history|
  {
    history[n] !in Cached(history[..n])
  }

  predicate LatestMiss(history: seq<Key>, n: nat)
    requires n < |history|
  {
    Misses(history, n) && forall m :: n < m < |history| && history[m] == history[n] ==> !Misses(history, m)
  }

  lemma LatestMissStays(history: seq<Key>, use: nat, n: nat)
    requires n <= use < |history| - 1 && LatestMiss(history[..use + 1], n) && history[n] == history[use]
    requires forall m :: use < m < |history| - 1 ==> history[m] != history[use]
    requires !Misses(history, |history| - 1)
    ensures LatestMiss(history, n)
  {
    var before := history[..use + 1];
    assert before[..n] == history[..n];
    forall m | n < m <= use && history[m] == history[n] ensures !Misses(history, m) {
      assert before[m] == history[m] && before[..m] == history[..m];
    }
  }

  /** The maker is indeed the latest miss of the key. */
  lemma {:induction false} MakerIsLatestMiss(history: seq<Key>)
    requires history != []
    ensures LatestMiss(history, Maker(history))
    decreases |history|
  {
    var (earlier, key) := (history[..|history| - 1], history[|history| - 1]);
    if key in Cached(earlier) {
      CachedWasUsed(earlier, key);
      var use := LastUse(earlier, key);
      assert earlier[..use + 1] == history[..use + 1];
      MakerIsLatestMiss(history[..use + 1]);
      LatestMissStays(history, use, Maker(history));
    }
  }

  // -------------------------------------------------------------------- the cache

  /** An entry of a map that keeps its insertion order. */
  datatype Entry = Entry(key: Key, client: Codex)

  function KeysOf(entries: seq<Entry>): (keys: seq<Key>)
    ensures |keys| == |entries|
    ensures forall i :: 0 <= i < |keys| ==> keys[i] == entries[i].key
  {
    seq(|entries|, i requires 0 <= i < |entries| => entries[i].key)
  }

  function Get(entries: seq<Entry>, key: Key): (client: Codex)
    requires key in KeysOf(entries)
    ensures Entry(key, client) in entries
  {
    if entries[0].key == key then entries[0].client
    else
      assert KeysOf(entries)[1..] == KeysOf(entries[1..]);
      Get(entries[1..], key)
  }

  function Delete(entries: seq<Entry>, key: Key): (rest: seq<Entry>)
    ensures forall e :: e in rest ==> e in entries && e.key != key
  {
    if entries == [] then []
    else if entries[0].key == key then Delete(entries[1..], key)
    else [entries[0]] + Delete(entries[1..], key)
  }

  lemma KeysOfMore(entry: Entry, entries: seq<Entry>)
    ensures KeysOf([entry] + entries) == [entry.key] + KeysOf(entries)
    ensures KeysOf(entries + [entry]) == KeysOf(entries) + [entry.key]
  {
  }

  lemma {:induction false} DeleteKeys(entries: seq<Entry>, key: Key)
    ensures KeysOf(Delete(entries, key)) == Without(KeysOf(entries), key)
  {
    if entries != [] {
      var rest := entries[1..];
      DeleteKeys(rest, key);
      assert entries == [entries[0]] + rest;
      KeysOfMore(entries[0], rest);
      KeysOfMore(entries[0], Delete(rest, key));
      assert ([entries[0].key] + KeysOf(rest))[1..] == KeysOf(rest);
    }
  }

  lemma OrderedHead(rank: Key -> int, keys: seq<Key>)
    requires Ordered(rank, keys) && keys != []
    ensures Without(keys, keys[0]) == keys[1..]
  {
    forall j | 0 <= j < |keys[1..]| ensures keys[1..][j] != keys[0] {
      assert rank(keys[0]) < rank(keys[j + 1]);
    }
  }

  lemma CachedIsOrdered(history: seq<Key>)
    ensures Ordered(Rank(history), Cached(history))
  {
    var keys := Recency(history);
    var n := if |keys| <= MAX_CACHED_CLIENTS then 0 else |keys| - MAX_CACHED_CLIENTS;
    RecencyIsOrdered(history);
    assert Cached(history) == keys[n..];
  }

  lemma FirstLeaves(history: seq<Key>)
    requires Cached(history) != []
    ensures Without(Cached(history), Cached(history)[0]) == Cached(history)[1..]
  {
    CachedIsOrdered(history);
    OrderedHead(Rank(history), Cached(history));
  }

  /** The entries left after making room. */
  function Evicted(entries: seq<Entry>): seq<Entry> {
    if |entries| >= MAX_CACHED_CLIENTS then Delete(entries, entries[0].key) else entries
  }

  lemma HitKeys(entries: seq<Entry>, history: seq<Key>, entry: Entry)
    requires KeysOf(entries) == Cached(history) && entry.key in Cached(history)
    ensures KeysOf(Delete(entries, entry.key) + [entry]) == Cached(history + [entry.key])
  {
    DeleteKeys(entries, entry.key);
    KeysOfMore(entry, Delete(entries, entry.key));
    HitMoves(history, entry.key);
  }

  lemma MissKeys(entries: seq<Entry>, history: seq<Key>, entry: Entry)
    requires KeysOf(entries) == Cached(history) && entry.key !in Cached(history)
    ensures KeysOf(Evicted(entries) + [entry]) == Cached(history + [entry.key])
  {
    if |entries| >= MAX_CACHED_CLIENTS {
      DeleteKeys(entries, entries[0].key);
      FirstLeaves(history);
    }
    KeysOfMore(entry, Evicted(entries));
    MissAppends(history, entry.key);
  }

  lemma EvictedAreOthers(entries: seq<Entry>, key: Key)
    requires key !in KeysOf(entries)
    ensures forall e :: e in Evicted(entries) ==> e in entries && e.key != key
  {
    forall i | 0 <= i < |entries| ensures entries[i].key != key {
      assert KeysOf(entries)[i] == entries[i].key;
    }
  }

  /** The entry holds the client that the last request for its key got. */
  predicate IsCurrent(history: seq<Key>, made: seq<Codex>, entry: Entry)
    requires |made| == |history|
  {
    entry.key in history && entry.client == made[LastUse(history, entry.key)]
  }

  lemma StaysCurrent(history: seq<Key>, made: seq<Codex>, entry: Entry, key: Key, client: Codex)
    requires |made| == |history| && IsCurrent(history, made, entry) && entry.key != key
    ensures IsCurrent(history + [key], made + [client], entry)
  {
    assert (history + [key])[..|history|] == history;
  }

  lemma IsCurrentNow(history: seq<Key>, made: seq<Codex>, key: Key, client: Codex)
    requires |made| == |history|
    ensures IsCurrent(history + [key], made + [client], Entry(key, client))
  {
  }

  /** Every request got the client that its maker made, which has the requested options. */
  predicate Serves(history: seq<Key>, made: seq<Codex>, n: nat)
    requires n < |made| == |history|
  {
    made[n] == made[Maker(history[..n + 1])] && made[n].options == history[n]
  }

  lemma StillServes(history: seq<Key>, made: seq<Codex>, n: nat, key: Key, client: Codex)
    requires n < |made| == |history| && Serves(history, made, n)
    ensures Serves(history + [key], made + [client], n)
  {
    assert (history + [key])[..n + 1] == history[..n + 1];
  }

  lemma HitServes(history: seq<Key>, made: seq<Codex>, key: Key, client: Codex)
    requires |made| == |history| && key in Cached(history) && key in history
    requires client == made[LastUse(history, key)] && Serves(history, made, LastUse(history, key))
    ensures Serves(history + [key], made + [client], |history|)
  {
    assert (history + [key])[..|history| + 1] == history + [key] && (history + [key])[..|history|] == history;
  }

  lemma MissServes(history: seq<Key>, made: seq<Codex>, key: Key, client: Codex)
    requires |made| == |history| && key !in Cached(history) && client.options == key
    ensures Serves(history + [key], made + [client], |history|)
  {
    assert (history + [key])[..|history| + 1] == history + [key] && (history + [key])[..|history|] == history;
  }

  predicate AllCurrent(history: seq<Key>, made: seq<Codex>, entries: seq<Entry>)
    requires |made| == |history|
  {
    forall i :: 0 <= i < |entries| ==> IsCurrent(history, made, entries[i])
  }

  predicate AllServed(history: seq<Key>, made: seq<Codex>)
    requires |made| == |history|
  {
    forall n :: 0 <= n < |history| ==> Serves(history, made, n)
  }

  /** After a request, the entries of other keys stay current and earlier requests stay served. */
  lemma Remembered(history: seq<Key>, made: seq<Codex>, rest: seq<Entry>, key: Key, codex: Codex)
    requires |made| == |history| && AllCurrent(history, made, rest) && AllServed(history, made)
    requires forall i :: 0 <= i < |rest| ==> rest[i].key != key
    requires Serves(history + [key], made + [codex], |history|)
    ensures AllCurrent(history + [key], made + [codex], rest + [Entry(key, codex)])
    ensures AllServed(history + [key], made + [codex])
  {
    forall i | 0 <= i < |rest| ensures IsCurrent(history + [key], made + [codex], rest[i]) {
      StaysCurrent(history, made, rest[i], key, codex);
    }
    IsCurrentNow(history, made, key, codex);
    forall n | 0 <= n < |history| ensures Serves(history + [key], made + [codex], n) {
      StillServes(history, made, n, key, codex);
    }
  }

  class Cache {
    var codexByOptions: seq<Entry>
    ghost var history: seq<Key>
    ghost var made: seq<Codex>

    /** The keys are those of the specification, and every request was served by its maker. */
    ghost predicate Valid()
      reads this
    {
      && |made| == |history| && KeysOf(codexByOptions) == Cached(history)
      && AllCurrent(history, made, codexByOptions) && AllServed(history, made)
    }

    constructor ()
      ensures Valid() && history == []
    {
      codexByOptions, history, made := [], [], [];
    }

    /** A cached client, or a new one; the history and the clients handed out grow by this request. */
    method GetCodex(key: Key) returns (codex: Codex)
      requires Valid()
      modifies this
      ensures Valid() && history == old(history) + [key] && made == old(made) + [codex]
      ensures key !in old(Cached(history)) <==> fresh(codex)
    {
      if key in KeysOf(codexByOptions) {
        codex := Get(codexByOptions, key);
        ServesHit(key, codex);
        HitKeys(codexByOptions, history, Entry(key, codex));
        codexByOptions := Delete(codexByOptions, key);
      } else {
        codex := new Codex(key);
        MissServes(history, made, key, codex);
        MissKeys(codexByOptions, history, Entry(key, codex));
        EvictedAreOthers(codexByOptions, key);
        if |codexByOptions| >= MAX_CACHED_CLIENTS {
          codexByOptions := Delete(codexByOptions, codexByOptions[0].key);
        }
      }
      Remembered(history, made, codexByOptions, key, codex);
      codexByOptions := codexByOptions + [Entry(key, codex)];
      history, made := history + [key], made + [codex];
    }

    lemma ServesHit(key: Key, codex: Codex)
      requires Valid() && key in KeysOf(codexByOptions) && Entry(key, codex) in codexByOptions
      ensures Serves(history + [key], made + [codex], |history|)
    {
      assert IsCurrent(history, made, Entry(key, codex));
      HitServes(history, made, key, codex);
    }
  }
}
