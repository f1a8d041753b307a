/**
 * The shared cache the two list views read through (`cache_page`) and the
 * signal handler clears (`cache.delete_pattern`): a store of rendered
 * responses under string keys, each with an expiry time, and the glob
 * patterns Redis matches keys against.
 */
module ResponseCache {
  import opened Wrappers
  import opened Text

  /** A rendered HTTP response as the cache keeps it. */
  datatype Response = Response(status: int, content: string)

  /** A cached response and the instant (in seconds) from which it is no longer served. */
  datatype Entry = Entry(response: Response, expiresAt: int)

  // ---------------------------------------------------------------------------
  // Glob patterns

  /** Redis glob matching: '*' matches any run of characters, '?' any one character, anything else itself. */
  predicate GlobMatch(pattern: string, key: string)
    decreases |pattern| + |key|
  {
    if pattern == [] then key == []
    else if pattern[0] == '*' then GlobMatch(pattern[1..], key) || (key != [] && GlobMatch(pattern, key[1..]))
    else key != [] && (pattern[0] == '?' || pattern[0] == key[0]) && GlobMatch(pattern[1..], key[1..])
  }

  /** A pattern fragment without wildcards: it matches only itself. */
  predicate Literal(x: string)
  {
    forall i :: 0 <= i < |x| ==> x[i] != '*' && x[i] != '?'
  }

  /** A lone '*' matches every key. */
  lemma {:induction false} StarMatchesAll(key: string)
    ensures GlobMatch("*", key)
    decreases |key|
  {
    if key != [] {
      StarMatchesAll(key[1..]);
    }
  }

  /** `x*` matches exactly the keys that start with `x`. */
  lemma {:induction false} PrefixPattern(x: string, key: string)
    requires Literal(x)
    ensures GlobMatch(x + "*", key) <==> x <= key
    decreases |x|
  {
    if x == [] {
      assert x + "*" == "*";
      StarMatchesAll(key);
    } else {
      assert (x + "*")[1..] == x[1..] + "*";
      if key != [] {
        PrefixPattern(x[1..], key[1..]);
      }
    }
  }

  /** `*x*` matches exactly the keys that contain `x`. */
  lemma {:induction false} InfixPattern(x: string, key: string)
    requires Literal(x)
    ensures GlobMatch("*" + x + "*", key) <==> Contains(key, x)
    decreases |key|
  {
    var p := "*" + x + "*";
    assert p[1..] == x + "*";
    PrefixPattern(x, key);
    if key != [] {
      InfixPattern(x, key[1..]);
    }
  }

  // ---------------------------------------------------------------------------
  // The store

  /** The store with every key matching `pattern` removed. */
  function Evict(entries: map<string, Entry>, pattern: string): (m: map<string, Entry>)
    ensures forall k :: k in m <==> k in entries && !GlobMatch(pattern, k)
    ensures forall k :: k in m ==> m[k] == entries[k]
  {
    map k | k in entries && !GlobMatch(pattern, k) :: entries[k]
  }

  /** Evicting a pattern a second time changes nothing. */
  lemma EvictIdempotent(entries: map<string, Entry>, pattern: string)
    ensures Evict(Evict(entries, pattern), pattern) == Evict(entries, pattern)
  {
    var once := Evict(entries, pattern);
    assert Evict(once, pattern).Keys == once.Keys;
  }

  /** Two evictions give the same store in either order. */
  lemma EvictCommutes(entries: map<string, Entry>, p: string, q: string)
    ensures Evict(Evict(entries, p), q) == Evict(Evict(entries, q), p)
  {
    assert Evict(Evict(entries, p), q).Keys == Evict(Evict(entries, q), p).Keys;
  }

  /** The number of keys a pattern matches: what `delete_pattern` reports. */
  function MatchCount(entries: map<string, Entry>, pattern: string): (n: nat)
    ensures n == |entries.Keys| - |Evict(entries, pattern).Keys|
  {
    var gone := set k | k in entries && GlobMatch(pattern, k);
    assert entries.Keys == gone + Evict(entries, pattern).Keys;
    assert gone !! Evict(entries, pattern).Keys;
    |gone|
  }

  /** The response stored under `key` if it has not expired by `now`. */
  function Fetch(entries: map<string, Entry>, key: string, now: int): (r: Option<Response>)
    ensures r.Some? <==> key in entries && now < entries[key].expiresAt
    ensures r.Some? ==> r.value == entries[key].response
  {
    if key in entries && now < entries[key].expiresAt then Some(entries[key].response) else None
  }

  /** The cache a Django process shares between requests. */
  class Cache {
    var entries: map<string, Entry>

    /** An empty cache (`cache.clear()`). */
    constructor ()
      ensures entries == map[]
    {
      entries := map[];
    }

    /** `cache.get(key)`. */
    method Get(key: string, now: int) returns (r: Option<Response>)
      ensures r == Fetch(entries, key, now)
    {
      if key in entries && now < entries[key].expiresAt {
        r := Some(entries[key].response);
      } else {
        r := None;
      }
    }

    /** `cache.set(key, response, timeout)`: served until `timeout` seconds from `now`. */
    method Set(key: string, response: Response, timeout: nat, now: int)
      modifies this
      ensures entries == old(entries)[key := Entry(response, now + timeout)]
      ensures Fetch(entries, key, now) == if timeout > 0 then Some(response) else None
      ensures forall k :: k != key ==> Fetch(entries, k, now) == Fetch(old(entries), k, now)
    {
      entries := entries[key := Entry(response, now + timeout)];
    }

    /** `cache.delete_pattern(pattern)`: removes every matching key and reports how many there were. */
    method DeletePattern(pattern: string) returns (count: nat)
      modifies this
      ensures entries == Evict(old(entries), pattern)
      ensures count == MatchCount(old(entries), pattern)
    {
      count := MatchCount(entries, pattern);
      entries := Evict(entries, pattern);
    }
  }
}
