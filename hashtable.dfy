/**
  Model of hashtable.h: a fixed array of 11 buckets, each a chain of
  (key, data, data_size) entries, hashed by a polynomial over the key's
  characters.

  The pure functions `Hash`, `IndexOf`, `Lookup` and `Insert` say what one
  call does to the abstract state (the sequence of chains); the class
  `HashTable` updates that state in place and is proved against them.  Each
  chain is kept as a sequence of entries rather than a chain of node
  objects; the order of a chain is the order of its `next` links.
*/
module CupHashTable {
  import opened Wrappers

  /** `BUCKETS`. */
  const BUCKETS: nat := 11

  /** 2^64: the modulus of `uint64_t` arithmetic. */
  const WORD: nat := 0x1_0000_0000_0000_0000

  /** One `hashtable_node_t` without its link: the key, a copy of the data and `data_size`. */
  datatype Entry<T> = Entry(key: string, data: T, size: nat)

  /**
    A `char` as `hash = *it + 31 * hash` sees it: the character's byte, read
    as a signed `char` and sign-extended to `uint64_t`.
  */
  function CharWord(c: char): (w: nat)
    ensures w < WORD
  {
    var b := (c as int) % 256;
    if b < 128 then b else WORD - 256 + b
  }

  /** The accumulator of `hashtable_calc_hash` after reading all of `key`. */
  function HashState(key: string): (h: nat)
    ensures h < WORD
  {
    if key == [] then 0
    else (CharWord(key[|key| - 1]) + 31 * HashState(key[..|key| - 1])) % WORD
  }

  /** `hashtable_calc_hash`: the bucket of `key`. */
  function Hash(key: string): (i: nat)
    ensures i < BUCKETS
  {
    HashState(key) % BUCKETS
  }

  /** Position of the first entry of `chain` whose key is `key`, or `|chain|` when there is none. */
  function IndexOf<T>(chain: seq<Entry<T>>, key: string): (j: nat)
    ensures j <= |chain|
    ensures j < |chain| ==> chain[j].key == key
    ensures forall k :: 0 <= k < j ==> chain[k].key != key
  {
    if chain == [] then 0
    else if chain[0].key == key then 0
    else 1 + IndexOf(chain[1..], key)
  }

  /** What `hashtable_get` finds: the data of the first node of bucket `Hash(key)` with that key. */
  function Lookup<T>(b: seq<seq<Entry<T>>>, key: string): (r: Option<T>)
    requires |b| == BUCKETS
    ensures r.None? <==> forall j :: 0 <= j < |b[Hash(key)]| ==> b[Hash(key)][j].key != key
    ensures r.Some? ==>
      exists j :: 0 <= j < |b[Hash(key)]| && b[Hash(key)][j].key == key
        && r.value == b[Hash(key)][j].data && forall k :: 0 <= k < j ==> b[Hash(key)][k].key != key
  {
    var chain := b[Hash(key)];
    var j := IndexOf(chain, key);
    if j < |chain| then Some(chain[j].data) else None
  }

  /**
    What `hashtable_set` leaves behind: the matching entry of bucket
    `Hash(key)` gets the new data, or a new entry is appended at the end of
    that chain.
  */
  function Insert<T>(b: seq<seq<Entry<T>>>, key: string, data: T, size: nat): (r: seq<seq<Entry<T>>>)
    requires |b| == BUCKETS
    ensures |r| == BUCKETS
    ensures forall i :: 0 <= i < BUCKETS && i != Hash(key) ==> r[i] == b[i]
  {
    var h := Hash(key);
    var chain := b[h];
    var j := IndexOf(chain, key);
    b[h := if j < |chain| then chain[j := Entry(chain[j].key, data, size)]
           else chain + [Entry(key, data, size)]]
  }

  /** `hashtable_set` of every entry of `ms`, first to last. */
  function InsertAll<T>(b: seq<seq<Entry<T>>>, ms: seq<Entry<T>>): (r: seq<seq<Entry<T>>>)
    requires |b| == BUCKETS
    ensures |r| == BUCKETS
    decreases |ms|
  {
    if ms == [] then b else InsertAll(Insert(b, ms[0].key, ms[0].data, ms[0].size), ms[1..])
  }

  /** `ms[j]` is the last entry of `ms` whose key is `key`. */
  ghost predicate LastWith<T>(ms: seq<Entry<T>>, key: string, j: int)
  {
    0 <= j < |ms| && ms[j].key == key && forall k :: j < k < |ms| ==> ms[k].key != key
  }

  /** Setting one entry, as `LookupInsertSame` and `LookupInsertOther` put together. */
  lemma LookupInsertEntry<T>(b: seq<seq<Entry<T>>>, m: Entry<T>, key: string)
    requires |b| == BUCKETS
    ensures Lookup(Insert(b, m.key, m.data, m.size), key) == if m.key == key then Some(m.data) else Lookup(b, key)
  {
    if m.key == key {
      LookupInsertSame(b, key, m.data, m.size);
    } else {
      LookupInsertOther(b, m.key, m.data, m.size, key);
    }
  }

  /** Setting a sequence of entries none of which carries `key` leaves what `key` maps to unchanged. */
  lemma {:induction false} LookupInsertAllAbsent<T>(b: seq<seq<Entry<T>>>, ms: seq<Entry<T>>, key: string)
    requires |b| == BUCKETS
    requires forall j :: 0 <= j < |ms| ==> ms[j].key != key
    ensures Lookup(InsertAll(b, ms), key) == Lookup(b, key)
    decreases |ms|
  {
    if ms != [] {
      var b' := Insert(b, ms[0].key, ms[0].data, ms[0].size);
      assert ms[0].key != key;
      assert forall j :: 0 <= j < |ms[1..]| ==> ms[1..][j] == ms[j + 1];
      LookupInsertAllAbsent(b', ms[1..], key);
      LookupInsertEntry(b, ms[0], key);
    }
  }

  /** Setting a sequence of entries, the last one set under `key` wins. */
  lemma {:induction false} LookupInsertAllLast<T>(b: seq<seq<Entry<T>>>, ms: seq<Entry<T>>, key: string, j: nat)
    requires |b| == BUCKETS
    requires LastWith(ms, key, j)
    ensures Lookup(InsertAll(b, ms), key) == Some(ms[j].data)
    decreases |ms|
  {
    var b' := Insert(b, ms[0].key, ms[0].data, ms[0].size);
    var rest := ms[1..];
    assert forall k :: 0 <= k < |rest| ==> rest[k] == ms[k + 1];
    if j > 0 {
      assert LastWith(rest, key, j - 1);
      LookupInsertAllLast(b', rest, key, j - 1);
    } else {
      LookupInsertAllAbsent(b', rest, key);
      LookupInsertEntry(b, ms[0], key);
    }
  }

  /** The table invariant: 11 buckets, every entry in the bucket of its key, and no key twice in a chain. */
  ghost predicate WellFormed<T>(b: seq<seq<Entry<T>>>)
  {
    && |b| == BUCKETS
    && (forall i, j :: 0 <= i < |b| && 0 <= j < |b[i]| ==> Hash(b[i][j].key) == i)
    && (forall i, j, k :: 0 <= i < |b| && 0 <= j < k < |b[i]| ==> b[i][j].key != b[i][k].key)
  }

  /** The keys stored anywhere in the table. */
  ghost function Keys<T>(b: seq<seq<Entry<T>>>): set<string>
  {
    set i, j | 0 <= i < |b| && 0 <= j < |b[i]| :: b[i][j].key
  }

  /** A table with every bucket empty, as `hashtable_alloc` leaves it. */
  function EmptyBuckets<T>(): (b: seq<seq<Entry<T>>>)
    ensures |b| == BUCKETS && forall i :: 0 <= i < BUCKETS ==> b[i] == []
  {
    seq(BUCKETS, _ => [])
  }

  lemma EmptyIsWellFormed<T>()
    ensures WellFormed(EmptyBuckets<T>())
    ensures Keys(EmptyBuckets<T>()) == {}
    ensures forall key :: Lookup(EmptyBuckets<T>(), key) == None
  {
  }

  /** After setting `key`, getting `key` yields the data just stored. */
  lemma LookupInsertSame<T>(b: seq<seq<Entry<T>>>, key: string, data: T, size: nat)
    requires |b| == BUCKETS
    ensures Lookup(Insert(b, key, data, size), key) == Some(data)
  {
    var h := Hash(key);
    var chain := b[h];
    var j := IndexOf(chain, key);
    var chain' := Insert(b, key, data, size)[h];
    InsertedChainKeys(b, key, data, size);
    IndexOfUnique(chain', key, j);
  }

  /** Setting `key` leaves what every other key maps to unchanged. */
  lemma LookupInsertOther<T>(b: seq<seq<Entry<T>>>, key: string, data: T, size: nat, other: string)
    requires |b| == BUCKETS
    requires other != key
    ensures Lookup(Insert(b, key, data, size), other) == Lookup(b, other)
  {
    var h := Hash(key);
    if Hash(other) == h {
      var chain := b[h];
      var j := IndexOf(chain, key);
      var chain' := Insert(b, key, data, size)[h];
      var o := IndexOf(chain, other);
      InsertedChainKeys(b, key, data, size);
      if o < |chain| {
        IndexOfUnique(chain', other, o);
        assert chain'[o] == chain[o];
      } else {
        IndexOfUnique(chain', other, |chain'|);
      }
    }
  }

  /**
    `hashtable_set` touches only bucket `Hash(key)`: an existing key keeps its
    place and the chain its length, a new key adds exactly one entry at the
    end of the chain.
  */
  lemma InsertShape<T>(b: seq<seq<Entry<T>>>, key: string, data: T, size: nat)
    requires |b| == BUCKETS
    ensures |Insert(b, key, data, size)| == BUCKETS
    ensures forall i :: 0 <= i < BUCKETS && i != Hash(key) ==> Insert(b, key, data, size)[i] == b[i]
    ensures Lookup(b, key).Some? ==>
      && |Insert(b, key, data, size)[Hash(key)]| == |b[Hash(key)]|
      && forall k :: 0 <= k < |b[Hash(key)]| ==>
           Insert(b, key, data, size)[Hash(key)][k].key == b[Hash(key)][k].key
    ensures Lookup(b, key).None? ==>
      Insert(b, key, data, size)[Hash(key)] == b[Hash(key)] + [Entry(key, data, size)]
  {
  }

  /** `IndexOf` is the only position that satisfies its own contract. */
  lemma IndexOfUnique<T>(chain: seq<Entry<T>>, key: string, j: nat)
    requires j <= |chain|
    requires j < |chain| ==> chain[j].key == key
    requires forall k :: 0 <= k < j ==> chain[k].key != key
    ensures IndexOf(chain, key) == j
  {
  }

  /** Every entry of the bucket `Insert` rewrote carries an old key or `key` itself. */
  lemma InsertedChainKeys<T>(b: seq<seq<Entry<T>>>, key: string, data: T, size: nat)
    requires |b| == BUCKETS
    ensures var h, chain := Hash(key), b[Hash(key)];
      var chain' := Insert(b, key, data, size)[h];
      && |chain'| >= |chain|
      && (forall k :: 0 <= k < |chain| ==> chain'[k].key == chain[k].key)
      && (|chain'| == |chain| <==> IndexOf(chain, key) < |chain|)
      && (|chain'| > |chain| ==> |chain'| == |chain| + 1 && chain'[|chain|].key == key)
  {
  }

  /** `hashtable_set` keeps the table invariant. */
  lemma InsertPreservesWellFormed<T>(b: seq<seq<Entry<T>>>, key: string, data: T, size: nat)
    requires WellFormed(b)
    ensures WellFormed(Insert(b, key, data, size))
  {
    var h, chain := Hash(key), b[Hash(key)];
    var r := Insert(b, key, data, size);
    InsertedChainKeys(b, key, data, size);
    assert forall i :: 0 <= i < BUCKETS && i != h ==> r[i] == b[i];
    forall i, j | 0 <= i < |r| && 0 <= j < |r[i]| ensures Hash(r[i][j].key) == i {
      if i == h && j < |chain| {
        assert r[i][j].key == chain[j].key;
      }
    }
    forall i, j, k | 0 <= i < |r| && 0 <= j < k < |r[i]| ensures r[i][j].key != r[i][k].key {
      if i == h && k == |chain| {
        assert IndexOf(chain, key) == |chain|;
        assert chain[j].key != key;
      }
    }
  }

  /** `hashtable_set` adds exactly `key` to the stored keys. */
  lemma InsertKeys<T>(b: seq<seq<Entry<T>>>, key: string, data: T, size: nat)
    requires |b| == BUCKETS
    ensures Keys(Insert(b, key, data, size)) == Keys(b) + {key}
  {
    var h, chain := Hash(key), b[Hash(key)];
    var r := Insert(b, key, data, size);
    InsertedChainKeys(b, key, data, size);
    assert forall i :: 0 <= i < BUCKETS && i != h ==> r[i] == b[i];
    forall x | x in Keys(r) ensures x in Keys(b) + {key} {
      var i, j :| 0 <= i < |r| && 0 <= j < |r[i]| && r[i][j].key == x;
      if i == h && j < |chain| {
        assert b[i][j].key == x;
      } else if i != h {
        assert b[i][j].key == x;
      }
    }
    forall x | x in Keys(b) + {key} ensures x in Keys(r) {
      if x in Keys(b) {
        var i, j :| 0 <= i < |b| && 0 <= j < |b[i]| && b[i][j].key == x;
        assert r[i][j].key == x;
      } else {
        var j := IndexOf(chain, key);
        assert r[h][j].key == key;
      }
    }
  }

  /** In a well-formed table, a key is found exactly when it is stored. */
  lemma LookupFindsStoredKeys<T>(b: seq<seq<Entry<T>>>, key: string)
    requires WellFormed(b)
    ensures Lookup(b, key).Some? <==> key in Keys(b)
  {
    if key in Keys(b) {
      var i, j :| 0 <= i < |b| && 0 <= j < |b[i]| && b[i][j].key == key;
      assert Hash(key) == i;
      assert IndexOf(b[i], key) <= j;
    }
  }

  /** `hashtable_calc_hash`: folds `hash = c + 31 * hash` over the key in `uint64_t` and reduces it mod 11. */
  method CalcHash(key: string) returns (h: nat)
    ensures h == Hash(key) && h < BUCKETS
  {
    var hash := 0;
    var it := 0;
    while it < |key|
      invariant 0 <= it <= |key|
      invariant hash == HashState(key[..it])
    {
      assert key[..it + 1][..it] == key[..it];
      hash := (CharWord(key[it]) + 31 * hash) % WORD;
      it := it + 1;
    }
    assert key[..it] == key;
    h := hash % BUCKETS;
  }

  /** One `hashtable_t`: the bucket array and `bucket_count`. */
  class HashTable<T> {
    var buckets: array<seq<Entry<T>>>
    var bucketCount: nat

    /** The shape of the structure: 11 buckets, and `bucket_count` says so. */
    ghost predicate Valid()
      reads this
    {
      buckets.Length == BUCKETS && bucketCount == BUCKETS
    }

    /** `hashtable_alloc`: 11 empty buckets, a well-formed table. */
    constructor ()
      ensures Valid() && fresh(buckets)
      ensures buckets[..] == EmptyBuckets() && WellFormed(buckets[..])
    {
      bucketCount := BUCKETS;
      buckets := new seq<Entry<T>>[BUCKETS](_ => []);
      new;
      assert buckets[..] == EmptyBuckets();
      EmptyIsWellFormed<T>();
    }

    /** `hashtable_get`: walks bucket `Hash(key)` and returns the data of the node with that key, or NULL. */
    method Get(key: string) returns (r: Option<T>)
      requires Valid()
      ensures r == Lookup(buckets[..], key)
    {
      var index := CalcHash(key);
      var chain := buckets[index];
      var j := 0;
      while j < |chain|
        invariant 0 <= j <= |chain|
        invariant forall k :: 0 <= k < j ==> chain[k].key != key
      {
        if chain[j].key == key {
          return Some(chain[j].data);
        }
        j := j + 1;
      }
      return None;
    }

    /** `hashtable_set`: overwrites the data of the node with that key, or appends a new node to its bucket. */
    method Set(key: string, data: T, size: nat)
      requires Valid()
      modifies buckets
      ensures Valid()
      ensures buckets[..] == Insert(old(buckets[..]), key, data, size)
      ensures WellFormed(old(buckets[..])) ==> WellFormed(buckets[..])
    {
      ghost var before := buckets[..];
      var index := CalcHash(key);
      var chain := buckets[index];
      var j := 0;
      while j < |chain| && chain[j].key != key
        invariant 0 <= j <= |chain|
        invariant forall k :: 0 <= k < j ==> chain[k].key != key
      {
        j := j + 1;
      }
      IndexOfUnique(chain, key, j);
      if j < |chain| {
        buckets[index] := chain[j := Entry(chain[j].key, data, size)];
      } else {
        buckets[index] := chain + [Entry(key, data, size)];
      }
      assert buckets[..] == Insert(before, key, data, size);
      if WellFormed(before) {
        InsertPreservesWellFormed(before, key, data, size);
      }
    }
  }
}
