/** The chained hash table (utils/hash_map.c), on the heap, as a finite map. */
module HashTables {
  import opened Basics

  class Entry<K, V> {
    const key: K
    var value: V
    var next: Entry?<K, V>

    constructor (key: K, value: V)
      ensures this.key == key && this.value == value && next == null
    {
      this.key, this.value, this.next := key, value, null;
    }
  }

  ghost function At<K, V>(c: seq<Entry<K, V>>, j: nat): Entry?<K, V>
  {
    if j < |c| then c[j] else null
  }

  /** Following next from head visits the chain c. */
  ghost predicate Links<K, V>(head: Entry?<K, V>, c: seq<Entry<K, V>>)
    reads c`next
  {
    && head == At(c, 0)
    && forall j {:trigger c[j].next} :: 0 <= j < |c| ==> c[j].next == At(c, j + 1)
  }

  /** The entries of c are in the map m. */
  ghost predicate Holds<K(!new), V>(c: seq<Entry<K, V>>, m: map<K, V>)
    reads c`value
  {
    forall e :: e in c ==> e.key in m && m[e.key] == e.value
  }

  ghost function Keys<K, V>(c: seq<Entry<K, V>>): set<K>
  {
    set e | e in c :: e.key
  }

  ghost predicate HasKey<K, V>(c: seq<Entry<K, V>>, k: K)
  {
    exists j :: 0 <= j < |c| && c[j].key == k
  }

  /** The bucket of a key; the hash is any pure function. */
  function BucketOf<K>(hash: K -> nat, n: nat, k: K): (b: nat)
    requires n > 0
    ensures b < n
  {
    hash(k) % n
  }

  /** What the removal as written leaves: it clears the whole bucket of the key. */
  function ClearBucket<K(!new), V>(m: map<K, V>, hash: K -> nat, n: nat, key: K): (r: map<K, V>)
    requires n > 0
    ensures forall k :: k in r <==> k in m && BucketOf(hash, n, k) != BucketOf(hash, n, key)
  {
    map k | k in m && BucketOf(hash, n, k) != BucketOf(hash, n, key) :: m[k]
  }

  /** The removal as written is a deletion exactly when the key has its bucket to itself. */
  lemma ClearBucketIsDeleteIff<K(!new), V>(m: map<K, V>, hash: K -> nat, n: nat, key: K)
    requires n > 0 && key in m
    ensures ClearBucket(m, hash, n, key) == m - {key}
       <==> forall k :: k in m && BucketOf(hash, n, k) == BucketOf(hash, n, key) ==> k == key
  {
    if forall k :: k in m && BucketOf(hash, n, k) == BucketOf(hash, n, key) ==> k == key {
      assert forall k :: k in ClearBucket(m, hash, n, key) <==> k in m - {key};
    } else {
      var k :| k in m && BucketOf(hash, n, k) == BucketOf(hash, n, key) && k != key;
      assert k in m - {key} && k !in ClearBucket(m, hash, n, key);
    }
  }

  /** Two colliding keys: removing one as written loses the other. */
  lemma ClearBucketLosesCollidingKey()
    ensures var m := map[true := 10, false := 30];
            ClearBucket(m, (k: bool) => 5, 2, true) == map[] && m - {true} == map[false := 30]
  {
  }

  class HashTable<K(==,!new), V> {
    const hash: K -> nat
    const buckets: array<Entry?<K, V>>
    var nEntries: int
    ghost var chains: seq<seq<Entry<K, V>>>  // the entries of each bucket, in order
    ghost var repr: set<Entry<K, V>>
    ghost var contents: map<K, V>            // the map the table stands for

    ghost predicate Valid()
      reads `chains, `repr, `contents, buckets, repr
    {
      && |chains| == buckets.Length > 0
      && (forall b :: 0 <= b < |chains| ==> Chain(b))
      && forall k :: k in contents ==> HasKey(chains[BucketOf(hash, buckets.Length, k)], k)
    }

    ghost predicate Chain(b: nat)
      requires b < |chains| == buckets.Length
      reads `chains, `repr, `contents, buckets, repr
    {
      && (forall e :: e in chains[b] ==> e in repr)
      && Links(buckets[b], chains[b])
      && Filed(chains[b], b)
      && Holds(chains[b], contents)
    }

    /** Every key of a chain hashes to its bucket, and no key occurs twice. */
    ghost predicate Filed(c: seq<Entry<K, V>>, b: nat)
      requires buckets.Length > 0
    {
      && (forall j :: 0 <= j < |c| ==> BucketOf(hash, buckets.Length, c[j].key) == b)
      && forall i, j :: 0 <= i < j < |c| ==> c[i].key != c[j].key
    }

    constructor (nBuckets: nat, hash: K -> nat)
      requires nBuckets > 0
      ensures Valid() && contents == map[] && nEntries == 0
      ensures this.hash == hash && buckets.Length == nBuckets && fresh(buckets) && repr == {}
    {
      this.hash, nEntries := hash, 0;
      buckets := new Entry?<K, V>[nBuckets](_ => null);
      chains, repr, contents := seq(nBuckets, _ => []), {}, map[];
    }

    /** The chain walk shared by insert, remove and get. */
    method Locate(key: K) returns (prev: Entry?<K, V>, entry: Entry?<K, V>, ghost j: nat)
      requires Valid()
      ensures var c := chains[BucketOf(hash, buckets.Length, key)];
              && j <= |c| && entry == At(c, j)
              && prev == (if j == 0 then null else c[j - 1])
      ensures entry != null ==> entry.key == key && key in contents
      ensures entry == null ==> key !in contents
    {
      var b := BucketOf(hash, buckets.Length, key);
      ghost var c := chains[b];
      prev, entry, j := null, buckets[b], 0;
      assert Chain(b);
      while entry != null
        invariant j <= |c| && entry == At(c, j)
        invariant prev == if j == 0 then null else c[j - 1]
        invariant forall i :: 0 <= i < j ==> c[i].key != key
        decreases |c| - j
      {
        if entry.key == key {
          return;
        }
        prev := entry;
        entry := entry.next;
        j := j + 1;
      }
      assert !HasKey(c, key);
    }

    method Get(key: K) returns (value: Option<V>)
      requires Valid()
      ensures value == if key in contents then Some(contents[key]) else None
    {
      var prev, entry, j := Locate(key);
      assert Chain(BucketOf(hash, buckets.Length, key));
      value := if entry != null then Some(entry.value) else None;
    }

    /** The entry count grows on overwrite too. */
    method Insert(key: K, value: V)
      requires Valid()
      modifies this, buckets, repr
      ensures Valid() && fresh(repr - old(repr))
      ensures contents == old(contents)[key := value]
      ensures nEntries == old(nEntries) + 1
      ensures key in old(contents) ==> repr == old(repr)
    {
      var prev, entry, j := Locate(key);
      if entry == null {
        var added := new Entry(key, value);
        Append(added, prev);
      } else {
        assert Chain(BucketOf(hash, buckets.Length, key));
        Overwrite(entry, j, value);
      }
      nEntries := nEntries + 1;
    }

    method Append(added: Entry<K, V>, prev: Entry?<K, V>)
      requires Valid() && added !in repr && added.next == null && added.key !in contents
      requires var c := chains[BucketOf(hash, buckets.Length, added.key)];
               prev == if c == [] then null else c[|c| - 1]
      modifies `chains, `repr, `contents, buckets, repr`next
      ensures Valid() && repr == old(repr) + {added}
      ensures contents == old(contents)[added.key := added.value]
    {
      var b := BucketOf(hash, buckets.Length, added.key);
      ghost var c := chains[b];
      assert Chain(b);
      LinkLast(b, prev, added);
      label linked:
      repr := repr + {added};
      forall i | 0 <= i < |chains| && i != b
        ensures Chain(i)
      {
        assert old@linked(Chain(i));
      }
      AppendedKeepsKeys(c, added);
      assert contents[added.key := added.value] - {added.key} == contents - {added.key};
      Refile(b, c + [added], contents[added.key := added.value], added.key);
    }

    /** Replaces the chain of one bucket, when the map changes at one key of that bucket only. */
    ghost method Refile(b: nat, c: seq<Entry<K, V>>, m: map<K, V>, key: K)
      requires |chains| == buckets.Length > 0 && b == BucketOf(hash, buckets.Length, key)
      requires forall i :: 0 <= i < |chains| && i != b ==> Chain(i)
      requires (forall e :: e in c ==> e in repr) && Links(buckets[b], c) && Filed(c, b) && Holds(c, m)
      requires m - {key} == contents - {key}
      requires forall k :: k in contents ==> HasKey(chains[BucketOf(hash, buckets.Length, k)], k)
      requires forall k :: HasKey(chains[b], k) && k != key ==> HasKey(c, k)
      requires key in m ==> HasKey(c, key)
      modifies `chains, `contents
      ensures Valid() && contents == m
    {
      forall i | 0 <= i < |chains| && i != b
        ensures Holds(chains[i], m)
      {
        assert Chain(i);
        forall e | e in chains[i]
          ensures e.key in m && m[e.key] == e.value
        {
          assert e.key in contents - {key};
        }
      }
      forall k | k in m
        ensures HasKey(chains[b := c][BucketOf(hash, buckets.Length, k)], k)
      {
        assert k != key ==> k in m - {key};
      }
      chains := chains[b := c];
      contents := m;
      forall i | 0 <= i < |chains|
        ensures Chain(i)
      {
        assert i != b ==> old(Chain(i));
      }
    }

    method LinkLast(b: nat, prev: Entry?<K, V>, added: Entry<K, V>)
      requires Valid() && b < |chains| && added !in repr && added.next == null
      requires prev == if chains[b] == [] then null else chains[b][|chains[b]| - 1]
      modifies buckets, repr`next
      ensures Links(buckets[b], chains[b] + [added])
      ensures forall i :: 0 <= i < |chains| && i != b ==> Chain(i)
    {
      assert Chain(b);
      if prev == null {
        buckets[b] := added;
      } else {
        prev.next := added;
      }
      forall i | 0 <= i < |chains| && i != b
        ensures Chain(i)
      {
        assert old(Chain(i));
      }
    }

    method Overwrite(entry: Entry<K, V>, ghost j: nat, value: V)
      requires Valid() && entry.key in contents
      requires var c := chains[BucketOf(hash, buckets.Length, entry.key)]; j < |c| && c[j] == entry
      modifies `contents, entry`value
      ensures Valid()
      ensures contents == old(contents)[entry.key := value]
    {
      entry.value := value;
      contents := contents[entry.key := value];
      forall i | 0 <= i < |chains|
        ensures Chain(i)
      {
        assert old(Chain(i));
      }
    }

    /** As written: unlinking the found entry from itself changes nothing, then the bucket is cleared. */
    method RemoveAsWritten(key: K) returns (result: int)
      requires Valid()
      modifies this, buckets
      ensures Valid() && repr == old(repr)
      ensures result == if key in old(contents) then 0 else -1
      ensures contents == if key in old(contents) then ClearBucket(old(contents), hash, buckets.Length, key)
                          else old(contents)
      ensures nEntries == if key in old(contents) then old(nEntries) - 1 else old(nEntries)
    {
      var b := BucketOf(hash, buckets.Length, key);
      var prev, entry, j := Locate(key);
      if entry == null {
        return -1;
      }
      buckets[b] := null;
      nEntries := nEntries - 1;
      chains := chains[b := []];
      contents := ClearBucket(contents, hash, buckets.Length, key);
      forall i | 0 <= i < |chains|
        ensures Chain(i)
      {
        assert old(Chain(i));
      }
      return 0;
    }

    /** As meant: the entry is unlinked from the one before it. */
    method Remove(key: K) returns (result: int)
      requires Valid()
      modifies this, buckets, repr`next
      ensures Valid() && repr == old(repr)
      ensures result == if key in old(contents) then 0 else -1
      ensures contents == old(contents) - {key}
      ensures nEntries == if key in old(contents) then old(nEntries) - 1 else old(nEntries)
    {
      var b := BucketOf(hash, buckets.Length, key);
      var prev, entry, j := Locate(key);
      if entry == null {
        return -1;
      }
      Unlink(b, prev, entry, j);
      nEntries := nEntries - 1;
      return 0;
    }

    method Unlink(b: nat, prev: Entry?<K, V>, entry: Entry<K, V>, ghost j: nat)
      requires Valid() && b == BucketOf(hash, buckets.Length, entry.key)
      requires j < |chains[b]| && chains[b][j] == entry
      requires prev == if j == 0 then null else chains[b][j - 1]
      modifies `chains, `contents, buckets, repr`next
      ensures Valid()
      ensures contents == old(contents) - {entry.key}
    {
      ghost var c := chains[b];
      assert Chain(b);
      Bypass(b, prev, entry, j);
      UnlinkedKeepsKeys(c, j);
      Refile(b, c[..j] + c[j + 1..], contents - {entry.key}, entry.key);
    }

    method Bypass(b: nat, prev: Entry?<K, V>, entry: Entry<K, V>, ghost j: nat)
      requires Valid() && b < |chains|
      requires j < |chains[b]| && chains[b][j] == entry
      requires prev == if j == 0 then null else chains[b][j - 1]
      modifies buckets, repr`next
      ensures Links(buckets[b], chains[b][..j] + chains[b][j + 1..])
      ensures forall i :: 0 <= i < |chains| && i != b ==> Chain(i)
    {
      assert Chain(b);
      if prev == null {
        buckets[b] := entry.next;
      } else {
        prev.next := entry.next;
      }
      forall i | 0 <= i < |chains| && i != b
        ensures Chain(i)
      {
        assert old(Chain(i));
      }
    }
  }

  lemma AppendedKeepsKeys<K(!new), V>(c: seq<Entry<K, V>>, e: Entry<K, V>)
    ensures forall k :: HasKey(c, k) || k == e.key ==> HasKey(c + [e], k)
  {
    assert (c + [e])[|c|].key == e.key;
    forall k | HasKey(c, k)
      ensures HasKey(c + [e], k)
    {
      var i :| 0 <= i < |c| && c[i].key == k;
      assert (c + [e])[i].key == k;
    }
  }

  lemma UnlinkedKeepsKeys<K(!new), V>(c: seq<Entry<K, V>>, j: nat)
    requires j < |c|
    ensures forall k :: HasKey(c, k) && k != c[j].key ==> HasKey(c[..j] + c[j + 1..], k)
  {
    var r := c[..j] + c[j + 1..];
    forall k | HasKey(c, k) && k != c[j].key
      ensures HasKey(r, k)
    {
      var i :| 0 <= i < |c| && c[i].key == k;
      assert r[if i < j then i else i - 1] == c[i];
    }
  }

  /** Two keys are in one bucket exactly when their hashes agree modulo the number of buckets. */
  lemma BucketIs<K>(hash: K -> nat, n: nat, k: K, l: K)
    requires n > 0
    ensures BucketOf(hash, n, k) == BucketOf(hash, n, l) <==> (hash(k) - hash(l)) % n == 0
  {
    ModDiff(hash(k), hash(l), n);
  }

  lemma ModDiff(a: nat, b: nat, n: nat)
    requires n > 0
    ensures a % n == b % n <==> (a - b) % n == 0
  {
    var q, r := a / n, b / n;
    assert a == q * n + a % n && b == r * n + b % n;
    var d := a % n - b % n;
    assert a - b == (q - r) * n + d;
    ModShift(q - r, d, n);
  }

  lemma ModShift(k: int, d: int, n: nat)
    requires n > 0 && d < n && d + n > 0
    ensures (k * n + d) % n == 0 <==> d == 0
  {
    var x := k * n + d;
    if d == 0 {
      assert x == k * n;
      DivUnique(x, k, 0, n);
    } else if d > 0 {
      DivUnique(x, k, d, n);
    } else {
      assert x == (k - 1) * n + (d + n);
      DivUnique(x, k - 1, d + n, n);
    }
  }

  lemma DivUnique(x: int, k: int, d: nat, n: nat)
    requires n > 0 && d < n && x == k * n + d
    ensures x % n == d
  {
    var q := x / n;
    assert x == q * n + x % n;
    assert (k - q) * n == x % n - d && (q - k) * n == d - x % n;
    AtLeast(k - q, n);
    AtLeast(q - k, n);
  }

  lemma AtLeast(m: int, n: nat)
    ensures m >= 1 ==> m * n >= n
  {
  }

  /** A removal as written keeps every key whose hash differs from that of the key removed modulo the
      number of buckets, with its value, and no other. */
  lemma ClearBucketKeeps<K(!new), V>(m: map<K, V>, hash: K -> nat, n: nat, key: K, k: K)
    requires n > 0 && k in m
    ensures var left := ClearBucket(m, hash, n, key);
            if (hash(k) - hash(key)) % n == 0 then k !in left else k in left && left[k] == m[k]
  {
    BucketIs(hash, n, k, key);
  }
}
