/** The hash table's buckets: five direct slots, and a chain of overflow items hanging off the last one. */
module HashTable {
  import opened Wrappers
  import opened Bytes
  import opened Sequences
  import opened LogLayout

  /** TABLESZ(HASHTABLE_POWER) */
  const N_BUCKETS: nat := 32768
  const N_SLOTS: nat := 5

  datatype Bucket = Bucket(items: seq<Option<Addr>>, hashes: seq<nat>)

  datatype Key = Key(hv: nat, bytes: seq<byte>)

  /** Which item is current for each key. */
  type Index = map<Key, Addr>

  function KeyOf(it: Item): Key {
    Key(it.hv, it.key)
  }

  /** item_hkey_matches compares what a Key holds. */
  lemma KeyOfMatch(it: Item, hv: nat, key: seq<byte>)
    ensures KeyOf(it) == Key(hv, key) <==> it.hv == hv && |key| == |it.key| && it.key == key
  {
  }

  function BucketOf(hv: nat): nat {
    hv % N_BUCKETS
  }

  ghost predicate InTable(mem: Memory, index: Index, a: Addr) {
    a in mem && KeyOf(mem[a]) in index && index[KeyOf(mem[a])] == a
  }

  /** What a table item of bucket `n` must satisfy. */
  ghost predicate Member(mem: Memory, index: Index, n: nat, a: Addr) {
    InTable(mem, index, a) && BucketOf(mem[a].hv) == n
  }

  function First(chain: seq<Addr>): Option<Addr> {
    if chain == [] then None else Some(chain[0])
  }

  function After(chain: seq<Addr>, j: nat): Option<Addr>
    requires j < |chain|
  {
    if j + 1 < |chain| then Some(chain[j + 1]) else None
  }

  ghost predicate SlotsOk(mem: Memory, index: Index, n: nat, b: Bucket) {
    && |b.items| == N_SLOTS && |b.hashes| == N_SLOTS
    && (forall i, j :: 0 <= i < j < N_SLOTS && b.items[i].Some? ==> b.items[i] != b.items[j])
    && (forall i :: 0 <= i < N_SLOTS && b.items[i].Some? ==>
          Member(mem, index, n, b.items[i].value) && b.hashes[i] == mem[b.items[i].value].hv)
  }

  /** The overflow chain is exactly what following `next` from the last slot visits: finite, without repetition. */
  ghost predicate ChainOk(mem: Memory, index: Index, n: nat, last: Option<Addr>, chain: seq<Addr>) {
    && (forall i, j :: 0 <= i < j < |chain| ==> chain[i] != chain[j])
    && (forall i :: 0 <= i < |chain| ==> Member(mem, index, n, chain[i]) && mem[chain[i]].next == After(chain, i))
    && (chain != [] ==> last.Some?)
    && (last.Some? ==> last.value in mem && mem[last.value].next == First(chain))
  }

  lemma ChainAt(mem: Memory, index: Index, n: nat, last: Addr, chain: seq<Addr>, j: nat)
    requires ChainOk(mem, index, n, Some(last), chain) && j <= |chain|
    ensures last in mem && mem[last].next == First(chain)
    ensures j < |chain| ==> chain[j] in mem && Member(mem, index, n, chain[j]) && mem[chain[j]].next == After(chain, j)
  {
  }

  lemma ChainEmpty(mem: Memory, index: Index, n: nat, chain: seq<Addr>)
    requires ChainOk(mem, index, n, None, chain)
    ensures chain == []
  {
  }

  ghost predicate BucketOk(mem: Memory, index: Index, n: nat, b: Bucket, chain: seq<Addr>) {
    && SlotsOk(mem, index, n, b)
    && ChainOk(mem, index, n, b.items[N_SLOTS - 1], chain)
    && (forall i :: 0 <= i < |chain| ==> Some(chain[i]) !in b.items)
  }

  ghost predicate InBucket(b: Bucket, chain: seq<Addr>, a: Addr) {
    Some(a) in b.items || a in chain
  }

  /** A lookup that goes through bucket `n` misses no key. */
  ghost predicate Covers(index: Index, n: nat, b: Bucket, chain: seq<Addr>) {
    forall k: Key :: k in index && BucketOf(k.hv) == n ==> InBucket(b, chain, index[k])
  }

  /** The overflow chain is used only while no slot is free. */
  ghost predicate SlotsFirst(b: Bucket, chain: seq<Addr>) {
    chain != [] ==> None !in b.items
  }

  ghost predicate IndexOk(mem: Memory, index: Index) {
    forall k :: k in index ==> index[k] in mem && KeyOf(mem[index[k]]) == k
  }

  /** Every key of the index is stored once, in the bucket of its hash, and the buckets hold nothing else. */
  ghost predicate TableOk(mem: Memory, index: Index, buckets: seq<Bucket>, chains: seq<seq<Addr>>) {
    && |buckets| == N_BUCKETS && |chains| == N_BUCKETS
    && IndexOk(mem, index)
    && (forall n :: 0 <= n < N_BUCKETS ==> BucketOk(mem, index, n, buckets[n], chains[n]))
    && (forall n :: 0 <= n < N_BUCKETS ==> Covers(index, n, buckets[n], chains[n]))
    && (forall n :: 0 <= n < N_BUCKETS ==> SlotsFirst(buckets[n], chains[n]))
  }

  /** The table is untouched by changes that keep the contents and links of its items. */
  ghost predicate SameEntry(mem: Memory, mem': Memory, a: Addr) {
    a in mem && a in mem' && KeyOf(mem'[a]) == KeyOf(mem[a]) && mem'[a].next == mem[a].next
  }

  lemma BucketFrame(mem: Memory, mem': Memory, index: Index, index': Index, n: nat, b: Bucket, chain: seq<Addr>)
    requires BucketOk(mem, index, n, b, chain)
    requires forall a :: Member(mem, index, n, a) ==> SameEntry(mem, mem', a)
    requires forall k: Key :: k in index && BucketOf(k.hv) == n ==> k in index' && index'[k] == index[k]
    ensures BucketOk(mem', index', n, b, chain)
  {
    forall a | Member(mem, index, n, a) ensures Member(mem', index', n, a) && SameEntry(mem, mem', a) {}
    forall i | 0 <= i < N_SLOTS && b.items[i].Some?
      ensures Member(mem', index', n, b.items[i].value) && b.hashes[i] == mem'[b.items[i].value].hv {
      assert Member(mem, index, n, b.items[i].value);
    }
    forall i | 0 <= i < |chain|
      ensures Member(mem', index', n, chain[i]) && mem'[chain[i]].next == After(chain, i) {
      assert Member(mem, index, n, chain[i]);
    }
  }

  lemma TableFrame(mem: Memory, mem': Memory, index: Index, buckets: seq<Bucket>, chains: seq<seq<Addr>>)
    requires TableOk(mem, index, buckets, chains)
    requires forall a :: InTable(mem, index, a) ==> SameEntry(mem, mem', a)
    ensures TableOk(mem', index, buckets, chains)
  {
    forall n | 0 <= n < N_BUCKETS ensures BucketOk(mem', index, n, buckets[n], chains[n]) {
      BucketFrame(mem, mem', index, index, n, buckets[n], chains[n]);
    }
    forall k | k in index ensures index[k] in mem' && KeyOf(mem'[index[k]]) == k {
      assert InTable(mem, index, index[k]);
    }
  }

  lemma BucketIn(mem: Memory, index: Index, buckets: seq<Bucket>, chains: seq<seq<Addr>>, n: nat)
    requires TableOk(mem, index, buckets, chains) && n < N_BUCKETS
    ensures |buckets| == |chains| == N_BUCKETS && IndexOk(mem, index)
    ensures BucketOk(mem, index, n, buckets[n], chains[n]) && Covers(index, n, buckets[n], chains[n])
    ensures SlotsFirst(buckets[n], chains[n])
  {
  }

  lemma SlotKeys(mem: Memory, index: Index, n: nat, b: Bucket, hv: nat, key: seq<byte>)
    requires SlotsOk(mem, index, n, b)
    ensures forall i :: 0 <= i < N_SLOTS && b.items[i].Some? ==>
      (KeyOf(mem[b.items[i].value]) == Key(hv, key) <==> b.hashes[i] == hv && mem[b.items[i].value].key == key)
  {
  }

  /** Neither in a slot nor in the chain: not in the table. */
  lemma Missed(mem: Memory, index: Index, n: nat, b: Bucket, chain: seq<Addr>, k: Key)
    requires BucketOk(mem, index, n, b, chain) && Covers(index, n, b, chain) && IndexOk(mem, index)
    requires BucketOf(k.hv) == n
    requires forall j :: 0 <= j < N_SLOTS && b.items[j].Some? ==> KeyOf(mem[b.items[j].value]) != k
    requires forall j :: 0 <= j < |chain| ==> KeyOf(mem[chain[j]]) != k
    ensures k !in index
  {
    assert k in index ==> InBucket(b, chain, index[k]);
  }

  /** Common part of every insertion of `nit` into bucket `n`: the new bucket is right, the others did not change. */
  lemma Inserted(mem: Memory, mem': Memory, index: Index, buckets: seq<Bucket>, chains: seq<seq<Addr>>,
                 n: nat, b': Bucket, chain': seq<Addr>, nit: Addr)
    requires TableOk(mem, index, buckets, chains)
    requires nit in mem && nit in mem' && KeyOf(mem'[nit]) == KeyOf(mem[nit])
    requires n == BucketOf(mem[nit].hv)
    requires forall a :: InTable(mem, index, a) && BucketOf(mem[a].hv) != n ==> SameEntry(mem, mem', a)
    requires forall a :: InTable(mem, index, a) ==> a in mem' && KeyOf(mem'[a]) == KeyOf(mem[a])
    requires BucketOk(mem', index[KeyOf(mem[nit]) := nit], n, b', chain')
    requires Covers(index[KeyOf(mem[nit]) := nit], n, b', chain') && SlotsFirst(b', chain')
    ensures TableOk(mem', index[KeyOf(mem[nit]) := nit], buckets[n := b'], chains[n := chain'])
  {
    var index' := index[KeyOf(mem[nit]) := nit];
    var buckets', chains' := buckets[n := b'], chains[n := chain'];
    forall m | 0 <= m < N_BUCKETS
      ensures BucketOk(mem', index', m, buckets'[m], chains'[m]) && Covers(index', m, buckets'[m], chains'[m]) {
      if m != n {
        BucketFrame(mem, mem', index, index', m, buckets[m], chains[m]);
        assert Covers(index, m, buckets[m], chains[m]);
      }
    }
    forall k | k in index' ensures index'[k] in mem' && KeyOf(mem'[index'[k]]) == k {
      if k != KeyOf(mem[nit]) { assert InTable(mem, index, index[k]); }
    }
  }

  /** The setting of an insertion: `nit` is not in the table yet, and `mem'` keeps every key. */
  ghost predicate Insertion(mem: Memory, mem': Memory, index: Index, n: nat, b: Bucket, chain: seq<Addr>, nit: Addr) {
    && IndexOk(mem, index) && BucketOk(mem, index, n, b, chain) && Covers(index, n, b, chain)
    && nit in mem && !InTable(mem, index, nit) && n == BucketOf(mem[nit].hv)
    && (forall a :: a in mem ==> a in mem' && KeyOf(mem'[a]) == KeyOf(mem[a]))
  }

  lemma StillMember(mem: Memory, mem': Memory, index: Index, n: nat, b: Bucket, chain: seq<Addr>, nit: Addr, a: Addr)
    requires Insertion(mem, mem', index, n, b, chain, nit)
    requires Member(mem, index, n, a) && KeyOf(mem[a]) != KeyOf(mem[nit])
    ensures a != nit && Member(mem', index[KeyOf(mem[nit]) := nit], n, a)
  {
  }

  /** The slots after `nit` took over slot `i` from an item of the same key, or from none or one that moved on. */
  lemma SlotsAfter(mem: Memory, mem': Memory, index: Index, n: nat, b: Bucket, chain: seq<Addr>, nit: Addr, i: nat)
    requires Insertion(mem, mem', index, n, b, chain, nit)
    requires i < N_SLOTS
    requires forall j :: 0 <= j < N_SLOTS && j != i && b.items[j].Some? ==>
                           KeyOf(mem[b.items[j].value]) != KeyOf(mem[nit])
    ensures SlotsOk(mem', index[KeyOf(mem[nit]) := nit], n,
                    Bucket(b.items[i := Some(nit)], b.hashes[i := mem[nit].hv]))
  {
    forall j | 0 <= j < N_SLOTS && j != i && b.items[j].Some?
      ensures b.items[j].value != nit && Member(mem', index[KeyOf(mem[nit]) := nit], n, b.items[j].value)
    {
      StillMember(mem, mem', index, n, b, chain, nit, b.items[j].value);
    }
  }

  /** Keys are stored once: an item with the key of `it` is `it`. */
  lemma SameKeySameItem(mem: Memory, index: Index, n: nat, a: Addr, it: Addr)
    requires Member(mem, index, n, a) && Member(mem, index, n, it)
    ensures KeyOf(mem[a]) == KeyOf(mem[it]) <==> a == it
  {
  }

  /** hasht_put, an existing item in a direct slot. */
  lemma ReplacedInSlot(mem: Memory, mem': Memory, index: Index, buckets: seq<Bucket>, chains: seq<seq<Addr>>,
                       n: nat, i: nat, nit: Addr, it: Addr)
    requires TableOk(mem, index, buckets, chains)
    requires nit in mem && !InTable(mem, index, nit) && n == BucketOf(mem[nit].hv)
    requires i < N_SLOTS && buckets[n].items[i] == Some(it) && it in mem && KeyOf(mem[it]) == KeyOf(mem[nit])
    requires nit in mem' && KeyOf(mem'[nit]) == KeyOf(mem[nit]) && mem'[nit].next == mem[it].next
    requires forall a :: a in mem && a != nit ==> SameEntry(mem, mem', a)
    ensures TableOk(mem', index[KeyOf(mem[nit]) := nit],
                    buckets[n := buckets[n].(items := buckets[n].items[i := Some(nit)])], chains)
  {
    var b, chain := buckets[n], chains[n];
    var b' := b.(items := b.items[i := Some(nit)]);
    SlotReplaced(mem, mem', index, n, b, chain, nit, i, it);
    assert chains[n := chain] == chains;
    assert Member(mem, index, n, it);
    Inserted(mem, mem', index, buckets, chains, n, b', chain, nit);
  }

  lemma SlotReplaced(mem: Memory, mem': Memory, index: Index, n: nat, b: Bucket, chain: seq<Addr>, nit: Addr, i: nat,
                     it: Addr)
    requires Insertion(mem, mem', index, n, b, chain, nit)
    requires i < N_SLOTS && b.items[i] == Some(it) && it in mem && KeyOf(mem[it]) == KeyOf(mem[nit])
    requires mem'[nit].next == mem[it].next
    requires forall a :: a in mem && a != nit ==> mem'[a].next == mem[a].next
    ensures var index' := index[KeyOf(mem[nit]) := nit];
            var b' := b.(items := b.items[i := Some(nit)]);
            BucketOk(mem', index', n, b', chain) && Covers(index', n, b', chain)
  {
    var index' := index[KeyOf(mem[nit]) := nit];
    var b' := b.(items := b.items[i := Some(nit)]);
    var last := N_SLOTS - 1;
    assert Member(mem, index, n, it) && b.items[i] in b.items;
    forall j | 0 <= j < N_SLOTS && j != i && b.items[j].Some? ensures KeyOf(mem[b.items[j].value]) != KeyOf(mem[nit]) {
      SameKeySameItem(mem, index, n, b.items[j].value, it);
    }
    SlotsAfter(mem, mem', index, n, b, chain, nit, i);
    assert b' == Bucket(b.items[i := Some(nit)], b.hashes[i := mem[nit].hv]);
    forall j | 0 <= j < |chain|
      ensures Member(mem', index', n, chain[j]) && mem'[chain[j]].next == After(chain, j) && Some(chain[j]) !in b'.items
    {
      SameKeySameItem(mem, index, n, chain[j], it);
      StillMember(mem, mem', index, n, b, chain, nit, chain[j]);
    }
    assert ChainOk(mem', index', n, b'.items[last], chain);
    forall k: Key | k in index' && BucketOf(k.hv) == n ensures InBucket(b', chain, index'[k]) {
      if k == KeyOf(mem[nit]) { assert b'.items[i] == Some(nit); }
      else if index[k] !in chain {
        var j :| 0 <= j < N_SLOTS && b.items[j] == Some(index[k]);
        assert b'.items[j] == Some(index[k]);
      }
    }
  }

  /** hasht_put, an existing item in the overflow chain; `prev` is the item before it. */
  lemma ReplacedInChain(mem: Memory, mem': Memory, index: Index, buckets: seq<Bucket>, chains: seq<seq<Addr>>,
                        n: nat, b: Bucket, chain: seq<Addr>, j: nat, nit: Addr, prev: Addr)
    requires TableOk(mem, index, buckets, chains)
    requires nit in mem && !InTable(mem, index, nit) && n == BucketOf(mem[nit].hv)
    requires buckets[n] == b && chains[n] == chain
    requires j < |chain| && chain[j] in mem && KeyOf(mem[chain[j]]) == KeyOf(mem[nit])
    requires IsPrev(b, chain, j, prev)
    requires nit in mem' && KeyOf(mem'[nit]) == KeyOf(mem[nit]) && mem'[nit].next == After(chain, j)
    requires prev in mem && prev in mem' && KeyOf(mem'[prev]) == KeyOf(mem[prev]) && mem'[prev].next == Some(nit)
    requires forall a :: a in mem && a != nit && a != prev ==> SameEntry(mem, mem', a)
    ensures TableOk(mem', index[KeyOf(mem[nit]) := nit], buckets, chains[n := chain[j := nit]])
  {
    assert BucketOk(mem, index, n, b, chain) && Covers(index, n, b, chain);
    PrevMember(mem, index, n, b, chain, j, prev);
    assert forall a :: a in mem ==> a in mem' && KeyOf(mem'[a]) == KeyOf(mem[a]) by {
      forall a | a in mem ensures a in mem' && KeyOf(mem'[a]) == KeyOf(mem[a]) {
        if a != nit && a != prev { assert SameEntry(mem, mem', a); }
      }
    }
    ChainReplaced(mem, mem', index, n, b, chain, nit, j, prev);
    assert buckets[n := b] == buckets;
    Inserted(mem, mem', index, buckets, chains, n, b, chain[j := nit], nit);
  }

  ghost predicate IsPrev(b: Bucket, chain: seq<Addr>, j: nat, prev: Addr) {
    && |b.items| == N_SLOTS && j < |chain|
    && if j == 0 then b.items[N_SLOTS - 1] == Some(prev) else prev == chain[j - 1]
  }

  lemma PrevMember(mem: Memory, index: Index, n: nat, b: Bucket, chain: seq<Addr>, j: nat, prev: Addr)
    requires BucketOk(mem, index, n, b, chain) && IsPrev(b, chain, j, prev)
    ensures Member(mem, index, n, prev)
  {
  }

  lemma PrevDiffers(mem: Memory, index: Index, n: nat, b: Bucket, chain: seq<Addr>, j: nat, prev: Addr)
    requires BucketOk(mem, index, n, b, chain) && IsPrev(b, chain, j, prev)
    ensures Member(mem, index, n, prev) && Member(mem, index, n, chain[j]) && prev != chain[j]
    ensures mem[chain[j]].next == After(chain, j)
  {
    assert b.items[N_SLOTS - 1] in b.items;
  }

  lemma ChainReplaced(mem: Memory, mem': Memory, index: Index, n: nat, b: Bucket, chain: seq<Addr>, nit: Addr, j: nat,
                      prev: Addr)
    requires Insertion(mem, mem', index, n, b, chain, nit)
    requires j < |chain| && KeyOf(mem[chain[j]]) == KeyOf(mem[nit])
    requires IsPrev(b, chain, j, prev)
    requires prev in mem && mem'[prev].next == Some(nit) && mem'[nit].next == After(chain, j)
    requires forall a :: a in mem && a != nit && a != prev ==> mem'[a].next == mem[a].next
    ensures var index' := index[KeyOf(mem[nit]) := nit];
            BucketOk(mem', index', n, b, chain[j := nit]) && Covers(index', n, b, chain[j := nit])
  {
    var index', last := index[KeyOf(mem[nit]) := nit], b.items[N_SLOTS - 1].value;
    assert b.items[N_SLOTS - 1] in b.items;
    OthersStay(mem, mem', index, n, b, chain, nit, j);
    hide SlotsOk, Member, Insertion;
    ChainLinks(mem, mem', index, index', n, last, chain, nit, j, prev);
    ChainCovers(index, n, b, chain, KeyOf(mem[nit]), nit, j);
  }

  /** What else is in the bucket. */
  lemma OthersStay(mem: Memory, mem': Memory, index: Index, n: nat, b: Bucket, chain: seq<Addr>, nit: Addr, j: nat)
    requires Insertion(mem, mem', index, n, b, chain, nit)
    requires j < |chain| && KeyOf(mem[chain[j]]) == KeyOf(mem[nit])
    ensures var index' := index[KeyOf(mem[nit]) := nit];
            && SlotsOk(mem', index', n, b) && Some(nit) !in b.items && Member(mem', index', n, nit)
            && (forall i :: 0 <= i < |chain| && i != j ==> chain[i] != nit && Member(mem', index', n, chain[i]))
    ensures forall k :: k in index && index[k] == chain[j] ==> k == KeyOf(mem[nit])
  {
    var index', it := index[KeyOf(mem[nit]) := nit], chain[j];
    forall i | 0 <= i < N_SLOTS && b.items[i].Some?
      ensures b.items[i].value != nit && Member(mem', index', n, b.items[i].value)
    {
      assert b.items[i] in b.items;
      SameKeySameItem(mem, index, n, b.items[i].value, it);
      StillMember(mem, mem', index, n, b, chain, nit, b.items[i].value);
    }
    forall i | 0 <= i < |chain| && i != j ensures chain[i] != nit && Member(mem', index', n, chain[i]) {
      SameKeySameItem(mem, index, n, chain[i], it);
      StillMember(mem, mem', index, n, b, chain, nit, chain[i]);
    }
  }

  lemma ChainCovers(index: Index, n: nat, b: Bucket, chain: seq<Addr>, key: Key, nit: Addr, j: nat)
    requires Covers(index, n, b, chain) && j < |chain|
    requires forall k :: k in index && index[k] == chain[j] ==> k == key
    ensures Covers(index[key := nit], n, b, chain[j := nit])
  {
    var chain' := chain[j := nit];
    forall k: Key | k in index[key := nit] && BucketOf(k.hv) == n ensures InBucket(b, chain', index[key := nit][k]) {
      if k == key { assert chain'[j] == nit; }
      else if Some(index[k]) !in b.items {
        var i :| 0 <= i < |chain| && chain[i] == index[k];
        assert chain'[i] == index[k];
      }
    }
  }

  lemma ChainLinks(mem: Memory, mem': Memory, index: Index, index': Index, n: nat, last: Addr, chain: seq<Addr>,
                   nit: Addr, j: nat, prev: Addr)
    requires ChainOk(mem, index, n, Some(last), chain)
    requires j < |chain| && last != nit && last !in chain
    requires if j == 0 then last == prev else prev == chain[j - 1]
    requires last in mem' && prev in mem' && nit in mem' && mem'[prev].next == Some(nit)
    requires mem'[nit].next == After(chain, j)
    requires forall a :: a in mem && a != nit && a != prev ==> a in mem' && mem'[a].next == mem[a].next
    requires Member(mem', index', n, nit)
    requires forall i :: 0 <= i < |chain| && i != j ==> chain[i] != nit && Member(mem', index', n, chain[i])
    ensures ChainOk(mem', index', n, Some(last), chain[j := nit])
  {
    var chain' := chain[j := nit];
    forall i | 0 <= i < |chain'| ensures mem'[chain'[i]].next == After(chain', i) {
      if i + 1 == j { assert chain[i] == prev; }
      else if i != j {
        assert chain[i] != prev;
        assert mem[chain[i]].next == After(chain, i);
      }
    }
  }

  /** hasht_put, a new key: into slot `di`, whose old item (if any) becomes the head of the overflow chain. */
  lemma InsertedNew(mem: Memory, mem': Memory, index: Index, buckets: seq<Bucket>, chains: seq<seq<Addr>>,
                    n: nat, di: nat, nit: Addr)
    requires TableOk(mem, index, buckets, chains)
    requires nit in mem && !InTable(mem, index, nit) && n == BucketOf(mem[nit].hv)
    requires KeyOf(mem[nit]) !in index
    requires di < N_SLOTS && (buckets[n].items[di].Some? ==> di == N_SLOTS - 1 && None !in buckets[n].items)
    requires nit in mem' && KeyOf(mem'[nit]) == KeyOf(mem[nit]) && mem'[nit].next == buckets[n].items[di]
    requires forall a :: a in mem && a != nit ==> SameEntry(mem, mem', a)
    ensures var b := buckets[n];
            TableOk(mem', index[KeyOf(mem[nit]) := nit],
                    buckets[n := Bucket(b.items[di := Some(nit)], b.hashes[di := mem[nit].hv])],
                    chains[n := if b.items[di].Some? then [b.items[di].value] + chains[n] else chains[n]])
  {
    var b, chain := buckets[n], chains[n];
    var chain' := if b.items[di].Some? then [b.items[di].value] + chain else chain;
    SlotFilled(mem, mem', index, n, b, chain, nit, di, chain');
    Inserted(mem, mem', index, buckets, chains, n, Bucket(b.items[di := Some(nit)], b.hashes[di := mem[nit].hv]),
             chain', nit);
  }

  lemma SlotFilled(mem: Memory, mem': Memory, index: Index, n: nat, b: Bucket, chain: seq<Addr>, nit: Addr, di: nat,
                   chain': seq<Addr>)
    requires Insertion(mem, mem', index, n, b, chain, nit)
    requires KeyOf(mem[nit]) !in index
    requires di < N_SLOTS && (b.items[di].Some? ==> di == N_SLOTS - 1)
    requires chain' == if b.items[di].Some? then [b.items[di].value] + chain else chain
    requires mem'[nit].next == b.items[di]
    requires forall a :: a in mem && a != nit ==> mem'[a].next == mem[a].next
    ensures var index' := index[KeyOf(mem[nit]) := nit];
            var b' := Bucket(b.items[di := Some(nit)], b.hashes[di := mem[nit].hv]);
            BucketOk(mem', index', n, b', chain') && Covers(index', n, b', chain')
  {
    var index' := index[KeyOf(mem[nit]) := nit];
    var b' := Bucket(b.items[di := Some(nit)], b.hashes[di := mem[nit].hv]);
    SlotsAfter(mem, mem', index, n, b, chain, nit, di);
    forall i | 0 <= i < |chain'|
      ensures chain'[i] != nit && Some(chain'[i]) !in b'.items
      ensures Member(mem', index', n, chain'[i]) && mem'[chain'[i]].next == After(chain', i)
    {
      var was := if b.items[di].Some? then (if i == 0 then b.items[di].value else chain[i - 1]) else chain[i];
      assert chain'[i] == was && Member(mem, index, n, was);
      StillMember(mem, mem', index, n, b, chain, nit, was);
    }
    ChainDistinct(mem, index, n, b, chain, di, chain');
    assert ChainOk(mem', index', n, b'.items[N_SLOTS - 1], chain');
    forall k: Key | k in index' && BucketOf(k.hv) == n ensures InBucket(b', chain', index'[k]) {
      if k == KeyOf(mem[nit]) { assert b'.items[di] == Some(nit); }
      else { SlotCovers(index, n, b, chain, nit, di, chain', b', k); }
    }
  }

  lemma ChainDistinct(mem: Memory, index: Index, n: nat, b: Bucket, chain: seq<Addr>, di: nat, chain': seq<Addr>)
    requires BucketOk(mem, index, n, b, chain) && di < N_SLOTS
    requires chain' == if b.items[di].Some? then [b.items[di].value] + chain else chain
    ensures forall i, j :: 0 <= i < j < |chain'| ==> chain'[i] != chain'[j]
  {
    assert b.items[di] in b.items;
  }

  lemma SlotCovers(index: Index, n: nat, b: Bucket, chain: seq<Addr>, nit: Addr, di: nat, chain': seq<Addr>,
                   b': Bucket, k: Key)
    requires |b.items| == N_SLOTS && di < N_SLOTS
    requires Covers(index, n, b, chain) && k in index && BucketOf(k.hv) == n
    requires chain' == if b.items[di].Some? then [b.items[di].value] + chain else chain
    requires b'.items == b.items[di := Some(nit)]
    ensures InBucket(b', chain', index[k])
  {
    if index[k] !in chain {
      var j :| 0 <= j < N_SLOTS && b.items[j] == Some(index[k]);
      if j == di { assert chain'[0] == index[k]; } else { assert b'.items[j] == Some(index[k]); }
    }
  }

  /** The keys whose bucket is `n`. */
  function KeysOf(index: Index, n: nat): set<Key> {
    set k | k in index && BucketOf(k.hv) == n
  }

  /** While a bucket has no more keys than slots, the items of its keys are in the slots. */
  lemma DirectIfFew(mem: Memory, index: Index, buckets: seq<Bucket>, chains: seq<seq<Addr>>, k: Key)
    requires TableOk(mem, index, buckets, chains)
    requires k in index && |KeysOf(index, BucketOf(k.hv))| <= N_SLOTS
    ensures Some(index[k]) in buckets[BucketOf(k.hv)].items
  {
    var n := BucketOf(k.hv);
    BucketIn(mem, index, buckets, chains, n);
    var b, chain := buckets[n], chains[n];
    hide TableOk;
    if Some(index[k]) !in b.items {
      assert InBucket(b, chain, index[k]);
      assert forall i :: 0 <= i < N_SLOTS ==> b.items[i] in b.items;
      hide ChainOk, Covers;
      SixKeys(mem, index, n, b, k);
    }
  }

  lemma SixKeys(mem: Memory, index: Index, n: nat, b: Bucket, k: Key)
    requires SlotsOk(mem, index, n, b) && forall i :: 0 <= i < N_SLOTS ==> b.items[i].Some?
    requires k in index && BucketOf(k.hv) == n && Some(index[k]) !in b.items
    ensures |KeysOf(index, n)| > N_SLOTS
  {
    forall i | 0 <= i < N_SLOTS
      ensures SlotKey(mem, b, i) in KeysOf(index, n) && index[SlotKey(mem, b, i)] == b.items[i].value
    {
      assert Member(mem, index, n, b.items[i].value);
    }
    assert forall i :: 0 <= i < N_SLOTS ==> b.items[i] in b.items;
    var k0, k1, k2 := SlotKey(mem, b, 0), SlotKey(mem, b, 1), SlotKey(mem, b, 2);
    var k3, k4 := SlotKey(mem, b, 3), SlotKey(mem, b, 4);
    SixDistinct(k0, k1, k2, k3, k4, k);
    SubsetSize({k0, k1, k2, k3, k4, k}, KeysOf(index, n));
  }

  function SlotKey(mem: Memory, b: Bucket, i: nat): Key
    requires i < |b.items| && b.items[i].Some? && b.items[i].value in mem
  {
    KeyOf(mem[b.items[i].value])
  }

  lemma SixDistinct(a: Key, b: Key, c: Key, d: Key, e: Key, f: Key)
    requires a != b && a != c && a != d && a != e && a != f && b != c && b != d && b != e && b != f
    requires c != d && c != e && c != f && d != e && d != f && e != f
    ensures |{a, b, c, d, e, f}| == 6
  {
  }

  /** hasht_init: a table without items, over what the memory for it holds. */
  lemma TableCleared(table: seq<Bucket>)
    requires |table| == N_BUCKETS && forall b :: 0 <= b < |table| ==> |table[b].items| == |table[b].hashes| == N_SLOTS
    ensures TableOk(map[], map[], table, seq(N_BUCKETS, _ => [])) <==>
            forall b, i :: 0 <= b < |table| && 0 <= i < |table[b].items| ==> table[b].items[i].None?
  {
    var chains := seq(N_BUCKETS, _ => []);
    if TableOk(map[], map[], table, chains) {
      forall b, i | 0 <= b < |table| && 0 <= i < |table[b].items| ensures table[b].items[i].None? {
        assert BucketOk(map[], map[], b, table[b], chains[b]);
      }
    }
  }
}
