/**
 src/xhash.c: the chained hash table. A bucket is found in the chain of its key modulo the table's
 size; the table is a finite map from what hash_cmp_key compares to the data.
 */
module Hash {
  import opened Wrappers

  type Ptr = nat

  const NULL: Ptr := 0

  /** struct hash_bucket. */
  datatype Bucket<D> = Bucket(next: Ptr, key: nat, data: D)

  /** The buckets from `head` on are those of the chain. */
  predicate Linked<D>(m: map<Ptr, Bucket<D>>, head: Ptr, chain: seq<Ptr>)
    decreases |chain|
  {
    if chain == [] then head == NULL
    else head == chain[0] && head != NULL && head in m && Linked(m, m[head].next, chain[1..])
  }

  function Total(chains: seq<seq<Ptr>>): multiset<Ptr> {
    if chains == [] then multiset{} else multiset(chains[0]) + Total(chains[1..])
  }

  lemma {:induction false} LinkedFrame<D>(m: map<Ptr, Bucket<D>>, m': map<Ptr, Bucket<D>>, head: Ptr, chain: seq<Ptr>)
    requires Linked(m, head, chain) && forall p :: p in chain && p in m ==> p in m' && m'[p] == m[p]
    ensures Linked(m', head, chain)
    decreases |chain|
  {
    if chain != [] {
      LinkedFrame(m, m', m[head].next, chain[1..]);
    }
  }

  lemma {:induction false} LinkedAt<D>(m: map<Ptr, Bucket<D>>, head: Ptr, chain: seq<Ptr>, j: nat)
    requires Linked(m, head, chain) && j < |chain|
    ensures chain[j] in m && chain[j] != NULL && Linked(m, chain[j], chain[j..])
    ensures m[chain[j]].next == (if j + 1 < |chain| then chain[j + 1] else NULL)
    ensures Linked(m, m[chain[j]].next, chain[j + 1..])
    decreases |chain|
  {
    if j > 0 {
      LinkedAt(m, m[head].next, chain[1..], j - 1);
      assert chain[1..][j - 1..] == chain[j..] && chain[1..][j..] == chain[j + 1..];
    } else {
      assert chain[0..] == chain;
      assert chain[1..] != [] ==> chain[1..][0] == chain[1];
    }
  }

  lemma {:induction false} TotalAt(chains: seq<seq<Ptr>>, i: nat)
    requires i < |chains|
    ensures multiset(chains[i]) <= Total(chains)
  {
    if i > 0 {
      TotalAt(chains[1..], i - 1);
    }
  }

  lemma {:induction false} TotalUpdated(chains: seq<seq<Ptr>>, i: nat, c: seq<Ptr>)
    requires i < |chains|
    ensures multiset(chains[i]) <= Total(chains)
    ensures Total(chains[i := c]) == Total(chains) - multiset(chains[i]) + multiset(c)
  {
    var chains' := chains[i := c];
    if i > 0 {
      TotalUpdated(chains[1..], i - 1, c);
      assert chains'[1..] == chains[1..][i - 1 := c];
    } else {
      assert chains'[1..] == chains[1..];
    }
  }

  lemma {:induction false} InSome(chains: seq<seq<Ptr>>, p: Ptr) returns (i: nat)
    requires p in Total(chains)
    ensures i < |chains| && p in chains[i]
  {
    if p in chains[0] {
      i := 0;
    } else {
      i := InSome(chains[1..], p);
      i := i + 1;
    }
  }

  lemma {:induction false} TwoChains(chains: seq<seq<Ptr>>, i: nat, j: nat)
    requires i < j < |chains|
    ensures multiset(chains[i]) + multiset(chains[j]) <= Total(chains)
  {
    if i == 0 {
      TotalAt(chains[1..], j - 1);
    } else {
      TwoChains(chains[1..], i - 1, j - 1);
    }
  }

  lemma OnceIn(c: seq<Ptr>, i: nat, j: nat)
    requires i < j < |c|
    ensures c[i] == c[j] ==> multiset(c)[c[i]] >= 2
  {
    assert c == c[..j] + c[j..];
    assert c[i] == c[..j][i] && c[j] == c[j..][0];
  }

  // ----- the table as a whole -----

  function Slot(size: nat, key: nat): (i: nat)
    requires size > 0
    ensures i < size
  {
    key % size
  }

  /** The buckets are in one chain each, once, and in that of their key. */
  ghost predicate Chained<D>(index: seq<Ptr>, m: map<Ptr, Bucket<D>>, chains: seq<seq<Ptr>>) {
    && |index| == |chains| > 0 && Total(chains) == multiset(m.Keys) && NULL !in m
    && (forall i :: 0 <= i < |chains| ==> Linked(m, index[i], chains[i]))
    && (forall i, j :: 0 <= i < |chains| && 0 <= j < |chains[i]| ==>
          chains[i][j] in m && Slot(|index|, m[chains[i][j]].key) == i)
  }

  lemma InChain<D>(index: seq<Ptr>, m: map<Ptr, Bucket<D>>, chains: seq<seq<Ptr>>, p: Ptr)
    requires Chained(index, m, chains) && p in m
    ensures p in chains[Slot(|index|, m[p].key)]
  {
    assert p in multiset(m.Keys);
    var i := InSome(chains, p);
    var j :| 0 <= j < |chains[i]| && chains[i][j] == p;
  }

  lemma ChainOnce<D>(index: seq<Ptr>, m: map<Ptr, Bucket<D>>, chains: seq<seq<Ptr>>, i: nat)
    requires Chained(index, m, chains) && i < |chains|
    ensures Distinct(chains[i])
  {
    TotalAt(chains, i);
    forall j, k | 0 <= j < k < |chains[i]|
      ensures chains[i][j] != chains[i][k]
    {
      OnceIn(chains[i], j, k);
      assert multiset(chains[i])[chains[i][j]] <= multiset(m.Keys)[chains[i][j]] <= 1;
    }
  }

  /** Chains have no bucket in common. */
  lemma ChainsApart<D>(index: seq<Ptr>, m: map<Ptr, Bucket<D>>, chains: seq<seq<Ptr>>, i: nat, k: nat, p: Ptr)
    requires Chained(index, m, chains) && i < |chains| && k < |chains| && i != k && p in chains[i]
    ensures p !in chains[k]
  {
    if i < k {
      TwoChains(chains, i, k);
    } else {
      TwoChains(chains, k, i);
    }
    assert (multiset(chains[i]) + multiset(chains[k]))[p] <= multiset(m.Keys)[p] <= 1;
  }

  // ----- pushing and unlinking -----

  lemma InTable<D>(index: seq<Ptr>, m: map<Ptr, Bucket<D>>, chains: seq<seq<Ptr>>, k: nat, q: Ptr)
    requires Chained(index, m, chains) && k < |chains| && q in chains[k]
    ensures q in m
  {
    var j :| 0 <= j < |chains[k]| && chains[k][j] == q;
  }

  lemma PushLinked<D>(index: seq<Ptr>, m: map<Ptr, Bucket<D>>, chains: seq<seq<Ptr>>, p: Ptr, key: nat, data: D, k: nat)
    requires Chained(index, m, chains) && p !in m && p != NULL && k < |chains|
    ensures var i := Slot(|index|, key);
            Linked(m[p := Bucket(index[i], key, data)], index[i := p][k], chains[i := [p] + chains[i]][k])
  {
    var i := Slot(|index|, key);
    var m' := m[p := Bucket(index[i], key, data)];
    forall q | q in chains[k]
      ensures q in m
    {
      InTable(index, m, chains, k, q);
    }
    LinkedFrame(m, m', index[k], chains[k]);
    assert ([p] + chains[i])[1..] == chains[i];
  }

  lemma PushPlaced<D>(index: seq<Ptr>, m: map<Ptr, Bucket<D>>, chains: seq<seq<Ptr>>, p: Ptr, key: nat, data: D)
    requires Chained(index, m, chains) && p !in m
    ensures var i := Slot(|index|, key);
            var m', chains' := m[p := Bucket(index[i], key, data)], chains[i := [p] + chains[i]];
            forall k, l :: 0 <= k < |chains'| && 0 <= l < |chains'[k]| ==>
              chains'[k][l] in m' && Slot(|index|, m'[chains'[k][l]].key) == k
  {
    hide Linked, Total;
    var i := Slot(|index|, key);
    var m', chains' := m[p := Bucket(index[i], key, data)], chains[i := [p] + chains[i]];
    forall k, l | 0 <= k < |chains'| && 0 <= l < |chains'[k]|
      ensures chains'[k][l] in m' && Slot(|index|, m'[chains'[k][l]].key) == k
    {
      if k != i || l > 0 {
        var o := if k == i then l - 1 else l;
        assert chains'[k][l] == chains[k][o];
      }
    }
  }

  lemma PushChained<D>(index: seq<Ptr>, m: map<Ptr, Bucket<D>>, chains: seq<seq<Ptr>>, p: Ptr, key: nat, data: D)
    requires Chained(index, m, chains) && p !in m && p != NULL
    ensures var i := Slot(|index|, key);
            Chained(index[i := p], m[p := Bucket(index[i], key, data)], chains[i := [p] + chains[i]])
  {
    hide Linked, Total;
    var i := Slot(|index|, key);
    var index', m', chains' := index[i := p], m[p := Bucket(index[i], key, data)], chains[i := [p] + chains[i]];
    TotalUpdated(chains, i, [p] + chains[i]);
    assert multiset([p] + chains[i]) == multiset{p} + multiset(chains[i]);
    assert multiset(m'.Keys) == multiset(m.Keys) + multiset{p};
    forall k | 0 <= k < |chains'|
      ensures Linked(m', index'[k], chains'[k])
    {
      PushLinked(index, m, chains, p, key, data, k);
    }
    PushPlaced(index, m, chains, p, key, data);
  }

  /** The chain without its j-th bucket: the bucket before it is linked to the one after. */
  function Unlinked<D>(m: map<Ptr, Bucket<D>>, chain: seq<Ptr>, j: nat): map<Ptr, Bucket<D>>
    requires j < |chain| && chain[j] in m && (j > 0 ==> chain[j - 1] in m)
  {
    (if j == 0 then m else m[chain[j - 1] := m[chain[j - 1]].(next := m[chain[j]].next)]) - {chain[j]}
  }

  function Without(chain: seq<Ptr>, j: nat): seq<Ptr>
    requires j < |chain|
  {
    chain[..j] + chain[j + 1..]
  }

  ghost predicate Distinct(chain: seq<Ptr>) {
    forall a, b :: 0 <= a < b < |chain| ==> chain[a] != chain[b]
  }

  lemma DistinctTail(chain: seq<Ptr>)
    requires Distinct(chain) && chain != []
    ensures Distinct(chain[1..]) && chain[0] !in chain[1..]
  {
  }

  lemma {:induction false} UnlinkedLinked<D>(m: map<Ptr, Bucket<D>>, head: Ptr, chain: seq<Ptr>, j: nat)
    requires Linked(m, head, chain) && 0 < j < |chain| && chain[j] in m && chain[j - 1] in m && Distinct(chain)
    ensures Linked(Unlinked(m, chain, j), head, Without(chain, j))
    decreases |chain|
  {
    var m', rest, tail := Unlinked(m, chain, j), Without(chain, j), chain[1..];
    LinkedAt(m, head, chain, 0);
    DistinctTail(chain);
    assert tail[j - 1] == chain[j];
    if j == 1 {
      LinkedAt(m, head, chain, 1);
      assert rest[1..] == chain[2..] == tail[1..];
      DistinctTail(tail);
      LinkedFrame(m, m', m[chain[1]].next, chain[2..]);
    } else {
      assert tail[j - 2] == chain[j - 1];
      UnlinkedLinked(m, m[head].next, tail, j - 1);
      assert rest[1..] == Without(tail, j - 1);
      assert Unlinked(m, tail, j - 1) == m';
      assert chain[0] != chain[j] && chain[0] != chain[j - 1];
    }
  }

  lemma UnlinkOneLinked<D>(index: seq<Ptr>, m: map<Ptr, Bucket<D>>, chains: seq<seq<Ptr>>, i: nat, j: nat, k: nat)
    requires Chained(index, m, chains) && i < |chains| && j < |chains[i]| && k < |chains|
    requires chains[i][j] in m && (j > 0 ==> chains[i][j - 1] in m)
    ensures var index' := if j == 0 then index[i := m[chains[i][0]].next] else index;
            Linked(Unlinked(m, chains[i], j), index'[k], chains[i := Without(chains[i], j)][k])
  {
    hide Total;
    var c := chains[i];
    var m' := Unlinked(m, c, j);
    ChainOnce(index, m, chains, i);
    if k != i {
      forall q | q in chains[k]
        ensures q !in c && q in m
      {
        InTable(index, m, chains, k, q);
        ChainsApart(index, m, chains, k, i, q);
      }
      LinkedFrame(m, m', index[k], chains[k]);
    } else if j > 0 {
      UnlinkedLinked(m, index[i], c, j);
    } else {
      LinkedAt(m, index[i], c, 0);
      DistinctTail(c);
      assert Without(c, 0) == c[1..];
      LinkedFrame(m, m', m[c[0]].next, c[1..]);
    }
  }

  lemma UnlinkChained<D>(index: seq<Ptr>, m: map<Ptr, Bucket<D>>, chains: seq<seq<Ptr>>, i: nat, j: nat)
    requires Chained(index, m, chains) && i < |chains| && j < |chains[i]|
    requires chains[i][j] in m && (j > 0 ==> chains[i][j - 1] in m)
    ensures var index' := if j == 0 then index[i := m[chains[i][0]].next] else index;
            Chained(index', Unlinked(m, chains[i], j), chains[i := Without(chains[i], j)])
  {
    hide Linked, Total;
    var index' := if j == 0 then index[i := m[chains[i][0]].next] else index;
    var c := chains[i];
    var m', chains' := Unlinked(m, c, j), chains[i := Without(c, j)];
    TotalUpdated(chains, i, Without(c, j));
    WithoutBag(c, j);
    assert multiset(m'.Keys) == multiset(m.Keys) - multiset{c[j]};
    forall k | 0 <= k < |chains'|
      ensures Linked(m', index'[k], chains'[k])
    {
      UnlinkOneLinked(index, m, chains, i, j, k);
    }
    UnlinkPlaced(index, m, chains, i, j);
  }

  lemma WithoutBag(c: seq<Ptr>, j: nat)
    requires j < |c|
    ensures multiset(Without(c, j)) == multiset(c) - multiset{c[j]}
  {
    assert c == c[..j] + [c[j]] + c[j + 1..];
  }

  lemma UnlinkPlaced<D>(index: seq<Ptr>, m: map<Ptr, Bucket<D>>, chains: seq<seq<Ptr>>, i: nat, j: nat)
    requires Chained(index, m, chains) && i < |chains| && j < |chains[i]|
    requires chains[i][j] in m && (j > 0 ==> chains[i][j - 1] in m)
    ensures var m', chains' := Unlinked(m, chains[i], j), chains[i := Without(chains[i], j)];
            forall k, l :: 0 <= k < |chains'| && 0 <= l < |chains'[k]| ==>
              chains'[k][l] in m' && Slot(|index|, m'[chains'[k][l]].key) == k
  {
    var m', chains' := Unlinked(m, chains[i], j), chains[i := Without(chains[i], j)];
    ChainOnce(index, m, chains, i);
    forall k, l | 0 <= k < |chains'| && 0 <= l < |chains'[k]|
      ensures chains'[k][l] in m' && Slot(|index|, m'[chains'[k][l]].key) == k
    {
      var o := if k == i && l >= j then l + 1 else l;
      assert chains'[k][l] == chains[k][o];
      if k != i {
        ChainsApart(index, m, chains, k, i, chains[k][l]);
      }
    }
  }

  // ----- the finite map -----

  /** Where the data of each identity is: in one bucket, whose key is that of the identity. */
  ghost predicate Mapped<K, D>(m: map<Ptr, Bucket<D>>, ident: D -> K, hashOf: K -> nat, place: map<K, Ptr>) {
    && (forall k :: k in place ==> place[k] in m && ident(m[place[k]].data) == k)
    && (forall p :: p in m ==>
          ident(m[p].data) in place && place[ident(m[p].data)] == p && m[p].key == hashOf(ident(m[p].data)))
  }

  ghost predicate Placed<K, D>(m: map<Ptr, Bucket<D>>, place: map<K, Ptr>) {
    forall k :: k in place ==> place[k] in m
  }

  ghost function Content<K, D>(m: map<Ptr, Bucket<D>>, place: map<K, Ptr>): map<K, D>
    requires Placed(m, place)
  {
    map k | k in place :: m[place[k]].data
  }

  lemma NotInChain<K, D>(index: seq<Ptr>, m: map<Ptr, Bucket<D>>, chains: seq<seq<Ptr>>,
                         ident: D -> K, hashOf: K -> nat,
                         place: map<K, Ptr>, k: K)
    requires Chained(index, m, chains) && Mapped(m, ident, hashOf, place)
    requires var c := chains[Slot(|index|, hashOf(k))];
             forall l :: 0 <= l < |c| ==> c[l] in m && ident(m[c[l]].data) != k
    ensures k !in place
  {
    hide Linked, Total;
    if k in place {
      InChain(index, m, chains, place[k]);
    }
  }

  lemma InsertContent<K, D>(m: map<Ptr, Bucket<D>>, m': map<Ptr, Bucket<D>>, place: map<K, Ptr>,
                            place': map<K, Ptr>, p: Ptr, k: K)
    requires Placed(m, place) && p !in m && k !in place && place' == place[k := p]
    requires p in m' && m'.Keys == m.Keys + {p} && forall q :: q in m ==> m'[q] == m[q]
    ensures Placed(m', place') && Content(m', place') == Content(m, place)[k := m'[p].data] && |m'| == |m| + 1
  {
    assert Placed(m', place') by {
      forall l | l in place'
        ensures place'[l] in m'
      {
        assert l != k ==> l in place;
      }
    }
    var a, b := Content(m', place'), Content(m, place)[k := m'[p].data];
    forall l
      ensures l in a <==> l in b
      ensures l in a ==> a[l] == b[l]
    {
      assert l in place' <==> l in place || l == k;
      assert l in place && l != k ==> place'[l] == place[l] && m'[place[l]] == m[place[l]];
    }
    hide Placed, Content;
    assert a == b;
    assert |m'.Keys| == |m.Keys| + 1;
  }

  lemma InsertMapped<K, D>(m: map<Ptr, Bucket<D>>, ident: D -> K, hashOf: K -> nat,
                           place: map<K, Ptr>, p: Ptr, bucket: Bucket<D>)
    requires Mapped(m, ident, hashOf, place) && p !in m && ident(bucket.data) !in place
    requires bucket.key == hashOf(ident(bucket.data))
    ensures Mapped(m[p := bucket], ident, hashOf, place[ident(bucket.data) := p])
  {
    var m', k := m[p := bucket], ident(bucket.data);
    var place' := place[k := p];
    forall q | q in m'
      ensures ident(m'[q].data) in place' && place'[ident(m'[q].data)] == q && m'[q].key == hashOf(ident(m'[q].data))
    {
      if q != p {
        assert q in m;
      }
    }
    forall l | l in place'
      ensures place'[l] in m' && ident(m'[place'[l]].data) == l
    {
      if l != k {
        assert l in place;
      }
    }
  }

  lemma MappedPlaces<K, D>(m: map<Ptr, Bucket<D>>, ident: D -> K, hashOf: K -> nat, place: map<K, Ptr>)
    requires Mapped(m, ident, hashOf, place)
    ensures Placed(m, place)
  {
  }

  lemma UnlinkMapped<K, D>(m: map<Ptr, Bucket<D>>, m': map<Ptr, Bucket<D>>, ident: D -> K,
                           hashOf: K -> nat, place: map<K, Ptr>, k: K)
    requires Mapped(m, ident, hashOf, place) && k in place && m'.Keys == m.Keys - {place[k]}
    requires forall q :: q in m' ==> m'[q].data == m[q].data && m'[q].key == m[q].key
    ensures var place' := place - {k};
            && Mapped(m', ident, hashOf, place') && |m| > 0 && |m'| == |m| - 1
            && Content(m', place') == Content(m, place) - {k}
  {
    assert place[k] in m.Keys;
  }

  lemma UnlinkedData<D>(m: map<Ptr, Bucket<D>>, c: seq<Ptr>, j: nat)
    requires j < |c| && c[j] in m && (j > 0 ==> c[j - 1] in m && c[j - 1] != c[j])
    ensures var m' := Unlinked(m, c, j);
            m'.Keys == m.Keys - {c[j]} && forall q :: q in m' ==> m'[q].data == m[q].data && m'[q].key == m[q].key
  {
  }

  /** hash_key and hash_cmp_key see the data through its identity. */
  class Table<K(==), D> {
    const ident: D -> K
    const hashOf: K -> nat
    var index: array<Ptr>
    var buckets: map<Ptr, Bucket<D>>
    var count: nat
    ghost var chains: seq<seq<Ptr>>
    ghost var place: map<K, Ptr>

    ghost predicate Valid()
      reads this, index
    {
      Chained(index[..], buckets, chains) && Mapped(buckets, ident, hashOf, place) && count == |buckets|
    }

    /** The table as a map. */
    ghost function Map(): map<K, D>
      reads this, index
      requires Valid()
    {
      Content(buckets, place)
    }

    /** hash_create_size. */
    constructor (size: nat, ident: D -> K, hashOf: K -> nat)
      requires size > 0
      ensures Valid() && Map() == map[] && fresh(index) && this.ident == ident && this.hashOf == hashOf
    {
      this.ident, this.hashOf := ident, hashOf;
      index := new Ptr[size](_ => NULL);
      buckets, count, place := map[], 0, map[];
      chains := seq(size, _ => []);
      new;
      NothingChained(index[..], buckets, chains);
    }

    /** The loop that the functions share: the bucket of an identity, and the one before it. */
    method Search(k: K) returns (prev: Ptr, p: Ptr, ghost j: nat)
      requires Valid()
      ensures p == NULL <==> k !in place
      ensures k in place ==>
                var c := chains[Slot(index.Length, hashOf(k))];
                p == place[k] && p in buckets && j < |c| && c[j] == p && prev == (if j == 0 then p else c[j - 1])
    {
      var key := hashOf(k);
      var i := Slot(index.Length, key);
      ghost var c := chains[i];
      assert index[..][i] == index[i];
      prev, p, j := index[i], index[i], 0;
      assert c[0..] == c;
      while p != NULL
        invariant j <= |c| && Linked(buckets, p, c[j..]) && prev == (if j == 0 then index[i] else c[j - 1])
        invariant forall l :: 0 <= l < j ==> c[l] in buckets && ident(buckets[c[l]].data) != k
        decreases |c| - j
      {
        if buckets[p].key == key && ident(buckets[p].data) == k {
          return;
        }
        prev := p;
        p := buckets[p].next;
        assert c[j..][1..] == c[j + 1..];
        j := j + 1;
      }
      NotInChain(index[..], buckets, chains, ident, hashOf, place, k);
    }

    /** hash_get and hash_lookup. */
    method Get(data: D) returns (r: Option<D>)
      requires Valid()
      ensures r == var k := ident(data); if k in Map() then Some(Map()[k]) else None
    {
      ghost var j;
      var prev, p;
      prev, p, j := Search(ident(data));
      r := if p == NULL then None else Some(buckets[p].data);
    }

    /**
     hash_set: data of an identity that is there is replaced, or freed itself when hash_cmp_other holds of
     the two; the one that is freed is returned too.
     */
    method Set(data: D, same: (D, D) -> bool) returns (r: D, freed: Option<D>)
      requires Valid()
      modifies this`buckets, this`count, this`chains, this`place, index
      ensures Valid()
      ensures var k, old' := ident(data), old(Map());
              if k !in old' then Map() == old'[k := data] && r == data && freed == None && count == old(count) + 1
              else if same(old'[k], data) then
                Map() == old' && r == old'[k] && freed == Some(data) && count == old(count)
              else Map() == old'[k := data] && r == data && freed == Some(old'[k]) && count == old(count)
    {
      var k := ident(data);
      ghost var j;
      var prev, p;
      prev, p, j := Search(k);
      if p != NULL {
        if same(buckets[p].data, data) {
          return buckets[p].data, Some(data);
        }
        r, freed := data, Some(buckets[p].data);
        Exchange(p, data);
        return;
      }
      Insert(data);
      r, freed := data, None;
    }

    /** Other data of the same identity in a bucket. */
    method Exchange(p: Ptr, data: D)
      requires Valid() && p in buckets && ident(buckets[p].data) == ident(data)
      modifies this`buckets
      ensures Valid() && Map() == old(Map())[ident(data) := data]
    {
      DataChained(index[..], buckets, chains, p, data);
      ghost var m0 := buckets;
      buckets := buckets[p := buckets[p].(data := data)];
      assert buckets.Keys == m0.Keys;
    }

    /** A new bucket in front of its chain. */
    method Insert(data: D)
      requires Valid() && ident(data) !in place
      modifies this`buckets, this`count, this`chains, this`place, index
      ensures Valid() && Map() == old(Map())[ident(data) := data] && count == old(count) + 1
    {
      hide Linked, Total, Chained, Mapped, Content;
      var k := ident(data);
      var key := hashOf(k);
      assert index.Length > 0 && |chains| == index.Length by {
        SizesOf(index[..], buckets, chains);
      }
      var i := Slot(index.Length, key);
      FreshAddress(buckets);
      var p :| p != NULL && p !in buckets;
      ghost var index0, m0 := index[..], buckets;
      PushChained(index0, m0, chains, p, key, data);
      InsertMapped(m0, ident, hashOf, place, p, Bucket(index[i], key, data));
      MappedPlaces(m0, ident, hashOf, place);
      InsertContent(m0, m0[p := Bucket(index[i], key, data)], place, place[k := p], p, k);
      buckets := buckets[p := Bucket(index[i], key, data)];
      index[i] := p;
      assert index[..] == index0[i := p];
      count := count + 1;
      chains := chains[i := [p] + chains[i]];
      place := place[k := p];
    }

    /** The bucket is unlinked and freed. */
    method Unlink(k: K, prev: Ptr, p: Ptr, ghost j: nat)
      requires Valid() && k in place && p == place[k] && p in buckets
      requires var c := chains[Slot(index.Length, hashOf(k))];
               j < |c| && c[j] == p && prev == (if j == 0 then p else c[j - 1])
      modifies this`buckets, this`count, this`chains, this`place, index
      ensures Valid() && Map() == old(Map()) - {k} && old(count) > 0 && count == old(count) - 1
    {
      hide Linked, Total, Chained, Mapped, Content, Unlinked;
      ghost var index0, m0, chains0 := index[..], buckets, chains;
      BeforeIn(index0, m0, chains0, ident, hashOf, place, k, j);
      var i := Slot(index.Length, buckets[p].key);
      UnlinkChained(index0, m0, chains0, i, j);
      ghost var c := chains0[i];
      UnlinkedData(m0, c, j);
      UnlinkBucket(i, prev, p, c, j);
      UnlinkMapped(m0, buckets, ident, hashOf, place, k);
      count := count - 1;
      chains := chains[i := Without(c, j)];
      place := place - {k};
    }

    /** The writes that unlink and free. */
    method UnlinkBucket(i: nat, prev: Ptr, p: Ptr, ghost c: seq<Ptr>, ghost j: nat)
      requires i < index.Length && j < |c| && c[j] == p && p in buckets && prev == (if j == 0 then p else c[j - 1])
      requires j > 0 ==> prev in buckets && prev != p
      modifies this`buckets, index
      ensures buckets == Unlinked(old(buckets), c, j)
      ensures index[..] == old(if j == 0 then index[..][i := buckets[p].next] else index[..])
    {
      if p == prev {
        index[i] := buckets[p].next;
      } else {
        buckets := buckets[prev := buckets[prev].(next := buckets[p].next)];
      }
      buckets := buckets - {p};
    }

    /** hash_delete: 0 and the data freed, or -1. */
    method Delete(data: D) returns (r: int, freed: Option<D>)
      requires Valid()
      modifies this`buckets, this`count, this`chains, this`place, index
      ensures Valid()
      ensures var k, old' := ident(data), old(Map());
              if k in old' then
                && r == 0 && freed == Some(old'[k]) && Map() == old' - {k}
                && old(count) > 0 && count == old(count) - 1
              else r == -1 && freed == None && Map() == old' && count == old(count)
    {
      ghost var j;
      var prev, p;
      prev, p, j := Search(ident(data));
      if p == NULL {
        return -1, None;
      }
      freed := Some(buckets[p].data);
      Unlink(ident(data), prev, p, j);
      r := 0;
    }

    /** hash_release: the data, which is not freed. */
    method Release(data: D) returns (r: Option<D>)
      requires Valid()
      modifies this`buckets, this`count, this`chains, this`place, index
      ensures Valid()
      ensures var k, old' := ident(data), old(Map());
              if k in old' then r == Some(old'[k]) && Map() == old' - {k} && old(count) > 0 && count == old(count) - 1
              else r == None && Map() == old' && count == old(count)
    {
      ghost var j;
      var prev, p;
      prev, p, j := Search(ident(data));
      if p == NULL {
        return None;
      }
      r := Some(buckets[p].data);
      Unlink(ident(data), prev, p, j);
    }

    /** hash_find with a test of the data: some data that passes, unless none does. */
    method Find(test: D -> bool) returns (r: Option<D>)
      requires Valid()
      ensures r.Some? ==> test(r.value) && ident(r.value) in Map() && Map()[ident(r.value)] == r.value
      ensures r.None? ==> forall k :: k in Map() ==> !test(Map()[k])
    {
      var i: nat := 0;
      while i < index.Length
        invariant i <= index.Length && Failing(buckets, chains, i, test)
      {
        var hb := index[i];
        ghost var c, j: nat := chains[i], 0;
        assert c[0..] == c && index[..][i] == index[i];
        while hb != NULL
          invariant j <= |c| && Linked(buckets, hb, c[j..])
          invariant forall l :: 0 <= l < j ==> c[l] in buckets && !test(buckets[c[l]].data)
          decreases |c| - j
        {
          var next := buckets[hb].next;
          if test(buckets[hb].data) {
            return Some(buckets[hb].data);
          }
          assert c[j..][1..] == c[j + 1..];
          hb, j := next, j + 1;
        }
        i := i + 1;
      }
      r := None;
      NoneLeft(index[..], buckets, chains, test);
    }

    /** hash_clean: every bucket is freed and every chain emptied; the data are handed to hash_free_data. */
    method Clean() returns (freed: seq<D>)
      requires Valid()
      modifies this`buckets, this`count, this`chains, this`place, index
      ensures Valid() && Map() == map[] && count == 0
      ensures |freed| == old(count) && forall k :: k in old(Map()) ==> old(Map())[k] in freed
    {
      ghost var m0, place0 := buckets, place;
      MappedPlaces(m0, ident, hashOf, place0);
      SizesOf(index[..], m0, chains);
      hide Linked, Total, Chained, Mapped, Cleaning, Placed;
      freed := [];
      CleaningStart(m0);
      var i: nat := 0;
      while i < index.Length
        invariant i <= index.Length == |chains| && Cleaning(m0, buckets, freed, count)
        invariant Chained(index[..], buckets, chains) && forall l :: 0 <= l < i ==> chains[l] == []
      {
        freed := CleanChain(i, m0, freed);
        i := i + 1;
      }
      AllEmpty(index[..], buckets, chains);
      CleanedAll(m0, freed, count, place0);
      place := map[];
      EmptyMapped(ident, hashOf);
    }

    /** One chain is freed. */
    method CleanChain(i: nat, ghost m0: map<Ptr, Bucket<D>>, freed0: seq<D>) returns (freed: seq<D>)
      requires i < index.Length == |chains| && Chained(index[..], buckets, chains)
      requires Cleaning(m0, buckets, freed0, count)
      modifies this`buckets, this`count, this`chains, index
      ensures index.Length == |chains| && Chained(index[..], buckets, chains) && Cleaning(m0, buckets, freed, count)
      ensures chains == old(chains)[i := []]
    {
      hide Linked, Total, Cleaning, Chained;
      freed := freed0;
      var hb := index[i];
      ghost var index0, c := index[..], chains[i];
      assert index0[i := hb] == index0 && chains[i := c] == chains;
      while hb != NULL
        invariant index[..] == index0 && |chains| == |index0| && chains == old(chains)[i := c]
        invariant Chained(index0[i := hb], buckets, chains) && Cleaning(m0, buckets, freed, count)
        decreases |c|
      {
        var next;
        next, freed, c := FreeFirst(i, hb, index0[i := hb], c, m0, freed);
        assert index0[i := hb][i := next] == index0[i := next];
        hb := next;
      }
      index[i] := NULL;
      assert index[..] == index0[i := NULL];
      EndOfChain(index0[i := hb], buckets, chains, i);
      assert chains == old(chains)[i := []];
    }

    /** The first bucket of what is left of a chain is freed. */
    method FreeFirst(i: nat, hb: Ptr, ghost heads: seq<Ptr>, ghost c: seq<Ptr>,
                     ghost m0: map<Ptr, Bucket<D>>, freed0: seq<D>)
      returns (next: Ptr, freed: seq<D>, ghost c': seq<Ptr>)
      requires Chained(heads, buckets, chains) && Cleaning(m0, buckets, freed0, count)
      requires i < |heads| == |chains| && heads[i] == hb && hb != NULL && chains[i] == c
      modifies this`buckets, this`count, this`chains
      ensures Chained(heads[i := next], buckets, chains) && Cleaning(m0, buckets, freed, count)
      ensures chains == old(chains)[i := c'] && |c'| < |c|
    {
      HeadThere(heads, buckets, chains, i);
      UnlinkChained(heads, buckets, chains, i, 0);
      CleanedOne(m0, buckets, freed0, count, hb);
      hide Linked, Total, Cleaning, Chained;
      next := buckets[hb].next;
      freed := freed0 + [buckets[hb].data];
      buckets := buckets - {hb};
      count := count - 1;
      c' := Without(c, 0);
      chains := chains[i := c'];
    }
  }

  lemma CleaningStart<D>(m: map<Ptr, Bucket<D>>)
    ensures Cleaning(m, m, [], |m|)
  {
  }

  lemma CleanedAll<K, D>(m0: map<Ptr, Bucket<D>>, freed: seq<D>, count: nat, place: map<K, Ptr>)
    requires Cleaning(m0, map[], freed, count) && Placed(m0, place)
    ensures count == 0 && |freed| == |m0| && forall k :: k in place ==> Content(m0, place)[k] in freed
  {
  }

  lemma EmptyMapped<K, D>(ident: D -> K, hashOf: K -> nat)
    ensures Mapped(map[], ident, hashOf, map[])
  {
  }

  /** No data in the first chains passes the test. */
  ghost predicate Failing<D>(m: map<Ptr, Bucket<D>>, chains: seq<seq<Ptr>>, n: nat, test: D -> bool) {
    forall i, j :: 0 <= i < n && i < |chains| && 0 <= j < |chains[i]|
      ==> chains[i][j] in m && !test(m[chains[i][j]].data)
  }

  lemma NoneLeft<D>(index: seq<Ptr>, m: map<Ptr, Bucket<D>>, chains: seq<seq<Ptr>>, test: D -> bool)
    requires Chained(index, m, chains) && Failing(m, chains, |chains|, test)
    ensures forall p :: p in m ==> !test(m[p].data)
  {
    forall p | p in m
      ensures !test(m[p].data)
    {
      InChain(index, m, chains, p);
      var c := chains[Slot(|index|, m[p].key)];
      var j :| 0 <= j < |c| && c[j] == p;
    }
  }

  /** Some buckets have been freed, and their data handed out. */
  ghost predicate Cleaning<D>(m0: map<Ptr, Bucket<D>>, m: map<Ptr, Bucket<D>>, freed: seq<D>, count: nat) {
    && m.Keys <= m0.Keys && count == |m| && |freed| + |m| == |m0|
    && (forall p :: p in m ==> m[p].data == m0[p].data)
    && (forall p :: p in m0 && p !in m ==> m0[p].data in freed)
  }

  lemma CleanedOne<D>(m0: map<Ptr, Bucket<D>>, m: map<Ptr, Bucket<D>>, freed: seq<D>, count: nat, p: Ptr)
    requires Cleaning(m0, m, freed, count) && p in m
    ensures count > 0 && Cleaning(m0, m - {p}, freed + [m[p].data], count - 1)
  {
    assert (m - {p}).Keys == m.Keys - {p};
    assert p in m.Keys;
  }

  lemma HeadThere<D>(index: seq<Ptr>, m: map<Ptr, Bucket<D>>, chains: seq<seq<Ptr>>, i: nat)
    requires Chained(index, m, chains) && i < |chains| && index[i] != NULL
    ensures chains[i] != [] && chains[i][0] == index[i] && index[i] in m
  {
  }

  lemma EndOfChain<D>(index: seq<Ptr>, m: map<Ptr, Bucket<D>>, chains: seq<seq<Ptr>>, i: nat)
    requires Chained(index, m, chains) && i < |chains| && index[i] == NULL
    ensures chains[i] == []
  {
  }

  lemma AllEmpty<D>(index: seq<Ptr>, m: map<Ptr, Bucket<D>>, chains: seq<seq<Ptr>>)
    requires Chained(index, m, chains) && forall l :: 0 <= l < |chains| ==> chains[l] == []
    ensures m == map[]
  {
    NoTotal(chains);
    assert forall p :: p in m <==> p in multiset(m.Keys);
  }

  lemma SizesOf<D>(index: seq<Ptr>, m: map<Ptr, Bucket<D>>, chains: seq<seq<Ptr>>)
    requires Chained(index, m, chains)
    ensures |index| == |chains| > 0
  {
  }

  /** The bucket before that of an identity, and what its chain is. */
  lemma BeforeIn<K, D>(index: seq<Ptr>, m: map<Ptr, Bucket<D>>, chains: seq<seq<Ptr>>, ident: D -> K, hashOf: K -> nat,
                       place: map<K, Ptr>, k: K, j: nat)
    requires Chained(index, m, chains) && Mapped(m, ident, hashOf, place) && k in place
    requires var c := chains[Slot(|index|, hashOf(k))]; j < |c| && c[j] == place[k]
    ensures var c := chains[Slot(|index|, hashOf(k))];
            && |index| == |chains| && m[place[k]].key == hashOf(k) && c[j] in m
            && (j > 0 ==> c[j - 1] in m && c[j - 1] != c[j])
  {
    hide Linked, Total;
    ChainOnce(index, m, chains, Slot(|index|, hashOf(k)));
  }

  lemma NothingChained<D>(index: seq<Ptr>, m: map<Ptr, Bucket<D>>, chains: seq<seq<Ptr>>)
    requires |index| == |chains| > 0 && m == map[]
    requires forall i :: 0 <= i < |index| ==> index[i] == NULL && chains[i] == []
    ensures Chained(index, m, chains)
  {
    NoTotal(chains);
  }

  lemma {:induction false} NoTotal(chains: seq<seq<Ptr>>)
    requires forall i :: 0 <= i < |chains| ==> chains[i] == []
    ensures Total(chains) == multiset{}
  {
    if chains != [] {
      NoTotal(chains[1..]);
    }
  }

  lemma DataChained<D>(index: seq<Ptr>, m: map<Ptr, Bucket<D>>, chains: seq<seq<Ptr>>, p: Ptr, data: D)
    requires Chained(index, m, chains) && p in m
    ensures Chained(index, m[p := m[p].(data := data)], chains)
  {
    var m' := m[p := m[p].(data := data)];
    assert m'.Keys == m.Keys;
    forall i | 0 <= i < |chains|
      ensures Linked(m', index[i], chains[i])
    {
      DataLinked(m, index[i], chains[i], p, data);
    }
  }

  lemma {:induction false} DataLinked<D>(m: map<Ptr, Bucket<D>>, head: Ptr, chain: seq<Ptr>, p: Ptr, data: D)
    requires Linked(m, head, chain) && p in m
    ensures Linked(m[p := m[p].(data := data)], head, chain)
    decreases |chain|
  {
    if chain != [] {
      DataLinked(m, m[head].next, chain[1..], p, data);
    }
  }
}
