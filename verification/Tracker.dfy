/**
 src/xtrace2.c: the allocation tracker. One node for each call site, in the hash table, records the
 addresses and sizes allocated there and not yet freed.
 */
module Tracker {
  import opened Hash

  type Addr = nat

  /** What alloc_node_hash_cmp_key compares. */
  datatype Site = Site(file: string, func: string, line: int)

  datatype Record = Record(site: Site, size: nat)

  type Ledger = map<Addr, Record>

  // ----- keys -----

  /** A char is signed where the code runs. */
  function Signed(c: char): (v: int)
    ensures -128 <= v < 128 && (v - c as int) % 256 == 0
  {
    var v := c as int % 256;
    if v >= 128 then v - 256 else v
  }

  function Wrap(v: int): (r: nat)
    ensures r < 0x1_0000_0000
  {
    v % 0x1_0000_0000
  }

  function CharSum(s: string): int {
    if s == "" then 0 else CharSum(s[..|s| - 1]) + Signed(s[|s| - 1])
  }

  /** alloc_node_hash_key. */
  function KeyOf(site: Site): nat {
    Wrap(CharSum(site.file) + CharSum(site.func) + site.line)
  }

  /** One of its loops, in unsigned arithmetic. */
  method AddChars(key0: nat, s: string) returns (key: nat)
    requires key0 < 0x1_0000_0000
    ensures key == Wrap(key0 + CharSum(s))
  {
    key := key0;
    var i := 0;
    while i < |s|
      invariant i <= |s| && key == Wrap(key0 + CharSum(s[..i]))
    {
      assert s[..i + 1][..i] == s[..i];
      WrapTwice(key0 + CharSum(s[..i]), Signed(s[i]));
      key := Wrap(key + Signed(s[i]));
      i := i + 1;
    }
    assert s[..i] == s;
  }

  lemma WrapTwice(a: int, b: int)
    ensures Wrap(Wrap(a) + b) == Wrap(a + b)
  {
  }

  method HashKey(site: Site) returns (key: nat)
    ensures key == KeyOf(site)
  {
    key := AddChars(0, site.file);
    var key1 := AddChars(key, site.func);
    WrapTwice(CharSum(site.file), CharSum(site.func));
    WrapTwice(CharSum(site.file) + CharSum(site.func), site.line);
    key := Wrap(key1 + site.line);
  }

  // ----- nodes -----

  /** alloc_node2_t: the arrays may be longer than the count. */
  class Node {
    const site: Site
    const kind: nat
    var count: nat
    var addrs: seq<Addr>
    var sizes: seq<nat>

    /** alloc_node_new. */
    constructor (site: Site, kind: nat, addr: Addr, size: nat)
      ensures this.site == site && this.kind == kind && count == 1 && addrs == [addr] && sizes == [size]
    {
      this.site, this.kind := site, kind;
      count, addrs, sizes := 1, [addr], [size];
    }
  }

  /** An address with the size allocated there. */
  datatype Entry = Entry(addr: Addr, size: nat)

  function Pairs(addrs: seq<Addr>, sizes: seq<nat>, n: nat): (r: seq<Entry>)
    requires n <= |addrs| && n <= |sizes|
    ensures |r| == n && forall i :: 0 <= i < n ==> r[i] == Entry(addrs[i], sizes[i])
  {
    seq(n, i requires 0 <= i < n => Entry(addrs[i], sizes[i]))
  }

  ghost predicate Sane(n: Node)
    reads n
  {
    n.count <= |n.addrs| == |n.sizes|
  }

  /** The records in use. */
  ghost function Live(n: Node): seq<Entry>
    reads n
    requires Sane(n)
  {
    Pairs(n.addrs, n.sizes, n.count)
  }

  predicate Has(es: seq<Entry>, addr: Addr) {
    exists j :: 0 <= j < |es| && es[j].addr == addr
  }

  /** alloc_node_find_byaddr. */
  method HasAddr(n: Node, addr: Addr) returns (found: bool)
    requires Sane(n)
    ensures found <==> Has(Live(n), addr)
  {
    var i := 0;
    while i < n.count
      invariant i <= n.count && forall j :: 0 <= j < i ==> Live(n)[j].addr != addr
    {
      if n.addrs[i] == addr {
        assert Live(n)[i].addr == addr;
        return true;
      }
      i := i + 1;
    }
    found := false;
  }

  /** The first entry for an address. */
  function Place(es: seq<Entry>, addr: Addr): (i: nat)
    ensures i <= |es| && (i < |es| ==> es[i].addr == addr) && forall j :: 0 <= j < i ==> es[j].addr != addr
  {
    if es == [] || es[0].addr == addr then 0 else 1 + Place(es[1..], addr)
  }

  lemma {:induction false} PlaceIs(es: seq<Entry>, addr: Addr, i: nat)
    requires i <= |es| && (i < |es| ==> es[i].addr == addr) && forall j :: 0 <= j < i ==> es[j].addr != addr
    ensures Place(es, addr) == i
  {
    if i > 0 {
      PlaceIs(es[1..], addr, i - 1);
    }
  }

  /** The last entry takes the place of the i-th. */
  function Swapped(es: seq<Entry>, i: nat): (r: seq<Entry>)
    requires i < |es|
    ensures |r| == |es| - 1
  {
    es[i := es[|es| - 1]][..|es| - 1]
  }

  /** alloc_node_remove_addr. */
  method RemoveAddr(n: Node, addr: Addr)
    requires Sane(n)
    modifies n
    ensures Sane(n)
    ensures var es, i := old(Live(n)), Place(old(Live(n)), addr); Live(n) == if i < |es| then Swapped(es, i) else es
    ensures n.count == 0 < old(n.count) ==> n.addrs == [] && n.sizes == []
  {
    ghost var es := Live(n);
    var i := 0;
    while i < n.count && n.addrs[i] != addr
      invariant i <= n.count && forall j :: 0 <= j < i ==> es[j].addr != addr
    {
      i := i + 1;
    }
    PlaceIs(es, addr, i);
    if i == n.count {
      return;
    }
    n.count := n.count - 1;
    if i != n.count {
      n.addrs, n.sizes := n.addrs[i := n.addrs[n.count]], n.sizes[i := n.sizes[n.count]];
    }
    assert Live(n) == Swapped(es, i);
    if n.count == 0 {
      n.addrs, n.sizes := [], [];
    }
  }

  /** The end of alloc_node_insert2: the arrays are reallocated for one more record. */
  method Extend(n: Node, addr: Addr, size: nat)
    requires Sane(n)
    modifies n
    ensures Sane(n) && Live(n) == old(Live(n)) + [Entry(addr, size)]
  {
    n.count := n.count + 1;
    n.addrs := n.addrs[..n.count - 1] + [addr];
    n.sizes := n.sizes[..n.count - 1] + [size];
  }

  // ----- the ledger -----

  /** What the nodes of the sites record. */
  type Book = map<Site, seq<Entry>>

  /** Every record of the book is in the ledger, every address of the ledger in the book, once; no page is empty. */
  ghost predicate Exact(book: Book, ledger: Ledger) {
    && (forall s :: s in book ==> book[s] != [] && Page(book[s], s, ledger))
    && (forall a :: a in ledger ==> ledger[a].site in book && Has(book[ledger[a].site], a))
  }

  ghost predicate Page(es: seq<Entry>, s: Site, ledger: Ledger) {
    && (forall j :: 0 <= j < |es| ==> es[j].addr in ledger && ledger[es[j].addr] == Record(s, es[j].size))
    && (forall j, k :: 0 <= j < k < |es| ==> es[j].addr != es[k].addr)
  }

  lemma ExactInsert(book: Book, ledger: Ledger, site: Site, addr: Addr, size: nat)
    requires Exact(book, ledger) && addr !in ledger
    ensures var es := (if site in book then book[site] else []) + [Entry(addr, size)];
            Exact(book[site := es], ledger[addr := Record(site, size)])
  {
    var es0 := if site in book then book[site] else [];
    var es: seq<Entry> := es0 + [Entry(addr, size)];
    var book': Book, ledger': Ledger := book[site := es], ledger[addr := Record(site, size)];
    assert es0 != [] ==> Page(es0, site, ledger);
    forall s | s in book'
      ensures book'[s] != [] && Page(book'[s], s, ledger')
    {
      assert s != site ==> Page(book[s], s, ledger);
    }
    forall a | a in ledger'
      ensures ledger'[a].site in book' && Has(book'[ledger'[a].site], a)
    {
      if a == addr {
        assert es[|es0|].addr == addr;
      } else {
        var s := ledger[a].site;
        var j :| 0 <= j < |book[s]| && book[s][j].addr == a;
        assert book'[s][j].addr == a;
      }
    }
  }

  /** The address is nowhere else, and where it is its page loses it. */
  lemma ExactRemove(book: Book, ledger: Ledger, addr: Addr, i: nat)
    requires Exact(book, ledger) && addr in ledger
    requires var es := book[ledger[addr].site]; i < |es| && es[i].addr == addr
    ensures var s := ledger[addr].site;
            var es := Swapped(book[s], i);
            Exact(if es == [] then book - {s} else book[s := es], ledger - {addr})
  {
    var site := ledger[addr].site;
    var es0, es := book[site], Swapped(book[site], i);
    var book': Book, ledger': Ledger := if es == [] then book - {site} else book[site := es], ledger - {addr};
    PageSwapped(es0, site, ledger, i);
    forall s | s in book'
      ensures book'[s] != [] && Page(book'[s], s, ledger')
    {
      if s != site {
        assert Page(book[s], s, ledger);
      }
    }
    forall a | a in ledger'
      ensures ledger'[a].site in book' && Has(book'[ledger'[a].site], a)
    {
      var s := ledger[a].site;
      var j :| 0 <= j < |book[s]| && book[s][j].addr == a;
      if s == site {
        assert j != i;
        assert es[if j == |es0| - 1 then i else j].addr == a;
      }
    }
  }

  lemma PageSwapped(es0: seq<Entry>, site: Site, ledger: Ledger, i: nat)
    requires Page(es0, site, ledger) && i < |es0|
    ensures Page(Swapped(es0, i), site, ledger - {es0[i].addr})
  {
    var es := Swapped(es0, i);
    forall j | 0 <= j < |es|
      ensures es[j] == es0[if j == i then |es0| - 1 else j]
    {
    }
    forall j | 0 <= j < |es|
      ensures es[j].addr != es0[i].addr
    {
      var o := if j == i then |es0| - 1 else j;
      assert o != i;
    }
  }

  // ----- the tracker -----

  const SITE_OF: Node -> Site := (n: Node) => n.site
  const KEY_OF: Site -> nat := (site: Site) => KeyOf(site)

  /** One node for each site, with the records of the site's page. */
  ghost predicate Kept(nodes: map<Site, Node>, book: Book)
    reads nodes.Values
  {
    && nodes.Keys == book.Keys
    && forall s :: s in nodes ==>
         nodes[s] in nodes.Values && nodes[s].site == s && Sane(nodes[s]) && Live(nodes[s]) == book[s]
  }

  lemma KeptKeys(nodes: map<Site, Node>, book: Book)
    requires Kept(nodes, book)
    ensures forall s :: s in nodes <==> s in book
  {
    assert forall s :: s in nodes.Keys <==> s in book.Keys;
  }

  lemma KeptAt(nodes: map<Site, Node>, book: Book, n: Node)
    requires Kept(nodes, book) && n.site in nodes && nodes[n.site] == n
    ensures n.site in book && Sane(n) && book[n.site] == Live(n) && n.count == |book[n.site]|
  {
  }

  method ExtendKept(ghost nodes: map<Site, Node>, ghost book: Book, n: Node, addr: Addr, size: nat)
    requires Kept(nodes, book) && n.site in nodes && nodes[n.site] == n
    modifies n
    ensures n.site in book && Kept(nodes, book[n.site := book[n.site] + [Entry(addr, size)]])
  {
    hide Live;
    Extend(n, addr, size);
  }

  method ShrinkKept(ghost nodes: map<Site, Node>, ghost book: Book, n: Node, addr: Addr)
    requires Kept(nodes, book) && n.site in nodes && nodes[n.site] == n && n.site in book
    requires Place(book[n.site], addr) < |book[n.site]|
    modifies n
    ensures Kept(nodes, book[n.site := Swapped(book[n.site], Place(book[n.site], addr))])
    ensures n.count == |book[n.site]| - 1
  {
    KeptAt(nodes, book, n);
    hide Live, Place;
    RemoveAddr(n, addr);
    LiveLength(n);
  }

  lemma LiveLength(n: Node)
    requires Sane(n)
    ensures |Live(n)| == n.count
  {
  }

  /** g_alloc_hash; the ledger is what has been inserted and not removed. */
  class Tracker {
    const table: Table<Site, Node>
    ghost var nodes: map<Site, Node>
    ghost var book: Book
    ghost var ledger: Ledger

    /** The table has one node for each site. */
    ghost predicate Shaped()
      reads this, table, table.index, nodes.Values
    {
      table.Valid() && table.ident == SITE_OF && table.hashOf == KEY_OF && table.Map() == nodes && Kept(nodes, book)
    }

    /** The nodes record exactly the ledger. */
    ghost predicate Valid()
      reads this, table, table.index, nodes.Values
    {
      Shaped() && Exact(book, ledger)
    }

    /** The ledger is that of a run of insertions and removals. */
    ghost predicate Tells(ops: seq<Op>)
      reads this`ledger
    {
      FreshRun(ops) && ledger == After(ops)
    }

    /** xalloc_hash_create. */
    constructor (size: nat)
      requires size > 0
      ensures Valid() && ledger == map[] && fresh(table) && fresh(table.index) && nodes == map[] && Tells([])
    {
      table := new Table(size, SITE_OF, KEY_OF);
      nodes, book, ledger := map[], map[], map[];
    }

    /** A new node for a site that has none. */
    method InsertNew(made: Node, addr: Addr, size: nat)
      requires Valid() && addr !in ledger && made.site !in nodes
      requires made.count == 1 && made.addrs == [addr] && made.sizes == [size]
      modifies this, table, table.index
      ensures Valid() && ledger == old(ledger)[addr := Record(made.site, size)]
      ensures nodes == old(nodes)[made.site := made]
    {
      hide Exact, Live, Kept, Table.Valid, Table.Map;
      ghost var nodes' := nodes[made.site := made];
      ghost var book' := book[made.site := [] + [Entry(addr, size)]];
      KeptKeys(nodes, book);
      KeptNew(nodes, book, made, addr, size);
      ExactInsert(book, ledger, made.site, addr, size);
      assert table.ident(made) == made.site;
      var kept, freed := table.Set(made, (a: Node, b: Node) => true);
      nodes, book := nodes', book';
      ledger := ledger[addr := Record(made.site, size)];
    }

    /** One more record in a site's node. */
    method InsertMore(n: Node, addr: Addr, size: nat)
      requires Valid() && addr !in ledger && n.site in nodes && nodes[n.site] == n
      modifies this`ledger, this`book, n
      ensures Valid() && ledger == old(ledger)[addr := Record(n.site, size)]
    {
      hide Exact, Live, Kept, Table.Valid, Table.Map;
      assert n.site in book && book[n.site] == Live(n) by {
        KeptAt(nodes, book, n);
      }
      ExactInsert(book, ledger, n.site, addr, size);
      ExtendKept(nodes, book, n, addr, size);
      book := book[n.site := book[n.site] + [Entry(addr, size)]];
      ledger := ledger[addr := Record(n.site, size)];
    }

    /**
     alloc_node_insert2, once the names have been copied, for an address that is not recorded; `ops` are
     the calls before.
     */
    method Insert(site: Site, addr: Addr, size: nat, kind: nat, ghost ops: seq<Op>) returns (n: Node)
      requires Valid() && addr !in ledger && Tells(ops)
      modifies this, table, table.index, nodes.Values
      ensures Valid() && ledger == old(ledger)[addr := Record(site, size)]
      ensures Tells(ops + [Alloc(site, addr, size)])
      ensures site in nodes && nodes[site] == n && n.site == site
      ensures nodes == if site in old(nodes) then old(nodes) else old(nodes)[site := n]
    {
      OneMore(ops, Alloc(site, addr, size));
      n := Enter(site, addr, size, kind);
    }

    method Enter(site: Site, addr: Addr, size: nat, kind: nat) returns (n: Node)
      requires Valid() && addr !in ledger
      modifies this, table, table.index, nodes.Values
      ensures Valid() && ledger == old(ledger)[addr := Record(site, size)]
      ensures site in nodes && nodes[site] == n && n.site == site
      ensures nodes == if site in old(nodes) then old(nodes) else old(nodes)[site := n]
    {
      hide Exact, Live, Table.Valid, Table.Map;
      var found := table.Find((m: Node) => m.site == site);
      if found.None? {
        assert table.Map() == nodes;
        forall k | k in nodes
          ensures nodes[k].site != site
        {
          assert k in table.Map();
        }
        SiteAbsent(nodes, book, site);
        n := new Node(site, kind, addr, size);
        InsertNew(n, addr, size);
      } else {
        n := found.value;
        InsertMore(n, addr, size);
      }
    }

    /** One chain of node_hash_find_byaddr. */
    method FindInChain(i: nat, addr: Addr) returns (n: Node?)
      requires Valid() && i < table.index.Length && i < |table.chains|
      ensures n == null ==> AllMissedIn(table.buckets, table.chains[i], book, addr)
      ensures n != null ==> n.site in nodes && nodes[n.site] == n && Has(Live(n), addr)
    {
      hide Exact, Live, Content, Has, Total, Mapped;
      ghost var m, c := table.buckets, table.chains[i];
      var hb := table.index[i];
      ghost var j: nat := 0;
      assert c[0..] == c && table.index[..][i] == table.index[i];
      while hb != NULL
        invariant j <= |c| && Linked(m, hb, c[j..]) && AllMissedIn(m, c[..j], book, addr)
        decreases |c| - j
      {
        var next := table.buckets[hb].next;
        BucketNode(hb);
        var found := HasAddr(table.buckets[hb].data, addr);
        if found {
          return table.buckets[hb].data;
        }
        assert c[j..][1..] == c[j + 1..];
        assert c[..j + 1] == c[..j] + [hb];
        hb, j := next, j + 1;
      }
      assert c[..j] == c;
      n := null;
    }

    /** node_hash_find_byaddr. */
    method FindByAddr(addr: Addr) returns (n: Node?)
      requires Valid()
      ensures n == null ==> addr !in ledger
      ensures n != null ==> n.site in nodes && nodes[n.site] == n && Has(Live(n), addr)
    {
      hide Exact, Live, Has, Kept, AllMissedIn, Table.Valid, Table.Map;
      TableSizes();
      var i: nat := 0;
      while i < table.index.Length
        invariant i <= table.index.Length == |table.chains|
        invariant forall l :: 0 <= l < i ==> AllMissedIn(table.buckets, table.chains[l], book, addr)
      {
        n := FindInChain(i, addr);
        if n != null {
          return;
        }
        i := i + 1;
      }
      n := null;
      AllMissed(addr);
    }

    lemma TableSizes()
      requires Valid()
      ensures table.index.Length == |table.chains|
    {
      SizesOf(table.index[..], table.buckets, table.chains);
    }

    lemma BucketNode(p: Ptr)
      requires Valid() && p in table.buckets
      ensures var n := table.buckets[p].data;
              n.site in nodes && nodes[n.site] == n && Sane(n) && n.site in book && book[n.site] == Live(n)
    {
      assert table.ident(table.buckets[p].data) == table.buckets[p].data.site;
      KeptAt(nodes, book, table.buckets[p].data);
    }

    lemma AllMissed(addr: Addr)
      requires Valid()
      requires forall l :: 0 <= l < |table.chains| ==> AllMissedIn(table.buckets, table.chains[l], book, addr)
      ensures addr !in ledger
    {
      assert forall a :: a in ledger ==> ledger[a].site in book && Has(book[ledger[a].site], a);
      hide Live, Linked, Total, Exact;
      forall s | s in book
        ensures !Has(book[s], addr)
      {
        KeptKeys(nodes, book);
        assert s in table.Map();
        var p := table.place[s];
        InChain(table.index[..], table.buckets, table.chains, p);
        var i := Slot(table.index.Length, table.buckets[p].key);
        assert AllMissedIn(table.buckets, table.chains[i], book, addr);
        var j :| 0 <= j < |table.chains[i]| && table.chains[i][j] == p;
        assert Missed(table.buckets, table.chains[i][j], book, addr);
        assert nodes[s] == table.buckets[p].data;
      }
    }

    /** alloc_node_remove2: 0 exactly for an address that is recorded, which it then is no more. */
    method Remove(addr: Addr, ghost ops: seq<Op>) returns (ret: int)
      requires Valid() && Tells(ops)
      modifies this, table, table.index, nodes.Values
      ensures Valid() && ledger == old(ledger) - {addr} && Tells(ops + [Release(addr)])
      ensures ret == if addr in old(ledger) then 0 else -1
      ensures ret == 0 <==> exists i: nat :: Outstanding(ops, addr, i)
    {
      OneMore(ops, Release(addr));
      LedgerExact(ops, addr);
      ret := Leave(addr);
    }

    method Leave(addr: Addr) returns (ret: int)
      requires Valid()
      modifies this, table, table.index, nodes.Values
      ensures Valid() && ledger == old(ledger) - {addr}
      ensures ret == if addr in old(ledger) then 0 else -1
    {
      hide Exact, Live, Has, Table.Valid, Table.Map;
      var n := FindByAddr(addr);
      if n == null {
        assert ledger - {addr} == ledger;
        return -1;
      }
      RecordedOnce(addr, n);
      ret := RemoveFrom(n, addr);
    }

    /** Of the nodes only the one of the ledger records the address. */
    lemma RecordedOnce(addr: Addr, n: Node)
      requires Valid() && n.site in nodes && nodes[n.site] == n && Has(Live(n), addr)
      ensures addr in ledger && ledger[addr].site == n.site
    {
      assert Page(book[n.site], n.site, ledger);
    }

    /** The record goes. */
    method Shrink(n: Node, addr: Addr)
      requires Shaped() && n.site in nodes && nodes[n.site] == n && n.site in book && Has(book[n.site], addr)
      modifies this`book, n
      ensures Shaped() && n.count == |book[n.site]|
      ensures var es, i := old(book)[n.site], Place(old(book)[n.site], addr);
              i < |es| && es[i].addr == addr && book == old(book)[n.site := Swapped(es, i)]
    {
      hide Exact, Live, Kept, Table.Valid, Table.Map;
      assert Place(book[n.site], addr) < |book[n.site]|;
      ShrinkKept(nodes, book, n, addr);
      book := book[n.site := Swapped(book[n.site], Place(book[n.site], addr))];
    }

    /** A node goes. */
    method Drop(n: Node) returns (ret: int)
      requires Shaped() && n.site in nodes && nodes[n.site] == n
      modifies this`nodes, this`book, table, table.index
      ensures Shaped() && ret == 0 && book == old(book) - {n.site}
    {
      hide Exact, Live, Kept, Table.Valid, Table.Map;
      KeptLess(nodes, book, n.site);
      assert table.ident(n) == n.site;
      var freed;
      ret, freed := table.Delete(n);
      nodes := nodes - {n.site};
      book := book - {n.site};
    }

    /** The end of alloc_node_remove2: the record goes, and with the last one the node. */
    method RemoveFrom(n: Node, addr: Addr) returns (ret: int)
      requires Valid() && addr in ledger && ledger[addr].site == n.site && n.site in nodes && nodes[n.site] == n
      requires Has(Live(n), addr)
      modifies this, table, table.index, n
      ensures Valid() && ledger == old(ledger) - {addr} && ret == 0
    {
      hide Exact, Has, Place, Kept, Live, Table.Valid, Table.Map;
      ghost var book0 := book;
      KeptAt(nodes, book, n);
      Shrink(n, addr);
      ExactRemove(book0, ledger, addr, Place(book0[n.site], addr));
      ret := 0;
      if n.count == 0 {
        ret := Drop(n);
        assert book == book0 - {n.site};
      }
      ledger := ledger - {addr};
    }
  }

  lemma KeptLess(nodes: map<Site, Node>, book: Book, site: Site)
    requires Kept(nodes, book)
    ensures Kept(nodes - {site}, book - {site})
  {
    var nodes' := nodes - {site};
    forall s | s in nodes'
      ensures nodes'[s] in nodes'.Values && nodes'[s] == nodes[s]
    {
    }
  }

  /** The pages of the chain's nodes do not have the address. */
  ghost predicate AllMissedIn(m: map<Ptr, Bucket<Node>>, c: seq<Ptr>, book: Book, addr: Addr) {
    forall j :: 0 <= j < |c| ==> Missed(m, c[j], book, addr)
  }

  ghost predicate Missed(m: map<Ptr, Bucket<Node>>, p: Ptr, book: Book, addr: Addr) {
    p in m && m[p].data.site in book && !Has(book[m[p].data.site], addr)
  }

  lemma KeptNew(nodes: map<Site, Node>, book: Book, made: Node, addr: Addr, size: nat)
    requires Kept(nodes, book) && made.site !in nodes && made.count == 1 && made.addrs == [addr] && made.sizes == [size]
    ensures Kept(nodes[made.site := made], book[made.site := [] + [Entry(addr, size)]])
  {
    var nodes' := nodes[made.site := made];
    assert nodes'[made.site] == made;
    assert forall s :: s in nodes ==> nodes'[s] == nodes[s];
    assert Live(made) == [] + [Entry(addr, size)];
  }

  lemma SiteAbsent(nodes: map<Site, Node>, book: Book, site: Site)
    requires Kept(nodes, book) && forall k :: k in nodes ==> nodes[k].site != site
    ensures site !in nodes
  {
  }

  // ----- runs -----

  /** What Insert and Remove do to the ledger. */
  datatype Op = Alloc(site: Site, addr: Addr, size: nat) | Release(addr: Addr)

  function After(ops: seq<Op>): Ledger {
    if ops == [] then map[] else Next(After(ops[..|ops| - 1]), ops[|ops| - 1])
  }

  function Next(ledger: Ledger, op: Op): Ledger {
    match op
    case Alloc(site, addr, size) => ledger[addr := Record(site, size)]
    case Release(addr) => ledger - {addr}
  }

  /** The allocator hands out no address that is recorded. */
  predicate FreshRun(ops: seq<Op>) {
    ops == [] ||
    (FreshRun(ops[..|ops| - 1]) && (ops[|ops| - 1].Alloc? ==> ops[|ops| - 1].addr !in After(ops[..|ops| - 1])))
  }

  lemma OneMore(ops: seq<Op>, op: Op)
    requires FreshRun(ops) && (op.Alloc? ==> op.addr !in After(ops))
    ensures FreshRun(ops + [op]) && After(ops + [op]) == Next(After(ops), op)
  {
    assert (ops + [op])[..|ops|] == ops;
  }

  /** The i-th operation allocates the address, and none later releases it. */
  predicate Outstanding(ops: seq<Op>, a: Addr, i: nat) {
    && i < |ops| && ops[i].Alloc? && ops[i].addr == a
    && forall k :: i < k < |ops| ==> ops[k] != Release(a)
  }

  /**
   After any run with fresh addresses an address is recorded exactly when it has been allocated and not
   released since, once; and then with the site and the size of that allocation.
   */
  lemma {:induction false} LedgerExact(ops: seq<Op>, a: Addr)
    requires FreshRun(ops)
    ensures a in After(ops) <==> exists i: nat :: Outstanding(ops, a, i)
    ensures forall i: nat :: Outstanding(ops, a, i)
                             ==> a in After(ops) && After(ops)[a] == Record(ops[i].site, ops[i].size)
    ensures forall i: nat, j: nat :: Outstanding(ops, a, i) && Outstanding(ops, a, j) ==> i == j
  {
    if ops != [] {
      var n, before, op := |ops| - 1, ops[..|ops| - 1], ops[|ops| - 1];
      LedgerExact(before, a);
      if op == Release(a) {
        NoneAfterRelease(ops, a);
      } else {
        forall i: nat | i < n
          ensures Outstanding(before, a, i) <==> Outstanding(ops, a, i)
        {
          OutstandingBefore(ops, a, i);
        }
        assert Outstanding(ops, a, n) <==> op.Alloc? && op.addr == a;
        assert forall i: nat :: Outstanding(before, a, i) ==> i < n && before[i] == ops[i];
        hide Outstanding;
        if a in After(ops) && !(op.Alloc? && op.addr == a) {
          var i: nat :| Outstanding(before, a, i);
          assert Outstanding(ops, a, i);
        }
        forall i: nat | Outstanding(ops, a, i)
          ensures a in After(ops) && After(ops)[a] == Record(ops[i].site, ops[i].size)
          ensures i < n ==> Outstanding(before, a, i)
        {
          InRange(ops, a, i);
        }
      }
    }
  }

  lemma InRange(ops: seq<Op>, a: Addr, i: nat)
    requires Outstanding(ops, a, i)
    ensures i < |ops| && ops[i].Alloc? && ops[i].addr == a
  {
  }

  lemma OutstandingBefore(ops: seq<Op>, a: Addr, i: nat)
    requires i + 1 < |ops| && ops[|ops| - 1] != Release(a)
    ensures Outstanding(ops[..|ops| - 1], a, i) <==> Outstanding(ops, a, i)
  {
    var before := ops[..|ops| - 1];
    assert forall k :: 0 <= k < |before| ==> before[k] == ops[k];
    if Outstanding(before, a, i) {
      forall k | i < k < |ops|
        ensures ops[k] != Release(a)
      {
        assert k < |before| ==> before[k] != Release(a);
      }
    }
  }

  lemma NoneAfterRelease(ops: seq<Op>, a: Addr)
    requires ops != [] && ops[|ops| - 1] == Release(a)
    ensures forall i: nat :: !Outstanding(ops, a, i)
  {
    forall i: nat
      ensures !Outstanding(ops, a, i)
    {
      var n := |ops| - 1;
      assert i < n ==> ops[n] == Release(a);
    }
  }
}
