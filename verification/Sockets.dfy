/**
 The sockets of src/eloop/eloop.c: three tables of registrations, a copy of each registration
 in a table indexed by descriptor, the "changed" flags, and the way eloop_run goes from
 epoll_wait through signal and timer handlers to the socket handlers.

 The kernel's side is the set of descriptors that epoll watches.
 */
module Sockets {

  type Ptr = nat

  const NULL: Ptr := 0

  /** struct eloop_sock; `reg` tells registrations apart, also of the same descriptor. */
  datatype Sock = Sock(reg: nat, fd: nat, handler: Ptr, eloopData: Ptr, userData: Ptr)

  const ZERO := Sock(0, 0, NULL, NULL, NULL)

  datatype Kind = Read | Write | Exception

  /** struct eloop_sock_table. */
  datatype Entries = Entries(socks: seq<Sock>, changed: bool)

  /**
   struct eloop_data as far as sockets go. `fdTable` has the slots that have been written; slots that
   exist without having been written hold whatever realloc left there. `watched` is the kernel's.
   */
  datatype Loop = Loop(
    maxSock: nat, count: nat, maxFd: nat, fdTable: map<nat, Sock>, maxEvents: nat,
    readers: Entries, writers: Entries, exceptions: Entries, watched: set<nat>, regs: nat)

  const START := Loop(0, 0, 0, map[], 0, Entries([], false), Entries([], false), Entries([], false), {}, 0)

  /** eloop_get_sock_table. */
  function TableOf(s: Loop, k: Kind): Entries {
    match k case Read => s.readers case Write => s.writers case Exception => s.exceptions
  }

  function WithTable(s: Loop, k: Kind, t: Entries): (s': Loop)
    ensures TableOf(s', k) == t
    ensures forall k' :: k' != k ==> TableOf(s', k') == TableOf(s, k')
    ensures s'.(readers := s.readers, writers := s.writers, exceptions := s.exceptions) == s
  {
    match k
    case Read => s.(readers := t)
    case Write => s.(writers := t)
    case Exception => s.(exceptions := t)
  }

  predicate Changed(s: Loop) {
    s.readers.changed || s.writers.changed || s.exceptions.changed
  }

  function Max(a: nat, b: nat): nat {
    if a > b then a else b
  }

  /** The size of the descriptor table after a registration of `fd`: it grows in one step only. */
  function GrownFd(s: Loop, fd: nat): nat {
    if Max(fd, s.maxSock) < s.maxFd then s.maxFd else if s.maxFd == 0 then 16 else 2 * s.maxFd
  }

  function GrownEvents(s: Loop): nat {
    if s.count + 1 <= s.maxEvents then s.maxEvents else if s.maxEvents == 0 then 8 else 2 * s.maxEvents
  }

  /** The copy that ends a registration stays inside the descriptor table. */
  predicate InReach(s: Loop, fd: nat) {
    fd < GrownFd(s, fd)
  }

  /** The first entry for a descriptor. */
  function Position(socks: seq<Sock>, fd: nat): (i: nat)
    ensures i <= |socks| && (i < |socks| ==> socks[i].fd == fd)
    ensures forall j :: 0 <= j < i ==> socks[j].fd != fd
  {
    if socks == [] || socks[0].fd == fd then 0 else 1 + Position(socks[1..], fd)
  }

  /** The entry that a registration appends, and what it does before epoll_ctl(ADD). */
  function NewSock(s: Loop, fd: nat, handler: Ptr, eloopData: Ptr, userData: Ptr): Sock {
    Sock(s.regs + 1, fd, handler, eloopData, userData)
  }

  function Entered(s: Loop, k: Kind, sock: Sock): Loop {
    var grown := s.(maxSock := Max(sock.fd, s.maxSock), maxFd := GrownFd(s, sock.fd), maxEvents := GrownEvents(s),
                    count := s.count + 1, regs := s.regs + 1);
    WithTable(grown, k, Entries(TableOf(s, k).socks + [sock], true))
  }

  /**
   eloop_register_sock. epoll_ctl(ADD) is refused for a descriptor that is watched already, and may be
   refused for reasons of the kernel's own; the entry stays in the table even then.
   */
  function Add(s: Loop, k: Kind, fd: nat, handler: Ptr, eloopData: Ptr, userData: Ptr, refused: bool): Loop {
    var sock := NewSock(s, fd, handler, eloopData, userData);
    var added := Entered(s, k, sock);
    if refused || fd in s.watched then added
    else added.(watched := s.watched + {fd}, fdTable := s.fdTable[fd := sock])
  }

  function AddResult(s: Loop, fd: nat, refused: bool): int {
    if refused || fd in s.watched then -1 else 0
  }

  /** What taking out entry `i` does before epoll_ctl(DEL). */
  function Left(s: Loop, k: Kind, i: nat): (s': Loop)
    requires i < |TableOf(s, k).socks|
    ensures s'.watched == s.watched && s'.fdTable == s.fdTable && s'.maxFd == s.maxFd
  {
    var socks := TableOf(s, k).socks;
    WithTable(s, k, Entries(socks[..i] + socks[i + 1..], true)).(count := if s.count > 0 then s.count - 1 else 0)
  }

  /** eloop_unregister_sock. epoll_ctl(DEL) fails for a descriptor that is not watched. */
  function Remove(s: Loop, k: Kind, fd: nat): Loop {
    var i := Position(TableOf(s, k).socks, fd);
    if i == |TableOf(s, k).socks| then s
    else
      var removed := Left(s, k, i);
      if fd in s.watched then removed.(watched := s.watched - {fd}, fdTable := s.fdTable[fd := ZERO])
      else removed
  }

  // ----- the descriptor table agrees with the three tables -----

  /** Some entry is for the descriptor. */
  predicate In(socks: seq<Sock>, fd: nat) {
    exists i :: 0 <= i < |socks| && socks[i].fd == fd
  }

  predicate Registered(s: Loop, fd: nat) {
    In(s.readers.socks, fd) || In(s.writers.socks, fd) || In(s.exceptions.socks, fd)
  }

  function Total(s: Loop): nat {
    |s.readers.socks| + |s.writers.socks| + |s.exceptions.socks|
  }

  /** Every descriptor has one entry in the table, and its slot in the descriptor table holds that entry. */
  ghost predicate TableIndexed(fdTable: map<nat, Sock>, maxFd: nat, socks: seq<Sock>) {
    && (forall i, j :: 0 <= i < j < |socks| ==> socks[i].fd != socks[j].fd)
    && (forall i :: 0 <= i < |socks| ==>
          socks[i].fd < maxFd && socks[i].fd in fdTable && fdTable[socks[i].fd] == socks[i])
  }

  /** No descriptor is in two of the tables, exactly the registered ones are watched, and index and counts are right. */
  ghost predicate IndexedParts(s: Loop, a: seq<Sock>, b: seq<Sock>, c: seq<Sock>) {
    && TableIndexed(s.fdTable, s.maxFd, a) && TableIndexed(s.fdTable, s.maxFd, b) && TableIndexed(s.fdTable, s.maxFd, c)
    && (forall fd :: !(In(a, fd) && In(b, fd)) && !(In(a, fd) && In(c, fd)) && !(In(b, fd) && In(c, fd)))
    && (forall fd :: fd in s.watched <==> In(a, fd) || In(b, fd) || In(c, fd))
    && s.count == |a| + |b| + |c| <= s.maxEvents
    && s.maxSock < Max(s.maxFd, 1)
  }

  ghost predicate Indexed(s: Loop) {
    IndexedParts(s, s.readers.socks, s.writers.socks, s.exceptions.socks)
  }

  lemma Rotate(s: Loop, a: seq<Sock>, b: seq<Sock>, c: seq<Sock>)
    requires IndexedParts(s, a, b, c)
    ensures IndexedParts(s, b, c, a) && IndexedParts(s, c, a, b)
  {
    hide In, TableIndexed;
  }

  lemma InAt(socks: seq<Sock>, i: nat)
    requires i < |socks|
    ensures In(socks, socks[i].fd)
  {
  }

  lemma InIsPosition(socks: seq<Sock>, fd: nat)
    ensures In(socks, fd) <==> Position(socks, fd) < |socks|
  {
    var i := Position(socks, fd);
    assert i < |socks| ==> socks[i].fd == fd;
  }

  lemma InAppended(socks: seq<Sock>, x: Sock, fd: nat)
    ensures In(socks + [x], fd) <==> In(socks, fd) || fd == x.fd
  {
    var all := socks + [x];
    assert all[|socks|] == x;
    if In(socks, fd) {
      var i :| 0 <= i < |socks| && socks[i].fd == fd;
      assert all[i].fd == fd;
    }
    if In(all, fd) {
      var i :| 0 <= i < |all| && all[i].fd == fd;
      assert i < |socks| ==> socks[i].fd == fd;
    }
  }

  lemma InWithout(socks: seq<Sock>, i: nat, fd: nat)
    requires i < |socks| && forall j :: 0 <= j < |socks| && j != i ==> socks[j].fd != socks[i].fd
    ensures In(socks[..i] + socks[i + 1..], fd) <==> In(socks, fd) && fd != socks[i].fd
  {
    var rest := socks[..i] + socks[i + 1..];
    if In(rest, fd) {
      var j :| 0 <= j < |rest| && rest[j].fd == fd;
      assert socks[if j < i then j else j + 1].fd == fd;
    }
    if In(socks, fd) && fd != socks[i].fd {
      var j :| 0 <= j < |socks| && socks[j].fd == fd;
      assert rest[if j < i then j else j - 1].fd == fd;
    }
  }

  lemma TableWithout(fdTable: map<nat, Sock>, maxFd: nat, socks: seq<Sock>, i: nat)
    requires TableIndexed(fdTable, maxFd, socks) && i < |socks|
    ensures TableIndexed(fdTable, maxFd, socks[..i] + socks[i + 1..])
    ensures forall fd :: In(socks[..i] + socks[i + 1..], fd) <==> In(socks, fd) && fd != socks[i].fd
  {
    var rest := socks[..i] + socks[i + 1..];
    assert forall j :: 0 <= j < |rest| ==> rest[j] == socks[if j < i then j else j + 1];
    forall fd
      ensures In(rest, fd) <==> In(socks, fd) && fd != socks[i].fd
    {
      InWithout(socks, i, fd);
    }
  }

  /** Changes of slots of other descriptors, and growth, do not disturb a table's part of the index. */
  lemma TableUntouched(s: Loop, s': Loop, socks: seq<Sock>)
    requires TableIndexed(s.fdTable, s.maxFd, socks) && s.maxFd <= s'.maxFd
    requires forall f :: In(socks, f) && f in s.fdTable ==> f in s'.fdTable && s'.fdTable[f] == s.fdTable[f]
    ensures TableIndexed(s'.fdTable, s'.maxFd, socks)
  {
    forall i | 0 <= i < |socks|
      ensures socks[i].fd in s'.fdTable && s'.fdTable[socks[i].fd] == socks[i]
    {
      InAt(socks, i);
    }
  }

  lemma TableAppended(fdTable: map<nat, Sock>, maxFd: nat, socks: seq<Sock>, x: Sock)
    requires TableIndexed(fdTable, maxFd, socks) && !In(socks, x.fd)
    requires x.fd < maxFd && x.fd in fdTable && fdTable[x.fd] == x
    ensures TableIndexed(fdTable, maxFd, socks + [x])
    ensures forall fd :: In(socks + [x], fd) <==> In(socks, fd) || fd == x.fd
  {
    forall i | 0 <= i < |socks|
      ensures socks[i].fd != x.fd
    {
      InAt(socks, i);
    }
    forall fd
      ensures In(socks + [x], fd) <==> In(socks, fd) || fd == x.fd
    {
      InAppended(socks, x, fd);
    }
  }

  lemma AddToFirst(s: Loop, s': Loop, x: Sock, a: seq<Sock>, b: seq<Sock>, c: seq<Sock>)
    requires IndexedParts(s, a, b, c) && x.fd !in s.watched
    requires s'.watched == s.watched + {x.fd} && s'.fdTable == s.fdTable[x.fd := x] && s'.count == s.count + 1
    requires s.maxFd <= s'.maxFd && x.fd < s'.maxFd && s'.count <= s'.maxEvents && s'.maxSock < s'.maxFd
    ensures IndexedParts(s', a + [x], b, c)
  {
    hide In, TableIndexed;
    TableUntouched(s, s', a);
    TableUntouched(s, s', b);
    TableUntouched(s, s', c);
    TableAppended(s'.fdTable, s'.maxFd, a, x);
  }

  /** A registration of a descriptor that is not registered, in reach and not refused, succeeds and keeps the index. */
  lemma IndexedAdd(s: Loop, k: Kind, fd: nat, handler: Ptr, eloopData: Ptr, userData: Ptr)
    requires Indexed(s) && !Registered(s, fd) && InReach(s, fd)
    ensures AddResult(s, fd, false) == 0
    ensures Indexed(Add(s, k, fd, handler, eloopData, userData, false))
  {
    hide In, TableIndexed;
    var t := Add(s, k, fd, handler, eloopData, userData, false);
    var x := Sock(s.regs + 1, fd, handler, eloopData, userData);
    var r, w, e := s.readers.socks, s.writers.socks, s.exceptions.socks;
    Rotate(s, r, w, e);
    match k
    case Read =>
      AddToFirst(s, t, x, r, w, e);
    case Write =>
      AddToFirst(s, t, x, w, e, r);
      Rotate(t, w + [x], e, r);
    case Exception =>
      AddToFirst(s, t, x, e, r, w);
      Rotate(t, e + [x], r, w);
  }

  lemma RemoveFromFirst(s: Loop, s': Loop, i: nat, a: seq<Sock>, b: seq<Sock>, c: seq<Sock>)
    requires IndexedParts(s, a, b, c) && i < |a|
    requires s'.watched == s.watched - {a[i].fd} && s'.fdTable == s.fdTable[a[i].fd := ZERO] && s'.count == s.count - 1
    requires s'.maxFd == s.maxFd && s'.maxEvents == s.maxEvents && s'.maxSock == s.maxSock
    ensures IndexedParts(s', a[..i] + a[i + 1..], b, c)
  {
    TableWithout(s.fdTable, s.maxFd, a, i);
    InAt(a, i);
    hide In, TableIndexed;
    TableUntouched(s, s', a[..i] + a[i + 1..]);
    TableUntouched(s, s', b);
    TableUntouched(s, s', c);
  }

  /** An unregistration of any descriptor keeps the index. */
  lemma IndexedRemove(s: Loop, k: Kind, fd: nat)
    requires Indexed(s)
    ensures Indexed(Remove(s, k, fd))
  {
    hide TableIndexed, Position, In;
    var r, w, e := s.readers.socks, s.writers.socks, s.exceptions.socks;
    var socks, i := TableOf(s, k).socks, Position(TableOf(s, k).socks, fd);
    InIsPosition(socks, fd);
    if i < |socks| {
      assert fd in s.watched;
      var t, rest := Remove(s, k, fd), socks[..i] + socks[i + 1..];
      Rotate(s, r, w, e);
      match k
      case Read =>
        RemoveFromFirst(s, t, i, r, w, e);
      case Write =>
        RemoveFromFirst(s, t, i, w, e, r);
        Rotate(t, rest, e, r);
      case Exception =>
        RemoveFromFirst(s, t, i, e, r, w);
        Rotate(t, rest, r, w);
    }
  }

  // ----- any sequence of calls -----

  /** What a program or a handler can do: the two calls, and closing a descriptor behind the loop's back. */
  datatype Op =
    | Register(k: Kind, fd: nat, handler: Ptr, eloopData: Ptr, userData: Ptr, refused: bool)
    | Unregister(k: Kind, fd: nat)
    | Close(fd: nat)

  function Apply(s: Loop, op: Op): Loop {
    match op
    case Register(k, fd, h, d, u, refused) => Add(s, k, fd, h, d, u, refused)
    case Unregister(k, fd) => Remove(s, k, fd)
    case Close(fd) => s.(watched := s.watched - {fd})
  }

  /** Each descriptor at most once at a time, within the growth step, and closed only when not registered. */
  predicate WellUsed(s: Loop, op: Op) {
    && (op.Register? ==> !Registered(s, op.fd) && InReach(s, op.fd) && !op.refused)
    && (op.Close? ==> !Registered(s, op.fd))
  }

  ghost predicate Legal(s: Loop, ops: seq<Op>)
    decreases |ops|
  {
    ops == [] || (WellUsed(s, ops[0]) && Legal(Apply(s, ops[0]), ops[1..]))
  }

  function After(s: Loop, ops: seq<Op>): Loop
    decreases |ops|
  {
    if ops == [] then s else After(Apply(s, ops[0]), ops[1..])
  }

  lemma IndexedStep(s: Loop, op: Op)
    requires Indexed(s) && WellUsed(s, op)
    ensures Indexed(Apply(s, op))
  {
    match op
    case Register(k, fd, h, d, u, _) => IndexedAdd(s, k, fd, h, d, u);
    case Unregister(k, fd) => IndexedRemove(s, k, fd);
    case Close(fd) => assert s.watched - {fd} == s.watched;
  }

  /** After any well-used sequence of calls the descriptor table agrees with the three tables. */
  lemma {:induction false} IndexAgrees(s: Loop, ops: seq<Op>)
    requires Indexed(s) && Legal(s, ops)
    ensures Indexed(After(s, ops))
    decreases |ops|
  {
    if ops != [] {
      IndexedStep(s, ops[0]);
      IndexAgrees(Apply(s, ops[0]), ops[1..]);
    }
  }

  /** In particular from eloop_init on: one entry for each registered descriptor, in its slot, and the counts. */
  lemma IndexFromStart(ops: seq<Op>, k: Kind, i: nat)
    requires Legal(START, ops) && i < |TableOf(After(START, ops), k).socks|
    ensures var s := After(START, ops);
            var x := TableOf(s, k).socks[i];
            && x.fd in s.fdTable && s.fdTable[x.fd] == x && x.fd < s.maxFd && x.fd in s.watched
            && s.count == Total(s) <= s.maxEvents
  {
    IndexAgrees(START, ops);
    InAt(TableOf(After(START, ops), k).socks, i);
  }

  /** The one growth step is enough exactly for descriptors below twice the table's size, or below 16 at first. */
  lemma ReachExactly(s: Loop, fd: nat)
    requires s.maxSock < Max(s.maxFd, 1)
    ensures InReach(s, fd) <==> fd < if s.maxFd == 0 then 16 else 2 * s.maxFd
  {
  }

  /**
   A second registration of a watched descriptor fails but leaves an entry. Unregistering the descriptor
   then silences the first registration. In another table it takes out the second entry, and that of the
   first stays in its own; in the same table it takes out the entry of the first, and the second stays.
   */
  lemma SecondRegistration(s: Loop, k0: Kind, i: nat, k: Kind, handler: Ptr, eloopData: Ptr, userData: Ptr)
    requires Indexed(s) && i < |TableOf(s, k0).socks|
    ensures var fd := TableOf(s, k0).socks[i].fd;
            var x := NewSock(s, fd, handler, eloopData, userData);
            var t := Add(s, k, fd, handler, eloopData, userData, false);
            var u := Remove(t, k, fd);
            && AddResult(s, fd, false) == -1 && TableOf(t, k).socks == TableOf(s, k).socks + [x]
            && fd !in u.watched && fd in u.fdTable && u.fdTable[fd] == ZERO
            && (k != k0 ==> TableOf(u, k) == Entries(TableOf(s, k).socks, true) && TableOf(u, k0) == TableOf(s, k0))
            && (k == k0 ==> TableOf(u, k) == Entries(Less(TableOf(s, k).socks, i) + [x], true))
  {
    var fd, all := TableOf(s, k0).socks[i].fd, TableOf(s, k).socks;
    var x := NewSock(s, fd, handler, eloopData, userData);
    assert fd in s.watched && fd in s.fdTable by {
      InAt(TableOf(s, k0).socks, i);
    }
    if k == k0 {
      assert forall j :: 0 <= j < i ==> all[j].fd != fd;
      PositionIs(all + [x], fd, i);
      LessAppended(all, i, x);
    } else {
      OtherTables(s, k0, i, k);
      PositionIs(all + [x], fd, |all|);
      LessLast(all, x);
    }
    hide Indexed, Position;
    SecondRemoved(s, k, fd, handler, eloopData, userData);
  }

  lemma SecondRemoved(s: Loop, k: Kind, fd: nat, handler: Ptr, eloopData: Ptr, userData: Ptr)
    requires fd in s.watched
    ensures var x := NewSock(s, fd, handler, eloopData, userData);
            var t := Add(s, k, fd, handler, eloopData, userData, false);
            var u, p := Remove(t, k, fd), Position(TableOf(s, k).socks + [x], fd);
            && AddResult(s, fd, false) == -1 && TableOf(t, k).socks == TableOf(s, k).socks + [x]
            && p < |TableOf(t, k).socks|
            && TableOf(u, k) == Entries(Less(TableOf(t, k).socks, p), true)
            && (forall k0 :: k0 != k ==> TableOf(u, k0) == TableOf(s, k0))
            && fd !in u.watched && fd in u.fdTable && u.fdTable[fd] == ZERO
  {
    var x := NewSock(s, fd, handler, eloopData, userData);
    var all := TableOf(s, k).socks + [x];
    assert all[|all| - 1].fd == fd;
    hide Position;
  }

  lemma LessAppended(socks: seq<Sock>, i: nat, x: Sock)
    requires i < |socks|
    ensures Less(socks + [x], i) == Less(socks, i) + [x]
  {
  }

  lemma LessLast(socks: seq<Sock>, x: Sock)
    ensures Less(socks + [x], |socks|) == socks
  {
  }

  function Less(socks: seq<Sock>, i: nat): seq<Sock>
    requires i < |socks|
  {
    socks[..i] + socks[i + 1..]
  }

  lemma OtherTables(s: Loop, k0: Kind, i: nat, k: Kind)
    requires Indexed(s) && k != k0 && i < |TableOf(s, k0).socks|
    ensures forall j :: 0 <= j < |TableOf(s, k).socks| ==> TableOf(s, k).socks[j].fd != TableOf(s, k0).socks[i].fd
  {
    InAt(TableOf(s, k0).socks, i);
    forall j | 0 <= j < |TableOf(s, k).socks|
      ensures TableOf(s, k).socks[j].fd != TableOf(s, k0).socks[i].fd
    {
      InAt(TableOf(s, k).socks, j);
    }
  }

  /** A registration keeps the index exactly when its descriptor is not registered, in reach and not refused. */
  lemma IndexKeptExactly(s: Loop, k: Kind, fd: nat, handler: Ptr, eloopData: Ptr, userData: Ptr, refused: bool)
    requires Indexed(s)
    ensures Indexed(Add(s, k, fd, handler, eloopData, userData, refused))
            <==> !Registered(s, fd) && InReach(s, fd) && !refused
  {
    if !Registered(s, fd) && InReach(s, fd) && !refused {
      IndexedAdd(s, k, fd, handler, eloopData, userData);
    }
    var t := Add(s, k, fd, handler, eloopData, userData, refused);
    if Indexed(t) {
      var n := |TableOf(s, k).socks|;
      assert TableOf(t, k).socks[n].fd == fd;
      EntryIndexed(t, k, n);
      hide Indexed, IndexedParts, In;
      if Registered(s, fd) {
        var k0, i := EntryOf(s, fd);
        assert TableOf(t, k0).socks[i].fd == fd;
        OneEntry(t, k, n, k0, i);
      }
      assert fd in t.watched && !Registered(s, fd);
      WatchedRegistered(s, fd);
    }
  }

  lemma WatchedRegistered(s: Loop, fd: nat)
    requires Indexed(s)
    ensures fd in s.watched <==> Registered(s, fd)
  {
  }

  lemma EntryIndexed(s: Loop, k: Kind, i: nat)
    requires Indexed(s) && i < |TableOf(s, k).socks|
    ensures TableOf(s, k).socks[i].fd in s.watched && TableOf(s, k).socks[i].fd < s.maxFd
  {
    InAt(TableOf(s, k).socks, i);
  }

  lemma OneEntry(s: Loop, k: Kind, i: nat, k0: Kind, j: nat)
    requires Indexed(s) && i < |TableOf(s, k).socks| && j < |TableOf(s, k0).socks|
    requires TableOf(s, k).socks[i].fd == TableOf(s, k0).socks[j].fd
    ensures k == k0 && i == j
  {
    InAt(TableOf(s, k).socks, i);
    InAt(TableOf(s, k0).socks, j);
  }

  lemma EntryOf(s: Loop, fd: nat) returns (k: Kind, i: nat)
    requires Registered(s, fd)
    ensures i < |TableOf(s, k).socks| && TableOf(s, k).socks[i].fd == fd
  {
    k := if In(s.readers.socks, fd) then Read else if In(s.writers.socks, fd) then Write else Exception;
    i := Position(TableOf(s, k).socks, fd);
    InIsPosition(TableOf(s, k).socks, fd);
  }

  // ----- no stale event is dispatched -----

  /** Where eloop_run is: elsewhere, behind epoll_wait, between two events, or inside a socket handler. */
  datatype Phase =
    | Elsewhere
    | Reported(events: seq<nat>)
    | Dispatching(events: seq<nat>)
    | Handling(events: seq<nat>)

  /** A socket handler was called for an event on `fd`; `since` was then the set of unbroken registrations. */
  datatype Call = Call(fd: nat, sock: Sock, since: set<nat>)

  /**
   `inForce` are the registrations that succeeded and have not been withdrawn, `since` those of them
   that have been in force ever since the last epoll_wait, and `fdOf` the descriptor of each.
   */
  datatype Run = Run(s: Loop, phase: Phase, inForce: set<nat>, since: set<nat>, fdOf: map<nat, nat>, calls: seq<Call>)

  const BEGIN := Run(START, Elsewhere, {}, {}, map[], [])

  datatype Step =
    | Doing(op: Op)              // the program, or a signal, timer or socket handler
    | Wait(events: seq<nat>)     // epoll_wait returns, and the changed flags are cleared
    | Skip                       // no events, an error, or a changed table: the batch is dropped
    | Begin                      // eloop_sock_table_dispatch starts
    | Next                       // its loop looks at the next event
    | Return                     // a socket handler returns

  /**
   Doing admits every registration. One out of reach of the growth step, for which the code stores past the
   end of fd_table, is stored in the map like any other here: about what that overwrites nothing is said.
   */
  predicate CanStep(r: Run, step: Step) {
    match step
    case Doing(_) => !r.phase.Dispatching?
    case Wait(events) => r.phase.Elsewhere? && forall i :: 0 <= i < |events| ==> events[i] in r.s.watched
    case Skip => r.phase.Reported?
    case Begin => r.phase.Reported? && !Changed(r.s)
    case Next => r.phase.Dispatching?
    case Return => r.phase.Handling?
  }

  /** The registration that an operation withdraws, if any. */
  function Withdrawn(s: Loop, op: Op): set<nat> {
    if op.Unregister? && Position(TableOf(s, op.k).socks, op.fd) < |TableOf(s, op.k).socks|
    then {TableOf(s, op.k).socks[Position(TableOf(s, op.k).socks, op.fd)].reg}
    else {}
  }

  function Granted(s: Loop, op: Op): set<nat> {
    if op.Register? && AddResult(s, op.fd, op.refused) == 0 then {s.regs + 1} else {}
  }

  function Unchanged(s: Loop): Loop {
    s.(readers := s.readers.(changed := false), writers := s.writers.(changed := false),
       exceptions := s.exceptions.(changed := false))
  }

  function Do(r: Run, step: Step): Run
    requires CanStep(r, step)
  {
    match step
    case Doing(op) =>
      r.(s := Apply(r.s, op), inForce := r.inForce + Granted(r.s, op) - Withdrawn(r.s, op),
         since := r.since - Withdrawn(r.s, op),
         fdOf := if op.Register? then r.fdOf[r.s.regs + 1 := op.fd] else r.fdOf)
    case Wait(events) => r.(s := Unchanged(r.s), phase := Reported(events), since := r.inForce)
    case Skip => r.(phase := Elsewhere)
    case Begin => r.(phase := Dispatching(r.phase.events))
    case Next => NextEvent(r)
    case Return => r.(phase := if Changed(r.s) then Elsewhere else Dispatching(r.phase.events))
  }

  function NextEvent(r: Run): Run
    requires r.phase.Dispatching?
  {
    var events := r.phase.events;
    if events == [] then r.(phase := Elsewhere)
    else
      var sock := if events[0] in r.s.fdTable then r.s.fdTable[events[0]] else ZERO;
      if sock.handler == NULL then r.(phase := Dispatching(events[1..]))
      else r.(phase := Handling(events[1..]), calls := r.calls + [Call(events[0], sock, r.since)])
  }

  predicate LegalRun(r: Run, steps: seq<Step>)
    decreases |steps|
  {
    steps == [] || (CanStep(r, steps[0]) && LegalRun(Do(r, steps[0]), steps[1..]))
  }

  function AfterRun(r: Run, steps: seq<Step>): Run
    requires LegalRun(r, steps)
    decreases |steps|
  {
    if steps == [] then r else AfterRun(Do(r, steps[0]), steps[1..])
  }

  /** The slot of `fd` holds a registration of `fd` from the given set. */
  ghost predicate Fresh(s: Loop, fd: nat, regs: set<nat>) {
    fd in s.fdTable && s.fdTable[fd].fd == fd && s.fdTable[fd].reg in regs
  }

  /** Each entry of a table is of the descriptor that its registration was for. */
  ghost predicate EntriesInv(fdOf: map<nat, nat>, socks: seq<Sock>) {
    forall i :: 0 <= i < |socks| ==> socks[i].reg in fdOf && fdOf[socks[i].reg] == socks[i].fd
  }

  ghost predicate RegsInv(s: Loop, inForce: set<nat>, fdOf: map<nat, nat>) {
    && (forall g :: g in inForce ==> 0 < g <= s.regs)
    && (forall g :: g in fdOf ==> 0 < g <= s.regs)
    && (forall fd :: fd in s.watched ==> Fresh(s, fd, inForce))
    && (forall fd :: fd in s.fdTable ==> s.fdTable[fd].reg <= s.regs)
    && (forall fd :: fd in s.fdTable && s.fdTable[fd].reg in fdOf ==> fdOf[s.fdTable[fd].reg] == fd)
    && EntriesInv(fdOf, s.readers.socks) && EntriesInv(fdOf, s.writers.socks) && EntriesInv(fdOf, s.exceptions.socks)
  }

  /** Every event still to be looked at belongs to a registration that has been in force since it was reported. */
  ghost predicate EventsInv(s: Loop, since: set<nat>, events: seq<nat>) {
    forall i :: 0 <= i < |events| ==> Fresh(s, events[i], since)
  }

  ghost predicate RunInv(r: Run) {
    && RegsInv(r.s, r.inForce, r.fdOf)
    && (r.phase.Elsewhere? || EventsInv(r.s, r.since, r.phase.events) || (Changed(r.s) && !r.phase.Dispatching?))
    && (forall i :: 0 <= i < |r.calls|
          ==> r.calls[i].sock.reg in r.calls[i].since && r.calls[i].sock.fd == r.calls[i].fd)
  }

  lemma RegsInvRegister(r: Run, op: Op)
    requires RegsInv(r.s, r.inForce, r.fdOf) && op.Register?
    ensures var t := Do(r.(phase := Elsewhere), Doing(op)); RegsInv(t.s, t.inForce, t.fdOf)
  {
    var t := Do(r.(phase := Elsewhere), Doing(op));
    var x := NewSock(r.s, op.fd, op.handler, op.eloopData, op.userData);
    OneMoreEntry(r.fdOf, r.s.readers.socks, x);
    OneMoreEntry(r.fdOf, r.s.writers.socks, x);
    OneMoreEntry(r.fdOf, r.s.exceptions.socks, x);
    RegisterParts(r, op);
    hide EntriesInv, Do, Apply, TableOf, WithTable, Granted, Withdrawn, Entered, Add, GrownFd, GrownEvents;
    forall fd | fd in t.s.watched
      ensures Fresh(t.s, fd, t.inForce)
    {
      assert fd in r.s.watched ==> Fresh(r.s, fd, r.inForce);
    }
  }

  lemma RegisterParts(r: Run, op: Op)
    requires op.Register?
    ensures var t := Do(r.(phase := Elsewhere), Doing(op));
            var x := NewSock(r.s, op.fd, op.handler, op.eloopData, op.userData);
            var granted := !op.refused && op.fd !in r.s.watched;
            && t.s.regs == r.s.regs + 1 && t.fdOf == r.fdOf[x.reg := op.fd]
            && t.inForce == (if granted then r.inForce + {x.reg} else r.inForce)
            && t.s.watched == (if granted then r.s.watched + {op.fd} else r.s.watched)
            && t.s.fdTable == (if granted then r.s.fdTable[op.fd := x] else r.s.fdTable)
            && t.s.readers.socks == r.s.readers.socks + (if op.k.Read? then [x] else [])
            && t.s.writers.socks == r.s.writers.socks + (if op.k.Write? then [x] else [])
            && t.s.exceptions.socks == r.s.exceptions.socks + (if op.k.Exception? then [x] else [])
  {
    assert forall socks: seq<Sock> :: socks + [] == socks;
  }

  lemma OneMoreEntry(fdOf: map<nat, nat>, socks: seq<Sock>, x: Sock)
    requires EntriesInv(fdOf, socks) && x.reg !in fdOf
    ensures EntriesInv(fdOf[x.reg := x.fd], socks + []) && EntriesInv(fdOf[x.reg := x.fd], socks + [x])
  {
  }

  lemma RegsInvUnregister(r: Run, op: Op)
    requires RegsInv(r.s, r.inForce, r.fdOf) && op.Unregister?
    ensures var t := Do(r.(phase := Elsewhere), Doing(op)); RegsInv(t.s, t.inForce, t.fdOf)
  {
    var socks := TableOf(r.s, op.k).socks;
    var i := Position(socks, op.fd);
    if i < |socks| {
      var t := Do(r.(phase := Elsewhere), Doing(op));
      assert EntriesInv(r.fdOf, socks);
      assert EntriesInv(r.fdOf, Less(socks, i));
      UnregisterParts(r, op);
      hide EntriesInv, Do, Apply, WithTable, Granted, Withdrawn, Left, Remove, Position, Less;
      forall fd | fd in t.s.watched
        ensures Fresh(t.s, fd, t.inForce)
      {
        assert Fresh(r.s, fd, r.inForce);
      }
    }
  }

  lemma UnregisterParts(r: Run, op: Op)
    requires op.Unregister? && Position(TableOf(r.s, op.k).socks, op.fd) < |TableOf(r.s, op.k).socks|
    ensures var t := Do(r.(phase := Elsewhere), Doing(op));
            var socks, watched := TableOf(r.s, op.k).socks, op.fd in r.s.watched;
            var i := Position(socks, op.fd);
            && t.s.regs == r.s.regs && t.fdOf == r.fdOf && t.inForce == r.inForce - {socks[i].reg}
            && t.s.watched == r.s.watched - {op.fd}
            && t.s.fdTable == (if watched then r.s.fdTable[op.fd := ZERO] else r.s.fdTable)
            && t.s.readers.socks == (if op.k.Read? then Less(socks, i) else r.s.readers.socks)
            && t.s.writers.socks == (if op.k.Write? then Less(socks, i) else r.s.writers.socks)
            && t.s.exceptions.socks == (if op.k.Exception? then Less(socks, i) else r.s.exceptions.socks)
  {
    hide Position;
  }

  /** Whatever changes the descriptor table or withdraws a registration raises a changed flag. */
  lemma OpsAnnounce(s: Loop, op: Op)
    ensures !Changed(Apply(s, op)) ==> Apply(s, op).fdTable == s.fdTable && Withdrawn(s, op) == {}
    ensures Changed(s) ==> Changed(Apply(s, op))
  {
  }

  lemma RegsInvStep(r: Run, op: Op)
    requires RegsInv(r.s, r.inForce, r.fdOf)
    ensures var t := Do(r.(phase := Elsewhere), Doing(op)); RegsInv(t.s, t.inForce, t.fdOf)
  {
    match op
    case Register(_, _, _, _, _, _) => RegsInvRegister(r, op);
    case Unregister(_, _) => RegsInvUnregister(r, op);
    case Close(_) =>
  }

  lemma RunInvDoing(r: Run, op: Op)
    requires RunInv(r) && !r.phase.Dispatching?
    ensures RunInv(Do(r, Doing(op)))
  {
    hide RegsInv;
    OpsAnnounce(r.s, op);
    RegsInvStep(r, op);
    hide Apply, Withdrawn, Granted;
    var t := Do(r, Doing(op));
    assert !Changed(t.s) && !r.phase.Elsewhere? ==> EventsInv(t.s, t.since, t.phase.events);
  }

  lemma RunInvStep(r: Run, step: Step)
    requires RunInv(r) && CanStep(r, step)
    ensures RunInv(Do(r, step))
  {
    if step.Doing? {
      hide RunInv;
      RunInvDoing(r, step.op);
    } else {
      hide EntriesInv;
    }
  }

  lemma {:induction false} RunInvRun(r: Run, steps: seq<Step>)
    requires RunInv(r) && LegalRun(r, steps)
    ensures RunInv(AfterRun(r, steps))
    decreases |steps|
  {
    if steps != [] {
      RunInvStep(r, steps[0]);
      RunInvRun(Do(r, steps[0]), steps[1..]);
    }
  }

  /**
   In every run, whatever the handlers register within reach, withdraw or close and whatever the kernel
   refuses, each socket handler that is called belongs to a registration of the reported descriptor that
   has been in force since the epoll_wait that reported the event.
   */
  lemma NoStaleEvent(steps: seq<Step>, i: nat)
    requires LegalRun(BEGIN, steps) && i < |AfterRun(BEGIN, steps).calls|
    ensures var call := AfterRun(BEGIN, steps).calls[i];
            call.sock.fd == call.fd && call.sock.reg in call.since
  {
    RunInvRun(BEGIN, steps);
  }

  // ----- dispatch is complete -----

  /** The entry of a descriptor in the three tables. */
  function EntryFor(s: Loop, fd: nat): Sock
    requires Registered(s, fd)
  {
    var k := if In(s.readers.socks, fd) then Read else if In(s.writers.socks, fd) then Write else Exception;
    InIsPosition(TableOf(s, k).socks, fd);
    TableOf(s, k).socks[Position(TableOf(s, k).socks, fd)]
  }

  /** It is every entry of the descriptor, and its slot holds it. */
  lemma EntryOnly(s: Loop, k: Kind, i: nat)
    requires Indexed(s) && i < |TableOf(s, k).socks|
    ensures var x := TableOf(s, k).socks[i];
            Registered(s, x.fd) && EntryFor(s, x.fd) == x && x.fd in s.fdTable && s.fdTable[x.fd] == x
  {
    InAt(TableOf(s, k).socks, i);
    var fd := TableOf(s, k).socks[i].fd;
    var k0, j := EntryOf(s, fd);
    OneEntry(s, k, i, k0, j);
  }

  lemma EntrySlot(s: Loop, fd: nat)
    requires Indexed(s) && Registered(s, fd)
    ensures EntryFor(s, fd).fd == fd && fd in s.fdTable && s.fdTable[fd] == EntryFor(s, fd)
  {
    var k, i := EntryOf(s, fd);
    EntryOnly(s, k, i);
  }

  /** Slots that have been written and whose descriptor has no entry are cleared. */
  ghost predicate Cleared(s: Loop) {
    forall fd :: fd in s.fdTable && !Registered(s, fd) ==> s.fdTable[fd] == ZERO
  }

  lemma RegisteredAdd(s: Loop, k: Kind, fd: nat, handler: Ptr, eloopData: Ptr, userData: Ptr, refused: bool, other: nat)
    ensures Registered(Add(s, k, fd, handler, eloopData, userData, refused), other)
            <==> Registered(s, other) || other == fd
  {
    InAppended(TableOf(s, k).socks, NewSock(s, fd, handler, eloopData, userData), other);
    hide In;
  }

  lemma RegisteredRemove(s: Loop, k: Kind, fd: nat, other: nat)
    requires Indexed(s)
    ensures other != fd ==> (Registered(Remove(s, k, fd), other) <==> Registered(s, other))
  {
    var socks := TableOf(s, k).socks;
    var i := Position(socks, fd);
    if i < |socks| {
      assert forall j :: 0 <= j < |socks| && j != i ==> socks[j].fd != socks[i].fd;
      InWithout(socks, i, other);
    }
    hide In, Indexed, Position;
  }

  lemma ClearedStep(s: Loop, op: Op)
    requires Indexed(s) && Cleared(s) && WellUsed(s, op)
    ensures Cleared(Apply(s, op))
  {
    var t := Apply(s, op);
    forall fd | fd in t.fdTable && !Registered(t, fd)
      ensures t.fdTable[fd] == ZERO
    {
      match op
      case Register(k, f, h, d, u, refused) =>
        RegisteredAdd(s, k, f, h, d, u, refused, fd);
        hide Registered;
      case Unregister(k, f) =>
        RegisteredRemove(s, k, f, fd);
        RemovedSlot(s, k, f, fd);
      case Close(f) => assert Registered(t, fd) == Registered(s, fd);
    }
  }

  lemma RemovedSlot(s: Loop, k: Kind, fd: nat, other: nat)
    requires Indexed(s) && Cleared(s) && other in Remove(s, k, fd).fdTable && !Registered(Remove(s, k, fd), other)
    requires other != fd ==> !Registered(s, other)
    ensures Remove(s, k, fd).fdTable[other] == ZERO
  {
    var i := Position(TableOf(s, k).socks, fd);
    if i < |TableOf(s, k).socks| {
      EntryIndexed(s, k, i);
    }
    hide Indexed, In, Position;
  }

  /** The runs in which every call is well used. */
  predicate WellRun(r: Run, steps: seq<Step>)
    requires LegalRun(r, steps)
    decreases |steps|
  {
    steps == []
    || ((steps[0].Doing? ==> WellUsed(r.s, steps[0].op)) && WellRun(Do(r, steps[0]), steps[1..]))
  }

  /** After any such run index and tables agree, whatever the loop is at. */
  lemma {:induction false} IndexedRun(r: Run, steps: seq<Step>)
    requires Indexed(r.s) && Cleared(r.s) && LegalRun(r, steps) && WellRun(r, steps)
    ensures Indexed(AfterRun(r, steps).s) && Cleared(AfterRun(r, steps).s)
    decreases |steps|
  {
    if steps != [] {
      var t := Do(r, steps[0]);
      if steps[0].Doing? {
        IndexedStep(r.s, steps[0].op);
        ClearedStep(r.s, steps[0].op);
      } else {
        assert t.s == r.s || t.s == Unchanged(r.s);
        UnchangedIndexed(r.s);
      }
      hide Indexed, Cleared, Do;
      IndexedRun(t, steps[1..]);
    }
  }

  lemma UnchangedIndexed(s: Loop)
    requires Indexed(s)
    ensures Indexed(Unchanged(s)) && (Cleared(s) ==> Cleared(Unchanged(s))) && !Changed(Unchanged(s))
    ensures forall fd :: Registered(Unchanged(s), fd) == Registered(s, fd)
    ensures forall fd :: Registered(s, fd) ==> EntryFor(Unchanged(s), fd) == EntryFor(s, fd)
  {
  }

  /**
   The next event: the entry of its descriptor in whatever table is called if it has a handler, and nothing
   is called for a descriptor that has no entry.
   */
  lemma NextEventCalls(r: Run)
    requires Indexed(r.s) && r.phase.Dispatching? && r.phase.events != []
    ensures var fd, rest := r.phase.events[0], r.phase.events[1..];
            if Registered(r.s, fd) && EntryFor(r.s, fd).handler != NULL
            then Do(r, Next) == r.(phase := Handling(rest), calls := r.calls + [Call(fd, EntryFor(r.s, fd), r.since)])
            else Registered(r.s, fd) || Cleared(r.s) ==> Do(r, Next) == r.(phase := Dispatching(rest))
  {
    var fd := r.phase.events[0];
    if Registered(r.s, fd) {
      EntrySlot(r.s, fd);
    }
    hide Indexed, EntryFor, Registered;
  }

  /** In particular for an entry of any table. */
  lemma EntryCalled(r: Run, k: Kind, i: nat)
    requires Indexed(r.s) && r.phase.Dispatching? && r.phase.events != [] && i < |TableOf(r.s, k).socks|
    requires TableOf(r.s, k).socks[i].fd == r.phase.events[0] && TableOf(r.s, k).socks[i].handler != NULL
    ensures Do(r, Next).calls == r.calls + [Call(r.phase.events[0], TableOf(r.s, k).socks[i], r.since)]
  {
    EntryOnly(r.s, k, i);
    NextEventCalls(r);
  }

  predicate AllRegistered(s: Loop, events: seq<nat>) {
    forall i :: 0 <= i < |events| ==> Registered(s, events[i])
  }

  /** What the dispatch of a batch comes to if no handler registers or unregisters: the calls, in order. */
  function BatchCalls(s: Loop, events: seq<nat>, since: set<nat>): seq<Call>
    requires AllRegistered(s, events)
  {
    if events == [] then []
    else
      assert Registered(s, events[0]) && AllRegistered(s, events[1..]);
      var x := EntryFor(s, events[0]);
      (if x.handler == NULL then [] else [Call(events[0], x, since)]) + BatchCalls(s, events[1..], since)
  }

  function BatchSteps(s: Loop, events: seq<nat>): seq<Step>
    requires AllRegistered(s, events)
  {
    if events == [] then [Next]
    else
      assert Registered(s, events[0]) && AllRegistered(s, events[1..]);
      (if EntryFor(s, events[0]).handler == NULL then [Next] else [Next, Return]) + BatchSteps(s, events[1..])
  }

  lemma CallsOn(a: seq<Call>, x: Call, b: seq<Call>)
    ensures (a + [x]) + b == a + ([x] + b)
  {
  }

  lemma StepFirst(r: Run, step: Step, rest: seq<Step>)
    requires CanStep(r, step) && LegalRun(Do(r, step), rest)
    ensures LegalRun(r, [step] + rest) && AfterRun(r, [step] + rest) == AfterRun(Do(r, step), rest)
  {
    assert ([step] + rest)[1..] == rest;
  }

  lemma NoSteps(r: Run)
    ensures LegalRun(r, []) && AfterRun(r, []) == r
  {
  }

  lemma {:induction false} DispatchRuns(r: Run, events: seq<nat>)
    requires Indexed(r.s) && !Changed(r.s) && AllRegistered(r.s, events) && r.phase == Dispatching(events)
    ensures LegalRun(r, BatchSteps(r.s, events))
    ensures AfterRun(r, BatchSteps(r.s, events))
         == r.(phase := Elsewhere, calls := r.calls + BatchCalls(r.s, events, r.since))
    decreases |events|
  {
    hide LegalRun, AfterRun;
    if events == [] {
      var t := Do(r, Next);
      NoSteps(t);
      StepFirst(r, Next, []);
      assert [Next] + [] == [Next] && r.calls + [] == r.calls;
    } else {
      assert Registered(r.s, events[0]) && AllRegistered(r.s, events[1..]);
      NextEventCalls(r);
      hide Indexed, Registered, EntryFor;
      var x, t, rest := EntryFor(r.s, events[0]), Do(r, Next), BatchSteps(r.s, events[1..]);
      if x.handler == NULL {
        DispatchRuns(t, events[1..]);
        StepFirst(r, Next, rest);
        assert BatchCalls(r.s, events, r.since) == BatchCalls(r.s, events[1..], r.since);
      } else {
        var u := Do(t, Return);
        DispatchRuns(u, events[1..]);
        StepFirst(t, Return, rest);
        StepFirst(r, Next, [Return] + rest);
        assert [Next, Return] + rest == [Next] + ([Return] + rest);
        CallsOn(r.calls, Call(events[0], x, r.since), BatchCalls(r.s, events[1..], r.since));
      }
    }
  }

  /**
   A batch that epoll_wait reports while index and tables agree is dispatched to its end: each event's entry
   is called, in the order of the events, if no handler registers or unregisters meanwhile.
   */
  lemma BatchDispatched(r: Run, events: seq<nat>)
    requires Indexed(r.s) && r.phase.Elsewhere? && forall i :: 0 <= i < |events| ==> events[i] in r.s.watched
    ensures AllRegistered(r.s, events) && AllRegistered(Unchanged(r.s), events)
    ensures var steps := [Wait(events), Begin] + BatchSteps(Unchanged(r.s), events);
            && LegalRun(r, steps)
            && AfterRun(r, steps)
               == r.(s := Unchanged(r.s), since := r.inForce, calls := r.calls + BatchCalls(r.s, events, r.inForce))
  {
    forall i | 0 <= i < |events|
      ensures Registered(r.s, events[i])
    {
      WatchedRegistered(r.s, events[i]);
    }
    UnchangedIndexed(r.s);
    hide Indexed, Registered, EntryFor;
    var a := Do(r, Wait(events));
    var b := Do(a, Begin);
    hide LegalRun, AfterRun;
    DispatchRuns(b, events);
    SameCalls(r.s, events, r.inForce);
    var steps := BatchSteps(Unchanged(r.s), events);
    StepFirst(a, Begin, steps);
    StepFirst(r, Wait(events), [Begin] + steps);
    assert [Wait(events), Begin] + steps == [Wait(events)] + ([Begin] + steps);
  }

  lemma {:induction false} SameCalls(s: Loop, events: seq<nat>, since: set<nat>)
    requires Indexed(s) && AllRegistered(s, events) && AllRegistered(Unchanged(s), events)
    ensures BatchCalls(Unchanged(s), events, since) == BatchCalls(s, events, since)
  {
    if events != [] {
      assert Registered(s, events[0]) && AllRegistered(s, events[1..]);
      UnchangedIndexed(s);
      hide Indexed, Registered, EntryFor;
      SameCalls(s, events[1..], since);
    }
  }

  // ----- the code -----

  class SockTable {
    var table: seq<Sock>
    var changed: bool

    constructor ()
      ensures table == [] && !changed
    {
      table, changed := [], false;
    }
  }

  /** The socket part of struct eloop_data; `written` are the slots of fd_table that have ever been stored to. */
  class SocketLoop {
    var maxSock: nat
    var count: nat
    var maxFd: nat
    var fdTable: array<Sock>
    var maxEvents: nat
    const readers: SockTable
    const writers: SockTable
    const exceptions: SockTable
    var watched: set<nat>
    var regs: nat
    ghost var written: set<nat>

    ghost predicate Valid()
      reads this
    {
      && fdTable.Length == maxFd && (forall fd :: fd in written ==> fd < maxFd)
      && readers != writers && readers != exceptions && writers != exceptions
    }

    ghost function Abs(): Loop
      reads this, fdTable, readers, writers, exceptions
      requires Valid()
    {
      Loop(maxSock, count, maxFd, map fd | fd in written :: fdTable[fd], maxEvents,
           Entries(readers.table, readers.changed), Entries(writers.table, writers.changed),
           Entries(exceptions.table, exceptions.changed), watched, regs)
    }

    /** eloop_init. */
    constructor ()
      ensures Valid() && Abs() == START
      ensures fresh(fdTable) && fresh(readers) && fresh(writers) && fresh(exceptions)
    {
      readers := new SockTable();
      writers := new SockTable();
      exceptions := new SockTable();
      fdTable := new Sock[0];
      maxSock, count, maxFd, maxEvents, watched, regs, written := 0, 0, 0, 0, {}, 0, {};
    }

    /** eloop_get_sock_table. */
    function TableFor(k: Kind): SockTable
    {
      match k case Read => readers case Write => writers case Exception => exceptions
    }

    /** The growth of fd_table: realloc keeps the old slots and leaves the new ones as they are. */
    method GrowFdTable(next: nat)
      requires Valid() && maxFd <= next
      modifies this`fdTable, this`maxFd
      ensures Valid() && maxFd == next && fresh(fdTable)
      ensures forall fd :: fd in written ==> fdTable[fd] == old(fdTable[fd])
    {
      var grown := new Sock[next];
      forall i | 0 <= i < maxFd {
        grown[i] := fdTable[i];
      }
      fdTable, maxFd := grown, next;
    }

    /** The two reallocations that begin a registration. */
    method Grow(sock: nat, newMaxSock: nat)
      requires Valid() && newMaxSock == Max(sock, maxSock)
      modifies this`fdTable, this`maxFd, this`maxEvents
      ensures Valid() && (fdTable == old(fdTable) || fresh(fdTable))
      ensures Abs() == old(Abs()).(maxFd := GrownFd(old(Abs()), sock), maxEvents := GrownEvents(old(Abs())))
    {
      if newMaxSock >= maxFd {
        GrowFdTable(if maxFd == 0 then 16 else maxFd * 2);
      }
      if count + 1 > maxEvents {
        maxEvents := if maxEvents == 0 then 8 else maxEvents * 2;
      }
    }

    /** Storing a table of the given kind back, with its flag raised. */
    method Store(k: Kind, socks: seq<Sock>)
      requires Valid()
      modifies readers, writers, exceptions
      ensures Abs() == WithTable(old(Abs()), k, Entries(socks, true))
    {
      var table := TableFor(k);
      table.table := socks;
      table.changed := true;
    }

    /** Starting or ending to watch a descriptor, and the copy or the memset of its slot. */
    method SetSlot(sock: nat, entry: Sock, watch: bool)
      requires Valid() && sock < maxFd && (!watch ==> sock in written)
      modifies this`watched, this`written, fdTable
      ensures Valid() && written >= old(written) && (!watch ==> written == old(written))
      ensures Abs() == old(Abs()).(watched := if watch then old(watched) + {sock} else old(watched) - {sock},
                                   fdTable := old(Abs()).fdTable[sock := entry])
    {
      watched := if watch then watched + {sock} else watched - {sock};
      written := written + {sock};
      fdTable[sock] := entry;
      assert Abs().fdTable == old(Abs()).fdTable[sock := entry];
    }

    /** The first half of a registration: the arrays grow, and the entry joins its table. */
    method Enter(k: Kind, entry: Sock)
      requires Valid() && entry.reg == regs + 1
      modifies this, readers, writers, exceptions
      ensures Valid() && (fdTable == old(fdTable) || fresh(fdTable)) && written == old(written)
      ensures Abs() == Entered(old(Abs()), k, entry)
    {
      hide GrownFd, GrownEvents;
      var newMaxSock := if entry.fd > maxSock then entry.fd else maxSock;
      Grow(entry.fd, newMaxSock);
      Store(k, TableFor(k).table + [entry]);
      assert (map fd | fd in written :: fdTable[fd]) == old(Abs()).fdTable;
      regs := regs + 1;
      maxSock := newMaxSock;
      count := count + 1;
    }

    /** eloop_sock_table_add_sock, with `refused` telling whether epoll_ctl fails for a reason of its own. */
    method RegisterSock(sock: nat, k: Kind, handler: Ptr, eloopData: Ptr, userData: Ptr, refused: bool) returns (r: int)
      requires Valid() && InReach(Abs(), sock)
      modifies this, fdTable, readers, writers, exceptions
      ensures Valid() && (fdTable == old(fdTable) || fresh(fdTable))
      ensures Abs() == Add(old(Abs()), k, sock, handler, eloopData, userData, refused)
      ensures r == AddResult(old(Abs()), sock, refused) && written >= old(written)
    {
      hide GrownFd, GrownEvents, WithTable;
      var entry := Sock(regs + 1, sock, handler, eloopData, userData);
      Enter(k, entry);
      assert Abs().maxFd == GrownFd(old(Abs()), sock) && Abs().watched == old(watched);
      assert Abs().fdTable == old(Abs()).fdTable;
      if refused || sock in watched {
        return -1;
      }
      SetSlot(sock, entry, true);
      r := 0;
    }

    /** The search of a table. */
    method FindSock(k: Kind, sock: nat) returns (i: nat)
      ensures i == Position(TableFor(k).table, sock)
    {
      var table := TableFor(k);
      i := 0;
      while i < |table.table| && table.table[i].fd != sock
        invariant i <= |table.table| && forall j :: 0 <= j < i ==> table.table[j].fd != sock
      {
        i := i + 1;
      }
      PositionIs(table.table, sock, i);
    }

    /** The first half of an unregistration: the entries after it move down. */
    method Leave(k: Kind, i: nat)
      requires Valid() && i < |TableFor(k).table|
      modifies this`count, readers, writers, exceptions
      ensures Valid() && Abs() == Left(old(Abs()), k, i)
    {
      Store(k, TableFor(k).table[..i] + TableFor(k).table[i + 1..]);
      assert (map fd | fd in written :: fdTable[fd]) == old(Abs()).fdTable;
      count := if count > 0 then count - 1 else 0;
    }

    /** eloop_sock_table_remove_sock. */
    method UnregisterSock(sock: nat, k: Kind)
      requires Valid() && (sock in watched ==> sock in written)
      modifies this, fdTable, readers, writers, exceptions
      ensures Valid() && fdTable == old(fdTable) && written == old(written)
      ensures Abs() == Remove(old(Abs()), k, sock)
    {
      hide Position, Left;
      var i := FindSock(k, sock);
      assert TableFor(k).table == TableOf(Abs(), k).socks;
      if i == |TableFor(k).table| {
        return;
      }
      Leave(k, i);
      if sock !in watched {
        return;
      }
      SetSlot(sock, ZERO, false);
    }
  }

  lemma {:induction false} PositionIs(socks: seq<Sock>, fd: nat, i: nat)
    requires i <= |socks| && (i < |socks| ==> socks[i].fd == fd)
    requires forall j :: 0 <= j < i ==> socks[j].fd != fd
    ensures Position(socks, fd) == i
  {
    if i > 0 {
      PositionIs(socks[1..], fd, i - 1);
    }
  }
}
