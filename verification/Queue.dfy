/**
 xqueue.c as a protocol: any number of threads inside xqueue_enqueue and any number
 inside xqueue_handle, interleaved at every access to the shared queue. The capacity
 test reads the counter without the lock; everything else happens as the code does it,
 one shared access a step.
 */
module Queue {

  /** An allocated xqnode_t. */
  type Node = nat

  /** Where a thread is inside xqueue_enqueue. */
  datatype Producer =
    | Idle
    | Checked(node: Node)      // past the capacity test, node allocated
    | Locked(node: Node)       // holds the lock
    | Linked(node: Node)       // xlist_add_tail done
    | Counted(node: Node)      // qnode_num incremented
    | Posting(node: Node)      // lock released, sem_post outstanding

  /** Where a thread is inside xqueue_handle. */
  datatype Consumer =
    | Waiting                  // at sem_wait
    | Wanting                  // about to call xqueue_dequeue
    | Looking                  // holds the lock, about to test qnode_num
    | Taking                   // holds the lock, qnode_num was not zero
    | Taken(node: Node)        // xlist_get done, counter not yet decremented
    | Holding(node: Node)      // counter decremented, lock still held
    | Handling(node: Node)     // lock released, handler outstanding
    | Empty                    // holds the lock, nothing to take
    | Leaving                  // xqueue_dequeue returned NULL

  datatype Holder = Nobody | ByProducer(p: nat) | ByConsumer(c: nat)

  /** The shared queue, the threads, and the histories of what was linked, taken and handled. */
  datatype State = State(
    max: nat, list: seq<Node>, num: nat, lock: Holder, sem: nat,
    producers: seq<Producer>, consumers: seq<Consumer>,
    next: Node, linked: seq<Node>, taken: seq<Node>, handled: seq<Node>)

  /** xqueue_init, before any thread has started. */
  function Init(max: nat, p: nat, c: nat): State {
    State(max, [], 0, Nobody, 0, seq(p, _ => Idle), seq(c, _ => Waiting), 0, [], [], [])
  }

  /** One step of one thread. */
  datatype Event = Produce(p: nat) | Consume(c: nat)

  predicate Enabled(s: State, e: Event) {
    match e
    case Produce(p) => p < |s.producers| && (s.producers[p].Checked? ==> s.lock == Nobody)
    case Consume(c) =>
      && c < |s.consumers|
      && (s.consumers[c].Waiting? ==> s.sem > 0)
      && (s.consumers[c].Wanting? ==> s.lock == Nobody)
  }

  function Do(s: State, e: Event): State
    requires Enabled(s, e)
  {
    match e
    case Produce(p) => DoProduce(s, p)
    case Consume(c) => DoConsume(s, c)
  }

  function DoProduce(s: State, p: nat): State
    requires Enabled(s, Produce(p))
  {
    match s.producers[p]
    case Idle =>
      if s.max != 0 && s.num >= s.max then s
      else s.(producers := s.producers[p := Checked(s.next)], next := s.next + 1)
    case Checked(n) => s.(producers := s.producers[p := Locked(n)], lock := ByProducer(p))
    case Locked(n) => s.(producers := s.producers[p := Linked(n)], list := s.list + [n], linked := s.linked + [n])
    case Linked(n) => s.(producers := s.producers[p := Counted(n)], num := s.num + 1)
    case Counted(n) => s.(producers := s.producers[p := Posting(n)], lock := Nobody)
    case Posting(n) => s.(producers := s.producers[p := Idle], sem := s.sem + 1)
  }

  function DoConsume(s: State, c: nat): State
    requires Enabled(s, Consume(c))
  {
    match s.consumers[c]
    case Waiting => s.(consumers := s.consumers[c := Wanting], sem := s.sem - 1)
    case Wanting => s.(consumers := s.consumers[c := Looking], lock := ByConsumer(c))
    case Looking => s.(consumers := s.consumers[c := if s.num == 0 then Empty else Taking])
    case Taking =>
      if s.list == [] then s.(consumers := s.consumers[c := Empty])
      else s.(consumers := s.consumers[c := Taken(s.list[0])], list := s.list[1..], taken := s.taken + [s.list[0]])
    case Taken(n) => s.(consumers := s.consumers[c := Holding(n)], num := if s.num > 0 then s.num - 1 else 0xFFFF_FFFF)
    case Holding(n) => s.(consumers := s.consumers[c := Handling(n)], lock := Nobody)
    case Handling(n) => s.(consumers := s.consumers[c := Wanting], handled := s.handled + [n])
    case Empty => s.(consumers := s.consumers[c := Leaving], lock := Nobody)
    case Leaving => s.(consumers := s.consumers[c := Waiting])
  }

  /** The runs: any sequence of enabled steps. */
  predicate Legal(s: State, run: seq<Event>)
    decreases |run|
  {
    run == [] || (Enabled(s, run[0]) && Legal(Do(s, run[0]), run[1..]))
  }

  function After(s: State, run: seq<Event>): State
    requires Legal(s, run)
    decreases |run|
  {
    if run == [] then s else After(Do(s, run[0]), run[1..])
  }

  // ----- what every step keeps -----

  predicate HasLock(p: Producer) {
    p.Locked? || p.Linked? || p.Counted?
  }

  predicate HasLockC(c: Consumer) {
    c.Looking? || c.Taking? || c.Taken? || c.Holding? || c.Empty?
  }

  /** The lock is held by exactly the thread whose place in the code says so. */
  ghost predicate LockInv(s: State) {
    && (s.lock.ByProducer? ==> s.lock.p < |s.producers|) && (s.lock.ByConsumer? ==> s.lock.c < |s.consumers|)
    && (forall p :: 0 <= p < |s.producers| ==> (HasLock(s.producers[p]) <==> s.lock == ByProducer(p)))
    && (forall c :: 0 <= c < |s.consumers| ==> (HasLockC(s.consumers[c]) <==> s.lock == ByConsumer(c)))
  }

  /** The counter is the length of the list, except while the lock holder has updated only one of them. */
  ghost predicate CountInv(s: State)
  {
    if s.lock.ByProducer? && s.lock.p < |s.producers| && s.producers[s.lock.p].Linked? then s.num + 1 == |s.list|
    else if s.lock.ByConsumer? && s.lock.c < |s.consumers| && s.consumers[s.lock.c].Taken? then s.num == |s.list| + 1
    else s.num == |s.list|
  }

  /** A consumer that found the counter nonzero finds a node; one that found it zero leaves an empty list. */
  ghost predicate SeenInv(s: State) {
    && (forall c :: 0 <= c < |s.consumers| && s.consumers[c].Taking? ==> s.list != [])
    && (forall c :: 0 <= c < |s.consumers| && s.consumers[c].Empty? ==> s.list == [])
  }

  /** First in, first out. */
  ghost predicate FifoInv(s: State) {
    s.linked == s.taken + s.list
  }

  predicate Owns(p: Producer) {
    p.Checked? || p.Locked?
  }

  /** Nodes are fresh: no node is linked twice, and a node not linked yet belongs to one producer. */
  ghost predicate FreshInv(s: State) {
    && (forall i :: 0 <= i < |s.linked| ==> s.linked[i] < s.next)
    && (forall i, j :: 0 <= i < j < |s.linked| ==> s.linked[i] != s.linked[j])
    && (forall p :: 0 <= p < |s.producers| && Owns(s.producers[p])
          ==> s.producers[p].node < s.next && s.producers[p].node !in s.linked)
    && (forall p, q :: 0 <= p < q < |s.producers| && Owns(s.producers[p]) && Owns(s.producers[q])
          ==> s.producers[p].node != s.producers[q].node)
  }

  predicate InHand(c: Consumer) {
    c.Taken? || c.Holding? || c.Handling?
  }

  /** A taken node is handled at most once, and is in the hands of at most one consumer, who has not handled it. */
  ghost predicate HandInv(s: State) {
    && (forall i, j :: 0 <= i < j < |s.handled| ==> s.handled[i] != s.handled[j])
    && (forall i :: 0 <= i < |s.handled| ==> s.handled[i] in s.taken)
    && (forall c :: 0 <= c < |s.consumers| && InHand(s.consumers[c])
          ==> s.consumers[c].node in s.taken && s.consumers[c].node !in s.handled)
    && (forall c, d :: 0 <= c < d < |s.consumers| && InHand(s.consumers[c]) && InHand(s.consumers[d])
          ==> s.consumers[c].node != s.consumers[d].node)
  }

  ghost predicate Held(consumers: seq<Consumer>, n: Node) {
    exists c :: 0 <= c < |consumers| && InHand(consumers[c]) && consumers[c].node == n
  }

  /** No taken node is lost: it is handled or in some consumer's hands. */
  ghost predicate KeptInv(s: State) {
    forall i :: 0 <= i < |s.taken| ==> s.taken[i] in s.handled || Held(s.consumers, s.taken[i])
  }

  /** How many producers are past the capacity test and have not counted their node yet. */
  function Committed(ps: seq<Producer>): (n: nat)
    ensures n <= |ps|
  {
    if ps == [] then 0
    else Committed(ps[1..]) + if Owns(ps[0]) || ps[0].Linked? then 1 else 0
  }

  ghost predicate BoundInv(s: State) {
    s.max > 0 ==> s.num + Committed(s.producers) <= s.max + |s.producers| - 1 || |s.producers| == 0
  }

  predicate BeforePost(p: Producer) {
    p.Linked? || p.Counted? || p.Posting?
  }

  predicate Draining(c: Consumer) {
    !c.Waiting? && !c.Empty? && !c.Leaving?
  }

  ghost predicate SomeBeforePost(s: State) {
    exists p :: 0 <= p < |s.producers| && BeforePost(s.producers[p])
  }

  ghost predicate SomeDraining(s: State) {
    exists c :: 0 <= c < |s.consumers| && Draining(s.consumers[c])
  }

  /** No lost wakeup: nodes in the list always have a post, a producer about to post, or a draining consumer. */
  ghost predicate WakeInv(s: State) {
    s.list != [] ==> s.sem > 0 || SomeBeforePost(s) || SomeDraining(s)
  }

  /** With a single handler thread the handling order is the taking order. */
  ghost predicate OneHandInv(s: State) {
    |s.consumers| == 1 ==> s.taken == s.handled + (if InHand(s.consumers[0]) then [s.consumers[0].node] else [])
  }

  ghost predicate Inv(s: State) {
    && LockInv(s) && CountInv(s) && SeenInv(s) && FifoInv(s) && FreshInv(s)
    && HandInv(s) && KeptInv(s) && BoundInv(s) && WakeInv(s) && OneHandInv(s)
  }

  lemma LockStepProduce(s: State, p: nat)
    requires Enabled(s, Produce(p)) && LockInv(s)
    ensures LockInv(Do(s, Produce(p)))
  {
  }

  lemma LockStepConsume(s: State, c: nat)
    requires Enabled(s, Consume(c)) && LockInv(s)
    ensures LockInv(Do(s, Consume(c)))
  {
  }

  lemma LockStep(s: State, e: Event)
    requires Enabled(s, e) && LockInv(s)
    ensures LockInv(Do(s, e))
  {
    hide LockInv;
    match e
    case Produce(p) => LockStepProduce(s, p);
    case Consume(c) => LockStepConsume(s, c);
  }

  lemma CountStep(s: State, e: Event)
    requires Enabled(s, e) && LockInv(s) && CountInv(s)
    ensures CountInv(Do(s, e))
  {
  }

  lemma SeenStep(s: State, e: Event)
    requires Enabled(s, e) && LockInv(s) && CountInv(s) && SeenInv(s)
    ensures SeenInv(Do(s, e))
  {
  }

  lemma FifoStep(s: State, e: Event)
    requires Enabled(s, e) && FifoInv(s)
    ensures FifoInv(Do(s, e))
  {
  }

  lemma FreshStepProduce(s: State, p: nat)
    requires Enabled(s, Produce(p)) && FreshInv(s)
    ensures FreshInv(Do(s, Produce(p)))
  {
  }

  lemma FreshStepConsume(s: State, c: nat)
    requires Enabled(s, Consume(c)) && FreshInv(s)
    ensures FreshInv(Do(s, Consume(c)))
  {
  }

  lemma FreshStep(s: State, e: Event)
    requires Enabled(s, e) && FreshInv(s)
    ensures FreshInv(Do(s, e))
  {
    hide FreshInv;
    match e
    case Produce(p) => FreshStepProduce(s, p);
    case Consume(c) => FreshStepConsume(s, c);
  }

  /** The first node of the list has not been taken before. */
  lemma FirstIsNew(s: State)
    requires FifoInv(s) && FreshInv(s) && s.list != []
    ensures s.list[0] !in s.taken
  {
    var k := |s.taken|;
    assert s.linked[k] == s.list[0];
    forall i | 0 <= i < k
      ensures s.taken[i] != s.list[0]
    {
      assert s.linked[i] == s.taken[i];
    }
  }

  lemma HandStep(s: State, e: Event)
    requires Enabled(s, e) && FifoInv(s) && FreshInv(s) && HandInv(s)
    ensures HandInv(Do(s, e))
  {
    hide FifoInv, FreshInv;
    if e.Consume? {
      HandStepConsume(s, e.c);
    }
  }

  lemma HandStepConsume(s: State, c: nat)
    requires Enabled(s, Consume(c)) && FifoInv(s) && FreshInv(s) && HandInv(s)
    ensures HandInv(Do(s, Consume(c)))
  {
    if s.list != [] {
      FirstIsNew(s);
    }
    hide FifoInv, FreshInv;
    var t := Do(s, Consume(c));
    forall d | 0 <= d < |t.consumers| && InHand(t.consumers[d])
      ensures t.consumers[d].node in t.taken && t.consumers[d].node !in t.handled
    {
      if s.consumers[c].Handling? && d != c {
        assert s.consumers[d].node != s.consumers[c].node;
      }
    }
  }

  lemma KeptStep(s: State, e: Event)
    requires Enabled(s, e) && KeptInv(s)
    ensures KeptInv(Do(s, e))
  {
    var t := Do(s, e);
    forall i | 0 <= i < |t.taken|
      ensures t.taken[i] in t.handled || Held(t.consumers, t.taken[i])
    {
      var n := t.taken[i];
      if i == |s.taken| {
        assert e.Consume? && InHand(t.consumers[e.c]) && t.consumers[e.c].node == n;
      } else if n !in s.handled {
        var c :| 0 <= c < |s.consumers| && InHand(s.consumers[c]) && s.consumers[c].node == n;
        if n !in t.handled {
          assert InHand(t.consumers[c]) && t.consumers[c].node == n;
        }
      }
    }
  }

  function Weight(p: Producer): nat {
    if Owns(p) || p.Linked? then 1 else 0
  }

  lemma {:induction false} CommittedUpdate(ps: seq<Producer>, p: nat, x: Producer)
    requires p < |ps|
    ensures Committed(ps[p := x]) == Committed(ps) - Weight(ps[p]) + Weight(x)
  {
    if p > 0 {
      assert ps[p := x][1..] == ps[1..][p - 1 := x];
      CommittedUpdate(ps[1..], p - 1, x);
    }
  }

  lemma BoundStep(s: State, e: Event)
    requires Enabled(s, e) && LockInv(s) && CountInv(s) && BoundInv(s)
    ensures BoundInv(Do(s, e))
  {
    match e
    case Produce(p) => CommittedUpdate(s.producers, p, Do(s, e).producers[p]);
    case Consume(c) => assert LockInv(s);
  }

  lemma WakeStepProduce(s: State, p: nat)
    requires Enabled(s, Produce(p)) && WakeInv(s)
    ensures WakeInv(Do(s, Produce(p)))
  {
    var t := Do(s, Produce(p));
    if t.list != [] && t.sem == 0 {
      if BeforePost(t.producers[p]) {
      } else if SomeBeforePost(s) {
        var q :| 0 <= q < |s.producers| && BeforePost(s.producers[q]);
        assert BeforePost(t.producers[q]);
      }
    }
  }

  lemma WakeStepConsume(s: State, c: nat)
    requires Enabled(s, Consume(c)) && LockInv(s) && CountInv(s) && SeenInv(s) && WakeInv(s)
    ensures WakeInv(Do(s, Consume(c)))
  {
    var t := Do(s, Consume(c));
    if t.list != [] && t.sem == 0 {
      if Draining(t.consumers[c]) {
      } else if SomeBeforePost(s) {
        var q :| 0 <= q < |s.producers| && BeforePost(s.producers[q]);
        assert BeforePost(t.producers[q]);
      } else if SomeDraining(s) {
        var d :| 0 <= d < |s.consumers| && Draining(s.consumers[d]);
        assert Draining(t.consumers[d]);
      }
    }
  }

  lemma WakeStep(s: State, e: Event)
    requires Enabled(s, e) && LockInv(s) && CountInv(s) && SeenInv(s) && WakeInv(s)
    ensures WakeInv(Do(s, e))
  {
    match e
    case Produce(p) => WakeStepProduce(s, p);
    case Consume(c) => WakeStepConsume(s, c);
  }

  lemma OneHandStep(s: State, e: Event)
    requires Enabled(s, e) && LockInv(s) && OneHandInv(s)
    ensures OneHandInv(Do(s, e))
  {
  }

  lemma InvStep(s: State, e: Event)
    requires Enabled(s, e) && Inv(s)
    ensures Inv(Do(s, e))
    ensures Do(s, e).max == s.max && |Do(s, e).producers| == |s.producers| && |Do(s, e).consumers| == |s.consumers|
  {
    hide LockInv, CountInv, SeenInv, FifoInv, FreshInv, HandInv, KeptInv, BoundInv, WakeInv, OneHandInv;
    LockStep(s, e);
    CountStep(s, e);
    SeenStep(s, e);
    FifoStep(s, e);
    FreshStep(s, e);
    HandStep(s, e);
    KeptStep(s, e);
    BoundStep(s, e);
    WakeStep(s, e);
    OneHandStep(s, e);
  }

  lemma {:induction false} IdleCommits(p: nat)
    ensures Committed(seq(p, _ => Idle)) == 0
  {
    if p > 0 {
      assert seq(p, _ => Idle)[1..] == seq(p - 1, _ => Idle);
      IdleCommits(p - 1);
    }
  }

  lemma {:induction false} InvRun(s: State, run: seq<Event>)
    requires Inv(s) && Legal(s, run)
    ensures Inv(After(s, run))
    ensures var t := After(s, run); t.max == s.max && |t.producers| == |s.producers| && |t.consumers| == |s.consumers|
    decreases |run|
  {
    if run != [] {
      InvStep(s, run[0]);
      InvRun(Do(s, run[0]), run[1..]);
    }
  }

  /** Every state that any interleaving of `p` producers and `c` consumers reaches. */
  ghost predicate Reachable(s: State, max: nat, p: nat, c: nat) {
    exists run :: Legal(Init(max, p, c), run) && After(Init(max, p, c), run) == s
  }

  lemma ReachableInv(s: State, max: nat, p: nat, c: nat)
    requires Reachable(s, max, p, c)
    ensures Inv(s) && s.max == max && |s.producers| == p && |s.consumers| == c
  {
    var run :| Legal(Init(max, p, c), run) && After(Init(max, p, c), run) == s;
    InitInv(max, p, c);
    hide Inv;
    InvRun(Init(max, p, c), run);
  }

  lemma InitInv(max: nat, p: nat, c: nat)
    ensures Inv(Init(max, p, c))
  {
    IdleCommits(p);
  }

  // ----- what holds in every interleaving -----

  /**
   Nodes leave the queue in the order in which they entered it; with one handler thread they are handled in
   that order.
   */
  lemma FirstInFirstOut(s: State, max: nat, p: nat, c: nat)
    requires Reachable(s, max, p, c)
    ensures s.linked == s.taken + s.list
    ensures c == 1 ==> s.handled <= s.linked
  {
    ReachableInv(s, max, p, c);
  }

  /** No node is handled twice, and what was taken and not handled is in some consumer's hands. */
  lemma HandledAtMostOnce(s: State, max: nat, p: nat, c: nat, n: Node)
    requires Reachable(s, max, p, c)
    ensures multiset(s.handled)[n] <= 1
    ensures n in s.linked <==> n in s.list || n in s.handled || Held(s.consumers, n)
    ensures !(n in s.list && n in s.handled) && !(n in s.handled && Held(s.consumers, n))
    ensures !(n in s.list && Held(s.consumers, n))
  {
    ReachableInv(s, max, p, c);
    DistinctOnce(s.handled, n);
    DistinctSplit(s.taken, s.list, n);
  }

  lemma {:induction false} DistinctOnce(h: seq<Node>, n: Node)
    requires forall i, j :: 0 <= i < j < |h| ==> h[i] != h[j]
    ensures multiset(h)[n] <= 1
  {
    if h != [] {
      DistinctOnce(h[1..], n);
      assert h == [h[0]] + h[1..];
      assert h[0] !in h[1..];
    }
  }

  lemma DistinctSplit(a: seq<Node>, b: seq<Node>, n: Node)
    requires forall i, j :: 0 <= i < j < |a + b| ==> (a + b)[i] != (a + b)[j]
    ensures !(n in a && n in b)
  {
    assert forall i :: 0 <= i < |a| ==> (a + b)[i] == a[i];
    assert forall j :: 0 <= j < |b| ==> (a + b)[|a| + j] == b[j];
  }

  /**
   A node in the list is always announced by the semaphore, by a producer about to post, or by a draining
   consumer.
   */
  lemma NoLostWakeup(s: State, max: nat, p: nat, c: nat)
    requires Reachable(s, max, p, c) && s.list != []
    ensures s.sem > 0 || SomeBeforePost(s) || SomeDraining(s)
  {
    ReachableInv(s, max, p, c);
  }

  // ----- no wake-up without a node -----

  /** How many producers have linked their node and not posted yet. */
  function Posters(ps: seq<Producer>): nat {
    if ps == [] then 0 else (if BeforePost(ps[0]) then 1 else 0) + Posters(ps[1..])
  }

  lemma {:induction false} PostersUpdate(ps: seq<Producer>, p: nat, x: Producer)
    requires p < |ps|
    ensures Posters(ps[p := x]) + (if BeforePost(ps[p]) then 1 else 0) == Posters(ps) + if BeforePost(x) then 1 else 0
  {
    if p > 0 {
      assert ps[p := x][1..] == ps[1..][p - 1 := x];
      PostersUpdate(ps[1..], p - 1, x);
    }
  }

  lemma {:induction false} IdlePosts(p: nat)
    ensures Posters(seq(p, _ => Idle)) == 0
  {
    if p > 0 {
      IdlePosts(p - 1);
      assert seq(p, _ => Idle)[1..] == seq(p - 1, _ => Idle);
    }
  }

  lemma {:induction false} PostsRun(s: State, run: seq<Event>)
    requires Legal(s, run) && s.sem + Posters(s.producers) <= |s.linked|
    ensures var t := After(s, run); t.sem + Posters(t.producers) <= |t.linked|
    decreases |run|
  {
    if run != [] {
      if run[0].Produce? {
        PostersUpdate(s.producers, run[0].p, Do(s, run[0]).producers[run[0].p]);
      }
      PostsRun(Do(s, run[0]), run[1..]);
    }
  }

  /** There are never more wake-ups, posted or about to be, than nodes have been linked. */
  lemma WakeupsCounted(s: State, max: nat, p: nat, c: nat)
    requires Reachable(s, max, p, c)
    ensures s.sem + Posters(s.producers) <= |s.linked|
  {
    var run :| Legal(Init(max, p, c), run) && After(Init(max, p, c), run) == s;
    IdlePosts(p);
    PostsRun(Init(max, p, c), run);
  }

  /** The unlocked test lets the queue grow past its limit by at most one node for every other producer. */
  lemma CapacityBound(s: State, max: nat, p: nat, c: nat)
    requires Reachable(s, max, p, c) && max > 0 && p > 0
    ensures s.num <= max + p - 1 && |s.list| <= max + p - 1
  {
    ReachableInv(s, max, p, c);
    if s.num + 1 == |s.list| {
      CommittedPositive(s.producers, s.lock.p);
    }
  }

  lemma {:induction false} CommittedPositive(ps: seq<Producer>, p: nat)
    requires p < |ps| && ps[p].Linked?
    ensures Committed(ps) >= 1
  {
    if p > 0 {
      CommittedPositive(ps[1..], p - 1);
    }
  }

  /** When no thread can move any more except into a new enqueue, every node ever linked has been handled. */
  lemma NothingLeftBehind(s: State, max: nat, p: nat, c: nat)
    requires Reachable(s, max, p, c) && c > 0
    requires forall q :: 0 <= q < p ==> q < |s.producers| && s.producers[q].Idle?
    requires forall d: nat :: !Enabled(s, Consume(d))
    ensures s.list == [] && multiset(s.handled) == multiset(s.linked)
  {
    ReachableInv(s, max, p, c);
    assert s.lock.ByConsumer? ==> HasLockC(s.consumers[s.lock.c]) && Enabled(s, Consume(s.lock.c));
    assert s.lock.ByProducer? ==> HasLock(s.producers[s.lock.p]);
    assert s.lock == Nobody;
    assert forall d :: 0 <= d < c ==> !Enabled(s, Consume(d)) && s.consumers[d].Waiting?;
    assert !Enabled(s, Consume(0)) && s.sem == 0;
    assert s.list == [];
    forall n
      ensures multiset(s.handled)[n] == multiset(s.linked)[n]
    {
      DistinctOnce(s.handled, n);
      DistinctOnce(s.linked, n);
      HandledAtMostOnce(s, max, p, c, n);
    }
  }

  // ----- the capacity bound is attained -----

  lemma {:induction false} OneMore(s: State, run: seq<Event>, e: Event)
    requires Legal(s, run) && Enabled(After(s, run), e)
    ensures Legal(s, run + [e]) && After(s, run + [e]) == Do(After(s, run), e)
    decreases |run|
  {
    if run == [] {
      assert run + [e] == [e] && [e][1..] == [];
      assert Legal(Do(s, e), []) && After(Do(s, e), []) == Do(s, e);
    } else {
      OneMore(Do(s, run[0]), run[1..], e);
      assert (run + [e])[1..] == run[1..] + [e];
    }
  }

  lemma ReachNext(s: State, max: nat, p: nat, c: nat, e: Event)
    requires Reachable(s, max, p, c) && Enabled(s, e)
    ensures Reachable(Do(s, e), max, p, c)
  {
    var run :| Legal(Init(max, p, c), run) && After(Init(max, p, c), run) == s;
    OneMore(Init(max, p, c), run, e);
  }

  /**
   `k` counted nodes; producers below `i` are done with a further enqueue, those from `i` below `j` are
   past the test.
   */
  ghost predicate Stage(s: State, max: nat, p: nat, k: nat, i: nat, j: nat) {
    && s.max == max && s.num == k && s.lock == Nobody && |s.producers| == p && i <= j <= p
    && (forall q :: 0 <= q < i ==> s.producers[q].Posting?)
    && (forall q :: i <= q < j ==> s.producers[q].Checked?)
    && (forall q :: j <= q < p ==> s.producers[q].Idle?)
  }

  /** A producer past the test runs to its sem_post. */
  lemma InsertOne(s: State, max: nat, p: nat, c: nat, k: nat, i: nat, j: nat) returns (t: State)
    requires Reachable(s, max, p, c) && Stage(s, max, p, k, i, j) && i < j
    ensures Reachable(t, max, p, c) && Stage(t, max, p, k + 1, i + 1, j)
  {
    hide Reachable;
    var e := Produce(i);
    ReachNext(s, max, p, c, e);
    var s1 := Do(s, e);
    ReachNext(s1, max, p, c, e);
    var s2 := Do(s1, e);
    ReachNext(s2, max, p, c, e);
    var s3 := Do(s2, e);
    ReachNext(s3, max, p, c, e);
    t := Do(s3, e);
  }

  /** The first producer fills the queue up to `k` nodes, any number if there is no limit. */
  lemma {:induction false} FillUp(max: nat, p: nat, c: nat, k: nat) returns (s: State)
    requires p > 0 && (max == 0 || k <= max)
    ensures Reachable(s, max, p, c) && Stage(s, max, p, k, 0, 0)
  {
    if k == 0 {
      s := Init(max, p, c);
      assert Legal(s, []) && After(s, []) == s;
    } else {
      var r := FillUp(max, p, c, k - 1);
      ReachNext(r, max, p, c, Produce(0));
      var r1 := Do(r, Produce(0));
      var r2 := InsertOne(r1, max, p, c, k - 1, 0, 1);
      ReachNext(r2, max, p, c, Produce(0));
      s := Do(r2, Produce(0));
    }
  }

  /** One node below the limit, every producer passes the test before any of them inserts. */
  lemma {:induction false} AllChecked(max: nat, p: nat, c: nat, j: nat) returns (s: State)
    requires max > 0 && j <= p && p > 0
    ensures Reachable(s, max, p, c) && Stage(s, max, p, max - 1, 0, j)
  {
    if j == 0 {
      s := FillUp(max, p, c, max - 1);
    } else {
      var r := AllChecked(max, p, c, j - 1);
      ReachNext(r, max, p, c, Produce(j - 1));
      s := Do(r, Produce(j - 1));
    }
  }

  lemma {:induction false} AllInserted(max: nat, p: nat, c: nat, i: nat) returns (s: State)
    requires max > 0 && i <= p && p > 0
    ensures Reachable(s, max, p, c) && Stage(s, max, p, max - 1 + i, i, p)
  {
    if i == 0 {
      s := AllChecked(max, p, c, p);
    } else {
      var r := AllInserted(max, p, c, i - 1);
      s := InsertOne(r, max, p, c, max - 1 + (i - 1), i - 1, p);
    }
  }

  /** For every limit and every number of producers some interleaving reaches the bound. */
  lemma CapacityAttained(max: nat, p: nat, c: nat)
    requires max > 0 && p > 0
    ensures exists s :: Reachable(s, max, p, c) && s.num == max + p - 1
  {
    var s := AllInserted(max, p, c, p);
  }

  /** Without a limit the queue grows to any number of nodes. */
  lemma Unlimited(p: nat, c: nat, n: nat)
    requires p > 0
    ensures exists s :: Reachable(s, 0, p, c) && s.num == |s.list| == n
  {
    var s := FillUp(0, p, c, n);
    ReachableInv(s, 0, p, c);
    assert s.num == |s.list|;
  }

  /**
   In every reachable state an enqueue is refused exactly when there is a limit and the counter has
   reached it; else the producer goes on with a new node.
   */
  lemma RefusedExactly(s: State, max: nat, p: nat, c: nat, q: nat)
    requires Reachable(s, max, p, c) && q < p
    ensures q < |s.producers|
    ensures s.producers[q].Idle? ==>
              && Enabled(s, Produce(q))
              && (max != 0 && s.num >= max ==> Do(s, Produce(q)) == s)
              && (max == 0 || s.num < max ==>
                    Do(s, Produce(q)) == s.(producers := s.producers[q := Checked(s.next)], next := s.next + 1))
  {
    ReachableInv(s, max, p, c);
  }

  // ----- every enqueue ends, and everything is handled -----

  /** The work before a thread in its present call, with what its steps make for the consumers. */
  function ProducerWork(p: Producer): nat {
    match p
    case Idle => 0
    case Posting(_) => 7
    case Counted(_) => 8
    case Linked(_) => 9
    case Locked(_) => 16
    case Checked(_) => 17
  }

  function ConsumerWork(c: Consumer): nat {
    match c
    case Waiting => 0
    case Leaving => 1
    case Empty => 2
    case Taking => 3
    case Looking => 4
    case Wanting => 5
    case Handling(_) => 6
    case Holding(_) => 7
    case Taken(_) => 8
  }

  function ProducersWork(ps: seq<Producer>): nat {
    if ps == [] then 0 else ProducerWork(ps[0]) + ProducersWork(ps[1..])
  }

  function ConsumersWork(cs: seq<Consumer>): nat {
    if cs == [] then 0 else ConsumerWork(cs[0]) + ConsumersWork(cs[1..])
  }

  /** Each post and each node in the list is work for a consumer. */
  function Work(s: State): nat {
    ProducersWork(s.producers) + ConsumersWork(s.consumers) + 6 * s.sem + 6 * |s.list|
  }

  lemma {:induction false} ProducersWorkUpdate(ps: seq<Producer>, p: nat, x: Producer)
    requires p < |ps|
    ensures ProducersWork(ps[p := x]) == ProducersWork(ps) - ProducerWork(ps[p]) + ProducerWork(x)
  {
    if p == 0 {
      assert ps[p := x][1..] == ps[1..];
    } else {
      assert ps[p := x][1..] == ps[1..][p - 1 := x];
      ProducersWorkUpdate(ps[1..], p - 1, x);
    }
  }

  lemma {:induction false} ConsumersWorkUpdate(cs: seq<Consumer>, c: nat, x: Consumer)
    requires c < |cs|
    ensures ConsumersWork(cs[c := x]) == ConsumersWork(cs) - ConsumerWork(cs[c]) + ConsumerWork(x)
  {
    if c == 0 {
      assert cs[c := x][1..] == cs[1..];
    } else {
      assert cs[c := x][1..] == cs[1..][c - 1 := x];
      ConsumersWorkUpdate(cs[1..], c - 1, x);
    }
  }

  /** A call of xqueue_enqueue. */
  predicate Enqueues(s: State, e: Event) {
    e.Produce? && e.p < |s.producers| && s.producers[e.p].Idle?
  }

  /** Every step but a new enqueue leaves less work. */
  lemma WorkStep(s: State, e: Event)
    requires Enabled(s, e) && !Enqueues(s, e)
    ensures Work(Do(s, e)) < Work(s)
  {
    hide ProducersWork, ConsumersWork;
    var t := Do(s, e);
    match e
    case Produce(p) => ProducersWorkUpdate(s.producers, p, t.producers[p]);
    case Consume(c) => ConsumersWorkUpdate(s.consumers, c, t.consumers[c]);
  }

  /** No step of the run is a new enqueue. */
  predicate Quiet(s: State, run: seq<Event>)
    requires Legal(s, run)
    decreases |run|
  {
    run == [] || (!Enqueues(s, run[0]) && Quiet(Do(s, run[0]), run[1..]))
  }

  /** Without new enqueues every run ends. */
  lemma {:induction false} QuietRunsEnd(s: State, run: seq<Event>)
    requires Legal(s, run) && Quiet(s, run)
    ensures |run| + Work(After(s, run)) <= Work(s)
    decreases |run|
  {
    if run != [] {
      WorkStep(s, run[0]);
      hide Work;
      QuietRunsEnd(Do(s, run[0]), run[1..]);
    }
  }

  /** While some call of xqueue_enqueue has not returned, some thread can go on. */
  lemma NoDeadlock(s: State, max: nat, p: nat, c: nat, q: nat) returns (e: Event)
    requires Reachable(s, max, p, c) && q < |s.producers| && !s.producers[q].Idle?
    ensures Enabled(s, e) && !Enqueues(s, e)
  {
    ReachableInv(s, max, p, c);
    e := if s.lock.ByProducer? then Produce(s.lock.p) else if s.lock.ByConsumer? then Consume(s.lock.c) else Produce(q);
    assert s.lock.ByProducer? ==> HasLock(s.producers[s.lock.p]);
    assert s.lock.ByConsumer? ==> HasLockC(s.consumers[s.lock.c]);
  }

  /**
   From every reachable state, when nothing more is enqueued, the threads come to rest, in a bounded number
   of steps, with every call returned and every node handled.
   */
  lemma {:induction false} EverythingHandled(s: State, max: nat, p: nat, c: nat) returns (run: seq<Event>)
    requires Reachable(s, max, p, c) && c > 0
    ensures Legal(s, run) && Quiet(s, run)
    ensures var t := After(s, run);
            && (forall q :: 0 <= q < |t.producers| ==> t.producers[q].Idle?)
            && t.list == [] && multiset(t.handled) == multiset(t.linked)
    decreases Work(s)
  {
    ReachableInv(s, max, p, c);
    if e :| Enabled(s, e) && !Enqueues(s, e) {
      WorkStep(s, e);
      ReachNext(s, max, p, c, e);
      hide Reachable, Work, Inv;
      var rest := EverythingHandled(Do(s, e), max, p, c);
      run := [e] + rest;
      assert run[1..] == rest;
    } else {
      run := [];
      forall q | 0 <= q < |s.producers|
        ensures s.producers[q].Idle?
      {
        if !s.producers[q].Idle? {
          var e := NoDeadlock(s, max, p, c, q);
        }
      }
      NothingLeftBehind(s, max, p, c);
    }
  }
}
