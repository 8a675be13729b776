/**
 The timers of src/eloop/eloop.c: a list kept in order of deadlines, in which a new timer
 goes behind those with the same deadline, and the functions that cancel, shorten or
 extend timers. The list operations on pointers are in module Ring; here the list is the
 sequence of its elements.
 */
module Timers {

  /** os_reltime of src/eloop/os.h. */
  datatype Time = Time(sec: int, usec: int)

  const MILLION: int := 1000000
  const LONG_MAX: int := 0x7FFF_FFFF_FFFF_FFFF
  const TWO_32: int := 0x1_0000_0000

  type Ptr = nat

  /** ELOOP_ALL_CTX. */
  const ALL_CTX: Ptr := 0xFFFF_FFFF_FFFF_FFFF

  /** struct eloop_timeout; `id` stands for its address and counts registrations. */
  datatype Timer = Timer(id: nat, time: Time, handler: Ptr, eloopData: Ptr, userData: Ptr)

  // ----- os_reltime arithmetic -----

  ghost predicate Normal(t: Time) {
    0 <= t.usec < MILLION
  }

  function Micros(t: Time): int {
    t.sec * MILLION + t.usec
  }

  /** os_reltime_before. */
  predicate Before(a: Time, b: Time) {
    a.sec < b.sec || (a.sec == b.sec && a.usec < b.usec)
  }

  /** os_reltime_sub. */
  function Sub(a: Time, b: Time): Time {
    var sec, usec := a.sec - b.sec, a.usec - b.usec;
    if usec < 0 then Time(sec - 1, usec + MILLION) else Time(sec, usec)
  }

  /** On normalised times the comparison is that of the microseconds ... */
  lemma BeforeIsLess(a: Time, b: Time)
    requires Normal(a) && Normal(b)
    ensures Before(a, b) <==> Micros(a) < Micros(b)
  {
  }

  /** ... and the difference, also a negative one, is normalised and exact. */
  lemma SubIsDifference(a: Time, b: Time)
    requires Normal(a) && Normal(b)
    ensures Normal(Sub(a, b)) && Micros(Sub(a, b)) == Micros(a) - Micros(b)
  {
  }

  /** The while loop of eloop_register_timeout that carries microseconds into seconds. */
  method Normalise(sec: int, usec: nat) returns (t: Time)
    ensures Normal(t) && Micros(t) == sec * MILLION + usec
  {
    t := Time(sec, usec);
    while t.usec >= MILLION
      invariant t.usec >= 0 && Micros(t) == sec * MILLION + usec
    {
      t := Time(t.sec + 1, t.usec - MILLION);
    }
  }

  function TimeOf(micros: int): (t: Time)
    ensures Normal(t) && Micros(t) == micros
  {
    Time(micros / MILLION, micros % MILLION)
  }

  lemma TimeOfMicros(t: Time)
    requires Normal(t)
    ensures TimeOf(Micros(t)) == t
  {
  }

  // ----- the list -----

  /** Before the first timer with a later deadline, that is, behind those with an equal one. */
  function Insert(l: seq<Timer>, t: Timer): (l': seq<Timer>)
    ensures |l'| == |l| + 1
  {
    if l == [] || Before(t.time, l[0].time) then [t] + l else [l[0]] + Insert(l[1..], t)
  }

  function Without(l: seq<Timer>, drop: Timer -> bool): (l': seq<Timer>)
    ensures |l'| <= |l|
  {
    if l == [] then [] else (if drop(l[0]) then [] else [l[0]]) + Without(l[1..], drop)
  }

  /** What eloop_cancel_timeout matches: ELOOP_ALL_CTX stands for any context. */
  predicate Cancels(t: Timer, handler: Ptr, eloopData: Ptr, userData: Ptr) {
    && t.handler == handler
    && (t.eloopData == eloopData || eloopData == ALL_CTX)
    && (t.userData == userData || userData == ALL_CTX)
  }

  /** What the other functions match. */
  predicate Matches(t: Timer, handler: Ptr, eloopData: Ptr, userData: Ptr) {
    t.handler == handler && t.eloopData == eloopData && t.userData == userData
  }

  /** On the fields: a wild card leaves its context out of account, and two leave the handler alone to decide. */
  lemma WildCards(x: Timer, handler: Ptr, eloopData: Ptr, userData: Ptr)
    ensures Cancels(x, handler, ALL_CTX, ALL_CTX) <==> x.handler == handler
    ensures Cancels(x, handler, eloopData, ALL_CTX)
            <==> x.handler == handler && (eloopData != ALL_CTX ==> x.eloopData == eloopData)
    ensures Cancels(x, handler, ALL_CTX, userData)
            <==> x.handler == handler && (userData != ALL_CTX ==> x.userData == userData)
    ensures eloopData != ALL_CTX && userData != ALL_CTX
            ==> (Cancels(x, handler, eloopData, userData) <==> Matches(x, handler, eloopData, userData))
    ensures Matches(x, handler, eloopData, userData)
            <==> x.handler == handler && x.eloopData == eloopData && x.userData == userData
  {
  }

  /** Earlier deadline, or the same deadline and registered earlier. */
  predicate Precedes(a: Timer, b: Timer) {
    Micros(a.time) < Micros(b.time) || (Micros(a.time) == Micros(b.time) && a.id < b.id)
  }

  ghost predicate InOrder(l: seq<Timer>) {
    && (forall i :: 0 <= i < |l| ==> Normal(l[i].time))
    && (forall i, j :: 0 <= i < j < |l| ==> Precedes(l[i], l[j]))
  }

  lemma {:induction false} InsertKeepsElements(l: seq<Timer>, t: Timer)
    ensures multiset(Insert(l, t)) == multiset(l) + multiset{t}
  {
    if l != [] && !Before(t.time, l[0].time) {
      InsertKeepsElements(l[1..], t);
      assert l == [l[0]] + l[1..];
    }
  }

  lemma InsertMembers(l: seq<Timer>, t: Timer)
    ensures forall x :: x in Insert(l, t) <==> x == t || x in l
  {
    InsertKeepsElements(l, t);
    forall x
      ensures x in Insert(l, t) <==> x == t || x in l
    {
      assert x in Insert(l, t) <==> x in multiset(Insert(l, t));
    }
  }

  lemma InOrderTail(l: seq<Timer>)
    requires l != [] && InOrder(l)
    ensures InOrder(l[1..]) && forall x :: x in l[1..] ==> Precedes(l[0], x)
  {
  }

  lemma InOrderCons(t: Timer, l: seq<Timer>)
    requires Normal(t.time) && InOrder(l) && forall x :: x in l ==> Precedes(t, x)
    ensures InOrder([t] + l)
  {
  }

  /** A newly registered timer goes to its place in the order. */
  lemma {:induction false} InsertKeepsOrder(l: seq<Timer>, t: Timer)
    requires InOrder(l) && Normal(t.time) && forall x :: x in l ==> x.id < t.id
    ensures InOrder(Insert(l, t))
  {
    if l == [] {
    } else if Before(t.time, l[0].time) {
      BeforeIsLess(t.time, l[0].time);
      InOrderTail(l);
      InOrderCons(t, l);
    } else {
      BeforeIsLess(t.time, l[0].time);
      InOrderTail(l);
      InsertKeepsOrder(l[1..], t);
      InsertMembers(l[1..], t);
      InOrderCons(l[0], Insert(l[1..], t));
    }
  }

  lemma {:induction false} WithoutMembers(l: seq<Timer>, drop: Timer -> bool)
    ensures forall x :: x in Without(l, drop) <==> x in l && !drop(x)
  {
    if l != [] {
      WithoutMembers(l[1..], drop);
      assert l == [l[0]] + l[1..];
    }
  }

  lemma OneLess(l: seq<Timer>, i: nat)
    requires InOrder(l) && i < |l|
    ensures var rest := l[..i] + l[i + 1..]; InOrder(rest) && forall x :: x in rest ==> x in l
  {
    var rest := l[..i] + l[i + 1..];
    assert forall j :: 0 <= j < |rest| ==> rest[j] == l[if j < i then j else j + 1];
  }

  lemma {:induction false} WithoutKeepsOrder(l: seq<Timer>, drop: Timer -> bool)
    requires InOrder(l)
    ensures InOrder(Without(l, drop))
  {
    if l != [] {
      InOrderTail(l);
      WithoutKeepsOrder(l[1..], drop);
      WithoutMembers(l[1..], drop);
      if !drop(l[0]) {
        InOrderCons(l[0], Without(l[1..], drop));
      }
    }
  }

  /** The deadline that a registration at `now` computes. */
  function Deadline(now: Time, secs: nat, usecs: nat): (t: Time)
    ensures Normal(t) && Micros(t) == Micros(now) + secs * MILLION + usecs
  {
    TimeOf(Micros(now) + secs * MILLION + usecs)
  }

  lemma {:induction false} InsertAt(l: seq<Timer>, t: Timer, i: nat)
    requires i <= |l| && (forall j :: 0 <= j < i ==> !Before(t.time, l[j].time))
    requires i < |l| ==> Before(t.time, l[i].time)
    ensures Insert(l, t) == l[..i] + [t] + l[i..]
  {
    if i > 0 {
      hide Before;
      InsertAt(l[1..], t, i - 1);
      TakenOn(l, t, i);
    }
  }

  lemma TakenOn(l: seq<Timer>, t: Timer, i: nat)
    requires 0 < i <= |l|
    ensures [l[0]] + (l[1..][..i - 1] + [t] + l[1..][i - 1..]) == l[..i] + [t] + l[i..]
  {
    assert l[1..][i - 1..] == l[i..] && [l[0]] + l[1..][..i - 1] == l[..i];
  }

  lemma {:induction false} WithoutConcat(a: seq<Timer>, b: seq<Timer>, drop: Timer -> bool)
    ensures Without(a + b, drop) == Without(a, drop) + Without(b, drop)
  {
    if a == [] {
      assert a + b == b;
    } else {
      assert (a + b)[1..] == a[1..] + b;
      WithoutConcat(a[1..], b, drop);
    }
  }

  lemma WithoutNext(l: seq<Timer>, k: nat, drop: Timer -> bool)
    requires k < |l|
    ensures Without(l[..k + 1], drop) == Without(l[..k], drop) + (if drop(l[k]) then [] else [l[k]])
  {
    assert l[..k + 1] == l[..k] + [l[k]];
    WithoutConcat(l[..k], [l[k]], drop);
    assert [l[k]][1..] == [];
  }

  /** The list of a loop that has kept some of the first `k` timers. */
  lemma StepOver(kept: seq<Timer>, l: seq<Timer>, k: nat)
    requires k < |l|
    ensures var now := kept + l[k..];
            && now[|kept|] == l[k] && now[..|kept|] + now[|kept| + 1..] == kept + l[k + 1..]
            && now == (kept + [l[k]]) + l[k + 1..]
  {
    assert l[k..] == [l[k]] + l[k + 1..];
  }

  lemma {:induction false} WithoutNone(l: seq<Timer>, drop: Timer -> bool)
    requires forall x :: x in l ==> !drop(x)
    ensures Without(l, drop) == l
  {
    if l != [] {
      WithoutNone(l[1..], drop);
    }
  }

  /** The cancelling and the matching predicate as values, so that equal arguments give equal predicates. */
  function Cancelling(handler: Ptr, eloopData: Ptr, userData: Ptr): Timer -> bool {
    t => Cancels(t, handler, eloopData, userData)
  }

  function Matching(handler: Ptr, eloopData: Ptr, userData: Ptr): Timer -> bool {
    t => Matches(t, handler, eloopData, userData)
  }

  /** What remains of the first timer that matches, or nothing. */
  function First(l: seq<Timer>, p: Timer -> bool): (i: nat)
    ensures i <= |l| && (i < |l| ==> p(l[i])) && forall j :: 0 <= j < i ==> !p(l[j])
  {
    if l == [] || p(l[0]) then 0 else 1 + First(l[1..], p)
  }

  lemma {:induction false} FirstIs(l: seq<Timer>, p: Timer -> bool, i: nat)
    requires i <= |l| && (i < |l| ==> p(l[i])) && forall j :: 0 <= j < i ==> !p(l[j])
    ensures First(l, p) == i
  {
    if l != [] && !p(l[0]) {
      FirstIs(l[1..], p, i - 1);
    }
  }

  // ----- replacing the timers of one context by a new one -----

  lemma {:induction false} WithoutInserted(l: seq<Timer>, t: Timer, drop: Timer -> bool)
    requires drop(t)
    ensures Without(Insert(l, t), drop) == Without(l, drop)
  {
    if l != [] && !Before(t.time, l[0].time) {
      WithoutInserted(l[1..], t, drop);
    } else {
      assert ([t] + l)[1..] == l;
    }
  }

  lemma {:induction false} WithoutFewer(l: seq<Timer>, p: Timer -> bool, q: Timer -> bool)
    requires forall x :: q(x) ==> p(x)
    ensures Without(Without(l, p), q) == Without(l, p)
  {
    if l != [] {
      WithoutFewer(l[1..], p, q);
      var rest := Without(l[1..], p);
      assert !p(l[0]) ==> !q(l[0]);
      assert ([l[0]] + rest)[1..] == rest && [] + rest == rest;
    }
  }

  lemma {:induction false} WithoutSame(l: seq<Timer>, p: Timer -> bool, q: Timer -> bool)
    requires forall x :: x in l ==> p(x) == q(x)
    ensures Without(l, p) == Without(l, q)
  {
    if l != [] {
      WithoutSame(l[1..], p, q);
    }
  }

  /** The list after a deplete or a replenish that took effect. */
  function Replaced(l: seq<Timer>, t: Timer): seq<Timer> {
    Insert(Without(l, Cancelling(t.handler, t.eloopData, t.userData)), t)
  }

  /** Afterwards the new timer is the only one that matches. */
  lemma OneMatch(l: seq<Timer>, t: Timer)
    ensures forall x :: x in Replaced(l, t) && Matches(x, t.handler, t.eloopData, t.userData) ==> x == t
    ensures t in Replaced(l, t)
    ensures |Without(Replaced(l, t), Matching(t.handler, t.eloopData, t.userData))| + 1 == |Replaced(l, t)|
  {
    var p, q := Cancelling(t.handler, t.eloopData, t.userData), Matching(t.handler, t.eloopData, t.userData);
    var kept := Without(l, p);
    InsertMembers(kept, t);
    WithoutMembers(l, p);
    WithoutInserted(kept, t, q);
    WithoutFewer(l, p, q);
  }

  /**
   All other timers keep their places exactly when every timer that the cancellation matches is a
   timer that the search matches: always for contexts other than ELOOP_ALL_CTX.
   */
  lemma OthersKept(l: seq<Timer>, t: Timer)
    ensures var q := Matching(t.handler, t.eloopData, t.userData);
            Without(Replaced(l, t), q) == Without(l, q)
            <==> forall x :: x in l && Cancels(x, t.handler, t.eloopData, t.userData)
                         ==> Matches(x, t.handler, t.eloopData, t.userData)
    ensures t.eloopData != ALL_CTX && t.userData != ALL_CTX
        ==> forall x :: x in l && Cancels(x, t.handler, t.eloopData, t.userData)
                    ==> Matches(x, t.handler, t.eloopData, t.userData)
  {
    var p, q := Cancelling(t.handler, t.eloopData, t.userData), Matching(t.handler, t.eloopData, t.userData);
    WithoutInserted(Without(l, p), t, q);
    WithoutFewer(l, p, q);
    assert Without(Replaced(l, t), q) == Without(l, p);
    WithoutMembers(l, p);
    WithoutMembers(l, q);
    if forall x :: x in l && p(x) ==> q(x) {
      WithoutSame(l, p, q);
    } else {
      var x :| x in l && p(x) && !q(x);
      assert x in Without(l, q) && x !in Without(l, p);
    }
  }

  /**
   The result and the new list of a deplete or replenish, given whether the earliest match is to be
   replaced, and whether the new deadline fits a long: if not, nothing takes the place of what is
   cancelled.
   */
  ghost predicate Adjusted(l: seq<Timer>, l': seq<Timer>, r: int, due: bool, fits: bool, t: Timer) {
    var i := First(l, Matching(t.handler, t.eloopData, t.userData));
    if i == |l| then r == -1 && l' == l
    else if !due then r == 0 && l' == l
    else r == 1 && l' == if fits then Replaced(l, t) else Without(l, Cancelling(t.handler, t.eloopData, t.userData))
  }

  /** The new deadline does not overflow. */
  predicate Fits(later: Time, secs: nat) {
    later.sec + secs <= LONG_MAX
  }

  predicate DepleteDue(l: seq<Timer>, secs: nat, usecs: nat, handler: Ptr, eloopData: Ptr, userData: Ptr, now: Time) {
    var i := First(l, Matching(handler, eloopData, userData));
    i < |l| && Before(Time(secs, usecs), Sub(l[i].time, now))
  }

  predicate ReplenishDue(l: seq<Timer>, secs: nat, usecs: nat, handler: Ptr, eloopData: Ptr, userData: Ptr, now: Time) {
    var i := First(l, Matching(handler, eloopData, userData));
    i < |l| && Before(Sub(l[i].time, now), Time(secs, usecs))
  }

  /** The result is -1 exactly when nothing matches, and unless it is 1 the list is as before. */
  lemma AdjustedResult(l: seq<Timer>, l': seq<Timer>, r: int, due: bool, fits: bool, t: Timer)
    requires Adjusted(l, l', r, due, fits, t)
    ensures r == -1 <==> forall x :: x in l ==> !Matches(x, t.handler, t.eloopData, t.userData)
    ensures r != 1 ==> l' == l
    ensures r == 1 ==> due
    ensures r == 1 && !fits ==> forall x :: x in l' ==> !Matches(x, t.handler, t.eloopData, t.userData)
  {
    var i := First(l, Matching(t.handler, t.eloopData, t.userData));
    WithoutMembers(l, Cancelling(t.handler, t.eloopData, t.userData));
    if i < |l| {
      assert l[i] in l;
    }
  }

  /**
   What the comparison of a request with a remaining time tells when the request's microseconds are not
   carried into its seconds.
   */
  lemma RequestCompared(left: Time, secs: nat, usecs: nat)
    requires Normal(left)
    ensures Before(left, Time(secs, usecs)) ==> Micros(left) < secs * MILLION + usecs
    ensures secs * MILLION + usecs < Micros(left) ==> Before(Time(secs, usecs), left)
    ensures usecs <= MILLION ==> (Before(left, Time(secs, usecs)) <==> Micros(left) < secs * MILLION + usecs)
  {
  }

  /**
   After a replenish no matching timer, not even one that was overdue, has less than the request
   remaining, for a request of at most a million microseconds; `now` is when the function looked.
   */
  lemma ReplenishedEnough(l: seq<Timer>, l': seq<Timer>, r: int, secs: nat, usecs: nat, t: Timer,
                          now: Time, later: Time)
    requires InOrder(l) && usecs <= MILLION && Normal(now) && Normal(later) && Micros(now) <= Micros(later)
    requires t.time == Deadline(later, secs, usecs)
    requires Adjusted(l, l', r, ReplenishDue(l, secs, usecs, t.handler, t.eloopData, t.userData, now),
                      Fits(later, secs), t)
    requires r >= 0
    ensures forall x | x in l' && Matches(x, t.handler, t.eloopData, t.userData) ::
              Micros(now) + secs * MILLION + usecs <= Micros(x.time)
  {
    var q := Matching(t.handler, t.eloopData, t.userData);
    var i := First(l, q);
    SubIsDifference(l[i].time, now);
    RequestCompared(Sub(l[i].time, now), secs, usecs);
    OneMatch(l, t);
    WithoutMembers(l, Cancelling(t.handler, t.eloopData, t.userData));
    forall x | x in l' && Matches(x, t.handler, t.eloopData, t.userData)
      ensures Micros(now) + secs * MILLION + usecs <= Micros(x.time)
    {
      if r == 0 {
        var j :| 0 <= j < |l| && l[j] == x;
        assert q(l[j]);
        assert j > i ==> Precedes(l[i], l[j]);
      }
    }
  }

  /**
   After a deplete, with whatever request, the earliest matching timer has at most the request remaining:
   one that is left alone from when the function looked, a new one from when it was registered. Only when
   the new deadline overflows is there no such timer.
   */
  lemma DepletedEnough(l: seq<Timer>, l': seq<Timer>, r: int, secs: nat, usecs: nat, t: Timer, now: Time, later: Time)
    requires InOrder(l) && Normal(now) && Normal(later)
    requires t.time == Deadline(later, secs, usecs)
    requires Adjusted(l, l', r, DepleteDue(l, secs, usecs, t.handler, t.eloopData, t.userData, now),
                      Fits(later, secs), t)
    requires r >= 0 && (r == 1 ==> Fits(later, secs))
    ensures var q := Matching(t.handler, t.eloopData, t.userData);
            First(l', q) < |l'|
            && Micros(l'[First(l', q)].time) <= Micros(if r == 0 then now else later) + secs * MILLION + usecs
  {
    var q := Matching(t.handler, t.eloopData, t.userData);
    if r == 0 {
      var x := l[First(l, q)];
      SubIsDifference(x.time, now);
      RequestCompared(Sub(x.time, now), secs, usecs);
    } else {
      OneMatch(l, t);
      assert l'[First(l', q)] in l' || First(l', q) == |l'|;
    }
  }

  /**
   eloop_replenish_timeout leaves alone only timers that have the request remaining exactly when the
   request has at most a million microseconds: two seconds left, three million microseconds requested,
   and nothing is extended.
   */
  lemma ReplenishExactly(secs: nat, usecs: nat, handler: Ptr, eloopData: Ptr, userData: Ptr, now: Time)
    requires Normal(now)
    ensures usecs <= MILLION
            <==> forall l: seq<Timer> ::
                   LeftAlone(l, secs, usecs, handler, eloopData, userData, now)
                   ==> Micros(now) + secs * MILLION + usecs
                       <= Micros(l[First(l, Matching(handler, eloopData, userData))].time)
  {
    var q := Matching(handler, eloopData, userData);
    if usecs <= MILLION {
      forall l: seq<Timer> | LeftAlone(l, secs, usecs, handler, eloopData, userData, now)
        ensures Micros(now) + secs * MILLION + usecs <= Micros(l[First(l, q)].time)
      {
        var x := l[First(l, q)];
        SubIsDifference(x.time, now);
        RequestCompared(Sub(x.time, now), secs, usecs);
      }
    } else {
      var x := Timer(0, TimeOf(Micros(now) + (secs + 1) * MILLION), handler, eloopData, userData);
      SubIsDifference(x.time, now);
      assert Sub(x.time, now) == Time(secs + 1, 0);
      FirstIs([x], q, 0);
      assert LeftAlone([x], secs, usecs, handler, eloopData, userData, now);
    }
  }

  /**
   eloop_deplete_timeout shortens only timers that have more than the request remaining exactly when the
   request has less than a million microseconds.
   */
  lemma DepleteExactly(secs: nat, usecs: nat, handler: Ptr, eloopData: Ptr, userData: Ptr, now: Time)
    requires Normal(now)
    ensures usecs < MILLION
            <==> forall l: seq<Timer> ::
                   Shortened(l, secs, usecs, handler, eloopData, userData, now)
                   ==> Micros(now) + secs * MILLION + usecs
                       < Micros(l[First(l, Matching(handler, eloopData, userData))].time)
  {
    var q := Matching(handler, eloopData, userData);
    if usecs < MILLION {
      forall l: seq<Timer> | Shortened(l, secs, usecs, handler, eloopData, userData, now)
        ensures Micros(now) + secs * MILLION + usecs < Micros(l[First(l, q)].time)
      {
        var x := l[First(l, q)];
        SubIsDifference(x.time, now);
        BeforeIsLess(Time(secs, usecs), Sub(x.time, now));
      }
    } else {
      var x := Timer(0, TimeOf(Micros(now) + (secs + 1) * MILLION), handler, eloopData, userData);
      SubIsDifference(x.time, now);
      assert Sub(x.time, now) == Time(secs + 1, 0);
      FirstIs([x], q, 0);
      assert Shortened([x], secs, usecs, handler, eloopData, userData, now);
    }
  }

  /** One second left, three million microseconds requested: the deplete makes the timer later. */
  lemma DepleteLengthens()
    ensures var l := [Timer(0, Time(1, 0), 1, 2, 3)];
            var t := Timer(1, Deadline(Time(0, 0), 0, 3000000), 1, 2, 3);
            && Shortened(l, 0, 3000000, 1, 2, 3, Time(0, 0))
            && Replaced(l, t) == [t] && Micros(l[0].time) < Micros(t.time)
  {
    var x, t := Timer(0, Time(1, 0), 1, 2, 3), Timer(1, Deadline(Time(0, 0), 0, 3000000), 1, 2, 3);
    FirstIs([x], Matching(1, 2, 3), 0);
    var drop := Cancelling(1, 2, 3);
    assert [x][1..] == [];
    assert Without([x], drop) == Without([], drop) == [];
    assert Insert([], t) == [t];
  }

  /** A list whose first matching timer a deplete replaces. */
  ghost predicate Shortened(l: seq<Timer>, secs: nat, usecs: nat, handler: Ptr, eloopData: Ptr,
                            userData: Ptr, now: Time) {
    && InOrder(l) && First(l, Matching(handler, eloopData, userData)) < |l|
    && DepleteDue(l, secs, usecs, handler, eloopData, userData, now)
  }

  /** A list whose first matching timer a replenish does not extend. */
  ghost predicate LeftAlone(l: seq<Timer>, secs: nat, usecs: nat, handler: Ptr, eloopData: Ptr,
                            userData: Ptr, now: Time) {
    && InOrder(l) && First(l, Matching(handler, eloopData, userData)) < |l|
    && !ReplenishDue(l, secs, usecs, handler, eloopData, userData, now)
  }

  /** The timers of the event loop. `next` numbers the registrations. */
  class EventTimers {
    var timeout: seq<Timer>
    var next: nat

    ghost predicate Valid()
      reads this
    {
      InOrder(timeout) && forall x :: x in timeout ==> x.id < next
    }

    /** The fields are those of a state of the runs below. */
    ghost predicate Holds(s: State)
      reads this
    {
      timeout == s.list && next == s.next
    }

    constructor ()
      ensures Valid() && timeout == [] && forall start :: Holds(State(start, [], 0, []))
    {
      timeout, next := [], 0;
    }

    /** eloop_register_timeout at the time `now`; a sum of seconds that overflows a long is ignored. */
    method Register(now: Time, secs: nat, usecs: nat, handler: Ptr, eloopData: Ptr, userData: Ptr, ghost s: State)
      returns (r: int)
      requires Valid() && Normal(now) && 0 <= now.sec <= LONG_MAX && secs < TWO_32 && usecs < TWO_32
      requires Holds(s) && s.now == now
      modifies this
      ensures Valid() && r == 0 && Holds(Do(s, Registering(secs, usecs, handler, eloopData, userData)))
      ensures now.sec + secs <= LONG_MAX
          ==> timeout
              == Insert(old(timeout), Timer(old(next), Deadline(now, secs, usecs), handler, eloopData, userData))
              && next == old(next) + 1
      ensures now.sec + secs > LONG_MAX ==> timeout == old(timeout) && next == old(next)
    {
      var sec := now.sec + secs;
      if sec > LONG_MAX {
        sec := sec - 2 * (LONG_MAX + 1);
      }
      if sec < now.sec {
        return 0;
      }
      var time := Normalise(sec, now.usec + usecs);
      TimeOfMicros(time);
      var t := Timer(next, time, handler, eloopData, userData);
      InsertKeepsOrder(timeout, t);
      InsertMembers(timeout, t);
      hide Insert, InOrder;
      next := next + 1;
      Place(t);
      r := 0;
    }

    /** The search for a later timer, and the insertion. */
    method Place(t: Timer)
      modifies this`timeout
      ensures timeout == Insert(old(timeout), t)
    {
      hide Insert;
      var i := 0;
      while i < |timeout|
        invariant i <= |timeout| && timeout == old(timeout)
        invariant forall j :: 0 <= j < i ==> !Before(t.time, timeout[j].time)
      {
        if Before(t.time, timeout[i].time) {
          InsertAt(timeout, t, i);
          timeout := timeout[..i] + [t] + timeout[i..];
          return;
        }
        i := i + 1;
      }
      InsertAt(timeout, t, i);
      timeout := timeout + [t];
      assert timeout == old(timeout)[..i] + [t] + old(timeout)[i..];
    }

    /** eloop_cancel_timeout. */
    method Cancel(handler: Ptr, eloopData: Ptr, userData: Ptr, ghost s: State) returns (removed: nat)
      requires Valid() && Holds(s)
      modifies this`timeout
      ensures Holds(Do(s, CancellingAll(handler, eloopData, userData)))
      ensures forall x :: x in timeout
                          <==> x in old(timeout)
                               && !(x.handler == handler && (eloopData == ALL_CTX || x.eloopData == eloopData)
                                    && (userData == ALL_CTX || x.userData == userData))
      ensures Valid() && timeout == Without(old(timeout), Cancelling(handler, eloopData, userData))
      ensures removed == |old(timeout)| - |timeout|
    {
      WithoutKeepsOrder(timeout, Cancelling(handler, eloopData, userData));
      WithoutMembers(timeout, Cancelling(handler, eloopData, userData));
      removed := RemoveAll(handler, eloopData, userData);
    }

    /** Its loop. */
    method RemoveAll(handler: Ptr, eloopData: Ptr, userData: Ptr) returns (removed: nat)
      modifies this`timeout
      ensures timeout == Without(old(timeout), Cancelling(handler, eloopData, userData))
      ensures removed == |old(timeout)| - |timeout|
    {
      ghost var l, p := timeout, Cancelling(handler, eloopData, userData);
      ghost var k, kept := 0, Without([], p);
      WithoutNone([], p);
      hide Without;
      removed := 0;
      var i := 0;
      while i < |timeout|
        invariant k <= |l| && removed + i == k && i == |kept|
        invariant timeout == kept + l[k..] && kept == Without(l[..k], p)
        decreases |timeout| - i
      {
        WithoutNext(l, k, p);
        StepOver(kept, l, k);
        if Cancels(timeout[i], handler, eloopData, userData) {
          timeout, removed := timeout[..i] + timeout[i + 1..], removed + 1;
        } else {
          kept := kept + [l[k]];
          i := i + 1;
        }
        k := k + 1;
      }
      assert l[..k] == l && timeout == kept;
    }

    /** The search that eloop_deplete_timeout, eloop_replenish_timeout and the others begin with. */
    method Find(handler: Ptr, eloopData: Ptr, userData: Ptr) returns (i: nat)
      ensures i == First(timeout, Matching(handler, eloopData, userData)) && i <= |timeout|
      ensures forall j :: 0 <= j <= i && j < |timeout| ==>
                            (timeout[j].handler == handler && timeout[j].eloopData == eloopData
                             && timeout[j].userData == userData
                             <==> j == i)
    {
      i := 0;
      while i < |timeout| && !Matches(timeout[i], handler, eloopData, userData)
        invariant i <= |timeout|
        invariant forall j :: 0 <= j < i ==> !Matches(timeout[j], handler, eloopData, userData)
      {
        i := i + 1;
      }
      FirstIs(timeout, Matching(handler, eloopData, userData), i);
    }

    /** eloop_is_timeout_registered. */
    method IsRegistered(handler: Ptr, eloopData: Ptr, userData: Ptr) returns (r: int)
      ensures r == if exists x :: x in timeout && x.handler == handler && x.eloopData == eloopData
                                  && x.userData == userData
                   then 1 else 0
    {
      var i := Find(handler, eloopData, userData);
      if i < |timeout| {
        assert timeout[i] in timeout;
      }
      r := if i < |timeout| then 1 else 0;
    }

    /** eloop_cancel_timeout_one at the time `now`: the earliest match goes; an overdue one had nothing remaining. */
    method CancelOne(now: Time, handler: Ptr, eloopData: Ptr, userData: Ptr, ghost s: State)
      returns (removed: int, remaining: Time)
      requires Valid() && Normal(now) && Holds(s)
      modifies this`timeout
      ensures Valid() && Holds(Do(s, CancellingFirst(handler, eloopData, userData)))
      ensures var i := First(old(timeout), Matching(handler, eloopData, userData));
              if i == |old(timeout)| then removed == 0 && timeout == old(timeout) && remaining == Time(0, 0)
              else
                && removed == 1 && timeout == old(timeout)[..i] + old(timeout)[i + 1..]
                && Normal(remaining)
                && Micros(remaining) == Max(0, Micros(old(timeout)[i].time) - Micros(now))
    {
      removed, remaining := 0, Time(0, 0);
      var i := Find(handler, eloopData, userData);
      if i < |timeout| {
        removed := 1;
        assert Normal(timeout[i].time);
        OneLess(timeout, i);
        hide InOrder;
        BeforeIsLess(now, timeout[i].time);
        if Before(now, timeout[i].time) {
          SubIsDifference(timeout[i].time, now);
          remaining := Sub(timeout[i].time, now);
        }
        timeout := timeout[..i] + timeout[i + 1..];
      }
    }

    /**
     eloop_deplete_timeout: the clock is read for the comparison (`now`) and again by the
     registration (`later`).
     */
    method Deplete(reqSecs: nat, reqUsecs: nat, handler: Ptr, eloopData: Ptr, userData: Ptr, now: Time, later: Time,
                   ghost s: State)
      returns (r: int)
      requires Valid() && Normal(now) && Normal(later) && 0 <= now.sec && Micros(now) <= Micros(later)
      requires reqSecs < TWO_32 && reqUsecs < TWO_32 && later.sec <= LONG_MAX && Holds(s) && s.now == now
      modifies this
      ensures Valid()
      ensures Holds(if r == 1 then Adjusting(s, later, reqSecs, reqUsecs, handler, eloopData, userData) else s)
      ensures Adjusted(old(timeout), timeout, r,
                       DepleteDue(old(timeout), reqSecs, reqUsecs, handler, eloopData, userData, now),
                       Fits(later, reqSecs),
                       Timer(old(next), Deadline(later, reqSecs, reqUsecs), handler, eloopData, userData))
    {
      var i := Find(handler, eloopData, userData);
      if i == |timeout| {
        return -1;
      }
      var requested, remaining := Time(reqSecs, reqUsecs), Sub(timeout[i].time, now);
      if Before(requested, remaining) {
        ghost var cancelled := Do(s, CancellingAll(handler, eloopData, userData));
        var removed := Cancel(handler, eloopData, userData, s);
        var registered := Register(later, requested.sec, requested.usec, handler, eloopData, userData,
                                   Do(cancelled, Tick(later)));
        return 1;
      }
      r := 0;
    }

    /** eloop_replenish_timeout. */
    method Replenish(reqSecs: nat, reqUsecs: nat, handler: Ptr, eloopData: Ptr, userData: Ptr, now: Time, later: Time,
                   ghost s: State)
      returns (r: int)
      requires Valid() && Normal(now) && Normal(later) && 0 <= now.sec && Micros(now) <= Micros(later)
      requires reqSecs < TWO_32 && reqUsecs < TWO_32 && later.sec <= LONG_MAX && Holds(s) && s.now == now
      modifies this
      ensures Valid()
      ensures Holds(if r == 1 then Adjusting(s, later, reqSecs, reqUsecs, handler, eloopData, userData) else s)
      ensures Adjusted(old(timeout), timeout, r,
                       ReplenishDue(old(timeout), reqSecs, reqUsecs, handler, eloopData, userData, now),
                       Fits(later, reqSecs),
                       Timer(old(next), Deadline(later, reqSecs, reqUsecs), handler, eloopData, userData))
    {
      var i := Find(handler, eloopData, userData);
      if i == |timeout| {
        return -1;
      }
      var requested, remaining := Time(reqSecs, reqUsecs), Sub(timeout[i].time, now);
      if Before(remaining, requested) {
        ghost var cancelled := Do(s, CancellingAll(handler, eloopData, userData));
        var removed := Cancel(handler, eloopData, userData, s);
        var registered := Register(later, requested.sec, requested.usec, handler, eloopData, userData,
                                   Do(cancelled, Tick(later)));
        return 1;
      }
      r := 0;
    }

    /** The part of eloop_run that lets one timer expire. */
    method Expire(now: Time, ghost s: State) returns (fired: seq<Timer>)
      requires Valid() && Normal(now) && Holds(s) && s.now == now
      modifies this`timeout
      ensures Holds(Do(s, Expiring))
      ensures Do(s, Expiring).fired == s.fired + if fired == [] then [] else [Firing(fired[0], now)]
      ensures Valid() && fired + timeout == old(timeout) && |fired| <= 1
      ensures fired == [] <==> forall x :: x in old(timeout) ==> Micros(now) < Micros(x.time)
      ensures forall f, x :: f in fired && x in timeout ==> Precedes(f, x) && Micros(f.time) <= Micros(now)
    {
      fired := [];
      if timeout != [] {
        BeforeIsLess(now, timeout[0].time);
        if !Before(now, timeout[0].time) {
          fired := [timeout[0]];
          timeout := timeout[1..];
          assert old(timeout)[0] in old(timeout);
        }
      }
    }
  }

  function Max(a: int, b: int): int {
    if a < b then b else a
  }

  // ----- whole runs -----

  datatype Firing = Firing(timer: Timer, at: Time)

  /** The clock, the list, the number of registrations so far, and every timer that has fired. */
  datatype State = State(now: Time, list: seq<Timer>, next: nat, fired: seq<Firing>)

  /**
   What can happen, in any order: time passes, some handler or the program registers or cancels
   timers, or eloop_run looks at the head of the list. A deplete or replenish is a cancellation,
   time passing, and a registration.
   */
  datatype Event =
    | Tick(to: Time)
    | Registering(secs: nat, usecs: nat, handler: Ptr, eloopData: Ptr, userData: Ptr)
    | CancellingAll(handler: Ptr, eloopData: Ptr, userData: Ptr)
    | CancellingFirst(handler: Ptr, eloopData: Ptr, userData: Ptr)
    | Expiring

  /** The clock is monotone. */
  predicate Enabled(s: State, e: Event) {
    e.Tick? ==> 0 <= e.to.usec < MILLION && Micros(s.now) <= Micros(e.to)
  }

  function Do(s: State, e: Event): State
    requires Enabled(s, e)
  {
    match e
    case Tick(to) => s.(now := to)
    case Registering(secs, usecs, h, d, u) =>
      if s.now.sec + secs > LONG_MAX then s
      else s.(list := Insert(s.list, Timer(s.next, Deadline(s.now, secs, usecs), h, d, u)), next := s.next + 1)
    case CancellingAll(h, d, u) => s.(list := Without(s.list, Cancelling(h, d, u)))
    case CancellingFirst(h, d, u) =>
      var i := First(s.list, Matching(h, d, u));
      if i < |s.list| then s.(list := s.list[..i] + s.list[i + 1..]) else s
    case Expiring =>
      if s.list != [] && !Before(s.now, s.list[0].time)
      then s.(list := s.list[1..], fired := s.fired + [Firing(s.list[0], s.now)])
      else s
  }

  /** What a deplete or replenish that takes effect comes to. */
  function Adjusting(s: State, later: Time, secs: nat, usecs: nat, handler: Ptr, eloopData: Ptr, userData: Ptr): State
    requires Normal(later) && Micros(s.now) <= Micros(later)
  {
    Do(Do(Do(s, CancellingAll(handler, eloopData, userData)), Tick(later)),
       Registering(secs, usecs, handler, eloopData, userData))
  }

  predicate Legal(s: State, run: seq<Event>)
    decreases |run|
  {
    run == [] || (Enabled(s, run[0]) && Legal(Do(s, run[0]), run[1..]))
  }

  function After(s: State, run: seq<Event>): State
    requires Legal(s, run)
    decreases |run|
  {
    if run == [] then s else After(Do(s, run[0]), run[1..])
  }

  ghost predicate Inv(s: State) {
    && Normal(s.now)
    && InOrder(s.list) && (forall x :: x in s.list ==> x.id < s.next)
    && (forall i :: 0 <= i < |s.fired| ==> FiringInv(s, s.fired[i]))
    && (forall i, j :: 0 <= i < j < |s.fired| ==> Precedes(s.fired[i].timer, s.fired[j].timer))
  }

  /** A timer that fired was due, and precedes everything still pending. */
  ghost predicate FiringInv(s: State, f: Firing) {
    && f.timer.id < s.next
    && Micros(f.timer.time) <= Micros(f.at) <= Micros(s.now)
    && (forall x :: x in s.list ==> Precedes(f.timer, x))
  }

  lemma InvRegister(s: State, e: Event)
    requires Inv(s) && e.Registering?
    ensures Inv(Do(s, e))
  {
    if s.now.sec + e.secs <= LONG_MAX {
      var t := Timer(s.next, Deadline(s.now, e.secs, e.usecs), e.handler, e.eloopData, e.userData);
      InsertKeepsOrder(s.list, t);
      InsertMembers(s.list, t);
      hide InOrder, Insert;
      var s' := Do(s, e);
      forall i | 0 <= i < |s'.fired|
        ensures FiringInv(s', s'.fired[i])
      {
        assert FiringInv(s, s.fired[i]);
      }
    }
  }

  lemma InvFewer(s: State, s': State)
    requires Inv(s) && s' == s.(list := s'.list)
    requires InOrder(s'.list) && forall x :: x in s'.list ==> x in s.list
    ensures Inv(s')
  {
    hide InOrder;
    forall i | 0 <= i < |s'.fired|
      ensures FiringInv(s', s'.fired[i])
    {
      assert FiringInv(s, s.fired[i]);
    }
  }

  lemma InvExpire(s: State)
    requires Inv(s)
    ensures Inv(Do(s, Expiring))
  {
    if s.list != [] && !Before(s.now, s.list[0].time) {
      BeforeIsLess(s.now, s.list[0].time);
      InOrderTail(s.list);
      var s' := Do(s, Expiring);
      assert s.list[0] in s.list;
      hide InOrder;
      forall i | 0 <= i < |s'.fired|
        ensures FiringInv(s', s'.fired[i])
      {
        assert i < |s.fired| ==> FiringInv(s, s.fired[i]);
      }
    }
  }

  lemma InvStep(s: State, e: Event)
    requires Inv(s) && Enabled(s, e)
    ensures Inv(Do(s, e))
  {
    match e
    case Tick(to) =>
      assert forall i :: 0 <= i < |s.fired| ==> FiringInv(s, s.fired[i]) && FiringInv(Do(s, e), s.fired[i]);
    case Registering(_, _, _, _, _) => InvRegister(s, e);
    case CancellingAll(h, d, u) =>
      WithoutKeepsOrder(s.list, Cancelling(h, d, u));
      WithoutMembers(s.list, Cancelling(h, d, u));
      InvFewer(s, Do(s, e));
    case CancellingFirst(h, d, u) => InvFewer(s, Do(s, e));
    case Expiring => InvExpire(s);
  }

  lemma {:induction false} InvRun(s: State, run: seq<Event>)
    requires Inv(s) && Legal(s, run)
    ensures Inv(After(s, run))
    decreases |run|
  {
    if run != [] {
      InvStep(s, run[0]);
      InvRun(Do(s, run[0]), run[1..]);
    }
  }

  /**
   In every run no timer fires before its deadline, the deadlines of the fired timers never decrease,
   and timers with equal deadlines fire in the order in which they were registered.
   */
  lemma FiredInOrder(start: Time, run: seq<Event>, i: nat, j: nat)
    requires Normal(start) && Legal(State(start, [], 0, []), run)
    requires i < j < |After(State(start, [], 0, []), run).fired|
    ensures var fired := After(State(start, [], 0, []), run).fired;
            && Micros(fired[i].timer.time) <= Micros(fired[i].at)
            && Micros(fired[j].timer.time) <= Micros(fired[j].at)
            && Micros(fired[i].timer.time) <= Micros(fired[j].timer.time)
            && (Micros(fired[i].timer.time) == Micros(fired[j].timer.time) ==> fired[i].timer.id < fired[j].timer.id)
  {
    var s := State(start, [], 0, []);
    InvRun(s, run);
    var t := After(s, run);
    assert FiringInv(t, t.fired[i]) && FiringInv(t, t.fired[j]) && Precedes(t.fired[i].timer, t.fired[j].timer);
  }

  /**
   At any moment of a run the loop lets a timer fire exactly when some pending timer is due, and then the
   first in order.
   */
  lemma FiresWhenDue(start: Time, run: seq<Event>)
    requires Normal(start) && Legal(State(start, [], 0, []), run)
    ensures var s := After(State(start, [], 0, []), run);
            var s' := Do(s, Expiring);
            && (s'.fired != s.fired <==> exists x :: x in s.list && Micros(x.time) <= Micros(s.now))
            && (s'.fired != s.fired ==> forall x :: x in s'.list ==> Precedes(s'.fired[|s.fired|].timer, x))
  {
    var s := After(State(start, [], 0, []), run);
    InvRun(State(start, [], 0, []), run);
    if s.list != [] {
      BeforeIsLess(s.now, s.list[0].time);
      assert s.list[0] in s.list;
      InOrderTail(s.list);
      assert s.list == [s.list[0]] + s.list[1..];
    }
  }
}
