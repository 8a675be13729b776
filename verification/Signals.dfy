/**
 Signals in src/eloop/eloop.c: eloop_handle_signal may run between any two statements of
 eloop_process_pending_signals, which is therefore modelled one statement a step, with
 deliveries anywhere and registrations wherever the program or a handler runs.
 */
module Signals {
  import opened Wrappers

  type Ptr = nat

  const SIGINT: nat := 2
  const SIGTERM: nat := 15

  /** struct eloop_signal. */
  datatype Entry = Entry(sig: nat, handler: Ptr, userData: Ptr, signaled: nat)

  /** Where eloop_process_pending_signals is. */
  datatype Phase =
    | Outside
    | Entered            // about to test eloop.signaled
    | Tested             // it was not zero, about to clear it
    | Cleared            // about to test pending_terminate
    | Disarmed           // alarm(0) called, pending_terminate about to be cleared
    | Scan(i: nat)       // about to test i against the count, then the mark of entry i
    | Hit(i: nat)        // the mark was set, about to clear it
    | Calling(i: nat)    // about to call the handler
    | Handler(i: nat)    // inside it
    | Finishing          // about to return

  /**
   Deliveries and calls, with the number of passes that had ended by then: that is the number of the
   pass then running, or, outside any pass, of the next.
   */
  datatype Happened =
    | Delivered(k: nat, pass: nat, during: bool)
    | Called(k: nat, pass: nat)

  datatype State = State(
    entries: seq<Entry>, signaled: nat, pendingTerminate: bool, alarm: bool,
    phase: Phase, passes: nat, log: seq<Happened>)

  const START := State([], 0, false, false, Outside, 0, [])

  /** The first entry for a signal. */
  function First(entries: seq<Entry>, sig: nat): (k: nat)
    ensures k <= |entries| && (k < |entries| ==> entries[k].sig == sig)
    ensures forall j :: 0 <= j < k ==> entries[j].sig != sig
  {
    if entries == [] || entries[0].sig == sig then 0 else 1 + First(entries[1..], sig)
  }

  function Marked(entries: seq<Entry>, k: nat): seq<Entry>
    requires k < |entries|
  {
    entries[k := entries[k].(signaled := entries[k].signaled + 1)]
  }

  /** eloop_handle_signal. */
  function Deliver(s: State, sig: nat): State {
    var k := First(s.entries, sig);
    var terminating := (sig == SIGINT || sig == SIGTERM) && !s.pendingTerminate;
    var t := s.(signaled := s.signaled + 1, pendingTerminate := s.pendingTerminate || terminating,
                alarm := s.alarm || terminating);
    if k < |s.entries|
    then t.(entries := Marked(s.entries, k), log := s.log + [Delivered(k, s.passes, !s.phase.Outside?)])
    else t
  }

  /** eloop_register_signal. */
  function Register(s: State, sig: nat, handler: Ptr, userData: Ptr): State {
    s.(entries := s.entries + [Entry(sig, handler, userData, 0)])
  }

  /** The next statement of eloop_process_pending_signals; from Outside, its call. */
  function Advance(s: State): State {
    match s.phase
    case Outside => s.(phase := Entered)
    case Entered => s.(phase := if s.signaled == 0 then Finishing else Tested)
    case Tested => s.(phase := Cleared, signaled := 0)
    case Cleared => if s.pendingTerminate then s.(phase := Disarmed, alarm := false) else s.(phase := Scan(0))
    case Disarmed => s.(phase := Scan(0), pendingTerminate := false)
    case Scan(i) =>
      s.(phase := if i >= |s.entries| then Finishing else if s.entries[i].signaled != 0 then Hit(i) else Scan(i + 1))
    case Hit(i) =>
      s.(phase := Calling(i),
         entries := if i < |s.entries| then s.entries[i := s.entries[i].(signaled := 0)] else s.entries)
    case Calling(i) => s.(phase := Handler(i), log := s.log + [Called(i, s.passes)])
    case Handler(i) => s.(phase := Scan(i + 1))
    case Finishing => s.(phase := Outside, passes := s.passes + 1)
  }

  /**
   A registration is one step. In eloop_register_signal a signal that arrives after the realloc and before
   the store of the new array would look through the array that realloc released: that window is outside
   the model.
   */
  datatype Event = Signal(sig: nat) | Registration(sig: nat, handler: Ptr, userData: Ptr) | Statement

  predicate Enabled(s: State, e: Event) {
    e.Registration? ==> s.phase.Outside? || s.phase.Handler?
  }

  function Do(s: State, e: Event): State {
    match e
    case Signal(sig) => Deliver(s, sig)
    case Registration(sig, handler, userData) => Register(s, sig, handler, userData)
    case Statement => Advance(s)
  }

  predicate Legal(s: State, run: seq<Event>)
    decreases |run|
  {
    run == [] || (Enabled(s, run[0]) && Legal(Do(s, run[0]), run[1..]))
  }

  function After(s: State, run: seq<Event>): State
    decreases |run|
  {
    if run == [] then s else After(Do(s, run[0]), run[1..])
  }

  // ----- what every step keeps -----

  /** The pass has gone by entry k, which it will not look at again. */
  predicate Passed(phase: Phase, k: nat) {
    match phase
    case Scan(i) => k < i
    case Hit(i) => k < i
    case Calling(i) => k <= i
    case Handler(i) => k <= i
    case Finishing => true
    case Outside => true
    case Entered => true
    case Tested => false
    case Cleared => false
    case Disarmed => false
  }

  /** A mark that the running pass has gone by, or any mark outside a pass, makes the next pass look. */
  ghost predicate MarksSeen(s: State) {
    && (forall k :: 0 <= k < |s.entries| && Passed(s.phase, k) && s.entries[k].signaled > 0 ==> s.signaled > 0)
    && (s.phase.Hit? ==> s.phase.i < |s.entries| && s.entries[s.phase.i].signaled > 0)
    && (s.phase.Tested? ==> s.signaled > 0)
  }

  /** The two seconds run only while a pass is due that will stop them. */
  predicate AlarmSeen(s: State) {
    && (s.alarm ==> s.pendingTerminate)
    && (s.phase.Disarmed? ==> s.pendingTerminate && !s.alarm)
    && (s.pendingTerminate ==> s.signaled > 0 || s.phase.Cleared? || s.phase.Disarmed?)
  }

  /** The pass by which a delivery is to be answered. */
  function Deadline(d: Happened): nat
    requires d.Delivered?
  {
    d.pass + if d.during then 1 else 0
  }

  /** The delivery at `p` was followed by a call of its handler, no later than the deadline. */
  predicate Answered(log: seq<Happened>, p: nat)
    requires p < |log| && log[p].Delivered?
  {
    exists c :: p < c < |log| && log[c].Called? && log[c].k == log[p].k
                && log[p].pass <= log[c].pass <= Deadline(log[p])
  }

  /** It will be: the mark stands or the call is next, and the pass that owes the call has not gone by. */
  predicate Owed(s: State, d: Happened)
    requires d.Delivered?
  {
    && d.k < |s.entries|
    && (s.entries[d.k].signaled > 0 || s.phase == Calling(d.k))
    && d.pass <= s.passes <= Deadline(d)
    && (Passed(s.phase, d.k) && s.phase != Calling(d.k) && !Between(s.phase) ==> s.passes == d.pass && d.during)
  }

  /** No pass is running that could have gone by an entry. */
  predicate Between(phase: Phase) {
    phase.Outside? || phase.Entered?
  }

  ghost predicate DeliveriesInv(s: State) {
    forall p :: 0 <= p < |s.log| && s.log[p].Delivered? ==> Answered(s.log, p) || Owed(s, s.log[p])
  }

  ghost predicate Inv(s: State) {
    MarksSeen(s) && AlarmSeen(s) && DeliveriesInv(s)
  }

  lemma AnsweredStays(log: seq<Happened>, x: Happened, p: nat)
    requires p < |log| && log[p].Delivered? && Answered(log, p)
    ensures Answered(log + [x], p)
  {
    var c :| p < c < |log| && log[c].Called? && log[c].k == log[p].k && log[p].pass <= log[c].pass <= Deadline(log[p]);
    assert (log + [x])[c] == log[c];
  }

  lemma InvDeliver(s: State, sig: nat)
    requires Inv(s)
    ensures Inv(Deliver(s, sig))
  {
    var t := Deliver(s, sig);
    forall p | 0 <= p < |t.log| && t.log[p].Delivered?
      ensures Answered(t.log, p) || Owed(t, t.log[p])
    {
      if p < |s.log| && Answered(s.log, p) && |t.log| > |s.log| {
        AnsweredStays(s.log, t.log[|s.log|], p);
      }
    }
  }

  lemma MarksAdvance(s: State)
    requires MarksSeen(s) && AlarmSeen(s)
    ensures MarksSeen(Advance(s)) && AlarmSeen(Advance(s))
  {
  }

  /** A statement answers what an entry is owed, or leaves it owed. */
  lemma OwedAdvance(s: State, d: Happened)
    requires MarksSeen(s) && d.Delivered? && Owed(s, d)
    ensures if s.phase == Calling(d.k) then d.pass <= s.passes <= Deadline(d) else Owed(Advance(s), d)
  {
  }

  lemma InvAdvance(s: State)
    requires Inv(s)
    ensures Inv(Advance(s))
  {
    MarksAdvance(s);
    var t := Advance(s);
    hide MarksSeen, AlarmSeen;
    forall p | 0 <= p < |t.log| && t.log[p].Delivered?
      ensures Answered(t.log, p) || Owed(t, t.log[p])
    {
      assert t.log[p] == s.log[p];
      if Answered(s.log, p) {
        if s.phase.Calling? {
          AnsweredStays(s.log, Called(s.phase.i, s.passes), p);
        }
      } else {
        OwedAdvance(s, s.log[p]);
        hide Owed;
        if s.phase == Calling(s.log[p].k) {
          assert t.log[|s.log|] == Called(s.log[p].k, s.passes);
        }
      }
    }
  }

  lemma InvStep(s: State, e: Event)
    requires Inv(s) && Enabled(s, e)
    ensures Inv(Do(s, e))
  {
    match e
    case Signal(sig) => InvDeliver(s, sig);
    case Registration(_, _, _) =>
    case Statement => InvAdvance(s);
  }

  lemma {:induction false} InvRun(s: State, run: seq<Event>)
    requires Inv(s) && Legal(s, run)
    ensures Inv(After(s, run))
    decreases |run|
  {
    if run != [] {
      InvStep(s, run[0]);
      InvRun(Do(s, run[0]), run[1..]);
    }
  }

  // ----- no delivered signal is lost -----

  /**
   A delivery of a registered signal is followed by a call of the handler registered first for it, in
   the pass then running or the next; a delivery outside a pass, in the very next.
   */
  lemma NoSignalLost(run: seq<Event>, p: nat)
    requires Legal(START, run)
    requires p < |After(START, run).log| && After(START, run).log[p].Delivered?
    requires var d := After(START, run).log[p]; After(START, run).passes > if d.during then d.pass + 1 else d.pass
    ensures var log := After(START, run).log;
            exists c :: p < c < |log| && log[c].Called? && log[c].k == log[p].k && log[p].pass <= log[c].pass
                        && log[c].pass <= if log[p].during then log[p].pass + 1 else log[p].pass
  {
    InvRun(START, run);
    assert Answered(After(START, run).log, p);
  }

  /** Outside a pass a mark that has not been handled, or an alarm that is running, makes the next pass look. */
  lemma NothingForgotten(run: seq<Event>, k: nat)
    requires Legal(START, run) && After(START, run).phase.Outside?
    ensures k < |After(START, run).entries| && After(START, run).entries[k].signaled > 0
            ==> After(START, run).signaled > 0
    ensures After(START, run).alarm ==> After(START, run).pendingTerminate && After(START, run).signaled > 0
  {
    InvRun(START, run);
  }

  // ----- no handler is called without cause -----

  function Deliveries(log: seq<Happened>, k: nat): (n: nat)
    ensures n <= |log|
  {
    if log == [] then 0
    else Deliveries(log[..|log| - 1], k) + if log[|log| - 1].Delivered? && log[|log| - 1].k == k then 1 else 0
  }

  function Calls(log: seq<Happened>, k: nat): nat {
    if log == [] then 0
    else Calls(log[..|log| - 1], k) + if log[|log| - 1].Called? && log[|log| - 1].k == k then 1 else 0
  }

  /** Calls made and calls still due are covered by deliveries. */
  predicate CallsCovered(s: State, k: nat) {
    Calls(s.log, k) + (if k < |s.entries| then s.entries[k].signaled else 0) + (if s.phase == Calling(k) then 1 else 0)
      <= Deliveries(s.log, k)
  }

  lemma CountsGrow(log: seq<Happened>, x: Happened, k: nat)
    ensures Calls(log + [x], k) == Calls(log, k) + if x.Called? && x.k == k then 1 else 0
    ensures Deliveries(log + [x], k) == Deliveries(log, k) + if x.Delivered? && x.k == k then 1 else 0
  {
    assert (log + [x])[..|log|] == log;
  }

  lemma CallsCoveredStep(s: State, e: Event, k: nat)
    requires MarksSeen(s) && CallsCovered(s, k) && Enabled(s, e)
    ensures CallsCovered(Do(s, e), k)
  {
    var t := Do(s, e);
    if |t.log| > |s.log| {
      CountsGrow(s.log, t.log[|s.log|], k);
    }
  }

  lemma {:induction false} CallsCoveredRun(s: State, run: seq<Event>, k: nat)
    requires Inv(s) && CallsCovered(s, k) && Legal(s, run)
    ensures CallsCovered(After(s, run), k)
    decreases |run|
  {
    if run != [] {
      InvStep(s, run[0]);
      CallsCoveredStep(s, run[0], k);
      CallsCoveredRun(Do(s, run[0]), run[1..], k);
    }
  }

  /** A handler is called at most once for each delivery. */
  lemma NoSpuriousCall(run: seq<Event>, k: nat)
    requires Legal(START, run)
    ensures Calls(After(START, run).log, k) <= Deliveries(After(START, run).log, k)
  {
    CallsCoveredRun(START, run, k);
  }

  // ----- passes end -----

  /** How many statements the pass has before it at most. */
  function Left(s: State): nat {
    var n := |s.entries|;
    match s.phase
    case Outside => 7 + 4 * n
    case Entered => 6 + 4 * n
    case Tested => 5 + 4 * n
    case Cleared => 4 + 4 * n
    case Disarmed => 3 + 4 * n
    case Scan(i) => if i < n then 2 + 4 * (n - i) else 2
    case Hit(i) => if i < n then 1 + 4 * (n - i) else 5
    case Calling(i) => if i < n then 4 * (n - i) else 4
    case Handler(i) => if i < n then 4 * (n - i) - 1 else 3
    case Finishing => 1
  }

  lemma StatementLeft(s: State)
    ensures s.phase == Finishing ==> Advance(s).passes == s.passes + 1
    ensures s.phase != Finishing ==> Advance(s).passes == s.passes && Left(Advance(s)) < Left(s)
  {
  }

  lemma DeliveryLeft(s: State, sig: nat)
    ensures Left(Deliver(s, sig)) == Left(s) && Deliver(s, sig).passes == s.passes
  {
    hide First;
  }

  function Statements(run: seq<Event>): nat {
    if run == [] then 0 else (if run[0].Statement? then 1 else 0) + Statements(run[1..])
  }

  /**
   Whatever signals are delivered meanwhile, a pass ends after a bounded number of statements, if its
   handlers register nothing.
   */
  lemma {:induction false} PassEnds(s: State, run: seq<Event>)
    requires Legal(s, run) && forall i :: 0 <= i < |run| ==> !run[i].Registration?
    ensures After(s, run).passes >= s.passes
    ensures Statements(run) >= Left(s) ==> After(s, run).passes > s.passes
    decreases |run|
  {
    if run != [] {
      var t := Do(s, run[0]);
      if run[0].Statement? {
        StatementLeft(s);
      } else {
        DeliveryLeft(s, run[0].sig);
      }
      hide Left, Deliver, Advance;
      PassEnds(t, run[1..]);
      LeftPositive(s);
    } else {
      LeftPositive(s);
    }
  }

  lemma LeftPositive(s: State)
    ensures Left(s) > 0
  {
  }

  /** SIGINT and SIGTERM, and only they, make a termination pending and start the alarm, once. */
  lemma Terminations(s: State, sig: nat)
    ensures var t := Deliver(s, sig);
            && t.signaled == s.signaled + 1
            && (t.pendingTerminate <==> s.pendingTerminate || sig in {2, 15})
            && (t.alarm <==> s.alarm || (!s.pendingTerminate && sig in {2, 15}))
  {
    hide First;
  }

  // ----- a whole pass -----

  /** The program and any handler can register any entries. */
  lemma {:induction false} AnyTable(s: State, more: seq<Entry>) returns (run: seq<Event>)
    requires (s.phase.Outside? || s.phase.Handler?) && forall k :: 0 <= k < |more| ==> more[k].signaled == 0
    ensures Legal(s, run) && After(s, run) == s.(entries := s.entries + more)
    decreases |more|
  {
    if more == [] {
      run := [];
      assert s.entries + more == s.entries;
    } else {
      var e := Registration(more[0].sig, more[0].handler, more[0].userData);
      var rest := AnyTable(Do(s, e), more[1..]);
      run := [e] + rest;
      assert run[1..] == rest;
      assert (s.entries + [more[0]]) + more[1..] == s.entries + more;
    }
  }

  /** The calls that are due, in the order of the table, of whose entries `i` are not looked at. */
  function Due(entries: seq<Entry>, i: nat, pass: nat): seq<Happened> {
    if entries == [] then []
    else (if entries[0].signaled != 0 then [Called(i, pass)] else []) + Due(entries[1..], i + 1, pass)
  }

  function Unmarked(entries: seq<Entry>): (t: seq<Entry>)
    ensures |t| == |entries|
  {
    if entries == [] then [] else [entries[0].(signaled := 0)] + Unmarked(entries[1..])
  }

  /** The statements that a pass has left for a table. */
  function ScanSteps(entries: seq<Entry>): (run: seq<Event>)
    ensures forall i :: 0 <= i < |run| ==> run[i].Statement?
  {
    if entries == [] then [Statement, Statement]
    else
      (if entries[0].signaled != 0 then [Statement, Statement, Statement, Statement] else [Statement])
        + ScanSteps(entries[1..])
  }

  lemma StatementFirst(s: State, rest: seq<Event>)
    requires Legal(Advance(s), rest)
    ensures Legal(s, [Statement] + rest) && After(s, [Statement] + rest) == After(Advance(s), rest)
  {
    assert ([Statement] + rest)[1..] == rest;
  }

  lemma {:induction false} ScanRuns(s: State, i: nat)
    requires s.phase == Scan(i) && i <= |s.entries|
    ensures var run := ScanSteps(s.entries[i..]);
            && Legal(s, run)
            && After(s, run)
               == s.(entries := s.entries[..i] + Unmarked(s.entries[i..]), phase := Outside, passes := s.passes + 1,
                     log := s.log + Due(s.entries[i..], i, s.passes))
    decreases |s.entries| - i
  {
    hide Legal, After, Advance, Enabled;
    var rest := s.entries[i..];
    if rest == [] {
      PassReturns(s);
    } else {
      var t := ScanOne(s, i);
      EntrySwept(s, i);
      hide ScanOne, Unmarked, Due;
      ScanRuns(t, i + 1);
      EntryRuns(s, i, ScanSteps(rest[1..]));
    }
  }

  lemma PassReturns(s: State)
    requires s.phase == Scan(|s.entries|)
    ensures Legal(s, [Statement, Statement])
    ensures After(s, [Statement, Statement]) == s.(phase := Outside, passes := s.passes + 1)
  {
    var t := Advance(s);
    assert Legal(Advance(t), []) && After(Advance(t), []) == Advance(t);
    StatementFirst(t, []);
    StatementFirst(s, [Statement]);
    assert [Statement] + [] == [Statement] && [Statement] + [Statement] == [Statement, Statement];
  }

  /** The state behind the turn for entry i. */
  function ScanOne(s: State, i: nat): (t: State)
    requires i < |s.entries|
    ensures |t.entries| == |s.entries| && t.entries[i] == s.entries[i].(signaled := 0)
  {
    if s.entries[i].signaled == 0 then s.(phase := Scan(i + 1))
    else
      s.(phase := Scan(i + 1), entries := s.entries[i := s.entries[i].(signaled := 0)],
         log := s.log + [Called(i, s.passes)])
  }

  lemma EntryRuns(s: State, i: nat, rest: seq<Event>)
    requires s.phase == Scan(i) && i < |s.entries| && Legal(ScanOne(s, i), rest)
    ensures var marked := s.entries[i].signaled != 0;
            var turn := if marked then [Statement, Statement, Statement, Statement] else [Statement];
            Legal(s, turn + rest) && After(s, turn + rest) == After(ScanOne(s, i), rest)
  {
    hide Legal, After;
    if s.entries[i].signaled == 0 {
      StatementFirst(s, rest);
    } else {
      var t1 := Advance(s);
      var t2 := Advance(t1);
      var t3 := Advance(t2);
      StatementFirst(t3, rest);
      var r1 := [Statement] + rest;
      StatementFirst(t2, r1);
      StatementFirst(t1, [Statement] + r1);
      StatementFirst(s, [Statement] + ([Statement] + r1));
      assert [Statement, Statement, Statement, Statement] + rest == [Statement] + ([Statement] + ([Statement] + r1));
    }
  }

  lemma EntrySwept(s: State, i: nat)
    requires i < |s.entries|
    ensures var t := ScanOne(s, i);
            && s.entries[i..] != [] && s.entries[i..][1..] == t.entries[i + 1..]
            && t.entries[..i + 1] + Unmarked(t.entries[i + 1..]) == s.entries[..i] + Unmarked(s.entries[i..])
            && t.log + Due(t.entries[i + 1..], i + 1, s.passes) == s.log + Due(s.entries[i..], i, s.passes)
            && t == s.(phase := Scan(i + 1), entries := t.entries, log := t.log)
  {
    var x := s.entries[i].(signaled := 0);
    assert x == s.entries[i] ==> s.entries[i := x] == s.entries;
    UnmarkedAt(s.entries, i, x);
    DueAt(s.entries, i, s.passes, s.log);
    hide Unmarked, Due;
  }

  lemma UnmarkedAt(entries: seq<Entry>, i: nat, x: Entry)
    requires i < |entries| && x == entries[i].(signaled := 0)
    ensures var after := entries[i := x];
            && entries[i..] != [] && entries[i..][1..] == entries[i + 1..] == after[i + 1..]
            && after[..i + 1] + Unmarked(entries[i + 1..]) == entries[..i] + Unmarked(entries[i..])
  {
    var front, more := entries[..i], Unmarked(entries[i + 1..]);
    assert entries[i..][1..] == entries[i + 1..];
    assert Unmarked(entries[i..]) == [x] + more;
    hide Unmarked;
    assert entries[i := x][..i + 1] == front + [x];
    assert (front + [x]) + more == front + ([x] + more);
  }

  lemma DueAt(entries: seq<Entry>, i: nat, pass: nat, log: seq<Happened>)
    requires i < |entries|
    ensures (if entries[i].signaled == 0 then log else log + [Called(i, pass)]) + Due(entries[i + 1..], i + 1, pass)
         == log + Due(entries[i..], i, pass)
  {
    var rest := entries[i..];
    assert rest[0] == entries[i] && rest[1..] == entries[i + 1..];
    var head: seq<Happened> := if rest[0].signaled != 0 then [Called(i, pass)] else [];
    assert Due(rest, i, pass) == head + Due(rest[1..], i + 1, pass);
    hide Due;
  }

  /**
   A pass in which nothing else happens calls the handlers of the marked entries, each once and in the order
   of their registration, and leaves no mark and no pending termination, whose alarm is off; or, when nothing
   has been delivered, it does nothing.
   */
  lemma WholePass(s: State) returns (run: seq<Event>)
    requires s.phase.Outside?
    ensures Legal(s, run) && forall i :: 0 <= i < |run| ==> run[i].Statement?
    ensures After(s, run)
         == if s.signaled == 0 then s.(passes := s.passes + 1)
            else s.(entries := Unmarked(s.entries), signaled := 0, pendingTerminate := false,
                    alarm := s.alarm && !s.pendingTerminate, passes := s.passes + 1,
                    log := s.log + Due(s.entries, 0, s.passes))
  {
    hide Legal, After;
    var t := Advance(s);
    if s.signaled == 0 {
      run := IdleSteps(t);
    } else {
      run := BusySteps(Advance(Advance(t)));
      var more := [Statement] + run;
      StatementFirst(Advance(t), run);
      StatementFirst(t, more);
      run := [Statement] + more;
    }
    var rest := run;
    StatementFirst(s, rest);
    run := [Statement] + rest;
  }

  lemma IdleSteps(s: State) returns (run: seq<Event>)
    requires s.phase.Entered? && s.signaled == 0
    ensures Legal(s, run) && forall i :: 0 <= i < |run| ==> run[i].Statement?
    ensures After(s, run) == s.(phase := Outside, passes := s.passes + 1)
  {
    var t := Advance(s);
    assert Legal(Advance(t), []) && After(Advance(t), []) == Advance(t);
    StatementFirst(t, []);
    StatementFirst(s, [Statement]);
    run := [Statement, Statement];
    assert [Statement] + [] == [Statement] && [Statement] + [Statement] == run;
  }

  /** From the test of pending_terminate on. */
  lemma BusySteps(s: State) returns (run: seq<Event>)
    requires s.phase.Cleared?
    ensures Legal(s, run) && forall i :: 0 <= i < |run| ==> run[i].Statement?
    ensures After(s, run)
         == s.(entries := Unmarked(s.entries), pendingTerminate := false, alarm := s.alarm && !s.pendingTerminate,
               phase := Outside, passes := s.passes + 1, log := s.log + Due(s.entries, 0, s.passes))
  {
    hide Legal, After;
    assert s.entries[0..] == s.entries && forall e: seq<Entry> :: s.entries[..0] + e == e;
    var scan := ScanSteps(s.entries);
    var t := Advance(s);
    if s.pendingTerminate {
      ScanRuns(Advance(t), 0);
      StatementFirst(t, scan);
      var more := [Statement] + scan;
      StatementFirst(s, more);
      run := [Statement] + more;
    } else {
      ScanRuns(t, 0);
      StatementFirst(s, scan);
      run := [Statement] + scan;
    }
  }

  // ----- the code outside the pass -----

  lemma {:induction false} FirstIs(entries: seq<Entry>, sig: nat, k: nat)
    requires k <= |entries| && (k < |entries| ==> entries[k].sig == sig)
    requires forall j :: 0 <= j < k ==> entries[j].sig != sig
    ensures First(entries, sig) == k
  {
    if k > 0 {
      FirstIs(entries[1..], sig, k - 1);
    }
  }

  /** The signal part of struct eloop_data. */
  class SignalLoop {
    var signals: array<Entry>
    var signalCount: nat
    var signaled: nat
    var pendingTerminate: bool
    var alarm: bool

    /** The fields are those of the state; only the first `signalCount` slots of the array count. */
    ghost predicate Holds(s: State)
      reads this, signals
    {
      && signalCount <= signals.Length && s.entries == signals[..signalCount]
      && s.signaled == signaled && s.pendingTerminate == pendingTerminate && s.alarm == alarm
    }

    /** eloop_init. */
    constructor ()
      ensures Holds(START) && fresh(signals)
    {
      signals := new Entry[0];
      signalCount, signaled, pendingTerminate, alarm := 0, 0, false, false;
    }

    /** The search in eloop_handle_signal. */
    method FindSignal(sig: nat) returns (i: nat)
      requires signalCount <= signals.Length
      ensures i == First(signals[..signalCount], sig)
    {
      i := 0;
      while i < signalCount && signals[i].sig != sig
        invariant i <= signalCount && forall j :: 0 <= j < i ==> signals[j].sig != sig
      {
        i := i + 1;
      }
      FirstIs(signals[..signalCount], sig, i);
    }

    /** eloop_handle_signal, wherever the interrupted code is. */
    method HandleSignal(sig: nat, ghost s: State)
      requires Holds(s)
      modifies this`signaled, this`pendingTerminate, this`alarm, signals
      ensures Holds(Deliver(s, sig))
    {
      hide First;
      if (sig == SIGINT || sig == SIGTERM) && !pendingTerminate {
        pendingTerminate := true;
        alarm := true;
      }
      signaled := signaled + 1;
      var i := FindSignal(sig);
      if i < signalCount {
        signals[i] := signals[i].(signaled := signals[i].signaled + 1);
      }
    }

    /**
     os_realloc_array of the table for one more entry: the old entries are copied, and the last slot holds
     whatever was there.
     */
    method Reallocated(whatever: Entry) returns (tmp: array<Entry>)
      requires signalCount <= signals.Length
      ensures fresh(tmp) && tmp.Length == signalCount + 1
      ensures tmp[..signalCount] == signals[..signalCount]
    {
      tmp := new Entry[signalCount + 1](_ => whatever);
      var i := 0;
      while i < signalCount
        invariant i <= signalCount && tmp[..i] == signals[..i]
      {
        tmp[i] := signals[i];
        i := i + 1;
      }
    }

    /**
     eloop_register_signal: the reallocated table with the four stores in its last slot, whatever that held
     before. Afterwards the table is that of a state in which the handler answers the signal, unless one
     registered before does.
     */
    method RegisterSignal(sig: nat, handler: Ptr, userData: Ptr, whatever: Entry, ghost s: State)
      requires Holds(s)
      modifies this`signals, this`signalCount
      ensures Holds(Register(s, sig, handler, userData)) && fresh(signals)
      ensures Answers(signals[..signalCount], sig)
              == if Answers(s.entries, sig) != None then Answers(s.entries, sig) else Some((handler, userData))
      ensures forall other :: other != sig ==> Answers(signals[..signalCount], other) == Answers(s.entries, other)
      ensures forall k :: 0 <= k < old(signalCount) ==> signals[k] == old(signals[k])
    {
      var tmp := Reallocated(whatever);
      tmp[signalCount] := tmp[signalCount].(sig := sig);
      tmp[signalCount] := tmp[signalCount].(userData := userData);
      tmp[signalCount] := tmp[signalCount].(handler := handler);
      tmp[signalCount] := tmp[signalCount].(signaled := 0);
      signalCount := signalCount + 1;
      signals := tmp;
      assert signals[..signalCount] == s.entries + [Entry(sig, handler, userData, 0)];
      forall other
        ensures Answers(signals[..signalCount], other)
                == (if Answers(s.entries, other) != None || other != sig then Answers(s.entries, other)
                    else Some((handler, userData)))
      {
        FirstRegistered(s.entries, Entry(sig, handler, userData, 0), other);
      }
    }
  }

  /** The handler that a delivery of the signal is for, with its data. */
  function Answers(entries: seq<Entry>, sig: nat): Option<(Ptr, Ptr)> {
    var k := First(entries, sig);
    if k < |entries| then Some((entries[k].handler, entries[k].userData)) else None
  }

  /** A later entry answers a signal only if none before does. */
  lemma FirstRegistered(entries: seq<Entry>, x: Entry, sig: nat)
    ensures Answers(entries + [x], sig)
         == if Answers(entries, sig) != None || x.sig != sig then Answers(entries, sig)
            else Some((x.handler, x.userData))
  {
    var k, all := First(entries, sig), entries + [x];
    if k < |entries| {
      FirstIs(all, sig, k);
    } else {
      FirstIs(all, sig, if x.sig == sig then k else k + 1);
    }
  }
}
