/** The table as a value: the states of all philosophers and the flags of all forks,
    and one philosopher's step at a time. This is what the simulation's objects stand for. */
module Ring {
  import opened States
  import opened Entities

  /** One philosopher and its thread, as a value. */
  datatype Diner = Diner(name: string, state: PhilosopherState, phase: Phase, interrupted: bool)

  /** Philosopher `i` sits between fork `i` (its right fork) and fork `LeftOf(i, n)`. */
  datatype Table = Table(diners: seq<Diner>, taken: seq<bool>)

  /** The left fork of philosopher `i` at a table of `n`, computed as `(i - 1 + n) % n`. */
  function LeftOf(i: nat, n: nat): (l: nat)
    requires i < n
    ensures l < n
    ensures l == if i == 0 then n - 1 else i - 1
  {
    (i - 1 + n) % n
  }

  /** The philosopher whose left fork is fork `j`. */
  function LeftUser(j: nat, n: nat): (p: nat)
    requires j < n
    ensures p < n
    ensures p == if j == n - 1 then 0 else j + 1
  {
    (j + 1) % n
  }

  /** Fork `j` is the left fork of exactly one philosopher, `(j + 1) % n`. */
  lemma LeftOfLeftUser(i: nat, j: nat, n: nat)
    requires i < n && j < n
    ensures LeftOf(i, n) == j <==> LeftUser(j, n) == i
  {
  }

  predicate HoldsRight(s: PhilosopherState) { s == GotRightFork || s == Eating }

  predicate HoldsLeft(s: PhilosopherState) { s == Eating }

  ghost predicate DinerValid(d: Diner)
  {
    d.state != GotLeftFork && (d.phase == Starting ==> d.state == Thinking)
  }

  /** Fork `j` is taken exactly when philosopher `j` holds it as its right fork or its
      other neighbour holds it as its left fork, and never both at once. */
  ghost predicate ForkOwned(t: Table, j: nat)
    requires |t.diners| == |t.taken| && j < |t.taken|
  {
    var r := t.diners[j].state;
    var l := t.diners[LeftUser(j, |t.taken|)].state;
    t.taken[j] == (HoldsRight(r) || HoldsLeft(l)) && !(HoldsRight(r) && HoldsLeft(l))
  }

  /** One flag per seat, and every thread at a point its loop can be at. */
  ghost predicate Shaped(t: Table)
  {
    |t.diners| == |t.taken| &&
    forall i :: 0 <= i < |t.diners| ==> DinerValid(t.diners[i])
  }

  /** What holds of every table a simulation can reach. */
  ghost predicate Invariant(t: Table)
  {
    Shaped(t) && forall j :: 0 <= j < |t.taken| ==> ForkOwned(t, j)
  }

  /** A table freshly set up by `start()`: everybody about to announce thinking, all forks free. */
  function Initial(names: seq<string>): (t: Table)
    ensures Shaped(t) && |t.diners| == |names|
    ensures forall j :: 0 <= j < |names| ==>
              t.diners[j] == Diner(names[j], Thinking, Starting, false) && !t.taken[j]
  {
    Table(seq(|names|, i requires 0 <= i < |names| => Diner(names[i], Thinking, Starting, false)),
          seq(|names|, i => false))
  }

  /** A fresh table satisfies the invariant: nobody holds a fork and no fork is taken. */
  lemma InitialInvariant(names: seq<string>)
    ensures Invariant(Initial(names))
  {
    var t := Initial(names);
    forall j | 0 <= j < |t.taken|
      ensures ForkOwned(t, j)
    {
      assert t.diners[LeftUser(j, |t.taken|)].state == Thinking;
    }
  }

  datatype Transition = Transition(table: Table, result: StepResult)

  /** Philosopher `i` runs to its next state change or blocking point; nobody else moves. */
  function Step(t: Table, i: nat): (r: Transition)
    requires |t.diners| == |t.taken| && i < |t.diners| && DinerValid(t.diners[i])
    ensures |r.table.diners| == |r.table.taken| == |t.diners|
    ensures forall j :: 0 <= j < |t.diners| && j != i ==> r.table.diners[j] == t.diners[j]
    ensures r.table.diners[i].name == t.diners[i].name
    ensures r.table.diners[i].interrupted == t.diners[i].interrupted
    ensures forall j :: 0 <= j < |t.taken| && j != i && j != LeftOf(i, |t.taken|) ==>
              r.table.taken[j] == t.taken[j]
  {
    var n := |t.diners|;
    var d := t.diners[i];
    var l := LeftOf(i, n);
    var m := NextMove(d.name, d.state, d.phase, d.interrupted, t.taken[i], t.taken[l]);
    Transition(
      Table(t.diners[i := d.(state := m.state, phase := m.phase)],
            seq(n, j requires 0 <= j < n => ForkAfter(t.taken[j], j == i, j == l, m.action))),
      m.result)
  }

  /** A step that blocks changes nothing. */
  lemma BlockedChangesNothing(t: Table, i: nat)
    requires |t.diners| == |t.taken| && i < |t.diners| && DinerValid(t.diners[i])
    requires Step(t, i).result.Blocked?
    ensures Step(t, i).table == t
  {
    var r := Step(t, i).table;
    assert r.diners == t.diners;
    assert r.taken == t.taken;
  }

  /** A step leaves every thread at a point of its loop. */
  lemma StepKeepsShape(t: Table, i: nat)
    requires Shaped(t) && i < |t.diners|
    ensures Shaped(Step(t, i).table)
  {
  }

  /** Every step keeps the fork flags in agreement with who holds which fork. */
  lemma StepPreservesInvariant(t: Table, i: nat)
    requires Invariant(t) && i < |t.diners|
    ensures Invariant(Step(t, i).table)
  {
    var n := |t.diners|;
    var d := t.diners[i];
    var l := LeftOf(i, n);
    var m := NextMove(d.name, d.state, d.phase, d.interrupted, t.taken[i], t.taken[l]);
    var u := Step(t, i).table;
    assert u.diners[i].state == m.state;
    forall j | 0 <= j < n
      ensures ForkOwned(u, j)
    {
      var k := LeftUser(j, n);
      LeftOfLeftUser(i, j, n);
      assert ForkOwned(t, j);
      if j != i && k != i {
        assert u.taken[j] == t.taken[j];
      } else {
        assert ForkOwned(t, i);
        assert ForkOwned(t, l);
      }
    }
  }

  /** Every thread is interrupted, as `stop()` does; nothing else changes. */
  function InterruptAll(t: Table): (r: Table)
    ensures |r.diners| == |t.diners| && r.taken == t.taken
    ensures forall i :: 0 <= i < |t.diners| ==>
              r.diners[i] == t.diners[i].(interrupted := true)
  {
    Table(seq(|t.diners|, i requires 0 <= i < |t.diners| => t.diners[i].(interrupted := true)),
          t.taken)
  }

  lemma InterruptAllPreservesInvariant(t: Table)
    requires Invariant(t)
    ensures Invariant(InterruptAll(t))
  {
    var r := InterruptAll(t);
    forall j | 0 <= j < |t.taken|
      ensures ForkOwned(r, j)
    {
      assert ForkOwned(t, j);
    }
  }

  /** An interrupted thread never waits: it leaves its loop at the next blocking point
      (only a free right fork lets it go one state further first). */
  lemma InterruptedNeverWaits(t: Table, i: nat)
    requires Invariant(t) && i < |t.diners| && t.diners[i].interrupted
    ensures !Step(t, i).result.Blocked?
    ensures Step(t, i).result.Logged? ==>
              t.diners[i].phase == Starting ||
              (t.diners[i].state == Hungry && !t.taken[i])
  {
  }

  /** What `isDeadlocked()` detects: every philosopher holds its right fork only. */
  ghost predicate Deadlocked(t: Table)
  {
    forall i :: 0 <= i < |t.diners| ==> t.diners[i].state == GotRightFork
  }

  /** When everyone holds a right fork, every fork is taken. */
  lemma DeadlockTakesEveryFork(t: Table)
    requires Invariant(t) && Deadlocked(t)
    ensures forall j :: 0 <= j < |t.taken| ==> t.taken[j]
  {
    forall j | 0 <= j < |t.taken|
      ensures t.taken[j]
    {
      assert ForkOwned(t, j);
    }
  }

  /** In a deadlock no running, uninterrupted philosopher can move: its left `get` waits. */
  lemma DeadlockIsStuck(t: Table, i: nat)
    requires Invariant(t) && Deadlocked(t) && i < |t.diners|
    requires t.diners[i].phase == Looping && !t.diners[i].interrupted
    ensures Step(t, i).result == Blocked
    ensures Step(t, i).table == t
  {
    DeadlockTakesEveryFork(t);
    BlockedChangesNothing(t, i);
  }

  /** Conversely, when no philosopher can move, everyone is in GOT_RIGHT_FORK. */
  lemma StuckIsDeadlock(t: Table)
    requires Invariant(t)
    requires forall i :: 0 <= i < |t.diners| ==> Step(t, i).result.Blocked?
    ensures Deadlocked(t)
  {
    var n := |t.diners|;
    forall i | 0 <= i < n
      ensures t.diners[i].state == GotRightFork
    {
      // A waiting hungry philosopher's right fork is held by an eating neighbour,
      // and an eating philosopher never waits.
      assert Step(t, i).result.Blocked?;
      assert ForkOwned(t, i);
      assert Step(t, LeftUser(i, n)).result.Blocked?;
    }
  }

  /** A run of a schedule: the table it ends in and the log lines it produced, in order. */
  datatype Trace = Trace(table: Table, log: seq<string>)

  /** Runs philosophers one step each, in the order the schedule names them. */
  function Run(t: Table, schedule: seq<nat>): (r: Trace)
    requires Shaped(t)
    requires forall k :: 0 <= k < |schedule| ==> schedule[k] < |t.diners|
    ensures Shaped(r.table) && |r.table.diners| == |t.diners|
    decreases |schedule|
  {
    if schedule == [] then Trace(t, [])
    else
      var s := Step(t, schedule[0]);
      StepKeepsShape(t, schedule[0]);
      var rest := Run(s.table, schedule[1..]);
      Trace(rest.table, (if s.result.Logged? then [s.result.entry] else []) + rest.log)
  }

  /** Whatever the schedule, the fork flags stay in agreement with who holds which fork. */
  lemma {:induction false} RunPreservesInvariant(t: Table, schedule: seq<nat>)
    requires Invariant(t)
    requires forall k :: 0 <= k < |schedule| ==> schedule[k] < |t.diners|
    ensures Invariant(Run(t, schedule).table)
    decreases |schedule|
  {
    if schedule != [] {
      StepPreservesInvariant(t, schedule[0]);
      RunPreservesInvariant(Step(t, schedule[0]).table, schedule[1..]);
    }
  }

  /** Splitting a concatenated schedule at its first step; a separate lemma keeps this
      sequence fact out of the larger proof context of `RunAppendFirst`. */
  lemma ScheduleAppend(a: seq<nat>, b: seq<nat>)
    requires a != []
    ensures (a + b)[0] == a[0] && (a + b)[1..] == a[1..] + b
  {
  }

  /** Log concatenation regrouped, for the same reason. */
  lemma LogsAssociate(a: seq<string>, b: seq<string>, c: seq<string>)
    ensures a + (b + c) == (a + b) + c
  {
  }

  /** Running two schedules one after the other is running their concatenation. */
  lemma {:induction false} RunAppend(t: Table, a: seq<nat>, b: seq<nat>)
    requires Shaped(t)
    requires forall k :: 0 <= k < |a| ==> a[k] < |t.diners|
    requires forall k :: 0 <= k < |b| ==> b[k] < |t.diners|
    ensures var first := Run(t, a);
            var second := Run(first.table, b);
            Run(t, a + b) == Trace(second.table, first.log + second.log)
    decreases |a|
  {
    if a == [] {
      assert a + b == b;
    } else {
      StepKeepsShape(t, a[0]);
      RunAppend(Step(t, a[0]).table, a[1..], b);
      RunAppendFirst(t, a, b);
    }
  }

  /** The induction step of `RunAppend`: the first step of `a` is the first step of `a + b`. */
  lemma RunAppendFirst(t: Table, a: seq<nat>, b: seq<nat>)
    requires Shaped(t) && a != []
    requires forall k :: 0 <= k < |a| ==> a[k] < |t.diners|
    requires forall k :: 0 <= k < |b| ==> b[k] < |t.diners|
    requires var u := Step(t, a[0]).table;
             Shaped(u) &&
             var first := Run(u, a[1..]);
             var second := Run(first.table, b);
             Run(u, a[1..] + b) == Trace(second.table, first.log + second.log)
    ensures var first := Run(t, a);
            var second := Run(first.table, b);
            Run(t, a + b) == Trace(second.table, first.log + second.log)
  {
    var s := Step(t, a[0]);
    var e := if s.result.Logged? then [s.result.entry] else [];
    RunFirst(t, a);
    var rest := Run(s.table, a[1..]);
    var second := Run(rest.table, b);
    ScheduleAppend(a, b);
    RunFirst(t, a + b);
    LogsAssociate(e, rest.log, second.log);
  }

  // The four moves of the loop and the first announcement, each as the table it leaves.

  lemma StepAnnounce(t: Table, i: nat)
    requires |t.diners| == |t.taken| && i < |t.diners| && DinerValid(t.diners[i])
    requires t.diners[i].phase == Starting
    ensures Step(t, i) == Transition(Table(t.diners[i := t.diners[i].(phase := Looping)], t.taken),
                                     Logged(LogEntry(t.diners[i].name, Thinking)))
  {
    assert Step(t, i).table.taken == t.taken;
  }

  lemma StepToHungry(t: Table, i: nat)
    requires |t.diners| == |t.taken| && i < |t.diners|
    requires t.diners[i].phase == Looping && t.diners[i].state == Thinking
    requires !t.diners[i].interrupted
    ensures Step(t, i) == Transition(Table(t.diners[i := t.diners[i].(state := Hungry)], t.taken),
                                     Logged(LogEntry(t.diners[i].name, Hungry)))
  {
    assert Step(t, i).table.taken == t.taken;
  }

  lemma StepToGotRightFork(t: Table, i: nat)
    requires |t.diners| == |t.taken| && i < |t.diners|
    requires t.diners[i].phase == Looping && t.diners[i].state == Hungry && !t.taken[i]
    ensures Step(t, i) ==
            Transition(Table(t.diners[i := t.diners[i].(state := GotRightFork)], t.taken[i := true]),
                       Logged(LogEntry(t.diners[i].name, GotRightFork)))
  {
    assert Step(t, i).table.taken == t.taken[i := true];
  }

  lemma StepToEating(t: Table, i: nat)
    requires |t.diners| == |t.taken| && i < |t.diners|
    requires t.diners[i].phase == Looping && t.diners[i].state == GotRightFork
    requires !t.diners[i].interrupted && !t.taken[LeftOf(i, |t.taken|)]
    ensures Step(t, i) ==
            Transition(Table(t.diners[i := t.diners[i].(state := Eating)],
                             t.taken[LeftOf(i, |t.taken|) := true]),
                       Logged(LogEntry(t.diners[i].name, Eating)))
  {
    assert Step(t, i).table.taken == t.taken[LeftOf(i, |t.taken|) := true];
  }

  lemma StepToThinking(t: Table, i: nat)
    requires |t.diners| == |t.taken| && i < |t.diners|
    requires t.diners[i].phase == Looping && t.diners[i].state == Eating
    requires !t.diners[i].interrupted
    ensures Step(t, i) ==
            Transition(Table(t.diners[i := t.diners[i].(state := Thinking)],
                             t.taken[i := false][LeftOf(i, |t.taken|) := false]),
                       Logged(LogEntry(t.diners[i].name, Thinking)))
  {
    assert Step(t, i).table.taken == t.taken[i := false][LeftOf(i, |t.taken|) := false];
  }

  /** `Run` on a non-empty schedule: the first step, then the rest. */
  lemma RunFirst(t: Table, s: seq<nat>)
    requires Shaped(t) && s != []
    requires forall k :: 0 <= k < |s| ==> s[k] < |t.diners|
    ensures var st := Step(t, s[0]);
            Shaped(st.table) &&
            Run(t, s) == (var r := Run(st.table, s[1..]);
                          Trace(r.table, (if st.result.Logged? then [st.result.entry] else []) + r.log))
  {
    StepKeepsShape(t, s[0]);
  }

  /** A thinking philosopher whose two forks are free completes one round of the loop
      when it runs four times in a row: it announces hungry, got right fork, eating and
      thinking, and leaves the table exactly as it found it. */
  lemma OneRound(t: Table, i: nat)
    requires Shaped(t) && i < |t.diners| && |t.diners| >= 2
    requires t.diners[i].phase == Looping && t.diners[i].state == Thinking
    requires !t.diners[i].interrupted
    requires !t.taken[i] && !t.taken[LeftOf(i, |t.diners|)]
    ensures var name := t.diners[i].name;
            Run(t, [i, i, i, i]) ==
            Trace(t, [LogEntry(name, Hungry), LogEntry(name, GotRightFork),
                      LogEntry(name, Eating), LogEntry(name, Thinking)])
  {
    var name := t.diners[i].name;
    StepToHungry(t, i);
    var t1 := Step(t, i).table;
    StepToGotRightFork(t1, i);
    var t2 := Step(t1, i).table;
    StepToEating(t2, i);
    var t3 := Step(t2, i).table;
    StepToThinking(t3, i);
    assert Step(t3, i).table == t by {
      assert Step(t3, i).table.diners == t.diners;
      assert Step(t3, i).table.taken == t.taken;
    }
    RunFirst(t3, [i]);
    assert Run(t3, [i]) == Trace(t, [LogEntry(name, Thinking)]);
    RunFirst(t2, [i, i]);
    assert [i, i][1..] == [i];
    assert Run(t2, [i, i]) == Trace(t, [LogEntry(name, Eating), LogEntry(name, Thinking)]);
    RunFirst(t1, [i, i, i]);
    assert [i, i, i][1..] == [i, i];
    assert Run(t1, [i, i, i]) ==
           Trace(t, [LogEntry(name, GotRightFork), LogEntry(name, Eating), LogEntry(name, Thinking)]);
    RunFirst(t, [i, i, i, i]);
    assert [i, i, i, i][1..] == [i, i, i];
  }

  /** Everybody has run `start()`'s first three steps in order, for the first `k` seats:
      those hold their right fork, the others have not announced anything yet. */
  function HalfSeated(names: seq<string>, k: nat): (t: Table)
    requires k <= |names|
    ensures |t.diners| == |t.taken| == |names|
  {
    Table(seq(|names|, j requires 0 <= j < |names| =>
                if j < k then Diner(names[j], GotRightFork, Looping, false)
                else Diner(names[j], Thinking, Starting, false)),
          seq(|names|, j => j < k))
  }

  /** The schedule that lets philosopher 0 run three times, then philosopher 1, and so on. */
  function ThreeEach(k: nat): (s: seq<nat>)
    ensures |s| == 3 * k
    ensures forall m :: 0 <= m < |s| ==> s[m] < k
  {
    if k == 0 then [] else ThreeEach(k - 1) + [k - 1, k - 1, k - 1]
  }

  /** Three steps of the next philosopher in line: it announces thinking and hungry, and
      picks up its right fork, which nobody holds yet. */
  lemma SeatNext(names: seq<string>, k: nat)
    requires k < |names|
    ensures Invariant(HalfSeated(names, k))
    ensures Run(HalfSeated(names, k), [k, k, k]).table == HalfSeated(names, k + 1)
  {
    var n := |names|;
    var t := HalfSeated(names, k);
    forall j | 0 <= j < n
      ensures ForkOwned(t, j)
    {
      var u := LeftUser(j, n);
      assert t.diners[u].state != Eating;
    }
    StepAnnounce(t, k);
    var t1 := Step(t, k).table;
    StepToHungry(t1, k);
    var t2 := Step(t1, k).table;
    StepToGotRightFork(t2, k);
    var t3 := Step(t2, k).table;
    var goal := HalfSeated(names, k + 1);
    assert t3 == goal by {
      assert t3.diners == goal.diners;
      assert t3.taken == goal.taken;
    }
    RunFirst(t2, [k]);
    assert Run(t2, [k]).table == goal;
    RunFirst(t1, [k, k]);
    assert [k, k][1..] == [k];
    assert Run(t1, [k, k]).table == goal;
    RunFirst(t, [k, k, k]);
    assert [k, k, k][1..] == [k, k];
  }

  /** Every prefix of the round-robin schedule seats that many philosophers. */
  lemma {:induction false} ThreeEachSeats(names: seq<string>, k: nat)
    requires k <= |names|
    ensures Run(Initial(names), ThreeEach(k)).table == HalfSeated(names, k)
  {
    if k == 0 {
      NobodySeated(names);
    } else {
      ThreeEachSeats(names, k - 1);
      SeatOneMore(names, k);
    }
  }

  /** Before anyone runs, nobody holds a fork. */
  lemma NobodySeated(names: seq<string>)
    ensures Run(Initial(names), ThreeEach(0)).table == HalfSeated(names, 0)
  {
    var t0 := Initial(names);
    assert t0.diners == HalfSeated(names, 0).diners;
    assert t0.taken == HalfSeated(names, 0).taken;
  }

  /** The induction step of `ThreeEachSeats`. */
  lemma SeatOneMore(names: seq<string>, k: nat)
    requires 0 < k <= |names|
    requires Run(Initial(names), ThreeEach(k - 1)).table == HalfSeated(names, k - 1)
    ensures Run(Initial(names), ThreeEach(k)).table == HalfSeated(names, k)
  {
    var t0 := Initial(names);
    var prefix := ThreeEach(k - 1);
    var last := [k - 1, k - 1, k - 1];
    assert ThreeEach(k) == ThreeEach(k - 1) + [k - 1, k - 1, k - 1];
    SeatNext(names, k - 1);
    var mid := Run(t0, prefix).table;
    assert Run(mid, last).table == HalfSeated(names, k);
    RunAppend(t0, prefix, last);
  }

  /** The deadlock is reachable at every table, a lone philosopher included (its left and
      right fork are the same fork): from a fresh start, let each philosopher in turn run
      until it holds its right fork. */
  lemma DeadlockReachable(names: seq<string>)
    ensures var t := Run(Initial(names), ThreeEach(|names|)).table;
            Deadlocked(t) && forall j :: 0 <= j < |t.taken| ==> t.taken[j]
  {
    ThreeEachSeats(names, |names|);
  }
}
