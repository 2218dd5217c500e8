/** The coordinator: owns the philosophers and forks, wires them into a ring, detects the
    deadlock and buffers the log. Threads are replaced by an explicit scheduler: `Step(i)`
    lets philosopher `i` run to its next state change or blocking point. */
module Simulation {
  import opened States
  import opened Names
  import opened Entities
  import opened Ring

  /** All entries joined, oldest first. */
  function Concat(entries: seq<string>): string
  {
    if entries == [] then "" else entries[0] + Concat(entries[1..])
  }

  /** Joining two runs of entries joins their texts. */
  lemma {:induction false} ConcatAppend(a: seq<string>, b: seq<string>)
    ensures Concat(a + b) == Concat(a) + Concat(b)
  {
    if a == [] {
      assert a + b == b;
    } else {
      assert (a + b)[1..] == a[1..] + b;
      ConcatAppend(a[1..], b);
    }
  }

  /** The names a fresh provider hands out for a population of `count`. */
  function StartNames(count: nat): seq<string>
  {
    seq(count, k requires 0 <= k < count => NameOfCall(k + 1))
  }

  /** No two philosophers of one population share a name. */
  lemma StartNamesDistinct(count: nat, i: nat, j: nat)
    requires i < j < count
    ensures StartNames(count)[i] != StartNames(count)[j]
  {
    assert StartNames(count)[i] == NameOfCall(i + 1);
    assert StartNames(count)[j] == NameOfCall(j + 1);
    NamesDistinct(i + 1, j + 1);
  }

  class SimulationState {
    var speed: int
    var frozen: bool
    var philosophers: array<Philosopher>
    var forks: array<Fork>
    var philosophersCount: int
    var log: seq<string>

    /** The table the objects stand for. */
    ghost function Snapshot(): Table
      reads this`philosophers, this`forks, philosophers, forks, philosophers[..], forks[..]
    {
      var ps := philosophers;
      var fs := forks;
      Table(seq(ps.Length, i requires 0 <= i < ps.Length reads ps, ps[..] =>
                  Diner(ps[i].name, ps[i].state, ps[i].phase, ps[i].interrupted)),
            seq(fs.Length, i requires 0 <= i < fs.Length reads fs, fs[..] => fs[i].taken))
    }

    /** The ring wiring of `start()`: philosopher `i` between fork `i` on its right and
        fork `LeftOf(i, n)` on its left, with no object used twice. */
    ghost predicate Wired()
      reads this`philosophers, this`forks, philosophers, forks
    {
      philosophers.Length == forks.Length &&
      (forall i {:trigger philosophers[i]} :: 0 <= i < philosophers.Length ==>
         philosophers[i].rightFork == forks[i] &&
         philosophers[i].leftFork == forks[LeftOf(i, forks.Length)]) &&
      (forall i, j :: 0 <= i < j < philosophers.Length ==> philosophers[i] != philosophers[j]) &&
      (forall i, j :: 0 <= i < j < forks.Length ==> forks[i] != forks[j])
    }

    /** The wiring, and the table invariant of what the objects hold. */
    ghost predicate Valid()
      reads this`philosophers, this`forks, philosophers, forks, philosophers[..], forks[..]
    {
      Wired() && Invariant(Snapshot())
    }

    /** The defaults: speed 50, five philosophers, not frozen, an empty log. */
    constructor ()
      ensures Valid()
      ensures speed == 50 && !frozen && philosophersCount == 5 && log == []
      ensures philosophers.Length == 0 && forks.Length == 0
    {
      speed := 50;
      frozen := false;
      philosophersCount := 5;
      log := [];
      philosophers := new Philosopher[0];
      forks := new Fork[0];
    }

    /** Builds `philosophersCount` free forks and as many philosophers, philosopher `i`
        between fork `i` (right) and fork `(i - 1 + count) % count` (left), named by a
        fresh provider, and starts their threads. A negative count fails on the first
        array allocation, before any field changes. */
    method Start() returns (ok: bool)
      requires Valid()
      modifies this
      ensures ok == (philosophersCount >= 0)
      ensures speed == old(speed) && frozen == old(frozen) && log == old(log)
      ensures philosophersCount == old(philosophersCount)
      ensures Valid()
      ensures !ok ==> philosophers == old(philosophers) && forks == old(forks)
      ensures ok ==> fresh(philosophers) && fresh(forks) && philosophers.Length == philosophersCount
      ensures ok ==> forall i :: 0 <= i < philosophers.Length ==> fresh(philosophers[i]) && fresh(forks[i])
      ensures ok ==> Snapshot() == Initial(StartNames(philosophersCount))
    {
      var count := philosophersCount;
      if count < 0 {
        return false;
      }
      var fs := NewForks(count);
      var ps := NewPhilosophers(fs);
      forks := new Fork[count](i requires 0 <= i < count => fs[i]);
      philosophers := new Philosopher[count](i requires 0 <= i < count => ps[i]);
      ok := true;
      assert Snapshot().diners == Initial(StartNames(count)).diners;
      assert Snapshot().taken == Initial(StartNames(count)).taken;
      InitialInvariant(StartNames(count));
    }

    /** Philosopher `k` of a new population: wired between fork `k` and its left
        neighbour, named by the `k + 1`-th call, about to announce thinking. */
    static ghost predicate Seated(p: Philosopher, fs: seq<Fork>, k: nat)
      reads p
    {
      k < |fs| && p.Valid() &&
      p.rightFork == fs[k] && p.leftFork == fs[LeftOf(k, |fs|)] &&
      p.name == NameOfCall(k + 1) &&
      p.state == Thinking && p.phase == Starting && !p.interrupted
    }

    /** The first loop of `start()`: `count` new forks, all on the table. */
    static method NewForks(count: nat) returns (fs: seq<Fork>)
      ensures |fs| == count
      ensures forall k :: 0 <= k < count ==> fresh(fs[k]) && !fs[k].taken
      ensures forall j, k :: 0 <= j < k < count ==> fs[j] != fs[k]
    {
      fs := [];
      var currentFork := 0;
      while currentFork < count
        invariant 0 <= currentFork <= count && |fs| == currentFork
        invariant forall k :: 0 <= k < currentFork ==> fresh(fs[k]) && !fs[k].taken
        invariant forall j, k :: 0 <= j < k < currentFork ==> fs[j] != fs[k]
      {
        var fork := new Fork();
        fs := fs + [fork];
        currentFork := currentFork + 1;
      }
    }

    /** The second loop of `start()`: one new philosopher per fork, wired into the ring
        and named by a fresh provider. The forks are not touched. */
    static method NewPhilosophers(fs: seq<Fork>) returns (ps: seq<Philosopher>)
      ensures |ps| == |fs|
      ensures forall k :: 0 <= k < |fs| ==> fresh(ps[k]) && Seated(ps[k], fs, k)
      ensures forall j, k :: 0 <= j < k < |fs| ==> ps[j] != ps[k]
    {
      var count := |fs|;
      var nameProvider := new PhilosopherNameProvider();
      ps := [];
      var currentPhilosopher := 0;
      while currentPhilosopher < count
        invariant 0 <= currentPhilosopher <= count && |ps| == currentPhilosopher
        invariant fresh(nameProvider)
        invariant nameProvider.Valid() && nameProvider.currentIndex == currentPhilosopher - 1
        invariant forall k :: 0 <= k < currentPhilosopher ==> fresh(ps[k]) && Seated(ps[k], fs, k)
        invariant forall j, k :: 0 <= j < k < currentPhilosopher ==> ps[j] != ps[k]
      {
        var leftFork := fs[(currentPhilosopher - 1 + count) % count];
        var rightFork := fs[currentPhilosopher];
        var name := nameProvider.NextName();
        var philosopher := new Philosopher(name, leftFork, rightFork);
        assert Seated(philosopher, fs, currentPhilosopher);
        ps := ps + [philosopher];
        currentPhilosopher := currentPhilosopher + 1;
      }
    }

    /** Interrupts every philosopher's thread. */
    method Stop()
      requires Valid()
      modifies philosophers[..]
      ensures Valid()
      ensures Snapshot() == InterruptAll(old(Snapshot()))
    {
      InterruptThreads(philosophers);
      ghost var before := old(Snapshot());
      ghost var now := Snapshot();
      assert now.taken == before.taken;
      assert now.diners == InterruptAll(before).diners;
      InterruptAllPreservesInvariant(before);
    }

    /** The loop of `stop()`: every thread interrupted, nothing else touched. */
    static method InterruptThreads(ps: array<Philosopher>)
      modifies ps[..]
      ensures forall j :: 0 <= j < ps.Length ==> ps[j].interrupted
      ensures forall j :: 0 <= j < ps.Length ==>
                ps[j].state == old(ps[j].state) && ps[j].phase == old(ps[j].phase)
    {
      for i := 0 to ps.Length
        invariant forall j :: 0 <= j < i ==> ps[j].interrupted
        invariant forall j :: 0 <= j < ps.Length ==>
                    ps[j].state == old(ps[j].state) && ps[j].phase == old(ps[j].phase)
      {
        ps[i].Interrupt();
      }
    }

    /** Restarts with a new population size: interrupts the old threads, stores the
        count, and starts again. A negative count is stored, then `start()` fails. */
    method ChangeNumberOfPhilosophers(n: int) returns (ok: bool)
      requires Valid()
      modifies this, philosophers[..]
      ensures Valid()
      ensures philosophersCount == n && ok == (n >= 0)
      ensures speed == old(speed) && frozen == old(frozen) && log == old(log)
      ensures ok ==> fresh(philosophers) && fresh(forks) && philosophers.Length == n
      ensures ok ==> Snapshot() == Initial(StartNames(n))
      ensures !ok ==> philosophers == old(philosophers) && forks == old(forks) &&
                      Snapshot() == InterruptAll(old(Snapshot()))
    {
      Stop();
      ghost var stopped := Snapshot();
      philosophersCount := n;
      assert Snapshot() == stopped;
      ok := Start();
    }

    /** Lets philosopher `i` run to its next state change or blocking point; the line it
        announces is appended to the log. Nothing else moves. */
    method Step(i: nat) returns (result: StepResult)
      requires Valid() && i < philosophers.Length
      modifies this`log, philosophers[i], forks[i], forks[LeftOf(i, forks.Length)]
      ensures Valid()
      ensures philosophers == old(philosophers) && forks == old(forks)
      ensures Transition(Snapshot(), result) == Ring.Step(old(Snapshot()), i)
      ensures log == old(log) + (if result.Logged? then [result.entry] else [])
    {
      result := Advance(i);
      ghost var t := Snapshot();
      assert Wired();
      if result.Logged? {
        Log(result.entry);
      }
      assert Wired();
      assert Snapshot() == t;
    }

    /** The philosopher's part of `Step`: the table moves as `Ring.Step` says. */
    method Advance(i: nat) returns (result: StepResult)
      requires Valid() && i < philosophers.Length
      modifies philosophers[i], forks[i], forks[LeftOf(i, forks.Length)]
      ensures Valid()
      ensures Transition(Snapshot(), result) == Ring.Step(old(Snapshot()), i)
    {
      ghost var before := Snapshot();
      var p := philosophers[i];
      assert DinerValid(before.diners[i]);
      result := p.Step();
      ghost var after := Ring.Step(before, i);
      assert Snapshot().diners == after.table.diners by {
        forall j | 0 <= j < philosophers.Length
          ensures Snapshot().diners[j] == after.table.diners[j]
        {
          if j != i {
            assert philosophers[j] != philosophers[i];
          }
        }
      }
      assert Snapshot().taken == after.table.taken by {
        var l := LeftOf(i, forks.Length);
        forall j | 0 <= j < forks.Length
          ensures Snapshot().taken[j] == after.table.taken[j]
        {
          if j != i && j != l {
            assert forks[j] != forks[i] && forks[j] != forks[l];
          } else if i != l {
            assert forks[i] != forks[l];
          }
        }
      }
      StepPreservesInvariant(before, i);
    }

    /** True exactly when every philosopher holds its right fork and nothing else
        (and so for an empty table). */
    method IsDeadlocked() returns (deadlock: bool)
      requires Valid()
      ensures deadlock == Deadlocked(Snapshot())
    {
      deadlock := true;
      for i := 0 to philosophers.Length
        invariant deadlock == forall j :: 0 <= j < i ==> philosophers[j].state == GotRightFork
      {
        deadlock := deadlock && philosophers[i].state == GotRightFork;
      }
      assert forall j :: 0 <= j < philosophers.Length ==>
               Snapshot().diners[j].state == philosophers[j].state;
    }

    /** Appends one entry at the tail of the queue. */
    method Log(entry: string)
      modifies this`log
      ensures log == old(log) + [entry]
    {
      log := log + [entry];
    }

    /** Drains the queue, oldest entry first, into one text. */
    method GetLog() returns (text: string)
      modifies this`log
      ensures text == Concat(old(log))
      ensures log == []
    {
      text := "";
      while log != []
        invariant text + Concat(log) == Concat(old(log))
        decreases |log|
      {
        text := text + log[0];
        log := log[1..];
      }
    }

    method SetSpeed(speed: int)
      modifies this`speed
      ensures this.speed == speed
    {
      this.speed := speed;
    }

    /** Sets the flag; no philosopher reads it. */
    method Freeze()
      modifies this`frozen
      ensures frozen
    {
      frozen := true;
    }

    method Thaw()
      modifies this`frozen
      ensures !frozen
    {
      frozen := false;
    }

    /** The pause between picking up the right and the left fork, in milliseconds. */
    function FolkGapTime(): (ms: int)
      ensures ms == 500
    {
      500
    }
  }
}
