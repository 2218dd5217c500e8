/** Forks and philosophers: the two kinds of object a simulation is made of. */
module Entities {
  import opened States

  /** A fork: one flag, taken or on the table. */
  class Fork {
    var taken: bool

    constructor ()
      ensures !taken
    {
      taken := false;
    }

    /** Puts the fork back on the table, whatever its flag was. */
    method Put()
      modifies this
      ensures !taken
    {
      taken := false;
    }

    /** One attempt to pick the fork up. The source waits while the fork is taken;
        here `acquired == false` means the caller is still waiting and nothing changed. */
    method Get() returns (acquired: bool)
      modifies this
      ensures acquired == !old(taken)
      ensures taken
    {
      if taken {
        acquired := false;
      } else {
        taken := true;
        acquired := true;
      }
    }

    /** Reads the flag. */
    method IsTaken() returns (b: bool)
      ensures b == taken
    {
      b := taken;
    }
  }

  /** Where a philosopher's thread is in its run loop. */
  datatype Phase =
    | Starting    // started, has not announced thinking yet
    | Looping     // inside the loop; the state field tells where
    | Terminated  // the loop was left through an interruption

  /** What one step of a philosopher's thread did. */
  datatype StepResult =
    | Logged(entry: string)  // moved to a new state and produced this log line
    | Blocked                // waits for a fork that is taken; nothing changed
    | Finished               // the thread has left its loop

  /** What one step does to the philosopher's two forks. */
  datatype Action = Keep | TakeRight | TakeLeft | PutBoth

  datatype Move = Move(state: PhilosopherState, phase: Phase, action: Action, result: StepResult)

  /** The log line written on entering state `s` (`GetName(s) == Label(s)`, as
      `GetNameValues` shows). */
  function LogEntry(name: string, s: PhilosopherState): string
  {
    name + ": " + Label(s) + "\n"
  }

  /** The fixed cycle of the run loop. */
  function Successor(s: PhilosopherState): (r: PhilosopherState)
    requires s != GotLeftFork
    ensures r != GotLeftFork
  {
    match s
    case Thinking => Hungry
    case Hungry => GotRightFork
    case GotRightFork => Eating
    case Eating => Thinking
  }

  /** Four transitions bring every reachable state back to itself, through all the others. */
  lemma CycleOfFour(s: PhilosopherState)
    requires s != GotLeftFork
    ensures Successor(Successor(Successor(Successor(s)))) == s
    ensures {s, Successor(s), Successor(Successor(s)), Successor(Successor(Successor(s)))}
            == {Thinking, Hungry, GotRightFork, Eating}
  {
  }

  /** One step of a philosopher's thread: from one state change to the next, or to a
      blocking point. Sleeps take no time here; an interruption is seen at every sleep,
      and at a `get` only when the fork is taken (that is when the thread waits). */
  function NextMove(name: string, state: PhilosopherState, phase: Phase, interrupted: bool,
                    rightTaken: bool, leftTaken: bool): (m: Move)
    requires state != GotLeftFork
    requires phase == Starting ==> state == Thinking
  {
    var stop := Move(state, Terminated, Keep, Finished);
    match phase
    case Terminated => Move(state, phase, Keep, Finished)
    case Starting => Move(Thinking, Looping, Keep, Logged(LogEntry(name, Thinking)))
    case Looping =>
      match state
      case Thinking =>
        if interrupted then stop
        else Move(Hungry, Looping, Keep, Logged(LogEntry(name, Hungry)))
      case Hungry =>
        if !rightTaken then Move(GotRightFork, Looping, TakeRight, Logged(LogEntry(name, GotRightFork)))
        else if interrupted then stop
        else Move(state, phase, Keep, Blocked)
      case GotRightFork =>
        if interrupted then stop
        else if !leftTaken then Move(Eating, Looping, TakeLeft, Logged(LogEntry(name, Eating)))
        else Move(state, phase, Keep, Blocked)
      case Eating =>
        if interrupted then stop
        else Move(Thinking, Looping, PutBoth, Logged(LogEntry(name, Thinking)))
  }

  /** What a step does, case by case: no step enters GOT_LEFT_FORK; a step that logs
      moves one place along the cycle (or announces thinking first); a step blocks exactly
      when an uninterrupted running thread finds the fork it needs taken; it finishes
      exactly when the thread has ended or sees its interruption; and the forks are
      touched only on the way into GOT_RIGHT_FORK, EATING and back to THINKING. */
  lemma NextMoveCases(name: string, state: PhilosopherState, phase: Phase, interrupted: bool,
                      rightTaken: bool, leftTaken: bool)
    requires state != GotLeftFork
    requires phase == Starting ==> state == Thinking
    ensures var m := NextMove(name, state, phase, interrupted, rightTaken, leftTaken);
            m.state != GotLeftFork && m.phase != Starting &&
            (m.result.Logged? ==>
               m.phase == Looping &&
               m.state == (if phase == Starting then Thinking else Successor(state)) &&
               m.result.entry == LogEntry(name, m.state)) &&
            (!m.result.Logged? ==> m.state == state && m.action == Keep) &&
            (m.result.Blocked? <==>
               phase == Looping && !interrupted &&
               ((state == Hungry && rightTaken) || (state == GotRightFork && leftTaken))) &&
            (m.result.Blocked? ==> m.phase == phase) &&
            (m.result.Finished? <==>
               phase == Terminated ||
               (phase == Looping && interrupted && (state != Hungry || rightTaken))) &&
            (m.result.Finished? ==> m.phase == Terminated) &&
            (m.action == TakeRight <==> phase == Looping && state == Hungry && !rightTaken) &&
            (m.action == TakeLeft <==>
               phase == Looping && state == GotRightFork && !interrupted && !leftTaken) &&
            (m.action == PutBoth <==> phase == Looping && state == Eating && !interrupted)
  {
  }

  /** A fork's flag after an action, given whether it is the right and/or the left fork
      of the philosopher who acted. */
  function ForkAfter(taken: bool, isRight: bool, isLeft: bool, a: Action): bool
  {
    match a
    case Keep => taken
    case TakeRight => if isRight then true else taken
    case TakeLeft => if isLeft then true else taken
    case PutBoth => if isRight || isLeft then false else taken
  }

  /** A philosopher together with the thread that runs it. */
  class Philosopher {
    const name: string
    const leftFork: Fork
    const rightFork: Fork
    var state: PhilosopherState
    var phase: Phase
    var interrupted: bool

    /** The run loop never enters GOT_LEFT_FORK, and announces nothing before it starts. */
    ghost predicate Valid()
      reads this
    {
      state != GotLeftFork && (phase == Starting ==> state == Thinking)
    }

    constructor (name: string, leftFork: Fork, rightFork: Fork)
      ensures Valid()
      ensures this.name == name && this.leftFork == leftFork && this.rightFork == rightFork
      ensures state == Thinking && phase == Starting && !interrupted
    {
      this.name := name;
      this.leftFork := leftFork;
      this.rightFork := rightFork;
      state := Thinking;
      phase := Starting;
      interrupted := false;
    }

    /** Changes the state and gives the log line announcing it. */
    method SetPhilosopherState(s: PhilosopherState) returns (entry: string)
      modifies this`state
      ensures state == s
      ensures entry == LogEntry(name, s)
    {
      entry := name + ": " + GetName(s) + "\n";
      GetNameValues(s);
      state := s;
    }

    /** Interrupts the philosopher's thread. */
    method Interrupt()
      modifies this`interrupted
      ensures interrupted
    {
      interrupted := true;
    }

    /** The name given at construction. */
    function ToString(): (s: string)
      ensures s == name
    {
      name
    }

    /** Runs the thread up to its next state change or blocking point. */
    method Step() returns (result: StepResult)
      requires Valid()
      modifies this`state, this`phase, leftFork, rightFork
      ensures Valid() && interrupted == old(interrupted)
      ensures var m := NextMove(name, old(state), old(phase), interrupted,
                                old(rightFork.taken), old(leftFork.taken));
              state == m.state && phase == m.phase && result == m.result &&
              rightFork.taken == ForkAfter(old(rightFork.taken), true, rightFork == leftFork, m.action) &&
              leftFork.taken == ForkAfter(old(leftFork.taken), leftFork == rightFork, true, m.action)
    {
      ghost var m := NextMove(name, state, phase, interrupted, rightFork.taken, leftFork.taken);
      var entry: string;
      if phase == Terminated {
        result := Finished;
      } else if phase == Starting {
        entry := SetPhilosopherState(Thinking);
        phase := Looping;
        result := Logged(entry);
      } else if state == Thinking {
        if interrupted {
          phase := Terminated;
          result := Finished;
        } else {
          entry := SetPhilosopherState(Hungry);
          result := Logged(entry);
        }
      } else if state == Hungry {
        var acquired := rightFork.Get();
        if acquired {
          entry := SetPhilosopherState(GotRightFork);
          result := Logged(entry);
        } else if interrupted {
          phase := Terminated;
          result := Finished;
        } else {
          result := Blocked;
        }
      } else if state == GotRightFork {
        if interrupted {
          phase := Terminated;
          result := Finished;
        } else {
          var acquired := leftFork.Get();
          if acquired {
            entry := SetPhilosopherState(Eating);
            result := Logged(entry);
          } else {
            result := Blocked;
          }
        }
      } else {
        if interrupted {
          phase := Terminated;
          result := Finished;
        } else {
          rightFork.Put();
          leftFork.Put();
          entry := SetPhilosopherState(Thinking);
          result := Logged(entry);
        }
      }
    }
  }
}
