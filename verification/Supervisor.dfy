/** Running a supervisord program once, among other clients that may start or stop it (RunOnce in supervisor). */
module Supervisor {
  import opened Wrappers

  datatype State = Stopped | Starting | Running | Backoff | Stopping | Exited | Fatal | Unknown

  // A run of the program: still going on, or ended in a state with an exit status.
  datatype Run = Live | Ended(state: State, status: int)

  // supervisord's own account of the program, and the history of its runs.
  datatype Program = Program(state: State, status: int, runs: seq<Run>)

  predicate Going(s: State) {
    s in {Starting, Running, Stopping}
  }

  // A program that is starting, running or stopping has its last run live; one that exited tells how its last
  // run ended.
  predicate Valid(p: Program) {
    && (Going(p.state) ==> p.runs != [] && p.runs[|p.runs| - 1] == Live)
    && (p.state.Exited? ==> p.runs != [] && p.runs[|p.runs| - 1] == Ended(Exited, p.status))
    && (forall i | 0 <= i < |p.runs| - 1 :: p.runs[i].Ended?)
  }

  // What supervisord, the program and other clients do between two calls.
  datatype Move =
    | Begin(slow: bool)       // a start, by another client or as a retry, of a program that is not going
    | Settle                  // past its startsecs
    | Exit(status: int)
    | Quit                    // ended before its startsecs were over
    | GiveUp
    | Stop
    | Gone

  function EndOf(p: Program, state: State, status: int): Program
    requires Valid(p) && Going(p.state)
  {
    Program(state, status, p.runs[|p.runs| - 1 := Ended(state, status)])
  }

  function Begun(p: Program, slow: bool): Program {
    Program(if slow then Starting else Running, 0, p.runs + [Live])
  }

  function Moved(p: Program, m: Move): (q: Program)
    requires Valid(p)
    ensures Valid(q)
  {
    match m
    case Begin(slow) =>
      if Going(p.state) || (p.runs != [] && p.runs[|p.runs| - 1].Live?) then p else Begun(p, slow)
    case Settle => if p.state.Starting? then p.(state := Running) else p
    case Exit(status) => if p.state.Running? then EndOf(p, Exited, status) else p
    case Quit => if p.state.Starting? then EndOf(p, Backoff, p.status) else p
    case GiveUp => if p.state.Backoff? then p.(state := Fatal) else p
    case Stop => if p.state in {Starting, Running} then p.(state := Stopping) else p
    case Gone => if p.state.Stopping? then EndOf(p, Stopped, p.status) else p
  }

  function AllMoved(p: Program, moves: seq<Move>): (q: Program)
    requires Valid(p)
    ensures Valid(q)
    decreases |moves|
  {
    if moves == [] then p else AllMoved(Moved(p, moves[0]), moves[1..])
  }

  // The runs of later are those of before, further on: none is taken back, none that had ended ends otherwise.
  predicate Later(before: seq<Run>, later: seq<Run>) {
    |before| <= |later| && forall i | 0 <= i < |before| && before[i].Ended? :: later[i] == before[i]
  }

  lemma {:induction false} MovesAreLater(p: Program, moves: seq<Move>)
    requires Valid(p)
    ensures Later(p.runs, AllMoved(p, moves).runs)
    decreases |moves|
  {
    if moves != [] {
      MovesAreLater(Moved(p, moves[0]), moves[1..]);
    }
  }

  datatype Answer = Started | AlreadyStarted | Fault

  datatype Info = Info(state: State, status: int)

  datatype Failure =
    | CallFailed
    | StartFailed
    | StillGoing(state: State)
    | InBackoff
    | NotFree
    | EndedOtherwise(info: Info)

  // What happens before a call, how long it takes beyond the least there is, whether it gets an answer, and how a
  // start by it goes.
  datatype Turn = Turn(moves: seq<Move>, takes: nat, answers: bool, spawns: bool, slow: bool)

  // In nanoseconds: how long RunOnce goes on, and how often it asks.
  const RUN_ONCE_FOR := 60_000_000_000
  const POLL_EVERY := 50_000_000

  // What a start is refused for: the program is being stopped, its state is not known, a run of it is left over; or it
  // could not be spawned.
  predicate Refused(p: Program, turn: Turn) {
    turn.answers && p.state !in {Starting, Running}
    && (p.state in {Stopping, Unknown} || (p.runs != [] && p.runs[|p.runs| - 1].Live?)
        || (!turn.spawns && p.state == Backoff && p.runs != []))
  }

  class Remote {
    var program: Program
    var calls: nat
    var now: nat
    // The rest of the world, turn by turn.
    const world: nat -> Turn
    // The history: the starts by this client that were taken.
    ghost var taken: nat

    ghost predicate Sound()
      reads this
    {
      Valid(program)
    }

    constructor (program: Program, now: nat, world: nat -> Turn)
      requires Valid(program)
      ensures Sound() && this.program == program && this.now == now && this.world == world && calls == 0 && taken == 0
    {
      this.program, this.now, this.world, calls, taken := program, now, world, 0, 0;
    }

    // One call, which takes some time: first the others move.
    method Wait() returns (turn: Turn)
      requires Sound()
      modifies this`program, this`calls, this`now
      ensures Sound() && calls == old(calls) + 1 && turn == world(old(calls)) && now == old(now) + 1 + turn.takes
      ensures program == AllMoved(old(program), turn.moves) && Later(old(program.runs), program.runs)
    {
      turn := world(calls);
      calls, now := calls + 1, now + 1 + turn.takes;
      MovesAreLater(program, turn.moves);
      program := AllMoved(program, turn.moves);
    }

    method StartProcess() returns (r: Option<Answer>)
      requires Sound()
      modifies this
      ensures Sound() && now > old(now) && calls == old(calls) + 1
      ensures Later(old(program.runs), program.runs)
      ensures r.None? <==> !world(old(calls)).answers
      ensures r == Some(Started) ==> |program.runs| > |old(program.runs)| && program.state in {Starting, Running}
      ensures r == Some(AlreadyStarted) ==> program.state in {Starting, Running, Backoff}
      ensures r == Some(Fault) ==> Refused(program, world(old(calls)))
      ensures taken == old(taken) + if r == Some(Started) then 1 else 0
      ensures var found := AllMoved(old(program), world(old(calls)).moves);
              && (r.None? || r == Some(AlreadyStarted) ==> program == found)
              && (r == Some(AlreadyStarted) <==> r.Some? && found.state in {Starting, Running, Backoff})
    {
      var turn := Wait();
      if !turn.answers {
        return None;
      }
      if program.state in {Starting, Running, Backoff} {
        return Some(AlreadyStarted);
      }
      if program.state in {Stopping, Unknown} || (program.runs != [] && program.runs[|program.runs| - 1].Live?) {
        return Some(Fault);
      }
      program := Begun(program, turn.slow);
      if !turn.spawns {
        program := EndOf(program, Backoff, 0);
        return Some(Fault);
      }
      taken := taken + 1;
      return Some(Started);
    }

    // Asks for the state until the program is not going.
    method WaitEnd(deadline: nat) returns (r: Result<Info, Failure>)
      requires Sound()
      modifies this`program, this`calls, this`now
      ensures Sound() && now > old(now)
      ensures Later(old(program.runs), program.runs)
      ensures r.Ok? ==>
                r.value == Info(program.state, program.status)
                && program.state in {Stopped, Backoff, Exited, Fatal, Unknown}
      ensures r.Err? ==>
                r.error.CallFailed?
                || (r.error == StillGoing(program.state) && now > deadline
                    && program.state in {Starting, Running, Stopping})
      ensures calls > old(calls) && (r == Err(CallFailed) <==> !world(calls - 1).answers)
      ensures forall k | old(calls) <= k < calls - 1 :: world(k).answers
    {
      while true
        invariant Sound() && now >= old(now) && Later(old(program.runs), program.runs)
        invariant calls >= old(calls) && forall k | old(calls) <= k < calls :: world(k).answers
        decreases if now <= deadline then deadline + 1 - now else 0
      {
        var turn := Wait();
        if !turn.answers {
          return Err(CallFailed);
        }
        var info := Info(program.state, program.status);
        if !Going(info.state) {
          return Ok(info);
        }
        if now > deadline {
          return Err(StillGoing(info.state));
        }
        now := now + POLL_EVERY;
      }
    }

    // A run begun after the call has ended EXITED with status 0 if this returns without an error. A run already
    // going on is waited out, and one of its own is started after it.
    method RunOnce() returns (r: Result<(), Failure>)
      requires Sound()
      modifies this
      ensures Sound() && Later(old(program.runs), program.runs)
      ensures r.Ok? ==>
                exists k | |old(program.runs)| <= k < |program.runs| :: program.runs[k] == Ended(Exited, 0)
      ensures r.Err? && r.error.EndedOtherwise? ==>
                && r.error.info == Info(program.state, program.status) && r.error.info != Info(Exited, 0)
                && |program.runs| > |old(program.runs)|
      ensures r.Err? && (r.error.StillGoing? || r.error.NotFree?) ==> now > old(now) + RUN_ONCE_FOR
      ensures r.Err? && r.error.InBackoff? ==> program.state.Backoff?
      ensures r.Err? && r.error.NotFree? ==> program.state in {Stopped, Exited, Fatal, Unknown}
      ensures calls > old(calls) && forall k | old(calls) <= k < calls - 1 :: world(k).answers
      ensures r == Err(CallFailed) <==> !world(calls - 1).answers
      ensures r == Err(StartFailed) ==> Refused(program, world(calls - 1))
      // So it is owed: every call answered within the time, no start refused, the program found EXITED with status 0.
      ensures world(calls - 1).answers && now <= old(now) + RUN_ONCE_FOR
              && program.state == Exited && program.status == 0
              ==> r.Ok?
      ensures r.Ok? || r.error.EndedOtherwise? ==> taken == old(taken) + 1
      ensures r.Err? && r.error in {InBackoff, NotFree, StartFailed} ==> taken == old(taken)
    {
      hide AllMoved, Refused;
      ghost var before := program.runs;
      var deadline := now + RUN_ONCE_FOR;
      var started := false;
      while !started
        invariant Sound() && Later(before, program.runs)
        invariant started ==> |program.runs| > |before|
        invariant taken == old(taken) + if started then 1 else 0
        invariant calls >= old(calls) && forall k | old(calls) <= k < calls :: world(k).answers
        decreases !started, if now <= deadline then deadline + 1 - now else 0
      {
        var answer := StartProcess();
        if answer == None {
          return Err(CallFailed);
        }
        match answer.value {
          case AlreadyStarted =>
            var waited := WaitEnd(deadline);
            if waited.Err? {
              return Err(waited.error);
            }
            if waited.value.state.Backoff? {
              return Err(InBackoff);
            }
            if now > deadline {
              return Err(NotFree);
            }
          case Fault =>
            return Err(StartFailed);
          case Started =>
            started := true;
        }
      }
      var end := WaitEnd(deadline);
      if end.Err? {
        return Err(end.error);
      }
      if end.value == Info(Exited, 0) {
        assert program.runs[|program.runs| - 1] == Ended(Exited, 0);
        return Ok(());
      }
      return Err(EndedOtherwise(end.value));
    }
  }
}
