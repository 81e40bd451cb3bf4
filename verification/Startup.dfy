/**
 * Starting services: `Manager::start` waits for its child on a pipe that all children's signals share.
 *
 * Assumed of the environment: the pipe loses nothing, pids are fresh, a child announces itself at most once and
 * posts nothing after it stopped, and starts follow one another.
 */
module Startup {
  import opened Wrappers

  type Pid = int

  datatype Event = Started(pid: Pid) | Stopped(pid: Pid)

  /** How a start ends: it returns, or throws "failed to start" or "spurious startup signal". */
  datatype Ending = Returned | FailedToStart | Spurious

  /** One event looked at by the start of child `pid`: how the start ends, or None to go on waiting. */
  function Judge(pid: Pid, e: Event): Option<Ending> {
    match e
    case Started(id) => Some(if id == pid then Returned else Spurious)
    case Stopped(id) => if id == pid then Some(FailedToStart) else None
  }

  /** The wait loop on a pipe: how it ends and what it leaves, or None when it would go on waiting. */
  function WaitFor(pid: Pid, pipe: seq<Event>): (Option<Ending>, seq<Event>) {
    if pipe == [] then (None, [])
    else if Judge(pid, pipe[0]).Some? then (Judge(pid, pipe[0]), pipe[1..])
    else WaitFor(pid, pipe[1..])
  }

  /** The loop ends at the first event that decides, and leaves everything behind it. */
  lemma {:induction false} EndsAtFirstDecision(pid: Pid, pipe: seq<Event>, k: nat)
    requires k < |pipe| && Judge(pid, pipe[k]).Some?
    requires forall i :: 0 <= i < k ==> pipe[i].Stopped? && pipe[i].pid != pid
    ensures WaitFor(pid, pipe) == (Judge(pid, pipe[k]), pipe[k + 1..])
    decreases |pipe|
  {
    if k > 0 {
      assert Judge(pid, pipe[0]).None?;
      assert pipe[1..][k - 1] == pipe[k] && pipe[1..][k..] == pipe[k + 1..];
      EndsAtFirstDecision(pid, pipe[1..], k - 1);
    }
  }

  /** Which event decides: any child's start signal, or the stop of the child waited for. */
  lemma {:induction false} LoopEndsRight(pid: Pid, pipe: seq<Event>, k: nat)
    requires k <= |pipe| && forall i :: 0 <= i < k ==> pipe[i].Stopped? && pipe[i].pid != pid
    requires k < |pipe| ==> pipe[k].Started? || pipe[k].pid == pid
    ensures WaitFor(pid, pipe) ==
            if k == |pipe| then (None, [])
            else
              (Some(if pipe[k].Stopped? then FailedToStart else if pipe[k].pid == pid then Returned else Spurious),
               pipe[k + 1..])
    decreases |pipe|
  {
    if k > 0 {
      LoopEndsRight(pid, pipe[1..], k - 1);
    }
  }

  class Manager {
    var pipe: seq<Event>

    constructor ()
      ensures pipe == []
    {
      pipe := [];
    }

    /** The loop of `start` once the child is cloned; `arriving` is what is posted while it waits. */
    method Start(pid: Pid, arriving: seq<Event>) returns (ending: Option<Ending>)
      modifies this
      ensures (ending, pipe) == WaitFor(pid, old(pipe) + arriving)
    {
      pipe := pipe + arriving;
      var started := false;
      while !started
        invariant !started ==> WaitFor(pid, pipe) == WaitFor(pid, old(pipe) + arriving)
        invariant started ==> (Some(Returned), pipe) == WaitFor(pid, old(pipe) + arriving)
        decreases !started, |pipe|
      {
        if pipe == [] {
          return None;
        }
        var event := pipe[0];
        pipe := pipe[1..];
        match event {
          case Started(id) =>
            if id != pid {
              return Some(Spurious);
            }
            started := true;
          case Stopped(id) =>
            if id == pid {
              return Some(FailedToStart);
            }
        }
      }
      return Some(Returned);
    }
  }

  // ----- whole runs -----

  datatype Child = Child(announced: bool, stopped: bool)

  /** `waiting` is the child whose start is in its loop; `endings` how earlier starts ended. */
  datatype State = State(pipe: seq<Event>, waiting: Option<Pid>, children: map<Pid, Child>, endings: map<Pid, Ending>)

  datatype Step = Launch(pid: Pid) | Announce(pid: Pid) | Stop(pid: Pid) | ReadOne

  predicate Enabled(s: State, step: Step) {
    match step
    case Launch(pid) => s.waiting.None? && pid !in s.children
    case Announce(pid) => pid in s.children && !s.children[pid].announced && !s.children[pid].stopped
    case Stop(pid) => pid in s.children && !s.children[pid].stopped
    case ReadOne => s.waiting.Some? && s.pipe != []
  }

  function Do(s: State, step: Step): State
    requires Enabled(s, step)
  {
    match step
    case Launch(pid) => s.(waiting := Some(pid), children := s.children[pid := Child(false, false)])
    case Announce(pid) =>
      s.(pipe := s.pipe + [Started(pid)], children := s.children[pid := s.children[pid].(announced := true)])
    case Stop(pid) =>
      s.(pipe := s.pipe + [Stopped(pid)], children := s.children[pid := s.children[pid].(stopped := true)])
    case ReadOne =>
      var pid := s.waiting.value;
      match Judge(pid, s.pipe[0])
      case None => s.(pipe := s.pipe[1..])
      case Some(ending) => s.(pipe := s.pipe[1..], waiting := None, endings := s.endings[pid := ending])
  }

  const EMPTY := State([], None, map[], map[])

  /** The state after the steps, or None when some step is not enabled. */
  function Execute(steps: seq<Step>): Option<State> {
    if steps == [] then Some(EMPTY)
    else
      match Execute(steps[..|steps| - 1])
      case None => None
      case Some(s) => if Enabled(s, steps[|steps| - 1]) then Some(Do(s, steps[|steps| - 1])) else None
  }

  ghost predicate PipeOk(s: State) {
    && (forall i :: 0 <= i < |s.pipe| ==>
          && s.pipe[i].pid in s.children
          && (s.pipe[i].Started? ==> s.waiting == Some(s.pipe[i].pid) && s.children[s.pipe[i].pid].announced)
          && (s.pipe[i].Stopped? ==> s.children[s.pipe[i].pid].stopped))
    && (forall i, j :: 0 <= i < j < |s.pipe| && s.pipe[i].pid == s.pipe[j].pid ==>
          s.pipe[i].Started? && s.pipe[j].Stopped?)
  }

  ghost predicate WaitingOk(s: State) {
    s.waiting.Some? ==>
      var pid := s.waiting.value;
      && pid in s.children
      && (s.children[pid].announced ==> Started(pid) in s.pipe)
      && (s.children[pid].stopped ==> Stopped(pid) in s.pipe)
  }

  /** A start returned exactly when its child announced itself, and failed when the child stopped without doing so. */
  predicate EndingOk(child: Child, ending: Ending) {
    match ending
    case Returned => child.announced
    case FailedToStart => child.stopped && !child.announced
    case Spurious => false
  }

  ghost predicate EndingsOk(s: State) {
    && (forall pid :: pid in s.endings ==>
          pid in s.children && s.waiting != Some(pid) && EndingOk(s.children[pid], s.endings[pid]))
    && (forall pid :: pid in s.children ==> s.waiting == Some(pid) || pid in s.endings)
  }

  ghost predicate Inv(s: State) {
    PipeOk(s) && WaitingOk(s) && EndingsOk(s)
  }

  lemma PostInv(s: State, step: Step)
    requires Inv(s) && Enabled(s, step) && (step.Announce? || step.Stop?)
    ensures Inv(Do(s, step))
  {
    var s' := Do(s, step);
    if step.Announce? {
      assert s.waiting == Some(step.pid);
    }
    assert forall e :: e in s.pipe ==> e in s'.pipe;
    assert s'.pipe[|s.pipe|] in s'.pipe;
  }

  lemma LaunchInv(s: State, pid: Pid)
    requires Inv(s) && Enabled(s, Launch(pid))
    ensures Inv(Do(s, Launch(pid)))
  {
  }

  lemma ReadInv(s: State)
    requires Inv(s) && Enabled(s, ReadOne)
    ensures Inv(Do(s, ReadOne))
  {
    var s' := Do(s, ReadOne);
    var pid := s.waiting.value;
    assert s.pipe == [s.pipe[0]] + s'.pipe;
    assert forall i :: 0 <= i < |s'.pipe| ==> s'.pipe[i] == s.pipe[i + 1];
  }

  lemma {:induction false} RunInv(steps: seq<Step>)
    requires Execute(steps).Some?
    ensures Inv(Execute(steps).value)
    decreases |steps|
  {
    if steps != [] {
      var before, step := steps[..|steps| - 1], steps[|steps| - 1];
      RunInv(before);
      var s := Execute(before).value;
      match step
      case Launch(pid) => LaunchInv(s, pid);
      case Announce(_) => PostInv(s, step);
      case Stop(_) => PostInv(s, step);
      case ReadOne => ReadInv(s);
    }
  }

  /**
   * Over every run: no start ends with a spurious signal; a start that ended returned exactly if its child announced
   * itself and failed exactly if the child stopped without; between starts the pipe holds only stop events.
   */
  lemma StartsEndRight(steps: seq<Step>)
    requires Execute(steps).Some?
    ensures var s := Execute(steps).value;
            && (forall pid :: pid in s.endings ==> pid in s.children && EndingOk(s.children[pid], s.endings[pid]))
            && (forall pid :: pid in s.children ==> s.waiting == Some(pid) || pid in s.endings)
            && (s.waiting.None? ==> forall i :: 0 <= i < |s.pipe| ==> s.pipe[i].Stopped? && s.pipe[i].pid in s.endings)
  {
    RunInv(steps);
  }

  /** One step of the wait loop is one read step of the run. */
  lemma ReadOneIsLoopTurn(s: State, more: seq<Event>)
    requires Enabled(s, ReadOne)
    ensures var pid, s' := s.waiting.value, Do(s, ReadOne);
            WaitFor(pid, s.pipe + more) ==
            if s'.waiting.None? then (Some(s'.endings[pid]), s'.pipe + more) else WaitFor(pid, s'.pipe + more)
  {
    assert (s.pipe + more)[1..] == s.pipe[1..] + more;
  }

  /** Once its child has announced itself or stopped, the start ends on what is in the pipe, as the child did. */
  lemma {:induction false} StartEnds(s: State)
    requires Inv(s) && s.waiting.Some?
    requires var child := s.children[s.waiting.value]; child.announced || child.stopped
    ensures WaitFor(s.waiting.value, s.pipe).0 ==
            Some(if s.children[s.waiting.value].announced then Returned else FailedToStart)
    decreases |s.pipe|
  {
    ReadInv(s);
    ReadOneIsLoopTurn(s, []);
    var s' := Do(s, ReadOne);
    assert s.pipe + [] == s.pipe && s'.pipe + [] == s'.pipe;
    if s'.waiting.Some? {
      StartEnds(s');
    }
  }

  lemma ExecuteNext(steps: seq<Step>, k: nat)
    requires k < |steps| && Execute(steps[..k]).Some? && Enabled(Execute(steps[..k]).value, steps[k])
    ensures Execute(steps[..k + 1]) == Some(Do(Execute(steps[..k]).value, steps[k]))
  {
    assert steps[..k + 1][..k] == steps[..k];
  }

  /**
   * Both endings occur: a child that announces itself lets its start return, one that stops first makes its start
   * fail, also when an older child's stop signal is read in between.
   */
  lemma BothEndingsOccur(first: Pid, second: Pid)
    requires first != second
    ensures var steps := [Launch(first), Announce(first), ReadOne,
                          Launch(second), Stop(first), Stop(second), ReadOne, ReadOne];
            && Execute(steps).Some?
            && Execute(steps).value.endings == map[first := Returned, second := FailedToStart]
            && Execute(steps).value.pipe == []
  {
    hide Execute;
    var steps := [Launch(first), Announce(first), ReadOne,
                  Launch(second), Stop(first), Stop(second), ReadOne, ReadOne];
    NoSteps();
    assert steps[..0] == [] && steps[..8] == steps;
    ExecuteNext(steps, 0);
    ExecuteNext(steps, 1);
    ExecuteNext(steps, 2);
    ExecuteNext(steps, 3);
    ExecuteNext(steps, 4);
    ExecuteNext(steps, 5);
    ExecuteNext(steps, 6);
    ExecuteNext(steps, 7);
  }

  lemma NoSteps()
    ensures Execute([]) == Some(EMPTY)
  {
  }
}
