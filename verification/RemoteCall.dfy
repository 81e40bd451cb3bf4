/** A proxy call inside a run: what polling until the reply arrived gives, whatever the peer does in between. */
module RemoteCall {
  import opened Bytes
  import opened Codec
  import opened Identity
  import opened Protocol
  import opened BusModel
  import opened System
  import opened Channel
  import opened Calls
  import opened Serials
  import opened LocalCalls
  import opened Runs
  import opened Theorems
  import opened Traffic
  import opened Session
  import opened Wrappers

  /** While the caller polls: one of its poll events, or any step of the peer. */
  datatype Move = Mine(event: PollEvent) | Theirs(action: Action)

  /** Bytes a poll delivers are the next ones the peer wrote; a socket takes as many as it likes. */
  ghost predicate Legal<S>(pair: Pair<S>, s: Sys<S>, m: Move) {
    match m
    case Mine(Input(origin, data)) =>
      origin == pair.b.id && Ready(s.a.bus, origin) && s.a.inbox == [] && data <= s.b.wire &&
      0 < |data| <= READ_BUFFER_SIZE
    case Mine(Output(origin, _)) => origin == pair.b.id && origin in s.a.bus.conns
    case Theirs(action) => Enabled(s.b, s.a, pair.a.id, action)
  }

  /** A whole read event is a read and all the turns over what it delivered. */
  ghost function Moved<S>(pair: Pair<S>, s: Sys<S>, m: Move): Sys<S>
    requires Legal(pair, s, m)
  {
    match m
    case Mine(Input(_, data)) =>
      Sys(TurnAll(pair.a.env, s.a.(inbox := data), pair.b.id), s.b.(wire := s.b.wire[|data|..]))
    case Mine(Output(_, n)) =>
      var queue := s.a.bus.conns[pair.b.id].queue;
      if queue == [] then s else Sys(Writing(s.a, pair.b.id, Min(n, |queue[0].Remaining()|)), s.b)
    case Theirs(action) =>
      var (b, a) := Step(pair.b.env, s.b, s.a, pair.a.id, action);
      Sys(a, b)
  }

  /** Moves that can be made one after the other from `s`. */
  ghost predicate LegalScript<S>(pair: Pair<S>, s: Sys<S>, ms: seq<Move>)
    decreases |ms|
  {
    ms != [] ==> Legal(pair, s, ms[0]) && LegalScript(pair, Moved(pair, s, ms[0]), ms[1..])
  }

  /** Where a script leads: it is played up to the caller's poll that finds the call finished. */
  ghost function Played<S>(pair: Pair<S>, s: Sys<S>, ms: seq<Move>, key: RequestKey): Sys<S>
    requires LegalScript(pair, s, ms)
    decreases |ms|
  {
    if ms == [] then s
    else
      var next := Moved(pair, s, ms[0]);
      if ms[0].Mine? && IsFinished(next.a.bus.requests, key) then next else Played(pair, next, ms[1..], key)
  }

  /** The caller's own events. */
  function Own(ms: seq<Move>): seq<PollEvent> {
    if ms == [] then []
    else (match ms[0] case Mine(event) => [event] case Theirs(_) => []) + Own(ms[1..])
  }

  // ----- a move is a poll for the caller, and some steps of the run -----

  /** The caller has made no request since. */
  ghost predicate OnlyAnswersSince<S>(me: Node<S>, me': Node<S>) {
    && me'.calls == me.calls && me.log <= me'.log && me.got <= me'.got
    && forall m :: |me.log| <= m < |me'.log| ==> me'.log[m].Answered?
  }

  /** `longer` goes on from `run` to a state in which the caller has made no further request. */
  ghost predicate GoesOn<S(!new)>(pair: Pair<S>, run: seq<Sys<S>>, longer: seq<Sys<S>>) {
    && run != [] && IsRun(pair, longer) && run <= longer
    && OnlyAnswersSince(run[|run| - 1].a, longer[|longer| - 1].a)
  }

  lemma GoesOnAgain<S(!new)>(pair: Pair<S>, p: seq<Sys<S>>, q: seq<Sys<S>>, r: seq<Sys<S>>)
    requires GoesOn(pair, p, q) && GoesOn(pair, q, r)
    ensures GoesOn(pair, p, r)
  {
    hide IsRun;
  }

  lemma GoesOnAtOnce<S(!new)>(pair: Pair<S>, run: seq<Sys<S>>)
    requires run != [] && IsRun(pair, run)
    ensures GoesOn(pair, run, run)
  {
    hide IsRun;
  }

  lemma PeerStepOnlyAnswers<S>(env: Env<S>, me: Node<S>, peer: Node<S>, peerId: ServiceId, action: Action)
    requires Enabled(peer, me, peerId, action)
    ensures var me' := Step(env, peer, me, peerId, action).1;
            OnlyAnswersSince(me, me') && me'.bus == me.bus && me'.inbox == me.inbox
  {
  }

  predicate NoRequest(action: Action) {
    !action.DoInvoke? && !action.DoRequest?
  }

  lemma OwnStepOnlyAnswers<S>(env: Env<S>, me: Node<S>, peer: Node<S>, peerId: ServiceId, action: Action)
    requires NoRequest(action) && Enabled(me, peer, peerId, action)
    ensures OnlyAnswersSince(me, Step(env, me, peer, peerId, action).0)
  {
    if action.DoTurn? {
      TurnSplits(env, me, peerId);
    }
  }

  /** One step of input or output by the caller, or any step of the peer, goes on with the run. */
  lemma StepGoesOn<S(!new)>(pair: Pair<S>, run: seq<Sys<S>>, e: Event)
    requires run != [] && IsRun(pair, run) && CanDo(pair, run[|run| - 1], e) && (e.byA ==> NoRequest(e.action))
    ensures GoesOn(pair, run, run + [Do(pair, run[|run| - 1], e)])
  {
    hide IsRun, IoStepOf, Step, Enabled, IsIo, NoRequest;
    var s := run[|run| - 1];
    ExtendRun(pair, run, e);
    if e.byA {
      OwnStepOnlyAnswers(pair.a.env, s.a, s.b, pair.b.id, e.action);
    } else {
      PeerStepOnlyAnswers(pair.b.env, s.a, s.b, pair.a.id, e.action);
    }
  }

  /** From `run` to `longer` by input and output alone, at least one step. */
  ghost predicate IoGoesOn<S(!new)>(pair: Pair<S>, run: seq<Sys<S>>, longer: seq<Sys<S>>) {
    && run != [] && |run| < |longer| && run <= longer && IsRun(pair, longer)
    && forall k :: |run| <= k < |longer| ==> IoStepAt(pair, longer, k)
  }

  lemma IoStepGoesOn<S(!new)>(pair: Pair<S>, run: seq<Sys<S>>, e: Event)
    requires run != [] && IsRun(pair, run) && CanDo(pair, run[|run| - 1], e) && IsIo(e.action)
    ensures IoGoesOn(pair, run, run + [Do(pair, run[|run| - 1], e)])
  {
    hide StepAt, IoStepOf, Do, CanDo, IsIo;
    var longer := run + [Do(pair, run[|run| - 1], e)];
    ExtendRun(pair, run, e);
    assert longer[|run| - 1] == run[|run| - 1];
  }

  lemma IoGoesOnAgain<S(!new)>(pair: Pair<S>, p: seq<Sys<S>>, q: seq<Sys<S>>, r: seq<Sys<S>>)
    requires IoGoesOn(pair, p, q) && (q == r || IoGoesOn(pair, q, r))
    ensures IoGoesOn(pair, p, r)
  {
    hide StepAt, IoStepOf;
    forall k | |p| <= k < |r| ensures IoStepAt(pair, r, k) {
      if k < |q| {
        assert IoStepAt(pair, q, k) && r[k] == q[k] && r[k - 1] == q[k - 1];
      }
    }
  }

  lemma TurnStep<S(!new)>(pair: Pair<S>, run: seq<Sys<S>>)
    requires IsRun(pair, run) && run[|run| - 1].a.inbox != [] && Ready(run[|run| - 1].a.bus, pair.b.id)
    ensures var s := run[|run| - 1];
            var next := Sys(Turning(pair.a.env, s.a, pair.b.id), s.b);
            && GoesOn(pair, run, run + [next]) && Ready(next.a.bus, pair.b.id) && |next.a.inbox| < |s.a.inbox|
            && TurnAll(pair.a.env, next.a, pair.b.id) == TurnAll(pair.a.env, s.a, pair.b.id)
  {
    var s, e := run[|run| - 1], Event(true, DoTurn);
    ConsumeReady(pair.a.env, s.a.bus, pair.b.id, s.a.inbox);
    hide IsRun, Consume, GoesOn;
    StepGoesOn(pair, run, e);
  }

  lemma {:induction false} TurnsGoOn<S(!new)>(pair: Pair<S>, run: seq<Sys<S>>) returns (longer: seq<Sys<S>>)
    requires run != [] && IsRun(pair, run) && Ready(run[|run| - 1].a.bus, pair.b.id)
    ensures GoesOn(pair, run, longer) && (longer == run || IoGoesOn(pair, run, longer))
    ensures longer[|longer| - 1] == Sys(TurnAll(pair.a.env, run[|run| - 1].a, pair.b.id), run[|run| - 1].b)
    decreases |run[|run| - 1].a.inbox|
  {
    hide StepAt, Turning, Consume, IoStepOf, OnlyAnswersSince, IoGoesOn;
    var s := run[|run| - 1];
    if s.a.inbox == [] {
      longer := run;
      GoesOnAtOnce(pair, run);
    } else {
      TurnStep(pair, run);
      var next := Sys(Turning(pair.a.env, s.a, pair.b.id), s.b);
      IoStepGoesOn(pair, run, Event(true, DoTurn));
      longer := TurnsGoOn(pair, run + [next]);
      GoesOnAgain(pair, run, run + [next], longer);
      IoGoesOnAgain(pair, run, run + [next], longer);
    }
  }

  lemma InputGoesOn<S(!new)>(pair: Pair<S>, run: seq<Sys<S>>, data: seq<byte>) returns (longer: seq<Sys<S>>)
    requires run != [] && IsRun(pair, run) && Legal(pair, run[|run| - 1], Mine(Input(pair.b.id, data)))
    ensures GoesOn(pair, run, longer) && IoGoesOn(pair, run, longer)
    ensures longer[|longer| - 1] == Moved(pair, run[|run| - 1], Mine(Input(pair.b.id, data)))
  {
    hide StepAt, IoStepOf, TurnAll, OnlyAnswersSince, IoGoesOn;
    var s, e := run[|run| - 1], Event(true, DoRead(|data|));
    var next := Sys(s.a.(inbox := data), s.b.(wire := s.b.wire[|data|..]));
    assert CanDo(pair, s, e) && Do(pair, s, e) == next;
    StepGoesOn(pair, run, e);
    IoStepGoesOn(pair, run, e);
    longer := TurnsGoOn(pair, run + [next]);
    GoesOnAgain(pair, run, run + [next], longer);
    IoGoesOnAgain(pair, run, run + [next], longer);
  }

  lemma MoveGoesOn<S(!new)>(pair: Pair<S>, run: seq<Sys<S>>, m: Move) returns (longer: seq<Sys<S>>)
    requires IsRun(pair, run) && Legal(pair, run[|run| - 1], m)
    ensures GoesOn(pair, run, longer) && longer[|longer| - 1] == Moved(pair, run[|run| - 1], m)
  {
    var s := run[|run| - 1];
    match m
    case Mine(Input(_, data)) =>
      longer := InputGoesOn(pair, run, data);
    case Mine(Output(_, n)) =>
      var queue := s.a.bus.conns[pair.b.id].queue;
      if queue == [] {
        longer := run;
      } else {
        var e := Event(true, DoWrite(Min(n, |queue[0].Remaining()|)));
        StepGoesOn(pair, run, e);
        longer := run + [Do(pair, s, e)];
      }
    case Theirs(action) =>
      var e := Event(false, action);
      StepGoesOn(pair, run, e);
      longer := run + [Do(pair, s, e)];
  }

  /** Between polls the caller has no unread buffer and no finished frame. */
  ghost predicate AtPoll<S>(pair: Pair<S>, s: Sys<S>) {
    && s.a.inbox == [] && AllReady(s.a.bus)
    && pair.b.id in s.a.bus.conns && QueueOk(s.a.bus.conns[pair.b.id])
  }

  /** One of the caller's moves is what its poll does to the session. */
  lemma MineIsPolled<S>(pair: Pair<S>, s: Sys<S>, event: PollEvent)
    requires AtPoll(pair, s) && Legal(pair, s, Mine(event))
    ensures Moved(pair, s, Mine(event)).a.bus == Polled(pair.a.env, s.a.bus, event)
    ensures Moved(pair, s, Mine(event)).a.inbox == []
  {
    match event
    case Input(origin, data) =>
      hide Feed, TurnAll;
      TurnsAreTheReadLoop(pair.a.env, s.a.(inbox := data), origin);
    case Output(origin, n) =>
      var c := s.a.bus.conns[origin];
      if c.queue == [] {
        assert c.(output := false) == c;
        assert s.a.bus.conns[origin := c] == s.a.bus.conns;
      }
  }

  lemma TheirsIsNotSeen<S>(pair: Pair<S>, s: Sys<S>, action: Action)
    requires Legal(pair, s, Theirs(action))
    ensures Moved(pair, s, Theirs(action)).a.bus == s.a.bus && Moved(pair, s, Theirs(action)).a.inbox == s.a.inbox
  {
  }

  lemma InvAtPoll<S>(pair: Pair<S>, s: Sys<S>)
    requires Inv(pair, s) && s.a.inbox == []
    ensures AtPoll(pair, s)
  {
    hide ServerOk, CallsOk, BirthOk;
  }

  lemma AtPollHasNoInbox<S>(pair: Pair<S>, s: Sys<S>)
    requires AtPoll(pair, s)
    ensures s.a.inbox == []
  {
  }

  lemma MoveKeepsAtPoll<S(!new)>(pair: Pair<S>, run: seq<Sys<S>>, m: Move) returns (longer: seq<Sys<S>>)
    requires IsRun(pair, run) && AtPoll(pair, run[|run| - 1]) && Legal(pair, run[|run| - 1], m)
    ensures GoesOn(pair, run, longer) && longer[|longer| - 1] == Moved(pair, run[|run| - 1], m)
    ensures AtPoll(pair, longer[|longer| - 1])
    ensures longer[|longer| - 1].a.bus ==
            match m case Mine(event) => Polled(pair.a.env, run[|run| - 1].a.bus, event)
                    case Theirs(_) => run[|run| - 1].a.bus
  {
    hide Legal, Inv, Moved, AtPoll, StepAt, OnlyAnswersSince;
    longer := MoveGoesOn(pair, run, m);
    RunInv(pair, longer, |longer| - 1);
    match m {
      case Mine(event) => MineIsPolled(pair, run[|run| - 1], event);
      case Theirs(action) => TheirsIsNotSeen(pair, run[|run| - 1], action);
    }
    AtPollHasNoInbox(pair, run[|run| - 1]);
    InvAtPoll(pair, longer[|longer| - 1]);
  }

  lemma AtPollIsReady<S>(pair: Pair<S>, s: Sys<S>)
    requires AtPoll(pair, s)
    ensures AllReady(s.a.bus)
  {
  }

  lemma OwnUnfolds(ms: seq<Move>)
    ensures ms == [] ==> Own(ms) == []
    ensures ms != [] ==>
              Own(ms) == if ms[0].Mine? then [ms[0].event] + Own(ms[1..]) else Own(ms[1..])
  {
  }

  lemma PlayedUnfolds<S>(pair: Pair<S>, s: Sys<S>, ms: seq<Move>, key: RequestKey)
    requires LegalScript(pair, s, ms)
    ensures ms == [] ==> Played(pair, s, ms, key) == s
    ensures ms != [] ==>
              && Legal(pair, s, ms[0]) && LegalScript(pair, Moved(pair, s, ms[0]), ms[1..])
              && var next := Moved(pair, s, ms[0]);
                 Played(pair, s, ms, key) ==
                 if ms[0].Mine? && IsFinished(next.a.bus.requests, key) then next
                 else Played(pair, next, ms[1..], key)
  {
  }

  /** A script with one more move in front. */
  lemma PlayedCons<S>(pair: Pair<S>, s: Sys<S>, m: Move, ms: seq<Move>, key: RequestKey)
    requires Legal(pair, s, m) && LegalScript(pair, Moved(pair, s, m), ms)
    ensures LegalScript(pair, s, [m] + ms)
    ensures var next := Moved(pair, s, m);
            Played(pair, s, [m] + ms, key) ==
            if m.Mine? && IsFinished(next.a.bus.requests, key) then next else Played(pair, next, ms, key)
  {
    assert ([m] + ms)[1..] == ms;
  }

  /** Polling through the caller's part of a script ends in the state of the run that the script leads to. */
  lemma {:induction false} ScriptIsPolling<S(!new)>(pair: Pair<S>, run: seq<Sys<S>>, ms: seq<Move>, key: RequestKey)
    returns (longer: seq<Sys<S>>)
    requires IsRun(pair, run) && AtPoll(pair, run[|run| - 1]) && LegalScript(pair, run[|run| - 1], ms)
    ensures GoesOn(pair, run, longer) && longer[|longer| - 1] == Played(pair, run[|run| - 1], ms, key)
    ensures AllReady(run[|run| - 1].a.bus)
    ensures var (bus, arrived) := PollUntilFinished(pair.a.env, run[|run| - 1].a.bus, key, Own(ms));
            && bus == longer[|longer| - 1].a.bus
            && (!IsFinished(run[|run| - 1].a.bus.requests, key) ==> (arrived <==> IsFinished(bus.requests, key)))
    decreases |ms|
  {
    hide StepAt, AtPoll, Polled, Moved, Legal, LegalScript, Played, Own, OnlyAnswersSince;
    AtPollIsReady(pair, run[|run| - 1]);
    OwnUnfolds(ms);
    PlayedUnfolds(pair, run[|run| - 1], ms, key);
    longer := run;
    if ms == [] {
      GoesOnAtOnce(pair, run);
    } else {
      var next := MoveKeepsAtPoll(pair, run, ms[0]);
      if ms[0].Theirs? || !IsFinished(next[|next| - 1].a.bus.requests, key) {
        longer := ScriptIsPolling(pair, next, ms[1..], key);
        GoesOnAgain(pair, run, next, longer);
      } else {
        longer := next;
      }
    }
  }

  // ----- the proxy call -----

  /** The frame a call queues, as its sender's log has it. */
  function LogOf(action: Action): Sent
    requires action.DoInvoke?
  {
    Invoked(action.target, action.name, action.args, action.ty)
  }

  /** The requests under the serial of a call that `me` makes now, with the call itself at the end. */
  function UpToCall<S>(me: Node<S>, s: u32): seq<nat> {
    RequestsUnder(me.log, s) + [|me.log|]
  }

  /**
   * `result` is what the local replies to the requests under the call's serial show together, from the oldest one
   * that waited when the call was made up to the last one answered. With none waiting it is the call's local outcome,
   * and only then is it made from the call's own reply alone.
   */
  ghost predicate IsLocalResult<S>(pair: Pair<S>, me: Node<S>, action: Action, after: Node<S>, result: WaitResult)
    requires action.DoInvoke?
  {
    var s := NextSerial(me.bus, pair.b.id);
    var log, ps := me.log + [LogOf(action)], UpToCall(me, s);
    var first, next := HeardUnder(me.got, s), HeardUnder(after.got, s);
    && first < next <= |ps| && Places(log, ps[first..next])
    && result == Combined(pair.b, log, ps[first..next], action.ty)
    && (first == |ps| - 1 ==> result == LocalOutcome(pair.b, log, |me.log|))
    && (first == |ps| - 1 <==> ps[first..next] == [|me.log|])
  }

  lemma InvokeOnRun<S(!new)>(pair: Pair<S>, run: seq<Sys<S>>, action: Action) returns (asked: seq<Sys<S>>)
    requires IsRun(pair, run) && action.DoInvoke? && run[|run| - 1].a.inbox == []
    ensures IsRun(pair, asked) && asked == run + [Asked(pair, run[|run| - 1], action)]
    ensures AtPoll(pair, asked[|asked| - 1]) && AllReady(run[|run| - 1].a.bus)
    ensures var me := run[|run| - 1].a;
            |me.sent| == |me.log| && NextSerial(me.bus, pair.b.id) == Truncate32(|me.log|)
  {
    hide Inv, StepAt, Invoking, NextSerial, Truncate32, AtPoll, AllReady;
    var s := run[|run| - 1];
    RunInv(pair, run, |run| - 1);
    InvAtPoll(pair, s);
    AtPollIsReady(pair, s);
    CallerCounts(pair, s);
    asked := AskOnRun(pair, run, action);
    RunInv(pair, asked, |asked| - 1);
    InvokingKeepsInbox(s.a, pair.b.id, action);
    InvAtPoll(pair, asked[|asked| - 1]);
  }

  lemma AskOnRun<S(!new)>(pair: Pair<S>, run: seq<Sys<S>>, action: Action) returns (asked: seq<Sys<S>>)
    requires IsRun(pair, run) && action.DoInvoke?
    ensures asked == run + [Asked(pair, run[|run| - 1], action)] && IsRun(pair, asked)
  {
    hide StepAt, IoStepOf, Invoking;
    ExtendRun(pair, run, Event(true, action));
    asked := run + [Asked(pair, run[|run| - 1], action)];
  }

  lemma CallerCounts<S>(pair: Pair<S>, s: Sys<S>)
    requires Inv(pair, s)
    ensures |s.a.sent| == |s.a.log| && NextSerial(s.a.bus, pair.b.id) == Truncate32(|s.a.log|)
  {
    hide CallsOk, BirthOk, NextSerial, Truncate32;
    LogIsAsLong(pair.a, s.a);
    NextSerialIsCount(s.a, s.b, pair.a.id, pair.b.id);
  }

  lemma InvokingKeepsInbox<S>(me: Node<S>, peerId: ServiceId, action: Action)
    requires action.DoInvoke?
    ensures Invoking(me, peerId, action).inbox == me.inbox
  {
  }

  function Asked<S>(pair: Pair<S>, s: Sys<S>, action: Action): Sys<S>
    requires action.DoInvoke?
  {
    Sys(Invoking(s.a, pair.b.id, action), s.b)
  }

  /** What the call's entry shows in a later state of the caller that has made no further request. */
  lemma LaterShowsLocalResult<S>(pair: Pair<S>, before: Sys<S>, action: Action, s: Sys<S>)
    requires action.DoInvoke? && InTouch(pair.a, pair.b, s.a, s.b)
    requires |before.a.sent| == |before.a.log|
    requires NextSerial(before.a.bus, pair.b.id) == Truncate32(|before.a.log|)
    requires OnlyAnswersSince(Asked(pair, before, action).a, s.a)
    requires IsFinished(s.a.bus.requests, RequestKey(pair.b.id, NextSerial(before.a.bus, pair.b.id)))
    ensures var key := RequestKey(pair.b.id, NextSerial(before.a.bus, pair.b.id));
            IsLocalResult(pair, before.a, action, s.a, Collect(s.a.bus.requests[key], action.ty))
  {
    hide ServerOk, CallsOk, BirthOk, RequestsUnder, HeardUnder, Combined, LocalReply, Collect, NextSerial, Truncate32,
      Places, Post, InvokePayload;
    var me, serial := before.a, NextSerial(before.a.bus, pair.b.id);
    var n, log := |me.log|, me.log + [LogOf(action)];
    var asked := Asked(pair, before, action).a;
    assert asked.calls[serial] == Call(n, |me.got|) && asked.log == log && asked.got == me.got;
    CallShowsStretch(pair.a, pair.b, s.a, s.b, serial);
    RequestsUpToCall(me.log, LogOf(action), s.a.log, serial);
    assert s.a.got[..|me.got|] == me.got && s.a.log[..n] == me.log && s.a.log[n] == LogOf(action);
    var ps, first, next := UpToCall(me, serial), HeardUnder(me.got, serial), HeardUnder(s.a.got, serial);
    StretchIsLocalResult(pair.b, me.log, action, s.a.log, serial, first, next);
  }

  lemma RequestsUpToCall(log: seq<Sent>, call: Sent, later: seq<Sent>, s: u32)
    requires log + [call] <= later && call.Invoked? && Truncate32(|log|) == s
    requires forall m :: |log| < m < |later| ==> later[m].Answered?
    ensures RequestsUnder(later, s) == RequestsUnder(log, s) + [|log|]
  {
    hide RequestsUnder;
    var n := |log|;
    NoRequestsBetween(later, n + 1, |later|, s);
    RequestsStep(later, n, s);
    assert later[..|later|] == later && later[..n] == log;
  }

  lemma StretchIsLocalResult<S>(
      site: Site<S>, log: seq<Sent>, action: Action, later: seq<Sent>, s: u32, first: nat, next: nat)
    requires action.DoInvoke? && log + [LogOf(action)] <= later && Truncate32(|log|) == s
    requires var ps := RequestsUnder(log, s) + [|log|];
             RequestsUnder(later, s) == ps && first < next <= |ps|
    ensures var ps, upTo := RequestsUnder(log, s) + [|log|], log + [LogOf(action)];
            && Places(upTo, ps[first..next]) && Places(later, ps[first..next])
            && Combined(site, later, ps[first..next], action.ty) == Combined(site, upTo, ps[first..next], action.ty)
            && (first == |ps| - 1 ==>
                  Combined(site, upTo, ps[first..next], action.ty) == LocalOutcome(site, upTo, |log|))
            && (first == |ps| - 1 <==> ps[first..next] == [|log|])
  {
    RequestsListed(log, s);
    hide RequestsUnder, Combined, LocalReply;
    var ps, upTo := RequestsUnder(log, s) + [|log|], log + [LogOf(action)];
    CombinedIgnoresLater(site, upTo, later, ps[first..next], action.ty);
    if first == |ps| - 1 {
      assert ps[first..next] == [|log|];
      CombinedOne(site, upTo, |log|, action.ty);
    } else {
      assert ps[first..next][0] == ps[first] < |log|;
    }
  }

  /** The key under which a call that `me` makes now is registered. */
  function KeyOf<S>(pair: Pair<S>, s: Sys<S>): RequestKey {
    RequestKey(pair.b.id, NextSerial(s.a.bus, pair.b.id))
  }

  /**
   * Invoking in state `s` and polling through the caller's part of the script leaves the session as the script leaves
   * its side; the reply is reported exactly if it is there; and then what the call returns is its local result.
   */
  ghost predicate GivesLocalResult<S>(pair: Pair<S>, s: Sys<S>, action: Action, ms: seq<Move>)
    requires action.DoInvoke? && LegalScript(pair, Asked(pair, s, action), ms)
  {
    var key, after := KeyOf(pair, s), Played(pair, Asked(pair, s, action), ms, KeyOf(pair, s));
    var sent := PostInvoke(s.a.bus, pair.b.id, action.target, action.name, action.args, action.ty);
    && AllReady(s.a.bus) && AllReady(sent)
    && var (bus, arrived) := PollUntilFinished(pair.a.env, sent, key, Own(ms));
       && after.a.bus == bus && (arrived <==> IsFinished(bus.requests, key))
       && (arrived && FitsAll(after) ==>
             && key in bus.requests
             && IsLocalResult(pair, s.a, action, after.a, Collect(bus.requests[key], action.ty)))
  }

  /**
   * A proxy call in a run: let the caller, with no read event being handled, invoke a method and poll, while the peer
   * makes any steps. Then the script leads to a state of the run; and if the reply arrived, the call returns what
   * the peer's object gives locally to the same method and arguments, when nothing waited under its serial.
   */
  lemma ProxyCallIsLocalCall<S(!new)>(pair: Pair<S>, run: seq<Sys<S>>, action: Action, ms: seq<Move>)
    returns (longer: seq<Sys<S>>)
    requires IsRun(pair, run) && action.DoInvoke? && run[|run| - 1].a.inbox == []
    requires LegalScript(pair, Asked(pair, run[|run| - 1], action), ms)
    ensures IsRun(pair, longer) && run + [Asked(pair, run[|run| - 1], action)] <= longer
    ensures longer[|longer| - 1] ==
            Played(pair, Asked(pair, run[|run| - 1], action), ms, KeyOf(pair, run[|run| - 1]))
    ensures GivesLocalResult(pair, run[|run| - 1], action, ms)
  {
    hide StepAt, LegalScript, Played, FitsAll, InTouch, NextSerial, IsLocalResult, PostInvoke, AllReady, AtPoll,
      OnlyAnswersSince;
    var s := run[|run| - 1];
    var key := KeyOf(pair, s);
    var asked := InvokeOnRun(pair, run, action);
    AtPollIsReady(pair, Asked(pair, s, action));
    longer := ScriptIsPolling(pair, asked, ms, key);
    NewCallPends(pair, s, action);
    if FitsAll(longer[|longer| - 1]) && IsFinished(longer[|longer| - 1].a.bus.requests, key) {
      RunInTouch(pair, longer, |longer| - 1);
      LaterShowsLocalResult(pair, s, action, longer[|longer| - 1]);
    }
  }

  lemma NewCallPends<S>(pair: Pair<S>, s: Sys<S>, action: Action)
    requires action.DoInvoke?
    ensures !IsFinished(Asked(pair, s, action).a.bus.requests, KeyOf(pair, s))
  {
  }

  /** The same for a caller on the other side. */
  lemma ProxyCallFromOtherSide<S(!new)>(pair: Pair<S>, run: seq<Sys<S>>, action: Action, ms: seq<Move>)
    returns (longer: seq<Sys<S>>)
    requires IsRun(pair, run) && action.DoInvoke? && run[|run| - 1].b.inbox == []
    requires LegalScript(Mirror(pair), Asked(Mirror(pair), Swapped(run[|run| - 1]), action), ms)
    ensures var s := Swapped(run[|run| - 1]);
            && IsRun(pair, longer) && run + [Swapped(Asked(Mirror(pair), s, action))] <= longer
            && Swapped(longer[|longer| - 1]) ==
               Played(Mirror(pair), Asked(Mirror(pair), s, action), ms, KeyOf(Mirror(pair), s))
            && GivesLocalResult(Mirror(pair), s, action, ms)
  {
    hide StepAt, LegalScript, Played, GivesLocalResult, Asked, KeyOf;
    SidesAreAlike(pair, run);
    var mirrored := ProxyCallIsLocalCall(Mirror(pair), MirrorRun(run), action, ms);
    longer := MirrorRun(mirrored);
    SidesAreAlike(Mirror(pair), mirrored);
    assert Mirror(Mirror(pair)) == pair;
  }

  // ----- a call can always come back -----

  /** Unless all is quiet, there is a move that does some input or output. */
  lemma SomeMove<S(!new)>(pair: Pair<S>, run: seq<Sys<S>>) returns (m: Move, longer: seq<Sys<S>>)
    requires run != [] && IsRun(pair, run) && AtPoll(pair, run[|run| - 1]) && !Quiet(pair, run[|run| - 1])
    ensures Legal(pair, run[|run| - 1], m) && IoGoesOn(pair, run, longer)
    ensures longer[|longer| - 1] == Moved(pair, run[|run| - 1], m)
  {
    hide StepAt, IoStepOf, IoGoesOn;
    var s := run[|run| - 1];
    var e: Event :| IsIo(e.action) && CanDo(pair, s, e);
    if e.byA && e.action.DoRead? {
      m := Mine(Input(pair.b.id, s.b.wire[..e.action.n]));
      AllReadyHere(pair, s);
      longer := InputGoesOn(pair, run, s.b.wire[..e.action.n]);
    } else {
      m := if e.byA then Mine(Output(pair.b.id, e.action.n)) else Theirs(e.action);
      IoStepGoesOn(pair, run, e);
      longer := run + [Do(pair, s, e)];
    }
  }

  lemma AllReadyHere<S>(pair: Pair<S>, s: Sys<S>)
    requires AtPoll(pair, s)
    ensures Ready(s.a.bus, pair.b.id)
  {
  }

  lemma {:induction false} IoLowers<S(!new)>(pair: Pair<S>, run: seq<Sys<S>>, longer: seq<Sys<S>>, j: nat)
    requires IoGoesOn(pair, run, longer) && |run| <= j < |longer| && FitsAll(longer[j])
    ensures Less(MeasureOf(longer[j].a, longer[j].b, pair.a.id, pair.b.id), LoadOf(pair, run))
    decreases j
  {
    hide StepAt, Follows, FitsAll, MeasureOf, Do, CanDo, IsIo, Inv, StepOf, Grows;
    assert IoStepAt(pair, longer, j);
    var e: Event :| IsIo(e.action) && Follows(pair, longer[j - 1], e, longer[j]);
    FollowsIsDo(pair, longer[j - 1], e, longer[j]);
    IoComesToAnEnd(pair, longer, j - 1, e);
    if |run| < j {
      RunStep(pair, longer, j - 1);
      IoLowers(pair, run, longer, j - 1);
    }
  }

  lemma FollowsIsDo<S>(pair: Pair<S>, s: Sys<S>, e: Event, s': Sys<S>)
    requires Follows(pair, s, e, s')
    ensures CanDo(pair, s, e) && s' == Do(pair, s, e)
  {
  }

  lemma QuietIsFinished<S(!new)>(pair: Pair<S>, run: seq<Sys<S>>, s: u32)
    requires run != [] && IsRun(pair, run) && FitsAll(run[|run| - 1]) && s in run[|run| - 1].a.calls
    requires Quiet(pair, run[|run| - 1])
    ensures IsFinished(run[|run| - 1].a.bus.requests, RequestKey(pair.b.id, s))
  {
    hide IsRun, FitsAll, Quiet, Live, Undisturbed, Combined, RequestsUnder;
    QuietMeansAllCallsFinished(pair, run, |run| - 1);
    assert CallFinished(pair.b, run[|run| - 1].a, run[|run| - 1].b, s);
  }

  /** A move that does some input or output, the state behind it, and the lower measure there. */
  lemma OneMoreMove<S(!new)>(pair: Pair<S>, run: seq<Sys<S>>) returns (m: Move, next: seq<Sys<S>>)
    requires run != [] && IsRun(pair, run) && AtPoll(pair, run[|run| - 1]) && !Quiet(pair, run[|run| - 1])
    ensures IoGoesOn(pair, run, next) && Legal(pair, run[|run| - 1], m)
    ensures next[|next| - 1] == Moved(pair, run[|run| - 1], m) && AtPoll(pair, next[|next| - 1])
    ensures next[|next| - 1].a.calls == run[|run| - 1].a.calls && AllReady(run[|run| - 1].a.bus)
    ensures next[|next| - 1].a.bus ==
            match m case Mine(event) => Polled(pair.a.env, run[|run| - 1].a.bus, event)
                    case Theirs(_) => run[|run| - 1].a.bus
    ensures FitsAll(next[|next| - 1]) ==> Less(LoadOf(pair, next), LoadOf(pair, run))
  {
    hide Legal, Moved, AtPoll, StepAt, IoStepOf, FitsAll, Quiet, MeasureOf, Less, Polled, AllReady;
    AtPollIsReady(pair, run[|run| - 1]);
    m, next := SomeMove(pair, run);
    var other := MoveKeepsAtPoll(pair, run, m);
    if FitsAll(next[|next| - 1]) {
      IoLowers(pair, run, next, |next| - 1);
    }
  }

  /** A pending call can be polled to its end, unless a frame queued on the way is too long for its header. */
  lemma {:induction false} PollingCanFinish<S(!new)>(pair: Pair<S>, run: seq<Sys<S>>, s: u32)
    returns (ms: seq<Move>, longer: seq<Sys<S>>)
    requires run != [] && IsRun(pair, run) && AtPoll(pair, run[|run| - 1]) && s in run[|run| - 1].a.calls
    requires !IsFinished(run[|run| - 1].a.bus.requests, RequestKey(pair.b.id, s))
    ensures longer == run || IoGoesOn(pair, run, longer)
    ensures LegalScript(pair, run[|run| - 1], ms)
    ensures longer != [] &&
            longer[|longer| - 1] == Played(pair, run[|run| - 1], ms, RequestKey(pair.b.id, s))
    ensures AllReady(run[|run| - 1].a.bus)
    ensures PollUntilFinished(pair.a.env, run[|run| - 1].a.bus, RequestKey(pair.b.id, s), Own(ms)).1 ||
            !FitsAll(longer[|longer| - 1])
    decreases LoadOf(pair, run).load, LoadOf(pair, run).unsent, LoadOf(pair, run).wire, LoadOf(pair, run).inbox
  {
    hide Legal, LegalScript, Moved, Played, AtPoll, StepAt, IoStepAt, FitsAll, Quiet, LoadOf, Polled, AllReady, Own,
      IsFinished;
    var key := RequestKey(pair.b.id, s);
    AtPollIsReady(pair, run[|run| - 1]);
    ms, longer := [], run;
    EmptyScript(pair, run[|run| - 1], key);
    if FitsAll(run[|run| - 1]) {
      if Quiet(pair, run[|run| - 1]) {
        QuietIsFinished(pair, run, s);
      }
      var m, next := OneMoreMove(pair, run);
      AtPollIsReady(pair, next[|next| - 1]);
      if !FitsAll(next[|next| - 1]) || IsFinished(next[|next| - 1].a.bus.requests, key) {
        longer := next;
        EmptyScript(pair, next[|next| - 1], key);
      } else {
        ms, longer := PollingCanFinish(pair, next, s);
        IoGoesOnAgain(pair, run, next, longer);
      }
      PlayedCons(pair, run[|run| - 1], m, ms, key);
      OwnCons(m, ms);
      ms := [m] + ms;
    }
  }

  lemma EmptyScript<S>(pair: Pair<S>, s: Sys<S>, key: RequestKey)
    ensures LegalScript(pair, s, []) && Played(pair, s, [], key) == s && Own([]) == []
  {
  }

  lemma OwnCons(m: Move, ms: seq<Move>)
    ensures Own([m] + ms) == if m.Mine? then [m.event] + Own(ms) else Own(ms)
  {
    assert ([m] + ms)[1..] == ms;
  }

  /**
   * Every call can come back: whatever happened before it, there is a script of input and output alone at whose end
   * waiting has found the reply and gives the local result, unless a frame queued on the way is too long for its
   * header.
   */
  lemma EveryCallCanReturn<S(!new)>(pair: Pair<S>, run: seq<Sys<S>>, action: Action)
    returns (ms: seq<Move>, longer: seq<Sys<S>>)
    requires IsRun(pair, run) && action.DoInvoke? && run[|run| - 1].a.inbox == []
    ensures LegalScript(pair, Asked(pair, run[|run| - 1], action), ms)
    ensures IsRun(pair, longer) && run + [Asked(pair, run[|run| - 1], action)] <= longer
    ensures forall k :: |run| < k < |longer| ==> IoStepAt(pair, longer, k)
    ensures longer[|longer| - 1] ==
            Played(pair, Asked(pair, run[|run| - 1], action), ms, KeyOf(pair, run[|run| - 1]))
    ensures GivesLocalResult(pair, run[|run| - 1], action, ms)
    ensures var sent := Asked(pair, run[|run| - 1], action).a.bus;
            && AllReady(sent)
            && (PollUntilFinished(pair.a.env, sent, KeyOf(pair, run[|run| - 1]), Own(ms)).1 ||
                !FitsAll(longer[|longer| - 1]))
  {
    hide StepAt, IoStepOf, LegalScript, Played, FitsAll, NextSerial, Post, AllReady, AtPoll, Polled, GivesLocalResult;
    var asked := InvokeOnRun(pair, run, action);
    AtPollIsReady(pair, asked[|asked| - 1]);
    ms, longer := PollingCanFinish(pair, asked, NextSerial(run[|run| - 1].a.bus, pair.b.id));
    var other := ProxyCallIsLocalCall(pair, run, action, ms);
  }

  /**
   * The same for the program's own objects: a session that stands in a state of a run calls its peer and polls. What
   * it returns, if it returns, is the local result, and it is left as a state of the run has it.
   */
  method CallInRun<S(!new)>(
      session: Session<S>, to: ServiceId, target: ObjectId, name: Text, args: seq<Value>, ty: Type,
      events: seq<PollEvent>, ghost pair: Pair<S>, ghost run: seq<Sys<S>>, ghost ms: seq<Move>)
    returns (r: Option<WaitResult>, ghost longer: seq<Sys<S>>)
    requires IsRun(pair, run) && run[|run| - 1].a.inbox == []
    requires session.Valid() && session.Idle() && session.env == pair.a.env && to == pair.b.id
    requires session.View() == run[|run| - 1].a.bus
    requires LegalScript(pair, Asked(pair, run[|run| - 1], DoInvoke(target, name, args, ty)), ms) && events == Own(ms)
    modifies session.Repr
    ensures session.Valid() && session.Idle()
    ensures var s := run[|run| - 1];
            && IsRun(pair, longer) && run <= longer && session.View() == longer[|longer| - 1].a.bus
            && longer[|longer| - 1] ==
               Played(pair, Asked(pair, s, DoInvoke(target, name, args, ty)), ms, KeyOf(pair, s))
    ensures r.Some? <==> IsFinished(session.View().requests, KeyOf(pair, run[|run| - 1]))
    ensures r.Some? && FitsAll(longer[|longer| - 1]) ==>
              IsLocalResult(pair, run[|run| - 1].a, DoInvoke(target, name, args, ty), longer[|longer| - 1].a, r.value)
  {
    hide StepAt, LegalScript, Played, Session.Valid, Session.View, Session.Idle, IsLocalResult, FitsAll, PostInvoke,
      AllReady, NextSerial, Own, Collect;
    longer := ProxyCallIsLocalCall(pair, run, DoInvoke(target, name, args, ty), ms);
    r := session.CallRemote(to, target, name, args, ty, events);
  }
}
