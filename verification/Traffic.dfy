/** Traffic dies down: no exception storm, and a quiet system has finished every call. */
module Traffic {
  import opened Bytes
  import opened Framing
  import opened Identity
  import opened Protocol
  import opened BusModel
  import opened System
  import opened Channel
  import opened Calls
  import opened Serials
  import opened LocalCalls
  import opened Runs
  import opened Theorems

  function Requests(log: seq<Sent>): nat {
    if log == [] then 0 else (if log[0].Answered? then 0 else 1) + Requests(log[1..])
  }

  function Answers(log: seq<Sent>): nat {
    if log == [] then 0 else (if log[0].Answered? then 1 else 0) + Answers(log[1..])
  }

  /** An answer still to be dispatched weighs 1, anything else 2: it may bring an answer. */
  function Weight(log: seq<Sent>): nat {
    if log == [] then 0 else (if log[0].Answered? then 1 else 2) + Weight(log[1..])
  }

  lemma {:induction false} RequestsAppend(p: seq<Sent>, q: seq<Sent>)
    ensures Requests(p + q) == Requests(p) + Requests(q)
  {
    if p == [] {
      assert p + q == q;
    } else {
      assert (p + q)[0] == p[0] && (p + q)[1..] == p[1..] + q;
      RequestsAppend(p[1..], q);
    }
  }

  lemma {:induction false} AnswersAppend(p: seq<Sent>, q: seq<Sent>)
    ensures Answers(p + q) == Answers(p) + Answers(q)
  {
    if p == [] {
      assert p + q == q;
    } else {
      assert (p + q)[0] == p[0] && (p + q)[1..] == p[1..] + q;
      AnswersAppend(p[1..], q);
    }
  }

  lemma {:induction false} WeightAppend(p: seq<Sent>, q: seq<Sent>)
    ensures Weight(p + q) == Weight(p) + Weight(q)
  {
    if p == [] {
      assert p + q == q;
    } else {
      assert (p + q)[0] == p[0] && (p + q)[1..] == p[1..] + q;
      WeightAppend(p[1..], q);
    }
  }

  lemma {:induction false} EverySentIsCounted(log: seq<Sent>)
    ensures Requests(log) + Answers(log) == |log|
  {
    if log != [] {
      EverySentIsCounted(log[1..]);
    }
  }

  // ----- no exception storm -----

  /** Answers to different frames below `k`, none of them an answer itself, are at most the requests below `k`. */
  lemma {:induction false} AnswersNeedRequests(log: seq<Sent>, heard: seq<Sent>, k: nat)
    requires k <= |heard|
    requires forall r :: 0 <= r < |log| && log[r].Answered? ==> log[r].n < k && !heard[log[r].n].Answered?
    requires forall i, j :: 0 <= i < j < |log| && log[i].Answered? && log[j].Answered? ==> log[i].n < log[j].n
    ensures Answers(log) <= Requests(heard[..k])
    decreases |log|
  {
    if log != [] {
      var last, front := log[|log| - 1], log[..|log| - 1];
      assert log == front + [last];
      AnswersAppend(front, [last]);
      if last.Answered? {
        var n := last.n;
        AnswersNeedRequests(front, heard, n);
        assert heard[..k] == heard[..n] + ([heard[n]] + heard[n + 1..k]);
        RequestsAppend(heard[..n], [heard[n]] + heard[n + 1..k]);
        RequestsAppend([heard[n]], heard[n + 1..k]);
        assert Answers([last]) == 1 && Requests([heard[n]]) == 1;
      } else {
        AnswersNeedRequests(front, heard, k);
        assert Answers([last]) == 0;
      }
    }
  }

  lemma SideAnswersBounded<S>(site: Site<S>, peerSite: Site<S>, me: Node<S>, peer: Node<S>)
    requires ServerOk(site, me) && ServerOk(peerSite, peer)
    requires |me.got| <= |peer.sent| && me.got == peer.sent[..|me.got|]
    ensures Answers(me.log) <= Requests(peer.log)
  {
    forall r | 0 <= r < |me.log| && me.log[r].Answered?
      ensures me.log[r].n < |me.got| && !peer.log[me.log[r].n].Answered?
    {
      var n := me.log[r].n;
      assert SentOk(site, me, r) && SentOk(peerSite, peer, n);
      AnswersAreResponses(peerSite, peer, n);
      OneReplyPerRequest(site.env, Replay(site, me.got[..n]), Truncate32(n), me.got[n]);
    }
    AnswersNeedRequests(me.log, peer.log, |me.got|);
    assert peer.log == peer.log[..|me.got|] + peer.log[|me.got|..];
    RequestsAppend(peer.log[..|me.got|], peer.log[|me.got|..]);
  }

  /** No exception storm: whatever happened, the frames dispatched are at most twice the requests ever made. */
  lemma NoExceptionStorm<S(!new)>(pair: Pair<S>, run: seq<Sys<S>>, i: nat)
    requires IsRun(pair, run) && i < |run| && FitsAll(run[i])
    ensures var s := run[i];
            && |s.a.got| + |s.b.got| <= |s.a.sent| + |s.b.sent|
            && |s.a.sent| + |s.b.sent| <= 2 * (Requests(s.a.log) + Requests(s.b.log))
  {
    RunInv(pair, run, i);
    var s := run[i];
    InOrder(s.a, s.b, pair.a.id, pair.b.id);
    InOrder(s.b, s.a, pair.b.id, pair.a.id);
    SideAnswersBounded(pair.a, pair.b, s.a, s.b);
    SideAnswersBounded(pair.b, pair.a, s.b, s.a);
    EverySentIsCounted(s.a.log);
    EverySentIsCounted(s.b.log);
  }

  // ----- progress -----

  datatype Measure = Measure(load: nat, unsent: nat, wire: nat, inbox: nat)

  predicate Less(m: Measure, n: Measure) {
    || m.load < n.load
    || (m.load == n.load && (
          || m.unsent < n.unsent
          || (m.unsent == n.unsent && (
                || m.wire < n.wire
                || (m.wire == n.wire && m.inbox < n.inbox)))))
  }

  /** The weight of what `me` sent and `peer` has not dispatched. */
  function Undispatched<S>(me: Node<S>, peer: Node<S>): nat {
    if |peer.got| <= |me.log| then Weight(me.log[|peer.got|..]) else 0
  }

  function MeasureOf<S>(me: Node<S>, peer: Node<S>, myId: ServiceId, peerId: ServiceId): Measure {
    Measure(Undispatched(me, peer) + Undispatched(peer, me),
            |Unsent(ConnTo(me.bus, peerId).queue)| + |Unsent(ConnTo(peer.bus, myId).queue)|,
            |me.wire| + |peer.wire|,
            |me.inbox| + |peer.inbox|)
  }

  /** Input/output: everything the poll loop does on its own; a write moves at least one byte. */
  predicate IsIo(action: Action) {
    match action
    case DoWrite(n) => n > 0
    case DoRead(_) => true
    case DoTurn => true
    case _ => false
  }

  /** Input and output register no call, and send nothing but answers. */
  lemma IoOnlyAnswers<S>(env: Env<S>, me: Node<S>, peer: Node<S>, peerId: ServiceId, action: Action)
    requires IsIo(action) && Enabled(me, peer, peerId, action)
    ensures var (me', peer') := Step(env, me, peer, peerId, action);
            && me'.calls == me.calls && peer'.calls == peer.calls && peer'.log == peer.log && peer'.sent == peer.sent
            && (me'.log == me.log || me'.log == me.log + [Answered(|me.got|)])
  {
    if action.DoTurn? {
      TurnSplits(env, me, peerId);
    }
  }

  /** Dispatching drops the load: an answer brings nothing, anything else brings at most an answer. */
  lemma HearDropsLoad<S>(
      site: Site<S>, peerSite: Site<S>, me: Node<S>, peer: Node<S>, me': Node<S>)
    requires ServerOk(peerSite, peer) && |me.log| == |me.sent| && |peer.got| <= |me.log|
    requires |me.got| < |peer.sent| && Heard(site, me, me', peer.sent[|me.got|])
    ensures Undispatched(me', peer) + Undispatched(peer, me') < Undispatched(me, peer) + Undispatched(peer, me)
  {
    hide Replay, Serve, IsResponse, Quoted, AnswerTo, HasAnswer;
    var k := |me.got|;
    assert SentOk(peerSite, peer, k);
    AnswersAreResponses(peerSite, peer, k);
    OneReplyPerRequest(site.env, me.bus.server, Truncate32(k), peer.sent[k]);
    assert |peer.log| == |peer.sent|;
    WeightHead(peer.log, k);
    if me'.log != me.log {
      WeightSnoc(me.log, |peer.got|, Answered(k));
    }
  }

  lemma WeightHead(log: seq<Sent>, k: nat)
    requires k < |log|
    ensures Weight(log[k..]) == (if log[k].Answered? then 1 else 2) + Weight(log[k + 1..])
  {
    assert log[k..][0] == log[k] && log[k..][1..] == log[k + 1..];
  }

  lemma WeightSnoc(log: seq<Sent>, k: nat, why: Sent)
    requires k <= |log| && why.Answered?
    ensures Weight((log + [why])[k..]) == Weight(log[k..]) + 1
  {
    assert (log + [why])[k..] == log[k..] + [why];
    WeightAppend(log[k..], [why]);
    assert Weight([why]) == 1;
  }

  lemma TurnDecreases<S>(site: Site<S>, peerSite: Site<S>, me: Node<S>, peer: Node<S>)
    requires Inv(Pair(site, peerSite), Sys(me, peer)) && me.inbox != []
    requires Fits(peer.sent) && Fits(me.sent)
    ensures var me' := Turning(site.env, me, peerSite.id);
            Less(MeasureOf(me', peer, site.id, peerSite.id), MeasureOf(me, peer, site.id, peerSite.id))
  {
    hide Replay, Serve, Settle, CallsOk, BirthOk;
    var c := me.bus.conns[peerSite.id];
    var now := c.held + me.inbox[..Wanted(c.held, me.inbox)];
    ReadProgress(c.held, me.inbox);
    TurnSplits(site.env, me, peerSite.id);
    var me' := Turning(site.env, me, peerSite.id);
    InOrder(me, peer, site.id, peerSite.id);
    if Complete(now) {
      TurnIn(site.env, me, peer, site.id, peerSite.id);
      InOrder(peer, me', peerSite.id, site.id);
      assert me'.got[|me.got|] == now[4..];
      HearDropsLoad(site, peerSite, me, peer, me');
    }
  }

  /** Every input/output step of a run takes the measure down, so input/output on its own always comes to an end. */
  lemma IoDecreases<S>(site: Site<S>, peerSite: Site<S>, me: Node<S>, peer: Node<S>, action: Action)
    requires Inv(Pair(site, peerSite), Sys(me, peer)) && Fits(peer.sent) && Fits(me.sent)
    requires IsIo(action) && Enabled(me, peer, peerSite.id, action)
    ensures var (me', peer') := Step(site.env, me, peer, peerSite.id, action);
            Less(MeasureOf(me', peer', site.id, peerSite.id), MeasureOf(me, peer, site.id, peerSite.id))
  {
    match action
    case DoWrite(n) =>
      OutputTakes(me.bus.conns[peerSite.id], n);
    case DoRead(n) =>
    case DoTurn =>
      TurnDecreases(site, peerSite, me, peer);
  }

  lemma IoComesToAnEnd<S(!new)>(pair: Pair<S>, run: seq<Sys<S>>, i: nat, e: Event)
    requires IsRun(pair, run) && i < |run| && CanDo(pair, run[i], e)
    requires IsIo(e.action) && FitsAll(Do(pair, run[i], e))
    ensures var s, s' := run[i], Do(pair, run[i], e);
            Less(MeasureOf(s'.a, s'.b, pair.a.id, pair.b.id), MeasureOf(s.a, s.b, pair.a.id, pair.b.id))
  {
    RunInv(pair, run, i);
    var s, s' := run[i], Do(pair, run[i], e);
    EventGrows(pair, s, e);
    FitsShrinks(s.a.sent, s'.a.sent);
    FitsShrinks(s.b.sent, s'.b.sent);
    if e.byA {
      IoDecreases(pair.a, pair.b, s.a, s.b, e.action);
    } else {
      IoDecreases(pair.b, pair.a, s.b, s.a, e.action);
    }
  }

  // ----- where it ends -----

  /** No input/output step is enabled on either side. */
  ghost predicate Quiet<S>(pair: Pair<S>, s: Sys<S>) {
    forall e: Event :: IsIo(e.action) ==> !CanDo(pair, s, e)
  }

  lemma StuckSide<S>(me: Node<S>, peer: Node<S>, myId: ServiceId, peerId: ServiceId)
    requires ChannelOk(me, peer, myId, peerId) && Ready(me.bus, peerId)
    requires !Enabled(me, peer, peerId, DoTurn) && !Enabled(me, peer, peerId, DoRead(1))
    requires !Enabled(me, peer, peerId, DoWrite(1))
    ensures me.inbox == [] && peer.wire == [] && me.bus.conns[peerId].queue == []
  {
    var queue := me.bus.conns[peerId].queue;
    assert queue != [] ==> !queue[0].Finished();
  }

  lemma QuietIsEmpty<S>(pair: Pair<S>, s: Sys<S>)
    requires Inv(pair, s) && Quiet(pair, s)
    ensures s.a.inbox == [] && s.b.inbox == [] && s.a.wire == [] && s.b.wire == []
    ensures s.a.bus.conns[pair.b.id].queue == [] && s.b.bus.conns[pair.a.id].queue == []
  {
    hide Quiet, ServerOk, CallsOk, BirthOk, FitsAll;
    QuietForbids(pair, s, true);
    StuckSide(s.a, s.b, pair.a.id, pair.b.id);
    QuietForbids(pair, s, false);
    StuckSide(s.b, s.a, pair.b.id, pair.a.id);
  }

  lemma QuietForbids<S>(pair: Pair<S>, s: Sys<S>, byA: bool)
    requires Quiet(pair, s)
    ensures !CanDo(pair, s, Event(byA, DoTurn)) && !CanDo(pair, s, Event(byA, DoRead(1)))
    ensures !CanDo(pair, s, Event(byA, DoWrite(1)))
  {
    hide CanDo;
    assert IsIo(Event(byA, DoTurn).action) && IsIo(Event(byA, DoRead(1)).action);
    assert IsIo(Event(byA, DoWrite(1)).action);
  }

  lemma NothingIsHalfSent(held: seq<byte>, ps: seq<seq<byte>>)
    requires held == Stream(ps) && !Complete(held) && Fits(ps)
    ensures ps == []
  {
    if ps != [] {
      FrameHeader(ps[0], Stream(ps[1..]));
    }
  }

  lemma SideIsDone<S>(site: Site<S>, peerSite: Site<S>, me: Node<S>, peer: Node<S>)
    requires Inv(Pair(site, peerSite), Sys(me, peer)) && Fits(me.sent)
    requires peer.inbox == [] && me.wire == [] && me.bus.conns[peerSite.id].queue == []
    ensures peer.got == me.sent
  {
    hide ServerOk, CallsOk, BirthOk, Unsent;
    var held := peer.bus.conns[site.id].held;
    InOrder(me, peer, site.id, peerSite.id);
    NoneUnsent(me.bus.conns[peerSite.id].queue);
    assert Transit(me, peer, site.id, peerSite.id) == held + ([] + ([] + []));
    FitsBehind(me.sent, |peer.got|);
    NothingIsHalfSent(held, me.sent[|peer.got|..]);
  }

  lemma NoneUnsent(queue: seq<Task>)
    requires queue == []
    ensures Unsent(queue) == []
  {
  }

  lemma FitsBehind(ps: seq<seq<byte>>, n: nat)
    requires Fits(ps) && n <= |ps|
    ensures Fits(ps[n..])
  {
    assert forall i :: 0 <= i < |ps[n..]| ==> ps[n..][i] == ps[n + i];
  }

  /** Every call of `me` is finished, and undisturbed exactly if it had its serial to itself; then by its own answer. */
  ghost predicate AllFinished<S>(peerSite: Site<S>, me: Node<S>, peer: Node<S>) {
    forall s: u32 :: s in me.calls ==> Registered(me, peerSite.id, s) && CallFinished(peerSite, me, peer, s)
  }

  ghost predicate CallFinished<S>(peerSite: Site<S>, me: Node<S>, peer: Node<S>, s: u32)
    requires Registered(me, peerSite.id, s)
  {
    var ps, first := RequestsUnder(me.log, s), HeardBefore(me, s);
    && me.bus.requests[RequestKey(peerSite.id, s)].finished
    && AnswerHeard(me, peer, me.calls[s].index)
    && (Undisturbed(me, peerSite.id, s) <==> Live(me, peerSite.id, s))
    && first <= |ps| && Places(me.log, ps[first..])
    && WaitNow(me, peerSite.id, s) == Combined(peerSite, me.log, ps[first..], me.log[me.calls[s].index].ty)
    && (Live(me, peerSite.id, s) ==>
          WaitNow(me, peerSite.id, s) == LocalOutcome(peerSite, me.log, me.calls[s].index))
  }

  /** With everything dispatched, as many answers were heard under a serial as requests were sent under it. */
  lemma AllUnderHeard<S>(site: Site<S>, peerSite: Site<S>, me: Node<S>, peer: Node<S>, s: u32)
    requires InTouch(site, peerSite, me, peer) && peer.got == me.sent && me.got == peer.sent && s in me.calls
    ensures Registered(me, peerSite.id, s) && ShowsStretch(peerSite, me, s)
    ensures HeardUnder(me.got, s) == |RequestsUnder(me.log, s)|
  {
    CallShowsStretch(site, peerSite, me, peer, s);
    RequestsListed(me.log, s);
    LogIsAsLong(site, me);
    hide ServerOk, CallsOk, BirthOk, RequestsUnder, HeardUnder, Combined, WaitNow, Registered;
    var ps, next := RequestsUnder(me.log, s), HeardUnder(me.got, s);
    if next < |ps| {
      RequestPlace(me.log, ps[next], s);
      assert |RequestsUnder(me.log[..ps[next]], s)| == next;
      RequestHeard(site, peerSite, me, peer, ps[next]);
      OwnAnswerHeard(site, peerSite, me, peer, ps[next], s);
    }
  }

  lemma RequestHeard<S>(site: Site<S>, peerSite: Site<S>, me: Node<S>, peer: Node<S>, n: nat)
    requires InTouch(site, peerSite, me, peer) && peer.got == me.sent && me.got == peer.sent
    requires n < |me.log| && !me.log[n].Answered?
    ensures AnswerHeard(me, peer, n)
  {
    hide Replay, Serve, CallsOk, BirthOk;
    RequestIsAnswered(site, peerSite, me, peer, n);
  }

  lemma QuietCallFinished<S>(site: Site<S>, peerSite: Site<S>, me: Node<S>, peer: Node<S>, s: u32)
    requires InTouch(site, peerSite, me, peer) && peer.got == me.sent && me.got == peer.sent && s in me.calls
    ensures Registered(me, peerSite.id, s) && CallFinished(peerSite, me, peer, s)
  {
    hide InTouch, RequestsUnder, HeardUnder, Combined, WaitNow, Collect;
    AllUnderHeard(site, peerSite, me, peer, s);
    OwnAnswerHeard(site, peerSite, me, peer, me.calls[s].index, s);
    var ps := RequestsUnder(me.log, s);
    assert ps[HeardBefore(me, s)..|ps|] == ps[HeardBefore(me, s)..];
    if Live(me, peerSite.id, s) {
      UndisturbedShowsOwn(peerSite, me, s);
    }
  }

  lemma SideAllFinished<S>(site: Site<S>, peerSite: Site<S>, me: Node<S>, peer: Node<S>)
    requires InTouch(site, peerSite, me, peer) && peer.got == me.sent && me.got == peer.sent
    ensures AllFinished(peerSite, me, peer)
  {
    hide InTouch, Registered, CallFinished;
    forall s: u32 | s in me.calls ensures Registered(me, peerSite.id, s) && CallFinished(peerSite, me, peer, s) {
      QuietCallFinished(site, peerSite, me, peer, s);
    }
  }

  /**
   * When input/output has come to an end, every frame has been dispatched and every call is finished, with its own
   * answer among those heard. It shows its local outcome if it had its serial to itself, and otherwise what all the
   * requests under its serial, from the oldest one waiting at the call, come to together.
   */
  lemma QuietMeansAllCallsFinished<S(!new)>(pair: Pair<S>, run: seq<Sys<S>>, i: nat)
    requires IsRun(pair, run) && i < |run| && FitsAll(run[i]) && Quiet(pair, run[i])
    ensures var s := run[i];
            && s.b.got == s.a.sent && s.a.got == s.b.sent
            && AllFinished(pair.b, s.a, s.b) && AllFinished(pair.a, s.b, s.a)
  {
    RunInv(pair, run, i);
    QuietIsDone(pair, run[i]);
    RunInTouch(pair, run, i);
    hide IsRun, Inv, FitsAll, Quiet, InTouch, AllFinished;
    SideAllFinished(pair.a, pair.b, run[i].a, run[i].b);
    SideAllFinished(pair.b, pair.a, run[i].b, run[i].a);
  }

  lemma QuietIsDone<S>(pair: Pair<S>, s: Sys<S>)
    requires Inv(pair, s) && FitsAll(s) && Quiet(pair, s)
    ensures s.b.got == s.a.sent && s.a.got == s.b.sent
  {
    hide ServerOk, CallsOk, BirthOk;
    QuietIsEmpty(pair, s);
    SideIsDone(pair.a, pair.b, s.a, s.b);
    SideIsDone(pair.b, pair.a, s.b, s.a);
  }

  /** State `i` of a run comes from the state before it by an input or output step. */
  ghost predicate IoStepAt<S(!new)>(pair: Pair<S>, run: seq<Sys<S>>, i: nat)
    requires 0 < i < |run|
  {
    IoStepOf(pair, run[i - 1], run[i])
  }

  ghost predicate IoStepOf<S(!new)>(pair: Pair<S>, s: Sys<S>, s': Sys<S>) {
    exists e: Event :: IsIo(e.action) && Follows(pair, s, e, s')
  }

  lemma ExtendRun<S(!new)>(pair: Pair<S>, run: seq<Sys<S>>, e: Event)
    requires IsRun(pair, run) && CanDo(pair, run[|run| - 1], e)
    ensures IsRun(pair, run + [Do(pair, run[|run| - 1], e)])
    ensures IsIo(e.action) ==> IoStepOf(pair, run[|run| - 1], Do(pair, run[|run| - 1], e))
  {
    assert Follows(pair, run[|run| - 1], e, Do(pair, run[|run| - 1], e));
    var longer := run + [Do(pair, run[|run| - 1], e)];
    forall i | 0 < i < |longer| ensures StepAt(pair, longer, i) {
      if i < |run| {
        assert StepAt(pair, run, i);
      } else {
        assert Follows(pair, longer[i - 1], e, longer[i]);
      }
    }
  }

  function LoadOf<S>(pair: Pair<S>, run: seq<Sys<S>>): Measure
    requires run != []
  {
    MeasureOf(run[|run| - 1].a, run[|run| - 1].b, pair.a.id, pair.b.id)
  }

  /** A run that is not quiet goes on with an input or output step, and that lowers the measure. */
  lemma OneMoreIoStep<S(!new)>(pair: Pair<S>, run: seq<Sys<S>>) returns (next: Sys<S>)
    requires IsRun(pair, run) && !Quiet(pair, run[|run| - 1])
    ensures IsRun(pair, run + [next]) && IoStepOf(pair, run[|run| - 1], next)
    ensures FitsAll(next) ==> Less(LoadOf(pair, run + [next]), LoadOf(pair, run))
  {
    var s := run[|run| - 1];
    var e: Event :| IsIo(e.action) && CanDo(pair, s, e);
    hide IsRun, CanDo, IsIo, Quiet, IoStepOf, FitsAll, MeasureOf, Do;
    next := Do(pair, s, e);
    ExtendRun(pair, run, e);
    if FitsAll(next) {
      IoComesToAnEnd(pair, run, |run| - 1, e);
    }
  }

  /**
   * Every run can be finished: input and output steps alone lead from its last state to a quiet one, where all calls
   * are finished, unless one of the replies on the way is too long for its header.
   */
  lemma {:induction false} EveryRunCanFinish<S(!new)>(pair: Pair<S>, run: seq<Sys<S>>) returns (longer: seq<Sys<S>>)
    requires IsRun(pair, run)
    ensures IsRun(pair, longer) && run <= longer
    ensures forall i :: |run| <= i < |longer| ==> IoStepAt(pair, longer, i)
    ensures !FitsAll(longer[|longer| - 1]) || Quiet(pair, longer[|longer| - 1])
    decreases LoadOf(pair, run).load, LoadOf(pair, run).unsent, LoadOf(pair, run).wire, LoadOf(pair, run).inbox
  {
    hide Quiet, IoStepOf, FitsAll, LoadOf, StepAt;
    longer := run;
    if !Quiet(pair, run[|run| - 1]) {
      var next := OneMoreIoStep(pair, run);
      longer := run + [next];
      if FitsAll(next) {
        longer := EveryRunCanFinish(pair, run + [next]);
      }
      assert longer[|run|] == next && longer[|run| - 1] == run[|run| - 1];
    }
  }

  // ----- a read event is a run of turns -----

  function TurnAll<S>(env: Env<S>, me: Node<S>, peerId: ServiceId): (after: Node<S>)
    requires Ready(me.bus, peerId)
    ensures Ready(after.bus, peerId)
    decreases |me.inbox|
  {
    if me.inbox == [] then me
    else
      ConsumeReady(env, me.bus, peerId, me.inbox);
      TurnAll(env, Turning(env, me, peerId), peerId)
  }

  /** Running the turns of one buffer leaves the session where the whole read loop leaves it. */
  lemma {:induction false} TurnsAreTheReadLoop<S>(env: Env<S>, me: Node<S>, peerId: ServiceId)
    requires Ready(me.bus, peerId)
    ensures TurnAll(env, me, peerId).bus == Feed(env, me.bus, peerId, me.inbox)
    ensures TurnAll(env, me, peerId).inbox == []
    decreases |me.inbox|
  {
    if me.inbox != [] {
      ConsumeReady(env, me.bus, peerId, me.inbox);
      TurnsAreTheReadLoop(env, Turning(env, me, peerId), peerId);
    }
  }
}
