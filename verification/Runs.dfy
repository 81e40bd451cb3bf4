/** Runs of two peers, and what holds in each of their states about bytes, order and serials. */
module Runs {
  import opened Bytes
  import opened Framing
  import opened Identity
  import opened Protocol
  import opened BusModel
  import opened System
  import opened Channel
  import opened Calls
  import opened Serials
  import opened Wrappers

  datatype Pair<!S> = Pair(a: Site<S>, b: Site<S>)

  datatype Sys<S> = Sys(a: Node<S>, b: Node<S>)

  datatype Event = Event(byA: bool, action: Action)

  function StartNode<S>(site: Site<S>, peerId: ServiceId): Node<S> {
    Node(Bus(map[peerId := NEW_CONN], map[], site.start), [], [], [], [], [], map[])
  }

  function Start<S>(pair: Pair<S>): Sys<S> {
    Sys(StartNode(pair.a, pair.b.id), StartNode(pair.b, pair.a.id))
  }

  ghost predicate CanDo<S>(pair: Pair<S>, s: Sys<S>, e: Event) {
    if e.byA then Enabled(s.a, s.b, pair.b.id, e.action) else Enabled(s.b, s.a, pair.a.id, e.action)
  }

  ghost function Do<S>(pair: Pair<S>, s: Sys<S>, e: Event): Sys<S>
    requires CanDo(pair, s, e)
  {
    if e.byA then
      var (a, b) := Step(pair.a.env, s.a, s.b, pair.b.id, e.action);
      Sys(a, b)
    else
      var (b, a) := Step(pair.b.env, s.b, s.a, pair.a.id, e.action);
      Sys(a, b)
  }

  ghost predicate Follows<S>(pair: Pair<S>, s: Sys<S>, e: Event, s': Sys<S>) {
    CanDo(pair, s, e) && s' == Do(pair, s, e)
  }

  ghost predicate StepOf<S(!new)>(pair: Pair<S>, s: Sys<S>, s': Sys<S>) {
    exists e :: Follows(pair, s, e, s')
  }

  /** State `i` of a run follows from the state before it by some event. */
  ghost predicate StepAt<S(!new)>(pair: Pair<S>, run: seq<Sys<S>>, i: nat)
    requires 0 < i < |run|
  {
    StepOf(pair, run[i - 1], run[i])
  }

  /** A run: any states, each following from the one before. */
  ghost predicate IsRun<S(!new)>(pair: Pair<S>, run: seq<Sys<S>>) {
    && run != [] && run[0] == Start(pair)
    && forall i :: 0 < i < |run| ==> StepAt(pair, run, i)
  }

  // ----- the same run with the sides swapped -----

  function Mirror<S>(pair: Pair<S>): Pair<S> {
    Pair(pair.b, pair.a)
  }

  function Swapped<S>(s: Sys<S>): Sys<S> {
    Sys(s.b, s.a)
  }

  function MirrorRun<S>(run: seq<Sys<S>>): (mirrored: seq<Sys<S>>)
    ensures |mirrored| == |run| && forall i :: 0 <= i < |run| ==> mirrored[i] == Swapped(run[i])
  {
    seq(|run|, i requires 0 <= i < |run| => Swapped(run[i]))
  }

  lemma MirroredStep<S(!new)>(pair: Pair<S>, s: Sys<S>, s': Sys<S>)
    requires StepOf(pair, s, s')
    ensures StepOf(Mirror(pair), Swapped(s), Swapped(s'))
  {
    hide Step, Enabled;
    var e :| Follows(pair, s, e, s');
    assert Follows(Mirror(pair), Swapped(s), Event(!e.byA, e.action), Swapped(s'));
  }

  lemma MirrorIsRun<S(!new)>(pair: Pair<S>, run: seq<Sys<S>>)
    requires IsRun(pair, run)
    ensures IsRun(Mirror(pair), MirrorRun(run))
  {
    hide StepOf;
    var mirrored := MirrorRun(run);
    forall i | 0 < i < |mirrored| ensures StepAt(Mirror(pair), mirrored, i) {
      assert StepAt(pair, run, i);
      MirroredStep(pair, run[i - 1], run[i]);
    }
  }

  /** Neither side is special: a run read with the sides swapped is a run of the swapped pair, and the other way. */
  lemma SidesAreAlike<S(!new)>(pair: Pair<S>, run: seq<Sys<S>>)
    ensures IsRun(pair, run) <==> IsRun(Mirror(pair), MirrorRun(run))
    ensures MirrorRun(MirrorRun(run)) == run
  {
    assert MirrorRun(MirrorRun(run)) == run;
    hide IsRun;
    if IsRun(pair, run) {
      MirrorIsRun(pair, run);
    }
    if IsRun(Mirror(pair), MirrorRun(run)) {
      MirrorIsRun(Mirror(pair), MirrorRun(run));
    }
  }

  ghost predicate FitsAll<S>(s: Sys<S>) {
    Fits(s.a.sent) && Fits(s.b.sent)
  }

  ghost predicate Inv<S>(pair: Pair<S>, s: Sys<S>) {
    && ChannelOk(s.a, s.b, pair.a.id, pair.b.id) && ChannelOk(s.b, s.a, pair.b.id, pair.a.id)
    && ServerOk(pair.a, s.a) && ServerOk(pair.b, s.b)
    && CallsOk(s.a, pair.b.id) && CallsOk(s.b, pair.a.id)
    && (FitsAll(s) ==> BirthOk(s.a) && BirthOk(s.b))
  }

  lemma StartInv<S>(pair: Pair<S>)
    ensures Inv(pair, Start(pair))
  {
  }

  lemma FitsBefore<S>(site: Site<S>, me: Node<S>, peer: Node<S>, peerId: ServiceId, action: Action)
    requires ServerOk(site, me) && Enabled(me, peer, peerId, action)
    ensures var (me', peer') := Step(site.env, me, peer, peerId, action);
            && (Fits(me'.sent) ==> Fits(me.sent)) && (Fits(peer'.sent) ==> Fits(peer.sent))
  {
    StepGrows(site, me, peer, peerId, action);
    var me' := Step(site.env, me, peer, peerId, action).0;
    assert forall i :: 0 <= i < |me.sent| ==> me.sent[i] == me'.sent[i];
  }

  lemma StepInv<S(!new)>(pair: Pair<S>, s: Sys<S>, s': Sys<S>)
    requires Inv(pair, s) && StepOf(pair, s, s')
    ensures Inv(pair, s')
  {
    var e :| Follows(pair, s, e, s');
    if e.byA {
      SideStepInv(pair.a, pair.b, s.a, s.b, e.action);
    } else {
      SideStepInv(pair.b, pair.a, s.b, s.a, e.action);
    }
  }

  lemma BirthUnderQuietStep<S>(me: Node<S>, me': Node<S>)
    requires BirthOk(me) && me'.calls == me.calls && me.got <= me'.got && me.log <= me'.log
    ensures BirthOk(me')
  {
    hide HeardUnder, RequestsUnder;
    forall s: u32 | s in me'.calls
      ensures me'.calls[s].index <= |me'.log| && me'.calls[s].since <= |me'.got|
      ensures HeardUnder(me'.got[..me'.calls[s].since], s) <= |RequestsUnder(me'.log[..me'.calls[s].index], s)|
    {
      var c := me.calls[s];
      assert me'.got[..c.since] == me.got[..c.since] && me'.log[..c.index] == me.log[..c.index];
    }
  }

  lemma BirthUnderInvoke<S>(site: Site<S>, peerSite: Site<S>, me: Node<S>, peer: Node<S>, action: Action)
    requires BirthOk(me) && action.DoInvoke?
    requires ChannelOk(me, peer, site.id, peerSite.id) && ChannelOk(peer, me, peerSite.id, site.id)
    requires ServerOk(site, me) && ServerOk(peerSite, peer) && Fits(me.sent) && Fits(peer.sent)
    ensures BirthOk(Invoking(me, peerSite.id, action))
  {
    hide HeardUnder, RequestsUnder, Post, InvokePayload, NextSerial, ServerOk, ChannelOk, Transit;
    var me' := Invoking(me, peerSite.id, action);
    var serial := NextSerial(me.bus, peerSite.id);
    InOrder(me, peer, site.id, peerSite.id);
    InOrder(peer, me, peerSite.id, site.id);
    HeardAnswerFirstRequests(site, peerSite, me, peer, |me.got|, serial);
    forall s: u32 | s in me'.calls
      ensures me'.calls[s].index <= |me'.log| && me'.calls[s].since <= |me'.got|
      ensures HeardUnder(me'.got[..me'.calls[s].since], s) <= |RequestsUnder(me'.log[..me'.calls[s].index], s)|
    {
      var c := me'.calls[s];
      if s == serial {
        LogIsAsLong(site, me);
        assert me'.got[..c.since] == me.got[..|me.got|] && me'.log[..c.index] == me.log;
      } else {
        assert me'.got[..c.since] == me.got[..c.since] && me'.log[..c.index] == me.log[..c.index];
      }
    }
  }

  lemma StepKeepsBirth<S>(site: Site<S>, peerSite: Site<S>, me: Node<S>, peer: Node<S>, action: Action)
    requires ChannelOk(me, peer, site.id, peerSite.id) && ChannelOk(peer, me, peerSite.id, site.id)
    requires ServerOk(site, me) && ServerOk(peerSite, peer) && Fits(me.sent) && Fits(peer.sent)
    requires BirthOk(me) && BirthOk(peer) && Enabled(me, peer, peerSite.id, action)
    ensures var (me', peer') := Step(site.env, me, peer, peerSite.id, action);
            BirthOk(me') && BirthOk(peer')
  {
    var (me', peer') := Step(site.env, me, peer, peerSite.id, action);
    BirthUnderQuietStep(peer, peer');
    match action
    case DoInvoke(_, _, _, _) => BirthUnderInvoke(site, peerSite, me, peer, action);
    case DoTurn =>
      TurnSplits(site.env, me, peerSite.id);
      BirthUnderQuietStep(me, me');
    case _ => BirthUnderQuietStep(me, me');
  }

  lemma SideStepInv<S>(site: Site<S>, peerSite: Site<S>, me: Node<S>, peer: Node<S>, action: Action)
    requires Inv(Pair(site, peerSite), Sys(me, peer)) && Enabled(me, peer, peerSite.id, action)
    ensures var (me', peer') := Step(site.env, me, peer, peerSite.id, action);
            Inv(Pair(site, peerSite), Sys(me', peer'))
  {
    var (me', peer') := Step(site.env, me, peer, peerSite.id, action);
    StepKeepsChannels(site.env, me, peer, site.id, peerSite.id, action);
    StepKeepsServer(site, me, peer, peerSite.id, action);
    SameServer(peerSite, peer, peer');
    FitsBefore(site, me, peer, peerSite.id, action);
    LogIsAsLong(site, me);
    StepKeepsCalls(site, peerSite, me, peer, action);
    if FitsAll(Sys(me', peer')) {
      StepKeepsBirth(site, peerSite, me, peer, action);
    }
  }

  /** The invariant holds in every state of every run. */
  lemma {:induction false} RunInv<S(!new)>(pair: Pair<S>, run: seq<Sys<S>>, i: nat)
    requires IsRun(pair, run) && i < |run|
    ensures Inv(pair, run[i])
    decreases i
  {
    hide Inv, Start, StepOf;
    if i == 0 {
      StartInv(pair);
    } else {
      RunInv(pair, run, i - 1);
      assert StepAt(pair, run, i);
      StepInv(pair, run[i - 1], run[i]);
    }
  }

  // ----- bytes, order, serials -----

  /**
   * Byte conservation: after every run, all frames ever queued are the re-encoded dispatched frames, then what the
   * reader holds, then what is in its buffer, then what is on the wire, then the unsent part of the queue.
   */
  lemma ByteConservation<S(!new)>(pair: Pair<S>, run: seq<Sys<S>>, i: nat)
    requires IsRun(pair, run) && i < |run|
    ensures var s := run[i];
            && pair.b.id in s.a.bus.conns && pair.a.id in s.b.bus.conns
            && Stream(s.a.sent) ==
               Stream(s.b.got) + (s.b.bus.conns[pair.a.id].held + (s.b.inbox + (s.a.wire +
               Unsent(s.a.bus.conns[pair.b.id].queue))))
            && Stream(s.b.sent) ==
               Stream(s.a.got) + (s.a.bus.conns[pair.b.id].held + (s.a.inbox + (s.b.wire +
               Unsent(s.b.bus.conns[pair.a.id].queue))))
  {
    RunInv(pair, run, i);
  }

  /** What one side dispatched is what the other queued, in order, and answers quote the queue position as serial. */
  ghost predicate SerialsAgree<S>(me: Node<S>, peer: Node<S>, myId: ServiceId, peerId: ServiceId) {
    && |peer.got| <= |me.sent| && peer.got == me.sent[..|peer.got|]
    && NextSerial(me.bus, peerId) == Truncate32(|me.sent|)
    && ConnTo(peer.bus, myId).readSerial == Truncate32(|peer.got|)
    && forall r :: 0 <= r < |peer.log| && r < |peer.sent| && peer.log[r].Answered? ==>
         peer.log[r].n < |peer.got| && Quoted(peer.sent[r]) == Some(Truncate32(peer.log[r].n))
  }

  /**
   * Implicit serials: the n-th frame queued is the n-th dispatched, both ends count it as n modulo 2^32, at any
   * length of run.
   */
  lemma SerialAgreement<S(!new)>(pair: Pair<S>, run: seq<Sys<S>>, i: nat)
    requires IsRun(pair, run) && i < |run| && FitsAll(run[i])
    ensures var s := run[i];
            SerialsAgree(s.a, s.b, pair.a.id, pair.b.id) && SerialsAgree(s.b, s.a, pair.b.id, pair.a.id)
  {
    RunInv(pair, run, i);
    var s := run[i];
    SideSerials(pair.b, s.a, s.b, pair.a.id);
    SideSerials(pair.a, s.b, s.a, pair.b.id);
  }

  lemma SideSerials<S>(peerSite: Site<S>, me: Node<S>, peer: Node<S>, myId: ServiceId)
    requires ChannelOk(me, peer, myId, peerSite.id) && Fits(me.sent) && ServerOk(peerSite, peer)
    ensures SerialsAgree(me, peer, myId, peerSite.id)
  {
    InOrder(me, peer, myId, peerSite.id);
    forall r | 0 <= r < |peer.log| && peer.log[r].Answered?
      ensures peer.log[r].n < |peer.got| && Quoted(peer.sent[r]) == Some(Truncate32(peer.log[r].n))
    {
      assert SentOk(peerSite, peer, r);
      AnswersAreResponses(peerSite, peer, r);
    }
  }

  /** On both sides, in every state of every run: output interest is on exactly while frames are queued. */
  lemma OutputInterestFollowsQueue<S(!new)>(pair: Pair<S>, run: seq<Sys<S>>, i: nat)
    requires IsRun(pair, run) && i < |run|
    ensures pair.b.id in run[i].a.bus.conns && pair.a.id in run[i].b.bus.conns
    ensures QueueOk(run[i].a.bus.conns[pair.b.id]) && QueueOk(run[i].b.bus.conns[pair.a.id])
  {
    RunInv(pair, run, i);
  }

  // ----- histories -----

  lemma EventGrows<S>(pair: Pair<S>, s: Sys<S>, e: Event)
    requires Inv(pair, s) && CanDo(pair, s, e)
    ensures Grows(s.a, Do(pair, s, e).a) && Grows(s.b, Do(pair, s, e).b)
  {
    if e.byA {
      StepGrows(pair.a, s.a, s.b, pair.b.id, e.action);
    } else {
      StepGrows(pair.b, s.b, s.a, pair.a.id, e.action);
    }
  }

  lemma FitsShrinks(ps: seq<seq<byte>>, qs: seq<seq<byte>>)
    requires ps <= qs && Fits(qs)
    ensures Fits(ps)
  {
    assert forall i :: 0 <= i < |ps| ==> ps[i] == qs[i];
  }

  lemma StepGrowsBoth<S(!new)>(pair: Pair<S>, s: Sys<S>, s': Sys<S>)
    requires Inv(pair, s) && StepOf(pair, s, s')
    ensures Grows(s.a, s'.a) && Grows(s.b, s'.b)
  {
    var e :| Follows(pair, s, e, s');
    EventGrows(pair, s, e);
  }

  /** Histories only grow. */
  lemma {:induction false} RunGrows<S(!new)>(pair: Pair<S>, run: seq<Sys<S>>, i: nat, j: nat)
    requires IsRun(pair, run) && i <= j < |run|
    ensures Grows(run[i].a, run[j].a) && Grows(run[i].b, run[j].b)
    decreases j - i
  {
    hide Inv, Start, StepOf;
    RunInv(pair, run, j);
    if i == j {
      GrowsAtOnce(pair, run[i]);
    } else {
      RunGrows(pair, run, i, j - 1);
      RunInv(pair, run, j - 1);
      assert StepAt(pair, run, j);
      StepGrowsBoth(pair, run[j - 1], run[j]);
      GrowsOn(run[i].a, run[j - 1].a, run[j].a);
      GrowsOn(run[i].b, run[j - 1].b, run[j].b);
    }
  }

  lemma GrowsAtOnce<S>(pair: Pair<S>, s: Sys<S>)
    requires Inv(pair, s)
    ensures Grows(s.a, s.a) && Grows(s.b, s.b)
  {
  }

  lemma GrowsOn<S>(p: Node<S>, q: Node<S>, r: Node<S>)
    requires Grows(p, q) && Grows(q, r)
    ensures Grows(p, r)
  {
  }
}
