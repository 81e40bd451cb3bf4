/** What a caller can rely on, in every state of every run of two peers. */
module Theorems {
  import opened Bytes
  import opened Protocol
  import opened BusModel
  import opened System
  import opened Channel
  import opened Calls
  import opened Serials
  import opened LocalCalls
  import opened Runs
  import opened Identity

  // ----- what one side can count on its own -----

  /** An entry of the request table together with the call it was last registered for. */
  ghost predicate Registered<S>(me: Node<S>, peerId: ServiceId, s: u32) {
    && s in me.calls && RequestKey(peerId, s) in me.bus.requests
    && me.calls[s].index < |me.log| && Truncate32(me.calls[s].index) == s && me.log[me.calls[s].index].Invoked?
    && me.calls[s].since <= |me.got|
  }

  /** Requests sent under the serial before the call. */
  function SentBefore<S>(me: Node<S>, s: u32): nat
    requires s in me.calls && me.calls[s].index <= |me.log|
  {
    |RequestsUnder(me.log[..me.calls[s].index], s)|
  }

  /** Answers heard under the serial before the call. */
  function HeardBefore<S>(me: Node<S>, s: u32): nat
    requires s in me.calls && me.calls[s].since <= |me.got|
  {
    HeardUnder(me.got[..me.calls[s].since], s)
  }

  /**
   * At most one answer was heard under the serial since the call, and if one was, no request sent before the call was
   * still waiting for an answer under the serial when the call was made.
   */
  ghost predicate Undisturbed<S>(me: Node<S>, peerId: ServiceId, s: u32)
    requires Registered(me, peerId, s)
  {
    || HeardUnder(me.got, s) == HeardBefore(me, s)
    || (HeardBefore(me, s) == SentBefore(me, s) && HeardUnder(me.got, s) == SentBefore(me, s) + 1)
  }

  /** Nothing was waiting under the serial when the call was made, and no other request was sent under it since. */
  ghost predicate Live<S>(me: Node<S>, peerId: ServiceId, s: u32)
    requires Registered(me, peerId, s)
  {
    && HeardBefore(me, s) == SentBefore(me, s)
    && |RequestsUnder(me.log, s)| == SentBefore(me, s) + 1
  }

  /** What `Wait` gives for the call under serial `s` now. */
  ghost function WaitNow<S>(me: Node<S>, peerId: ServiceId, s: u32): WaitResult
    requires Registered(me, peerId, s)
  {
    Collect(me.bus.requests[RequestKey(peerId, s)], me.log[me.calls[s].index].ty)
  }

  /** What the same call gives locally, at the peer, after all the calls queued before it were made locally. */
  ghost function LocalOutcome<S>(peerSite: Site<S>, log: seq<Sent>, index: nat): WaitResult
    requires index < |log| && log[index].Invoked?
  {
    Seen(LocalReply(peerSite, log, index), log[index].ty)
  }

  /** The peer's answer to the frame at place `index` has been dispatched here. */
  ghost predicate AnswerHeard<S>(me: Node<S>, peer: Node<S>, index: nat) {
    exists r :: 0 <= r < |peer.log| && r < |me.got| && peer.log[r] == Answered(index)
  }

  // ----- both sides of a state -----

  /** What every state of a run gives for the direction from `me` to `peer` and back. */
  ghost predicate InTouch<S>(site: Site<S>, peerSite: Site<S>, me: Node<S>, peer: Node<S>) {
    && ServerOk(site, me) && ServerOk(peerSite, peer)
    && |peer.got| <= |me.sent| && peer.got == me.sent[..|peer.got|]
    && |me.got| <= |peer.sent| && me.got == peer.sent[..|me.got|]
    && CallsOk(me, peerSite.id) && BirthOk(me)
  }

  lemma InvInTouch<S>(pair: Pair<S>, s: Sys<S>)
    requires Inv(pair, s) && FitsAll(s)
    ensures InTouch(pair.a, pair.b, s.a, s.b) && InTouch(pair.b, pair.a, s.b, s.a)
  {
    hide ServerOk, CallsOk, BirthOk;
    InOrder(s.a, s.b, pair.a.id, pair.b.id);
    InOrder(s.b, s.a, pair.b.id, pair.a.id);
  }

  lemma RunInTouch<S(!new)>(pair: Pair<S>, run: seq<Sys<S>>, i: nat)
    requires IsRun(pair, run) && i < |run| && FitsAll(run[i])
    ensures InTouch(pair.a, pair.b, run[i].a, run[i].b) && InTouch(pair.b, pair.a, run[i].b, run[i].a)
  {
    hide IsRun, Inv, FitsAll, InTouch;
    RunInv(pair, run, i);
    InvInTouch(pair, run[i]);
  }

  lemma TableIsRegistered<S>(me: Node<S>, peerId: ServiceId, s: u32)
    requires CallsOk(me, peerId) && s in me.calls
    ensures Registered(me, peerId, s)
  {
    hide Folded;
    assert CallOk(me, peerId, s);
  }

  // ----- what the entry of any call shows -----

  lemma EntryIsFold<S>(me: Node<S>, peerId: ServiceId, s: u32)
    requires CallsOk(me, peerId) && s in me.calls
    ensures Registered(me, peerId, s)
    ensures me.bus.requests[RequestKey(peerId, s)] ==
            Folded(Fresh(me.log[me.calls[s].index].ty), me.got[me.calls[s].since..], s)
  {
    TableIsRegistered(me, peerId, s);
    hide Folded;
    assert CallOk(me, peerId, s);
  }

  /**
   * The answers that reached the entry of a call are those to an unbroken stretch of the requests under its serial,
   * from the oldest one waiting when the call was made.
   */
  ghost predicate ShowsStretch<S>(peerSite: Site<S>, me: Node<S>, s: u32)
    requires Registered(me, peerSite.id, s)
  {
    var ps, ty := RequestsUnder(me.log, s), me.log[me.calls[s].index].ty;
    var first, own, next := HeardBefore(me, s), SentBefore(me, s), HeardUnder(me.got, s);
    && first <= own < |ps| && ps[own] == me.calls[s].index && first <= next <= |ps|
    && Places(me.log, ps[first..next])
    && WaitNow(me, peerSite.id, s) == Combined(peerSite, me.log, ps[first..next], ty)
    && (me.bus.requests[RequestKey(peerSite.id, s)].finished <==> first < next)
  }

  lemma CallShowsStretch<S>(site: Site<S>, peerSite: Site<S>, me: Node<S>, peer: Node<S>, s: u32)
    requires InTouch(site, peerSite, me, peer) && s in me.calls
    ensures Registered(me, peerSite.id, s) && ShowsStretch(peerSite, me, s)
  {
    EntryIsFold(me, peerSite.id, s);
    hide CallsOk, ServerOk, RequestsUnder, HeardUnder, Combined, Folded, Places, Collect, LocalReply, Fresh;
    var c := me.calls[s];
    FoldShowsReplies(site, peerSite, me, peer, c.since, |me.got|, s, me.log[c.index].ty);
    assert me.got[c.since..|me.got|] == me.got[c.since..] && me.got[..|me.got|] == me.got;
    RequestPlace(me.log, c.index, s);
  }

  // ----- when that is the call's own outcome -----

  lemma OwnAnswerHeard<S>(site: Site<S>, peerSite: Site<S>, me: Node<S>, peer: Node<S>, n: nat, s: u32)
    requires InTouch(site, peerSite, me, peer)
    requires n < |me.log| && !me.log[n].Answered? && Truncate32(n) == s
    ensures AnswerHeard(me, peer, n) <==> |RequestsUnder(me.log[..n], s)| < HeardUnder(me.got, s)
  {
    hide ServerOk, CallsOk, BirthOk, RequestsUnder, HeardUnder, AnsweredUnder, AnswerHeard, HasAnswer;
    HeardAnswerFirstRequests(site, peerSite, me, peer, |me.got|, s);
    LogIsAsLong(peerSite, peer);
    hide InTouch;
    assert me.got[..|me.got|] == me.got;
    AnsweredListed(peer.log[..|me.got|], s, n);
    AmongTheFirst(me.log, n, s, HeardUnder(me.got, s));
    AnswerInHeardPart(me, peer, n);
  }

  lemma AnswerInHeardPart<S>(me: Node<S>, peer: Node<S>, n: nat)
    requires |me.got| <= |peer.log|
    ensures HasAnswer(peer.log[..|me.got|], n) <==> AnswerHeard(me, peer, n)
  {
    assert forall r :: 0 <= r < |me.got| ==> peer.log[..|me.got|][r] == peer.log[r];
  }

  lemma AmongTheFirst(log: seq<Sent>, n: nat, s: u32, next: nat)
    requires n < |log| && !log[n].Answered? && Truncate32(n) == s && next <= |RequestsUnder(log, s)|
    ensures n in RequestsUnder(log, s)[..next] <==> |RequestsUnder(log[..n], s)| < next
  {
    RequestPlace(log, n, s);
    RequestsListed(log, s);
    hide RequestsUnder;
    var ps, own := RequestsUnder(log, s), |RequestsUnder(log[..n], s)|;
    assert own < next ==> ps[..next][own] == n;
  }

  /** Every answer under the serial heard since the call is the call's own. */
  ghost predicate OnlyOwnAnswers<S>(me: Node<S>, peer: Node<S>, s: u32)
    requires s in me.calls && |me.got| <= |peer.log|
  {
    forall r :: me.calls[s].since <= r < |me.got| && Quotes(me.got[r], s) ==>
      peer.log[r] == Answered(me.calls[s].index)
  }

  lemma UndisturbedHearsOwn<S>(site: Site<S>, peerSite: Site<S>, me: Node<S>, peer: Node<S>, s: u32)
    requires InTouch(site, peerSite, me, peer) && Registered(me, peerSite.id, s) && ShowsStretch(peerSite, me, s)
    requires Undisturbed(me, peerSite.id, s) && |me.got| <= |peer.log|
    ensures OnlyOwnAnswers(me, peer, s)
  {
    hide InTouch, ServerOk, RequestsUnder, Combined, Places, HeardUnder, Quotes, WaitNow;
    var c := me.calls[s];
    forall r | c.since <= r < |me.got| && Quotes(me.got[r], s) ensures peer.log[r] == Answered(c.index) {
      TouchNextQuote(site, peerSite, me, peer, r, s);
      HeardGrows(me.got, c.since, r, s);
      HeardGrows(me.got, r + 1, |me.got|, s);
      assert me.got[..|me.got|] == me.got;
    }
  }

  lemma TouchNextQuote<S>(site: Site<S>, peerSite: Site<S>, me: Node<S>, peer: Node<S>, k: nat, s: u32)
    requires InTouch(site, peerSite, me, peer) && k < |me.got|
    ensures |peer.log| == |peer.sent| && |me.got| <= |peer.log|
    ensures var ps, h := RequestsUnder(me.log, s), HeardUnder(me.got[..k], s);
            && HeardUnder(me.got[..k + 1], s) == h + (if Quotes(me.got[k], s) then 1 else 0)
            && HeardUnder(me.got[..k + 1], s) <= |ps|
            && (Quotes(me.got[k], s) ==> peer.log[k] == Answered(ps[h]))
  {
    hide ServerOk, CallsOk, BirthOk;
    NextQuote(site, peerSite, me, peer, k, s);
  }

  lemma OwnAnswersUndisturb<S>(site: Site<S>, peerSite: Site<S>, me: Node<S>, peer: Node<S>, s: u32)
    requires InTouch(site, peerSite, me, peer) && Registered(me, peerSite.id, s) && ShowsStretch(peerSite, me, s)
    requires |me.got| <= |peer.log| && OnlyOwnAnswers(me, peer, s)
    ensures Undisturbed(me, peerSite.id, s)
  {
    hide InTouch, RequestsUnder, Combined, Places, HeardUnder, Quotes, WaitNow;
    var c, ps := me.calls[s], RequestsUnder(me.log, s);
    var first, own, next := HeardBefore(me, s), SentBefore(me, s), HeardUnder(me.got, s);
    assert me.got[..|me.got|] == me.got;
    RequestsListed(me.log, s);
    if first < next {
      var r := HeardAt(me.got, c.since, |me.got|, s, first);
      TouchNextQuote(site, peerSite, me, peer, r, s);
      assert ps[first] == ps[own] && first == own;
      if first + 1 < next {
        assert ps[own] < ps[own + 1];
        var q := HeardAt(me.got, c.since, |me.got|, s, first + 1);
        TouchNextQuote(site, peerSite, me, peer, q, s);
        assert false;
      }
    }
  }

  /** A call of `me` shows what its stretch of answers shows; undisturbed, that is nothing or its local outcome. */
  ghost predicate CallTransparent<S>(peerSite: Site<S>, me: Node<S>, peer: Node<S>, s: u32)
    requires Registered(me, peerSite.id, s) && |me.got| <= |peer.log|
  {
    && ShowsStretch(peerSite, me, s)
    && (Undisturbed(me, peerSite.id, s) <==> OnlyOwnAnswers(me, peer, s))
    && (AnswerHeard(me, peer, me.calls[s].index) <==> SentBefore(me, s) < HeardUnder(me.got, s))
    && (Undisturbed(me, peerSite.id, s) ==>
          WaitNow(me, peerSite.id, s) ==
          if AnswerHeard(me, peer, me.calls[s].index) then LocalOutcome(peerSite, me.log, me.calls[s].index)
          else Pending)
  }

  lemma CallIsTransparent<S>(site: Site<S>, peerSite: Site<S>, me: Node<S>, peer: Node<S>, s: u32)
    requires InTouch(site, peerSite, me, peer) && s in me.calls
    ensures Registered(me, peerSite.id, s) && |me.got| <= |peer.log| && CallTransparent(peerSite, me, peer, s)
  {
    CallShowsStretch(site, peerSite, me, peer, s);
    LogIsAsLong(peerSite, peer);
    OwnAnswerHeard(site, peerSite, me, peer, me.calls[s].index, s);
    if OnlyOwnAnswers(me, peer, s) {
      OwnAnswersUndisturb(site, peerSite, me, peer, s);
    } else if Undisturbed(me, peerSite.id, s) {
      UndisturbedHearsOwn(site, peerSite, me, peer, s);
    }
    if Undisturbed(me, peerSite.id, s) {
      UndisturbedShowsOwn(peerSite, me, s);
    }
  }

  lemma UndisturbedShowsOwn<S>(peerSite: Site<S>, me: Node<S>, s: u32)
    requires Registered(me, peerSite.id, s) && ShowsStretch(peerSite, me, s) && Undisturbed(me, peerSite.id, s)
    ensures WaitNow(me, peerSite.id, s) ==
            if SentBefore(me, s) < HeardUnder(me.got, s) then LocalOutcome(peerSite, me.log, me.calls[s].index)
            else Pending
  {
    hide RequestsUnder, HeardUnder, Combined, WaitNow;
    var ps, c := RequestsUnder(me.log, s), me.calls[s];
    var first, own, next := HeardBefore(me, s), SentBefore(me, s), HeardUnder(me.got, s);
    if first < next {
      assert ps[first..next] == [c.index];
      CombinedOne(peerSite, me.log, c.index, me.log[c.index].ty);
    } else {
      assert ps[first..next] == [];
      CombinedNone(peerSite, me.log, me.log[c.index].ty);
    }
  }

  ghost predicate Transparent<S>(peerSite: Site<S>, me: Node<S>, peer: Node<S>) {
    forall s: u32 :: s in me.calls ==>
      Registered(me, peerSite.id, s) && |me.got| <= |peer.log| && CallTransparent(peerSite, me, peer, s)
  }

  lemma SideTransparent<S>(site: Site<S>, peerSite: Site<S>, me: Node<S>, peer: Node<S>)
    requires InTouch(site, peerSite, me, peer)
    ensures Transparent(peerSite, me, peer)
    ensures |peer.got| <= |me.log| && peer.bus.server == LocalRun(peerSite, me.log[..|peer.got|])
  {
    hide CallTransparent, Registered;
    forall s: u32 | s in me.calls
      ensures Registered(me, peerSite.id, s) && |me.got| <= |peer.log| && CallTransparent(peerSite, me, peer, s)
    {
      CallIsTransparent(site, peerSite, me, peer, s);
    }
    ReplayIsLocalRun(peerSite, site, me, |peer.got|);
  }

  /**
   * Remote call transparency: after every run, whatever the interleaving and its length, the entry of every call
   * shows what the local replies to an unbroken stretch of the requests under its serial show together. The stretch
   * is the call alone, or empty, exactly when the call is undisturbed; then waiting gives nothing yet, or exactly the
   * value or exception text that the peer's object gives locally to the same method and arguments, in the state left
   * by the calls queued before it. The peer's objects are in the state those local calls leave.
   */
  lemma RemoteCallTransparency<S(!new)>(pair: Pair<S>, run: seq<Sys<S>>, i: nat)
    requires IsRun(pair, run) && i < |run| && FitsAll(run[i])
    ensures var s := run[i];
            && Transparent(pair.b, s.a, s.b) && Transparent(pair.a, s.b, s.a)
            && |s.b.got| <= |s.a.log| && s.b.bus.server == LocalRun(pair.b, s.a.log[..|s.b.got|])
            && |s.a.got| <= |s.b.log| && s.a.bus.server == LocalRun(pair.a, s.b.log[..|s.a.got|])
  {
    RunInTouch(pair, run, i);
    hide IsRun, FitsAll, InTouch, Transparent;
    SideTransparent(pair.a, pair.b, run[i].a, run[i].b);
    SideTransparent(pair.b, pair.a, run[i].b, run[i].a);
  }

  // ----- calls that have their serial to themselves -----

  lemma LiveIsUndisturbed<S>(peerSite: Site<S>, me: Node<S>, s: u32)
    requires Registered(me, peerSite.id, s) && ShowsStretch(peerSite, me, s) && Live(me, peerSite.id, s)
    ensures Undisturbed(me, peerSite.id, s)
  {
    hide RequestsUnder, HeardUnder, Combined, Places, WaitNow;
  }

  /** A call with its serial to itself shows nothing yet, or its local outcome. */
  ghost predicate LiveTransparent<S>(peerSite: Site<S>, me: Node<S>, peer: Node<S>) {
    forall s: u32 :: s in me.calls && Registered(me, peerSite.id, s) && Live(me, peerSite.id, s) ==>
      WaitNow(me, peerSite.id, s) ==
      if AnswerHeard(me, peer, me.calls[s].index) then LocalOutcome(peerSite, me.log, me.calls[s].index) else Pending
  }

  lemma SideLiveTransparent<S>(peerSite: Site<S>, me: Node<S>, peer: Node<S>)
    requires Transparent(peerSite, me, peer)
    ensures LiveTransparent(peerSite, me, peer)
  {
    hide ShowsStretch, Undisturbed, Live, WaitNow, LocalOutcome, OnlyOwnAnswers, SentBefore, HeardUnder, AnswerHeard;
    forall s: u32 | s in me.calls && Registered(me, peerSite.id, s) && Live(me, peerSite.id, s)
      ensures WaitNow(me, peerSite.id, s) ==
              if AnswerHeard(me, peer, me.calls[s].index) then LocalOutcome(peerSite, me.log, me.calls[s].index)
              else Pending
    {
      assert CallTransparent(peerSite, me, peer, s);
      LiveIsUndisturbed(peerSite, me, s);
    }
  }

  /** The sufficient case a caller can arrange: its call has its serial to itself. */
  lemma LiveCallsAreTransparent<S(!new)>(pair: Pair<S>, run: seq<Sys<S>>, i: nat)
    requires IsRun(pair, run) && i < |run| && FitsAll(run[i])
    ensures LiveTransparent(pair.b, run[i].a, run[i].b) && LiveTransparent(pair.a, run[i].b, run[i].a)
  {
    hide StepAt, FitsAll, Transparent, LiveTransparent;
    RemoteCallTransparency(pair, run, i);
    SideLiveTransparent(pair.b, run[i].a, run[i].b);
    SideLiveTransparent(pair.a, run[i].b, run[i].a);
  }

  lemma SameSerialApart(m: nat, n: nat)
    requires m < n && Truncate32(m) == Truncate32(n)
    ensures m + U32_LIMIT <= n
  {
  }

  /** Fewer than 2^32 frames behind a call cannot come round to its serial. */
  lemma UnlappedIsLive<S>(me: Node<S>, peerId: ServiceId, s: u32)
    requires Registered(me, peerId, s) && HeardBefore(me, s) == SentBefore(me, s)
    requires |me.log| <= me.calls[s].index + U32_LIMIT
    ensures Live(me, peerId, s)
  {
    var ps, n := RequestsUnder(me.log, s), me.calls[s].index;
    RequestPlace(me.log, n, s);
    RequestsListed(me.log, s);
    hide RequestsUnder, HeardUnder;
    var own := SentBefore(me, s);
    if own + 1 < |ps| {
      SameSerialApart(ps[own], ps[own + 1]);
    }
  }

  /** A call under a serial that no request had before it is not behind anything. */
  lemma FirstLapSerialIsNew(log: seq<Sent>, n: nat, s: u32)
    requires n <= |log| && n < U32_LIMIT && Truncate32(n) == s
    ensures RequestsUnder(log[..n], s) == []
  {
    var ps := RequestsUnder(log[..n], s);
    RequestsListed(log[..n], s);
    hide RequestsUnder;
    if ps != [] {
      SameSerialApart(ps[0], n);
    }
  }

  ghost predicate AllLive<S>(me: Node<S>, peerId: ServiceId) {
    forall s: u32 :: s in me.calls ==> Registered(me, peerId, s) && Live(me, peerId, s)
  }

  lemma SideEarlyCallsAreLive<S>(site: Site<S>, peerSite: Site<S>, me: Node<S>, peer: Node<S>)
    requires InTouch(site, peerSite, me, peer) && |me.sent| <= U32_LIMIT
    ensures AllLive(me, peerSite.id)
  {
    hide Live, Registered, ShowsStretch;
    forall s: u32 | s in me.calls ensures Registered(me, peerSite.id, s) && Live(me, peerSite.id, s) {
      CallShowsStretch(site, peerSite, me, peer, s);
      EarlyCallIsLive(site, peerSite, me, s);
    }
  }

  lemma EarlyCallIsLive<S>(site: Site<S>, peerSite: Site<S>, me: Node<S>, s: u32)
    requires ServerOk(site, me) && |me.sent| <= U32_LIMIT
    requires Registered(me, peerSite.id, s) && ShowsStretch(peerSite, me, s)
    ensures Live(me, peerSite.id, s)
  {
    LogIsAsLong(site, me);
    hide ServerOk, RequestsUnder, HeardUnder, Combined, Places, WaitNow;
    FirstLapSerialIsNew(me.log, me.calls[s].index, s);
    UnlappedIsLive(me, peerSite.id, s);
  }

  /** In the first 2^32 frames of a direction every registered call has its serial to itself. */
  lemma EarlyCallsAreLive<S(!new)>(pair: Pair<S>, run: seq<Sys<S>>, i: nat)
    requires IsRun(pair, run) && i < |run| && FitsAll(run[i])
    ensures |run[i].a.sent| <= U32_LIMIT ==> AllLive(run[i].a, pair.b.id)
    ensures |run[i].b.sent| <= U32_LIMIT ==> AllLive(run[i].b, pair.a.id)
  {
    RunInTouch(pair, run, i);
    hide IsRun, FitsAll, InTouch, AllLive;
    if |run[i].a.sent| <= U32_LIMIT {
      SideEarlyCallsAreLive(pair.a, pair.b, run[i].a, run[i].b);
    }
    if |run[i].b.sent| <= U32_LIMIT {
      SideEarlyCallsAreLive(pair.b, pair.a, run[i].b, run[i].a);
    }
  }

  // ----- one answer per request, no call lost or duplicated -----

  /** Where a request is: not dispatched yet, answered but the answer not dispatched, or its answer dispatched. */
  datatype Stage = Asked | Answering(r: nat) | Done(r: nat)

  ghost predicate AtStage<S>(me: Node<S>, peer: Node<S>, n: nat, at: Stage) {
    match at
    case Asked => |peer.got| <= n
    case Answering(r) => |me.got| <= r < |peer.log| && peer.log[r] == Answered(n)
    case Done(r) => r < |me.got| && r < |peer.log| && peer.log[r] == Answered(n)
  }

  /** The answer at place `r` is the one answer to the request at place `n`, and carries its local reply. */
  ghost predicate TheAnswer<S>(peerSite: Site<S>, me: Node<S>, peer: Node<S>, n: nat, r: nat)
    requires n < |me.log| && !me.log[n].Answered?
  {
    && r < |peer.log| && r < |peer.sent| && peer.log[r] == Answered(n)
    && peer.sent[r] == ReplyPayload(Truncate32(n), LocalReply(peerSite, me.log, n))
    && forall q :: 0 <= q < |peer.log| && peer.log[q] == Answered(n) ==> q == r
  }

  /** A dispatched request has exactly one answer queued, nothing else has any, and no request is at two stages. */
  ghost predicate AnsweredOnce<S>(peerSite: Site<S>, me: Node<S>, peer: Node<S>) {
    && (forall n :: 0 <= n < |me.log| && !me.log[n].Answered? && n < |peer.got| ==>
          exists r :: TheAnswer(peerSite, me, peer, n, r))
    && (forall n :: 0 <= n < |me.log| && (me.log[n].Answered? || |peer.got| <= n) ==> !HasAnswer(peer.log, n))
    && (forall n :: 0 <= n < |me.log| && !me.log[n].Answered? ==> AtOneStage(me, peer, n))
  }

  ghost predicate AtOneStage<S>(me: Node<S>, peer: Node<S>, n: nat) {
    exists at :: AtStage(me, peer, n, at) && forall other :: AtStage(me, peer, n, other) ==> other == at
  }

  lemma RequestAtOneStage<S>(me: Node<S>, peer: Node<S>, n: nat)
    requires HasAnswer(peer.log, n) <==> n < |peer.got|
    requires forall i, j :: 0 <= i < |peer.log| && 0 <= j < |peer.log| ==>
              (peer.log[i] == Answered(n) && peer.log[j] == Answered(n) ==> i == j)
    ensures AtOneStage(me, peer, n)
  {
    var at := Asked;
    if n < |peer.got| {
      var r: nat :| r < |peer.log| && peer.log[r] == Answered(n);
      at := if r < |me.got| then Done(r) else Answering(r);
    }
    forall other | AtStage(me, peer, n, other) ensures other == at {
      assert other != Asked ==> peer.log[other.r] == Answered(n) && HasAnswer(peer.log, n);
    }
    assert AtStage(me, peer, n, at);
  }

  lemma TheAnswerExists<S>(site: Site<S>, peerSite: Site<S>, me: Node<S>, peer: Node<S>, n: nat)
    requires InTouch(site, peerSite, me, peer) && n < |me.log| && !me.log[n].Answered? && n < |peer.got|
    ensures exists r :: TheAnswer(peerSite, me, peer, n, r)
  {
    hide ServerOk, CallsOk, BirthOk, LocalReply;
    AnsweredExactlyOnce(site, peerSite, me, peer, n);
    LogIsAsLong(peerSite, peer);
    var r :| 0 <= r < |peer.log| && peer.log[r] == Answered(n);
    AnswerIsLocalReply(site, peerSite, me, peer, r);
    assert TheAnswer(peerSite, me, peer, n, r);
  }

  lemma SideAnsweredOnce<S>(site: Site<S>, peerSite: Site<S>, me: Node<S>, peer: Node<S>)
    requires InTouch(site, peerSite, me, peer)
    ensures AnsweredOnce(peerSite, me, peer)
  {
    forall n | 0 <= n < |me.log| && (me.log[n].Answered? || |peer.got| <= n) ensures !HasAnswer(peer.log, n) {
      AnsweredExactlyOnce(site, peerSite, me, peer, n);
    }
    forall n | 0 <= n < |me.log| && !me.log[n].Answered? ensures AtOneStage(me, peer, n) {
      AnsweredExactlyOnce(site, peerSite, me, peer, n);
      RequestAtOneStage(me, peer, n);
    }
    forall n | 0 <= n < |me.log| && !me.log[n].Answered? && n < |peer.got|
      ensures exists r :: TheAnswer(peerSite, me, peer, n, r)
    {
      TheAnswerExists(site, peerSite, me, peer, n);
    }
  }

  /**
   * Exactly one outcome per request: in every state of every run a dispatched request, call or not, has exactly one
   * answer queued, and it carries the request's serial and local reply; any other frame has none.
   */
  lemma OneAnswerPerRequest<S(!new)>(pair: Pair<S>, run: seq<Sys<S>>, i: nat)
    requires IsRun(pair, run) && i < |run| && FitsAll(run[i])
    ensures AnsweredOnce(pair.b, run[i].a, run[i].b) && AnsweredOnce(pair.a, run[i].b, run[i].a)
  {
    RunInTouch(pair, run, i);
    hide IsRun, FitsAll, InTouch, AnsweredOnce;
    SideAnsweredOnce(pair.a, pair.b, run[i].a, run[i].b);
    SideAnsweredOnce(pair.b, pair.a, run[i].b, run[i].a);
  }

  /**
   * The call's entry is finished exactly when an answer under its serial was heard since; undisturbed, exactly when
   * its own request is done, that is when no frame carries it any more.
   */
  ghost predicate OneToken<S>(me: Node<S>, peer: Node<S>, peerId: ServiceId, s: u32)
    requires Registered(me, peerId, s)
  {
    var pending, n := !me.bus.requests[RequestKey(peerId, s)].finished, me.calls[s].index;
    && AtOneStage(me, peer, n)
    && (pending <==> HeardUnder(me.got, s) == HeardBefore(me, s))
    && (Undisturbed(me, peerId, s) ==> (pending <==> !exists r :: AtStage(me, peer, n, Done(r))))
  }

  ghost predicate OneTokenEach<S>(me: Node<S>, peer: Node<S>, peerId: ServiceId) {
    forall s: u32 :: s in me.calls ==> Registered(me, peerId, s) && OneToken(me, peer, peerId, s)
  }

  lemma CallHasOneToken<S>(peerSite: Site<S>, me: Node<S>, peer: Node<S>, s: u32)
    requires Registered(me, peerSite.id, s) && |me.got| <= |peer.log|
    requires CallTransparent(peerSite, me, peer, s) && AnsweredOnce(peerSite, me, peer)
    ensures OneToken(me, peer, peerSite.id, s)
  {
    hide RequestsUnder, HeardUnder, Combined, Places, WaitNow, TheAnswer, AtOneStage, OnlyOwnAnswers;
    var n := me.calls[s].index;
    assert AnswerHeard(me, peer, n) <==> exists r :: AtStage(me, peer, n, Done(r)) by {
      if AnswerHeard(me, peer, n) {
        var r :| 0 <= r < |peer.log| && r < |me.got| && peer.log[r] == Answered(n);
        assert AtStage(me, peer, n, Done(r));
      }
    }
  }

  /**
   * No call is lost or duplicated: in every state of every run each registered call has exactly one frame carrying
   * it, its request or its answer, or its answer was heard; and its entry is pending while nothing was heard for it.
   */
  lemma NoCallLostOrDuplicated<S(!new)>(pair: Pair<S>, run: seq<Sys<S>>, i: nat)
    requires IsRun(pair, run) && i < |run| && FitsAll(run[i])
    ensures OneTokenEach(run[i].a, run[i].b, pair.b.id) && OneTokenEach(run[i].b, run[i].a, pair.a.id)
  {
    RemoteCallTransparency(pair, run, i);
    OneAnswerPerRequest(pair, run, i);
    hide IsRun, FitsAll, Registered, CallTransparent, AnsweredOnce, OneToken;
    var (a, b) := (run[i].a, run[i].b);
    forall s: u32 | s in a.calls ensures Registered(a, pair.b.id, s) && OneToken(a, b, pair.b.id, s) {
      CallHasOneToken(pair.b, a, b, s);
    }
    forall s: u32 | s in b.calls ensures Registered(b, pair.a.id, s) && OneToken(b, a, pair.a.id, s) {
      CallHasOneToken(pair.a, b, a, s);
    }
  }

  // ----- what changes an entry -----

  /** A step sends or hears at most one frame, and registers exactly the call it sends. */
  ghost predicate CallsFollow<S>(me: Node<S>, me': Node<S>) {
    && |me'.got| <= |me.got| + 1 && |me'.log| <= |me.log| + 1
    && forall s: u32 ::
         if CallSent(me, me', s) then s in me'.calls && me'.calls[s] == Call(|me.log|, |me.got|)
         else (s in me'.calls <==> s in me.calls) && (s in me.calls ==> me'.calls[s] == me.calls[s])
  }

  /** The step sent a call, at a place with serial `s`. */
  predicate CallSent<S>(me: Node<S>, me': Node<S>, s: u32) {
    |me.log| < |me'.log| && me'.log[|me.log|].Invoked? && Truncate32(|me.log|) == s
  }

  /** A frame is heard in a step that leaves the other side alone and sends nothing but an answer. */
  ghost predicate HearsAlone<S>(me: Node<S>, peer: Node<S>, me': Node<S>, peer': Node<S>) {
    me'.got != me.got ==> peer' == peer && (|me.log| < |me'.log| ==> me'.log[|me.log|].Answered?)
  }

  lemma StepCallsFollow<S>(site: Site<S>, peerSite: Site<S>, me: Node<S>, peer: Node<S>, action: Action)
    requires ChannelOk(me, peer, site.id, peerSite.id) && ServerOk(site, me) && Enabled(me, peer, peerSite.id, action)
    ensures var (me', peer') := Step(site.env, me, peer, peerSite.id, action);
            && CallsFollow(me, me') && CallsFollow(peer, peer')
            && HearsAlone(me, peer, me', peer') && HearsAlone(peer, me, peer', me')
  {
    hide ServerOk, ChannelOk, CallsFollow, NextSerial, Truncate32, Post, Invoking;
    NothingSent(peer, Step(site.env, me, peer, peerSite.id, action).1);
    match action
    case DoInvoke(_, _, _, _) =>
      NextSerialIsCount(me, peer, site.id, peerSite.id);
      LogIsAsLong(site, me);
      InvokeFollows(me, peerSite.id, action);
    case DoTurn =>
      TurnSplits(site.env, me, peerSite.id);
      NothingSent(me, Turning(site.env, me, peerSite.id));
    case _ =>
      NothingSent(me, Step(site.env, me, peer, peerSite.id, action).0);
  }

  lemma InvokeFollows<S>(me: Node<S>, peerId: ServiceId, action: Action)
    requires action.DoInvoke? && NextSerial(me.bus, peerId) == Truncate32(|me.log|) && |me.sent| == |me.log|
    ensures CallsFollow(me, Invoking(me, peerId, action)) && Invoking(me, peerId, action).got == me.got
  {
    hide NextSerial, Truncate32, Post;
  }

  lemma NothingSent<S>(me: Node<S>, me': Node<S>)
    requires me'.calls == me.calls && |me'.got| <= |me.got| + 1 && |me'.log| <= |me.log| + 1
    requires |me.log| < |me'.log| ==> !me'.log[|me.log|].Invoked?
    ensures CallsFollow(me, me')
  {
  }

  lemma FollowsAt<S>(me: Node<S>, me': Node<S>, s: u32)
    requires CallsFollow(me, me')
    ensures |me'.got| <= |me.got| + 1
    ensures if CallSent(me, me', s) then s in me'.calls && me'.calls[s] == Call(|me.log|, |me.got|)
            else (s in me'.calls <==> s in me.calls) && (s in me.calls ==> me'.calls[s] == me.calls[s])
  {
  }

  lemma PairCallsFollow<S(!new)>(pair: Pair<S>, s: Sys<S>, s': Sys<S>)
    requires Inv(pair, s) && StepOf(pair, s, s')
    ensures CallsFollow(s.a, s'.a) && CallsFollow(s.b, s'.b)
    ensures HearsAlone(s.a, s.b, s'.a, s'.b) && HearsAlone(s.b, s.a, s'.b, s'.a)
  {
    hide CallsFollow, HearsAlone, Step, Enabled;
    var e :| Follows(pair, s, e, s');
    if e.byA {
      StepCallsFollow(pair.a, pair.b, s.a, s.b, e.action);
    } else {
      StepCallsFollow(pair.b, pair.a, s.b, s.a, e.action);
    }
  }

  /** The entry of a call that was not replaced goes on folding what is heard. */
  lemma EntryGoesOn<S>(me: Node<S>, me': Node<S>, peerId: ServiceId, s: u32)
    requires CallsOk(me, peerId) && CallsOk(me', peerId) && s in me.calls && s in me'.calls
    requires me'.calls[s] == me.calls[s] && me.got <= me'.got && me.log <= me'.log
    ensures Registered(me, peerId, s) && Registered(me', peerId, s)
    ensures var key := RequestKey(peerId, s);
            me'.bus.requests[key] == Folded(me.bus.requests[key], me'.got[|me.got|..], s)
  {
    hide CallsOk, Folded, Fresh;
    EntryIsFold(me, peerId, s);
    EntryIsFold(me', peerId, s);
    var since, ty := me.calls[s].since, me.log[me.calls[s].index].ty;
    FoldedOn(Fresh(ty), me.got, me'.got, since, s);
  }

  lemma FoldedOn(p: Parser, got: seq<seq<byte>>, got': seq<seq<byte>>, since: nat, s: u32)
    requires got <= got' && since <= |got|
    ensures Folded(p, got'[since..], s) == Folded(Folded(p, got[since..], s), got'[|got|..], s)
  {
    hide Folded;
    assert got'[since..] == got[since..] + got'[|got|..];
    FoldedAppend(p, got[since..], got'[|got|..], s);
  }

  predicate AnswersUnder(why: Sent, s: u32) {
    why.Answered? && Truncate32(why.n) == s
  }

  /**
   * What one step makes of the entry under `s`: a new call under the serial replaces it, the answer to a request under
   * the serial is settled on it, and nothing else changes it.
   */
  ghost predicate EntryStep<S>(me: Node<S>, peer: Node<S>, me': Node<S>, peerId: ServiceId, s: u32) {
    && Registered(me, peerId, s) && Registered(me', peerId, s) && |me.got| <= |peer.log| == |peer.sent|
    && var key := RequestKey(peerId, s);
       if CallSent(me, me', s) then
         && me'.calls[s] == Call(|me.log|, |me.got|)
         && me'.bus.requests[key] == Fresh(me'.log[|me.log|].ty)
       else
         && me'.calls[s] == me.calls[s]
         && me'.bus.requests[key] ==
            if |me.got| < |me'.got| && |me.got| < |peer.log| && AnswersUnder(peer.log[|me.got|], s) then
              Completed(me.bus.requests[key], peer.sent[|me.got|])
            else me.bus.requests[key]
  }

  lemma NewEntryIsFresh<S>(me: Node<S>, me': Node<S>, peerId: ServiceId, s: u32)
    requires CallsOk(me', peerId) && s in me'.calls && me'.calls[s] == Call(|me.log|, |me.got|)
    requires me'.got == me.got
    ensures Registered(me', peerId, s) && me'.bus.requests[RequestKey(peerId, s)] == Fresh(me'.log[|me.log|].ty)
  {
    TableIsRegistered(me', peerId, s);
    assert CallOk(me', peerId, s);
    hide Folded;
    assert me'.got[|me.got|..] == [];
    FoldedNone(Fresh(me'.log[|me.log|].ty), s);
  }

  lemma SideEntryStep<S>(
      site: Site<S>, peerSite: Site<S>, me: Node<S>, peer: Node<S>, me': Node<S>, peer': Node<S>, s: u32)
    requires InTouch(site, peerSite, me, peer) && InTouch(site, peerSite, me', peer') && s in me.calls
    requires Grows(me, me') && Grows(peer, peer') && CallsFollow(me, me') && HearsAlone(me, peer, me', peer')
    ensures EntryStep(me, peer, me', peerSite.id, s)
  {
    hide ServerOk, BirthOk, CallsOk, Fresh, Completed, CallsFollow, Folded, Truncate32;
    FollowsAt(me, me', s);
    TableIsRegistered(me, peerSite.id, s);
    LogIsAsLong(peerSite, peer);
    if CallSent(me, me', s) {
      NewEntryIsFresh(me, me', peerSite.id, s);
    } else {
      EntryGoesOn(me, me', peerSite.id, s);
      var entry := me.bus.requests[RequestKey(peerSite.id, s)];
      if |me.got| < |me'.got| {
        assert me'.got[|me.got|..] == [] + [peer.sent[|me.got|]];
        FoldedSnoc(entry, [], peer.sent[|me.got|], s);
        QuotesAnswer(peerSite, peer, |me.got|, s);
      } else {
        assert me'.got[|me.got|..] == [];
      }
      FoldedNone(entry, s);
    }
  }

  /** Where there was no entry, one appears exactly when a call is sent under the serial, and it is fresh. */
  ghost predicate EntryAppears<S>(me: Node<S>, me': Node<S>, peerId: ServiceId, s: u32) {
    && s !in me.calls && RequestKey(peerId, s) !in me.bus.requests
    && if CallSent(me, me', s) then
         && Registered(me', peerId, s) && me'.calls[s] == Call(|me.log|, |me.got|)
         && me'.bus.requests[RequestKey(peerId, s)] == Fresh(me'.log[|me.log|].ty)
       else s !in me'.calls && RequestKey(peerId, s) !in me'.bus.requests
  }

  lemma SideEntryAppears<S>(
      site: Site<S>, peerSite: Site<S>, me: Node<S>, peer: Node<S>, me': Node<S>, peer': Node<S>, s: u32)
    requires InTouch(site, peerSite, me, peer) && InTouch(site, peerSite, me', peer') && s !in me.calls
    requires Grows(me, me') && CallsFollow(me, me') && HearsAlone(me, peer, me', peer')
    ensures EntryAppears(me, me', peerSite.id, s)
  {
    assert s in me.calls <==> RequestKey(peerSite.id, s) in me.bus.requests;
    assert s in me'.calls <==> RequestKey(peerSite.id, s) in me'.bus.requests;
    hide ServerOk, BirthOk, CallsOk, Fresh, CallsFollow;
    FollowsAt(me, me', s);
    if CallSent(me, me', s) {
      NewEntryIsFresh(me, me', peerSite.id, s);
    }
  }

  ghost predicate EntriesStep<S>(me: Node<S>, peer: Node<S>, me': Node<S>, peerId: ServiceId) {
    forall s: u32 ::
      if s in me.calls then EntryStep(me, peer, me', peerId, s) else EntryAppears(me, me', peerId, s)
  }

  lemma SideEntriesStep<S>(
      site: Site<S>, peerSite: Site<S>, me: Node<S>, peer: Node<S>, me': Node<S>, peer': Node<S>)
    requires InTouch(site, peerSite, me, peer) && InTouch(site, peerSite, me', peer')
    requires Grows(me, me') && Grows(peer, peer') && CallsFollow(me, me') && HearsAlone(me, peer, me', peer')
    ensures EntriesStep(me, peer, me', peerSite.id)
  {
    hide InTouch, Grows, CallsFollow, HearsAlone, EntryStep, EntryAppears;
    forall s: u32
      ensures if s in me.calls then EntryStep(me, peer, me', peerSite.id, s) else EntryAppears(me, me', peerSite.id, s)
    {
      if s in me.calls {
        SideEntryStep(site, peerSite, me, peer, me', peer', s);
      } else {
        SideEntryAppears(site, peerSite, me, peer, me', peer', s);
      }
    }
  }

  lemma RunStep<S(!new)>(pair: Pair<S>, run: seq<Sys<S>>, i: nat)
    requires IsRun(pair, run) && i + 1 < |run|
    ensures Inv(pair, run[i]) && Inv(pair, run[i + 1]) && StepOf(pair, run[i], run[i + 1])
    ensures Grows(run[i].a, run[i + 1].a) && Grows(run[i].b, run[i + 1].b)
    ensures FitsAll(run[i + 1]) ==> FitsAll(run[i])
  {
    RunInv(pair, run, i);
    RunInv(pair, run, i + 1);
    assert StepAt(pair, run, i + 1);
    hide Inv, StepOf;
    StepGrowsBoth(pair, run[i], run[i + 1]);
    if FitsAll(run[i + 1]) {
      FitsShrinks(run[i].a.sent, run[i + 1].a.sent);
      FitsShrinks(run[i].b.sent, run[i + 1].b.sent);
    }
  }

  /** Exactly which steps make or change an entry, and to what: on both sides, in every step of every run. */
  lemma EntryChangesExactly<S(!new)>(pair: Pair<S>, run: seq<Sys<S>>, i: nat)
    requires IsRun(pair, run) && i + 1 < |run| && FitsAll(run[i + 1])
    ensures EntriesStep(run[i].a, run[i].b, run[i + 1].a, pair.b.id)
    ensures EntriesStep(run[i].b, run[i].a, run[i + 1].b, pair.a.id)
  {
    RunStep(pair, run, i);
    RunInTouch(pair, run, i);
    RunInTouch(pair, run, i + 1);
    PairCallsFollow(pair, run[i], run[i + 1]);
    hide IsRun, FitsAll, Inv, StepOf, InTouch, EntriesStep, CallsFollow, Grows, HearsAlone;
    var (s, s') := (run[i], run[i + 1]);
    SideEntriesStep(pair.a, pair.b, s.a, s.b, s'.a, s'.b);
    SideEntriesStep(pair.b, pair.a, s.b, s.a, s'.b, s'.a);
  }

  /** If the step hears the answer to something other than a call, it leaves the entry of every live call alone. */
  ghost predicate OthersChangeNoCall<S>(me: Node<S>, peer: Node<S>, me': Node<S>, peerId: ServiceId) {
    |me.got| < |me'.got| && |me.got| < |peer.log| && peer.log[|me.got|].Answered? &&
    peer.log[|me.got|].n < |me'.log| && !me'.log[peer.log[|me.got|].n].Invoked? ==>
      forall s: u32 :: s in me.calls && Registered(me', peerId, s) && Live(me', peerId, s) ==>
        && RequestKey(peerId, s) in me.bus.requests
        && me'.bus.requests[RequestKey(peerId, s)] == me.bus.requests[RequestKey(peerId, s)]
  }

  /** For a live call the next answer under its serial is its own. */
  lemma LiveHearsOwn<S>(site: Site<S>, peerSite: Site<S>, me: Node<S>, peer: Node<S>, k: nat, s: u32)
    requires InTouch(site, peerSite, me, peer) && s in me.calls && me.calls[s].since <= k < |me.got|
    requires Registered(me, peerSite.id, s) && Live(me, peerSite.id, s)
    ensures |me.got| <= |peer.log| && (AnswersUnder(peer.log[k], s) ==> peer.log[k] == Answered(me.calls[s].index))
  {
    hide ServerOk, CallsOk, BirthOk, RequestsUnder, HeardUnder, Quotes, Combined, Places, WaitNow;
    CallShowsStretch(site, peerSite, me, peer, s);
    TouchNextQuote(site, peerSite, me, peer, k, s);
    QuotesAnswer(peerSite, peer, k, s);
    HeardGrows(me.got, me.calls[s].since, k, s);
    assert |me.got| <= |peer.log| && me.got[k] == peer.sent[k];
  }

  lemma OneOtherChangesNoCall<S>(
      site: Site<S>, peerSite: Site<S>, me: Node<S>, peer: Node<S>, me': Node<S>, peer': Node<S>, s: u32)
    requires InTouch(site, peerSite, me', peer') && EntryStep(me, peer, me', peerSite.id, s)
    requires HearsAlone(me, peer, me', peer') && |me.got| < |me'.got|
    requires Registered(me', peerSite.id, s) && Live(me', peerSite.id, s)
    requires |me.got| < |peer.log| && peer.log[|me.got|].Answered?
    requires peer.log[|me.got|].n < |me'.log| && !me'.log[peer.log[|me.got|].n].Invoked?
    ensures me'.bus.requests[RequestKey(peerSite.id, s)] == me.bus.requests[RequestKey(peerSite.id, s)]
  {
    hide InTouch, Live;
    LiveHearsOwn(site, peerSite, me', peer', |me.got|, s);
  }

  lemma SideOthersChangeNoCall<S>(
      site: Site<S>, peerSite: Site<S>, me: Node<S>, peer: Node<S>, me': Node<S>, peer': Node<S>)
    requires InTouch(site, peerSite, me', peer') && EntriesStep(me, peer, me', peerSite.id)
    requires HearsAlone(me, peer, me', peer')
    ensures OthersChangeNoCall(me, peer, me', peerSite.id)
  {
    hide InTouch, Live, HearsAlone;
    var k := |me.got|;
    if k < |me'.got| && k < |peer.log| && peer.log[k].Answered? && peer.log[k].n < |me'.log| &&
       !me'.log[peer.log[k].n].Invoked? {
      forall s: u32 | s in me.calls && Registered(me', peerSite.id, s) && Live(me', peerSite.id, s)
        ensures RequestKey(peerSite.id, s) in me.bus.requests
        ensures me'.bus.requests[RequestKey(peerSite.id, s)] == me.bus.requests[RequestKey(peerSite.id, s)]
      {
        assert EntryStep(me, peer, me', peerSite.id, s);
        OneOtherChangesNoCall(site, peerSite, me, peer, me', peer', s);
      }
    }
  }

  /** In every step of every run: hearing the answer to a frame that was no call, such as a release. */
  lemma OtherAnswersChangeNoCall<S(!new)>(pair: Pair<S>, run: seq<Sys<S>>, i: nat)
    requires IsRun(pair, run) && i + 1 < |run| && FitsAll(run[i + 1])
    ensures OthersChangeNoCall(run[i].a, run[i].b, run[i + 1].a, pair.b.id)
    ensures OthersChangeNoCall(run[i].b, run[i].a, run[i + 1].b, pair.a.id)
  {
    EntryChangesExactly(pair, run, i);
    RunStep(pair, run, i);
    RunInTouch(pair, run, i + 1);
    PairCallsFollow(pair, run[i], run[i + 1]);
    hide IsRun, FitsAll, Inv, StepOf, InTouch, EntriesStep, CallsFollow, Grows, HearsAlone, OthersChangeNoCall;
    SideOthersChangeNoCall(pair.a, pair.b, run[i].a, run[i].b, run[i + 1].a, run[i + 1].b);
    SideOthersChangeNoCall(pair.b, pair.a, run[i].b, run[i].a, run[i + 1].b, run[i + 1].a);
  }

  // ----- a finished call -----

  /** Calls of `me` still stand in `me'`, or were replaced by one sent later. */
  ghost predicate CallsStand<S>(me: Node<S>, me': Node<S>) {
    forall s: u32 :: s in me.calls ==>
      s in me'.calls && (me'.calls[s] == me.calls[s] || |me.log| <= me'.calls[s].index)
  }

  lemma CallsStandOn<S>(me: Node<S>, me': Node<S>, me'': Node<S>)
    requires CallsStand(me, me') && CallsFollow(me', me'') && Grows(me, me')
    ensures CallsStand(me, me'')
  {
  }

  lemma CallsStandAtOnce<S>(me: Node<S>)
    ensures CallsStand(me, me)
  {
  }

  lemma {:induction false} RunCallsStand<S(!new)>(pair: Pair<S>, run: seq<Sys<S>>, i: nat, j: nat)
    requires IsRun(pair, run) && i <= j < |run|
    ensures CallsStand(run[i].a, run[j].a) && CallsStand(run[i].b, run[j].b)
    decreases j - i
  {
    hide IsRun, Inv, StepOf, CallsFollow, HearsAlone, CallsStand, Grows, FitsAll;
    if i == j {
      CallsStandAtOnce(run[i].a);
      CallsStandAtOnce(run[i].b);
    } else {
      RunCallsStand(pair, run, i, j - 1);
      RunStep(pair, run, j - 1);
      RunGrows(pair, run, i, j - 1);
      PairCallsFollow(pair, run[j - 1], run[j]);
      CallsStandOn(run[i].a, run[j - 1].a, run[j].a);
      CallsStandOn(run[i].b, run[j - 1].b, run[j].b);
    }
  }

  /** A call was sent under the serial at one of the places `i` to `j`. */
  ghost predicate InvokedBetween(log: seq<Sent>, i: nat, j: nat, s: u32) {
    exists m :: i <= m < j && m < |log| && log[m].Invoked? && Truncate32(m) == s
  }

  /**
   * The entry under `s` later in the run: replaced exactly when a call was sent under the serial in between;
   * otherwise folded on, finished once it was finished, changed only by answers under the serial, and for an
   * undisturbed call not changed any more once it is finished.
   */
  ghost predicate EntryLater<S>(me: Node<S>, me': Node<S>, peerId: ServiceId, s: u32) {
    && Registered(me, peerId, s) && Registered(me', peerId, s) && |me.got| <= |me'.got|
    && var before, after := me.bus.requests[RequestKey(peerId, s)], me'.bus.requests[RequestKey(peerId, s)];
       if InvokedBetween(me'.log, |me.log|, |me'.log|, s) then |me.log| <= me'.calls[s].index
       else
         && me'.calls[s] == me.calls[s]
         && after == Folded(before, me'.got[|me.got|..], s)
         && (before.finished ==> after.finished)
         && (HeardUnder(me'.got, s) == HeardUnder(me.got, s) ==> after == before)
         && (before.finished && Undisturbed(me', peerId, s) ==> after == before)
  }

  ghost predicate EntriesLater<S>(me: Node<S>, me': Node<S>, peerId: ServiceId) {
    forall s: u32 :: s in me.calls ==> EntryLater(me, me', peerId, s)
  }

  lemma FinishedMeansHeard<S>(me: Node<S>, peerId: ServiceId, s: u32)
    requires CallsOk(me, peerId) && s in me.calls
    ensures Registered(me, peerId, s)
    ensures me.bus.requests[RequestKey(peerId, s)].finished <==> HeardBefore(me, s) < HeardUnder(me.got, s)
  {
    hide CallsOk, Folded, HeardUnder;
    EntryIsFold(me, peerId, s);
    var c := me.calls[s];
    assert me.got[c.since..|me.got|] == me.got[c.since..] && me.got[..|me.got|] == me.got;
    FoldedFinishes(Fresh(me.log[c.index].ty), me.got, c.since, |me.got|, s);
  }

  lemma KeptEntryLater<S>(me: Node<S>, me': Node<S>, peerId: ServiceId, s: u32)
    requires CallsOk(me, peerId) && CallsOk(me', peerId) && Grows(me, me') && s in me.calls
    requires s in me'.calls && me'.calls[s] == me.calls[s]
    requires !InvokedBetween(me'.log, |me.log|, |me'.log|, s)
    ensures EntryLater(me, me', peerId, s)
  {
    hide CallsOk, Folded, HeardUnder, InvokedBetween;
    EntryGoesOn(me, me', peerId, s);
    FinishedMeansHeard(me, peerId, s);
    FinishedMeansHeard(me', peerId, s);
    FoldedLater(me.bus.requests[RequestKey(peerId, s)], me.got, me'.got, s);
    assert me'.got[..me.calls[s].since] == me.got[..me.calls[s].since];
  }

  lemma FoldedLater(p: Parser, got: seq<seq<byte>>, got': seq<seq<byte>>, s: u32)
    requires got <= got'
    ensures var after := Folded(p, got'[|got|..], s);
            && HeardUnder(got, s) <= HeardUnder(got', s)
            && (HeardUnder(got', s) == HeardUnder(got, s) ==> after == p)
            && (p.finished ==> after.finished)
  {
    hide Folded, HeardUnder;
    assert got'[..|got|] == got && got'[|got|..|got'|] == got'[|got|..] && got'[..|got'|] == got';
    FoldedFinishes(p, got', |got|, |got'|, s);
  }

  lemma SideEntriesLater<S>(me: Node<S>, me': Node<S>, peerId: ServiceId)
    requires CallsOk(me, peerId) && CallsOk(me', peerId) && Grows(me, me') && CallsStand(me, me')
    ensures EntriesLater(me, me', peerId)
  {
    hide EntryLater, CallsOk;
    forall s: u32 | s in me.calls ensures EntryLater(me, me', peerId, s) {
      OneEntryLater(me, me', peerId, s);
    }
  }

  lemma OneEntryLater<S>(me: Node<S>, me': Node<S>, peerId: ServiceId, s: u32)
    requires CallsOk(me, peerId) && CallsOk(me', peerId) && Grows(me, me') && CallsStand(me, me') && s in me.calls
    ensures EntryLater(me, me', peerId, s)
  {
    TableIsRegistered(me, peerId, s);
    TableIsRegistered(me', peerId, s);
    assert CallOk(me, peerId, s) && CallOk(me', peerId, s);
    hide CallsOk, Folded, HeardUnder;
    if InvokedBetween(me'.log, |me.log|, |me'.log|, s) {
      assert |me.log| <= me'.calls[s].index;
    } else {
      KeptEntryLater(me, me', peerId, s);
    }
  }

  /**
   * What becomes of a finished call for the rest of the run, with no condition on payloads or serials: it stays
   * finished under its serial until another call is sent under it, and only answers under the serial change it.
   */
  lemma FinishedStaysFinished<S(!new)>(pair: Pair<S>, run: seq<Sys<S>>, i: nat, j: nat)
    requires IsRun(pair, run) && i <= j < |run|
    ensures EntriesLater(run[i].a, run[j].a, pair.b.id) && EntriesLater(run[i].b, run[j].b, pair.a.id)
  {
    RunInv(pair, run, i);
    RunInv(pair, run, j);
    RunGrows(pair, run, i, j);
    RunCallsStand(pair, run, i, j);
    hide IsRun, ChannelOk, ServerOk, CallsOk, BirthOk, EntriesLater, CallsStand, Grows;
    SideEntriesLater(run[i].a, run[j].a, pair.b.id);
    SideEntriesLater(run[i].b, run[j].b, pair.a.id);
  }
}
