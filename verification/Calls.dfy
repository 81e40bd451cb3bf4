/** Every step keeps the server replay, the one-answer-per-request log, and the request table. */
module Calls {
  import opened Bytes
  import opened Framing
  import opened Codec
  import opened Identity
  import opened Protocol
  import opened BusModel
  import opened System
  import opened Channel
  import opened Wrappers

  // ----- the serving side -----

  lemma PlainIsNoResponse(kind: byte, fields: seq<Value>)
    ensures IsResponse(RequestPayload(kind, fields)) <==> kind in {RESPONSE_RESULT, RESPONSE_EXCEPTION}
  {
    RequestHead(kind, fields);
  }

  /** A sent frame is a response exactly when it answers something, and then it quotes that frame's serial. */
  lemma AnswersAreResponses<S>(site: Site<S>, me: Node<S>, r: nat)
    requires r < |me.log| && r < |me.sent| && SentOk(site, me, r)
    ensures IsResponse(me.sent[r]) <==> me.log[r].Answered?
    ensures me.log[r].Answered? ==> Quoted(me.sent[r]) == Some(Truncate32(me.log[r].n))
  {
    match me.log[r]
    case Invoked(target, name, args, _) =>
      PlainIsNoResponse(REQUEST_INVOKE, WireFields(target) + [String(name)] + args);
    case Requested(kind, fields) =>
      PlainIsNoResponse(kind, fields);
    case Answered(n) =>
      OneReplyPerRequest(site.env, Replay(site, me.got[..n]), Truncate32(n), me.got[n]);
  }

  lemma PostKeepsServer<S>(site: Site<S>, me: Node<S>, peerId: ServiceId, payload: seq<byte>, why: Sent)
    requires ServerOk(site, me) && !why.Answered?
    requires why.Invoked? ==> payload == InvokePayload(why.target, why.name, why.args)
    requires why.Requested? ==> PlainKind(why.kind) && payload == RequestPayload(why.kind, why.fields)
    ensures ServerOk(site, Posting(me, peerId, payload, why))
  {
    var me' := Posting(me, peerId, payload, why);
    forall r | 0 <= r < |me'.log| ensures SentOk(site, me', r) {
      if r < |me.log| {
        assert SentOk(site, me, r);
      }
    }
    LongerLogAnswers(me.log, why);
  }

  lemma LongerLogAnswers(log: seq<Sent>, why: Sent)
    ensures forall n :: HasAnswer(log, n) ==> HasAnswer(log + [why], n)
  {
    forall n | HasAnswer(log, n) ensures HasAnswer(log + [why], n) {
      var r :| 0 <= r < |log| && log[r] == Answered(n);
      assert (log + [why])[r] == Answered(n);
    }
  }

  lemma SameAnswers<S>(site: Site<S>, got: seq<seq<byte>>, p: seq<byte>)
    ensures Replay(site, got + [p]) == Serve(site.env, Replay(site, got), Truncate32(|got|), p).0
    ensures AnswerTo(site, got + [p], |got|) == Serve(site.env, Replay(site, got), Truncate32(|got|), p).1
    ensures forall n :: 0 <= n < |got| ==> AnswerTo(site, got + [p], n) == AnswerTo(site, got, n)
  {
    var all := got + [p];
    assert all[..|got|] == got && all[|got|] == p;
    forall n | 0 <= n < |got| ensures AnswerTo(site, all, n) == AnswerTo(site, got, n) {
      assert all[..n] == got[..n] && all[n] == got[n];
    }
  }

  /** `me'` is `me` after hearing `p`: the server served it, and the reply, if any, is sent and logged. */
  ghost predicate Heard<S>(site: Site<S>, me: Node<S>, me': Node<S>, p: seq<byte>) {
    var served := Serve(site.env, me.bus.server, Truncate32(|me.got|), p);
    && me'.got == me.got + [p]
    && me'.bus.server == served.0
    && match served.1
       case None => me'.sent == me.sent && me'.log == me.log
       case Some(reply) => me'.sent == me.sent + [reply] && me'.log == me.log + [Answered(|me.got|)]
  }

  lemma SentStays<S>(site: Site<S>, me: Node<S>, me': Node<S>, r: nat)
    requires |me.got| <= |me'.got|
    requires forall n :: 0 <= n < |me.got| ==> AnswerTo(site, me'.got, n) == AnswerTo(site, me.got, n)
    requires r < |me.log| == |me.sent| && r < |me'.log| == |me'.sent|
    requires me'.log[r] == me.log[r] && me'.sent[r] == me.sent[r] && SentOk(site, me, r)
    ensures SentOk(site, me', r)
  {
  }

  lemma HearKeepsSent<S>(site: Site<S>, me: Node<S>, me': Node<S>, p: seq<byte>)
    requires ServerOk(site, me) && Heard(site, me, me', p)
    ensures |me'.log| == |me'.sent|
    ensures forall r :: 0 <= r < |me'.log| ==> SentOk(site, me', r)
  {
    SameAnswers(site, me.got, p);
    var reply := AnswerTo(site, me'.got, |me.got|);
    assert reply.Some? ==> me'.sent == me.sent + [reply.value] && me'.log == me.log + [Answered(|me.got|)];
    forall r | 0 <= r < |me'.log| ensures SentOk(site, me', r) {
      if r < |me.log| {
        SentStays(site, me, me', r);
      }
    }
  }

  lemma HearKeepsAnswers<S>(site: Site<S>, me: Node<S>, me': Node<S>, p: seq<byte>)
    requires ServerOk(site, me) && Heard(site, me, me', p)
    ensures forall n :: 0 <= n < |me'.got| && AnswerTo(site, me'.got, n).Some? ==> HasAnswer(me'.log, n)
  {
    SameAnswers(site, me.got, p);
    LongerLogAnswers(me.log, Answered(|me.got|));
    if AnswerTo(site, me'.got, |me.got|).Some? {
      assert me'.log[|me.log|] == Answered(|me.got|);
    }
  }

  lemma HearKeepsOrder<S>(site: Site<S>, me: Node<S>, me': Node<S>, p: seq<byte>)
    requires ServerOk(site, me) && Heard(site, me, me', p)
    ensures forall i, j :: 0 <= i < j < |me'.log| && me'.log[i].Answered? && me'.log[j].Answered? ==>
                             me'.log[i].n < me'.log[j].n
  {
    forall i, j | 0 <= i < j < |me'.log| && me'.log[i].Answered? && me'.log[j].Answered?
      ensures me'.log[i].n < me'.log[j].n
    {
      assert SentOk(site, me, i);
    }
  }

  lemma HearKeepsServer<S>(site: Site<S>, me: Node<S>, me': Node<S>, p: seq<byte>)
    requires ServerOk(site, me) && Heard(site, me, me', p)
    ensures ServerOk(site, me')
  {
    HearKeepsSent(site, me, me', p);
    HearKeepsAnswers(site, me, me', p);
    HearKeepsOrder(site, me, me', p);
    SameAnswers(site, me.got, p);
  }

  lemma TurnKeepsServer<S>(site: Site<S>, me: Node<S>, peerId: ServiceId)
    requires ServerOk(site, me) && Ready(me.bus, peerId) && me.inbox != []
    requires me.bus.conns[peerId].readSerial == Truncate32(|me.got|)
    ensures ServerOk(site, Turning(site.env, me, peerId))
  {
    var c := me.bus.conns[peerId];
    var now := c.held + me.inbox[..Wanted(c.held, me.inbox)];
    TurnSplits(site.env, me, peerId);
    var me' := Turning(site.env, me, peerId);
    if Complete(now) {
      HearKeepsServer(site, me, me', now[4..]);
    } else {
      SameServer(site, me, me');
    }
  }

  lemma SameServer<S>(site: Site<S>, me: Node<S>, me': Node<S>)
    requires me.bus.server == me'.bus.server && me.sent == me'.sent && me.log == me'.log && me.got == me'.got
    ensures ServerOk(site, me) ==> ServerOk(site, me')
  {
    if ServerOk(site, me) {
      forall r | 0 <= r < |me'.log| ensures SentOk(site, me', r) {
        assert SentOk(site, me, r);
      }
    }
  }

  /** Every step keeps the stepping side's server facts; the other side's cannot change. */
  lemma StepKeepsServer<S>(site: Site<S>, me: Node<S>, peer: Node<S>, peerId: ServiceId, action: Action)
    requires ServerOk(site, me) && Enabled(me, peer, peerId, action)
    requires peerId in me.bus.conns && me.bus.conns[peerId].readSerial == Truncate32(|me.got|)
    ensures ServerOk(site, Step(site.env, me, peer, peerId, action).0)
  {
    var me' := Step(site.env, me, peer, peerId, action).0;
    match action
    case DoInvoke(target, name, args, ty) =>
      var payload, why := InvokePayload(target, name, args), Invoked(target, name, args, ty);
      PostKeepsServer(site, me, peerId, payload, why);
      InvokeIsPosting(me, peerId, action);
      SameServer(site, Posting(me, peerId, payload, why), me');
    case DoRequest(kind, fields) =>
      PostKeepsServer(site, me, peerId, RequestPayload(kind, fields), Requested(kind, fields));
    case DoWrite(n) =>
      SameServer(site, me, me');
    case DoRead(n) =>
      SameServer(site, me, me');
    case DoTurn =>
      TurnKeepsServer(site, me, peerId);
  }

  // ----- the calling side -----

  /** How a step of the peer looks from here: its lists grow, and new answers are to newly dispatched frames. */
  ghost predicate Grows<S>(peer: Node<S>, peer': Node<S>) {
    && |peer.sent| == |peer.log| && |peer'.sent| == |peer'.log|
    && peer.got <= peer'.got && peer.sent <= peer'.sent && peer.log <= peer'.log
    && forall r :: |peer.log| <= r < |peer'.log| && peer'.log[r].Answered? ==> |peer.got| <= peer'.log[r].n
  }

  lemma StepGrows<S>(site: Site<S>, me: Node<S>, peer: Node<S>, peerId: ServiceId, action: Action)
    requires ServerOk(site, me) && Enabled(me, peer, peerId, action)
    requires action.DoTurn? ==> Ready(me.bus, peerId)
    ensures Grows(me, Step(site.env, me, peer, peerId, action).0)
  {
    if action.DoTurn? {
      TurnSplits(site.env, me, peerId);
    }
  }

  /** Steps that neither register nor settle anything. */
  lemma CallsUnderQuietStep<S>(me: Node<S>, me': Node<S>, peerId: ServiceId)
    requires CallsOk(me, peerId)
    requires me'.calls == me.calls && me'.bus.requests == me.bus.requests && me'.got == me.got
    requires me.log <= me'.log && forall m :: |me.log| <= m < |me'.log| ==> !me'.log[m].Invoked?
    ensures CallsOk(me', peerId)
  {
    forall s: u32 | s in me'.calls ensures CallOk(me', peerId, s) {
      assert CallOk(me, peerId, s);
    }
  }

  lemma EntryKept<S>(me: Node<S>, me': Node<S>, peerId: ServiceId, s: u32)
    requires s in me.calls && RequestKey(peerId, s) in me.bus.requests && CallOk(me, peerId, s)
    requires s in me'.calls && me'.calls[s] == me.calls[s] && RequestKey(peerId, s) in me'.bus.requests
    requires me'.bus.requests[RequestKey(peerId, s)] == me.bus.requests[RequestKey(peerId, s)]
    requires me'.got == me.got && me.log <= me'.log
    requires forall m :: |me.log| <= m < |me'.log| && me'.log[m].Invoked? ==> Truncate32(m) != s
    ensures CallOk(me', peerId, s)
  {
  }

  /** A new call: its entry is fresh, and it takes over its serial. */
  lemma CallsUnderInvoke<S>(me: Node<S>, peerId: ServiceId, action: Action)
    requires CallsOk(me, peerId) && action.DoInvoke?
    requires NextSerial(me.bus, peerId) == Truncate32(|me.sent|) && |me.sent| == |me.log|
    ensures CallsOk(Invoking(me, peerId, action), peerId)
  {
    hide Post, InvokePayload, NextSerial, CallOk;
    var me' := Invoking(me, peerId, action);
    forall s: u32 | s in me'.calls ensures CallOk(me', peerId, s) {
      if s == NextSerial(me.bus, peerId) {
        NewCallOk(me, me', peerId, action);
      } else {
        EntryKept(me, me', peerId, s);
      }
    }
  }

  lemma NewCallOk<S>(me: Node<S>, me': Node<S>, peerId: ServiceId, action: Action)
    requires action.DoInvoke? && me' == Invoking(me, peerId, action)
    requires NextSerial(me.bus, peerId) == Truncate32(|me.sent|) && |me.sent| == |me.log|
    ensures CallOk(me', peerId, NextSerial(me.bus, peerId))
  {
    hide Post, InvokePayload, NextSerial, Folded;
    assert me'.got[|me.got|..] == [];
    FoldedNone(Fresh(action.ty), NextSerial(me.bus, peerId));
  }

  lemma FoldedNone(p: Parser, s: u32)
    ensures Folded(p, [], s) == p
  {
  }

  lemma FoldedSnoc(p: Parser, frames: seq<seq<byte>>, frame: seq<byte>, s: u32)
    ensures Folded(p, frames + [frame], s) ==
            if Quotes(frame, s) then Completed(Folded(p, frames, s), frame) else Folded(p, frames, s)
  {
    assert (frames + [frame])[..|frames|] == frames;
  }

  lemma EntryUnderHear<S>(me: Node<S>, me': Node<S>, peerId: ServiceId, frame: seq<byte>, s: u32)
    requires s in me.calls && RequestKey(peerId, s) in me.bus.requests && CallOk(me, peerId, s)
    requires me'.calls == me.calls && me'.got == me.got + [frame]
    requires me'.bus.requests == Settle(me.bus.requests, peerId, frame)
    ensures RequestKey(peerId, s) in me'.bus.requests
    ensures var c := me.calls[s];
            me'.bus.requests[RequestKey(peerId, s)] ==
            Folded(Fresh(me.log[c.index].ty), me'.got[c.since..], s)
  {
    SettleIsolated(me.bus.requests, peerId, frame);
    hide Settle, Completed, IsResponse, Quoted, Folded;
    var c := me.calls[s];
    assert me'.got[c.since..] == me.got[c.since..] + [frame];
    FoldedSnoc(Fresh(me.log[c.index].ty), me.got[c.since..], frame, s);
  }

  /** Hearing a frame settles it on every entry it quotes, and on no other. */
  lemma CallsUnderHear<S>(me: Node<S>, me': Node<S>, peerId: ServiceId, frame: seq<byte>)
    requires CallsOk(me, peerId)
    requires me'.calls == me.calls && me'.got == me.got + [frame]
    requires me'.bus.requests == Settle(me.bus.requests, peerId, frame)
    requires me.log <= me'.log && forall m :: |me.log| <= m < |me'.log| ==> !me'.log[m].Invoked?
    ensures CallsOk(me', peerId)
  {
    SettleIsolated(me.bus.requests, peerId, frame);
    hide Settle, Completed, IsResponse, Quoted, Folded;
    forall s: u32 | s in me'.calls ensures RequestKey(peerId, s) in me'.bus.requests && CallOk(me', peerId, s) {
      assert CallOk(me, peerId, s);
      EntryUnderHear(me, me', peerId, frame, s);
    }
  }

  /** A turn of the read loop. */
  lemma CallsUnderTurn<S>(env: Env<S>, me: Node<S>, peerId: ServiceId)
    requires CallsOk(me, peerId) && Ready(me.bus, peerId) && me.inbox != []
    ensures CallsOk(Turning(env, me, peerId), peerId)
  {
    var c := me.bus.conns[peerId];
    var now := c.held + me.inbox[..Wanted(c.held, me.inbox)];
    TurnSplits(env, me, peerId);
    hide Turning, Serve;
    var me' := Turning(env, me, peerId);
    if Complete(now) {
      CallsUnderHear(me, me', peerId, now[4..]);
    } else {
      CallsUnderQuietStep(me, me', peerId);
    }
  }

  lemma OwnStepKeepsCalls<S>(env: Env<S>, me: Node<S>, peer: Node<S>, peerId: ServiceId, action: Action)
    requires CallsOk(me, peerId) && Enabled(me, peer, peerId, action)
    requires NextSerial(me.bus, peerId) == Truncate32(|me.sent|) && |me.sent| == |me.log|
    ensures CallsOk(Step(env, me, peer, peerId, action).0, peerId)
  {
    hide CallsOk, NextSerial, Truncate32, Unsent;
    match action
    case DoInvoke(_, _, _, _) =>
      CallsUnderInvoke(me, peerId, action);
    case DoTurn =>
      CallsUnderTurn(env, me, peerId);
    case _ =>
      hide Turning, Invoking;
      CallsUnderQuietStep(me, Step(env, me, peer, peerId, action).0, peerId);
  }

  lemma PeerStepKeepsCalls<S>(
      env: Env<S>, me: Node<S>, peer: Node<S>, myId: ServiceId, peerId: ServiceId, action: Action)
    requires CallsOk(peer, myId) && Enabled(me, peer, peerId, action)
    ensures CallsOk(Step(env, me, peer, peerId, action).1, myId)
  {
    hide Turning, Invoking, Writing, Posting, CallsOk;
    CallsUnderQuietStep(peer, Step(env, me, peer, peerId, action).1, myId);
  }

  lemma NextSerialIsCount<S>(me: Node<S>, peer: Node<S>, myId: ServiceId, peerId: ServiceId)
    requires ChannelOk(me, peer, myId, peerId)
    ensures NextSerial(me.bus, peerId) == Truncate32(|me.sent|)
  {
  }

  /** Every step keeps both request tables right, with no condition on payloads or serials. */
  lemma StepKeepsCalls<S>(site: Site<S>, peerSite: Site<S>, me: Node<S>, peer: Node<S>, action: Action)
    requires ChannelOk(me, peer, site.id, peerSite.id) && |me.sent| == |me.log|
    requires CallsOk(me, peerSite.id) && CallsOk(peer, site.id)
    requires Enabled(me, peer, peerSite.id, action)
    ensures var (me', peer') := Step(site.env, me, peer, peerSite.id, action);
            CallsOk(me', peerSite.id) && CallsOk(peer', site.id)
  {
    NextSerialIsCount(me, peer, site.id, peerSite.id);
    hide Step, Enabled, ChannelOk, CallsOk, NextSerial, Truncate32;
    OwnStepKeepsCalls(site.env, me, peer, peerSite.id, action);
    PeerStepKeepsCalls(site.env, me, peer, site.id, peerSite.id, action);
  }
}
