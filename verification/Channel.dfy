/** Every step keeps byte conservation and the counters, in both directions. */
module Channel {
  import opened Bytes
  import opened Framing
  import opened Identity
  import opened Protocol
  import opened BusModel
  import opened System

  lemma NextCount(n: nat)
    ensures Truncate32(Truncate32(n) + 1) == Truncate32(n + 1)
  {
  }

  /** Queueing a payload: the sender's direction. */
  lemma PostOut<S>(me: Node<S>, peer: Node<S>, myId: ServiceId, peerId: ServiceId, payload: seq<byte>, why: Sent)
    requires ChannelOk(me, peer, myId, peerId)
    ensures ChannelOk(Posting(me, peerId, payload, why), peer, myId, peerId)
  {
    var frame := Frame(payload);
    var c := me.bus.conns[peerId];
    StreamSnoc(me.sent, payload);
    EnqueueAppends(c, frame);
    NextCount(|me.sent|);
    var a, b, d, e := peer.bus.conns[myId].held, peer.inbox, me.wire, Unsent(c.queue);
    Reassociate(d, e, frame);
    Reassociate(b, d + e, frame);
    Reassociate(a, b + (d + e), frame);
    Reassociate(Stream(peer.got), Transit(me, peer, myId, peerId), frame);
  }

  /** Queueing a payload leaves the other direction alone. */
  lemma PostIn<S>(me: Node<S>, peer: Node<S>, myId: ServiceId, peerId: ServiceId, payload: seq<byte>, why: Sent)
    requires ChannelOk(peer, me, peerId, myId) && peerId in me.bus.conns
    ensures ChannelOk(peer, Posting(me, peerId, payload, why), peerId, myId)
  {
  }

  lemma WriteOut<S>(me: Node<S>, peer: Node<S>, myId: ServiceId, peerId: ServiceId, n: nat)
    requires ChannelOk(me, peer, myId, peerId) && Enabled(me, peer, peerId, DoWrite(n))
    ensures ChannelOk(Writing(me, peerId, n), peer, myId, peerId)
  {
    var c := me.bus.conns[peerId];
    OutputTakes(c, n);
    OutputKeepsQueueOk(c, n);
    Reassociate(me.wire, c.queue[0].Remaining()[..n], Unsent(OnOutput(c, n).queue));
  }

  lemma WriteIn<S>(me: Node<S>, peer: Node<S>, myId: ServiceId, peerId: ServiceId, n: nat)
    requires ChannelOk(peer, me, peerId, myId) && Enabled(me, peer, peerId, DoWrite(n))
    ensures ChannelOk(peer, Writing(me, peerId, n), peerId, myId)
  {
  }

  lemma ReadBoth<S>(me: Node<S>, peer: Node<S>, myId: ServiceId, peerId: ServiceId, n: nat)
    requires ChannelOk(peer, me, peerId, myId) && ChannelOk(me, peer, myId, peerId)
    requires Enabled(me, peer, peerId, DoRead(n))
    ensures var me', peer' := me.(inbox := peer.wire[..n]), peer.(wire := peer.wire[n..]);
            ChannelOk(peer', me', peerId, myId) && ChannelOk(me', peer', myId, peerId)
  {
    var took, left := peer.wire[..n], peer.wire[n..];
    var unsent := Unsent(peer.bus.conns[myId].queue);
    assert peer.wire == took + left;
    Reassociate(took, left, unsent);
    assert [] + (peer.wire + unsent) == peer.wire + unsent;
  }

  /** A finished frame taken in, before its reply is queued. */
  function Hearing<S>(env: Env<S>, me: Node<S>, peerId: ServiceId, n: nat, payload: seq<byte>): Node<S>
    requires peerId in me.bus.conns && n <= |me.inbox|
  {
    var c := me.bus.conns[peerId];
    var counted := c.(readSerial := Truncate32(c.readSerial + 1), held := []);
    var bus := Bus(me.bus.conns[peerId := counted],
                       Settle(me.bus.requests, peerId, payload),
                       Serve(env, me.bus.server, c.readSerial, payload).0);
    me.(bus := bus, inbox := me.inbox[n..], got := me.got + [payload])
  }

  /** A turn is either more bytes in the read task, or a frame heard and its reply posted. */
  lemma TurnSplits<S>(env: Env<S>, me: Node<S>, peerId: ServiceId)
    requires Ready(me.bus, peerId) && me.inbox != []
    ensures var c := me.bus.conns[peerId];
            var n := Wanted(c.held, me.inbox);
            var now := c.held + me.inbox[..n];
            Turning(env, me, peerId) ==
            if !Complete(now) then me.(bus := WithHeld(me.bus, peerId, now), inbox := me.inbox[n..])
            else
              var heard := Hearing(env, me, peerId, n, now[4..]);
              match Serve(env, me.bus.server, c.readSerial, now[4..]).1
              case None => heard
              case Some(reply) => Posting(heard, peerId, reply, Answered(|me.got|))
  {
  }

  lemma HearIn<S>(env: Env<S>, me: Node<S>, peer: Node<S>, myId: ServiceId, peerId: ServiceId, n: nat)
    requires ChannelOk(peer, me, peerId, myId) && 0 < n <= |me.inbox|
    requires var now := me.bus.conns[peerId].held + me.inbox[..n];
             Complete(now) && |now| == 4 + FromLe(now[..4])
    ensures var now := me.bus.conns[peerId].held + me.inbox[..n];
            ChannelOk(peer, Hearing(env, me, peerId, n, now[4..]), peerId, myId)
  {
    hide Serve, Settle, Unsent;
    var held := me.bus.conns[peerId].held;
    var now := held + me.inbox[..n];
    var coming := peer.wire + Unsent(peer.bus.conns[myId].queue);
    CompleteIsFrame(now);
    NextCount(|me.got|);
    FrameTaken(me.got, held, me.inbox, n, coming);
  }

  /** Counting a finished frame among the dispatched ones moves its bytes and no others. */
  lemma FrameTaken(got: seq<seq<byte>>, held: seq<byte>, inbox: seq<byte>, n: nat, coming: seq<byte>)
    requires n <= |inbox| && |held + inbox[..n]| >= 4
    requires held + inbox[..n] == Frame((held + inbox[..n])[4..])
    ensures Stream(got) + (held + (inbox + coming)) ==
            Stream(got + [(held + inbox[..n])[4..]]) + ([] + (inbox[n..] + coming))
  {
    var took, left := inbox[..n], inbox[n..];
    var now := held + took;
    StreamSnoc(got, now[4..]);
    hide Stream, Frame;
    assert inbox == took + left;
    Reassociate(took, left, coming);
    Reassociate(held, took, left + coming);
    Reassociate(Stream(got), now, left + coming);
    assert [] + (left + coming) == left + coming;
  }

  lemma TurnIn<S>(env: Env<S>, me: Node<S>, peer: Node<S>, myId: ServiceId, peerId: ServiceId)
    requires ChannelOk(peer, me, peerId, myId) && me.inbox != []
    ensures ChannelOk(peer, Turning(env, me, peerId), peerId, myId)
  {
    var c := me.bus.conns[peerId];
    var n := Wanted(c.held, me.inbox);
    var now := c.held + me.inbox[..n];
    ReadProgress(c.held, me.inbox);
    TurnSplits(env, me, peerId);
    if Complete(now) {
      HearIn(env, me, peer, myId, peerId, n);
      var heard := Hearing(env, me, peerId, n, now[4..]);
      match Serve(env, me.bus.server, c.readSerial, now[4..]).1
      case None =>
      case Some(reply) => PostIn(heard, peer, myId, peerId, reply, Answered(|me.got|));
    } else {
      var took, left := me.inbox[..n], me.inbox[n..];
      var coming := peer.wire + Unsent(peer.bus.conns[myId].queue);
      assert me.inbox == took + left;
      Reassociate(took, left, coming);
      Reassociate(c.held, took, left + coming);
    }
  }

  lemma TurnOut<S>(env: Env<S>, me: Node<S>, peer: Node<S>, myId: ServiceId, peerId: ServiceId)
    requires ChannelOk(me, peer, myId, peerId) && Ready(me.bus, peerId) && me.inbox != []
    ensures ChannelOk(Turning(env, me, peerId), peer, myId, peerId)
  {
    var c := me.bus.conns[peerId];
    var n := Wanted(c.held, me.inbox);
    var now := c.held + me.inbox[..n];
    TurnSplits(env, me, peerId);
    if Complete(now) {
      var heard := Hearing(env, me, peerId, n, now[4..]);
      assert ChannelOk(heard, peer, myId, peerId);
      match Serve(env, me.bus.server, c.readSerial, now[4..]).1
      case None =>
      case Some(reply) => PostOut(heard, peer, myId, peerId, reply, Answered(|me.got|));
    }
  }

  /** Registering a parser touches no channel. */
  lemma InvokeIsPosting<S>(me: Node<S>, peerId: ServiceId, action: Action)
    requires action.DoInvoke?
    ensures var after := Invoking(me, peerId, action);
            var DoInvoke(target, name, args, ty) := action;
            var posted := Posting(me, peerId, InvokePayload(target, name, args), Invoked(target, name, args, ty));
            && after.bus.conns == posted.bus.conns && after.bus.server == posted.bus.server
            && after.sent == posted.sent && after.log == posted.log && after.got == posted.got
            && after.wire == posted.wire && after.inbox == posted.inbox
  {
  }

  lemma SameChannel<S>(me: Node<S>, me': Node<S>, peer: Node<S>, myId: ServiceId, peerId: ServiceId)
    requires me.bus.conns == me'.bus.conns && me.sent == me'.sent && me.got == me'.got
    requires me.wire == me'.wire && me.inbox == me'.inbox
    ensures ChannelOk(me, peer, myId, peerId) ==> ChannelOk(me', peer, myId, peerId)
    ensures ChannelOk(peer, me, peerId, myId) ==> ChannelOk(peer, me', peerId, myId)
  {
  }

  /** Every step of either side keeps both directions. */
  lemma StepKeepsChannels<S>(
      env: Env<S>, me: Node<S>, peer: Node<S>, myId: ServiceId, peerId: ServiceId, action: Action)
    requires ChannelOk(me, peer, myId, peerId) && ChannelOk(peer, me, peerId, myId)
    requires Enabled(me, peer, peerId, action)
    ensures var (me', peer') := Step(env, me, peer, peerId, action);
            ChannelOk(me', peer', myId, peerId) && ChannelOk(peer', me', peerId, myId)
  {
    match action
    case DoInvoke(target, name, args, ty) =>
      var payload, why := InvokePayload(target, name, args), Invoked(target, name, args, ty);
      PostOut(me, peer, myId, peerId, payload, why);
      PostIn(me, peer, myId, peerId, payload, why);
      InvokeIsPosting(me, peerId, action);
      SameChannel(Posting(me, peerId, payload, why), Invoking(me, peerId, action), peer, myId, peerId);
    case DoRequest(kind, fields) =>
      PostOut(me, peer, myId, peerId, RequestPayload(kind, fields), Requested(kind, fields));
      PostIn(me, peer, myId, peerId, RequestPayload(kind, fields), Requested(kind, fields));
    case DoWrite(n) =>
      WriteOut(me, peer, myId, peerId, n);
      WriteIn(me, peer, myId, peerId, n);
    case DoRead(n) =>
      ReadBoth(me, peer, myId, peerId, n);
    case DoTurn =>
      TurnIn(env, me, peer, myId, peerId);
      TurnOut(env, me, peer, myId, peerId);
  }

  /** What has been dispatched is a prefix of what was sent, as soon as everything sent fits the header. */
  lemma InOrder<S>(me: Node<S>, peer: Node<S>, myId: ServiceId, peerId: ServiceId)
    requires ChannelOk(me, peer, myId, peerId) && Fits(me.sent)
    ensures |peer.got| <= |me.sent| && peer.got == me.sent[..|peer.got|]
    ensures Transit(me, peer, myId, peerId) == Stream(me.sent[|peer.got|..])
  {
    DeliveredIsPrefix(me.sent, peer.got, Transit(me, peer, myId, peerId));
  }
}
