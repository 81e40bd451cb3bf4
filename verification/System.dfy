/**
 * Two sessions over one socket pair, as a step system.
 *
 * Any step of either side may come next: an application call, an output event that moves any number of bytes, a
 * read of any number of bytes, one turn of the read loop. `sent`, `log`, `got` and `calls` are history: no step
 * looks at them.
 */
module System {
  import opened Bytes
  import opened Framing
  import opened Codec
  import opened Identity
  import opened Protocol
  import opened BusModel
  import opened Wrappers

  /** Why a frame was queued: a call, another request, or the answer to the n-th frame dispatched here. */
  datatype Sent =
    | Invoked(target: ObjectId, name: Text, args: seq<Value>, ty: Type)
    | Requested(kind: byte, fields: seq<Value>)
    | Answered(n: nat)

  /** The call a request table entry stands for: the index of its frame, and how many frames were heard before it. */
  datatype Call = Call(index: nat, since: nat)

  /**
   * One side. `inbox` is what the read loop has not looked at yet, `wire` what this side wrote and the other has not
   * read. `sent` are all payloads ever queued, `log` why, `got` all payloads ever dispatched.
   */
  datatype Node<S> = Node(
    bus: Bus<S>,
    inbox: seq<byte>,
    wire: seq<byte>,
    sent: seq<seq<byte>>,
    log: seq<Sent>,
    got: seq<seq<byte>>,
    calls: map<u32, Call>)

  /** The fixed part of a side: its service id, its objects, and its server state at the start. */
  datatype Site<!S> = Site(id: ServiceId, env: Env<S>, start: Server<S>)

  datatype Action =
    | DoInvoke(target: ObjectId, name: Text, args: seq<Value>, ty: Type)
    | DoRequest(kind: byte, fields: seq<Value>)
    | DoWrite(n: nat)
    | DoRead(n: nat)
    | DoTurn

  predicate PlainKind(kind: byte) {
    kind !in {REQUEST_INVOKE, RESPONSE_RESULT, RESPONSE_EXCEPTION}
  }

  ghost predicate Enabled<S>(me: Node<S>, peer: Node<S>, peerId: ServiceId, action: Action) {
    match action
    case DoInvoke(_, _, _, _) => true
    case DoRequest(kind, _) => PlainKind(kind)
    case DoWrite(n) =>
      && peerId in me.bus.conns
      && var queue := me.bus.conns[peerId].queue;
      && queue != [] && n <= |queue[0].Remaining()|
    case DoRead(n) => me.inbox == [] && 0 < n <= |peer.wire| && n <= READ_BUFFER_SIZE
    case DoTurn => me.inbox != [] && Ready(me.bus, peerId)
  }

  /** A payload queued for the peer. */
  function Posting<S>(me: Node<S>, peerId: ServiceId, payload: seq<byte>, why: Sent): Node<S> {
    me.(bus := Post(me.bus, peerId, payload), sent := me.sent + [payload], log := me.log + [why])
  }

  function Invoking<S>(me: Node<S>, peerId: ServiceId, action: Action): Node<S>
    requires action.DoInvoke?
  {
    var DoInvoke(target, name, args, ty) := action;
    me.(bus := PostInvoke(me.bus, peerId, target, name, args, ty),
        sent := me.sent + [InvokePayload(target, name, args)],
        log := me.log + [Invoked(target, name, args, ty)],
        calls := me.calls[NextSerial(me.bus, peerId) := Call(|me.sent|, |me.got|)])
  }

  function Writing<S>(me: Node<S>, peerId: ServiceId, n: nat): Node<S>
    requires peerId in me.bus.conns
    requires me.bus.conns[peerId].queue != [] && n <= |me.bus.conns[peerId].queue[0].Remaining()|
  {
    var c := me.bus.conns[peerId];
    me.(bus := me.bus.(conns := me.bus.conns[peerId := OnOutput(c, n)]),
        wire := me.wire + c.queue[0].Remaining()[..n])
  }

  /** One turn of the read loop. */
  function Turning<S>(env: Env<S>, me: Node<S>, peerId: ServiceId): Node<S>
    requires Ready(me.bus, peerId)
  {
    var c := me.bus.conns[peerId];
    var (bus, n) := Consume(env, me.bus, peerId, me.inbox);
    var now := c.held + me.inbox[..n];
    var turned := me.(bus := bus, inbox := me.inbox[n..]);
    if !Complete(now) then turned
    else
      var heard := turned.(got := me.got + [now[4..]]);
      match Serve(env, me.bus.server, c.readSerial, now[4..]).1
      case None => heard
      case Some(reply) => heard.(sent := me.sent + [reply], log := me.log + [Answered(|me.got|)])
  }

  /** A step of `me`: both sides afterwards. */
  ghost function Step<S>(env: Env<S>, me: Node<S>, peer: Node<S>, peerId: ServiceId, action: Action): (Node<S>, Node<S>)
    requires Enabled(me, peer, peerId, action)
  {
    match action
    case DoInvoke(_, _, _, _) => (Invoking(me, peerId, action), peer)
    case DoRequest(kind, fields) => (Posting(me, peerId, RequestPayload(kind, fields), Requested(kind, fields)), peer)
    case DoWrite(n) => (Writing(me, peerId, n), peer)
    case DoRead(n) => (me.(inbox := peer.wire[..n]), peer.(wire := peer.wire[n..]))
    case DoTurn => (Turning(env, me, peerId), peer)
  }

  // ----- what holds in every state -----

  /** Bytes on the way from `me` to `peer`: read by the peer's task, in its buffer, on the wire, in the queue. */
  function Transit<S>(me: Node<S>, peer: Node<S>, myId: ServiceId, peerId: ServiceId): seq<byte> {
    ConnTo(peer.bus, myId).held + (peer.inbox + (me.wire + Unsent(ConnTo(me.bus, peerId).queue)))
  }

  /** Byte conservation and the two counters, for the direction from `me` to `peer`. */
  ghost predicate ChannelOk<S>(me: Node<S>, peer: Node<S>, myId: ServiceId, peerId: ServiceId) {
    && me.bus.conns.Keys == {peerId}
    && Ready(peer.bus, myId)
    && Stream(me.sent) == Stream(peer.got) + Transit(me, peer, myId, peerId)
    && Fits(peer.got)
    && QueueOk(me.bus.conns[peerId])
    && me.bus.conns[peerId].writeSerial == Truncate32(|me.sent|)
    && peer.bus.conns[myId].readSerial == Truncate32(|peer.got|)
  }

  /** The server state after dispatching `frames`. */
  function Replay<S>(site: Site<S>, frames: seq<seq<byte>>): Server<S>
    decreases |frames|
  {
    if frames == [] then site.start
    else
      var n := |frames| - 1;
      Serve(site.env, Replay(site, frames[..n]), Truncate32(n), frames[n]).0
  }

  /** The reply to the n-th dispatched frame. */
  function AnswerTo<S>(site: Site<S>, frames: seq<seq<byte>>, n: nat): Option<seq<byte>>
    requires n < |frames|
  {
    Serve(site.env, Replay(site, frames[..n]), Truncate32(n), frames[n]).1
  }

  ghost predicate SentOk<S>(site: Site<S>, me: Node<S>, r: nat)
    requires r < |me.log| && r < |me.sent|
  {
    match me.log[r]
    case Invoked(target, name, args, _) => me.sent[r] == InvokePayload(target, name, args)
    case Requested(kind, fields) => PlainKind(kind) && me.sent[r] == RequestPayload(kind, fields)
    case Answered(n) => n < |me.got| && AnswerTo(site, me.got, n) == Some(me.sent[r])
  }

  ghost predicate HasAnswer(log: seq<Sent>, n: nat) {
    exists r :: 0 <= r < |log| && log[r] == Answered(n)
  }

  /** The server state is the replay of what was dispatched, and each frame that wants an answer has exactly one. */
  ghost predicate ServerOk<S>(site: Site<S>, me: Node<S>) {
    && me.bus.server == Replay(site, me.got)
    && |me.log| == |me.sent|
    && (forall r :: 0 <= r < |me.log| ==> SentOk(site, me, r))
    && (forall n :: 0 <= n < |me.got| && AnswerTo(site, me.got, n).Some? ==> HasAnswer(me.log, n))
    && (forall i, j :: 0 <= i < j < |me.log| && me.log[i].Answered? && me.log[j].Answered? ==>
          me.log[i].n < me.log[j].n)
  }

  /** A response that quotes serial `s`. */
  predicate Quotes(data: seq<byte>, s: u32) {
    IsResponse(data) && Quoted(data) == Some(s)
  }

  /** A parser after hearing some frames: every response that quotes its serial has been settled on it, in order. */
  function Folded(p: Parser, frames: seq<seq<byte>>, s: u32): Parser
    decreases |frames|
  {
    if frames == [] then p
    else
      var k := |frames| - 1;
      var before := Folded(p, frames[..k], s);
      if Quotes(frames[k], s) then Completed(before, frames[k]) else before
  }

  /**
   * The entry under serial `s` belongs to the last call sent under it, and is the fold of every response that was
   * heard since the call and quotes the serial.
   */
  ghost predicate CallOk<S>(me: Node<S>, peerId: ServiceId, s: u32)
    requires s in me.calls && RequestKey(peerId, s) in me.bus.requests
  {
    var c := me.calls[s];
    && c.index < |me.log| && Truncate32(c.index) == s && me.log[c.index].Invoked?
    && (forall m :: c.index < m < |me.log| && me.log[m].Invoked? ==> Truncate32(m) != s)
    && c.since <= |me.got|
    && me.bus.requests[RequestKey(peerId, s)] == Folded(Fresh(me.log[c.index].ty), me.got[c.since..], s)
  }

  ghost predicate CallsOk<S>(me: Node<S>, peerId: ServiceId) {
    && (forall s: u32 :: s in me.calls <==> RequestKey(peerId, s) in me.bus.requests)
    && (forall m :: 0 <= m < |me.log| && me.log[m].Invoked? ==> Truncate32(m) in me.calls)
    && (forall s: u32 :: s in me.calls ==> CallOk(me, peerId, s))
  }

  // ----- one serial, seen from one side -----

  /** The places of the requests sent under serial `s`, oldest first. */
  function RequestsUnder(log: seq<Sent>, s: u32): seq<nat>
    decreases |log|
  {
    if log == [] then []
    else
      var k := |log| - 1;
      RequestsUnder(log[..k], s) + if !log[k].Answered? && Truncate32(k) == s then [k] else []
  }

  /** How many responses quoting serial `s` were heard. */
  function HeardUnder(got: seq<seq<byte>>, s: u32): nat
    decreases |got|
  {
    if got == [] then 0
    else
      var k := |got| - 1;
      HeardUnder(got[..k], s) + if Quotes(got[k], s) then 1 else 0
  }

  /** When the call was sent, no more responses had been heard under its serial than requests sent under it. */
  ghost predicate BirthOk<S>(me: Node<S>) {
    forall s: u32 :: s in me.calls ==>
      && me.calls[s].index <= |me.log| && me.calls[s].since <= |me.got|
      && HeardUnder(me.got[..me.calls[s].since], s) <= |RequestsUnder(me.log[..me.calls[s].index], s)|
  }
}
