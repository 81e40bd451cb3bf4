/** One session with its connections as a value, and what every event does to it. */
module BusModel {
  import opened Bytes
  import opened Framing
  import opened Codec
  import opened Identity
  import opened Protocol

  const READ_BUFFER_SIZE := 128 * 1024

  /** A queued frame and how much of it the socket has taken. */
  datatype Task = Task(data: seq<byte>, offset: nat) {
    predicate Finished() {
      offset >= |data|
    }

    function Remaining(): seq<byte> {
      if Finished() then [] else data[offset..]
    }

    function Complete(size: nat): Task {
      this.(offset := offset + size)
    }
  }

  /** `held` is what the read task has of its current frame; `output` is the interest in writability. */
  datatype Conn = Conn(queue: seq<Task>, writeSerial: u32, readSerial: u32, held: seq<byte>, output: bool)

  datatype Bus<S> = Bus(conns: map<ServiceId, Conn>, requests: Requests, server: Server<S>)

  const NEW_CONN := Conn([], 0, 0, [], false)

  // ----- writing -----

  function Enqueue(c: Conn, frame: seq<byte>): Conn {
    c.(queue := c.queue + [Task(frame, 0)], writeSerial := Truncate32(c.writeSerial + 1), output := true)
  }

  /** An output event at which the socket takes `n` bytes of the front task. */
  function OnOutput(c: Conn, n: nat): Conn {
    if c.queue == [] then c.(output := false)
    else
      var task := c.queue[0].Complete(n);
      var queue := if task.Finished() then c.queue[1..] else [task] + c.queue[1..];
      c.(queue := queue, output := c.output && queue != [])
  }

  /** An output event at which the socket takes up to `n` bytes. */
  function Written<S>(bus: Bus<S>, origin: ServiceId, n: nat): Bus<S>
    requires origin in bus.conns
  {
    var c := bus.conns[origin];
    var taken := if c.queue == [] then 0 else Min(n, |c.queue[0].Remaining()|);
    bus.(conns := bus.conns[origin := OnOutput(c, taken)])
  }

  function Unsent(queue: seq<Task>): seq<byte> {
    if queue == [] then [] else queue[0].Remaining() + Unsent(queue[1..])
  }

  /** A session connects on demand. */
  function ConnTo<S>(bus: Bus<S>, to: ServiceId): Conn {
    if to in bus.conns then bus.conns[to] else NEW_CONN
  }

  /** Frames a payload and queues it; the call returns the old write serial. */
  function Post<S>(bus: Bus<S>, to: ServiceId, payload: seq<byte>): Bus<S> {
    bus.(conns := bus.conns[to := Enqueue(ConnTo(bus, to), Frame(payload))])
  }

  function NextSerial<S>(bus: Bus<S>, to: ServiceId): u32 {
    ConnTo(bus, to).writeSerial
  }

  function PostInvoke<S>(bus: Bus<S>, to: ServiceId, o: ObjectId, name: Text, args: seq<Value>, ty: Type): Bus<S> {
    var key := RequestKey(to, NextSerial(bus, to));
    var sent := Post(bus, to, InvokePayload(o, name, args));
    sent.(requests := bus.requests[key := Fresh(ty)])
  }

  // ----- reading -----

  /** A read task never holds more than its header asked for. */
  predicate WithinHeader(held: seq<byte>) {
    |held| >= 4 ==> |held| - 4 <= FromLe(held[..4])
  }

  /** How many of the offered bytes one `Read` takes: first the header, then what the header asks for. */
  function Wanted(held: seq<byte>, data: seq<byte>): (n: nat)
    requires WithinHeader(held)
    ensures n <= |data|
  {
    var h := if |held| < 4 then Min(4 - |held|, |data|) else 0;
    if |held| + h < 4 then h
    else
      var size := FromLe(if |held| < 4 then held + data[..h] else held[..4]);
      h + Min(4 + size - |held| - h, |data| - h)
  }

  /** `OnIncomingData`: serve or settle the frame, and queue the reply if there is one. */
  function OnIncomingData<S>(env: Env<S>, bus: Bus<S>, origin: ServiceId, serial: u32, data: seq<byte>): Bus<S> {
    var (server, reply) := Serve(env, bus.server, serial, data);
    var done := bus.(server := server, requests := Settle(bus.requests, origin, data));
    match reply
    case None => done
    case Some(payload) => Post(done, origin, payload)
  }

  /** A finished read task is counted, dispatched and replaced by an empty one. */
  function Dispatch<S>(env: Env<S>, bus: Bus<S>, origin: ServiceId, payload: seq<byte>): Bus<S>
    requires origin in bus.conns
  {
    var c := bus.conns[origin];
    var counted := c.(readSerial := Truncate32(c.readSerial + 1), held := []);
    OnIncomingData(env, bus.(conns := bus.conns[origin := counted]), origin, c.readSerial, payload)
  }

  ghost predicate Ready<S>(bus: Bus<S>, origin: ServiceId) {
    origin in bus.conns && !Complete(bus.conns[origin].held)
  }

  ghost predicate AllReady<S>(bus: Bus<S>) {
    forall id <- bus.conns :: Ready(bus, id)
  }

  function WithHeld<S>(bus: Bus<S>, origin: ServiceId, held: seq<byte>): Bus<S>
    requires origin in bus.conns
  {
    bus.(conns := bus.conns[origin := bus.conns[origin].(held := held)])
  }

  /** One turn of the read loop. */
  function Consume<S>(env: Env<S>, bus: Bus<S>, origin: ServiceId, data: seq<byte>): (Bus<S>, nat)
    requires origin in bus.conns && WithinHeader(bus.conns[origin].held)
  {
    var held := bus.conns[origin].held;
    var n := Wanted(held, data);
    var now := held + data[..n];
    (if Complete(now) then Dispatch(env, bus, origin, now[4..]) else WithHeld(bus, origin, now), n)
  }

  /** A `Read` of an unfinished task takes at least one byte, and stops at the end of the frame or of the data. */
  lemma ReadProgress(held: seq<byte>, data: seq<byte>)
    requires !Complete(held) && data != []
    ensures var n := Wanted(held, data); var now := held + data[..n];
            && 0 < n && WithinHeader(now)
            && (Complete(now) ==> |now| == 4 + FromLe(now[..4]))
            && (!Complete(now) ==> n == |data|)
  {
    var h := if |held| < 4 then Min(4 - |held|, |data|) else 0;
    var n := Wanted(held, data);
    var now := held + data[..n];
    if |held| < 4 && |held| + h == 4 {
      assert now[..4] == held + data[..h];
    } else if |held| >= 4 {
      assert now[..4] == held[..4];
    }
  }

  /** The read loop stalls exactly on a finished task: that is what a re-entered handler would find. */
  lemma StallsExactlyWhenFinished(held: seq<byte>, data: seq<byte>)
    requires WithinHeader(held) && data != []
    ensures Wanted(held, data) == 0 <==> Complete(held)
  {
    if !Complete(held) {
      ReadProgress(held, data);
    }
  }

  /**
   * Why a handler must not poll: between the end of a frame and the reset of its read task, another turn of the read
   * loop on the same connection takes no byte and dispatches the same payload again.
   */
  lemma ReentryDispatchesAgain<S>(env: Env<S>, bus: Bus<S>, origin: ServiceId, data: seq<byte>)
    requires origin in bus.conns && data != []
    requires WithinHeader(bus.conns[origin].held) && Complete(bus.conns[origin].held)
    ensures Consume(env, bus, origin, data) == (Dispatch(env, bus, origin, bus.conns[origin].held[4..]), 0)
  {
    var held := bus.conns[origin].held;
    StallsExactlyWhenFinished(held, data);
    assert held + data[..0] == held;
  }

  /** Replacing the read task only after the dispatch, as the program does, comes to the same. */
  lemma ResetAfterDispatch<S>(env: Env<S>, bus: Bus<S>, origin: ServiceId, payload: seq<byte>)
    requires origin in bus.conns
    ensures var c := bus.conns[origin];
            var counted := c.(readSerial := Truncate32(c.readSerial + 1));
            var done := OnIncomingData(env, bus.(conns := bus.conns[origin := counted]), origin, c.readSerial, payload);
            origin in done.conns && WithHeld(done, origin, []) == Dispatch(env, bus, origin, payload)
  {
    hide Serve, Settle;
    var c := bus.conns[origin];
    var counted := c.(readSerial := Truncate32(c.readSerial + 1));
    var done := OnIncomingData(env, bus.(conns := bus.conns[origin := counted]), origin, c.readSerial, payload);
    assert WithHeld(done, origin, []).conns == Dispatch(env, bus, origin, payload).conns;
  }

  lemma DispatchReady<S>(env: Env<S>, bus: Bus<S>, origin: ServiceId, payload: seq<byte>)
    requires origin in bus.conns
    ensures Ready(Dispatch(env, bus, origin, payload), origin)
    ensures Dispatch(env, bus, origin, payload).conns[origin].held == []
  {
  }

  lemma ConsumeReady<S>(env: Env<S>, bus: Bus<S>, origin: ServiceId, data: seq<byte>)
    requires Ready(bus, origin) && data != []
    ensures var (after, n) := Consume(env, bus, origin, data);
            Ready(after, origin) && 0 < n <= |data|
  {
    ReadProgress(bus.conns[origin].held, data);
  }

  /** The whole read loop over one buffer. */
  function Feed<S>(env: Env<S>, bus: Bus<S>, origin: ServiceId, data: seq<byte>): (after: Bus<S>)
    requires Ready(bus, origin)
    ensures Ready(after, origin)
    decreases |data|
  {
    if data == [] then bus
    else
      ConsumeReady(env, bus, origin, data);
      var (next, n) := Consume(env, bus, origin, data);
      Feed(env, next, origin, data[n..])
  }

  lemma FeedTurn<S>(env: Env<S>, bus: Bus<S>, origin: ServiceId, data: seq<byte>)
    requires Ready(bus, origin) && data != []
    ensures var (next, n) := Consume(env, bus, origin, data);
            Ready(next, origin) && 0 < n <= |data| && Feed(env, bus, origin, data) == Feed(env, next, origin, data[n..])
  {
    ConsumeReady(env, bus, origin, data);
  }

  function DispatchAll<S>(env: Env<S>, bus: Bus<S>, origin: ServiceId, frames: seq<seq<byte>>): (after: Bus<S>)
    requires origin in bus.conns
    ensures origin in after.conns
    decreases |frames|
  {
    if frames == [] then bus
    else DispatchAll(env, Dispatch(env, bus, origin, frames[0]), origin, frames[1..])
  }

  lemma DecodeFinishedTask(held: seq<byte>, data: seq<byte>, n: nat)
    requires n <= |data| && Complete(held + data[..n])
    requires var now := held + data[..n]; |now| == 4 + FromLe(now[..4])
    ensures var now, d := held + data[..n], Decode(data[n..]);
            Decode(held + data) == Decoded([now[4..]] + d.frames, d.rest)
  {
    var now := held + data[..n];
    CompleteIsFrame(now);
    assert held + data == now + data[n..];
    DecodeFrame(now[4..], data[n..]);
  }

  lemma DispatchAllHead<S>(
      env: Env<S>, bus: Bus<S>, origin: ServiceId, payload: seq<byte>, frames: seq<seq<byte>>)
    requires origin in bus.conns
    ensures DispatchAll(env, bus, origin, [payload] + frames) ==
            DispatchAll(env, Dispatch(env, bus, origin, payload), origin, frames)
  {
    assert ([payload] + frames)[1..] == frames;
  }

  /** The incremental read loop is the whole-stream decoder followed by dispatching its frames. */
  lemma {:induction false} FeedIsDecode<S>(env: Env<S>, bus: Bus<S>, origin: ServiceId, data: seq<byte>)
    requires Ready(bus, origin)
    ensures var d := Decode(bus.conns[origin].held + data);
            Feed(env, bus, origin, data) == WithHeld(DispatchAll(env, bus, origin, d.frames), origin, d.rest)
    decreases |data|
  {
    var held := bus.conns[origin].held;
    if data == [] {
      assert held + data == held;
      assert bus.conns[origin := bus.conns[origin]] == bus.conns;
    } else {
      ReadProgress(held, data);
      var n := Wanted(held, data);
      var now, rest := held + data[..n], data[n..];
      var next := Consume(env, bus, origin, data).0;
      ConsumeReady(env, bus, origin, data);
      FeedIsDecode(env, next, origin, rest);
      if Complete(now) {
        DispatchReady(env, bus, origin, now[4..]);
        assert [] + rest == rest;
        DecodeFinishedTask(held, data, n);
        DispatchAllHead(env, bus, origin, now[4..], Decode(rest).frames);
      } else {
        assert now == held + data && rest == [] && now + [] == now;
      }
    }
  }

  lemma {:induction false} DispatchAllAppend<S>(
      env: Env<S>, bus: Bus<S>, origin: ServiceId, ps: seq<seq<byte>>, qs: seq<seq<byte>>)
    requires origin in bus.conns
    ensures DispatchAll(env, bus, origin, ps + qs) ==
            DispatchAll(env, DispatchAll(env, bus, origin, ps), origin, qs)
    decreases |ps|
  {
    if ps == [] {
      assert ps + qs == qs;
    } else {
      assert (ps + qs)[0] == ps[0] && (ps + qs)[1..] == ps[1..] + qs;
      DispatchAllAppend(env, Dispatch(env, bus, origin, ps[0]), origin, ps[1..], qs);
    }
  }

  lemma DispatchForgetsHeld<S>(env: Env<S>, bus: Bus<S>, origin: ServiceId, held: seq<byte>, payload: seq<byte>)
    requires origin in bus.conns
    ensures Dispatch(env, WithHeld(bus, origin, held), origin, payload) == Dispatch(env, bus, origin, payload)
  {
    var c := bus.conns[origin];
    var counted := c.(readSerial := Truncate32(c.readSerial + 1), held := []);
    assert WithHeld(bus, origin, held).conns[origin := counted] == bus.conns[origin := counted];
  }

  lemma DispatchIgnoresHeld<S>(
      env: Env<S>, bus: Bus<S>, origin: ServiceId, held: seq<byte>, frames: seq<seq<byte>>, rest: seq<byte>)
    requires origin in bus.conns
    ensures WithHeld(DispatchAll(env, WithHeld(bus, origin, held), origin, frames), origin, rest) ==
            WithHeld(DispatchAll(env, bus, origin, frames), origin, rest)
  {
    if frames == [] {
      assert WithHeld(WithHeld(bus, origin, held), origin, rest).conns == WithHeld(bus, origin, rest).conns;
    } else {
      DispatchForgetsHeld(env, bus, origin, held, frames[0]);
    }
  }

  /** Where a buffer is cut does not matter. */
  lemma FeedSplit<S>(env: Env<S>, bus: Bus<S>, origin: ServiceId, s: seq<byte>, t: seq<byte>)
    requires Ready(bus, origin)
    ensures Feed(env, bus, origin, s + t) == Feed(env, Feed(env, bus, origin, s), origin, t)
  {
    var held := bus.conns[origin].held;
    var d := Decode(held + s);
    var e := Decode(d.rest + t);
    var mid := Feed(env, bus, origin, s);
    FeedIsDecode(env, bus, origin, s);
    FeedIsDecode(env, mid, origin, t);
    FeedIsDecode(env, bus, origin, s + t);
    DecodeAppend(held + s, t);
    Reassociate(held, s, t);
    var b := DispatchAll(env, bus, origin, d.frames);
    DispatchAllAppend(env, bus, origin, d.frames, e.frames);
    DispatchIgnoresHeld(env, b, origin, d.rest, e.frames, e.rest);
  }

  function Concat(chunks: seq<seq<byte>>): seq<byte> {
    if chunks == [] then [] else chunks[0] + Concat(chunks[1..])
  }

  function FeedChunks<S>(env: Env<S>, bus: Bus<S>, origin: ServiceId, chunks: seq<seq<byte>>): Bus<S>
    requires Ready(bus, origin)
    decreases |chunks|
  {
    if chunks == [] then bus else FeedChunks(env, Feed(env, bus, origin, chunks[0]), origin, chunks[1..])
  }

  /**
   * Chunking independence: however a byte stream is cut into reads, the session ends in the state it reaches by
   * dispatching the frames of the whole-stream decoder, with the decoder's rest in the read task.
   */
  lemma {:induction false} ChunkingIndependence<S>(
      env: Env<S>, bus: Bus<S>, origin: ServiceId, chunks: seq<seq<byte>>)
    requires Ready(bus, origin)
    ensures var d := Decode(bus.conns[origin].held + Concat(chunks));
            FeedChunks(env, bus, origin, chunks) == WithHeld(DispatchAll(env, bus, origin, d.frames), origin, d.rest)
    decreases |chunks|
  {
    FeedIsDecode(env, bus, origin, Concat(chunks));
    if chunks != [] {
      var next := Feed(env, bus, origin, chunks[0]);
      ChunkingIndependence(env, next, origin, chunks[1..]);
      FeedIsDecode(env, next, origin, Concat(chunks[1..]));
      FeedSplit(env, bus, origin, chunks[0], Concat(chunks[1..]));
    }
  }

  // ----- waiting -----

  /** What one poll reports: bytes arrived on a connection, or its socket takes bytes. */
  datatype PollEvent = Input(origin: ServiceId, data: seq<byte>) | Output(origin: ServiceId, written: nat)

  ghost function Polled<S>(env: Env<S>, bus: Bus<S>, event: PollEvent): Bus<S>
    requires AllReady(bus)
  {
    if event.origin !in bus.conns then bus
    else
      match event
      case Input(origin, data) => Feed(env, bus, origin, data)
      case Output(origin, written) => Written(bus, origin, written)
  }

  lemma ConsumeKeepsAllReady<S>(env: Env<S>, bus: Bus<S>, origin: ServiceId, data: seq<byte>)
    requires AllReady(bus) && origin in bus.conns && data != []
    ensures AllReady(Consume(env, bus, origin, data).0)
  {
    ConsumeReady(env, bus, origin, data);
    var after := Consume(env, bus, origin, data).0;
    forall id | id in after.conns ensures Ready(after, id) {
      if id != origin {
        assert id in bus.conns && after.conns[id].held == bus.conns[id].held;
        assert Ready(bus, id);
      }
    }
  }

  lemma {:induction false} FeedKeepsAllReady<S>(env: Env<S>, bus: Bus<S>, origin: ServiceId, data: seq<byte>)
    requires AllReady(bus) && origin in bus.conns
    ensures AllReady(Feed(env, bus, origin, data))
    decreases |data|
  {
    if data != [] {
      FeedTurn(env, bus, origin, data);
      ConsumeKeepsAllReady(env, bus, origin, data);
      FeedKeepsAllReady(env, Consume(env, bus, origin, data).0, origin, data[Consume(env, bus, origin, data).1..]);
    }
  }

  lemma PolledKeepsAllReady<S>(env: Env<S>, bus: Bus<S>, event: PollEvent)
    requires AllReady(bus)
    ensures AllReady(Polled(env, bus, event))
  {
    if event.origin in bus.conns {
      match event
      case Input(origin, data) => FeedKeepsAllReady(env, bus, origin, data);
      case Output(origin, written) =>
        var after := Written(bus, origin, written);
        forall id | id in after.conns ensures Ready(after, id) {
          assert Ready(bus, id);
        }
    }
  }

  lemma PostInvokeKeepsAllReady<S>(
      bus: Bus<S>, to: ServiceId, target: ObjectId, name: Text, args: seq<Value>, ty: Type)
    requires AllReady(bus)
    ensures AllReady(PostInvoke(bus, to, target, name, args, ty))
  {
    var after := PostInvoke(bus, to, target, name, args, ty);
    forall id | id in after.conns ensures Ready(after, id) {
      assert id in bus.conns ==> Ready(bus, id);
    }
  }

  predicate IsFinished(requests: Requests, key: RequestKey) {
    key in requests && requests[key].finished
  }

  /** Polling until the call is finished, or the poll times out behind the last event. */
  ghost function PollUntilFinished<S>(env: Env<S>, bus: Bus<S>, key: RequestKey, events: seq<PollEvent>): (Bus<S>, bool)
    requires AllReady(bus)
    decreases |events|
  {
    if events == [] then (bus, false)
    else
      var next := Polled(env, bus, events[0]);
      PolledKeepsAllReady(env, bus, events[0]);
      if IsFinished(next.requests, key) then (next, true) else PollUntilFinished(env, next, key, events[1..])
  }

  /** The session after the events, whatever they bring. */
  ghost function PolledAll<S>(env: Env<S>, bus: Bus<S>, events: seq<PollEvent>): (after: Bus<S>)
    requires AllReady(bus)
    ensures AllReady(after)
    decreases |events|
  {
    if events == [] then bus
    else
      PolledKeepsAllReady(env, bus, events[0]);
      PolledAll(env, Polled(env, bus, events[0]), events[1..])
  }

  /** The reply is there after the first `k` events. */
  ghost predicate ThereAfter<S>(env: Env<S>, bus: Bus<S>, key: RequestKey, events: seq<PollEvent>, k: nat)
    requires AllReady(bus) && k <= |events|
  {
    IsFinished(PolledAll(env, bus, events[..k]).requests, key)
  }

  lemma ThereAfterHead<S>(env: Env<S>, bus: Bus<S>, key: RequestKey, events: seq<PollEvent>, k: nat)
    requires AllReady(bus) && 0 < k <= |events|
    ensures AllReady(Polled(env, bus, events[0]))
    ensures PolledAll(env, bus, events[..k]) == PolledAll(env, Polled(env, bus, events[0]), events[1..][..k - 1])
    ensures ThereAfter(env, bus, key, events, k) ==
            ThereAfter(env, Polled(env, bus, events[0]), key, events[1..], k - 1)
  {
    PolledKeepsAllReady(env, bus, events[0]);
    assert events[..k][0] == events[0] && events[..k][1..] == events[1..][..k - 1];
  }

  /** Waiting reports the reply at the first event after which it is there, and leaves the rest of the events alone. */
  lemma {:induction false} PollStopsAtReply<S>(
      env: Env<S>, bus: Bus<S>, key: RequestKey, events: seq<PollEvent>, k: nat)
    requires AllReady(bus) && 0 < k <= |events| && ThereAfter(env, bus, key, events, k)
    requires forall i :: 0 < i < k ==> !ThereAfter(env, bus, key, events, i)
    ensures PollUntilFinished(env, bus, key, events) == (PolledAll(env, bus, events[..k]), true)
    decreases |events|
  {
    hide Polled, AllReady, PolledAll, ThereAfter;
    var next := Polled(env, bus, events[0]);
    ThereAfterHead(env, bus, key, events, 1);
    ThereAfterNow(env, next, key, events[1..]);
    if k > 1 {
      forall i | 0 < i < k - 1 ensures !ThereAfter(env, next, key, events[1..], i) {
        ThereAfterHead(env, bus, key, events, i + 1);
      }
      assert !ThereAfter(env, bus, key, events, 1);
      ThereAfterHead(env, bus, key, events, k);
      PollStopsAtReply(env, next, key, events[1..], k - 1);
    }
  }

  lemma ThereAfterNow<S>(env: Env<S>, bus: Bus<S>, key: RequestKey, events: seq<PollEvent>)
    requires AllReady(bus)
    ensures ThereAfter(env, bus, key, events, 0) == IsFinished(bus.requests, key)
    ensures PolledAll(env, bus, events[..0]) == bus
  {
    assert events[..0] == [];
  }

  /** Waiting times out exactly when the reply is there after none of the events. */
  lemma {:induction false} PollTimesOut<S>(env: Env<S>, bus: Bus<S>, key: RequestKey, events: seq<PollEvent>)
    requires AllReady(bus) && forall i :: 0 < i <= |events| ==> !ThereAfter(env, bus, key, events, i)
    ensures PollUntilFinished(env, bus, key, events) == (PolledAll(env, bus, events), false)
    decreases |events|
  {
    hide Polled, AllReady, ThereAfter;
    if events != [] {
      var next := Polled(env, bus, events[0]);
      ThereAfterHead(env, bus, key, events, 1);
      ThereAfterNow(env, next, key, events[1..]);
      assert !ThereAfter(env, bus, key, events, 1);
      forall i | 0 < i <= |events| - 1 ensures !ThereAfter(env, next, key, events[1..], i) {
        ThereAfterHead(env, bus, key, events, i + 1);
      }
      PollTimesOut(env, next, key, events[1..]);
    }
  }

  // ----- the write side -----

  ghost predicate QueueOk(c: Conn) {
    && (forall i :: 0 <= i < |c.queue| ==> !c.queue[i].Finished())
    && (c.output <==> c.queue != [])
  }

  lemma {:induction false} UnsentSnoc(queue: seq<Task>, task: Task)
    ensures Unsent(queue + [task]) == Unsent(queue) + task.Remaining()
  {
    if queue == [] {
      assert Unsent([task]) == task.Remaining() + Unsent([]);
    } else {
      assert (queue + [task])[0] == queue[0] && (queue + [task])[1..] == queue[1..] + [task];
      UnsentSnoc(queue[1..], task);
      Reassociate(queue[0].Remaining(), Unsent(queue[1..]), task.Remaining());
    }
  }

  /** Queueing a frame puts its bytes behind the unsent ones and turns output interest on. */
  lemma EnqueueAppends(c: Conn, frame: seq<byte>)
    requires QueueOk(c) && frame != []
    ensures QueueOk(Enqueue(c, frame))
    ensures Unsent(Enqueue(c, frame).queue) == Unsent(c.queue) + frame
  {
    UnsentSnoc(c.queue, Task(frame, 0));
  }

  lemma PartTaken(task: Task, n: nat, rest: seq<byte>)
    requires n <= |task.Remaining()|
    ensures task.Remaining() + rest == task.Remaining()[..n] + (task.Complete(n).Remaining() + rest)
  {
    var done, left := task.Remaining()[..n], task.Remaining()[n..];
    assert task.Remaining() == done + left && task.Complete(n).Remaining() == left;
    Reassociate(done, left, rest);
  }

  /** An output event takes exactly the written bytes off the front of the unsent ones. */
  lemma OutputTakes(c: Conn, n: nat)
    requires c.queue != [] && n <= |c.queue[0].Remaining()|
    ensures Unsent(c.queue) == c.queue[0].Remaining()[..n] + Unsent(OnOutput(c, n).queue)
  {
    var after, rest := c.queue[0].Complete(n), c.queue[1..];
    PartTaken(c.queue[0], n, Unsent(rest));
    if after.Finished() {
      assert [] + Unsent(rest) == Unsent(rest);
    } else {
      UnsentHead(after, rest);
    }
  }

  /** Output interest follows the queue. */
  lemma OutputKeepsQueueOk(c: Conn, n: nat)
    requires QueueOk(c)
    ensures QueueOk(OnOutput(c, n))
  {
    if c.queue != [] {
      var rest := c.queue[1..];
      assert forall i :: 0 <= i < |rest| ==> rest[i] == c.queue[i + 1];
    }
  }

  lemma UnsentHead(task: Task, rest: seq<Task>)
    ensures Unsent([task] + rest) == task.Remaining() + Unsent(rest)
  {
    assert ([task] + rest)[1..] == rest;
  }
}
