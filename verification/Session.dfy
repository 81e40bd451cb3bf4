/** The session object: its tables and connections change in place, each method as the value model says. */
module Session {
  import opened Bytes
  import opened Framing
  import opened Codec
  import opened Identity
  import opened Stub
  import opened Protocol
  import opened BusModel
  import opened Connection
  import opened Wrappers

  class ResponseParser {
    const ty: Type
    var value: Value
    var exception: Option<Text>
    var finished: bool

    ghost function View(): Parser
      reads this
    {
      Parser(ty, value, exception, finished)
    }

    constructor (ty: Type)
      ensures View() == Fresh(ty)
    {
      this.ty, value, exception, finished := ty, Default(ty), None, false;
    }

    method SetException(what: Text)
      modifies this
      ensures View() == Fail(old(View()), what)
    {
      exception, finished := Some(what), true;
    }

    /** Reads the value; a parser that throws is left as it was. */
    method Parse(data: seq<byte>, offset: nat) returns (thrown: Option<Text>)
      requires offset <= |data|
      modifies this
      ensures match thrown
              case Some(what) => View() == old(View()) && ParseResult(View(), data, offset) == Fail(View(), what)
              case None => View() == ParseResult(old(View()), data, offset)
    {
      match ReadSingle(ty, data, offset) {
        case ReadFailed(what) =>
          return Some(what);
        case Read(v, _) =>
          value, finished := v, true;
          return None;
      }
    }
  }

  class Session<S> {
    const env: Env<S>
    var connections: map<ServiceId, LocalBusConnection>
    var requests: map<RequestKey, ResponseParser>
    var localObjects: map<ObjectId, nat>
    var store: S
    ghost var Repr: set<object>

    ghost predicate ConnectionsOk()
      reads this, Repr
    {
      && (forall id <- connections ::
            && connections[id] in Repr && connections[id].Repr <= Repr && this !in connections[id].Repr
            && connections[id].Valid())
      && (forall id, id' :: id in connections && id' in connections && id != id' ==>
            connections[id].Repr !! connections[id'].Repr)
    }

    ghost predicate RequestsOk()
      reads this, Repr
      requires ConnectionsOk()
    {
      && (forall k <- requests :: requests[k] in Repr)
      && (forall k, id :: k in requests && id in connections ==> requests[k] !in connections[id].Repr)
      && (forall k, k' :: k in requests && k' in requests && k != k' ==> requests[k] != requests[k'])
    }

    ghost predicate Valid()
      reads this, Repr
      ensures Valid() ==> this in Repr
    {
      this in Repr && ConnectionsOk() && RequestsOk()
    }

    ghost function Conns(): map<ServiceId, Conn>
      reads this, Repr
      requires Valid()
    {
      map id | id in connections :: connections[id].View()
    }

    ghost function Table(): Requests
      reads this, Repr
      requires Valid()
    {
      map k | k in requests :: requests[k].View()
    }

    ghost function View(): Bus<S>
      reads this, Repr
      requires Valid()
    {
      Bus(Conns(), Table(), Server(localObjects, store))
    }

    constructor (env: Env<S>, store: S)
      ensures Valid() && fresh(Repr) && this.env == env
      ensures View() == Bus(map[], map[], Server(map[], store))
    {
      this.env, this.store := env, store;
      connections, requests, localObjects := map[], map[], map[];
      Repr := {this};
    }

    /** A new connection joined, nothing else changed: the invariant still holds. */
    twostate lemma ConnectionAddedValid(to: ServiceId)
      requires old(Valid()) && old(allocated(Repr))
      requires to !in old(connections) && to in connections && connections == old(connections)[to := connections[to]]
      requires requests == old(requests)
      requires connections[to].Valid() && fresh(connections[to].Repr)
      requires Repr == old(Repr) + connections[to].Repr
      requires forall o :: o in old(Repr) && o != this ==> unchanged(o)
      ensures Valid()
      ensures forall id :: id in old(connections) ==>
                connections[id] == old(connections[id]) && connections[id].View() == old(connections[id].View())
    {
      hide LocalBusConnection.Valid, LocalBusConnection.View;
      assert connections[to] in connections[to].Repr;
      assert forall id :: id in old(connections) ==>
        id != to && connections[id] == old(connections[id]) && connections[id].Repr == old(connections[id].Repr);
      assert forall id :: id in old(connections) ==>
        connections[id].Valid() && connections[id].View() == old(connections[id].View());
      assert ConnectionsOk();
      assert RequestsOk();
    }

    twostate lemma ConnectionAdded(to: ServiceId)
      requires old(Valid()) && old(allocated(Repr))
      requires to !in old(connections) && to in connections && connections == old(connections)[to := connections[to]]
      requires requests == old(requests) && localObjects == old(localObjects) && store == old(store)
      requires connections[to].Valid() && fresh(connections[to].Repr)
      requires Repr == old(Repr) + connections[to].Repr
      requires forall o :: o in old(Repr) && o != this ==> unchanged(o)
      ensures Valid()
      ensures View() == old(View()).(conns := old(View()).conns[to := connections[to].View()])
    {
      hide LocalBusConnection.Valid, LocalBusConnection.View;
      ConnectionAddedValid(to);
      assert Conns() == old(Conns())[to := connections[to].View()];
      assert Table() == old(Table());
    }

    method Connect(to: ServiceId)
      requires Valid()
      modifies this
      ensures Valid() && fresh(Repr - old(Repr)) && to in connections
      ensures View() == old(View()).(conns := old(View()).conns[to := ConnTo(old(View()), to)])
    {
      hide LocalBusConnection.Valid, LocalBusConnection.View;
      if to in connections {
        assert View().conns[to := View().conns[to]] == View().conns;
      } else {
        var connection := new LocalBusConnection();
        connections := connections[to := connection];
        Repr := Repr + connection.Repr;
        ConnectionAdded(to);
      }
    }

    /** One connection changed, and only what it owns: the session is as before but for that connection. */
    twostate lemma OneConnectionChanged(to: ServiceId)
      requires old(Valid()) && old(allocated(Repr))
      requires connections == old(connections) && requests == old(requests) && to in connections
      requires localObjects == old(localObjects) && store == old(store)
      requires connections[to].Valid() && fresh(connections[to].Repr - old(connections[to].Repr))
      requires Repr == old(Repr) + connections[to].Repr
      requires forall o :: o in old(Repr) && o !in old(connections[to].Repr) && o != this ==> unchanged(o)
      ensures Valid()
      ensures View() == old(View()).(conns := old(View()).conns[to := connections[to].View()])
    {
      hide LocalBusConnection.Valid, LocalBusConnection.View;
      assert forall id :: id in connections && id != to ==>
        connections[id].Repr == old(connections[id].Repr) && connections[id].Valid() &&
        connections[id].View() == old(connections[id].View());
      assert ConnectionsOk();
      assert RequestsOk();
      assert Conns() == old(Conns())[to := connections[to].View()];
      assert Table() == old(Table());
    }

    method SendConnected(to: ServiceId, frame: seq<byte>) returns (serial: u32)
      requires Valid() && to in View().conns
      modifies Repr
      ensures Valid() && fresh(Repr - old(Repr))
      ensures serial == old(View()).conns[to].writeSerial
      ensures View() == old(View()).(conns := old(View()).conns[to := Enqueue(old(View()).conns[to], frame)])
    {
      hide LocalBusConnection.Valid, LocalBusConnection.View;
      label start:
      var connection := connections[to];
      serial := connection.Send(frame);
      Repr := Repr + connection.Repr;
      OneConnectionChanged@start(to);
    }

    /** Hands a frame to the connection, connecting first if need be. */
    method Send(to: ServiceId, frame: seq<byte>) returns (serial: u32)
      requires Valid()
      modifies Repr
      ensures Valid() && fresh(Repr - old(Repr))
      ensures serial == NextSerial(old(View()), to)
      ensures View() ==
              old(View()).(conns := old(View()).conns[to := Enqueue(ConnTo(old(View()), to), frame)])
    {
      hide Valid, View;
      ghost var before := View();
      Connect(to);
      serial := SendConnected(to, frame);
      assert before.conns[to := ConnTo(before, to)][to := Enqueue(ConnTo(before, to), frame)] ==
             before.conns[to := Enqueue(ConnTo(before, to), frame)];
    }

    // ----- requests going out -----

    /** Serializes a request behind four reserved bytes, patches the length over them, and sends it. */
    method MakeRequest(to: ServiceId, kind: byte, fields: seq<Value>) returns (serial: u32)
      requires Valid()
      modifies Repr
      ensures Valid() && fresh(Repr - old(Repr))
      ensures serial == NextSerial(old(View()), to) && View() == Post(old(View()), to, RequestPayload(kind, fields))
    {
      var data := Serialize(RESERVED, [U8(kind)] + fields);
      serial := Send(to, Patch(data));
    }

    /** A parser was registered under `key`, nothing else changed. */
    twostate lemma ParserRegistered(key: RequestKey)
      requires old(Valid()) && old(allocated(Repr))
      requires key in requests && requests == old(requests)[key := requests[key]] && fresh(requests[key])
      requires connections == old(connections) && localObjects == old(localObjects) && store == old(store)
      requires Repr == old(Repr) + {requests[key]}
      requires forall o :: o in old(Repr) && o != this ==> unchanged(o)
      ensures Valid()
      ensures View() == old(View()).(requests := old(View()).requests[key := requests[key].View()])
    {
      hide LocalBusConnection.Valid, LocalBusConnection.View;
      assert forall id :: id in connections ==>
        connections[id].Repr == old(connections[id].Repr) && connections[id].Valid() &&
        connections[id].View() == old(connections[id].View());
      assert ConnectionsOk();
      assert RequestsOk();
      assert Conns() == old(Conns());
      assert Table() == old(Table())[key := requests[key].View()];
    }

    /** Sends the call and registers a parser under the serial it went out with. */
    method Invoke(to: ServiceId, target: ObjectId, name: Text, args: seq<Value>, ty: Type) returns (serial: u32)
      requires Valid()
      modifies Repr
      ensures Valid() && fresh(Repr - old(Repr))
      ensures serial == NextSerial(old(View()), to) && View() == PostInvoke(old(View()), to, target, name, args, ty)
    {
      hide LocalBusConnection.Valid, LocalBusConnection.View;
      serial := MakeRequest(to, REQUEST_INVOKE, WireFields(target) + [String(name)] + args);
      label sent:
      var parser := new ResponseParser(ty);
      var key := RequestKey(to, serial);
      requests := requests[key := parser];
      Repr := Repr + {parser};
      ParserRegistered@sent(key);
    }

    /** Tells the peer a proxy is gone; nobody waits for the reply. */
    method Release(to: ServiceId, target: ObjectId)
      requires Valid()
      modifies Repr
      ensures Valid() && fresh(Repr - old(Repr))
      ensures View() == Post(old(View()), to, RequestPayload(REQUEST_RELEASE, WireFields(target)))
    {
      var _ := MakeRequest(to, REQUEST_RELEASE, WireFields(target));
    }

    // ----- frames coming in -----

    method GetResponseParser(origin: ServiceId, serial: u32) returns (parser: ResponseParser?)
      ensures var key := RequestKey(origin, serial);
              if key in requests then parser == requests[key] else parser == null
    {
      var key := RequestKey(origin, serial);
      parser := if key in requests then requests[key] else null;
    }

    /** The parser under `key` changed, nothing else. */
    twostate lemma ParserChanged(key: RequestKey)
      requires old(Valid()) && old(allocated(Repr))
      requires key in requests && requests == old(requests)
      requires connections == old(connections) && localObjects == old(localObjects) && store == old(store)
      requires Repr == old(Repr)
      requires forall o :: o in old(Repr) && o != requests[key] ==> unchanged(o)
      ensures Valid()
      ensures View() == old(View()).(requests := old(View()).requests[key := requests[key].View()])
    {
      hide LocalBusConnection.Valid, LocalBusConnection.View;
      assert forall id :: id in connections ==>
        connections[id].Repr == old(connections[id].Repr) && connections[id].Valid() &&
        connections[id].View() == old(connections[id].View());
      assert ConnectionsOk();
      assert RequestsOk();
      assert Conns() == old(Conns());
      assert Table() == old(Table())[key := requests[key].View()];
    }

    method OnIncomingException(origin: ServiceId, data: seq<byte>)
      requires Valid()
      modifies Repr
      ensures Valid() && Repr == old(Repr)
      ensures View() == old(View()).(requests := SettleBody(old(View()).requests, origin, RESPONSE_EXCEPTION, data))
    {
      hide LocalBusConnection.Valid, LocalBusConnection.View;
      var quoted := ReadSingle(U32Type, data, 0);
      if quoted.Read? {
        var response := GetResponseParser(origin, quoted.value.n);
        if response != null {
          var exceptionType := ReadSingle(StringType, data, quoted.next);
          if exceptionType.ReadFailed? {
            response.SetException(exceptionType.what);
          } else {
            var argument := ReadSingle(StringType, data, exceptionType.next);
            response.SetException(if argument.Read? then argument.value.text else argument.what);
          }
          ParserChanged(RequestKey(origin, quoted.value.n));
        }
      }
    }

    method OnIncomingResult(origin: ServiceId, data: seq<byte>)
      requires Valid()
      modifies Repr
      ensures Valid() && Repr == old(Repr)
      ensures View() == old(View()).(requests := SettleBody(old(View()).requests, origin, RESPONSE_RESULT, data))
    {
      hide LocalBusConnection.Valid, LocalBusConnection.View;
      var quoted := ReadSingle(U32Type, data, 0);
      if quoted.Read? {
        var response := GetResponseParser(origin, quoted.value.n);
        if response != null {
          var thrown := response.Parse(data, quoted.next);
          if thrown.Some? {
            response.SetException(thrown.value);
          }
          ParserChanged(RequestKey(origin, quoted.value.n));
        }
      }
    }

    /** Only the object table or the store changed. */
    twostate lemma ServerChanged()
      requires old(Valid()) && old(allocated(Repr))
      requires connections == old(connections) && requests == old(requests) && Repr == old(Repr)
      requires forall o :: o in old(Repr) && o != this ==> unchanged(o)
      ensures Valid()
      ensures View() == old(View()).(server := Server(localObjects, store))
    {
      hide LocalBusConnection.Valid, LocalBusConnection.View;
      assert forall id :: id in connections ==>
        connections[id].Repr == old(connections[id].Repr) && connections[id].Valid() &&
        connections[id].View() == old(connections[id].View());
      assert ConnectionsOk();
      assert RequestsOk();
      assert Conns() == old(Conns());
      assert Table() == old(Table());
    }

    /** The instance of a registered service, entered into the object table unless object 0 is there already. */
    method GetLocalService(service: ServiceId) returns (instance: Option<nat>)
      modifies this`localObjects
      ensures instance == if service in env.services then Some(env.services[service]) else None
      ensures localObjects ==
              var id := ObjectId(service, 0);
              if service in env.services && id !in old(localObjects)
              then old(localObjects)[id := env.services[service]] else old(localObjects)
    {
      if service !in env.services {
        return None;
      }
      var id := ObjectId(service, 0);
      instance := Some(env.services[service]);
      if id !in localObjects {
        localObjects := localObjects[id := instance.value];
      }
    }

    /** Looks the object up, registering a local service on its first use. */
    method FindObject(id: ObjectId) returns (found: Option<nat>)
      requires Valid()
      modifies this`localObjects
      ensures Valid()
      ensures var objects := Materialise(env, old(View()).server.objects, id);
              && View() == old(View()).(server := old(View()).server.(objects := objects))
              && found == if id in objects then Some(objects[id]) else None
    {
      hide LocalBusConnection.Valid, LocalBusConnection.View;
      if id !in localObjects && id.id == 0 {
        var _ := GetLocalService(id.cls);
      }
      ServerChanged();
      found := if id in localObjects then Some(localObjects[id]) else None;
    }

    /** Runs the stub of an object on the session's store. */
    method RunStub(target: nat, name: Text, argsData: seq<byte>, result: seq<byte>)
      returns (out: Outcome, stream: seq<byte>)
      requires Valid()
      modifies this`store
      ensures Valid()
      ensures var server := old(View()).server;
              var (after, o) := Stub.Invoke(env.run, target, env.interfaceOf(target), server.store, name, argsData);
              out == o && View() == old(View()).(server := server.(store := after))
      ensures stream == if out.Returned? then result + Write(out.value) else result
    {
      hide LocalBusConnection.Valid, LocalBusConnection.View;
      var after: S;
      after, out, stream := PbusInvoke(env.run, target, env.interfaceOf(target), store, name, argsData, result);
      store := after;
      ServerChanged();
    }

    /** Patches and sends a built result; a call that raised sends nothing here. */
    method SendResult(origin: ServiceId, serial: u32, out: Outcome, stream: seq<byte>)
      requires Valid()
      requires out.Returned? ==> stream == RESERVED + ResultPayload(serial, out.value)
      modifies Repr
      ensures Valid() && fresh(Repr - old(Repr))
      ensures View() == Replied(old(View()), origin, serial, out)
    {
      hide Valid, View, ResultPayload;
      if out.Returned? {
        assert stream[4..] == ResultPayload(serial, out.value);
        var _ := Send(origin, Patch(stream));
      }
    }

    /** Object lookup and call; an exception leaves through `thrown` with nothing sent, a result is sent whole. */
    method InvokeObject(origin: ServiceId, serial: u32, id: ObjectId, name: Text, argsData: seq<byte>)
      returns (thrown: Option<Text>)
      requires Valid()
      modifies Repr
      ensures Valid() && fresh(Repr - old(Repr))
      ensures var (server, out) := Call(env, old(View()).server, id, name, argsData);
              thrown == Exception(out) && View() == Replied(old(View()).(server := server), origin, serial, out)
    {
      hide Valid, View;
      var found := FindObject(id);
      if found.None? {
        return Some(NotFound(id));
      }
      var result := Serialize(RESERVED, [U8(RESPONSE_RESULT), U32(serial)]);
      var out, stream := RunStub(found.value, name, argsData, result);
      if out.Returned? {
        Reassociate(RESERVED, WriteAll([U8(RESPONSE_RESULT), U32(serial)]), Write(out.value));
      }
      SendResult(origin, serial, out, stream);
      thrown := Exception(out);
    }

    method OnIncomingInvoke(origin: ServiceId, serial: u32, data: seq<byte>) returns (thrown: Option<Text>)
      requires Valid()
      modifies Repr
      ensures Valid() && fresh(Repr - old(Repr))
      ensures var (server, out) := ServeInvoke(env, old(View()).server, data);
              thrown == Exception(out) && View() == Replied(old(View()).(server := server), origin, serial, out)
    {
      var classType := ReadSingle(StringType, data, 0);
      if classType.ReadFailed? { return Some(classType.what); }
      var classVersion := ReadSingle(U32Type, data, classType.next);
      if classVersion.ReadFailed? { return Some(classVersion.what); }
      var objectId := ReadSingle(U32Type, data, classVersion.next);
      if objectId.ReadFailed? { return Some(objectId.what); }
      var cls := Construct(classType.value.text, classVersion.value.n);
      if cls.Thrown? { return Some(cls.what); }
      var methodName := ReadSingle(StringType, data, objectId.next);
      if methodName.ReadFailed? { return Some(methodName.what); }
      thrown := InvokeObject(
        origin, serial, ObjectId(cls.id, objectId.value.n), methodName.value.text, data[methodName.next..]);
    }

    method ThrowException(origin: ServiceId, serial: u32, what: Text)
      requires Valid()
      modifies Repr
      ensures Valid() && fresh(Repr - old(Repr))
      ensures View() == Post(old(View()), origin, ExceptionPayload(serial, what))
    {
      var _ := MakeRequest(
        origin, RESPONSE_EXCEPTION, [U32(serial), String(Ascii("Exception")), String(what)]);
    }

    /** One whole frame: serve it and reply, or settle the call it answers. */
    method OnIncomingData(origin: ServiceId, serial: u32, data: seq<byte>)
      requires Valid()
      modifies Repr
      ensures Valid() && fresh(Repr - old(Repr))
      ensures View() == BusModel.OnIncomingData(env, old(View()), origin, serial, data)
    {
      hide LocalBusConnection.Valid, LocalBusConnection.View;
      var thrown: Option<Text> := None;
      match ReadSingle(U8Type, data, 0) {
        case ReadFailed(what) =>
          thrown := Some(what);
        case Read(request, offset) =>
          if request.b == REQUEST_INVOKE {
            thrown := OnIncomingInvoke(origin, serial, data[offset..]);
          } else if request.b == RESPONSE_EXCEPTION {
            OnIncomingException(origin, data[offset..]);
          } else if request.b == RESPONSE_RESULT {
            OnIncomingResult(origin, data[offset..]);
          } else {
            thrown := Some(Unhandled(request.b));
          }
      }
      if thrown.Some? {
        ThrowException(origin, serial, thrown.value);
      }
    }

    // ----- socket events -----

    /** No read task is finished: nothing is being dispatched, so a read event may be handled. */
    ghost predicate Idle()
      reads this, Repr
      requires Valid()
    {
      AllReady(View())
    }

    /** One `Read` of a connection's task. */
    method TakeBytes(origin: ServiceId, offered: seq<byte>) returns (taken: nat)
      requires Valid() && origin in View().conns
      modifies Repr
      ensures Valid() && fresh(Repr - old(Repr))
      ensures var held := old(View()).conns[origin].held;
              && WithinHeader(held) && taken == Wanted(held, offered)
              && View() == WithHeld(old(View()), origin, held + offered[..taken])
    {
      hide LocalBusConnection.Valid, LocalBusConnection.View;
      label start:
      var connection := connections[origin];
      taken := connection.TakeBytes(offered);
      Repr := Repr + connection.Repr;
      OneConnectionChanged@start(origin);
    }

    /** The payload of the frame a connection has finished, if it has. */
    method FinishedPayload(origin: ServiceId) returns (payload: Option<seq<byte>>)
      requires Valid() && origin in View().conns
      ensures var held := View().conns[origin].held;
              payload == if Complete(held) then Some(held[4..]) else None
    {
      hide LocalBusConnection.Valid, LocalBusConnection.View;
      payload := connections[origin].FinishedPayload();
    }

    /** Gives the finished frame its serial. */
    method CountFrame(origin: ServiceId) returns (serial: u32)
      requires Valid() && origin in View().conns
      modifies Repr
      ensures Valid() && Repr == old(Repr)
      ensures var c := old(View()).conns[origin];
              && serial == c.readSerial
              && View() == old(View()).(conns := old(View()).conns[origin :=
                                          c.(readSerial := Truncate32(c.readSerial + 1))])
    {
      hide LocalBusConnection.Valid, LocalBusConnection.View;
      label start:
      var connection := connections[origin];
      serial := connection.CountFrame();
      OneConnectionChanged@start(origin);
    }

    method ResetReadTask(origin: ServiceId)
      requires Valid() && origin in View().conns
      modifies Repr
      ensures Valid() && fresh(Repr - old(Repr))
      ensures View() == WithHeld(old(View()), origin, [])
    {
      hide LocalBusConnection.Valid, LocalBusConnection.View;
      label start:
      var connection := connections[origin];
      connection.ResetReadTask();
      Repr := Repr + connection.Repr;
      OneConnectionChanged@start(origin);
    }

    /** Counts the finished frame, dispatches it, and only then replaces the read task. */
    method DispatchFrame(origin: ServiceId, payload: seq<byte>)
      requires Valid() && origin in View().conns
      modifies Repr
      ensures Valid() && fresh(Repr - old(Repr))
      ensures View() == Dispatch(env, old(View()), origin, payload)
    {
      hide Valid, View, Dispatch;
      ghost var before := View();
      var serial := CountFrame(origin);
      OnIncomingData(origin, serial, payload);
      ResetAfterDispatch(env, before, origin, payload);
      ResetReadTask(origin);
    }

    /** One turn of the read loop. */
    method ReadTurn(origin: ServiceId, offered: seq<byte>) returns (taken: nat)
      requires Valid() && Ready(View(), origin) && offered != []
      modifies Repr
      ensures Valid() && fresh(Repr - old(Repr))
      ensures (View(), taken) == Consume(env, old(View()), origin, offered)
    {
      hide Valid, View, Dispatch;
      ghost var before := View();
      taken := TakeBytes(origin, offered);
      var payload := FinishedPayload(origin);
      if payload.Some? {
        DispatchForgetsHeld(env, before, origin, before.conns[origin].held + offered[..taken], payload.value);
        DispatchFrame(origin, payload.value);
      }
    }

    /** An input event: the read loop over what the socket delivered. */
    method HandleInput(origin: ServiceId, buffer: seq<byte>)
      requires Valid() && Ready(View(), origin)
      modifies Repr
      ensures Valid() && fresh(Repr - old(Repr))
      ensures View() == Feed(env, old(View()), origin, buffer)
    {
      hide Valid, View, Ready, Consume;
      var offset: nat := 0;
      assert buffer[0..] == buffer;
      while offset < |buffer|
        invariant offset <= |buffer|
        invariant Valid() && fresh(Repr - old(Repr)) && Ready(View(), origin)
        invariant Feed(env, View(), origin, buffer[offset..]) == Feed(env, old(View()), origin, buffer)
      {
        FeedTurn(env, View(), origin, buffer[offset..]);
        var taken := ReadTurn(origin, buffer[offset..]);
        assert buffer[offset..][taken..] == buffer[offset + taken..];
        offset := offset + taken;
      }
      assert buffer[offset..] == [];
    }

    /** An output event: the socket takes at most `written` bytes of the front frame. */
    method HandleOutput(origin: ServiceId, written: nat)
      requires Valid() && origin in View().conns
      modifies Repr
      ensures Valid() && Repr == old(Repr)
      ensures View() == Written(old(View()), origin, written)
    {
      label start:
      var connection := connections[origin];
      var taken := Min(written, |connection.Offered()|);
      hide LocalBusConnection.Valid, LocalBusConnection.View;
      connection.HandleOutput(taken);
      OneConnectionChanged@start(origin);
    }

    method Poll(event: PollEvent)
      requires Valid() && Idle()
      modifies Repr
      ensures Valid() && fresh(Repr - old(Repr)) && Idle()
      ensures View() == Polled(env, old(View()), event)
    {
      PolledKeepsAllReady(env, View(), event);
      hide Feed, Written;
      if event.origin in connections {
        match event {
          case Input(origin, data) => HandleInput(origin, data);
          case Output(origin, written) => HandleOutput(origin, written);
        }
      }
    }

    method IsResponseFinished(origin: ServiceId, serial: u32) returns (finished: bool)
      requires Valid()
      ensures finished == IsFinished(View().requests, RequestKey(origin, serial))
    {
      var response := GetResponseParser(origin, serial);
      finished := response != null && response.finished;
    }

    /** Polls until the call is finished; `events` is what the poll reports before it times out. */
    method WaitResponse(origin: ServiceId, serial: u32, events: seq<PollEvent>) returns (arrived: bool)
      requires Valid() && Idle()
      modifies Repr
      ensures Valid() && fresh(Repr - old(Repr)) && Idle()
      ensures (View(), arrived) == PollUntilFinished(env, old(View()), RequestKey(origin, serial), events)
      ensures arrived ==> IsFinished(View().requests, RequestKey(origin, serial))
    {
      hide Valid, View, AllReady, Polled;
      var i := 0;
      assert events[0..] == events;
      while i < |events|
        invariant i <= |events|
        invariant Valid() && fresh(Repr - old(Repr)) && Idle()
        invariant PollUntilFinished(env, View(), RequestKey(origin, serial), events[i..]) ==
                  PollUntilFinished(env, old(View()), RequestKey(origin, serial), events)
      {
        Poll(events[i]);
        var finished := IsResponseFinished(origin, serial);
        if finished {
          return true;
        }
        assert events[i..][1..] == events[i + 1..];
        i := i + 1;
      }
      assert events[i..] == [];
      return false;
    }

    /** The outcome of a call, or None when waiting for it timed out. */
    method Wait(origin: ServiceId, serial: u32, ty: Type, events: seq<PollEvent>) returns (r: Option<WaitResult>)
      requires Valid() && Idle()
      modifies Repr
      ensures Valid() && fresh(Repr - old(Repr)) && Idle()
      ensures var key := RequestKey(origin, serial);
              var (bus, arrived) := PollUntilFinished(env, old(View()), key, events);
              && View() == bus
              && (if arrived then key in bus.requests && r == Some(Collect(bus.requests[key], ty)) else r == None)
      ensures r.Some? ==> !r.value.Pending?
    {
      hide AllReady;
      var arrived := WaitResponse(origin, serial, events);
      if !arrived {
        return None;
      }
      var response := requests[RequestKey(origin, serial)];
      if response.exception.Some? {
        return Some(Rethrown(response.exception.value));
      }
      return Some(if response.ty == ty then GotValue(response.value) else WrongParser);
    }

    /** A generated proxy method: invoke, then wait under the serial the invoke returned. */
    method CallRemote(to: ServiceId, target: ObjectId, name: Text, args: seq<Value>, ty: Type, events: seq<PollEvent>)
      returns (r: Option<WaitResult>)
      requires Valid() && Idle()
      modifies Repr
      ensures Valid() && fresh(Repr - old(Repr)) && Idle()
      ensures var sent := PostInvoke(old(View()), to, target, name, args, ty);
              var key := RequestKey(to, NextSerial(old(View()), to));
              && AllReady(sent)
              && var (bus, arrived) := PollUntilFinished(env, sent, key, events);
                 && View() == bus
                 && (if arrived then key in bus.requests && r == Some(Collect(bus.requests[key], ty)) else r == None)
      ensures r.Some? ==> !r.value.Pending?
    {
      PostInvokeKeepsAllReady(View(), to, target, name, args, ty);
      hide Valid, View, AllReady, PostInvoke;
      var serial := Invoke(to, target, name, args, ty);
      r := Wait(to, serial, ty, events);
    }
  }

  /** What leaves a handler as an exception. */
  function Exception(out: Outcome): Option<Text> {
    match out
    case Raised(what) => Some(what)
    case Returned(_) => None
  }

  /** A result is posted; an exception has posted nothing yet. */
  function Replied<S>(bus: Bus<S>, origin: ServiceId, serial: u32, out: Outcome): Bus<S> {
    match out
    case Raised(_) => bus
    case Returned(v) => Post(bus, origin, ResultPayload(serial, v))
  }

  // ----- building frames -----

  const RESERVED: seq<byte> := [0, 0, 0, 0]

  /** Appends the values to the stream, one by one. */
  method Serialize(stream: seq<byte>, vs: seq<Value>) returns (data: seq<byte>)
    ensures data == stream + WriteAll(vs)
  {
    data := stream;
    for i := 0 to |vs|
      invariant data == stream + WriteAll(vs[..i])
    {
      assert vs[..i + 1] == vs[..i] + [vs[i]];
      WriteAllAppend(vs[..i], [vs[i]]);
      WriteAllCons(vs[i], []);
      Reassociate(stream, WriteAll(vs[..i]), Write(vs[i]));
      data := data + Write(vs[i]);
    }
    assert vs[..|vs|] == vs;
  }

  /** Writes the payload length over the four reserved bytes. */
  function Patch(data: seq<byte>): (frame: seq<byte>)
    requires |data| >= 4
    ensures frame == Frame(data[4..])
  {
    ToLe(Truncate32(|data| - 4)) + data[4..]
  }
}
