/** What one frame means to a session: message layout, serving a request, settling a reply. */
module Protocol {
  import opened Bytes
  import opened Codec
  import opened Identity
  import opened Stub
  import opened Wrappers

  const REQUEST_INVOKE: byte := 0
  const REQUEST_RELEASE: byte := 5
  const RESPONSE_RESULT: byte := 6
  const RESPONSE_EXCEPTION: byte := 7

  /** What a session offers: registered services, the interface of each object, and what the objects do. */
  datatype Env<!S> = Env(services: map<ServiceId, nat>, interfaceOf: nat -> Interface, run: Run<S>)

  /** The part of a session that invokes work on. */
  datatype Server<S> = Server(objects: map<ObjectId, nat>, store: S)

  datatype Parser = Parser(ty: Type, value: Value, exception: Option<Text>, finished: bool)

  /** A pending call is known by the peer it went to and the serial `Send` returned. */
  datatype RequestKey = RequestKey(origin: ServiceId, serial: u32)

  type Requests = map<RequestKey, Parser>

  // ----- message layout -----

  function RequestPayload(kind: byte, fields: seq<Value>): seq<byte> {
    WriteAll([U8(kind)] + fields)
  }

  function InvokePayload(o: ObjectId, name: Text, args: seq<Value>): seq<byte> {
    RequestPayload(REQUEST_INVOKE, WireFields(o) + [String(name)] + args)
  }

  function ResultPayload(serial: u32, v: Value): seq<byte> {
    WriteAll([U8(RESPONSE_RESULT), U32(serial)]) + Write(v)
  }

  function ExceptionPayload(serial: u32, what: Text): seq<byte> {
    RequestPayload(RESPONSE_EXCEPTION, [U32(serial), String(Ascii("Exception")), String(what)])
  }

  function ReplyPayload(serial: u32, out: Outcome): seq<byte> {
    match out
    case Returned(v) => ResultPayload(serial, v)
    case Raised(what) => ExceptionPayload(serial, what)
  }

  predicate IsResponse(data: seq<byte>) {
    var head := ReadSingle(U8Type, data, 0);
    head.Read? && head.value.b in {RESPONSE_RESULT, RESPONSE_EXCEPTION}
  }

  // ----- serving -----

  function NotFound(id: ObjectId): Text {
    Ascii("object with id ") + ObjectText(id) + Ascii(" not found")
  }

  function Unhandled(kind: byte): Text {
    Ascii("unhandled request ") + Decimal(kind)
  }

  /** An unknown object 0 of a registered service is entered into the table on first use. */
  function Materialise<S>(env: Env<S>, objects: map<ObjectId, nat>, id: ObjectId): (after: map<ObjectId, nat>)
    ensures forall k <- objects :: k in after && after[k] == objects[k]
    ensures id in after <==> id in objects || (id.id == 0 && id.cls in env.services)
  {
    if id !in objects && id.id == 0 && id.cls in env.services then objects[id := env.services[id.cls]] else objects
  }

  /** Finding the object and calling it, from decoded header fields and argument bytes. */
  function Call<S>(env: Env<S>, server: Server<S>, id: ObjectId, name: Text, argsData: seq<byte>)
      : (Server<S>, Outcome)
  {
    var objects := Materialise(env, server.objects, id);
    if id !in objects then (server.(objects := objects), Raised(NotFound(id)))
    else
      var (store, out) := Invoke(env.run, objects[id], env.interfaceOf(objects[id]), server.store, name, argsData);
      (Server(objects, store), out)
  }

  /** `OnIncomingInvoke` up to the reply; `data` is what follows the type byte. */
  function ServeInvoke<S>(env: Env<S>, server: Server<S>, data: seq<byte>): (Server<S>, Outcome) {
    match ReadSingle(StringType, data, 0)
    case ReadFailed(what) => (server, Raised(what))
    case Read(cls, o1) =>
      match ReadSingle(U32Type, data, o1)
      case ReadFailed(what) => (server, Raised(what))
      case Read(version, o2) =>
        match ReadSingle(U32Type, data, o2)
        case ReadFailed(what) => (server, Raised(what))
        case Read(id, o3) =>
          match Construct(cls.text, version.n)
          case Thrown(what) => (server, Raised(what))
          case Made(c) =>
            match ReadSingle(StringType, data, o3)
            case ReadFailed(what) => (server, Raised(what))
            case Read(name, o4) => Call(env, server, ObjectId(c, id.n), name.text, data[o4..])
  }

  /** `OnIncomingData` on the serving side: the new server state and the reply, if the frame gets one. */
  function Serve<S>(env: Env<S>, server: Server<S>, serial: u32, data: seq<byte>): (Server<S>, Option<seq<byte>>) {
    match ReadSingle(U8Type, data, 0)
    case ReadFailed(what) => (server, Some(ExceptionPayload(serial, what)))
    case Read(kind, offset) =>
      if kind.b == REQUEST_INVOKE then
        var (after, out) := ServeInvoke(env, server, data[offset..]);
        (after, Some(ReplyPayload(serial, out)))
      else if kind.b in {RESPONSE_RESULT, RESPONSE_EXCEPTION} then (server, None)
      else (server, Some(ExceptionPayload(serial, Unhandled(kind.b))))
  }

  // ----- settling -----

  function Fresh(ty: Type): Parser {
    Parser(ty, Default(ty), None, false)
  }

  /** `SetException`. */
  function Fail(p: Parser, what: Text): Parser {
    p.(exception := Some(what), finished := true)
  }

  /** `Parse`, with the caller's `SetException` when it throws. */
  function ParseResult(p: Parser, data: seq<byte>, offset: nat): Parser
    requires offset <= |data|
  {
    match ReadSingle(p.ty, data, offset)
    case ReadFailed(what) => Fail(p, what)
    case Read(v, _) => p.(value := v, finished := true)
  }

  function ParseException(p: Parser, data: seq<byte>, offset: nat): Parser
    requires offset <= |data|
  {
    match ReadSingle(StringType, data, offset)
    case ReadFailed(what) => Fail(p, what)
    case Read(_, next) =>
      match ReadSingle(StringType, data, next)
      case ReadFailed(what) => Fail(p, what)
      case Read(arg, _) => Fail(p, arg.text)
  }

  /** `OnIncomingResult` and `OnIncomingException`: `data` is what follows the type byte `kind`. */
  function SettleBody(requests: Requests, origin: ServiceId, kind: byte, data: seq<byte>): Requests {
    match ReadSingle(U32Type, data, 0)
    case ReadFailed(_) => requests
    case Read(quoted, offset) =>
      var key := RequestKey(origin, quoted.n);
      if key !in requests then requests
      else if kind == RESPONSE_RESULT then requests[key := ParseResult(requests[key], data, offset)]
      else requests[key := ParseException(requests[key], data, offset)]
  }

  /** What a frame does to the request table: nothing unless it is a response. */
  function Settle(requests: Requests, origin: ServiceId, data: seq<byte>): Requests {
    match ReadSingle(U8Type, data, 0)
    case ReadFailed(_) => requests
    case Read(kind, offset) =>
      if kind.b in {RESPONSE_RESULT, RESPONSE_EXCEPTION} then SettleBody(requests, origin, kind.b, data[offset..])
      else requests
  }

  /** The serial a response quotes. */
  function Quoted(data: seq<byte>): Option<u32> {
    match ReadSingle(U8Type, data, 0)
    case ReadFailed(_) => None
    case Read(_, offset) =>
      match ReadSingle(U32Type, data[offset..], 0)
      case ReadFailed(_) => None
      case Read(quoted, _) => Some(quoted.n)
  }

  // ----- what waiting for a call gives -----

  datatype WaitResult = Pending | GotValue(value: Value) | Rethrown(what: Text) | WrongParser

  /** `Wait<ty>` once `WaitResponse` found parser `p`. */
  function Collect(p: Parser, ty: Type): WaitResult {
    if !p.finished then Pending
    else if p.exception.Some? then Rethrown(p.exception.value)
    else if p.ty != ty then WrongParser
    else GotValue(p.value)
  }

  // ----- the same call made locally -----

  function LocalCall<S>(env: Env<S>, server: Server<S>, o: ObjectId, name: Text, args: seq<Value>)
      : (Server<S>, Outcome)
  {
    match Received(o)
    case Thrown(what) => (server, Raised(what))
    case Made(id) =>
      var objects := Materialise(env, server.objects, id);
      if id !in objects then (server.(objects := objects), Raised(NotFound(id)))
      else
        var (store, out) := Direct(env.run, objects[id], env.interfaceOf(objects[id]), server.store, name, args);
        (Server(objects, store), out)
  }

  /** What a caller that expects type `ty` gets to see of an outcome. */
  function Seen(out: Outcome, ty: Type): WaitResult {
    match out
    case Raised(what) => Rethrown(what)
    case Returned(v) => if TypeOf(v) == ty then GotValue(v) else Rethrown(BAD_TYPE)
  }

  // ----- layout is read back -----

  lemma HeadReads(v: Value, rest: seq<byte>)
    ensures var data := Write(v) + rest;
            ReadSingle(TypeOf(v), data, 0) == Read(v, |Write(v)|) && data[|Write(v)|..] == rest
  {
    assert [] + Write(v) + rest == Write(v) + rest && [] + Write(v) == Write(v);
    ReadsBack([], v, rest);
  }

  lemma FieldReads(data: seq<byte>, pre: seq<byte>, v: Value, vs: seq<Value>)
    requires data == pre + WriteAll([v] + vs)
    ensures ReadSingle(TypeOf(v), data, |pre|) == Read(v, |pre + Write(v)|)
    ensures data == pre + Write(v) + WriteAll(vs)
  {
    hide Write, WriteAll, ReadSingle;
    WriteAllCons(v, vs);
    Reassociate(pre, Write(v), WriteAll(vs));
    ReadsBack(pre, v, WriteAll(vs));
  }

  lemma RequestHead(kind: byte, fields: seq<Value>)
    ensures var data := RequestPayload(kind, fields);
            ReadSingle(U8Type, data, 0) == Read(U8(kind), 2) && data[2..] == WriteAll(fields)
  {
    WriteAllCons(U8(kind), fields);
    HeadReads(U8(kind), WriteAll(fields));
  }

  /** The receiver's reads give back class name, version, id and method, and leave exactly the argument bytes. */
  lemma InvokeHeaderReads(o: ObjectId, name: Text, args: seq<Value>)
    ensures var data := WriteAll(WireFields(o) + [String(name)] + args);
            var p1 := Write(String(o.cls.name));
            var p2 := p1 + Write(U32(o.cls.version));
            var p3 := p2 + Write(U32(o.id));
            var p4 := p3 + Write(String(name));
            && ReadSingle(StringType, data, 0) == Read(String(o.cls.name), |p1|)
            && ReadSingle(U32Type, data, |p1|) == Read(U32(o.cls.version), |p2|)
            && ReadSingle(U32Type, data, |p2|) == Read(U32(o.id), |p3|)
            && ReadSingle(StringType, data, |p3|) == Read(String(name), |p4|)
            && data[|p4|..] == WriteAll(args)
  {
    var v1, v2, v3, v4 := String(o.cls.name), U32(o.cls.version), U32(o.id), String(name);
    var data := WriteAll(WireFields(o) + [v4] + args);
    assert WireFields(o) + [v4] + args == [v1] + ([v2] + ([v3] + ([v4] + args)));
    FourFields(data, v1, v2, v3, v4, args);
  }

  lemma FourFields(data: seq<byte>, v1: Value, v2: Value, v3: Value, v4: Value, args: seq<Value>)
    requires data == WriteAll([v1] + ([v2] + ([v3] + ([v4] + args))))
    ensures var p1 := Write(v1);
            var p2 := p1 + Write(v2);
            var p3 := p2 + Write(v3);
            var p4 := p3 + Write(v4);
            && ReadSingle(TypeOf(v1), data, 0) == Read(v1, |p1|)
            && ReadSingle(TypeOf(v2), data, |p1|) == Read(v2, |p2|)
            && ReadSingle(TypeOf(v3), data, |p2|) == Read(v3, |p3|)
            && ReadSingle(TypeOf(v4), data, |p3|) == Read(v4, |p4|)
            && data[|p4|..] == WriteAll(args)
  {
    var f4 := [v4] + args;
    var f3 := [v3] + f4;
    var f2 := [v2] + f3;
    assert data == [] + data && [] + Write(v1) == Write(v1);
    FieldReads(data, [], v1, f2);
    FieldReads(data, Write(v1), v2, f3);
    FieldReads(data, Write(v1) + Write(v2), v3, f4);
    FieldReads(data, Write(v1) + Write(v2) + Write(v3), v4, args);
  }

  /** Serving the bytes of an invoke is the local call on its values. */
  lemma ServeInvokeIsLocalCall<S>(env: Env<S>, server: Server<S>, o: ObjectId, name: Text, args: seq<Value>)
    ensures ServeInvoke(env, server, WriteAll(WireFields(o) + [String(name)] + args)) ==
            LocalCall(env, server, o, name, args)
  {
    InvokeHeaderReads(o, name, args);
    match Received(o)
    case Thrown(_) =>
    case Made(id) =>
      var objects := Materialise(env, server.objects, id);
      if id in objects {
        StubIsDirectCall(env.run, objects[id], env.interfaceOf(objects[id]), server.store, name, args);
      }
  }

  /** An invoke frame is answered with the outcome of the local call, under the receiver's serial. */
  lemma ServeAnswersLocalCall<S>(
      env: Env<S>, server: Server<S>, serial: u32, o: ObjectId, name: Text, args: seq<Value>)
    ensures var (after, out) := LocalCall(env, server, o, name, args);
            Serve(env, server, serial, InvokePayload(o, name, args)) == (after, Some(ReplyPayload(serial, out)))
  {
    RequestHead(REQUEST_INVOKE, WireFields(o) + [String(name)] + args);
    ServeInvokeIsLocalCall(env, server, o, name, args);
  }

  lemma ResponseReads(kind: byte, serial: u32, body: seq<byte>)
    ensures var data := Write(U8(kind)) + (Write(U32(serial)) + body);
            && ReadSingle(U8Type, data, 0) == Read(U8(kind), 2)
            && ReadSingle(U32Type, data[2..], 0) == Read(U32(serial), |Write(U32(serial))|)
            && data[2..][|Write(U32(serial))|..] == body
  {
    HeadReads(U8(kind), Write(U32(serial)) + body);
    HeadReads(U32(serial), body);
  }

  function ReplyBody(out: Outcome): seq<byte> {
    match out
    case Returned(v) => Write(v)
    case Raised(what) => WriteAll([String(Ascii("Exception")), String(what)])
  }

  lemma ReplyLayout(serial: u32, out: Outcome)
    ensures ReplyPayload(serial, out) ==
            Write(U8(if out.Returned? then RESPONSE_RESULT else RESPONSE_EXCEPTION)) +
            (Write(U32(serial)) + ReplyBody(out))
  {
    var s := U32(serial);
    match out
    case Returned(v) =>
      WriteAllCons(U8(RESPONSE_RESULT), [s]);
      WriteAllCons(s, []);
      assert [s] + [] == [s];
      Reassociate(Write(U8(RESPONSE_RESULT)), Write(s), Write(v));
    case Raised(what) =>
      var fields := [String(Ascii("Exception")), String(what)];
      assert [s, String(Ascii("Exception")), String(what)] == [s] + fields;
      WriteAllCons(U8(RESPONSE_EXCEPTION), [s] + fields);
      WriteAllCons(s, fields);
  }

  lemma ReplyReads(serial: u32, out: Outcome)
    ensures var data := ReplyPayload(serial, out);
            && ReadSingle(U8Type, data, 0) == Read(U8(if out.Returned? then RESPONSE_RESULT else RESPONSE_EXCEPTION), 2)
            && ReadSingle(U32Type, data[2..], 0) == Read(U32(serial), |Write(U32(serial))|)
            && data[2..][|Write(U32(serial))|..] == ReplyBody(out)
  {
    ReplyLayout(serial, out);
    ResponseReads(if out.Returned? then RESPONSE_RESULT else RESPONSE_EXCEPTION, serial, ReplyBody(out));
  }

  /** Every frame that is not a response gets exactly one reply, a response that quotes the frame's serial. */
  lemma OneReplyPerRequest<S>(env: Env<S>, server: Server<S>, serial: u32, data: seq<byte>)
    ensures var (after, reply) := Serve(env, server, serial, data);
            if IsResponse(data) then reply.None? && after == server
            else reply.Some? && IsResponse(reply.value) && Quoted(reply.value) == Some(serial)
  {
    match ReadSingle(U8Type, data, 0)
    case ReadFailed(what) => ReplyReads(serial, Raised(what));
    case Read(kind, offset) =>
      if kind.b == REQUEST_INVOKE {
        ReplyReads(serial, ServeInvoke(env, server, data[offset..]).1);
      } else if !IsResponse(data) {
        ReplyReads(serial, Raised(Unhandled(kind.b)));
      }
  }

  // ----- settling a call -----

  /** What a response makes of the parser it quotes. */
  function Completed(p: Parser, data: seq<byte>): Parser {
    match ReadSingle(U8Type, data, 0)
    case ReadFailed(_) => p
    case Read(kind, o1) =>
      match ReadSingle(U32Type, data[o1..], 0)
      case ReadFailed(_) => p
      case Read(_, o2) =>
        if kind.b == RESPONSE_RESULT then ParseResult(p, data[o1..], o2) else ParseException(p, data[o1..], o2)
  }

  /** A frame changes at most the entry it quotes under its own origin, only if it is a response, and finishes it. */
  lemma SettleIsolated(requests: Requests, origin: ServiceId, data: seq<byte>)
    ensures Settle(requests, origin, data) ==
            if IsResponse(data) && Quoted(data).Some? && RequestKey(origin, Quoted(data).value) in requests then
              var key := RequestKey(origin, Quoted(data).value);
              requests[key := Completed(requests[key], data)]
            else requests
    ensures IsResponse(data) && Quoted(data).Some? ==> forall p :: Completed(p, data).finished
  {
    match ReadSingle(U8Type, data, 0)
    case ReadFailed(_) =>
    case Read(kind, o1) =>
      match ReadSingle(U32Type, data[o1..], 0)
      case ReadFailed(_) =>
      case Read(quoted, o2) =>
  }

  lemma ResultCompletes(p: Parser, serial: u32, v: Value)
    ensures Completed(p, ResultPayload(serial, v)) ==
            if TypeOf(v) == p.ty then p.(value := v, finished := true) else Fail(p, BAD_TYPE)
  {
    ReplyReads(serial, Returned(v));
    var data := ResultPayload(serial, v)[2..];
    var pre := data[..|Write(U32(serial))|];
    assert data == pre + Write(v) + [];
    if TypeOf(v) == p.ty {
      ReadsBack(pre, v, []);
    } else {
      WrongTypeFails(p.ty, pre, v, []);
    }
  }

  lemma ExceptionCompletes(p: Parser, serial: u32, what: Text)
    ensures Completed(p, ExceptionPayload(serial, what)) == Fail(p, what)
  {
    hide Write, RequestPayload, WriteAll, ReadSingle;
    ReplyReads(serial, Raised(what));
    var data, offset := ExceptionPayload(serial, what)[2..], |Write(U32(serial))|;
    ExceptionParses(p, data[..offset], data, what);
  }

  lemma ExceptionParses(p: Parser, pre: seq<byte>, data: seq<byte>, what: Text)
    requires data == pre + WriteAll([String(Ascii("Exception")), String(what)])
    ensures ParseException(p, data, |pre|) == Fail(p, what)
  {
    hide Write, WriteAll, ReadSingle;
    var v, w := String(Ascii("Exception")), String(what);
    assert [v, w] == [v] + ([w] + []);
    FieldReads(data, pre, v, [w] + []);
    FieldReads(data, pre + Write(v), w, []);
  }

  /** A reply leaves the fresh parser of its call with what the caller should see of the outcome. */
  lemma ReplySettlesCall(serial: u32, out: Outcome, ty: Type)
    ensures Collect(Completed(Fresh(ty), ReplyPayload(serial, out)), ty) == Seen(out, ty)
  {
    match out
    case Returned(v) => ResultCompletes(Fresh(ty), serial, v);
    case Raised(what) => ExceptionCompletes(Fresh(ty), serial, what);
  }

  /**
   * The table itself does not protect a finished call: a later exception quoting its serial overwrites the outcome,
   * while a later result leaves an exception standing.
   */
  lemma LateReplies(p: Parser, serial: u32, what: Text, v: Value)
    ensures Collect(Completed(p, ExceptionPayload(serial, what)), p.ty) == Rethrown(what)
    ensures p.exception.Some? && TypeOf(v) == p.ty ==>
              Collect(Completed(p, ResultPayload(serial, v)), p.ty) == Rethrown(p.exception.value)
  {
    ExceptionCompletes(p, serial, what);
    ResultCompletes(p, serial, v);
  }

  // ----- which object a call reaches, and what it runs -----

  /** Nothing happens at an id that cannot be received, or is neither in the table nor object 0 of a service. */
  lemma UnreachableObject<S>(env: Env<S>, server: Server<S>, o: ObjectId, name: Text, args: seq<Value>)
    ensures var received, called := Received(o), LocalCall(env, server, o, name, args);
            && (received.Thrown? ==> called == (server, Raised(received.what)))
            && (received.Made? && received.id !in server.objects &&
                !(received.id.id == 0 && received.id.cls in env.services) ==>
                  called ==
                  (server, Raised(Ascii("object with id ") + ObjectText(received.id) + Ascii(" not found"))))
  {
  }

  /** The first call on object 0 of a service goes to the service's own instance, as if it had been in the table. */
  lemma FirstCallEntersService<S>(
      env: Env<S>, server: Server<S>, o: ObjectId, name: Text, args: seq<Value>, id: ObjectId)
    requires Received(o) == Made(id) && id.id == 0 && id !in server.objects && id.cls in env.services
    ensures var entered := server.(objects := server.objects[id := env.services[id.cls]]);
            LocalCall(env, server, o, name, args) == LocalCall(env, entered, o, name, args)
  {
  }

  /**
   * A call on an object in the table: the table stays as it is; the declared method runs on that object with exactly
   * the arguments it asks for, and its store and outcome are the call's; otherwise the store stays as it is too.
   */
  lemma LocalCallRunsMethod<S>(env: Env<S>, server: Server<S>, o: ObjectId, name: Text, args: seq<Value>, id: ObjectId)
    requires Received(o) == Made(id) && id in server.objects
    ensures var target, (after, seen) := server.objects[id], LocalCall(env, server, o, name, args);
            var found := Lookup(env.interfaceOf(target), name);
            && (found.None? ==> after == server && seen == Raised(Ascii("invoking unknown method ") + name))
            && (found.Some? ==>
                  var m := found.value;
                  && (StartsWith(args, m.args) ==>
                        var (store, out) := env.run(server.store, target, m, args[..|m.args|]);
                        after == server.(store := store) && HandsBack(m, out, seen))
                  && (forall i :: StopsAt(args, m.args, i) ==>
                        after == server && seen == Raised(if i == |args| then END_OF_DATA else BAD_TYPE)))
  {
    hide Direct, Lookup, HandsBack, StartsWith, StopsAt;
    DirectRunsDeclared(env.run, server.objects[id], env.interfaceOf(server.objects[id]), server.store, name, args);
  }

  /** The same for argument bytes of any kind. */
  lemma CallReachesObject<S>(env: Env<S>, server: Server<S>, id: ObjectId, name: Text, argsData: seq<byte>)
    ensures var called := Call(env, server, id, name, argsData);
            if id in server.objects then
              var target := server.objects[id];
              var (store, out) := Invoke(env.run, target, env.interfaceOf(target), server.store, name, argsData);
              called == (server.(store := store), out)
            else if id.id == 0 && id.cls in env.services then
              var entered := server.(objects := server.objects[id := env.services[id.cls]]);
              called == Call(env, entered, id, name, argsData)
            else called == (server, Raised(Ascii("object with id ") + ObjectText(id) + Ascii(" not found")))
  {
    hide Invoke;
  }

  /** An invoke whose header cannot be read or names no class touches nothing, and raises what reading it raised. */
  lemma BrokenHeaderTouchesNothing<S>(env: Env<S>, server: Server<S>, data: seq<byte>)
    ensures var head, served := ReadAll([StringType, U32Type, U32Type], data, 0), ServeInvoke(env, server, data);
            && (head.ReadListFailed? ==> served == (server, Raised(head.reason)))
            && (head.ReadList? ==>
                  && head.values[0].String? && head.values[1].U32? && head.values[2].U32?
                  && var cls := Construct(head.values[0].text, head.values[1].n);
                     var called := ReadSingle(StringType, data, head.end);
                     && (cls.Thrown? ==> served == (server, Raised(cls.what)))
                     && (cls.Made? && called.ReadFailed? ==> served == (server, Raised(called.what)))
                     && (cls.Made? && called.Read? ==>
                           served == Call(env, server, ObjectId(cls.id, head.values[2].n), called.value.text,
                                          data[called.next..])))
  {
    hide ReadSingle, Construct, Call;
    var types := [StringType, U32Type, U32Type];
    assert types[1..] == [U32Type, U32Type] && types[1..][1..] == [U32Type] && types[1..][1..][1..] == [];
  }

  // ----- what is on the wire -----

  /** A list of values written one after the other reads back whole. */
  lemma FieldsReadBack(fields: seq<Value>)
    ensures ReadAll(TypesOf(fields), WriteAll(fields), 0) == ReadList(fields, |WriteAll(fields)|)
  {
    ArgumentsSurvive(fields);
  }

  /** The fields of an invoke and of a release. */
  lemma RequestLayout(o: ObjectId, name: Text, args: seq<Value>)
    ensures var id := [String(o.cls.name), U32(o.cls.version), U32(o.id)];
            var invoke, release := [U8(0)] + id + [String(name)] + args, [U8(5)] + id;
            var sent, released := InvokePayload(o, name, args), RequestPayload(REQUEST_RELEASE, WireFields(o));
            && ReadAll(TypesOf(invoke), sent, 0) == ReadList(invoke, |sent|)
            && ReadAll(TypesOf(release), released, 0) == ReadList(release, |released|)
  {
    hide ReadAll, WriteAll, TypesOf;
    var id := [String(o.cls.name), U32(o.cls.version), U32(o.id)];
    assert [U8(0)] + id + [String(name)] + args == [U8(0)] + (WireFields(o) + [String(name)] + args);
    FieldsReadBack([U8(0)] + id + [String(name)] + args);
    FieldsReadBack([U8(5)] + id);
  }

  /** The fields of a result and of an exception. */
  lemma ReplyLayoutReads(serial: u32, v: Value, what: Text)
    ensures var result := [U8(6), U32(serial), v];
            var exception := [U8(7), U32(serial), String(Ascii("Exception")), String(what)];
            var returned, raised := ReplyPayload(serial, Returned(v)), ReplyPayload(serial, Raised(what));
            && ReadAll(TypesOf(result), returned, 0) == ReadList(result, |returned|)
            && ReadAll(TypesOf(exception), raised, 0) == ReadList(exception, |raised|)
  {
    var head := [U8(6), U32(serial)];
    var fields := [U32(serial), String(Ascii("Exception")), String(what)];
    assert head + [v] == [U8(6), U32(serial), v] && [v] + [] == [v];
    assert [U8(7)] + fields == [U8(7), U32(serial), String(Ascii("Exception")), String(what)];
    FieldsReadBack([U8(6), U32(serial), v]);
    FieldsReadBack([U8(7)] + fields);
    WriteAllAppend(head, [v]);
    hide ReadAll, Write;
    WriteAllCons(v, []);
    assert Write(v) + [] == Write(v);
  }

  /** A frame that is neither an invoke nor a response touches no object, and is answered with an exception for it. */
  lemma OtherFramesTouchNothing<S>(env: Env<S>, server: Server<S>, serial: u32, data: seq<byte>)
    ensures var head, (after, reply) := ReadSingle(U8Type, data, 0), Serve(env, server, serial, data);
            && (head.ReadFailed? ==> after == server && reply == Some(ReplyPayload(serial, Raised(head.what))))
            && (head.Read? && head.value.b !in {0, 6, 7} ==>
                  && after == server
                  && reply ==
                     Some(ReplyPayload(serial, Raised(Ascii("unhandled request ") + Decimal(head.value.b)))))
  {
  }

  // ----- replies that do not read as expected -----

  /**
   * What any response makes of the parser it quotes: a result that reads as the expected type sets the value and
   * leaves an earlier exception; anything that cannot be read sets the failure as the exception.
   */
  lemma ResponseCompletes(p: Parser, data: seq<byte>)
    requires IsResponse(data) && Quoted(data).Some?
    ensures var kind := ReadSingle(U8Type, data, 0);
            && kind.Read?
            && var quoted := ReadSingle(U32Type, data[kind.next..], 0);
               && quoted.Read?
               && var rest, from, after := data[kind.next..], quoted.next, Completed(p, data);
                  var result, texts := ReadSingle(p.ty, rest, from), ReadAll([StringType, StringType], rest, from);
                  && after.finished && after.ty == p.ty
                  && (kind.value.b == 6 && result.Read? ==>
                        after.value == result.value && after.exception == p.exception)
                  && (kind.value.b == 6 && result.ReadFailed? ==>
                        after.value == p.value && after.exception == Some(result.what))
                  && (kind.value.b == 7 && texts.ReadListFailed? ==>
                        after.value == p.value && after.exception == Some(texts.reason))
                  && (kind.value.b == 7 && texts.ReadList? ==>
                        texts.values[1].String? && after.value == p.value &&
                        after.exception == Some(texts.values[1].text))
  {
    hide ReadSingle;
    assert [StringType, StringType][1..] == [StringType];
  }

  /** Waiting with another type than the call's: a result is refused, an exception is rethrown all the same. */
  lemma OtherTypeIsRefused(serial: u32, out: Outcome, ty: Type, other: Type)
    requires other != ty && (out.Returned? ==> TypeOf(out.value) == ty)
    ensures Collect(Completed(Fresh(ty), ReplyPayload(serial, out)), other) ==
            if out.Returned? then WrongParser else Rethrown(out.what)
    ensures Collect(Fresh(ty), other) == Pending
  {
    match out
    case Returned(v) => ResultCompletes(Fresh(ty), serial, v);
    case Raised(what) => ExceptionCompletes(Fresh(ty), serial, what);
  }
}
