# p-bus: message channel, remote calls, interface language, service start-up

p-bus is a service-to-service bus. Each pair of services shares one socket; requests and replies travel over it as
length-prefixed frames, and a reply names its request by a serial that is never sent: both ends count frames. This
project models that machinery and proves what a caller relies on.

## How the model is built

| file | what it holds |
|---|---|
| Wrappers, Bytes, Framing | bytes, header word, frames, the whole-stream decoder |
| Codec | the value codec (see below) |
| Identity | class, service and object ids: parsing, printing, wire trip |
| Stub | generated stubs: dispatch by name through the interface chain, argument decoding |
| Protocol | message layout, serving one frame, settling one reply, and the same call made locally |
| BusModel | a session with its connections as a value: the effect of every event |
| Connection, Session | the program's objects (`WriteTask`, `ReadTask`, `LocalBusConnection`, `ResponseParser`, `Session`), changed in place; every method is proved to do what BusModel or Protocol says |
| System | two sessions over one socket pair as a step system: calls, partial writes, partial reads, turns of the read loop, in any order |
| Channel, Calls | what every step keeps: byte conservation, counters, the server replay, the request tables |
| Serials, LocalCalls | answers come back to the requests under one serial in order and without a gap; the same calls made locally, and what several replies to one parser show together |
| Runs, Theorems, Traffic | the results over every state of every run |
| RemoteCall | a proxy call inside a run: `CallRemote` with any peer steps between its polls |
| Lapped | two runs in which a call does not have its serial to itself |
| Idl | the interface grammar, its semantic actions, a reader without choices, a writer |
| Startup | the wait loop of `Manager::start` over whole runs |

The main result is `Theorems.RemoteCallTransparency`, about every registered call in every state of every run, of any
length. The reference is `LocalCalls.LocalReply`: what a request comes to in process, at the peer, after making all
earlier queued calls there locally, in order. It is a function of the caller's list of calls; no bytes or frames occur in
it. The entry of a call shows the local replies to an unbroken stretch of the requests under its serial: from the oldest
one still waiting when the call was made, up to the last one answered (the last exception stands, and without one the
last reply). If the call is `Undisturbed`, it shows nothing yet or exactly its own local outcome. Undisturbed is a
comparison of three numbers the caller can count: requests sent under the serial before the call, and answers heard
under it before the call and in all. It holds exactly when every answer heard under the serial since the call is the
call's own.

`RemoteCall.ProxyCallIsLocalCall` carries this over to the proxy method: invoke, poll event by event, peer steps in
between, read the entry. `RemoteCall.Played` is the state such a script leads to when it stops at the reply; the session
ends as its side of that state, and if the payloads queued by then fit the header, what the call returns is the local
result. `RemoteCall.CallInRun` states it of the `Session` object, `RemoteCall.ProxyCallFromOtherSide` for a caller on
the other side (`Runs.SidesAreAlike`). `RemoteCall.EveryCallCanReturn`,
`Traffic.IoComesToAnEnd`, `Traffic.EveryRunCanFinish` and `Traffic.QuietMeansAllCallsFinished` add that polling can
always end, that input and output on their own come to an end, and that every call is finished there.

## Assumptions

- A read event is not handled while a frame of the same connection is being dispatched: the program replaces the read
  task only after the dispatch. `BusModel.ReentryDispatchesAgain` shows what happens otherwise: the same payload is
  dispatched again and no byte is taken. In `Session` this is the precondition `Idle` (or `Ready`), and in `System` a
  turn of the read loop is one step.
- One thread polls. Queueing a frame and counting it is one step; so is invoking and registering the parser.
- One connection per pair, from its start, without hangup. Posting always succeeds.
- Hosted objects change state only when called over the bus; what they do is a parameter (`Env.run`), any function
  from store, object, method and arguments to a new store and an outcome. The services of a session are registered
  before the run.
- Payloads: byte conservation holds for any payloads. Results about frames ask that every payload queued so far is
  shorter than 2^32 bytes (`FitsAll`), because the header holds its length modulo 2^32; `Framing.FramesRoundTrip`
  shows this is exactly the condition.
- Serials are frame counts modulo 2^32, so requests 2^32 frames apart share one. Nothing is assumed about this: results
  cover every call, and say what it shows when it shares its serial.
- Codec: the BSON streams belong to the toolkit, which is not part of this model. `Codec` is a self-delimiting stand-in
  used only through its proved laws (`Codec.ReadAllMatches`, `Codec.CutOffFails`).
- `atoi` outside the int range is read as glibc does it: saturate to a 64-bit long, then narrow.
- A nested table `_requests[origin][serial]` is kept as one map with the pair as key.
- Start-up: no signal is lost, pids are fresh, a child announces itself at most once and posts nothing after it stopped.

## What the proofs turned up

- `ClassId(name, version)` never reads `version`. So `FromString` inverts printing only for version 1
  (`Identity.FromStringInvertsToText`, with `Identity.FromStringLosesVersion` as an instance), and an object id
  survives the wire only for version 1 and dash-free names (`Identity.WireKeepsId`).
- Nothing in the request table itself protects a finished call (`Protocol.LateReplies`). A call is disturbed by exactly
  two things, and each alone is enough: a request under its serial that still waited when the call was made
  (`Lapped.OlderReplyStays`), and a request sent later at a place congruent to its own modulo 2^32
  (`Lapped.FinishedCallIsOverwritten`: a release overwrites a result; another call there replaces the entry itself,
  `Theorems.EntryChangesExactly`). Answers sent at such a place disturb nothing. Once all is dispatched, a call is
  undisturbed exactly when neither happened (`Traffic.QuietMeansAllCallsFinished`); before the call, a caller can check
  the first by counting, and it rules out the second by sending fewer than 2^32 frames behind the call
  (`Theorems.UnlappedIsLive`). In the first 2^32 frames of a direction neither can happen
  (`Theorems.EarlyCallsAreLive`).
- `FromString` accepts any number an int can hold, zero and negative ones too, and makes version 1 of it, while the
  constructor refuses zero (`Identity.FromStringReadsNumber`, `Identity.ConstructReadsVersion`).
- The interface grammar is ambiguous, harmlessly (`Idl.GrammarIsAmbiguous`, `Idl.AmbiguityIsHarmless`), and accepts a
  comma before the first argument (`Idl.LeadingCommaLeavesNoTrace`). A reader without choices accepts exactly the
  derivable token strings (`Idl.ReaderIsComplete`).

## Model

| member | source | states |
|---|---|---|
| Theorems.RemoteCallTransparency | src/lib/pbus/Session.h:151-178 | in every state of every run, every registered call shows the local replies to the requests under its serial from the oldest one waiting at the call to the last one answered; it is undisturbed exactly if all answers heard for it are its own, and then waiting gives nothing yet or exactly the outcome of the local call made after all earlier calls; the peer's objects are in the state those local calls leave |
| RemoteCall.ProxyCallIsLocalCall | tools/idl/idl/lang/cpp/remote.cpp:12-17 | a proxy method called in a run and polled through any script of its own events and peer steps leaves the session as the script leaves its side, which is a state of the run; the reply is reported exactly if it is there in that state; then, if the payloads queued up to that state fit, the call returns the local outcome of its call when nothing waited under its serial, only then something made from its own reply alone, and otherwise what the waiting requests and it come to together |
| RemoteCall.ProxyCallFromOtherSide | tools/idl/idl/lang/cpp/remote.cpp:12-17 | the same for a caller on the other side of the pair |
| RemoteCall.CallInRun | tools/idl/idl/lang/cpp/remote.cpp:12-17 | the session object's own CallRemote, in a state of a run, ends as the script leaves its side, returns exactly when the reply is there, and returns that local result |
| RemoteCall.EveryCallCanReturn | src/lib/pbus/Session.cpp:165-179 | after any run a new call has a script of input and output steps alone at whose end waiting has found the reply, with its local result, unless a frame queued by then is too long for its header |
| RemoteCall.ScriptIsPolling | src/lib/pbus/Session.cpp:165-179 | polling until the reply arrived, with peer steps in between, ends with the bus of exactly the state the script leads to, a state of the run in which the caller has made no further request; a call pending before is reported exactly if its reply is there |
| Theorems.OneAnswerPerRequest | src/lib/pbus/Session.cpp:71-96 | in every state of every run a dispatched request has exactly one answer queued, with the request's serial and local reply, any other frame has none, and every request is at exactly one stage: asked, answered, or its answer heard |
| Theorems.NoCallLostOrDuplicated | src/lib/pbus/Session.h:151-159 | every registered call is at exactly one stage, and pending exactly while no answer under its serial was heard since it was sent; if undisturbed, exactly while its request or its answer is under way |
| Theorems.EntryChangesExactly | src/lib/pbus/Session.cpp:181-228 | in every step of every run and for every serial: a fresh entry appears or replaces the old one exactly when a call is sent at a place with the serial, an entry is settled exactly when the answer to a request with its serial is heard, and otherwise it stays as it is, or absent |
| Theorems.FinishedStaysFinished | src/lib/pbus/Session.cpp:181-228 | for any two states of a run, with no condition on payloads or serials: an entry is replaced exactly if a call was sent under its serial in between, otherwise it folds in the answers heard, stays finished, is unchanged if no answer under its serial was heard, and unchanged once finished if the call is undisturbed |
| Theorems.OtherAnswersChangeNoCall | src/lib/pbus/Session.h:180-187 | in every step of every run hearing the answer to a frame that was no call, such as a release, changes no call that has its serial to itself |
| Theorems.LiveCallsAreTransparent | src/lib/pbus/Session.h:151-178 | in every state of every run a call with its serial to itself gives nothing yet or exactly its local outcome |
| Theorems.UnlappedIsLive | src/lib/pbus/LocalBusConnection.h:107-115 | a call behind nothing under its serial, with at most 2^32 - 1 frames sent behind it, has its serial to itself |
| Theorems.EarlyCallsAreLive | src/lib/pbus/LocalBusConnection.h:107-115 | in the first 2^32 frames of a direction every registered call has its serial to itself |
| Lapped.FinishedCallIsOverwritten | src/lib/pbus/Session.cpp:181-205 | a run, with all payloads fitting, in which a finished call shows its result and later, 2^32 frames on, the exception for a release |
| Lapped.OlderReplyStays | src/lib/pbus/Session.h:151-159 | a run, with all payloads fitting, in which a call with nothing sent behind it shows the exception for a release sent 2^32 frames before it |
| Serials.AnsweredAreFirstRequests | src/lib/pbus/Session.cpp:71-96 | the requests answered under a serial are, in order and without a gap, the first ones sent under it |
| Serials.HeardAnswerFirstRequests | src/lib/pbus/Session.cpp:135-145 | what was heard under a serial answers exactly as many of the first requests sent under it |
| LocalCalls.FoldShowsReplies | src/lib/pbus/ResponseParser.h:22-70 | a parser that took what was heard shows the local replies to the requests answered in between, and is finished exactly if there was one |
| LocalCalls.LastExceptionStands | src/lib/pbus/ResponseParser.h:32-52 | of several replies to one parser the last exception is shown, and without one the last reply |
| LocalCalls.AnswerIsLocalReply | src/lib/pbus/Session.cpp:71-96 | a queued answer is the reply with the local outcome of the request it answers, under that request's serial |
| LocalCalls.ReplayIsLocalRun | src/lib/pbus/Session.cpp:98-133 | serving the queued bytes in order leaves the server as making the queued calls locally in order |
| Runs.SerialAgreement | src/lib/pbus/LocalBusConnection.h:107-115 | the n-th frame queued is the n-th dispatched with the same payload, both ends count n modulo 2^32, and answers quote it, at any length of run |
| Runs.ByteConservation | src/lib/pbus/LocalBusConnection.h:33-91 | all frames ever queued are the re-encoded dispatched frames, the bytes held, buffered, on the wire and unsent, in this order |
| Runs.OutputInterestFollowsQueue | src/lib/pbus/LocalBusConnection.cpp:70-101 | in every state output interest is on exactly while frames are queued, and no queued frame is finished |
| Runs.RunInv | src/lib/pbus/LocalBusConnection.cpp:84-129 | the joint invariant of channels, servers and request tables holds in every state of every run |
| Traffic.NoExceptionStorm | src/lib/pbus/Session.cpp:71-96 | in every run the frames dispatched are at most the frames sent, and those at most twice the requests made |
| Traffic.HearDropsLoad | src/lib/pbus/Session.cpp:52-59 | every dispatch lowers the weight of what is still to be dispatched: an answer brings nothing, a request at most one answer |
| Traffic.IoComesToAnEnd | src/lib/pbus/LocalBusConnection.cpp:84-129 | every input or output step lowers a well-founded measure, so input and output on their own end |
| Traffic.QuietMeansAllCallsFinished | src/lib/pbus/Session.cpp:165-179 | when no input or output step is left, every frame has been dispatched and every call is finished; it is undisturbed exactly if it had its serial to itself, then it shows its local outcome, and otherwise what all requests under its serial from the oldest one waiting at the call come to together |
| Traffic.EveryRunCanFinish | src/lib/pbus/LocalBusConnection.cpp:84-129 | from the last state of any run, input and output steps alone lead to a quiet state, unless a reply on the way is too long for its header |
| Traffic.TurnsAreTheReadLoop | src/lib/pbus/LocalBusConnection.cpp:112-129 | the single turns of the step system add up to the whole read loop over one buffer |
| Calls.StepKeepsCalls | src/lib/pbus/Session.cpp:135-145 | every step keeps both request tables, whatever payloads and serials: an entry belongs to the last call sent under its serial and is the fold, from fresh, of the responses heard since then that quote it |
| Calls.CallsUnderHear | src/lib/pbus/Session.cpp:207-228 | hearing a frame settles it on the entry it quotes and on no other |
| Calls.StepKeepsServer | src/lib/pbus/Session.cpp:71-96 | every step keeps: the server is the replay of what was dispatched, and each request dispatched has one answer, in order |
| Calls.AnswersAreResponses | src/lib/pbus/Session.cpp:79-92 | a queued frame is a response exactly when it answers a frame, and then quotes that frame's serial |
| Channel.StepKeepsChannels | src/lib/pbus/LocalBusConnection.cpp:84-129 | every step of either side keeps byte conservation and both counters in both directions |
| Channel.InOrder | src/lib/pbus/LocalBusConnection.h:107-115 | what was dispatched is a prefix of what was queued, and what is in transit is exactly the rest |
| BusModel.ChunkingIndependence | src/lib/pbus/LocalBusConnection.cpp:112-129 | however a stream is cut into reads, the session ends as if the frames of the whole-stream decoder were dispatched, with the decoder's rest in the read task |
| BusModel.FeedIsDecode | src/lib/pbus/LocalBusConnection.h:68-87 | the read loop over one buffer is the whole-stream decoder followed by dispatching its frames |
| BusModel.ReadProgress | src/lib/pbus/LocalBusConnection.h:68-87 | a read of an unfinished task takes at least one byte, stops exactly at the end of the frame, and otherwise takes everything offered |
| BusModel.StallsExactlyWhenFinished | src/lib/pbus/LocalBusConnection.h:65-87 | a read takes nothing from a non-empty offer exactly when the read task was already finished |
| BusModel.ReentryDispatchesAgain | src/lib/pbus/LocalBusConnection.cpp:116-127 | handling another read before the read task is replaced dispatches the same payload again |
| BusModel.ResetAfterDispatch | src/lib/pbus/LocalBusConnection.cpp:117-126 | replacing the read task after the dispatch comes to the same as before it |
| BusModel.OutputTakes | src/lib/pbus/LocalBusConnection.cpp:84-101 | an output event takes exactly the written bytes off the front of the unsent ones |
| BusModel.EnqueueAppends | src/lib/pbus/LocalBusConnection.h:107-115 | a queued frame goes behind the unsent bytes and turns output interest on |
| BusModel.FeedKeepsAllReady | src/lib/pbus/LocalBusConnection.cpp:114-128 | after a read event no connection is left with a finished, undispatched frame |
| BusModel.PollStopsAtReply | src/lib/pbus/Session.cpp:165-177 | waiting reports the reply at the first poll event after which it is there, in the state after that event |
| BusModel.PollTimesOut | src/lib/pbus/Session.cpp:165-179 | waiting times out when the reply is there after none of the events, in the state after all of them |
| Framing.FramesRoundTrip | src/lib/pbus/Session.h:139-146 | decoding the concatenated frames gives the payload list back exactly when every payload is shorter than 2^32 bytes |
| Framing.UniquelyDecodable | src/lib/pbus/Session.cpp:123-130 | two lists of such payloads with the same bytes are the same list |
| Framing.DecodeConserves | src/lib/pbus/LocalBusConnection.h:68-87 | decoding loses no byte, delivers only payloads that fit, and leaves an incomplete rest |
| Framing.DecodeAppend | src/lib/pbus/LocalBusConnection.h:68-87 | decoding may stop anywhere and go on with the rest in front of the new bytes |
| Bytes.HeaderIsLittleEndian | src/lib/pbus/Session.h:145-145 | the four header bytes are those of the length, the least significant first |
| Protocol.ServeAnswersLocalCall | src/lib/pbus/Session.cpp:98-133 | serving an invoke frame does what the local call on its values does, and answers with its outcome under the frame's serial |
| Protocol.InvokeHeaderReads | src/lib/pbus/Session.cpp:100-105 | the receiver's reads give back class name, version, id and method name, and leave exactly the argument bytes |
| Protocol.OneReplyPerRequest | src/lib/pbus/Session.cpp:71-96 | a response gets no reply and changes no object; any other frame gets exactly one reply, a response quoting the frame's serial |
| Protocol.ReplyReads | src/lib/pbus/Session.cpp:52-59 | a reply reads back as its kind, the quoted serial, and the result or the exception fields |
| Protocol.SettleIsolated | src/lib/pbus/Session.cpp:181-228 | a frame changes at most the entry it quotes under its own origin, only if it is a response, and then finishes it |
| Protocol.ReplySettlesCall | src/lib/pbus/ResponseParser.h:22-70 | a reply leaves a fresh parser with the value, or the exception text, or a type failure when the value is not of the expected type |
| Protocol.LateReplies | src/lib/pbus/ResponseParser.h:32-52 | a later exception overwrites a finished outcome; a later result leaves an exception standing |
| Protocol.LocalCallRunsMethod | tools/idl/idl/lang/cpp/interface.cpp:26-39 | a call on an object in the table leaves the table alone and runs the declared method on that object with exactly the arguments it asks for; the method's store and outcome are the call's, a void method gives Undefined; an undeclared name, or the first missing or mistyped argument, is raised and the store stays |
| Protocol.FirstCallEntersService | src/lib/pbus/Session.cpp:111-120 | the first call on object 0 of a registered service goes to the service's own instance, as if that had been in the table |
| Protocol.UnreachableObject | src/lib/pbus/Session.cpp:104-118 | an id that cannot be constructed raises that; one neither in the table nor object 0 of a service raises that it is not found; nothing changes |
| Protocol.CallReachesObject | src/lib/pbus/Session.cpp:107-129 | for argument bytes of any kind: the object in the table is invoked, object 0 of a service is entered first, anything else is not found |
| Protocol.BrokenHeaderTouchesNothing | src/lib/pbus/Session.cpp:98-107 | an invoke whose header cannot be read or names no class changes nothing and raises the first failure in the order of the reads |
| Protocol.OtherFramesTouchNothing | src/lib/pbus/Session.cpp:71-96 | a frame with an unreadable type, or one other than 0, 6 and 7, changes no object and is answered with an exception that says so |
| Protocol.ResponseCompletes | src/lib/pbus/Session.cpp:181-228 | any response, readable or not: a result of the expected type sets the value and leaves an earlier exception, an unreadable one sets its failure; an exception sets its text, or the failure to read it |
| Protocol.OtherTypeIsRefused | src/lib/pbus/Session.h:161-178 | waiting with another type than the call's refuses a result, rethrows an exception, and is pending before |
| Protocol.RequestLayout | src/lib/pbus/Session.h:151-187 | an invoke is type 0, the id's fields, the method name and the arguments, a release is type 5 and the id's fields; both read back whole |
| Protocol.ReplyLayoutReads | src/lib/pbus/Session.cpp:52-59 | a result is type 6, the serial and the value, an exception type 7, the serial, its type name and its text; both read back whole |
| Stub.StubIsDirectCall | tools/idl/idl/lang/cpp/interface.cpp:21-43 | the stub fed with written arguments does what the call on the values does: same store, same result or exception |
| Stub.ArgumentsSurvive | tools/idl/idl/lang/cpp/remote.cpp:12-17 | arguments of the declared types arrive as the same list and leave no byte |
| Stub.UnknownExactlyWhenUndeclared | src/lib/pbus/idl/core/ICoreObject.cpp:6-7 | dispatch finds a method exactly when some interface of the chain declares the name, and otherwise raises "unknown method" |
| Stub.MostDerivedWins | tools/idl/idl/lang/cpp/interface.cpp:26-42 | the method found is the first declaration of the name at the most derived level that has one |
| Stub.InvokeRunsDeclared | tools/idl/idl/lang/cpp/interface.cpp:21-43 | for any argument bytes the stub runs the declared method on the object with the arguments read, or raises the first failing read or the unknown name and leaves the store |
| Stub.ReadArguments | tools/idl/idl/lang/cpp/interface.cpp:28-30 | the one-by-one argument reads are the list read, including the first failure |
| Stub.PbusInvoke | tools/idl/idl/lang/cpp/interface.cpp:21-43 | the stub's outcome, and that a call that raises has appended nothing to the result |
| Codec.ReadAllMatches | src/lib/pbus/Session.h:144-144 | reading types over written values is matching types against values, and stops behind the last one read |
| Identity.ConstructInvertsToText | src/lib/pbus/ClassId.h:26-41 | constructing from the printed text gives the id back exactly when the name has no dash and the version is positive |
| Identity.ConstructedIdsSurvive | src/lib/pbus/ClassId.h:26-41 | every id a constructor makes survives printing and constructing |
| Identity.ConstructReadsVersion | src/lib/pbus/ClassId.h:26-36 | for any text behind the first dash: white space, sign and digits give the number, saturated to 64 bits and taken modulo 2^32; zero, or no digit, throws; otherwise it is the version of that name |
| Identity.ConstructWithoutDash | src/lib/pbus/ClassId.h:37-41 | a name without a dash has version 1, whatever version is given |
| Identity.TextSplits | src/lib/pbus/ClassId.h:32-32 | every text is of the form that ConstructReadsVersion and FromStringReadsNumber speak about |
| Identity.FromStringInvertsToText | src/lib/pbus/ClassId.cpp:10-17 | `FromString` inverts printing exactly for dash-free names of version 1 |
| Identity.FromStringReadsNumber | src/lib/pbus/ClassId.cpp:10-17 | FromString throws without a dash, without digits behind it, or for a number outside int, and otherwise makes version 1 of any number, zero and negative ones too |
| Identity.FromStringLosesVersion | src/lib/pbus/ClassId.cpp:16-16 | an id of version 2 that `FromString` turns into version 1 |
| Identity.ToTextInjective | src/lib/pbus/ClassId.h:59-60 | different ids print differently |
| Identity.SocketPathInjective | src/lib/pbus/LocalBusConnection.cpp:26-35 | two services share a socket path only when they are the same |
| Identity.SocketPathReads | src/lib/pbus/LocalBusConnection.cpp:26-35 | the path is /packages/, the name, a dash, the version and /socket, behind a dot in development builds |
| Identity.ObjectTextReads | src/lib/pbus/ObjectId.h:21-22 | an object id prints as name, dash, version, slash and id |
| Identity.WireKeepsId | src/lib/pbus/ObjectId.cpp:6-7 | an object id crosses the wire unchanged exactly for dash-free names of version 1 |
| Connection.WriteTask.Complete | src/lib/pbus/LocalBusConnection.h:47-48 | advances the write task by what was written |
| Connection.ReadTask.Read | src/lib/pbus/LocalBusConnection.h:68-87 | takes exactly the wanted bytes and keeps them in order behind those held, header first, within both buffers |
| Connection.LocalBusConnection.Send | src/lib/pbus/LocalBusConnection.h:107-115 | the whole new connection state and the returned serial |
| Connection.LocalBusConnection.HandleOutput | src/lib/pbus/LocalBusConnection.cpp:84-101 | the whole new connection state after a partial write |
| Session.ResponseParser.Parse | src/lib/pbus/ResponseParser.h:48-52 | the parsed value, or the exception with the parser left as it was |
| Session.ResponseParser.SetException | src/lib/pbus/ResponseParser.h:32-33 | the exception is kept and the parser is finished |
| Session.Session.Send | src/lib/pbus/Session.cpp:61-69 | the frame is queued on the peer's connection, made on demand, and nothing else changes |
| Session.Session.MakeRequest | src/lib/pbus/Session.h:135-149 | the frame built in place and patched is the frame of the request's payload |
| Session.Session.Invoke | src/lib/pbus/Session.h:151-159 | the call is queued and a fresh parser registered under the serial it went out with |
| Session.Session.Release | src/lib/pbus/Session.h:180-187 | a release is queued and nothing registered |
| Session.Session.OnIncomingInvoke | src/lib/pbus/Session.cpp:98-133 | a result is posted whole; an exception leaves with nothing posted |
| Session.Session.OnIncomingResult | src/lib/pbus/Session.cpp:207-228 | at most the quoted entry changes, by value or parse failure |
| Session.Session.OnIncomingException | src/lib/pbus/Session.cpp:181-205 | at most the quoted entry changes, to the carried text or the read failure |
| Session.Session.OnIncomingData | src/lib/pbus/Session.cpp:71-96 | the whole new session state after one frame |
| Session.Session.GetLocalService | src/lib/pbus/Session.cpp:25-37 | returns the registered service or nothing, and enters it as object 0 unless one is there |
| Session.Session.HandleInput | src/lib/pbus/LocalBusConnection.cpp:103-130 | the read loop over one buffer, with every dispatch, leaves the session as the value model says; it ends with all bytes taken |
| Session.Session.WaitResponse | src/lib/pbus/Session.cpp:165-179 | polls until the call is finished or the events run out |
| Session.Session.Wait | src/lib/pbus/Session.h:161-178 | gives the value, rethrows, or reports the wrong parser type; never a pending outcome |
| Session.Session.CallRemote | tools/idl/idl/lang/cpp/remote.cpp:12-17 | a proxy method is an invoke and a wait under its serial; RemoteCall.ProxyCallIsLocalCall says what that comes to in a run |
| Idl.ReaderIsComplete | tools/idl/idl/grammar.py:49-158 | the choice-free reader accepts exactly the token strings with a derivation, to the last token, and builds an interface exactly when some derivation does |
| Idl.ActionIsReader | tools/idl/idl/grammar.py:49-158 | the actions of any derivation build what the choice-free reader builds from the tokens |
| Idl.AmbiguityIsHarmless | tools/idl/idl/grammar.py:122-137 | two derivations of one token string build the same interface or raise the same exception |
| Idl.GrammarIsAmbiguous | tools/idl/idl/grammar.py:122-137 | every one-method interface has two derivations |
| Idl.LeadingCommaLeavesNoTrace | tools/idl/idl/grammar.py:94-105 | a comma before the first argument is accepted and changes nothing |
| Idl.WritableExactlyWhenOk | tools/idl/idl/grammar.py:62-84 | an interface can be written down exactly when each type is a name alone, or modifiers and at most one other atom |
| Idl.WriteThenRead | tools/idl/idl/grammar.py:139-158 | the canonical token string of an interface reads back as that interface |
| Idl.TypeNode.Add | tools/idl/idl/__init__.py:5-11 | adds one of the four modifiers, or the one base type, or raises the duplicate and leaves the node alone |
| Idl.PrimitiveBuilds | tools/idl/idl/__init__.py:5-11 | atoms build a type exactly when at most one of them is other than short, long, signed and unsigned; the modifiers are those in order, the base is the other one, and a second other atom raises the duplicate |
| Idl.FirstBadTypeRaises | tools/idl/idl/grammar.py:62-137 | an interface raises exactly what the first of its types, in the order they are written, raises that cannot be built |
| Idl.ServiceManagerReads | src/idl/system/ServiceManager.idl:1-4 | the repository's own interface reads as one void method with a string and an unsigned short int argument |
| Idl.EmptyDerivedReads | tools/idl/idl/grammar.py:145-158 | an interface over a base without methods of its own reads as that |
| Idl.ReducePrimitive | tools/idl/idl/grammar.py:62-73 | reducing atoms in place builds the type of the derivation |
| Startup.StartsEndRight | src/services/system/servicemanager/ServiceManager.cpp:189-239 | over every run no start reports a spurious signal, each returned exactly if its child announced itself and failed exactly if it stopped without, and only stop events remain between starts |
| Startup.StartEnds | src/services/system/servicemanager/ServiceManager.cpp:212-237 | once its child announced itself or stopped, a start ends on what is in the pipe, as the child did |
| Startup.BothEndingsOccur | src/services/system/servicemanager/ServiceManager.cpp:212-237 | a run in which one start returns and the next fails, although an older child's stop is read in between |
| Startup.EndsAtFirstDecision | src/services/system/servicemanager/ServiceManager.cpp:222-235 | the loop ends at the first deciding event and leaves everything behind it |
| Startup.LoopEndsRight | src/services/system/servicemanager/ServiceManager.cpp:222-235 | the loop ends at the first start signal or stop of its own child: it returns on the child's start, is spurious on another's, fails on the child's stop, and leaves what follows; with none it goes on waiting |
| Startup.ReadOneIsLoopTurn | src/services/system/servicemanager/ServiceManager.cpp:217-236 | a read step of a run is a turn of the wait loop |
| Startup.Manager.Start | src/services/system/servicemanager/ServiceManager.cpp:212-238 | how the loop ends and what it leaves in the pipe |

## Left out

- Sockets, polling, peer credentials, mounts, processes, signal delivery: a read or write is a step that moves any allowed number of bytes.
- Hangup, reconnect and failed connects (LocalBusConnection.cpp:37-62 and 73-82): the model stops at a hangup.
- Several threads: the mutexes and the windows between them are not modelled.
- A handler that waits for another call while its own frame is being dispatched. Frames a handler queues without waiting are steps of their own before the turn that dispatches its frame.
- More than two services in one run: tables and settling are proved for any number of origins, runs for two peers.
- The 15 second timeout of WaitResponse: the poll reports a given list of events and then times out.
- PopResponseParser and clearing of the request table: nothing calls it, so entries stay.
- GetService, ComponentFactory, ServiceRegistry, RandomGenerator, logging: simple lookups and plumbing.
- The BSON byte format and hash functions.
- The lexer, the parser generator's tables and the text templates' output.
- Object references as arguments or results: no codec for them is in the repository.
- Session.ResponseParser.Parse: the value is one of the codec's types instead of any C++ type.
- Theorems.RemoteCallTransparency: asks that payloads fit the header, because the header keeps a length modulo 2^32; Framing.FramesRoundTrip shows that this is exactly when frames survive.
