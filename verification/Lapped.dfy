/**
 * Why a call must have its serial to itself: two runs of the same pair of services in which it does not, and where
 * waiting for it shows the reply to another request although its own reply has arrived.
 */
module Lapped {
  import opened Bytes
  import opened Framing
  import opened Codec
  import opened Identity
  import opened Stub
  import opened Protocol
  import opened BusModel
  import opened System
  import opened Channel
  import opened Calls
  import opened Serials
  import opened LocalCalls
  import opened Runs
  import opened Theorems
  import opened Traffic

  // ----- two services, one void method -----

  const SERVICE := ClassId([120], 1)
  const CALLER := ClassId([99], 1)
  const TARGET := ObjectId(SERVICE, 0)
  const NAME: Text := [109]

  function OneMethod(target: nat): Interface {
    Interface([Method(NAME, [], UndefinedType)], CoreObject)
  }

  function DoNothing(store: nat, target: nat, m: Method, args: seq<Value>): (nat, Outcome) {
    (store, Returned(Undefined))
  }

  const ENV: Env<nat> := Env(map[SERVICE := 0], OneMethod, DoNothing)

  const PAIR: Pair<nat> := Pair(Site(CALLER, ENV, Server(map[], 0)), Site(SERVICE, ENV, Server(map[], 0)))

  const CALL := Invoked(TARGET, NAME, [], UndefinedType)
  const RELEASE := Requested(REQUEST_RELEASE, WireFields(TARGET))

  /** The caller sends nothing but calls of the one method and releases. */
  predicate CallsAndReleases(log: seq<Sent>) {
    forall r :: 0 <= r < |log| ==> log[r] == CALL || log[r] == RELEASE
  }

  lemma LocalReplies(log: seq<Sent>, n: nat)
    requires CallsAndReleases(log) && n < |log|
    ensures LocalReply(PAIR.b, log, n) ==
            if log[n] == CALL then Returned(Undefined) else Raised(Unhandled(REQUEST_RELEASE))
  {
    if log[n] == CALL {
      WireKeepsId(TARGET);
      var server := LocalRun(PAIR.b, log[..n]);
      var objects := Materialise(ENV, server.objects, TARGET);
      assert TARGET in objects && OneMethod(objects[TARGET]).methods[0].name == NAME;
    }
  }

  // ----- everything fits the header -----

  predicate Small(v: Value) {
    v.String? ==> |v.text| < 100
  }

  lemma {:induction false} SmallFits(vs: seq<Value>)
    requires forall v <- vs :: Small(v)
    ensures |WriteAll(vs)| <= 200 * |vs|
  {
    if vs != [] {
      assert Small(vs[0]) && |Write(vs[0])| <= 200;
      SmallFits(vs[1..]);
    }
  }

  lemma RequestsFit(why: Sent)
    requires why == CALL || why == RELEASE
    ensures why == CALL ==> |InvokePayload(TARGET, NAME, [])| < U32_LIMIT
    ensures why == RELEASE ==> |RequestPayload(REQUEST_RELEASE, WireFields(TARGET))| < U32_LIMIT
  {
    SmallFits([U8(REQUEST_INVOKE)] + (WireFields(TARGET) + [String(NAME)] + []));
    SmallFits([U8(REQUEST_RELEASE)] + WireFields(TARGET));
  }

  lemma RepliesFit(serial: u32, out: Outcome)
    requires out == Returned(Undefined) || out == Raised(Unhandled(REQUEST_RELEASE))
    ensures |ReplyPayload(serial, out)| < U32_LIMIT
  {
    SmallFits([U8(RESPONSE_RESULT), U32(serial)]);
    SmallFits([U8(RESPONSE_EXCEPTION)] +
              [U32(serial), String(Ascii("Exception")), String(Unhandled(REQUEST_RELEASE))]);
  }

  // ----- what such a run is like -----

  /** The caller has sent `log` and registered `calls`; the service has only answered. */
  ghost predicate Holding(s: Sys<nat>, log: seq<Sent>, calls: map<u32, Call>) {
    && s.a.log == log && CallsAndReleases(log) && s.a.calls == calls
    && forall r :: 0 <= r < |s.b.log| ==> s.b.log[r].Answered?
  }

  lemma CallerFits(s: Sys<nat>, log: seq<Sent>, calls: map<u32, Call>)
    requires Inv(PAIR, s) && Holding(s, log, calls)
    ensures Fits(s.a.sent)
  {
    forall r | 0 <= r < |s.a.sent| ensures |s.a.sent[r]| < U32_LIMIT {
      assert SentOk(PAIR.a, s.a, r);
      RequestsFit(log[r]);
    }
  }

  lemma HoldingFits(s: Sys<nat>, log: seq<Sent>, calls: map<u32, Call>)
    requires Inv(PAIR, s) && Holding(s, log, calls)
    ensures FitsAll(s)
  {
    CallerFits(s, log, calls);
    InOrder(s.a, s.b, PAIR.a.id, PAIR.b.id);
    LogIsAsLong(PAIR.b, s.b);
    hide Replay, CallsOk, BirthOk, ReplyPayload, LocalReply;
    forall r | 0 <= r < |s.b.sent| ensures |s.b.sent[r]| < U32_LIMIT {
      AnswerIsLocalReply(PAIR.a, PAIR.b, s.a, s.b, r);
      var n := s.b.log[r].n;
      LocalReplies(log, n);
      RepliesFit(Truncate32(n), LocalReply(PAIR.b, log, n));
    }
  }

  lemma CallerSendsNoAnswer(s: Sys<nat>, s': Sys<nat>, log: seq<Sent>, calls: map<u32, Call>)
    requires Inv(PAIR, s') && Fits(s'.b.sent) && forall r :: 0 <= r < |s'.b.log| ==> s'.b.log[r].Answered?
    requires s'.a.log == log || s'.a.log == log + [Answered(|s.a.got|)]
    ensures s'.a.log == log
  {
    if s'.a.log != log {
      InOrder(s'.b, s'.a, PAIR.b.id, PAIR.a.id);
      AnswersGoToRequests(PAIR.b, PAIR.a, s'.b, s'.a, |log|);
      LogIsAsLong(PAIR.b, s'.b);
      assert false;
    }
  }

  lemma IoKeepsHolding(s: Sys<nat>, s': Sys<nat>, log: seq<Sent>, calls: map<u32, Call>)
    requires Inv(PAIR, s) && Inv(PAIR, s') && Holding(s, log, calls) && IoStepOf(PAIR, s, s')
    ensures Holding(s', log, calls)
  {
    hide Inv, Step, Enabled, Fits, CallsAndReleases;
    HoldingFits(s, log, calls);
    var e: Event :| IsIo(e.action) && Follows(PAIR, s, e, s');
    if e.byA {
      IoOnlyAnswers(PAIR.a.env, s.a, s.b, PAIR.b.id, e.action);
      CallerSendsNoAnswer(s, s', log, calls);
    } else {
      IoOnlyAnswers(PAIR.b.env, s.b, s.a, PAIR.a.id, e.action);
    }
  }

  lemma {:induction false} IoRunKeepsHolding(run: seq<Sys<nat>>, i: nat, j: nat, log: seq<Sent>, calls: map<u32, Call>)
    requires IsRun(PAIR, run) && i <= j < |run| && Holding(run[i], log, calls)
    requires forall k :: i < k <= j ==> IoStepAt(PAIR, run, k)
    ensures Holding(run[j], log, calls) && Inv(PAIR, run[j])
    decreases j
  {
    hide IsRun, Inv, Holding;
    RunInv(PAIR, run, j);
    if i < j {
      IoRunKeepsHolding(run, i, j - 1, log, calls);
      assert IoStepAt(PAIR, run, j);
      IoKeepsHolding(run[j - 1], run[j], log, calls);
    }
  }

  ghost predicate LastHolds(run: seq<Sys<nat>>, log: seq<Sent>, calls: map<u32, Call>) {
    run != [] && IsRun(PAIR, run) && Holding(run[|run| - 1], log, calls)
  }

  /** Input and output to the end. */
  lemma Finish(run: seq<Sys<nat>>, log: seq<Sent>, calls: map<u32, Call>) returns (longer: seq<Sys<nat>>)
    requires LastHolds(run, log, calls)
    ensures LastHolds(longer, log, calls) && run <= longer
    ensures FitsAll(longer[|longer| - 1]) && Quiet(PAIR, longer[|longer| - 1])
  {
    hide IsRun, Inv, Holding, FitsAll, Quiet, IoStepOf;
    longer := EveryRunCanFinish(PAIR, run);
    assert longer[|run| - 1] == run[|run| - 1];
    IoRunKeepsHolding(longer, |run| - 1, |longer| - 1, log, calls);
    HoldingFits(longer[|longer| - 1], log, calls);
  }

  /** One more call. */
  lemma Ask(run: seq<Sys<nat>>, log: seq<Sent>, calls: map<u32, Call>) returns (longer: seq<Sys<nat>>)
    requires LastHolds(run, log, calls)
    ensures run <= longer
    ensures LastHolds(
              longer, log + [CALL], calls[Truncate32(|log|) := Call(|log|, |run[|run| - 1].a.got|)])
  {
    hide IsRun, Inv, CanDo, Do, Holding, IoStepOf;
    var s := run[|run| - 1];
    RunInv(PAIR, run, |run| - 1);
    AskKeepsHolding(s, log, calls);
    ExtendRun(PAIR, run, ASKING);
    longer := run + [Do(PAIR, s, ASKING)];
  }

  const ASKING := Event(true, DoInvoke(TARGET, NAME, [], UndefinedType))

  lemma AskKeepsHolding(s: Sys<nat>, log: seq<Sent>, calls: map<u32, Call>)
    requires Inv(PAIR, s) && Holding(s, log, calls)
    ensures CanDo(PAIR, s, ASKING)
    ensures Holding(
              Do(PAIR, s, ASKING), log + [CALL], calls[Truncate32(|log|) := Call(|log|, |s.a.got|)])
  {
    hide ServerOk, CallsOk, BirthOk, NextSerial, Truncate32, Post, InvokePayload, Unsent, Transit;
    NextSerialIsCount(s.a, s.b, PAIR.a.id, PAIR.b.id);
    LogIsAsLong(PAIR.a, s.a);
  }

  function Releases(k: nat): (log: seq<Sent>)
    ensures |log| == k && forall r :: 0 <= r < k ==> log[r] == RELEASE
  {
    if k == 0 then [] else Releases(k - 1) + [RELEASE]
  }

  lemma ReleaseOnce(run: seq<Sys<nat>>, log: seq<Sent>, calls: map<u32, Call>) returns (longer: seq<Sys<nat>>)
    requires LastHolds(run, log, calls)
    ensures run <= longer && LastHolds(longer, log + [RELEASE], calls)
    ensures longer[|longer| - 1].a.got == run[|run| - 1].a.got
  {
    var s, e := run[|run| - 1], Event(true, DoRequest(REQUEST_RELEASE, WireFields(TARGET)));
    hide IsRun;
    ExtendRun(PAIR, run, e);
    longer := run + [Do(PAIR, s, e)];
  }

  /** Any number of releases, with no input or output between them. */
  lemma {:induction false} ReleaseMany(run: seq<Sys<nat>>, log: seq<Sent>, calls: map<u32, Call>, k: nat)
    returns (longer: seq<Sys<nat>>)
    requires LastHolds(run, log, calls)
    ensures run <= longer && LastHolds(longer, log + Releases(k), calls)
    ensures longer[|longer| - 1].a.got == run[|run| - 1].a.got
    decreases k
  {
    hide LastHolds;
    if k == 0 {
      longer := run;
      assert log + [] == log;
    } else {
      var before := ReleaseMany(run, log, calls, k - 1);
      longer := ReleaseOnce(before, log + Releases(k - 1), calls);
      assert log + Releases(k - 1) + [RELEASE] == log + Releases(k);
    }
  }

  // ----- two requests under serial 0 -----

  /** Of 2^32 + 1 requests, the first and the last have serial 0. */
  lemma TwoUnderZero(log: seq<Sent>)
    requires CallsAndReleases(log) && |log| == U32_LIMIT + 1
    ensures RequestsUnder(log, 0) == [0, U32_LIMIT]
    ensures RequestsUnder(log[..0], 0) == [] && |RequestsUnder(log[..U32_LIMIT], 0)| == 1
  {
    var front := log[..U32_LIMIT];
    assert front[..0] == [] && log[..0] == [];
    RequestPlace(front, 0, 0);
    RequestsListed(front, 0);
    RequestsStep(log, U32_LIMIT, 0);
    assert log[..U32_LIMIT + 1] == log;
    hide RequestsUnder;
    var ps := RequestsUnder(front, 0);
    if |ps| > 1 {
      SameSerialApart(ps[0], ps[1]);
    }
  }

  lemma CombinedTwo<S>(site: Site<S>, log: seq<Sent>, m: nat, n: nat, ty: Codec.Type)
    requires m < |log| && !log[m].Answered? && n < |log| && !log[n].Answered?
    ensures Places(log, [m, n])
    ensures Combined(site, log, [m, n], ty) ==
            Overlay(Seen(LocalReply(site, log, m), ty), Seen(LocalReply(site, log, n), ty))
  {
    CombinedOne(site, log, m, ty);
    assert [m] + [n] == [m, n];
    CombinedSnoc(site, log, [m], n, ty);
  }

  /** The entry of the call at place `index` shows a release's exception instead of the call's own result. */
  ghost predicate ShowsRelease(a: Node<nat>, index: nat) {
    && Registered(a, SERVICE, 0) && a.calls[0].index == index
    && WaitNow(a, SERVICE, 0) == Rethrown(Unhandled(REQUEST_RELEASE))
    && LocalOutcome(PAIR.b, a.log, index) == GotValue(Undefined)
  }

  /** With both requests answered, waiting shows the release's exception. */
  lemma ReleaseShown(a: Node<nat>, b: Node<nat>, index: nat)
    requires CallsAndReleases(a.log) && |a.log| == U32_LIMIT + 1
    requires index in {0, U32_LIMIT} && a.log[index] == CALL && a.log[U32_LIMIT - index] == RELEASE
    requires Registered(a, SERVICE, 0) && a.calls[0] == Call(index, 0) && CallFinished(PAIR.b, a, b, 0)
    ensures ShowsRelease(a, index) && HeardBefore(a, 0) == 0 && SentBefore(a, 0) == if index == 0 then 0 else 1
  {
    hide RequestsUnder, LocalReply, Unhandled, Collect, Live, Undisturbed, AnswerHeard, CallsAndReleases;
    TwoUnderZero(a.log);
    LocalReplies(a.log, 0);
    LocalReplies(a.log, U32_LIMIT);
    CombinedTwo(PAIR.b, a.log, 0, U32_LIMIT, UndefinedType);
    assert a.got[..0] == [] && [0, U32_LIMIT][0..] == [0, U32_LIMIT];
  }

  lemma ReleaseShows(run: seq<Sys<nat>>, log: seq<Sent>, calls: map<u32, Call>, index: nat)
    requires LastHolds(run, log, calls)
    requires FitsAll(run[|run| - 1]) && Quiet(PAIR, run[|run| - 1])
    requires |log| == U32_LIMIT + 1 && index in {0, U32_LIMIT}
    requires log[index] == CALL && log[U32_LIMIT - index] == RELEASE
    requires 0 in calls && calls[0] == Call(index, 0)
    ensures var a := run[|run| - 1].a;
            ShowsRelease(a, index) && HeardBefore(a, 0) == 0 && SentBefore(a, 0) == if index == 0 then 0 else 1
  {
    hide IsRun, Quiet, FitsAll, CallFinished, Registered, SentBefore, HeardBefore;
    QuietMeansAllCallsFinished(PAIR, run, |run| - 1);
    ReleaseShown(run[|run| - 1].a, run[|run| - 1].b, index);
  }

  // ----- the two runs -----

  /**
   * A call that was alone when it was sent and had its result: 2^32 frames later its serial comes round, and the
   * reply to a release sent there takes the result's place.
   */
  lemma FinishedCallIsOverwritten() returns (run: seq<Sys<nat>>, i: nat)
    ensures IsRun(PAIR, run) && i < |run| && FitsAll(run[|run| - 1])
    ensures Registered(run[i].a, SERVICE, 0) && WaitNow(run[i].a, SERVICE, 0) == GotValue(Undefined)
    ensures ShowsRelease(run[|run| - 1].a, 0) && run[|run| - 1].a.calls == run[i].a.calls
    ensures HeardBefore(run[|run| - 1].a, 0) == SentBefore(run[|run| - 1].a, 0)
  {
    var asked := Ask([Start(PAIR)], [], map[]);
    var calls: map<u32, Call> := map[][0 := Call(0, 0)];
    assert [] + [CALL] == [CALL];
    var first := Finish(asked, [CALL], calls);
    i := |first| - 1;
    FirstCallDone(first, calls);
    var lapped := ReleaseMany(first, [CALL], calls, U32_LIMIT);
    run := Finish(lapped, [CALL] + Releases(U32_LIMIT), calls);
    ReleaseShows(run, [CALL] + Releases(U32_LIMIT), calls, 0);
    assert run[i] == first[i];
  }

  lemma FirstCallDone(run: seq<Sys<nat>>, calls: map<u32, Call>)
    requires LastHolds(run, [CALL], calls) && FitsAll(run[|run| - 1]) && Quiet(PAIR, run[|run| - 1])
    requires 0 in calls && calls[0] == Call(0, 0)
    ensures var a := run[|run| - 1].a;
            Registered(a, SERVICE, 0) && WaitNow(a, SERVICE, 0) == GotValue(Undefined)
  {
    hide IsRun, Quiet, FitsAll, CallFinished, Registered, WaitNow, Inv, AllLive;
    QuietMeansAllCallsFinished(PAIR, run, |run| - 1);
    EarlyCallsAreLive(PAIR, run, |run| - 1);
    RunInv(PAIR, run, |run| - 1);
    FirstCallShown(run[|run| - 1]);
  }

  lemma FirstCallShown(s: Sys<nat>)
    requires Inv(PAIR, s) && s.a.log == [CALL] && 0 in s.a.calls && s.a.calls[0].index == 0
    requires |s.a.sent| <= U32_LIMIT ==> AllLive(s.a, SERVICE)
    requires Registered(s.a, SERVICE, 0) && CallFinished(PAIR.b, s.a, s.b, 0)
    ensures WaitNow(s.a, SERVICE, 0) == GotValue(Undefined)
  {
    hide ChannelOk, CallsOk, BirthOk, LocalReply, Collect, Live, Undisturbed, AnswerHeard, RequestsUnder, Combined;
    LogIsAsLong(PAIR.a, s.a);
    LocalReplies([CALL], 0);
  }

  /**
   * A call sent while a release under its serial still waits for its reply: no frame is sent behind the call, and yet
   * the exception for the release arrives first and stays.
   */
  lemma OlderReplyStays() returns (run: seq<Sys<nat>>)
    ensures IsRun(PAIR, run) && FitsAll(run[|run| - 1])
    ensures ShowsRelease(run[|run| - 1].a, U32_LIMIT) && |run[|run| - 1].a.log| == U32_LIMIT + 1
  {
    var released := ReleaseMany([Start(PAIR)], [], map[], U32_LIMIT);
    assert [] + Releases(U32_LIMIT) == Releases(U32_LIMIT);
    var asked := Ask(released, Releases(U32_LIMIT), map[]);
    var calls: map<u32, Call> := map[][0 := Call(U32_LIMIT, 0)];
    run := Finish(asked, Releases(U32_LIMIT) + [CALL], calls);
    ReleaseShows(run, Releases(U32_LIMIT) + [CALL], calls, U32_LIMIT);
  }
}
