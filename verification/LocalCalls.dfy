/** The same calls made locally, and what a sequence of replies makes of a waiting parser. */
module LocalCalls {
  import opened Bytes
  import opened Codec
  import opened Stub
  import opened Protocol
  import opened System
  import opened Calls
  import opened Serials

  /** The calls of a log made locally, one after the other. */
  function LocalRun<S>(site: Site<S>, log: seq<Sent>): Server<S>
    decreases |log|
  {
    if log == [] then site.start
    else
      LocalStep(site, LocalRun(site, log[..|log| - 1]), log[|log| - 1])
  }

  /** Serving a frame moves the server as the local call it stands for. */
  lemma ServeOneSent<S>(site: Site<S>, server: Server<S>, serial: u32, callerSite: Site<S>, caller: Node<S>, r: nat)
    requires r < |caller.log| && r < |caller.sent| && SentOk(callerSite, caller, r)
    ensures Serve(site.env, server, serial, caller.sent[r]).0 == LocalStep(site, server, caller.log[r])
  {
    match caller.log[r]
    case Invoked(target, name, args, _) =>
      ServeAnswersLocalCall(site.env, server, serial, target, name, args);
    case Requested(kind, fields) =>
      RequestHead(kind, fields);
    case Answered(_) =>
      AnswersAreResponses(callerSite, caller, r);
      OneReplyPerRequest(site.env, server, serial, caller.sent[r]);
  }

  function LocalStep<S>(site: Site<S>, server: Server<S>, sent: Sent): Server<S> {
    match sent
    case Invoked(target, name, args, _) => LocalCall(site.env, server, target, name, args).0
    case _ => server
  }

  lemma LocalRunSnoc<S>(site: Site<S>, log: seq<Sent>, sent: Sent)
    ensures LocalRun(site, log + [sent]) == LocalStep(site, LocalRun(site, log), sent)
  {
    assert (log + [sent])[..|log|] == log;
  }

  lemma ReplaySnoc<S>(site: Site<S>, callerSite: Site<S>, caller: Node<S>, k: nat)
    requires k < |caller.sent| && k < |caller.log| && SentOk(callerSite, caller, k)
    ensures Replay(site, caller.sent[..k + 1]) == LocalStep(site, Replay(site, caller.sent[..k]), caller.log[k])
  {
    hide Serve, LocalCall, SentOk;
    var frames := caller.sent[..k];
    assert caller.sent[..k + 1] == frames + [caller.sent[k]];
    SameAnswers(site, frames, caller.sent[k]);
    ServeOneSent(site, Replay(site, frames), Truncate32(k), callerSite, caller, k);
  }

  /** The server replay of the bytes is the local run of the calls. */
  lemma {:induction false} ReplayIsLocalRun<S>(site: Site<S>, callerSite: Site<S>, caller: Node<S>, k: nat)
    requires k <= |caller.sent| == |caller.log|
    requires forall r :: 0 <= r < |caller.log| ==> SentOk(callerSite, caller, r)
    ensures Replay(site, caller.sent[..k]) == LocalRun(site, caller.log[..k])
    decreases k
  {
    hide Serve, LocalStep, SentOk;
    if k > 0 {
      ReplayIsLocalRun(site, callerSite, caller, k - 1);
      ReplaySnoc(site, callerSite, caller, k - 1);
      assert caller.log[..k] == caller.log[..k - 1] + [caller.log[k - 1]];
      LocalRunSnoc(site, caller.log[..k - 1], caller.log[k - 1]);
    }
  }

  /** What the request at place `n` comes to locally, at the peer, after all the calls before it were made locally. */
  function LocalReply<S>(site: Site<S>, log: seq<Sent>, n: nat): Outcome
    requires n < |log| && !log[n].Answered?
  {
    match log[n]
    case Invoked(target, name, args, _) => LocalCall(site.env, LocalRun(site, log[..n]), target, name, args).1
    case Requested(kind, _) => Raised(Unhandled(kind))
  }

  /** The answer to a request carries its local reply under its serial. */
  lemma AnswerIsLocalReply<S>(site: Site<S>, peerSite: Site<S>, me: Node<S>, peer: Node<S>, r: nat)
    requires ServerOk(site, me) && ServerOk(peerSite, peer)
    requires |peer.got| <= |me.sent| && peer.got == me.sent[..|peer.got|]
    requires r < |peer.log| && peer.log[r].Answered?
    ensures var n := peer.log[r].n;
            && n < |me.log| && !me.log[n].Answered?
            && peer.sent[r] == ReplyPayload(Truncate32(n), LocalReply(peerSite, me.log, n))
  {
    AnswersGoToRequests(site, peerSite, me, peer, r);
    var n := peer.log[r].n;
    assert SentOk(peerSite, peer, r) && SentOk(site, me, n);
    assert peer.got[..n] == me.sent[..n] && peer.got[n] == me.sent[n];
    ReplayIsLocalRun(peerSite, site, me, n);
    var server := LocalRun(peerSite, me.log[..n]);
    match me.log[n]
    case Invoked(target, name, args, _) =>
      ServeAnswersLocalCall(peerSite.env, server, Truncate32(n), target, name, args);
    case Requested(kind, fields) =>
      RequestHead(kind, fields);
  }

  // ----- several replies to one parser -----

  /** What a second outcome does to what a waiter saw before: an exception stays until a later one replaces it. */
  function Overlay(before: WaitResult, now: WaitResult): WaitResult {
    if now.Rethrown? then now else if before.Rethrown? then before else now
  }

  ghost predicate Places(log: seq<Sent>, places: seq<nat>) {
    forall j :: 0 <= j < |places| ==> places[j] < |log| && !log[places[j]].Answered?
  }

  /** What a waiter sees after the local replies to the given requests arrived in this order. */
  ghost function Combined<S>(site: Site<S>, log: seq<Sent>, places: seq<nat>, ty: Type): WaitResult
    requires Places(log, places)
    decreases |places|
  {
    if places == [] then Pending
    else
      var k := |places| - 1;
      Overlay(Combined(site, log, places[..k], ty), Seen(LocalReply(site, log, places[k]), ty))
  }

  lemma CombinedOne<S>(site: Site<S>, log: seq<Sent>, n: nat, ty: Type)
    requires n < |log| && !log[n].Answered?
    ensures Combined(site, log, [n], ty) == Seen(LocalReply(site, log, n), ty)
  {
    assert [n][..0] == [];
  }

  /** An exception is only ever set together with the finished mark. */
  predicate Settled(p: Parser) {
    p.exception.Some? ==> p.finished
  }

  /** One more reply on a parser overlays what its waiter sees. */
  lemma ReplyOverlays(p: Parser, serial: u32, out: Outcome)
    requires Settled(p)
    ensures var q := Completed(p, ReplyPayload(serial, out));
            q.ty == p.ty && q.finished && Collect(q, p.ty) == Overlay(Collect(p, p.ty), Seen(out, p.ty))
  {
    match out
    case Returned(v) => ResultCompletes(p, serial, v);
    case Raised(what) => ExceptionCompletes(p, serial, what);
  }

  /** The frame at place `k` of what was heard quotes `s` exactly when it answers the next request under `s`. */
  lemma NextQuote<S>(site: Site<S>, peerSite: Site<S>, me: Node<S>, peer: Node<S>, k: nat, s: u32)
    requires ServerOk(site, me) && ServerOk(peerSite, peer)
    requires |peer.got| <= |me.sent| && peer.got == me.sent[..|peer.got|]
    requires |me.got| <= |peer.sent| && me.got == peer.sent[..|me.got|] && k < |me.got|
    ensures |peer.log| == |peer.sent|
    ensures var ps, h := RequestsUnder(me.log, s), HeardUnder(me.got[..k], s);
            && HeardUnder(me.got[..k + 1], s) == h + (if Quotes(me.got[k], s) then 1 else 0)
            && HeardUnder(me.got[..k + 1], s) <= |ps|
            && (Quotes(me.got[k], s) ==> peer.log[k] == Answered(ps[h]))
  {
    LogIsAsLong(peerSite, peer);
    HeardAnswerFirstRequests(site, peerSite, me, peer, k, s);
    HeardAnswerFirstRequests(site, peerSite, me, peer, k + 1, s);
    HeardStep(me.got, k, s);
    AnsweredStep(peer.log, k, s);
    QuotesAnswer(peerSite, peer, k, s);
    hide ServerOk, SentOk, AnsweredUnder, RequestsUnder, HeardUnder, Quotes;
    if Quotes(me.got[k], s) {
      var ps, h := RequestsUnder(me.log, s), HeardUnder(me.got[..k], s);
      assert ps[..h + 1][h] == ps[h];
    }
  }

  /** A sent frame quotes a serial exactly when it answers a frame with that serial. */
  lemma QuotesAnswer<S>(site: Site<S>, me: Node<S>, r: nat, s: u32)
    requires ServerOk(site, me) && r < |me.log|
    ensures Quotes(me.sent[r], s) <==> me.log[r].Answered? && Truncate32(me.log[r].n) == s
  {
    hide Replay, Serve, IsResponse, Quoted;
    assert SentOk(site, me, r);
    AnswersAreResponses(site, me, r);
  }

  /** What the entry of a call shows: the local replies to the requests whose answers it took, and nothing else. */
  ghost predicate Shows<S>(peerSite: Site<S>, me: Node<S>, since: nat, k: nat, s: u32, ty: Type)
    requires since <= k <= |me.got|
  {
    var ps, h0, h := RequestsUnder(me.log, s), HeardUnder(me.got[..since], s), HeardUnder(me.got[..k], s);
    var p := Folded(Fresh(ty), me.got[since..k], s);
    && h0 <= h <= |ps| && Places(me.log, ps[h0..h])
    && p.ty == ty && Settled(p) && (p.finished <==> h0 < h)
    && Collect(p, ty) == Combined(peerSite, me.log, ps[h0..h], ty)
  }

  lemma ShowsNothing<S>(peerSite: Site<S>, me: Node<S>, since: nat, s: u32, ty: Type)
    requires since <= |me.got| && HeardUnder(me.got[..since], s) <= |RequestsUnder(me.log, s)|
    ensures Shows(peerSite, me, since, since, s, ty)
  {
    var ps, h := RequestsUnder(me.log, s), HeardUnder(me.got[..since], s);
    hide RequestsUnder, HeardUnder;
    assert me.got[since..since] == [] && ps[h..h] == [];
    FoldedNone(Fresh(ty), s);
    CombinedNone(peerSite, me.log, ty);
  }

  lemma OneMoreReply<S>(peerSite: Site<S>, me: Node<S>, since: nat, k: nat, s: u32, ty: Type, n: nat)
    requires since < k <= |me.got| && Shows(peerSite, me, since, k - 1, s, ty)
    requires var ps, h := RequestsUnder(me.log, s), HeardUnder(me.got[..k - 1], s);
             HeardUnder(me.got[..k], s) == h + 1 <= |ps| && ps[h] == n
    requires n < |me.log| && !me.log[n].Answered? && Quotes(me.got[k - 1], s)
    requires me.got[k - 1] == ReplyPayload(Truncate32(n), LocalReply(peerSite, me.log, n))
    ensures Shows(peerSite, me, since, k, s, ty)
  {
    hide Quotes, Completed, ReplyPayload, LocalReply, RequestsUnder, HeardUnder, Folded, Combined, Collect, Fresh,
      Overlay, Seen, Truncate32;
    var ps, h0, h := RequestsUnder(me.log, s), HeardUnder(me.got[..since], s), HeardUnder(me.got[..k - 1], s);
    FreshIsOf(ty);
    QuotedFrame(Fresh(ty), me.got, since, k, s);
    OneLonger(ps, h0, h);
    ReplyOverlays(Folded(Fresh(ty), me.got[since..k - 1], s), Truncate32(n), LocalReply(peerSite, me.log, n));
    CombinedSnoc(peerSite, me.log, ps[h0..h], n, ty);
    assert Settled(Completed(Folded(Fresh(ty), me.got[since..k - 1], s), me.got[k - 1]));
  }

  lemma FreshIsOf(ty: Type)
    ensures Fresh(ty).ty == ty
  {
  }

  lemma OneLonger(ps: seq<nat>, i: nat, j: nat)
    requires i <= j < |ps|
    ensures ps[i..j + 1] == ps[i..j] + [ps[j]]
  {
  }

  lemma QuotedFrame(p: Parser, got: seq<seq<byte>>, since: nat, k: nat, s: u32)
    requires since < k <= |got| && Quotes(got[k - 1], s)
    ensures Folded(p, got[since..k], s) == Completed(Folded(p, got[since..k - 1], s), got[k - 1])
  {
    hide Quotes, Folded, Completed;
    assert got[since..k] == got[since..k - 1] + [got[k - 1]];
    FoldedSnoc(p, got[since..k - 1], got[k - 1], s);
  }

  lemma NothingNew<S>(peerSite: Site<S>, me: Node<S>, since: nat, k: nat, s: u32, ty: Type)
    requires since < k <= |me.got| && Shows(peerSite, me, since, k - 1, s, ty)
    requires !Quotes(me.got[k - 1], s)
    ensures Shows(peerSite, me, since, k, s, ty)
  {
    SkippedFrame(Fresh(ty), me.got, since, k, s);
    hide HeardUnder, RequestsUnder, Quotes, Collect, Combined, Folded, Completed, Settled, Places, Fresh;
  }

  lemma SkippedFrame(p: Parser, got: seq<seq<byte>>, since: nat, k: nat, s: u32)
    requires since < k <= |got| && !Quotes(got[k - 1], s)
    ensures HeardUnder(got[..k], s) == HeardUnder(got[..k - 1], s)
    ensures Folded(p, got[since..k], s) == Folded(p, got[since..k - 1], s)
  {
    HeardStep(got, k - 1, s);
    hide HeardUnder, Quotes, Folded, Completed;
    assert got[since..k] == got[since..k - 1] + [got[k - 1]];
    FoldedSnoc(p, got[since..k - 1], got[k - 1], s);
  }

  /** A parser folded over what was heard shows the local replies to the requests answered in between. */
  lemma {:induction false} FoldShowsReplies<S>(
      site: Site<S>, peerSite: Site<S>, me: Node<S>, peer: Node<S>, since: nat, k: nat, s: u32, ty: Type)
    requires ServerOk(site, me) && ServerOk(peerSite, peer)
    requires |peer.got| <= |me.sent| && peer.got == me.sent[..|peer.got|]
    requires |me.got| <= |peer.sent| && me.got == peer.sent[..|me.got|]
    requires since <= k <= |me.got|
    ensures Shows(peerSite, me, since, k, s, ty)
    decreases k
  {
    hide ServerOk, RequestsUnder, HeardUnder, Quotes, LocalReply, Shows;
    LogIsAsLong(peerSite, peer);
    if k == since {
      HeardAnswerFirstRequests(site, peerSite, me, peer, since, s);
      ShowsNothing(peerSite, me, since, s, ty);
    } else {
      FoldShowsReplies(site, peerSite, me, peer, since, k - 1, s, ty);
      if Quotes(me.got[k - 1], s) {
        NextQuote(site, peerSite, me, peer, k - 1, s);
        AnswerIsLocalReply(site, peerSite, me, peer, k - 1);
        OneMoreReply(peerSite, me, since, k, s, ty, peer.log[k - 1].n);
      } else {
        NothingNew(peerSite, me, since, k, s, ty);
      }
    }
  }

  lemma CombinedNone<S>(site: Site<S>, log: seq<Sent>, ty: Type)
    ensures Combined(site, log, [], ty) == Pending
  {
  }

  lemma CombinedSnoc<S>(site: Site<S>, log: seq<Sent>, places: seq<nat>, n: nat, ty: Type)
    requires Places(log, places) && n < |log| && !log[n].Answered?
    ensures Places(log, places + [n])
    ensures Combined(site, log, places + [n], ty) ==
            Overlay(Combined(site, log, places, ty), Seen(LocalReply(site, log, n), ty))
  {
    assert (places + [n])[..|places|] == places;
  }

  /** Place `j` of the stretch holds the last exception, or the last reply if none of them is an exception. */
  ghost predicate Standing<S>(site: Site<S>, log: seq<Sent>, places: seq<nat>, ty: Type, j: nat)
    requires Places(log, places)
  {
    && j < |places|
    && (forall k :: j < k < |places| ==> !Seen(LocalReply(site, log, places[k]), ty).Rethrown?)
    && (Seen(LocalReply(site, log, places[j]), ty).Rethrown? ||
        (j == |places| - 1 && forall k :: 0 <= k < j ==> !Seen(LocalReply(site, log, places[k]), ty).Rethrown?))
  }

  /** Of several replies the last exception stands, and without one the last reply. */
  lemma {:induction false} LastExceptionStands<S>(site: Site<S>, log: seq<Sent>, places: seq<nat>, ty: Type, j: nat)
    requires Places(log, places) && Standing(site, log, places, ty, j)
    ensures Combined(site, log, places, ty) == Seen(LocalReply(site, log, places[j]), ty)
    decreases |places|
  {
    hide LocalReply;
    var k := |places| - 1;
    var front := places[..k];
    if j < k {
      LastExceptionStands(site, log, front, ty, j);
    } else if k > 0 && !Seen(LocalReply(site, log, places[k]), ty).Rethrown? {
      LastExceptionStands(site, log, front, ty, k - 1);
    }
  }

  /** The reply to a request depends on nothing sent behind it. */
  lemma ReplyIgnoresLater<S>(site: Site<S>, log: seq<Sent>, longer: seq<Sent>, n: nat)
    requires log <= longer && n < |log| && !log[n].Answered?
    ensures LocalReply(site, longer, n) == LocalReply(site, log, n)
  {
    assert longer[..n] == log[..n] && longer[n] == log[n];
  }

  lemma {:induction false} CombinedIgnoresLater<S>(
      site: Site<S>, log: seq<Sent>, longer: seq<Sent>, places: seq<nat>, ty: Type)
    requires log <= longer && Places(log, places)
    ensures Places(longer, places) && Combined(site, longer, places, ty) == Combined(site, log, places, ty)
    decreases |places|
  {
    hide LocalReply;
    if places != [] {
      var k := |places| - 1;
      CombinedIgnoresLater(site, log, longer, places[..k], ty);
      ReplyIgnoresLater(site, log, longer, places[k]);
    }
  }
}
