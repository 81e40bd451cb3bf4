/** Under one serial, answers come back to requests in the order of the requests, without a gap. */
module Serials {
  import opened Bytes
  import opened Identity
  import opened Protocol
  import opened System
  import opened Calls

  /** The requests that the answers of a log with serial `s` answer, in the order of the answers. */
  function AnsweredUnder(log: seq<Sent>, s: u32): seq<nat>
    decreases |log|
  {
    if log == [] then []
    else
      var k := |log| - 1;
      AnsweredUnder(log[..k], s) + if log[k].Answered? && Truncate32(log[k].n) == s then [log[k].n] else []
  }

  /** One past the last request answered. */
  function Frontier(log: seq<Sent>): nat
    decreases |log|
  {
    if log == [] then 0
    else
      var k := |log| - 1;
      if log[k].Answered? then log[k].n + 1 else Frontier(log[..k])
  }

  /** Answers go to requests, in their order, and skip none. */
  ghost predicate InStep(requests: seq<Sent>, answers: seq<Sent>) {
    && (forall r :: 0 <= r < |answers| && answers[r].Answered? ==>
          answers[r].n < |requests| && !requests[answers[r].n].Answered?)
    && (forall i, j :: 0 <= i < j < |answers| && answers[i].Answered? && answers[j].Answered? ==>
          answers[i].n < answers[j].n)
    && (forall r, m :: 0 <= r < |answers| && answers[r].Answered? && 0 <= m < answers[r].n && !requests[m].Answered? ==>
          HasAnswer(answers[..r], m))
  }

  lemma {:induction false} FrontierCovers(log: seq<Sent>)
    requires forall i, j :: 0 <= i < j < |log| && log[i].Answered? && log[j].Answered? ==> log[i].n < log[j].n
    ensures forall r :: 0 <= r < |log| && log[r].Answered? ==> log[r].n < Frontier(log)
    ensures Frontier(log) > 0 ==> HasAnswer(log, Frontier(log) - 1)
    decreases |log|
  {
    if log != [] {
      var k := |log| - 1;
      FrontierCovers(log[..k]);
      if log[k].Answered? {
        assert log[k] == Answered(Frontier(log) - 1);
      } else if Frontier(log) > 0 {
        var r :| 0 <= r < k && log[..k][r] == Answered(Frontier(log) - 1);
        assert log[r] == Answered(Frontier(log) - 1);
      }
    }
  }

  lemma {:induction false} NoRequestsBetween(log: seq<Sent>, p: nat, q: nat, s: u32)
    requires p <= q <= |log| && forall m :: p <= m < q ==> log[m].Answered?
    ensures RequestsUnder(log[..q], s) == RequestsUnder(log[..p], s)
    decreases q
  {
    if p < q {
      assert log[..q][..q - 1] == log[..q - 1];
      NoRequestsBetween(log, p, q - 1, s);
    }
  }

  lemma RequestsStep(log: seq<Sent>, n: nat, s: u32)
    requires n < |log|
    ensures RequestsUnder(log[..n + 1], s) ==
            RequestsUnder(log[..n], s) + if !log[n].Answered? && Truncate32(n) == s then [n] else []
  {
    assert log[..n + 1][..n] == log[..n];
  }

  lemma AnsweredStep(log: seq<Sent>, k: nat, s: u32)
    requires k < |log|
    ensures AnsweredUnder(log[..k + 1], s) ==
            AnsweredUnder(log[..k], s) + if log[k].Answered? && Truncate32(log[k].n) == s then [log[k].n] else []
    ensures Frontier(log[..k + 1]) == if log[k].Answered? then log[k].n + 1 else Frontier(log[..k])
  {
    assert log[..k + 1][..k] == log[..k];
  }

  /** Nothing between the frontier and the next answered request is a request. */
  lemma NothingSkipped(requests: seq<Sent>, answers: seq<Sent>, k: nat)
    requires InStep(requests, answers) && k < |answers| && answers[k].Answered?
    ensures Frontier(answers[..k]) <= answers[k].n
    ensures forall m :: Frontier(answers[..k]) <= m < answers[k].n ==> requests[m].Answered?
  {
    var front := answers[..k];
    FrontierCovers(front);
    if Frontier(front) > 0 {
      var r :| 0 <= r < |front| && front[r] == Answered(Frontier(front) - 1);
      assert answers[r].n < answers[k].n;
    }
    assert forall m: nat :: HasAnswer(front, m) ==> m < Frontier(front);
  }

  lemma AnswerIsBelow(requests: seq<Sent>, answers: seq<Sent>, k: nat)
    requires InStep(requests, answers) && k < |answers| && answers[k].Answered?
    ensures answers[k].n < |requests| && !requests[answers[k].n].Answered?
  {
  }

  /** The requests answered so far under a serial are all its requests below the frontier. */
  lemma {:induction false} AnsweredAreFirstRequests(requests: seq<Sent>, answers: seq<Sent>, k: nat, s: u32)
    requires InStep(requests, answers) && k <= |answers|
    ensures Frontier(answers[..k]) <= |requests|
    ensures AnsweredUnder(answers[..k], s) == RequestsUnder(requests[..Frontier(answers[..k])], s)
    decreases k
  {
    hide InStep, HasAnswer;
    if k > 0 {
      AnsweredAreFirstRequests(requests, answers, k - 1, s);
      AnsweredStep(answers, k - 1, s);
      if answers[k - 1].Answered? {
        hide AnsweredUnder, RequestsUnder, Frontier;
        var n := answers[k - 1].n;
        NothingSkipped(requests, answers, k - 1);
        AnswerIsBelow(requests, answers, k - 1);
        NoRequestsBetween(requests, Frontier(answers[..k - 1]), n, s);
        RequestsStep(requests, n, s);
      }
    }
  }

  lemma {:induction false} RequestsGrow(log: seq<Sent>, p: nat, q: nat, s: u32)
    requires p <= q <= |log|
    ensures RequestsUnder(log[..p], s) <= RequestsUnder(log[..q], s)
    decreases q
  {
    if p < q {
      RequestsGrow(log, p, q - 1, s);
      RequestsStep(log, q - 1, s);
    }
  }

  /** What `RequestsUnder` lists: requests with the serial, in order, and all of them. */
  lemma {:induction false} RequestsListed(log: seq<Sent>, s: u32)
    ensures var ps := RequestsUnder(log, s);
            && (forall j :: 0 <= j < |ps| ==> ps[j] < |log| && !log[ps[j]].Answered? && Truncate32(ps[j]) == s)
            && (forall i, j :: 0 <= i < j < |ps| ==> ps[i] < ps[j])
            && (forall n :: 0 <= n < |log| && !log[n].Answered? && Truncate32(n) == s ==> n in ps)
    decreases |log|
  {
    if log != [] {
      RequestsListed(log[..|log| - 1], s);
    }
  }

  /** A request stands in the list behind exactly the requests sent before it under the serial. */
  lemma RequestPlace(log: seq<Sent>, n: nat, s: u32)
    requires n < |log| && !log[n].Answered? && Truncate32(n) == s
    ensures var ps, before := RequestsUnder(log, s), RequestsUnder(log[..n], s);
            && |before| < |ps| && ps[|before|] == n && before == ps[..|before|]
  {
    RequestsStep(log, n, s);
    RequestsGrow(log, n + 1, |log|, s);
    assert log[..|log|] == log;
  }

  // ----- two nodes in step -----

  /** The logs of two sides are in step once what the peer dispatched is what was sent. */
  lemma NodesInStep<S>(site: Site<S>, peerSite: Site<S>, me: Node<S>, peer: Node<S>)
    requires ServerOk(site, me) && ServerOk(peerSite, peer)
    requires |peer.got| <= |me.sent| && peer.got == me.sent[..|peer.got|]
    ensures InStep(me.log, peer.log)
  {
    hide Replay, Serve;
    forall r | 0 <= r < |peer.log| && peer.log[r].Answered?
      ensures peer.log[r].n < |me.log| && !me.log[peer.log[r].n].Answered?
    {
      AnswersGoToRequests(site, peerSite, me, peer, r);
    }
    forall r, m | 0 <= r < |peer.log| && peer.log[r].Answered? && 0 <= m < peer.log[r].n && !me.log[m].Answered?
      ensures HasAnswer(peer.log[..r], m)
    {
      assert SentOk(peerSite, peer, r);
      RequestIsAnswered(site, peerSite, me, peer, m);
      var i :| 0 <= i < |peer.log| && peer.log[i] == Answered(m);
      assert i < r;
      assert peer.log[..r][i] == Answered(m);
    }
  }

  lemma AnswersGoToRequests<S>(site: Site<S>, peerSite: Site<S>, me: Node<S>, peer: Node<S>, r: nat)
    requires ServerOk(site, me) && ServerOk(peerSite, peer)
    requires |peer.got| <= |me.sent| && peer.got == me.sent[..|peer.got|]
    requires r < |peer.log| && peer.log[r].Answered?
    ensures peer.log[r].n < |peer.got| && !me.log[peer.log[r].n].Answered?
  {
    assert SentOk(peerSite, peer, r);
    var n := peer.log[r].n;
    assert SentOk(site, me, n);
    AnswersAreResponses(site, me, n);
    OneReplyPerRequest(peerSite.env, Replay(peerSite, peer.got[..n]), Truncate32(n), peer.got[n]);
  }

  /** A dispatched request has its answer queued. */
  lemma RequestIsAnswered<S>(site: Site<S>, peerSite: Site<S>, me: Node<S>, peer: Node<S>, n: nat)
    requires ServerOk(site, me) && ServerOk(peerSite, peer)
    requires |peer.got| <= |me.sent| && peer.got == me.sent[..|peer.got|]
    requires n < |peer.got| && !me.log[n].Answered?
    ensures HasAnswer(peer.log, n)
  {
    assert SentOk(site, me, n);
    AnswersAreResponses(site, me, n);
    OneReplyPerRequest(peerSite.env, Replay(peerSite, peer.got[..n]), Truncate32(n), peer.got[n]);
    assert AnswerTo(peerSite, peer.got, n).Some?;
  }

  /** Counting the responses heard under a serial counts the peer's answers with that serial. */
  lemma {:induction false} HeardAreAnswers<S>(peerSite: Site<S>, me: Node<S>, peer: Node<S>, k: nat, s: u32)
    requires ServerOk(peerSite, peer) && |me.got| <= |peer.sent| && me.got == peer.sent[..|me.got|]
    requires k <= |me.got|
    ensures HeardUnder(me.got[..k], s) == |AnsweredUnder(peer.log[..k], s)|
    decreases k
  {
    hide Replay, Serve, Quoted, IsResponse;
    if k > 0 {
      HeardAreAnswers(peerSite, me, peer, k - 1, s);
      AnsweredStep(peer.log, k - 1, s);
      assert me.got[..k][..k - 1] == me.got[..k - 1];
      assert SentOk(peerSite, peer, k - 1);
      AnswersAreResponses(peerSite, peer, k - 1);
    }
  }

  /** The first `HeardUnder` requests under a serial are those whose answers have been heard. */
  lemma HeardAnswerFirstRequests<S>(
      site: Site<S>, peerSite: Site<S>, me: Node<S>, peer: Node<S>, k: nat, s: u32)
    requires ServerOk(site, me) && ServerOk(peerSite, peer)
    requires |peer.got| <= |me.sent| && peer.got == me.sent[..|peer.got|]
    requires |me.got| <= |peer.sent| && me.got == peer.sent[..|me.got|]
    requires k <= |me.got|
    ensures HeardUnder(me.got[..k], s) <= |RequestsUnder(me.log, s)|
    ensures AnsweredUnder(peer.log[..k], s) == RequestsUnder(me.log, s)[..HeardUnder(me.got[..k], s)]
  {
    hide Replay, Serve, ServerOk, HeardUnder, AnsweredUnder, RequestsUnder, Frontier, InStep;
    LogIsAsLong(peerSite, peer);
    NodesInStep(site, peerSite, me, peer);
    HeardAreAnswers(peerSite, me, peer, k, s);
    AnsweredAreFirstRequests(me.log, peer.log, k, s);
    RequestsGrow(me.log, Frontier(peer.log[..k]), |me.log|, s);
    assert me.log[..|me.log|] == me.log;
  }

  lemma LogIsAsLong<S>(site: Site<S>, me: Node<S>)
    requires ServerOk(site, me)
    ensures |me.log| == |me.sent|
  {
  }

  // ----- counting what was heard -----

  lemma {:induction false} HeardGrows(got: seq<seq<byte>>, p: nat, q: nat, s: u32)
    requires p <= q <= |got|
    ensures HeardUnder(got[..p], s) <= HeardUnder(got[..q], s)
    decreases q
  {
    if p < q {
      HeardGrows(got, p, q - 1, s);
      HeardStep(got, q - 1, s);
    }
  }

  lemma HeardStep(got: seq<seq<byte>>, k: nat, s: u32)
    requires k < |got|
    ensures HeardUnder(got[..k + 1], s) == HeardUnder(got[..k], s) + if Quotes(got[k], s) then 1 else 0
  {
    assert got[..k + 1][..k] == got[..k];
  }

  /** The frame that takes the count from `h` to the next number. */
  lemma {:induction false} HeardAt(got: seq<seq<byte>>, p: nat, q: nat, s: u32, h: nat) returns (r: nat)
    requires p <= q <= |got| && HeardUnder(got[..p], s) <= h < HeardUnder(got[..q], s)
    ensures p <= r < q && Quotes(got[r], s) && HeardUnder(got[..r], s) == h
    decreases q
  {
    HeardStep(got, q - 1, s);
    if HeardUnder(got[..q - 1], s) == h {
      r := q - 1;
    } else {
      r := HeardAt(got, p, q - 1, s, h);
    }
  }

  /** A fold over frames that do not quote the serial changes nothing; any other leaves the parser finished. */
  lemma {:induction false} FoldedFinishes(p: Parser, got: seq<seq<byte>>, i: nat, j: nat, s: u32)
    requires i <= j <= |got|
    ensures HeardUnder(got[..i], s) <= HeardUnder(got[..j], s)
    ensures HeardUnder(got[..j], s) == HeardUnder(got[..i], s) ==> Folded(p, got[i..j], s) == p
    ensures Folded(p, got[i..j], s).finished <==> p.finished || HeardUnder(got[..i], s) < HeardUnder(got[..j], s)
    ensures Folded(p, got[i..j], s).ty == p.ty
    decreases j
  {
    hide HeardUnder, Quotes, Completed;
    if i == j {
      assert got[i..j] == [];
    } else {
      FoldedFinishes(p, got, i, j - 1, s);
      HeardStep(got, j - 1, s);
      assert got[i..j] == got[i..j - 1] + [got[j - 1]];
      FoldedSnoc(p, got[i..j - 1], got[j - 1], s);
      QuotedFinishes(Folded(p, got[i..j - 1], s), got[j - 1], s);
    }
  }

  lemma QuotedFinishes(p: Parser, frame: seq<byte>, s: u32)
    ensures Completed(p, frame).ty == p.ty
    ensures Quotes(frame, s) ==> Completed(p, frame).finished
  {
    SettleIsolated(map[], ClassId([], 0), frame);
  }

  lemma {:induction false} FoldedAppend(p: Parser, xs: seq<seq<byte>>, ys: seq<seq<byte>>, s: u32)
    ensures Folded(p, xs + ys, s) == Folded(Folded(p, xs, s), ys, s)
    decreases |ys|
  {
    if ys == [] {
      assert xs + ys == xs;
    } else {
      var k := |ys| - 1;
      FoldedAppend(p, xs, ys[..k], s);
      assert xs + ys == (xs + ys[..k]) + [ys[k]];
      FoldedSnoc(p, xs + ys[..k], ys[k], s);
    }
  }

  // ----- one answer per request -----

  /** What `AnsweredUnder` lists. */
  lemma {:induction false} AnsweredListed(log: seq<Sent>, s: u32, n: nat)
    requires Truncate32(n) == s
    ensures n in AnsweredUnder(log, s) <==> HasAnswer(log, n)
    decreases |log|
  {
    if log != [] {
      var k := |log| - 1;
      AnsweredListed(log[..k], s, n);
      assert forall r :: 0 <= r < k ==> log[..k][r] == log[r];
    }
  }

  /** Dispatched requests have one answer each, other frames none. */
  lemma AnsweredExactlyOnce<S>(site: Site<S>, peerSite: Site<S>, me: Node<S>, peer: Node<S>, n: nat)
    requires ServerOk(site, me) && ServerOk(peerSite, peer)
    requires |peer.got| <= |me.sent| && peer.got == me.sent[..|peer.got|] && n < |me.log|
    ensures HasAnswer(peer.log, n) <==> n < |peer.got| && !me.log[n].Answered?
    ensures forall i, j :: 0 <= i < |peer.log| && 0 <= j < |peer.log| ==>
              (peer.log[i] == Answered(n) && peer.log[j] == Answered(n) ==> i == j)
  {
    hide Replay, Serve;
    if HasAnswer(peer.log, n) {
      var r :| 0 <= r < |peer.log| && peer.log[r] == Answered(n);
      AnswersGoToRequests(site, peerSite, me, peer, r);
    } else if n < |peer.got| && !me.log[n].Answered? {
      RequestIsAnswered(site, peerSite, me, peer, n);
    }
  }
}
