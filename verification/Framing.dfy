/** Length-prefixed frames as a pure byte stream: the meaning the reassembler is measured against. */
module Framing {
  import opened Bytes

  /** A frame: the payload length patched over the four reserved bytes, then the payload. */
  function Frame(p: seq<byte>): (s: seq<byte>) {
    ToLe(Truncate32(|p|)) + p
  }

  function Stream(ps: seq<seq<byte>>): seq<byte> {
    if ps == [] then [] else Frame(ps[0]) + Stream(ps[1..])
  }

  ghost predicate Fits(ps: seq<seq<byte>>) {
    forall i :: 0 <= i < |ps| ==> |ps[i]| < U32_LIMIT
  }

  /** A read task has its whole frame. */
  predicate Complete(held: seq<byte>) {
    |held| >= 4 && |held| - 4 >= FromLe(held[..4])
  }

  datatype Decoded = Decoded(frames: seq<seq<byte>>, rest: seq<byte>)

  /** The whole-stream decoder. */
  function Decode(s: seq<byte>): Decoded {
    if !Complete(s) then Decoded([], s)
    else
      var n := 4 + FromLe(s[..4]);
      var d := Decode(s[n..]);
      Decoded([s[4..n]] + d.frames, d.rest)
  }

  lemma {:induction false} StreamAppend(ps: seq<seq<byte>>, qs: seq<seq<byte>>)
    ensures Stream(ps + qs) == Stream(ps) + Stream(qs)
  {
    if ps == [] {
      assert ps + qs == qs;
    } else {
      var all := ps + qs;
      assert all[0] == ps[0] && all[1..] == ps[1..] + qs;
      StreamAppend(ps[1..], qs);
      Reassociate(Frame(ps[0]), Stream(ps[1..]), Stream(qs));
    }
  }

  lemma StreamSnoc(ps: seq<seq<byte>>, p: seq<byte>)
    ensures Stream(ps + [p]) == Stream(ps) + Frame(p)
  {
    StreamAppend(ps, [p]);
    assert Stream([p]) == Frame(p) + Stream([]);
  }

  /** The header in front of `p` reads as the payload length modulo 2^32. */
  lemma FrameHeader(p: seq<byte>, tail: seq<byte>)
    ensures (Frame(p) + tail)[..4] == ToLe(Truncate32(|p|))
    ensures FromLe((Frame(p) + tail)[..4]) == Truncate32(|p|)
    ensures (Frame(p) + tail)[4..] == p + tail
  {
    LeReadsBack(Truncate32(|p|));
    assert Frame(p) + tail == ToLe(Truncate32(|p|)) + (p + tail);
  }

  /** Bytes that complete a task are exactly one frame of the payload behind the header. */
  lemma CompleteIsFrame(held: seq<byte>)
    requires Complete(held) && |held| == 4 + FromLe(held[..4])
    ensures held == Frame(held[4..]) && |held[4..]| < U32_LIMIT
  {
    hide ToLe, FromLe;
    LeWritesBack(held[..4]);
    assert held == held[..4] + held[4..];
  }

  lemma DecodeFrame(p: seq<byte>, tail: seq<byte>)
    requires |p| < U32_LIMIT
    ensures Decode(Frame(p) + tail) == Decoded([p] + Decode(tail).frames, Decode(tail).rest)
  {
    var s := Frame(p) + tail;
    var n := 4 + |p|;
    FrameHeader(p, tail);
    assert FromLe(s[..4]) == |p|;
    assert s[n..] == tail;
    assert s[4..n] == s[4..][..|p|] == p;
  }

  /** Decoding inverts framing exactly when every payload length fits the u32 header. */
  lemma {:induction false} FramesRoundTrip(ps: seq<seq<byte>>)
    ensures Decode(Stream(ps)) == Decoded(ps, []) <==> Fits(ps)
  {
    if ps != [] {
      var p, tail := ps[0], Stream(ps[1..]);
      FramesRoundTrip(ps[1..]);
      if |p| < U32_LIMIT {
        DecodeFrame(p, tail);
        assert ps == [p] + ps[1..];
        assert Fits(ps) <==> Fits(ps[1..]) by {
          forall i | 0 <= i < |ps| && Fits(ps[1..]) ensures |ps[i]| < U32_LIMIT {
            if i > 0 { assert ps[i] == ps[1..][i - 1]; }
          }
        }
      } else {
        FrameHeader(p, tail);
        var d := Decode(Frame(p) + tail);
        assert |d.frames[0]| < U32_LIMIT;
        assert d.frames[0] != p;
      }
    }
  }

  /** Two lists of payloads that fit the header and have the same bytes are the same list. */
  lemma UniquelyDecodable(ps: seq<seq<byte>>, qs: seq<seq<byte>>)
    requires Fits(ps) && Fits(qs)
    ensures Stream(ps) == Stream(qs) ==> ps == qs
  {
    FramesRoundTrip(ps);
    FramesRoundTrip(qs);
  }

  /** Decoding never loses or invents a byte, and what it delivers fits the header. */
  lemma {:induction false} DecodeConserves(s: seq<byte>)
    ensures Stream(Decode(s).frames) + Decode(s).rest == s
    ensures Fits(Decode(s).frames) && !Complete(Decode(s).rest)
    decreases |s|
  {
    if Complete(s) {
      var n := 4 + FromLe(s[..4]);
      var head, tail := s[..n], s[n..];
      var d := Decode(tail);
      DecodeConserves(tail);
      HeadIsFrame(s, n);
      var p := s[4..n];
      assert [p] + d.frames != [] && ([p] + d.frames)[1..] == d.frames;
      assert Stream([p] + d.frames) == Frame(p) + Stream(d.frames);
      Reassociate(Frame(p), Stream(d.frames), d.rest);
      assert Decode(s) == Decoded([p] + d.frames, d.rest);
    }
  }

  lemma HeadIsFrame(s: seq<byte>, n: nat)
    requires Complete(s) && n == 4 + FromLe(s[..4])
    ensures Frame(s[4..n]) + s[n..] == s && |s[4..n]| < U32_LIMIT
  {
    var head := s[..n];
    assert head[..4] == s[..4] && head[4..] == s[4..n];
    CompleteIsFrame(head);
    assert s == head + s[n..];
  }

  lemma DecodeLonger(s: seq<byte>, t: seq<byte>, n: nat)
    requires Complete(s) && n == 4 + FromLe(s[..4])
    ensures Decode(s + t) == Decoded([s[4..n]] + Decode(s[n..] + t).frames, Decode(s[n..] + t).rest)
  {
    var all := s + t;
    assert all[..4] == s[..4] && all[n..] == s[n..] + t && all[4..n] == s[4..n];
    DecodeUnfolds(all);
    hide Decode;
  }

  lemma DecodeUnfolds(s: seq<byte>)
    ensures !Complete(s) ==> Decode(s) == Decoded([], s)
    ensures Complete(s) ==>
              var n := 4 + FromLe(s[..4]);
              Decode(s) == Decoded([s[4..n]] + Decode(s[n..]).frames, Decode(s[n..]).rest)
  {
  }

  lemma AppendFrames(head: seq<seq<byte>>, d: seq<seq<byte>>, e: seq<seq<byte>>)
    ensures head + (d + e) == (head + d) + e
  {
  }

  /** Decoding a stream in two parts: keep the undelivered rest and put the new bytes behind it. */
  lemma {:induction false} DecodeAppend(s: seq<byte>, t: seq<byte>)
    ensures Decode(s + t) ==
            Decoded(Decode(s).frames + Decode(Decode(s).rest + t).frames, Decode(Decode(s).rest + t).rest)
    decreases |s|
  {
    DecodeUnfolds(s);
    hide Decode;
    if Complete(s) {
      var n := 4 + FromLe(s[..4]);
      DecodeLonger(s, t, n);
      DecodeAppend(s[n..], t);
      var d := Decode(s[n..]);
      AppendFrames([s[4..n]], d.frames, Decode(d.rest + t).frames);
    } else {
      AppendFrames([], [], Decode(s + t).frames);
    }
  }

  /**
   * If the queued frames are the delivered frames followed by some bytes, the delivered list is a prefix
   * of the queued list, and those bytes are the frames still to come.
   */
  lemma {:induction false} DeliveredIsPrefix(sent: seq<seq<byte>>, got: seq<seq<byte>>, tail: seq<byte>)
    requires Stream(sent) == Stream(got) + tail
    requires Fits(sent) && Fits(got)
    ensures |got| <= |sent| && got == sent[..|got|] && tail == Stream(sent[|got|..])
  {
    if got == [] {
      assert sent[0..] == sent && [] + tail == tail;
    } else {
      Reassociate(Frame(got[0]), Stream(got[1..]), tail);
      assert sent != [];
      SameHead(got[0], Stream(got[1..]) + tail, sent[0], Stream(sent[1..]));
      DeliveredIsPrefix(sent[1..], got[1..], tail);
      assert sent[1..][|got| - 1..] == sent[|got|..];
      assert got == [got[0]] + sent[1..][..|got| - 1] == sent[..|got|];
    }
  }

  lemma SameHead(p: seq<byte>, s: seq<byte>, q: seq<byte>, t: seq<byte>)
    requires |p| < U32_LIMIT && |q| < U32_LIMIT && Frame(p) + s == Frame(q) + t
    ensures p == q && s == t
  {
    FrameHeader(p, s);
    FrameHeader(q, t);
    assert (p + s)[..|p|] == p && (q + t)[..|p|] == q;
    assert (p + s)[|p|..] == s && (q + t)[|p|..] == t;
  }
}
