/** Splitting a byte stream into frames, as the client's read loop does
    (src/bin/client/model/tcp_client.cpp). */
module Stream {
  import opened Bytes
  import opened Wire

  function Flatten(chunks: seq<Text>): Text {
    if chunks == [] then [] else chunks[0] + Flatten(chunks[1..])
  }

  /** Whether a stream starts with a whole frame of the right version. */
  predicate HasFrame(s: Text) {
    && |s| >= 4
    && DecodeHeader(s).version == PROTOCOL_VERSION
    && |s| >= 4 + DecodeHeader(s).packetLength
  }

  function FirstFrame(s: Text): Frame
    requires HasFrame(s)
  {
    var h := DecodeHeader(s);
    Frame(h.operation, s[4..4 + h.packetLength])
  }

  function AfterFirst(s: Text): (rest: Text)
    requires HasFrame(s)
    ensures |rest| + 4 <= |s|
  {
    s[4 + DecodeHeader(s).packetLength..]
  }

  /** The whole frames at the front of a stream, and the bytes left over. */
  function Split(s: Text): (seq<Frame>, Text)
    decreases |s|
  {
    if !HasFrame(s) then ([], s)
    else
      var (fs, rest) := Split(AfterFirst(s));
      ([FirstFrame(s)] + fs, rest)
  }

  lemma {:induction false} FirstOfEncoded(f: Frame, rest: Text)
    requires FrameFits(f)
    ensures HasFrame(EncodeFrame(f) + rest)
    ensures FirstFrame(EncodeFrame(f) + rest) == f && AfterFirst(EncodeFrame(f) + rest) == rest
  {
    FrameHeader(f, rest);
    var s := EncodeFrame(f) + rest;
    assert s[4..4 + |f.payload|] == f.payload;
    assert s[4 + |f.payload|..] == rest;
  }

  lemma {:induction false} SplitStep(f: Frame, rest: Text)
    requires FrameFits(f)
    ensures Split(EncodeFrame(f) + rest) == ([f] + Split(rest).0, Split(rest).1)
  {
    FirstOfEncoded(f, rest);
  }

  lemma PrependTwice<T>(x: T, xs: seq<T>, ys: seq<T>)
    ensures [x] + (xs + ys) == [x] + xs + ys
  {
  }

  /** The original frames come back in order, followed by whatever the remaining bytes hold. */
  lemma {:induction false} SplitEncoded(fs: seq<Frame>, rest: Text)
    requires FramesFit(fs)
    ensures Split(EncodeFrames(fs) + rest) == (fs + Split(rest).0, Split(rest).1)
  {
    if fs == [] {
      assert EncodeFrames(fs) + rest == rest;
      assert fs + Split(rest).0 == Split(rest).0;
    } else {
      var tail := EncodeFrames(fs[1..]) + rest;
      AppendTwice(EncodeFrame(fs[0]), EncodeFrames(fs[1..]), rest);
      SplitEncoded(fs[1..], rest);
      SplitStep(fs[0], tail);
      PrependTwice(fs[0], fs[1..], Split(rest).0);
      assert fs == [fs[0]] + fs[1..];
    }
  }

  lemma {:induction false} SplitWhole(fs: seq<Frame>)
    requires FramesFit(fs)
    ensures Split(EncodeFrames(fs)) == (fs, [])
  {
    SplitEncoded(fs, []);
    assert EncodeFrames(fs) + [] == EncodeFrames(fs);
    assert fs + [] == fs;
  }

  /** Distinct frame lists never share an encoding. */
  lemma {:induction false} EncodingUnique(fs: seq<Frame>, gs: seq<Frame>)
    requires FramesFit(fs) && FramesFit(gs) && EncodeFrames(fs) == EncodeFrames(gs)
    ensures fs == gs
  {
    SplitWhole(fs);
    SplitWhole(gs);
  }

  /** A header and a payload of its length are the first frame of a stream. */
  lemma {:induction false} WholeFrame(s: Text, header: Text, payload: Text, rest: Text)
    requires |header| == 4 && s == header + (payload + rest)
    requires DecodeHeader(header).version == PROTOCOL_VERSION
    requires DecodeHeader(header).packetLength == |payload|
    ensures Split(s) == ([Frame(DecodeHeader(header).operation, payload)] + Split(rest).0, Split(rest).1)
  {
    assert DecodeHeader(s) == DecodeHeader(header);
    assert s[4..4 + |payload|] == payload && s[4 + |payload|..] == rest;
  }

  /** A proper prefix of a frame's encoding holds no frame. */
  lemma {:induction false} CutFrame(f: Frame, k: nat)
    requires FrameFits(f) && k < |EncodeFrame(f)|
    ensures Split(EncodeFrame(f)[..k]) == ([], EncodeFrame(f)[..k])
  {
    var s := EncodeFrame(f)[..k];
    if k >= 4 {
      FrameHeader(f, []);
      assert EncodeFrame(f) + [] == EncodeFrame(f);
      assert DecodeHeader(s) == DecodeHeader(EncodeFrame(f));
    }
  }

  /** `got` is exactly what a stream of `fs`, cut after `k` bytes, has delivered whole, and `left`
      bytes of the next frame have arrived. */
  predicate Delivered(fs: seq<Frame>, k: nat, got: seq<Frame>, left: nat) {
    && |got| <= |fs| && got == fs[..|got|]
    && |EncodeFrames(got)| + left == k
    && (|got| < |fs| ==> left < |EncodeFrame(fs[|got|])|)
    && (|got| == |fs| ==> left == 0)
  }

  lemma {:induction false} DeliveredStep(f: Frame, fs: seq<Frame>, k: nat, got: seq<Frame>, left: nat)
    requires Delivered(fs, k, got, left)
    ensures Delivered([f] + fs, |EncodeFrame(f)| + k, [f] + got, left)
  {
    assert ([f] + fs)[..|got| + 1] == [f] + fs[..|got|];
    assert ([f] + got)[1..] == got;
  }

  /** A cut stream yields exactly the frames that end at or before the cut, in order. */
  lemma {:induction false} CutStream(fs: seq<Frame>, k: nat)
    requires FramesFit(fs) && k <= |EncodeFrames(fs)|
    ensures var (got, left) := Split(EncodeFrames(fs)[..k]); Delivered(fs, k, got, |left|)
  {
    if fs != [] {
      var e := EncodeFrame(fs[0]);
      var cut := EncodeFrames(fs)[..k];
      if k < |e| {
        assert cut == e[..k];
        CutFrame(fs[0], k);
      } else {
        var tail := EncodeFrames(fs[1..])[..k - |e|];
        assert cut == e + tail;
        FirstOfEncoded(fs[0], tail);
        CutStream(fs[1..], k - |e|);
        var (got, left) := Split(tail);
        DeliveredStep(fs[0], fs[1..], k - |e|, got, |left|);
        assert fs == [fs[0]] + fs[1..];
      }
    }
  }

  /** What is left of a split stream after `done` has been taken from its front. */
  predicate Taken(total: (seq<Frame>, Text), done: seq<Frame>, left: (seq<Frame>, Text)) {
    total.0 == done + left.0 && total.1 == left.1
  }
}
