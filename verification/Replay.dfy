/** What a successful login writes to the client, and what the client holds after reading it
    (src/bin/server/model/message_handlers.cpp, `on_login`). */
module Replay {
  import opened Bits
  import opened Bytes
  import opened Consistency
  import opened Mirror
  import opened Models
  import opened Stream
  import opened Tables
  import opened Wire

  /** The frame a client handler writes for a signal of its user. */
  function NoticeFrame(n: Notice): Frame {
    match n
    case ChannelAdded(c) => Frame(CREATE_CHANNEL, EncodeChannelReply(Ok(c)))
    case MessageReceived(m) => Frame(SEND_MESSAGE, EncodeMessageReply(Ok(m)))
    case MessageDeleted(m) => Frame(DELETE_MESSAGE, EncodeMessageReply(Ok(m)))
  }

  /** One frame per listed message that is stored, in list order. */
  function HistoryFrames(s: DbVal, history: seq<uint64>): seq<Frame> {
    if history == [] then []
    else
      var k := history[|history| - 1];
      HistoryFrames(s, history[..|history| - 1])
      + if k in s.messages then [NoticeFrame(MessageReceived(s.messages[k]))] else []
  }

  /** A channel, then its history. */
  function ChannelFrames(s: DbVal, c: Uuid): seq<Frame> {
    if c in s.channels then
      [NoticeFrame(ChannelAdded(s.channels[c]))] + HistoryFrames(s, s.channels[c].history)
    else []
  }

  function ChannelsFrames(s: DbVal, cs: seq<Uuid>): seq<Frame> {
    if cs == [] then []
    else ChannelsFrames(s, cs[..|cs| - 1]) + ChannelFrames(s, cs[|cs| - 1])
  }

  function LoginFrames(s: DbVal, user: Uuid): seq<Frame>
    requires user in s.users
  {
    [Frame(LOGIN, EncodeLogin(Ok(s.users[user].profile)))] + ChannelsFrames(s, s.users[user].channels)
  }

  /* The limits of the wire format */

  predicate NoticeFits(n: Notice) {
    match n
    case ChannelAdded(c) => ChannelFits(c)
    case MessageReceived(m) => MessageFits(m)
    case MessageDeleted(m) => MessageFits(m)
  }

  /** Every string and list of the database fits a one-byte length. */
  ghost predicate TablesFit(s: DbVal) {
    && (forall u :: u in s.users ==> ProfileFits(s.users[u].profile))
    && (forall c :: c in s.channels ==> ChannelFits(s.channels[c]))
    && (forall k :: k in s.messages ==> MessageFits(s.messages[k]))
  }

  /** A signal as the client's handlers see it after the frame has been decoded. */
  function ApplyNotice(v: SessionVal, n: Notice): Option<SessionVal> {
    match n
    case ChannelAdded(c) => OnChannel(v, Ok(Received(c)))
    case MessageReceived(m) => Some(OnSend(v, Ok(m)))
    case MessageDeleted(m) => Some(OnDelete(v, Ok(m)))
  }

  lemma {:induction false} NoticeArrives(v: SessionVal, n: Notice)
    requires NoticeFits(n)
    ensures ApplyFrame(v, NoticeFrame(n)) == ApplyNotice(v, n)
  {
    match n
    case ChannelAdded(c) => ChannelReplyDecodes(Ok(c));
    case MessageReceived(m) => MessageReplyRoundTrip(Ok(m));
    case MessageDeleted(m) => MessageReplyRoundTrip(Ok(m));
  }

  lemma {:induction false} LoginArrives(v: SessionVal, p: Profile)
    requires ProfileFits(p)
    ensures ApplyFrame(v, Frame(LOGIN, EncodeLogin(Ok(p)))) == Some(v.(user := Some(UserVal(p, []))))
  {
    LoginRoundTrip(Ok(p));
  }

  /* Replaying one channel */

  function Messages(s: DbVal, history: seq<uint64>): (ms: seq<MessageVal>)
    requires forall k :: k in history ==> k in s.messages
    ensures |ms| == |history| && forall i :: 0 <= i < |ms| ==> ms[i] == s.messages[history[i]]
  {
    seq(|history|, i requires 0 <= i < |history| => s.messages[history[i]])
  }

  /** A session in which channel `c` has just been opened by a channel frame, after the first `n`
      messages of its history have been replayed. */
  ghost function Partly(v: SessionVal, s: DbVal, c: Uuid, n: nat): SessionVal
    requires Ordered(s) && c in s.channels && n <= |s.channels[c].history| && v.user.Some?
  {
    var ch := s.channels[c];
    SessionVal(
      Some(v.user.value.(channels := v.user.value.channels + [c])),
      v.channels[c := ch.(history := Received(ch).history + ch.history[..n])],
      v.messages[c := Messages(s, ch.history[..n])],
      Some(c))
  }

  lemma {:induction false} HistoryGrows(s: DbVal, c: Uuid, n: nat)
    requires Ordered(s) && c in s.channels && 0 < n <= |s.channels[c].history|
    ensures var h := s.channels[c].history;
      && h[n - 1] in s.messages
      && HistoryFrames(s, h[..n])
         == HistoryFrames(s, h[..n - 1]) + [NoticeFrame(MessageReceived(s.messages[h[n - 1]]))]
  {
    var h := s.channels[c].history;
    assert h[n - 1] in h && h[..n][..n - 1] == h[..n - 1];
  }

  lemma {:induction false} HistoryReplays(v: SessionVal, s: DbVal, c: Uuid, n: nat)
    requires Consistent(s) && TablesFit(s) && c in s.channels && v.user.Some?
    requires n <= |s.channels[c].history|
    ensures ApplyFrames(Partly(v, s, c, 0), HistoryFrames(s, s.channels[c].history[..n]))
         == Some(Partly(v, s, c, n))
  {
    var h := s.channels[c].history;
    if n > 0 {
      HistoryReplays(v, s, c, n - 1);
      HistoryGrows(s, c, n);
      var f := NoticeFrame(MessageReceived(s.messages[h[n - 1]]));
      ApplyConcat(Partly(v, s, c, 0), HistoryFrames(s, h[..n - 1]), [f]);
      MessageReplays(v, s, c, n);
    }
  }

  lemma {:induction false} MessageReplays(v: SessionVal, s: DbVal, c: Uuid, n: nat)
    requires Consistent(s) && TablesFit(s) && c in s.channels && v.user.Some?
    requires 0 < n <= |s.channels[c].history|
    ensures s.channels[c].history[n - 1] in s.messages
    ensures var m := s.messages[s.channels[c].history[n - 1]];
      ApplyFrames(Partly(v, s, c, n - 1), [NoticeFrame(MessageReceived(m))]) == Some(Partly(v, s, c, n))
  {
    var k, p := s.channels[c].history[n - 1], Partly(v, s, c, n - 1);
    assert k in s.channels[c].history;
    ApplyOne(p, NoticeFrame(MessageReceived(s.messages[k])));
    NoticeArrives(p, MessageReceived(s.messages[k]));
    MessageAppended(v, s, c, n);
  }

  lemma {:induction false} MessageAppended(v: SessionVal, s: DbVal, c: Uuid, n: nat)
    requires Consistent(s) && c in s.channels && v.user.Some?
    requires 0 < n <= |s.channels[c].history|
    ensures s.channels[c].history[n - 1] in s.messages
    ensures OnSend(Partly(v, s, c, n - 1), Ok(s.messages[s.channels[c].history[n - 1]])) == Partly(v, s, c, n)
  {
    var h := s.channels[c].history;
    var k := h[n - 1];
    assert k in h;
    var m := s.messages[k];
    assert h[..n] == h[..n - 1] + [k];
    assert Messages(s, h[..n]) == Messages(s, h[..n - 1]) + [m];
    var low := Received(s.channels[c]).history;
    assert low + h[..n - 1] + [k] == low + h[..n];
    var p := OnSend(Partly(v, s, c, n - 1), Ok(m));
    assert p.channels == Partly(v, s, c, n).channels;
    assert p.messages == Partly(v, s, c, n).messages;
  }

  /** One channel of the replay: whatever the session held for it is replaced by the channel with its
      low bytes and its full history, and by exactly its messages in list order. */
  ghost function AfterChannel(v: SessionVal, s: DbVal, c: Uuid): SessionVal
    requires Ordered(s) && c in s.channels && v.user.Some?
  {
    Partly(v, s, c, |s.channels[c].history|)
  }

  lemma {:induction false} ChannelReplays(v: SessionVal, s: DbVal, c: Uuid)
    requires Consistent(s) && TablesFit(s) && c in s.channels && v.user.Some?
    ensures ApplyFrames(v, ChannelFrames(s, c)) == Some(AfterChannel(v, s, c))
  {
    var ch := s.channels[c];
    var f := NoticeFrame(ChannelAdded(ch));
    ApplyConcat(v, [f], HistoryFrames(s, ch.history));
    ApplyOne(v, f);
    NoticeArrives(v, ChannelAdded(ch));
    assert Received(ch).history + ch.history[..0] == Received(ch).history;
    assert Partly(v, s, c, 0).messages == v.messages[c := []];
    assert ch.history[..|ch.history|] == ch.history;
    HistoryReplays(v, s, c, |ch.history|);
  }

  /* The whole login */

  /** What the client holds after a login: the user with all its channels; for each of them the
      server's messages in list order, and the server's channel with the low bytes of its first
      (length mod 256) snowflakes in front of its history; the last channel is open. */
  ghost function Restored(s: DbVal, p: Profile, cs: seq<Uuid>): SessionVal
    requires Ordered(s) && forall c :: c in cs ==> c in s.channels
  {
    SessionVal(
      Some(UserVal(p, cs)),
      map c | c in cs :: s.channels[c].(history := Received(s.channels[c]).history + s.channels[c].history),
      map c | c in cs :: Messages(s, s.channels[c].history),
      if cs == [] then None else Some(cs[|cs| - 1]))
  }

  lemma {:induction false} RestoredChannels(s: DbVal, p: Profile, cs: seq<Uuid>, c: Uuid)
    requires Ordered(s) && c in s.channels && forall d :: d in cs ==> d in s.channels
    ensures AfterChannel(Restored(s, p, cs), s, c).channels == Restored(s, p, cs + [c]).channels
  {
    var h := s.channels[c].history;
    assert h[..|h|] == h;
  }

  lemma {:induction false} RestoredMessages(s: DbVal, p: Profile, cs: seq<Uuid>, c: Uuid)
    requires Ordered(s) && c in s.channels && forall d :: d in cs ==> d in s.channels
    ensures AfterChannel(Restored(s, p, cs), s, c).messages == Restored(s, p, cs + [c]).messages
  {
    var h := s.channels[c].history;
    assert h[..|h|] == h;
  }

  lemma {:induction false} RestoredStep(s: DbVal, p: Profile, cs: seq<Uuid>, n: nat)
    requires Ordered(s) && (forall c :: c in cs ==> c in s.channels) && n < |cs|
    ensures AfterChannel(Restored(s, p, cs[..n]), s, cs[n]) == Restored(s, p, cs[..n + 1])
  {
    assert cs[..n + 1] == cs[..n] + [cs[n]];
    RestoredChannels(s, p, cs[..n], cs[n]);
    RestoredMessages(s, p, cs[..n], cs[n]);
  }

  lemma {:induction false} ChannelsReplay(s: DbVal, p: Profile, cs: seq<Uuid>, n: nat)
    requires Consistent(s) && TablesFit(s) && (forall c :: c in cs ==> c in s.channels) && n <= |cs|
    ensures ApplyFrames(EMPTY.(user := Some(UserVal(p, []))), ChannelsFrames(s, cs[..n]))
         == Some(Restored(s, p, cs[..n]))
  {
    var v0 := EMPTY.(user := Some(UserVal(p, [])));
    if n == 0 {
      assert Restored(s, p, []).channels == map[] && Restored(s, p, []).messages == map[];
    } else {
      assert cs[..n][..n - 1] == cs[..n - 1];
      ChannelsReplay(s, p, cs, n - 1);
      ApplyConcat(v0, ChannelsFrames(s, cs[..n - 1]), ChannelFrames(s, cs[n - 1]));
      ChannelReplays(Restored(s, p, cs[..n - 1]), s, cs[n - 1]);
      RestoredStep(s, p, cs, n - 1);
    }
  }

  /** The frames of a successful login, handled from a reset session, restore the user's channels and
      messages, even if a channel occurs twice in the user's list. */
  lemma {:induction false} LoginApplies(s: DbVal, user: Uuid)
    requires Consistent(s) && TablesFit(s) && user in s.users
    ensures ApplyFrames(EMPTY, LoginFrames(s, user))
         == Some(Restored(s, s.users[user].profile, s.users[user].channels))
  {
    var p, cs := s.users[user].profile, s.users[user].channels;
    LoginArrives(EMPTY, p);
    ChannelsReplay(s, p, cs, |cs|);
    assert cs[..|cs|] == cs;
    assert LoginFrames(s, user)[1..] == ChannelsFrames(s, cs);
  }

  /* The payload limit of a login */

  /** Whether the record of a channel fits the length field of its frame. */
  predicate RecordFits(c: ChannelVal) {
    20 + |c.name| + 16 * |c.members| + |c.history| <= 0xFFFF
  }

  lemma {:induction false} NoticeFrameFits(n: Notice)
    requires NoticeFits(n)
    ensures FrameFits(NoticeFrame(n)) <==> n.ChannelAdded? ==> RecordFits(n.channel)
  {
  }

  lemma {:induction false} HistoryFramesFit(s: DbVal, history: seq<uint64>)
    requires TablesFit(s)
    ensures FramesFit(HistoryFrames(s, history))
  {
    if history != [] {
      var k := history[|history| - 1];
      HistoryFramesFit(s, history[..|history| - 1]);
      if k in s.messages {
        NoticeFrameFits(MessageReceived(s.messages[k]));
      }
    }
  }

  lemma {:induction false} FramesFitConcat(fs: seq<Frame>, gs: seq<Frame>)
    ensures FramesFit(fs + gs) <==> FramesFit(fs) && FramesFit(gs)
  {
    if FramesFit(fs + gs) {
      forall i | 0 <= i < |fs| ensures FrameFits(fs[i]) {
        assert (fs + gs)[i] == fs[i];
      }
      forall i | 0 <= i < |gs| ensures FrameFits(gs[i]) {
        assert (fs + gs)[|fs| + i] == gs[i];
      }
    }
  }

  lemma {:induction false} ChannelFramesFit(s: DbVal, c: Uuid)
    requires TablesFit(s)
    ensures FramesFit(ChannelFrames(s, c)) <==> c in s.channels ==> RecordFits(s.channels[c])
  {
    if c in s.channels {
      var f, h := NoticeFrame(ChannelAdded(s.channels[c])), HistoryFrames(s, s.channels[c].history);
      NoticeFrameFits(ChannelAdded(s.channels[c]));
      HistoryFramesFit(s, s.channels[c].history);
      FramesFitConcat([f], h);
      assert FramesFit([f]) <==> FrameFits([f][0]);
    }
  }

  lemma {:induction false} ChannelsFramesFit(s: DbVal, cs: seq<Uuid>)
    requires TablesFit(s)
    ensures FramesFit(ChannelsFrames(s, cs)) <==>
      forall c :: c in cs && c in s.channels ==> RecordFits(s.channels[c])
  {
    if cs != [] {
      var n := |cs| - 1;
      assert cs == cs[..n] + [cs[n]];
      ChannelsFramesFit(s, cs[..n]);
      ChannelFramesFit(s, cs[n]);
      FramesFitConcat(ChannelsFrames(s, cs[..n]), ChannelFrames(s, cs[n]));
    }
  }

  /** When every string and list has at most 255 entries, every payload of a login fits its length
      field exactly when each of the user's channels has a record of at most 65535 bytes; at one byte
      per message that bounds the histories. */
  lemma {:induction false} LoginPayloadsFit(s: DbVal, user: Uuid)
    requires TablesFit(s) && user in s.users
    ensures FramesFit(LoginFrames(s, user)) <==>
      forall c :: c in s.users[user].channels && c in s.channels ==> RecordFits(s.channels[c])
  {
    var f := Frame(LOGIN, EncodeLogin(Ok(s.users[user].profile)));
    var cs := s.users[user].channels;
    ChannelsFramesFit(s, cs);
    FramesFitConcat([f], ChannelsFrames(s, cs));
    LoginPayload(s.users[user].profile);
    assert FramesFit([f]) <==> FrameFits([f][0]);
  }

  lemma {:induction false} LoginPayload(p: Profile)
    requires ProfileFits(p)
    ensures FrameFits(Frame(LOGIN, EncodeLogin(Ok(p))))
  {
  }

  /** Login, end to end: the bytes written by a successful login, if every string and list fits its
      length byte and every channel record its length field, are split back into their frames, and
      handling these from a reset session restores the user's channels and messages. */
  lemma {:induction false} LoginRestores(s: DbVal, user: Uuid)
    requires Consistent(s) && TablesFit(s) && user in s.users
    requires forall c :: c in s.users[user].channels ==> c in s.channels && RecordFits(s.channels[c])
    ensures var (fs, rest) := Split(EncodeFrames(LoginFrames(s, user)));
      && fs == LoginFrames(s, user) && rest == []
      && ApplyFrames(EMPTY, fs) == Some(Restored(s, s.users[user].profile, s.users[user].channels))
  {
    LoginPayloadsFit(s, user);
    SplitWhole(LoginFrames(s, user));
    LoginApplies(s, user);
  }

  /** The restored messages are the server's for every history; the restored snowflake list is the
      server's exactly when the history's length is a multiple of 256. */
  lemma {:induction false} RestoredAgrees(s: DbVal, user: Uuid, c: Uuid)
    requires Consistent(s) && user in s.users && c in s.users[user].channels
    ensures c in s.channels
    ensures var v := Restored(s, s.users[user].profile, s.users[user].channels);
      && v.messages.Keys == (set d | d in s.users[user].channels)
      && (v.channels[c].history == s.channels[c].history <==> |s.channels[c].history| % 256 == 0)
      && (v.channels[c] == s.channels[c] <==> |s.channels[c].history| % 256 == 0)
  {
    var h := s.channels[c].history;
    var low := Received(s.channels[c]).history;
    assert |low| == |h| % 256;
    if low == [] {
      assert low + h == h;
    } else {
      assert |low + h| != |h|;
    }
  }
}
