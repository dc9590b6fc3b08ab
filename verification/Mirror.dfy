/** What the client's session holds, as a value, and how each received frame changes it
    (src/bin/client/model/session.cpp, message_handlers.cpp). */
module Mirror {
  import opened Bytes
  import opened Lists
  import opened Models
  import opened Wire

  datatype SessionVal = SessionVal(
    user: Option<UserVal>,
    channels: map<Uuid, ChannelVal>,
    messages: map<Uuid, seq<MessageVal>>,
    open: Option<Uuid>)
  {
    /** The two maps are kept in step, and the open channel is one of them, so
        `get_active_channel_messages` finds its key. */
    ghost predicate Valid() {
      && channels.Keys == messages.Keys
      && (forall c :: c in channels ==> channels[c].uid == c)
      && (open.Some? ==> open.value in channels)
    }
  }

  const EMPTY := SessionVal(None, map[], map[], None)

  /* The handlers. `None` is an uncaught exception, or undefined behaviour in a decoder. */

  function OnLogin(v: SessionVal, r: Reply<Profile>): SessionVal {
    match r
    case Ok(p) => v.(user := Some(UserVal(p, [])))
    case Error(_) => v
  }

  function OnDeleteAccount(v: SessionVal, r: Reply<Profile>): SessionVal {
    if r.Ok? then EMPTY else v
  }

  /** A channel response needs an authenticated user to add the channel to. */
  function OnChannel(v: SessionVal, r: Reply<ChannelVal>): Option<SessionVal> {
    match r
    case Error(_) => Some(v)
    case Ok(c) =>
      if v.user.None? then None
      else
        var u := v.user.value;
        Some(SessionVal(Some(u.(channels := u.channels + [c.uid])),
                        v.channels[c.uid := c], v.messages[c.uid := []], Some(c.uid)))
  }

  function OnSend(v: SessionVal, r: Reply<MessageVal>): SessionVal {
    match r
    case Error(_) => v
    case Ok(m) =>
      if m.channel in v.messages && m.channel in v.channels then
        var c := v.channels[m.channel];
        v.(channels := v.channels[m.channel := c.(history := c.history + [m.snowflake])],
           messages := v.messages[m.channel := v.messages[m.channel] + [m]])
      else v
  }

  /** The decoded message is a new object, equal by pointer to none that is stored, so only the
      channel's snowflakes change. */
  function OnDelete(v: SessionVal, r: Reply<MessageVal>): SessionVal {
    match r
    case Error(_) => v
    case Ok(m) =>
      if m.channel in v.messages && m.channel in v.channels then
        var c := v.channels[m.channel];
        v.(channels := v.channels[m.channel := c.(history := Without(c.history, m.snowflake))])
      else v
  }

  /** Decoding and dispatching one frame. */
  function ApplyFrame(v: SessionVal, f: Frame): Option<SessionVal> {
    if f.operation == LOGIN then
      match DecodeLogin(f.payload) case Short => None case Got(r, _) => Some(OnLogin(v, r))
    else if f.operation == CREATE_CHANNEL then
      match DecodeChannelReply(f.payload) case Short => None case Got(r, _) => OnChannel(v, r)
    else if f.operation == SEND_MESSAGE then
      match DecodeMessageReply(f.payload) case Short => None case Got(r, _) => Some(OnSend(v, r))
    else if f.operation == DELETE_MESSAGE then
      match DecodeMessageReply(f.payload) case Short => None case Got(r, _) => Some(OnDelete(v, r))
    else if f.operation == DELETE_ACCOUNT then
      match DecodeLogin(f.payload) case Short => None case Got(r, _) => Some(OnDeleteAccount(v, r))
    else if f.operation == LIST_ACCOUNTS then
      match DecodeAccounts(f.payload) case Short => None case Got(_, _) => Some(v)
    else if f.operation == REGISTER_ACCOUNT then
      match DecodeRegistered(f.payload) case Short => None case Got(_, _) => Some(v)
    else Some(v)
  }

  function ApplyFrames(v: SessionVal, fs: seq<Frame>): Option<SessionVal>
    decreases |fs|
  {
    if fs == [] then Some(v)
    else
      match ApplyFrame(v, fs[0])
      case None => None
      case Some(v') => ApplyFrames(v', fs[1..])
  }

  lemma {:induction false} ApplyConcat(v: SessionVal, fs: seq<Frame>, gs: seq<Frame>)
    ensures ApplyFrames(v, fs + gs)
         == match ApplyFrames(v, fs) case None => None case Some(v') => ApplyFrames(v', gs)
    decreases |fs|
  {
    if fs == [] {
      assert fs + gs == gs;
    } else {
      assert (fs + gs)[1..] == fs[1..] + gs;
      match ApplyFrame(v, fs[0])
      case None =>
      case Some(v') => ApplyConcat(v', fs[1..], gs);
    }
  }

  lemma {:induction false} ApplyOne(v: SessionVal, f: Frame)
    ensures ApplyFrames(v, [f]) == ApplyFrame(v, f)
  {
    assert [f][1..] == [];
  }

  /** Whatever frames arrive, a session that survives them keeps its two maps in step and its open
      channel among them. */
  lemma {:induction false} SessionStaysValid(v: SessionVal, fs: seq<Frame>)
    requires v.Valid() && ApplyFrames(v, fs).Some?
    ensures ApplyFrames(v, fs).value.Valid()
    decreases |fs|
  {
    if fs != [] {
      SessionStaysValid(ApplyFrame(v, fs[0]).value, fs[1..]);
    }
  }

  /** An error, in answer to whatever request, changes nothing. */
  lemma {:induction false} ErrorsChangeNothing(v: SessionVal, operation: byte, text: Text)
    ensures ApplyFrame(v, Frame(operation, [1] + EncodeText(text))) == Some(v)
  {
    TagDecodes(1, EncodeText(text));
    ErrorDecodes(text);
  }

  /** A message frame, sent or deleted, reaches only the channel its message names, and nothing at all if
      the session does not hold that channel. */
  lemma {:induction false} OneChannelTouched(v: SessionVal, f: Frame, m: MessageVal)
    requires v.Valid() && (f.operation == SEND_MESSAGE || f.operation == DELETE_MESSAGE)
    requires DecodeMessageReply(f.payload).Got? && DecodeMessageReply(f.payload).value == Ok(m)
    ensures var r := ApplyFrame(v, f);
      && r.Some? && r.value.user == v.user && r.value.open == v.open
      && r.value.channels.Keys == v.channels.Keys && r.value.messages.Keys == v.messages.Keys
      && (forall c :: c in v.channels && c != m.channel ==>
            r.value.channels[c] == v.channels[c] && r.value.messages[c] == v.messages[c])
      && (m.channel !in v.channels ==> r.value == v)
  {
  }

  /** A deletion never reaches the stored messages. */
  lemma {:induction false} DeletionKeepsMessages(v: SessionVal, f: Frame)
    requires f.operation == DELETE_MESSAGE && ApplyFrame(v, f).Some?
    ensures ApplyFrame(v, f).value.messages == v.messages
  {
  }
}
