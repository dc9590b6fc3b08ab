/** The client: the session object with its shared channels and messages, and the socket loop that
    feeds it (src/bin/client/model/session.cpp, message_handlers.cpp, tcp_client.cpp). */
module Client {
  import opened Arrival
  import opened Bytes
  import opened Lists
  import opened Mirror
  import opened Models
  import opened Objects
  import opened Packets
  import opened Stream
  import opened Wire

  function MessageValues(ms: seq<Message>): (vs: seq<MessageVal>)
    ensures |vs| == |ms| && forall i :: 0 <= i < |ms| ==> vs[i] == ms[i].Value()
  {
    seq(|ms|, i requires 0 <= i < |ms| => ms[i].Value())
  }

  lemma {:induction false} ErasesNothing(stored: map<Uuid, seq<Message>>, message: Message)
    requires forall c, m :: c in stored && m in stored[c] ==> m != message
    ensures message.channel in stored ==>
      stored[message.channel := Without(stored[message.channel], message)] == stored
  {
    if message.channel in stored {
      MinusNothing(stored[message.channel], {message});
    }
  }

  class Session {
    var authenticatedUser: User?
    var channels: map<Uuid, Channel>
    var channelMessages: map<Uuid, seq<Message>>
    var openChannel: Channel?

    ghost function Held(): set<Channel>
      reads this
    {
      set c | c in channels :: channels[c]
    }

    ghost function Stored(): set<Message>
      reads this
    {
      set c, m | c in channelMessages && m in channelMessages[c] :: m
    }

    ghost predicate Valid()
      reads this, Held(), openChannel
    {
      && channels.Keys == channelMessages.Keys
      && (forall c :: c in channels ==> channels[c].uid == c)
      && (openChannel != null ==> openChannel.uid in channels && channels[openChannel.uid] == openChannel)
    }

    ghost function UserState(): Option<UserVal>
      reads this, authenticatedUser
    {
      if authenticatedUser == null then None else Some(authenticatedUser.Value())
    }

    ghost function ChannelStates(): map<Uuid, ChannelVal>
      reads this, Held()
    {
      map c | c in channels :: channels[c].Value()
    }

    ghost function MessageStates(): map<Uuid, seq<MessageVal>>
      reads this
    {
      map c | c in channelMessages :: MessageValues(channelMessages[c])
    }

    ghost function OpenState(): Option<Uuid>
      reads this, openChannel
    {
      if openChannel == null then None else Some(openChannel.uid)
    }

    ghost function State(): SessionVal
      reads this, authenticatedUser, Held(), openChannel
    {
      SessionVal(UserState(), ChannelStates(), MessageStates(), OpenState())
    }

    constructor ()
      ensures Valid() && State() == EMPTY && authenticatedUser == null && Held() == {}
    {
      authenticatedUser, channels, channelMessages, openChannel := null, map[], map[], null;
    }

    method Reset()
      modifies this
      ensures Valid() && State() == EMPTY && authenticatedUser == null && Held() == {}
    {
      authenticatedUser := null;
      channels := map[];
      channelMessages := map[];
      openChannel := null;
    }

    method SetActiveChannel(channel: Channel)
      modifies this`openChannel
      ensures openChannel == channel
    {
      openChannel := channel;
    }

    /** Replaces any channel of the same uid and empties its messages. */
    method AddChannel(channel: Channel)
      modifies this`channels, this`channelMessages
      ensures channels == old(channels)[channel.uid := channel]
      ensures channelMessages == old(channelMessages)[channel.uid := []]
      ensures ChannelStates() == old(ChannelStates())[channel.uid := channel.Value()]
      ensures MessageStates() == old(MessageStates())[channel.uid := []]
    {
      channels := channels[channel.uid := channel];
      channelMessages := channelMessages[channel.uid := []];
    }

    /** Only a known channel takes a message. */
    method AddMessage(message: Message)
      requires Valid()
      modifies this`channelMessages, Held()`history
      ensures Valid()
      ensures message.channel !in channels ==>
        MessageStates() == old(MessageStates()) && ChannelStates() == old(ChannelStates())
      ensures message.channel in channels ==>
        var c := old(ChannelStates()[message.channel]);
        && ChannelStates() == old(ChannelStates())[message.channel := c.(history := c.history + [message.snowflake])]
        && MessageStates() == old(MessageStates())[message.channel :=
                                old(MessageStates()[message.channel]) + [message.Value()]]
    {
      var c := message.channel;
      if c !in channelMessages {
        return;
      }
      assert MessageValues(channelMessages[c] + [message])
          == MessageValues(channelMessages[c]) + [message.Value()];
      channelMessages := channelMessages[c := channelMessages[c] + [message]];
      channels[c].AddMessage(message.snowflake);
    }

    /** Erases the messages equal by pointer to the given one, but the snowflake from the channel. */
    method RemoveMessage(message: Message)
      requires Valid()
      modifies this`channelMessages, Held()`history
      ensures Valid()
      ensures message.channel !in channels ==>
        channelMessages == old(channelMessages) && ChannelStates() == old(ChannelStates())
      ensures message.channel in channels ==>
        var c := old(ChannelStates()[message.channel]);
        && ChannelStates() == old(ChannelStates())[message.channel :=
                                c.(history := Without(c.history, message.snowflake))]
        && channelMessages == old(channelMessages)[message.channel :=
                                Without(old(channelMessages[message.channel]), message)]
    {
      var c := message.channel;
      if c !in channelMessages {
        return;
      }
      var messages := EraseAll(channelMessages[c], message);
      channelMessages := channelMessages[c := messages];
      channels[c].RemoveMessage(message.snowflake);
    }

    method OnSendMessageResponse(response: MessageResponse)
      requires Valid()
      modifies this`channelMessages, Held()`history
      ensures Valid() && State() == OnSend(old(State()), response.Value())
    {
      if response.data.Holds? {
        AddMessage(response.data.value);
      }
    }

    /** A decoded message is a new object: no stored message is erased. */
    method OnDeleteMessageResponse(response: MessageResponse)
      requires Valid()
      requires response.data.Holds? ==> response.data.value !in Stored()
      modifies this`channelMessages, Held()`history
      ensures Valid() && channelMessages == old(channelMessages)
      ensures State() == OnDelete(old(State()), response.Value())
    {
      if response.data.Holds? {
        ErasesNothing(channelMessages, response.data.value);
        RemoveMessage(response.data.value);
        assert MessageStates() == old(MessageStates());
      }
    }

    /** Takes over the decoded user, whose channel list is still empty. */
    method OnLoginResponse(response: LoginResponse)
      requires Valid() && (response.data.Holds? ==> response.data.value.channels == [])
      modifies this`authenticatedUser
      ensures Valid() && State() == OnLogin(old(State()), response.Value())
      ensures authenticatedUser == if response.data.Holds? then response.data.value else old(authenticatedUser)
    {
      if response.data.Holds? {
        authenticatedUser := response.data.value;
      }
    }

    method OnDeleteAccountResponse(response: LoginResponse)
      requires Valid()
      modifies this
      ensures Valid() && State() == OnDeleteAccount(old(State()), response.Value())
      ensures Held() <= old(Held())
      ensures authenticatedUser == null || authenticatedUser == old(authenticatedUser)
    {
      if response.data.Holds? {
        Reset();
      }
    }

    /** Adds a received channel and opens it. */
    method Install(channel: Channel)
      requires Valid()
      modifies this`channels, this`channelMessages, this`openChannel
      ensures Valid() && Held() <= old(Held()) + {channel}
      ensures ChannelStates() == old(ChannelStates())[channel.uid := channel.Value()]
      ensures MessageStates() == old(MessageStates())[channel.uid := []]
      ensures OpenState() == Some(channel.uid)
    {
      AddChannel(channel);
      ghost var held := ChannelStates();
      SetActiveChannel(channel);
      assert ChannelStates() == held;
    }

    /** Adds a received channel to the user and to the session. */
    method Adopt(channel: Channel)
      requires Valid() && authenticatedUser != null && channel !in Held()
      modifies this`channels, this`channelMessages, this`openChannel, authenticatedUser
      ensures Valid() && Held() <= old(Held()) + {channel}
      ensures UserState() == Some(old(authenticatedUser.Value()).(
                                    channels := old(authenticatedUser.channels) + [channel.uid]))
      ensures ChannelStates() == old(ChannelStates())[channel.uid := channel.Value()]
      ensures MessageStates() == old(MessageStates())[channel.uid := []]
      ensures OpenState() == Some(channel.uid)
    {
      authenticatedUser.AddChannel(channel.uid);
      assert ChannelStates() == old(ChannelStates());
      Install(channel);
    }

    method OnCreateChannelResponse(response: CreateChannelResponse)
      requires Valid() && OnChannel(State(), response.Value()).Some?
      requires response.data.Holds? ==> response.data.value !in Held()
      modifies this`channels, this`channelMessages, this`openChannel, authenticatedUser
      ensures Valid() && Some(State()) == OnChannel(old(State()), response.Value())
      ensures Held() <= old(Held()) + if response.data.Holds? then {response.data.value} else {}
    {
      if response.data.Holds? {
        Adopt(response.data.value);
      }
    }

    method DispatchLogin(payload: Text, random: Uuid)
      requires Valid() && DecodeLogin(payload).Got?
      modifies this`authenticatedUser
      ensures Valid() && State() == OnLogin(old(State()), DecodeLogin(payload).value)
      ensures authenticatedUser == old(authenticatedUser) || fresh(authenticatedUser)
    {
      ghost var r, before := DecodeLogin(payload).value, State();
      var response := new LoginResponse(LOGIN, ErrorText([]));
      response.Deserialize(payload, random);
      assert response.Value() == r && State() == before;
      OnLoginResponse(response);
    }

    method DispatchDeleteAccount(payload: Text, random: Uuid)
      requires Valid() && DecodeLogin(payload).Got?
      modifies this
      ensures Valid() && State() == OnDeleteAccount(old(State()), DecodeLogin(payload).value)
      ensures Held() <= old(Held())
      ensures authenticatedUser == null || authenticatedUser == old(authenticatedUser)
    {
      ghost var r, before := DecodeLogin(payload).value, State();
      var response := new LoginResponse(DELETE_ACCOUNT, ErrorText([]));
      response.Deserialize(payload, random);
      assert response.Value() == r && State() == before;
      OnDeleteAccountResponse(response);
    }

    method DispatchChannel(payload: Text, random: Uuid)
      requires Valid() && DecodeChannelReply(payload).Got?
      requires OnChannel(State(), DecodeChannelReply(payload).value).Some?
      modifies this`channels, this`channelMessages, this`openChannel, authenticatedUser
      ensures Valid() && Some(State()) == OnChannel(old(State()), DecodeChannelReply(payload).value)
      ensures forall c :: c in Held() ==> c in old(Held()) || fresh(c)
    {
      ghost var r, before := DecodeChannelReply(payload).value, State();
      var response := new CreateChannelResponse(ErrorText([]));
      response.Deserialize(payload, random);
      assert response.Value() == r && State() == before;
      OnCreateChannelResponse(response);
    }

    method DispatchSend(payload: Text)
      requires Valid() && DecodeMessageReply(payload).Got?
      modifies this`channelMessages, Held()`history
      ensures Valid() && State() == OnSend(old(State()), DecodeMessageReply(payload).value)
    {
      ghost var r, before := DecodeMessageReply(payload).value, State();
      var response := new MessageResponse(SEND_MESSAGE, ErrorText([]));
      response.Deserialize(payload);
      assert response.Value() == r && State() == before;
      OnSendMessageResponse(response);
    }

    method DispatchDelete(payload: Text)
      requires Valid() && DecodeMessageReply(payload).Got?
      modifies this`channelMessages, Held()`history
      ensures Valid() && State() == OnDelete(old(State()), DecodeMessageReply(payload).value)
    {
      ghost var r, before := DecodeMessageReply(payload).value, State();
      var response := new MessageResponse(DELETE_MESSAGE, ErrorText([]));
      response.Deserialize(payload);
      assert response.Value() == r && State() == before;
      OnDeleteMessageResponse(response);
    }

    /** The switch on the operation: decodes the payload and runs its handler. */
    method Dispatch(f: Frame, random: Uuid)
      requires Valid() && ApplyFrame(State(), f).Some?
      modifies this, authenticatedUser, Held()
      ensures Valid() && Some(State()) == ApplyFrame(old(State()), f)
      ensures forall c :: c in Held() ==> c in old(Held()) || fresh(c)
      ensures authenticatedUser == null || authenticatedUser == old(authenticatedUser) || fresh(authenticatedUser)
    {
      if f.operation == LOGIN {
        DispatchLogin(f.payload, random);
      } else if f.operation == CREATE_CHANNEL {
        DispatchChannel(f.payload, random);
      } else if f.operation == SEND_MESSAGE {
        DispatchSend(f.payload);
      } else if f.operation == DELETE_MESSAGE {
        DispatchDelete(f.payload);
      } else if f.operation == DELETE_ACCOUNT {
        DispatchDeleteAccount(f.payload, random);
      } else if f.operation == LIST_ACCOUNTS {
        var response := new ListAccountsResponse(ErrorText([]));
        response.Deserialize(f.payload, random);
      } else if f.operation == REGISTER_ACCOUNT {
        if f.payload[0] != 0 {
          var error := PullError(f.payload);
        }
      }
    }
  }

  /** The socket loop. `socket` is what has arrived, `pending` what each further readiness signal or
      each sleep of a retry will deliver. The log records each header the loop consumes. */
  class TcpClient {
    var socket: Text
    var pending: seq<Text>
    const session: Session
    ghost var log: seq<Option<Frame>>

    ghost function Line(): Link
      reads this`socket, this`pending
    {
      Link(socket, pending)
    }

    constructor (session: Session, pending: seq<Text>)
      ensures this.session == session && Line() == Link([], pending) && log == []
    {
      this.session, this.pending, socket, log := session, pending, [], [];
    }

    /** Delivers the next chunk, if there is one. */
    method Arrive()
      modifies this`socket, this`pending
      ensures Line() == old(Line()).Arrive()
    {
      if pending != [] {
        socket, pending := socket + pending[0], pending[1..];
      }
    }

    /** Consumes the first `n` available bytes. */
    method Read(n: nat) returns (bs: Text)
      requires n <= |socket|
      modifies this`socket
      ensures bs == old(socket)[..n] && socket == old(socket)[n..]
    {
      bs := socket[..n];
      socket := socket[n..];
    }

    /** The objects a frame may change. */
    ghost function Touched(): set<object>
      reads this, session
    {
      {this, session}
      + (if session.authenticatedUser == null then {} else {session.authenticatedUser as object})
      + (set c | c in session.Held() :: c as object)
    }

    /** Waits for `n` bytes, sleeping at most MAX_RETRIES times. The wait succeeds exactly when what is
        there and the chunks of so many sleeps hold enough. */
    method Await(n: nat) returns (arrived: bool)
      modifies this`socket, this`pending
      ensures Line() == Wait(old(Line()), n, MAX_RETRIES)
      ensures arrived <==> |socket| >= n
      ensures var k := if MAX_RETRIES <= |old(pending)| then MAX_RETRIES else |old(pending)|;
        arrived <==> |old(socket)| + |Flatten(old(pending)[..k])| >= n
    {
      WaitReaches(Line(), n, MAX_RETRIES);
      var retries := 0;
      while |socket| < n
        invariant retries <= MAX_RETRIES
        invariant Wait(Line(), n, MAX_RETRIES - retries) == Wait(old(Line()), n, MAX_RETRIES)
        decreases MAX_RETRIES - retries
      {
        retries := retries + 1;
        if retries > MAX_RETRIES {
          return false;
        }
        Arrive();
      }
      return true;
    }

    /** One round of the read loop: a frame, or the reason to return. */
    method ReadFrame() returns (step: Step)
      modifies this`socket, this`pending
      ensures (step, Line()) == Round(old(Line()))
    {
      if |socket| < HEADER_SIZE {
        return NeedHeader;
      }
      var bytes := Read(HEADER_SIZE);
      var h := new Header(0, 0, 0);
      h.Deserialize(bytes);
      if h.version != PROTOCOL_VERSION {
        return VersionMismatch;
      }
      var arrived := Await(h.packetLength);
      if !arrived {
        return TimedOut;
      }
      var payload := Read(h.packetLength);
      return Whole(Frame(h.operation, payload));
    }

    /** Reads one frame, if there is one, and dispatches it. */
    method ReadAndDispatch(random: Uuid) returns (step: Step)
      requires session.Valid()
      requires Round(Line()).0.Whole? ==> ApplyFrame(session.State(), Round(Line()).0.frame).Some?
      modifies Touched()
      ensures session.Valid() && (step, Line()) == Round(old(Line()))
      ensures match step {
        case Whole(f) =>
          log == old(log) + [Some(f)] && Some(session.State()) == ApplyFrame(old(session.State()), f)
        case NeedHeader => log == old(log) && session.State() == old(session.State())
        case _ => log == old(log) + [None] && session.State() == old(session.State())
      }
      ensures forall o :: o in Touched() ==> o in old(Touched()) || fresh(o)
    {
      ghost var v := session.State();
      step := ReadFrame();
      assert session.State() == v;
      match step {
        case Whole(f) =>
          log := log + [Some(f)];
          assert session.State() == v;
          ghost var m := Line();
          session.Dispatch(f, random);
          assert Line() == m;
        case NeedHeader =>
        case _ =>
          log := log + [None];
          assert session.State() == v;
      }
    }

    /** One readiness signal: consumes and dispatches whole frames until one is lacking. */
    method OnReadyRead(random: Uuid)
      requires session.Valid() && ApplyFrames(session.State(), Frames(Ready(Line()).0)).Some?
      modifies Touched()
      ensures session.Valid() && (log, Line()) == (old(log) + Ready(old(Line())).0, Ready(old(Line())).1)
      ensures Some(session.State()) == ApplyFrames(old(session.State()), Frames(Ready(old(Line())).0))
      ensures forall o :: o in Touched() ==> o in old(Touched()) || fresh(o)
    {
      ghost var l, v0 := Line(), session.State();
      ghost var done: seq<Option<Frame>> := [];
      assert log == old(log) + done && done + Ready(l).0 == Ready(l).0;
      while true
        invariant session.Valid() && log == old(log) + done
        invariant (done + Ready(Line()).0, Ready(Line()).1) == Ready(l)
        invariant ApplyFrames(v0, Frames(done)) == Some(session.State())
        invariant ApplyFrames(session.State(), Frames(Ready(Line()).0)).Some?
        invariant forall o :: o in Touched() ==> o in old(Touched()) || fresh(o)
        decreases |Line().Ahead()|
      {
        ghost var v, here := session.State(), Line();
        ReadyStep(done, here);
        if Round(here).0.Whole? {
          DispatchStep(v0, Frames(done), v, Round(here).0.frame, Frames(Ready(Round(here).1).0));
        }
        var step := ReadAndDispatch(random);
        match step {
          case Whole(f) =>
            AppendOne(old(log), done, Some(f));
            done := done + [Some(f)];
          case NeedHeader => return;
          case _ =>
            AppendOne(old(log), done, None);
            return;
        }
      }
    }

    /** The next chunk arrives and signals readiness. */
    method Signal(random: Uuid)
      requires session.Valid() && ApplyFrames(session.State(), Frames(Ready(Line().Arrive()).0)).Some?
      modifies Touched()
      ensures var (more, l) := Ready(old(Line()).Arrive());
        && session.Valid() && log == old(log) + more && Line() == l
        && Some(session.State()) == ApplyFrames(old(session.State()), Frames(more))
      ensures forall o :: o in Touched() ==> o in old(Touched()) || fresh(o)
    {
      ghost var v := session.State();
      Arrive();
      assert session.State() == v;
      OnReadyRead(random);
    }

    /** Runs the client over everything that arrives, one readiness signal per chunk that no sleep has
        taken. */
    method Receive(random: Uuid)
      requires session.Valid() && ApplyFrames(session.State(), Frames(Intake(Line()).0)).Some?
      modifies Touched()
      ensures session.Valid() && (log, Line()) == (old(log) + Intake(old(Line())).0, Intake(old(Line())).1)
      ensures Some(session.State()) == ApplyFrames(old(session.State()), Frames(Intake(old(Line())).0))
      ensures forall o :: o in Touched() ==> o in old(Touched()) || fresh(o)
    {
      ghost var l, v0 := Line(), session.State();
      ghost var done: seq<Option<Frame>> := [];
      assert log == old(log) + done && done + Intake(l).0 == Intake(l).0;
      while pending != []
        invariant session.Valid() && log == old(log) + done
        invariant (done + Intake(Line()).0, Intake(Line()).1) == Intake(l)
        invariant ApplyFrames(v0, Frames(done)) == Some(session.State())
        invariant ApplyFrames(session.State(), Frames(Intake(Line()).0)).Some?
        invariant forall o :: o in Touched() ==> o in old(Touched()) || fresh(o)
        decreases |pending|
      {
        ghost var v, here := session.State(), Line();
        IntakeStep(v0, done, v, here);
        Signal(random);
        AppendLog(old(log), done, Ready(here.Arrive()).0);
        done := done + Ready(here.Arrive()).0;
      }
      assert done + [] == done;
    }
  }

  lemma AppendOne(a: seq<Option<Frame>>, b: seq<Option<Frame>>, x: Option<Frame>)
    ensures a + b + [x] == a + (b + [x])
  {
  }

  lemma AppendLog(a: seq<Option<Frame>>, b: seq<Option<Frame>>, c: seq<Option<Frame>>)
    ensures a + b + c == a + (b + c)
  {
  }

  /** Another readiness signal, in the log and in the session. */
  lemma {:induction false} IntakeStep(v0: SessionVal, done: seq<Option<Frame>>, v: SessionVal, l: Link)
    requires l.pending != [] && ApplyFrames(v0, Frames(done)) == Some(v)
    requires ApplyFrames(v, Frames(Intake(l).0)).Some?
    ensures var (log, m) := Ready(l.Arrive());
      && (done + Intake(l).0, Intake(l).1) == (done + log + Intake(m).0, Intake(m).1)
      && ApplyFrames(v, Frames(log)).Some?
      && ApplyFrames(v0, Frames(done + log)) == ApplyFrames(v, Frames(log))
      && ApplyFrames(ApplyFrames(v, Frames(log)).value, Frames(Intake(m).0)).Some?
  {
    var (log, m) := Ready(l.Arrive());
    AppendLog(done, log, Intake(m).0);
    LogConcat(log, Intake(m).0);
    LogConcat(done, log);
    ApplyConcat(v, Frames(log), Frames(Intake(m).0));
    ApplyConcat(v0, Frames(done), Frames(log));
  }

  /** A new client, run over everything that arrives. */
  method Start(chunks: seq<Text>, random: Uuid) returns (client: TcpClient)
    requires ApplyFrames(EMPTY, Frames(Intake(Link([], chunks)).0)).Some?
    ensures client.session.Valid()
    ensures (client.log, client.Line()) == Intake(Link([], chunks))
    ensures Some(client.session.State()) == ApplyFrames(EMPTY, Frames(client.log))
  {
    var session := new Session();
    client := new TcpClient(session, chunks);
    client.Receive(random);
    assert client.log == [] + Intake(Link([], chunks)).0 == Intake(Link([], chunks)).0;
  }

  /** A client started on a stream that encodes `fs`, cut into chunks, dispatches exactly `fs` if and
      only if every payload arrives in time; and its session is then what handling `fs` gives. */
  method ReceiveStream(ghost fs: seq<Frame>, chunks: seq<Text>, random: Uuid) returns (client: TcpClient)
    requires FramesFit(fs) && Flatten(chunks) == EncodeFrames(fs)
    requires ApplyFrames(EMPTY, Frames(Intake(Link([], chunks)).0)).Some?
    ensures client.session.Valid() && client.log == Intake(Link([], chunks)).0
    ensures Some(client.session.State()) == ApplyFrames(EMPTY, Frames(client.log))
    ensures Frames(client.log) == fs <==> InTime(chunks, fs)
    ensures None !in client.log <==> InTime(chunks, fs)
    ensures InTime(chunks, fs) ==> Some(client.session.State()) == ApplyFrames(EMPTY, fs) && client.socket == []
  {
    DeliveredExactly(chunks, fs);
    client := Start(chunks, random);
  }

  lemma {:induction false} DispatchStep(v0: SessionVal, done: seq<Frame>, v: SessionVal, f: Frame, rest: seq<Frame>)
    requires ApplyFrames(v0, done) == Some(v)
    requires ApplyFrames(v, [f] + rest).Some?
    ensures done + ([f] + rest) == done + [f] + rest
    ensures ApplyFrame(v, f).Some?
    ensures ApplyFrames(v0, done + [f]) == ApplyFrame(v, f)
    ensures ApplyFrames(ApplyFrame(v, f).value, rest).Some?
  {
    assert ([f] + rest)[1..] == rest;
    ApplyConcat(v0, done, [f]);
    ApplyOne(v, f);
  }
}
