/** The server's side of one connection: the message handlers, run on the shared database, and the
    frames they and the user's signals write (src/bin/server/model/message_handlers.cpp,
    client_handler.cpp). */
module Handlers {
  import opened Bits
  import opened Bytes
  import opened Consistency
  import opened Models
  import opened Objects
  import opened Packets
  import opened Replay
  import opened Replies
  import opened Requests
  import opened Service
  import opened Snowflake
  import opened Storage
  import opened Tables
  import opened Wire

  lemma {:induction false} WriteMore(before: Text, fs: seq<Frame>, gs: seq<Frame>)
    ensures before + EncodeFrames(fs) + EncodeFrames(gs) == before + EncodeFrames(fs + gs)
  {
    EncodeFramesConcat(fs, gs);
  }

  lemma {:induction false} WriteOne(f: Frame)
    ensures EncodeFrames([f]) == EncodeFrame(f)
  {
    assert [f][1..] == [];
  }

  ghost function UserReply(data: Variant<User>): Reply<Profile>
    reads if data.Holds? then {data.value} else {}
  {
    match data
    case Holds(u) => Ok(u.Wire())
    case ErrorText(t) => Error(t)
  }

  ghost function UsersReply(data: Variant<seq<User>>): Reply<seq<Profile>>
    reads if data.Holds? then data.value else []
  {
    match data
    case Holds(users) => Ok(ListAccountsResponse.Profiles(users))
    case ErrorText(t) => Error(t)
  }

  method RegisteredBytes(error: Option<Text>) returns (bs: Text)
    ensures bs == EncodeFrames([Frame(REGISTER_ACCOUNT, EncodeRegistered(error))])
  {
    var buf := new Buffer();
    var size := if error.None? then 1 else 2 + |error.value|;
    PushHeader(buf, REGISTER_ACCOUNT, size);
    if error.None? {
      buf.PushBack(0);
    } else {
      PushError(buf, error.value);
    }
    WriteOne(Frame(REGISTER_ACCOUNT, EncodeRegistered(error)));
    FrameAppended([], REGISTER_ACCOUNT, EncodeRegistered(error));
    bs := buf.data;
  }

  method AccountsBytes(data: Variant<seq<User>>) returns (bs: Text)
    ensures bs == EncodeFrames([Frame(LIST_ACCOUNTS, EncodeAccounts(UsersReply(data)))])
  {
    var response := new ListAccountsResponse(data);
    var buf := new Buffer();
    response.SerializeMsg(buf);
    WriteOne(Frame(LIST_ACCOUNTS, EncodeAccounts(response.Value())));
    bs := buf.data;
  }

  method ChannelBytes(channel: Channel) returns (bs: Text)
    ensures bs == EncodeFrames([NoticeFrame(ChannelAdded(channel.Value()))])
  {
    var response := new CreateChannelResponse(Holds(channel));
    var buf := new Buffer();
    response.SerializeMsg(buf);
    WriteOne(NoticeFrame(ChannelAdded(channel.Value())));
    bs := buf.data;
  }

  method MessageBytes(operation: byte, message: Message) returns (bs: Text)
    ensures bs == EncodeFrames([Frame(operation, EncodeMessageReply(Ok(message.Value())))])
  {
    var response := new MessageResponse(operation, Holds(message));
    var buf := new Buffer();
    response.SerializeMsg(buf);
    WriteOne(Frame(operation, EncodeMessageReply(Ok(message.Value()))));
    bs := buf.data;
  }

  method UserBytes(operation: byte, data: Variant<User>) returns (bs: Text)
    ensures bs == EncodeFrames([Frame(operation, EncodeLogin(UserReply(data)))])
  {
    var response := new LoginResponse(operation, data);
    var buf := new Buffer();
    response.SerializeMsg(buf);
    WriteOne(Frame(operation, EncodeLogin(UserReply(data))));
    bs := buf.data;
  }

  class ClientHandler {
    const db: Database
    const generator: SnowflakeIDGenerator
    /** The bytes written to the client. */
    const output: Buffer
    var authenticatedUser: User?

    constructor (db: Database, generator: SnowflakeIDGenerator)
      ensures this.db == db && this.generator == generator && authenticatedUser == null
      ensures fresh(output) && output.data == []
    {
      this.db, this.generator, authenticatedUser := db, generator, null;
      output := new Buffer();
    }

    ghost predicate Valid()
      reads db, db.Users(), db.Channels(), generator
    {
      db.Valid() && generator.Valid()
    }

    ghost function State(): ServerVal
      requires generator.Valid()
      reads db, db.Users(), db.Channels(), generator
    {
      ServerVal(db.State(), generator.State())
    }

    /* Signals to frames */

    /** Writes to the client, which leaves the tables alone. */
    method Write(bs: Text)
      modifies output
      ensures output.data == old(output.data) + bs && db.State() == old(db.State())
    {
      output.Insert(bs);
    }

    method WriteChannel(channel: Channel)
      modifies output
      ensures output.data == old(output.data) + EncodeFrames([NoticeFrame(ChannelAdded(channel.Value()))])
      ensures db.State() == old(db.State())
    {
      var bs := ChannelBytes(channel);
      Write(bs);
    }

    method WriteMessage(operation: byte, message: Message)
      modifies output
      ensures output.data == old(output.data)
                             + EncodeFrames([Frame(operation, EncodeMessageReply(Ok(message.Value())))])
      ensures db.State() == old(db.State())
    {
      var bs := MessageBytes(operation, message);
      Write(bs);
    }

    method WriteUser(operation: byte, data: Variant<User>)
      modifies output
      ensures output.data == old(output.data) + EncodeFrames([Frame(operation, EncodeLogin(UserReply(data)))])
      ensures db.State() == old(db.State())
    {
      var bs := UserBytes(operation, data);
      Write(bs);
    }

    method OnMessageReceived(message: Message)
      modifies output
      ensures output.data == old(output.data) + EncodeFrames([NoticeFrame(MessageReceived(message.Value()))])
    {
      WriteMessage(SEND_MESSAGE, message);
    }

    method OnMessageDeleted(message: Message)
      modifies output
      ensures output.data == old(output.data) + EncodeFrames([NoticeFrame(MessageDeleted(message.Value()))])
    {
      WriteMessage(DELETE_MESSAGE, message);
    }

    method OnChannelAdded(channel: Channel)
      modifies output
      ensures output.data == old(output.data) + EncodeFrames([NoticeFrame(ChannelAdded(channel.Value()))])
    {
      WriteChannel(channel);
    }

    /* Login */

    method WriteHistory(history: seq<uint64>)
      modifies output
      ensures output.data == old(output.data) + EncodeFrames(HistoryFrames(db.State(), history))
      ensures db.State() == old(db.State())
    {
      ghost var s := db.State();
      for i := 0 to |history|
        invariant db.State() == s
        invariant output.data == old(output.data) + EncodeFrames(HistoryFrames(s, history[..i]))
      {
        var k := history[i];
        assert history[..i + 1][..i] == history[..i];
        if k in db.messages {
          WriteMore(old(output.data), HistoryFrames(s, history[..i]), [NoticeFrame(MessageReceived(s.messages[k]))]);
          WriteMessage(SEND_MESSAGE, db.messages[k]);
        } else {
          assert HistoryFrames(s, history[..i + 1]) == HistoryFrames(s, history[..i]);
        }
      }
      assert history[..|history|] == history;
    }

    method WriteChannelAndHistory(c: Uuid)
      modifies output
      ensures output.data == old(output.data) + EncodeFrames(ChannelFrames(db.State(), c))
      ensures db.State() == old(db.State())
    {
      if c in db.channels {
        ghost var s := db.State();
        var channel := db.channels[c];
        var history := channel.history;
        assert channel.Value() == s.channels[c];
        WriteMore(output.data, [NoticeFrame(ChannelAdded(s.channels[c]))], HistoryFrames(s, history));
        WriteChannel(channel);
        WriteHistory(history);
      }
    }

    method WriteChannels(cs: seq<Uuid>)
      modifies output
      ensures output.data == old(output.data) + EncodeFrames(ChannelsFrames(db.State(), cs))
      ensures db.State() == old(db.State())
    {
      ghost var s := db.State();
      for i := 0 to |cs|
        invariant db.State() == s
        invariant output.data == old(output.data) + EncodeFrames(ChannelsFrames(s, cs[..i]))
      {
        assert cs[..i + 1][..i] == cs[..i];
        WriteMore(old(output.data), ChannelsFrames(s, cs[..i]), ChannelFrames(s, cs[i]));
        WriteChannelAndHistory(cs[i]);
      }
      assert cs[..|cs|] == cs;
    }

    /** Answers a successful login, and replays the user's channels and their histories. */
    method Accept(uid: Uuid)
      requires uid in db.users
      modifies this`authenticatedUser, output
      ensures db.State() == old(db.State()) && authenticatedUser == db.users[uid]
      ensures output.data == old(output.data) + EncodeFrames(LoginFrames(db.State(), uid))
    {
      ghost var s := db.State();
      var account := db.users[uid];
      assert account.Value() == s.users[uid];
      var channels := account.channels;
      Authenticate(account);
      WriteMore(output.data, [Frame(LOGIN, EncodeLogin(Ok(s.users[uid].profile)))], ChannelsFrames(s, channels));
      WriteUser(LOGIN, Holds(account));
      WriteChannels(channels);
    }

    /** Connects the user's signals to this client. */
    method Authenticate(account: User)
      modifies this`authenticatedUser
      ensures db.State() == old(db.State()) && authenticatedUser == account
    {
      authenticatedUser := account;
    }

    method OnLogin(username: Text, password: Text) returns (outcome: LoginOutcome, ghost user: Option<Uuid>)
      modifies this`authenticatedUser, output
      ensures db.State() == old(db.State())
      ensures Finds(db.State(), username, user)
      ensures outcome == LoginResult(db.State(), db.hash, user, password)
      ensures outcome.Accepted? <==>
        user.Some? && VerifyPassword(db.State(), db.hash, user.value, password) == Some(true)
      ensures output.data == old(output.data) + EncodeFrames(LoginOutput(db.State(), db.hash, user, password))
      ensures outcome.Accepted? ==> authenticatedUser == db.users[user.value]
      ensures !outcome.Accepted? ==> authenticatedUser == old(authenticatedUser)
    {
      var found := db.GetUidFromUsername(username);
      user := found;
      if found.None? {
        return Crashed, user;
      }
      var verified := db.VerifyPassword(found.value, password);
      if verified.None? {
        WriteUser(LOGIN, ErrorText(Ascii("User does not exist")));
        return Refused(Ascii("User does not exist")), user;
      }
      if !verified.value {
        WriteUser(LOGIN, ErrorText(Ascii("Incorrect password")));
        return Refused(Ascii("Incorrect password")), user;
      }
      Accept(found.value);
      return Accepted, user;
    }

    /* The handlers that change the tables. Each does exactly its step. */

    method WriteRegistered(error: Option<Text>)
      modifies output
      ensures output.data == old(output.data) + EncodeFrames([Frame(REGISTER_ACCOUNT, EncodeRegistered(error))])
      ensures db.State() == old(db.State())
    {
      var bs := RegisteredBytes(error);
      Write(bs);
    }

    method NewAccount(username: Text, password: Text, displayName: Text, uid: Uuid, salt: Text)
      requires db.Valid()
      modifies db`passwords, db`users
      ensures db.Valid()
      ensures db.State() == AddUser(old(db.State()), db.hash, Account(uid, username, displayName), password, salt)
    {
      var user := new User(username, displayName, uid, BLANK_PROFILE_PIC);
      assert db.State() == old(db.State());
      db.AddUser(user, password, salt);
    }

    /** `uid` and `salt` are drawn at random. */
    method OnRegisterAccount(username: Text, password: Text, displayName: Text, uid: Uuid, salt: Text)
      requires Valid()
      modifies db`passwords, db`users, output
      ensures db.Valid()
      ensures var s, taken := old(db.State()), Lookup(old(db.State()), username).Some?;
        && db.State() == (if taken then s
                          else AddUser(s, db.hash, Account(uid, username, displayName), password, salt))
        && output.data == old(output.data)
                          + EncodeFrames([Frame(REGISTER_ACCOUNT, EncodeRegistered(RegistrationError(taken)))])
    {
      var found := db.GetUidFromUsername(username);
      if found.Some? {
        WriteRegistered(Some(Ascii("Username already exists")));
      } else {
        NewAccount(username, password, displayName, uid, salt);
        WriteRegistered(None);
      }
    }

    /** The answer to a search: the users found, in the order of the scan, or an error. */
    method FindUsers(regex: Regex) returns (data: Variant<seq<User>>, ghost found: Found)
      ensures FoundBy(db.State(), regex, found)
      ensures SearchReply(db.State(), found) == UsersReply(data)
    {
      var result := db.SearchUsers(regex);
      found := result;
      match result {
        case BadRegex(text) => data := ErrorText(text);
        case Matching(uids) =>
          var users := Registered(uids);
          data := Holds(users);
      }
    }

    method OnListAccounts(regex: Regex) returns (ghost found: Found)
      modifies output
      ensures db.State() == old(db.State()) && FoundBy(old(db.State()), regex, found)
      ensures output.data == old(output.data)
                             + EncodeFrames([Frame(LIST_ACCOUNTS, EncodeAccounts(SearchReply(old(db.State()), found)))])
    {
      ghost var s := db.State();
      var data;
      data, found := FindUsers(regex);
      assert db.State() == s;
      WriteAccounts(data);
    }

    method WriteAccounts(data: Variant<seq<User>>)
      modifies output
      ensures db.State() == old(db.State())
      ensures output.data == old(output.data)
                             + EncodeFrames([Frame(LIST_ACCOUNTS, EncodeAccounts(old(UsersReply(data))))])
    {
      var bs := AccountsBytes(data);
      Write(bs);
    }

    /** The objects of those uids that are in the user table. */
    method Registered(uids: seq<Uuid>) returns (users: seq<User>)
      ensures ListAccountsResponse.Profiles(users) == ProfilesOf(db.State(), uids)
    {
      users := [];
      for i := 0 to |uids|
        invariant ListAccountsResponse.Profiles(users) == ProfilesOf(db.State(), uids[..i])
      {
        assert uids[..i + 1][..i] == uids[..i];
        ghost var before := ListAccountsResponse.Profiles(users);
        if uids[i] in db.users {
          users := users + [db.users[uids[i]]];
          assert ListAccountsResponse.Profiles(users) == before + [db.State().users[uids[i]].profile];
        }
      }
      assert uids[..|uids|] == uids;
    }

    /** Removes an account and answers with the removed user. */
    method Remove(uid: Uuid)
      requires db.Valid() && uid in db.users
      modifies db`users, db`events, db.Channels()`members, db.Channels()`history, output
      ensures db.Valid()
      ensures RemoveUser(old(db.State()), uid).Some?
      ensures var (s, es) := RemoveUser(old(db.State()), uid).value;
        db.State() == s && db.events == old(db.events) + es
      ensures output.data == old(output.data) + EncodeFrames([Frame(DELETE_ACCOUNT, EncodeLogin(
                               Ok(old(db.State()).users[uid].profile)))])
    {
      var account := db.users[uid];
      ghost var profile := account.Wire();
      var removed := db.RemoveUser(uid);
      assert account.Wire() == profile;
      WriteUser(DELETE_ACCOUNT, Holds(account));
    }

    /** Deletes the account the scan finds, if its password is right. */
    method OnDeleteAccount(username: Text, password: Text) returns (ghost user: Option<Uuid>)
      requires db.Valid()
      modifies db`users, db`events, db.Channels()`members, db.Channels()`history, output
      ensures db.Valid() && Finds(old(db.State()), username, user)
      ensures var (s, es) := Deletion(old(db.State()), db.hash, user, password);
        db.State() == s && db.events == old(db.events) + es
      ensures output.data == old(output.data) + EncodeFrames([Frame(DELETE_ACCOUNT, EncodeLogin(
                               DeletionReply(old(db.State()), db.hash, user, password)))])
    {
      var found := db.GetUidFromUsername(username);
      user := found;
      if found.None? {
        WriteUser(DELETE_ACCOUNT, ErrorText(Ascii("Username does not exist")));
        return;
      }
      var verified := db.VerifyPassword(found.value, password);
      if verified.None? {
        WriteUser(DELETE_ACCOUNT, ErrorText(Ascii("User does not exist")));
        return;
      }
      if !verified.value {
        WriteUser(DELETE_ACCOUNT, ErrorText(Ascii("Username and password do not match")));
        return;
      }
      Remove(found.value);
    }

    method OnCreateChannel(name: Text, members: seq<Uuid>, uid: Uuid)
      requires Valid()
      modifies db`channels, db`events, db.Users()`channels
      ensures db.Valid()
      ensures var (s, es) := AddChannel(old(db.State()), ChannelVal(uid, name, members, []));
        db.State() == s && db.events == old(db.events) + es
    {
      var channel := db.AddChannel(name, members, uid);
    }

    method OnSendMessage(sender: Uuid, channel: Uuid, text: Text, clock: seq<int>, now: uint64)
      requires Valid()
      modifies db`messages, db`events, db.Channels()`history, generator
      ensures Valid()
      ensures var (s, gen, es) :=
        PostMessage(old(db.State()), old(generator.State()), sender, channel, text, clock, now);
        db.State() == s && generator.State() == gen && db.events == old(db.events) + es
    {
      var message := db.AddMessage(sender, channel, text, generator, clock, now);
    }

    /** The request's channel uid is not looked at. */
    method OnDeleteMessage(snowflake: uint64)
      requires Valid()
      modifies db`messages, db`events, db.Channels()`history
      ensures db.Valid()
      ensures var r := RemoveMessage(old(db.State()), snowflake);
        && db.State() == (if r.Some? then r.value.0 else old(db.State()))
        && db.events == old(db.events) + if r.Some? then r.value.1 else []
    {
      var removed := db.RemoveMessage(snowflake);
      assert db.events + [] == db.events;
    }

    /* Each handler is the step of the server for its request, and writes its answer. */

    method ServeRegistration(op: Op)
      requires Valid() && op.Register?
      modifies db`passwords, db`users, output
      ensures Valid()
      ensures var (v, es, fs) := Served(old(State()), db.hash, Some(op));
        && State() == v && db.events == old(db.events) + es
        && output.data == old(output.data) + EncodeFrames(fs)
    {
      OnRegisterAccount(op.username, op.password, op.displayName, op.uid, op.salt);
      assert db.events + [] == db.events;
    }

    method ServeLogin(op: Op)
      requires Valid() && NamesUnique(db.State()) && op.LogIn?
      modifies this`authenticatedUser, output
      ensures Valid()
      ensures var (v, es, fs) := Served(old(State()), db.hash, Some(op));
        && State() == v && db.events == old(db.events) + es
        && output.data == old(output.data) + EncodeFrames(fs)
    {
      ghost var v := State();
      var outcome, user := OnLogin(op.username, op.password);
      LoginServed(v, db.hash, op.username, op.password, user);
      assert db.events + [] == db.events;
    }

    method ServeDeletion(op: Op)
      requires Valid() && NamesUnique(db.State()) && op.Unregister?
      modifies db`users, db`events, db.Channels()`members, db.Channels()`history, output
      ensures Valid()
      ensures var (v, es, fs) := Served(old(State()), db.hash, Some(op));
        && State() == v && db.events == old(db.events) + es
        && output.data == old(output.data) + EncodeFrames(fs)
    {
      ghost var v := State();
      ghost var user := OnDeleteAccount(op.username, op.password);
      DeletionServed(v, db.hash, op.username, op.password, user);
    }

    method ServeCreation(op: Op)
      requires Valid() && op.Create?
      modifies db`channels, db`events, db.Users()`channels
      ensures Valid()
      ensures var (v, es, fs) := Served(old(State()), db.hash, Some(op));
        State() == v && db.events == old(db.events) + es && fs == []
    {
      OnCreateChannel(op.name, op.members, op.uid);
    }

    method ServeSend(op: Op)
      requires Valid() && op.Send?
      modifies db`messages, db`events, db.Channels()`history, generator
      ensures Valid()
      ensures var (v, es, fs) := Served(old(State()), db.hash, Some(op));
        State() == v && db.events == old(db.events) + es && fs == []
    {
      OnSendMessage(op.sender, op.channel, op.text, op.clock, op.now);
    }

    method ServeRemoval(op: Op)
      requires Valid() && op.Delete?
      modifies db`messages, db`events, db.Channels()`history
      ensures Valid()
      ensures var (v, es, fs) := Served(old(State()), db.hash, Some(op));
        State() == v && db.events == old(db.events) + es && fs == []
    {
      OnDeleteMessage(op.snowflake);
    }

    method ServeSearch(regex: Regex) returns (ghost found: Found)
      requires Valid()
      modifies output
      ensures Valid() && FoundBy(old(db.State()), regex, found)
      ensures var (v, es, fs) := Served(old(State()), db.hash, Some(Search(found)));
        && State() == v && db.events == old(db.events) + es
        && output.data == old(output.data) + EncodeFrames(fs)
    {
      found := OnListAccounts(regex);
      assert db.events + [] == db.events;
    }

    /** Runs the handler of a request that is not a search. */
    method Serve(op: Op)
      requires Valid() && NamesUnique(db.State()) && FromRequest(op) && !op.Search?
      modifies this`authenticatedUser, output, generator, db`users, db`channels, db`messages, db`passwords, db`events
      modifies db.Users()`channels, db.Channels()`members, db.Channels()`history
      ensures Valid()
      ensures var (v, es, fs) := Served(old(State()), db.hash, Some(op));
        && State() == v && db.events == old(db.events) + es
        && output.data == old(output.data) + EncodeFrames(fs)
    {
      assert output.data + EncodeFrames([]) == output.data;
      match op {
        case Register(_, _, _, _, _) => ServeRegistration(op);
        case LogIn(_, _) => ServeLogin(op);
        case Unregister(_, _) => ServeDeletion(op);
        case Send(_, _, _, _, _) => ServeSend(op);
        case Delete(_) => ServeRemoval(op);
        case Create(_, _, _) => ServeCreation(op);
      }
    }

    /** The switch on the operation of a frame: decodes the payload and runs its handler. A search reports
        what it found. */
    method Dispatch(f: Frame, uid: Uuid, salt: Text, clock: seq<int>, now: uint64, compile: Text -> Regex)
      returns (ghost found: Found)
      requires Valid() && NamesUnique(db.State()) && Readable(f)
      modifies this`authenticatedUser, output, generator, db`users, db`channels, db`messages, db`passwords, db`events
      modifies db.Users()`channels, db.Channels()`members, db.Channels()`history
      ensures Valid()
      ensures var (v, es, fs) := Served(old(State()), db.hash, Asked(f, Draws(uid, salt, clock, now, found)));
        && State() == v && db.events == old(db.events) + es
        && output.data == old(output.data) + EncodeFrames(fs)
      ensures DecodeRequest(f).Some? && DecodeRequest(f).value.value.ListAccounts? ==>
        FoundBy(old(db.State()), compile(DecodeRequest(f).value.value.regex), found)
    {
      found := Matching([]);
      var request := DecodeRequest(f);
      if request.None? {
        assert output.data + EncodeFrames([]) == output.data && db.events + [] == db.events;
      } else if request.value.value.ListAccounts? {
        found := ServeSearch(compile(request.value.value.regex));
      } else {
        Serve(RequestOp(request.value.value, Draws(uid, salt, clock, now, Matching([]))));
      }
    }
  }
}
