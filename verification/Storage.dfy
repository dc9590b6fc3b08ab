/** The server's database object: four tables of shared, mutable user, channel and message objects,
    updated step by step (src/bin/server/db/database.cpp and the four tables beside it). */
module Storage {
  import opened Bits
  import opened Bytes
  import opened Lists
  import opened Models
  import opened Objects
  import opened Snowflake
  import opened Tables

  class Database {
    var users: map<Uuid, User>
    var channels: map<Uuid, Channel>
    var messages: map<uint64, Message>
    var passwords: map<Uuid, Secret>
    /** Every signal emitted so far. */
    var events: seq<Event>
    const hash: Text -> Text

    ghost function Users(): set<User>
      reads this
    {
      set u | u in users :: users[u]
    }

    ghost function Channels(): set<Channel>
      reads this
    {
      set c | c in channels :: channels[c]
    }

    /** Every object is filed under its own id. */
    ghost predicate Valid()
      reads this, Users(), Channels()
    {
      && (forall u :: u in users ==> users[u].uid == u)
      && (forall c :: c in channels ==> channels[c].uid == c)
      && (forall k :: k in messages ==> messages[k].snowflake == k)
    }

    ghost function UserStates(): (r: map<Uuid, UserVal>)
      reads this, Users()
      ensures r.Keys == users.Keys
    {
      map u | u in users :: users[u].Value()
    }

    ghost function ChannelStates(): (r: map<Uuid, ChannelVal>)
      reads this, Channels()
      ensures r.Keys == channels.Keys
    {
      map c | c in channels :: channels[c].Value()
    }

    ghost function MessageStates(): (r: map<uint64, MessageVal>)
      reads this
      ensures r.Keys == messages.Keys
    {
      map k | k in messages :: messages[k].Value()
    }

    ghost function State(): DbVal
      reads this, Users(), Channels()
    {
      DbVal(UserStates(), ChannelStates(), MessageStates(), passwords)
    }

    constructor (hash: Text -> Text)
      ensures this.hash == hash && Valid() && State() == NO_TABLES && events == []
    {
      users, channels, messages, passwords, events := map[], map[], map[], map[], [];
      this.hash := hash;
    }

    /** Scans the user table, whose order of iteration is arbitrary. */
    method GetUidFromUsername(username: Text) returns (r: Option<Uuid>)
      ensures State() == old(State()) && Finds(State(), username, r)
    {
      var rest := users.Keys;
      while rest != {}
        invariant rest <= users.Keys
        invariant forall u :: u in users.Keys - rest ==> users[u].username != username
        decreases rest
      {
        var uid :| uid in rest;
        if users[uid].username == username {
          return Some(uid);
        }
        rest := rest - {uid};
      }
      return None;
    }

    /** Collects the users whose names match. */
    method SearchUsers(regex: Regex) returns (found: Found)
      ensures State() == old(State()) && FoundBy(State(), regex, found)
    {
      match regex {
        case Broken(what) => return BadRegex(Ascii("Regex error: ") + what);
        case Compiled(matches) =>
          var rest, uids: seq<Uuid> := users.Keys, [];
          while rest != {}
            invariant rest <= users.Keys
            invariant forall u :: u in uids <==> u in users.Keys - rest && matches(users[u].username)
            invariant forall i, j :: 0 <= i < j < |uids| ==> uids[i] != uids[j]
            decreases rest
          {
            var uid :| uid in rest;
            if matches(users[uid].username) {
              assert uid !in uids;
              uids := uids + [uid];
            }
            rest := rest - {uid};
          }
          return Matching(uids);
      }
    }

    method VerifyPassword(uid: Uuid, password: Text) returns (r: Option<bool>)
      ensures State() == old(State()) && r == Tables.VerifyPassword(State(), hash, uid, password)
    {
      if uid !in passwords {
        return None;
      }
      var secret := passwords[uid];
      if secret.digest != hash(password + secret.salt) {
        return Some(false);
      }
      return Some(true);
    }

    method AddPassword(uid: Uuid, password: Text, salt: Text)
      modifies this`passwords
      ensures State() == old(State()).(passwords := Insert(old(passwords), uid, Secret(hash(password + salt), salt)))
      ensures uid in old(passwords) ==> passwords == old(passwords)
    {
      passwords := Insert(passwords, uid, Secret(hash(password + salt), salt));
    }

    method FileUser(user: User)
      requires Valid()
      modifies this`users
      ensures Valid() && State() == old(State()).(users := Insert(old(UserStates()), user.uid, user.Value()))
      ensures user.uid in old(users) ==> users == old(users)
    {
      users := Insert(users, user.uid, user);
    }

    method AddUser(user: User, password: Text, salt: Text)
      requires Valid()
      modifies this`passwords, this`users
      ensures Valid() && State() == Tables.AddUser(old(State()), hash, user.Value(), password, salt)
    {
      AddPassword(user.uid, password, salt);
      FileUser(user);
    }

    /** Emits one signal. */
    method Signal(to: Uuid, notice: Notice)
      modifies this`events
      ensures State() == old(State()) && events == old(events) + [Event(to, notice)]
    {
      events := events + [Event(to, notice)];
    }

    /** Emits a signal for each registered occurrence in a member list. */
    method Emit(members: seq<Uuid>, notice: Notice)
      modifies this`events
      ensures State() == old(State())
      ensures events == old(events) + Broadcast(members, users.Keys, notice)
    {
      for i := 0 to |members|
        invariant State() == old(State())
        invariant events == old(events) + Broadcast(members[..i], users.Keys, notice)
      {
        BroadcastStep(old(events), members, i, users.Keys, notice);
        if members[i] in users {
          Signal(members[i], notice);
        }
      }
      assert members[..|members|] == members;
    }

    /* Single steps on the objects held in the tables */

    method List(channel: Uuid, snowflake: uint64)
      requires Valid() && channel in channels
      modifies Channels()`history
      ensures Valid()
      ensures var c := old(ChannelStates()[channel]);
        State() == old(State()).(channels := old(ChannelStates())[channel := c.(history := c.history + [snowflake])])
    {
      ghost var s := State();
      ghost var c := s.channels[channel];
      channels[channel].AddMessage(snowflake);
      assert UserStates() == s.users;
      assert ChannelStates() == s.channels[channel := c.(history := c.history + [snowflake])];
    }

    method Unlist(channel: Uuid, snowflake: uint64)
      requires Valid() && channel in channels
      modifies Channels()`history
      ensures Valid()
      ensures var c := old(ChannelStates()[channel]);
        State() == old(State()).(channels :=
          old(ChannelStates())[channel := c.(history := Without(c.history, snowflake))])
    {
      ghost var s := State();
      ghost var c := s.channels[channel];
      channels[channel].RemoveMessage(snowflake);
      assert UserStates() == s.users;
      assert ChannelStates() == s.channels[channel := c.(history := Without(c.history, snowflake))];
    }

    method GrowMembers(channel: Uuid, user: Uuid)
      requires Valid() && channel in channels
      modifies Channels()`members
      ensures Valid()
      ensures var c := old(ChannelStates()[channel]);
        State() == old(State()).(channels := old(ChannelStates())[channel := c.(members := c.members + [user])])
    {
      ghost var s := State();
      ghost var c := s.channels[channel];
      channels[channel].AddUser(user);
      assert UserStates() == s.users;
      assert ChannelStates() == s.channels[channel := c.(members := c.members + [user])];
    }

    method Gain(user: Uuid, channel: Uuid)
      requires Valid() && user in users
      modifies Users()`channels
      ensures Valid()
      ensures var u := old(UserStates()[user]);
        State() == old(State()).(users := old(UserStates())[user := u.(channels := u.channels + [channel])])
    {
      ghost var s := State();
      ghost var u := s.users[user];
      users[user].AddChannel(channel);
      assert ChannelStates() == s.channels;
      assert UserStates() == s.users[user := u.(channels := u.channels + [channel])];
    }

    method Lose(user: Uuid, channel: Uuid)
      requires Valid() && user in users
      modifies Users()`channels
      ensures Valid()
      ensures var u := old(UserStates()[user]);
        State() == old(State()).(users := old(UserStates())[user := u.(channels := RemoveFirst(u.channels, channel))])
    {
      ghost var s := State();
      ghost var u := s.users[user];
      users[user].RemoveChannel(channel);
      assert ChannelStates() == s.channels;
      assert UserStates() == s.users[user := u.(channels := RemoveFirst(u.channels, channel))];
    }

    method FileMessage(message: Message)
      requires Valid()
      modifies this`messages
      ensures Valid()
      ensures State() == old(State()).(messages := Insert(old(MessageStates()), message.snowflake, message.Value()))
      ensures message.snowflake in old(messages) ==> messages == old(messages)
    {
      ghost var s := State();
      messages := Insert(messages, message.snowflake, message);
      assert MessageStates() == Insert(s.messages, message.snowflake, message.Value());
      assert UserStates() == s.users && ChannelStates() == s.channels;
    }

    method FileChannel(channel: Channel)
      requires Valid()
      modifies this`channels
      ensures Valid()
      ensures State() == old(State()).(channels := Insert(old(ChannelStates()), channel.uid, channel.Value()))
      ensures channel.uid in old(channels) ==> channels == old(channels)
    {
      channels := Insert(channels, channel.uid, channel);
    }

    method EraseMessage(snowflake: uint64)
      requires Valid()
      modifies this`messages
      ensures Valid() && State() == old(State()).(messages := old(MessageStates()) - {snowflake})
    {
      messages := messages - {snowflake};
    }

    method ShrinkMembers(channel: Uuid, user: Uuid)
      requires Valid() && channel in channels
      modifies Channels()`members
      ensures Valid()
      ensures var c := old(ChannelStates()[channel]);
        State() == old(State()).(channels := old(ChannelStates())[channel := c.(members := Without(c.members, user))])
    {
      ghost var s := State();
      ghost var c := s.channels[channel];
      channels[channel].RemoveUser(user);
      assert UserStates() == s.users;
      assert ChannelStates() == s.channels[channel := c.(members := Without(c.members, user))];
    }

    method EraseUser(user: Uuid)
      requires Valid()
      modifies this`users
      ensures Valid() && State() == old(State()).(users := old(UserStates()) - {user})
    {
      users := users - {user};
    }

    method EraseChannel(channel: Uuid)
      requires Valid()
      modifies this`channels
      ensures Valid() && State() == old(State()).(channels := old(ChannelStates()) - {channel})
    {
      channels := channels - {channel};
    }

    /* The operations */

    /** Files a message, lists it in its channel, and signals every registered member. */
    method Post(message: Message)
      requires Valid() && message.channel in channels
      modifies this`messages, this`events, Channels()`history
      ensures Valid()
      ensures var (s, es) := Tables.AddMessage(old(State()), message.Value());
        State() == s && events == old(events) + es
    {
      var members := channels[message.channel].members;
      assert members == old(State()).channels[message.channel].members;
      FileMessage(message);
      List(message.channel, message.snowflake);
      Emit(members, MessageReceived(message.Value()));
    }

    /** Null when the channel does not exist, or when the snowflake generator throws or does not
        return; the tables are then unchanged. */
    method AddMessage(sender: Uuid, channel: Uuid, text: Text, generator: SnowflakeIDGenerator,
                      clock: seq<int>, now: uint64)
      returns (message: Message?)
      requires Valid() && generator.Valid()
      modifies this`messages, this`events, Channels()`history, generator
      ensures Valid() && generator.Valid()
      ensures var (s, g, es) := PostMessage(old(State()), old(generator.State()), sender, channel, text, clock, now);
        State() == s && generator.State() == g && events == old(events) + es
      ensures message != null <==> channel in channels && Next(old(generator.State()), clock).0.Issued?
      ensures message != null ==>
        && fresh(message)
        && message.Value() == NewMessage(Next(old(generator.State()), clock).0.id, sender, channel, text, now)
    {
      if channel !in channels {
        return null;
      }
      message := Message.Create(sender, channel, text, generator, clock, now);
      assert State() == old(State());
      if message != null {
        Post(message);
      }
    }

    /** False when the message, or the channel it names, does not exist. */
    method RemoveMessage(snowflake: uint64) returns (removed: bool)
      requires Valid()
      modifies this`messages, this`events, Channels()`history
      ensures Valid()
      ensures match Tables.RemoveMessage(old(State()), snowflake) {
        case None => !removed && State() == old(State()) && events == old(events)
        case Some((s, es)) => removed && State() == s && events == old(events) + es
      }
    {
      if snowflake !in messages {
        return false;
      }
      var message := messages[snowflake];
      if message.channel !in channels {
        return false;
      }
      var members := channels[message.channel].members;
      assert members == old(State()).channels[message.channel].members;
      EraseMessage(snowflake);
      Emit(members, MessageDeleted(message.Value()));
      Unlist(message.channel, snowflake);
      return true;
    }

    method AddUserToChannel(user: Uuid, channel: Uuid) returns (added: bool)
      requires Valid()
      modifies Users()`channels, Channels()`members
      ensures Valid()
      ensures match Tables.AddUserToChannel(old(State()), user, channel) {
        case None => !added && State() == old(State())
        case Some(s) => added && State() == s
      }
    {
      if user !in users {
        return false;
      }
      if channel !in channels {
        return false;
      }
      Gain(user, channel);
      GrowMembers(channel, user);
      return true;
    }

    /** Gives a registered user a new channel and tells it so. */
    method EnrolOne(user: Uuid, channel: Uuid, added: Notice)
      requires Valid()
      modifies this`events, Users()`channels
      ensures Valid()
      ensures State() == old(State()).(users := Enlisted(old(UserStates()), channel, user))
      ensures events == old(events) + if user in users then [Event(user, added)] else []
    {
      if user in users {
        Gain(user, channel);
        Signal(user, added);
      }
    }

    /** Tells each registered member of a new channel, once per occurrence. */
    method Enrol(channel: Channel)
      requires Valid()
      modifies this`events, Users()`channels
      ensures Valid()
      ensures State() == old(State()).(users := Enrolled(old(UserStates()), channel.uid, channel.members))
      ensures events == old(events) + Broadcast(channel.members, users.Keys, ChannelAdded(channel.Value()))
    {
      var members, uid, added := channel.members, channel.uid, ChannelAdded(channel.Value());
      ghost var s := State();
      EnrolledNobody(s.users, uid);
      for i := 0 to |members|
        invariant Valid()
        invariant State() == s.(users := Enrolled(s.users, uid, members[..i]))
        invariant events == old(events) + Broadcast(members[..i], users.Keys, added)
      {
        assert members[..i + 1] == members[..i] + [members[i]];
        BroadcastStep(old(events), members, i, users.Keys, added);
        EnrolledStep(s.users, uid, members[..i], members[i]);
        EnrolOne(members[i], uid, added);
      }
      assert members[..|members|] == members;
    }

    /** `uid` is the fresh random uid of the new channel. */
    method AddChannel(name: Text, members: seq<Uuid>, uid: Uuid) returns (channel: Channel)
      requires Valid()
      modifies this`channels, this`events, Users()`channels
      ensures Valid() && fresh(channel) && channel.Value() == ChannelVal(uid, name, members, [])
      ensures var (s, es) := Tables.AddChannel(old(State()), ChannelVal(uid, name, members, []));
        State() == s && events == old(events) + es
    {
      channel := new Channel(name, members, uid);
      assert State() == old(State());
      FileChannel(channel);
      assert channel.Value() == ChannelVal(uid, name, members, []);
      Enrol(channel);
    }

    method DismissOne(user: Uuid, channel: Uuid)
      requires Valid()
      modifies Users()`channels
      ensures Valid()
      ensures State() == old(State()).(users := Delisted(old(UserStates()), channel, user))
    {
      if user in users {
        Lose(user, channel);
      }
    }

    method Dismiss(channel: Uuid, members: seq<Uuid>)
      requires Valid()
      modifies Users()`channels
      ensures Valid()
      ensures State() == old(State()).(users := Dismissed(old(UserStates()), channel, members))
    {
      ghost var s := State();
      DismissedNobody(s.users, channel);
      for i := 0 to |members|
        invariant Valid()
        invariant State() == s.(users := Dismissed(s.users, channel, members[..i]))
      {
        assert members[..i + 1] == members[..i] + [members[i]];
        DismissedStep(s.users, channel, members[..i], members[i]);
        DismissOne(members[i], channel);
      }
      assert members[..|members|] == members;
    }

    method EraseMessages(history: seq<uint64>)
      requires Valid()
      modifies this`messages
      ensures Valid()
      ensures State() == old(State()).(messages := old(MessageStates()) - Listed(history))
    {
      ghost var s := State();
      for i := 0 to |history|
        invariant Valid()
        invariant State() == s.(messages := s.messages - Listed(history[..i]))
      {
        EraseStep(s.messages, history, i);
        if history[i] in messages {
          EraseMessage(history[i]);
        }
      }
      assert history[..|history|] == history;
    }

    /** False where the source throws: the channel does not exist. */
    method RemoveChannel(channel: Uuid) returns (removed: bool)
      requires Valid()
      modifies this`messages, this`channels, Users()`channels
      ensures Valid() && events == old(events)
      ensures match Tables.RemoveChannel(old(State()), channel) {
        case None => !removed && State() == old(State())
        case Some(s) => removed && State() == s
      }
    {
      if channel !in channels {
        return false;
      }
      var members, history := channels[channel].members, channels[channel].history;
      assert members == old(State()).channels[channel].members && history == old(State()).channels[channel].history;
      Dismiss(channel, members);
      EraseMessages(history);
      EraseChannel(channel);
      return true;
    }

    /** Unlists a stored message and tells the given members. */
    method Retract(channel: Uuid, snowflake: uint64, members: seq<Uuid>)
      requires Valid() && channel in channels && snowflake in messages
      modifies this`events, Channels()`history
      ensures Valid()
      ensures var s, c := old(State()), old(ChannelStates()[channel]);
        && State() == WithChannel(s, channel, c.(history := Without(c.history, snowflake)))
        && events == old(events) + Broadcast(members, s.users.Keys, MessageDeleted(s.messages[snowflake]))
    {
      Unlist(channel, snowflake);
      Emit(members, MessageDeleted(messages[snowflake].Value()));
    }

    /** Unlists one message from a channel the user has left, if the user sent it. */
    method LeaveOne(channel: Uuid, user: Uuid, snowflake: uint64, members: seq<Uuid>)
      requires Valid() && channel in channels
      modifies this`events, Channels()`history
      ensures Valid()
      ensures State() == RetractedFrom(old(State()), user, channel, snowflake)
      ensures events == old(events) + RetractEvents(old(State()), user, snowflake, members)
    {
      ghost var s := State();
      assert WithChannel(s, channel, s.channels[channel]) == s;
      if snowflake in messages && messages[snowflake].sender == user {
        Retract(channel, snowflake, members);
      }
    }

    /** Takes the user out of a channel and unlists what the user sent there, iterating over the
        history as it was before. */
    method Leave(channel: Uuid, user: Uuid)
      requires Valid() && channel in channels
      modifies this`events, Channels()`members, Channels()`history
      ensures Valid()
      ensures var s := old(State());
        && State() == WithChannel(s, channel, Departed(s.messages, user, s.channels[channel]))
        && events == old(events) + LeaveEvents(s, user, s.channels, channel)
    {
      ghost var s := State();
      ShrinkMembers(channel, user);
      var members, history := channels[channel].members, channels[channel].history;
      assert members == State().channels[channel].members && history == State().channels[channel].history;
      UnlistedAll(s, channel, user, members);
      LeaveHistory(channel, user, history, members);
    }

    method LeaveHistory(channel: Uuid, user: Uuid, history: seq<uint64>, members: seq<Uuid>)
      requires Valid() && channel in channels && history == State().channels[channel].history
      modifies this`events, Channels()`history
      ensures Valid()
      ensures var s := old(State());
        && State() == Unlisted(s, channel, user, history)
        && events == old(events) + UnlistEvents(s.messages, s.users.Keys, members, history, user)
    {
      ghost var s, before := State(), events;
      UnlistStart(s, channel, user);
      assert history[..0] == [] && history[..|history|] == history;
      for i := 0 to |history|
        invariant Valid()
        invariant State() == Unlisted(s, channel, user, history[..i])
        invariant events == before + UnlistEvents(s.messages, s.users.Keys, members, history[..i], user)
      {
        UnlistStep(s, members, channel, i, user, old(events));
        LeaveOne(channel, user, history[i], members);
      }
    }

    method LeaveIfPresent(channel: Uuid, user: Uuid)
      requires Valid()
      modifies this`events, Channels()`members, Channels()`history
      ensures Valid()
      ensures var s := old(State());
        && State() == (if channel in s.channels
                       then WithChannel(s, channel, Departed(s.messages, user, s.channels[channel]))
                       else s)
        && events == old(events) + LeaveEvents(s, user, s.channels, channel)
    {
      if channel in channels {
        Leave(channel, user);
      }
    }

    method LeaveAll(user: Uuid, cs: seq<Uuid>)
      requires Valid()
      modifies this`events, Channels()`members, Channels()`history
      ensures Valid()
      ensures var s := old(State());
        && State() == s.(channels := Abandoned(s.channels, s.messages, user, cs))
        && events == old(events) + DepartureEvents(s, user, cs)
    {
      ghost var s := State();
      AbandonedNothing(s.channels, s.messages, user);
      for i := 0 to |cs|
        invariant Valid()
        invariant State() == s.(channels := Abandoned(s.channels, s.messages, user, cs[..i]))
        invariant events == old(events) + DepartureEvents(s, user, cs[..i])
      {
        AbandonedStep(s.channels, s.messages, user, cs, i);
        DepartureStep(s, user, cs, i, old(events));
        LeaveIfPresent(cs[i], user);
      }
      assert cs[..|cs|] == cs;
    }

    /** False when the user does not exist. */
    method RemoveUser(user: Uuid) returns (removed: bool)
      requires Valid()
      modifies this`users, this`events, Channels()`members, Channels()`history
      ensures Valid()
      ensures match Tables.RemoveUser(old(State()), user) {
        case None => !removed && State() == old(State()) && events == old(events)
        case Some((s, es)) => removed && State() == s && events == old(events) + es
      }
    {
      if user !in users {
        return false;
      }
      var cs := users[user].channels;
      assert cs == State().users[user].channels;
      LeaveAll(user, cs);
      EraseUser(user);
      return true;
    }
  }
}
