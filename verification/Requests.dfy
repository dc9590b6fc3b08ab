/** What the bytes of a request ask of the server, and what they achieve
    (src/bin/server/model/client_handler.cpp, message_handlers.cpp). */
module Requests {
  import opened Bits
  import opened Bytes
  import opened Connection
  import opened Consistency
  import opened Lists
  import opened Live
  import opened Mirror
  import opened Models
  import opened Replay
  import opened Replies
  import opened Service
  import opened Snowflake
  import opened Tables
  import opened Wire

  /** The payload is not read past its end, which the source leaves undefined. */
  predicate Readable(f: Frame) {
    DecodeRequest(f) != Some(Short)
  }

  /** What a handler draws: a random uid and salt, readings of the clock, and what a search finds. */
  datatype Draws = Draws(uid: Uuid, salt: Text, clock: seq<int>, now: uint64, found: Found)

  /** The step a request asks for. */
  function RequestOp(r: Request, d: Draws): Op {
    match r
    case RegisterAccount(username, password, displayName) => Register(username, password, displayName, d.uid, d.salt)
    case Login(username, password) => LogIn(username, password)
    case ListAccounts(_) => Search(d.found)
    case DeleteAccount(username, password) => Unregister(username, password)
    case SendMessage(channel, sender, text) => Send(sender, channel, text, d.clock, d.now)
    case DeleteMessage(_, snowflake) => Delete(snowflake)
    case CreateChannel(name, members) => Create(name, members, d.uid)
  }

  /** The step that a frame asks for; `None` for an unknown operation. */
  function Asked(f: Frame, d: Draws): Option<Op>
    requires Readable(f)
  {
    match DecodeRequest(f)
    case None => None
    case Some(r) => Some(RequestOp(r.value, d))
  }

  /** What a frame does to the server, and what it is answered. */
  ghost function Served(v: ServerVal, hash: Text -> Text, asked: Option<Op>): (ServerVal, seq<Event>, seq<Frame>)
    requires v.gen.Valid()
  {
    match asked
    case None => (v, [], [])
    case Some(op) => (Step(v, hash, op).0, Step(v, hash, op).1, Answers(v.db, hash, op))
  }

  /** With unique names a login does, and is answered, the same whichever user the scan meets first. */
  lemma {:induction false} LoginServed(v: ServerVal, hash: Text -> Text, username: Text, password: Text,
                                       user: Option<Uuid>)
    requires v.gen.Valid() && NamesUnique(v.db) && Finds(v.db, username, user)
    ensures Served(v, hash, Some(LogIn(username, password))) == (v, [], LoginOutput(v.db, hash, user, password))
  {
    ScanIsLookup(v.db, username, user);
  }

  /** So does a deletion of an account. */
  lemma {:induction false} DeletionServed(v: ServerVal, hash: Text -> Text, username: Text, password: Text,
                                          user: Option<Uuid>)
    requires v.gen.Valid() && NamesUnique(v.db) && Finds(v.db, username, user)
    ensures var (s, es) := Deletion(v.db, hash, user, password);
      Served(v, hash, Some(Unregister(username, password)))
      == (v.(db := s), es, [Frame(DELETE_ACCOUNT, EncodeLogin(DeletionReply(v.db, hash, user, password)))])
  {
    DeletionIsStep(v, hash, username, password, user);
    ScanIsLookup(v.db, username, user);
  }

  /** Whatever readable bytes arrive, the step they ask for is one that requests can ask for, and keeps to
      the limits of the wire format. */
  lemma {:induction false} ArrivingOpFits(f: Frame, d: Draws)
    requires Readable(f) && Asked(f, d).Some?
    ensures var op := Asked(f, d).value; FromRequest(op) && OpFits(op)
  {
    DecodedRequestFits(f);
  }

  /** So the server keeps its invariants and its limits whatever readable frames arrive. */
  lemma {:induction false} ServedSound(v: ServerVal, hash: Text -> Text, f: Frame, d: Draws)
    requires Sound(v) && TablesFit(v.db) && Readable(f)
    requires var op := Asked(f, d); op.Some? ==> Enabled(v, op.value)
    ensures var v' := Served(v, hash, Asked(f, d)).0; Sound(v') && TablesFit(v'.db)
  {
    var op := Asked(f, d);
    if op.Some? {
      ArrivingOpFits(f, d);
      StepSound(v, hash, op.value);
      StepFits(v, hash, op.value);
    }
  }

  /** A request that fits does to the server, and is answered, exactly what its sender asked for. */
  lemma {:induction false} RequestServed(r: Request, d: Draws)
    requires RequestFits(r)
    ensures var f := Frame(Operation(r), EncodeRequest(r));
      Readable(f) && Asked(f, d) == Some(RequestOp(r, d))
  {
    RequestRoundTrip(r);
  }

  /* What each of the seven requests achieves, from its bytes on */

  /** The answer to a registration tells the truth: it is read as a success exactly if the account exists
      afterwards. */
  lemma {:induction false} RegistrationAnswered(v: ServerVal, hash: Text -> Text, r: Op)
    requires v.gen.Valid() && r.Register? && Enabled(v, r)
    ensures var fs := Answers(v.db, hash, r);
      && |fs| == 1 && DecodeRegistered(fs[0].payload).Got?
      && (DecodeRegistered(fs[0].payload).value.None? <==> r.uid in Step(v, hash, r).0.db.users)
  {
    RegisteredRoundTrip(RegistrationError(Lookup(v.db, r.username).Some?));
  }

  /** Registering files a user with the names given and no channels, and the digest of the salted password,
      unless the name is taken. */
  lemma {:induction false} RegistrationOutcome(v: ServerVal, hash: Text -> Text, username: Text, password: Text,
                                               displayName: Text, d: Draws)
    requires Sound(v) && FreshUser(v.db, d.uid)
    requires |username| <= 255 && |password| <= 255 && |displayName| <= 255
    ensures var f := Frame(0, EncodeText(username) + EncodeText(password) + EncodeText(displayName));
      && Readable(f)
      && var (v', es, fs) := Served(v, hash, Asked(f, d));
         var s, s' := v.db, v'.db;
         && es == []
         && if exists u :: u in s.users && s.users[u].profile.username == username then
              v' == v && fs == [Frame(0, [1] + EncodeText(Ascii("Username already exists")))]
            else
              && v'.gen == v.gen && s'.channels == s.channels && s'.messages == s.messages
              && s'.users == s.users[d.uid := UserVal(Profile(d.uid, username, displayName, BLANK_PROFILE_PIC), [])]
              && s'.passwords == s.passwords[d.uid := Secret(hash(password + d.salt), d.salt)]
              && fs == [Frame(0, [0])]
  {
    RequestServed(RegisterAccount(username, password, displayName), d);
  }

  /** Logging in changes nothing on the server. With the password of the account, and no other, the answer
      restores the account's session. */
  lemma {:induction false} LoginOutcome(v: ServerVal, hash: Text -> Text, username: Text, password: Text, u: Uuid,
                                        d: Draws)
    requires Sound(v) && TablesFit(v.db) && |username| <= 255 && |password| <= 255
    requires u in v.db.users && v.db.users[u].profile.username == username
    ensures var f, s := Frame(1, EncodeText(username) + EncodeText(password)), v.db;
      && Readable(f)
      && var (v', es, fs) := Served(v, hash, Asked(f, d));
         var right := hash(password + s.passwords[u].salt) == s.passwords[u].digest;
         && v' == v && es == []
         && (ApplyFrames(EMPTY, fs) == Some(Restored(s, s.users[u].profile, s.users[u].channels)) <==> right)
         && (!right ==> fs == [Frame(1, [1] + EncodeText(Ascii("Incorrect password")))])
  {
    RequestServed(Login(username, password), d);
    LoginAnswered(v.db, hash, LogIn(username, password), u, EMPTY);
  }

  lemma {:induction false} AccountsRead(r: Reply<seq<Profile>>)
    requires AccountsFit(r)
    ensures DecodeAccounts(EncodeAccounts(r)).Got? && DecodeAccounts(EncodeAccounts(r)).value == r
  {
    AccountsRoundTrip(r);
  }

  lemma {:induction false} SearchServed(v: ServerVal, hash: Text -> Text, regex: Text, d: Draws)
    requires v.gen.Valid() && |regex| <= 255
    ensures var f := Frame(2, EncodeText(regex));
      && Readable(f)
      && Served(v, hash, Asked(f, d)) == (v, [], [Frame(2, EncodeAccounts(SearchReply(v.db, d.found)))])
  {
    RequestServed(ListAccounts(regex), d);
  }

  /** Searching changes nothing on the server. The client reads in the answer exactly the profiles of the
      registered users whose names match, if they are at most 255. */
  lemma {:induction false} SearchOutcome(v: ServerVal, hash: Text -> Text, regex: Text, matches: Text -> bool, d: Draws)
    requires Sound(v) && TablesFit(v.db) && |regex| <= 255
    requires FoundBy(v.db, Compiled(matches), d.found) && |d.found.users| <= 255
    ensures var f, s := Frame(2, EncodeText(regex)), v.db;
      && Readable(f)
      && var (v', es, fs) := Served(v, hash, Asked(f, d));
         && v' == v && es == [] && |fs| == 1 && fs[0].operation == 2
         && DecodeAccounts(fs[0].payload).Got? && DecodeAccounts(fs[0].payload).value.Ok?
         && ListsMatching(s, matches, DecodeAccounts(fs[0].payload).value.data)
  {
    SearchServed(v, hash, regex, d);
    SearchAnswered(v.db, matches, d.found);
    ProfilesOfFit(v.db, d.found.users);
    AccountsRead(SearchReply(v.db, d.found));
  }

  /** A search whose expression does not compile is answered with the reason. */
  lemma {:induction false} FailedSearchOutcome(v: ServerVal, hash: Text -> Text, regex: Text, what: Text, d: Draws)
    requires Sound(v) && |regex| <= 255 && FoundBy(v.db, Broken(what), d.found)
    ensures var f := Frame(2, EncodeText(regex));
      && Readable(f)
      && Served(v, hash, Asked(f, d)) == (v, [], [Frame(2, [1] + EncodeText(Ascii("Regex error: ") + what))])
  {
    SearchServed(v, hash, regex, d);
  }

  /** Deleting an account, with its password and no other, removes the user from the user table and from all
      member lists, and the user's messages from the histories of the user's channels; the answer is the
      user. Whose connection it was does not matter. */
  lemma {:induction false} AccountDeletionOutcome(v: ServerVal, hash: Text -> Text, username: Text, password: Text,
                                                  u: Uuid, d: Draws)
    requires Sound(v) && |username| <= 255 && |password| <= 255
    requires u in v.db.users && v.db.users[u].profile.username == username
    ensures var f, s := Frame(3, EncodeText(username) + EncodeText(password)), v.db;
      && Readable(f)
      && var (v', es, fs) := Served(v, hash, Asked(f, d));
         if hash(password + s.passwords[u].salt) == s.passwords[u].digest then
           && v'.gen == v.gen && v'.db.users == s.users - {u}
           && v'.db.messages == s.messages && v'.db.passwords == s.passwords
           && v'.db.channels.Keys == s.channels.Keys
           && (forall c :: c in s.channels ==> Left(s, u, s.channels[c], v'.db.channels[c]))
           && fs == [Frame(3, [0] + EncodeProfile(s.users[u].profile))]
         else
           v' == v && es == [] && fs == [Frame(3, [1] + EncodeText(Ascii("Username and password do not match")))]
  {
    var s := v.db;
    RequestServed(DeleteAccount(username, password), d);
    ScanIsLookup(s, username, Some(u));
    forall c | c in s.channels ensures Left(s, u, s.channels[c], RemoveUser(s, u).value.0.channels[c]) {
      RemoveUserMeaning(s, u, c);
    }
  }

  /** Nobody has the name: nothing happens. */
  lemma {:induction false} UnknownAccountOutcome(v: ServerVal, hash: Text -> Text, username: Text, password: Text,
                                                 d: Draws)
    requires Sound(v) && |username| <= 255 && |password| <= 255
    requires forall u :: u in v.db.users ==> v.db.users[u].profile.username != username
    ensures var f := Frame(3, EncodeText(username) + EncodeText(password));
      && Readable(f)
      && Served(v, hash, Asked(f, d)) == (v, [], [Frame(3, [1] + EncodeText(Ascii("Username does not exist")))])
  {
    RequestServed(DeleteAccount(username, password), d);
  }

  /** The message a send leaves behind: the request's sender, channel and text, under the id issued, with the
      time it was handled, and read by its sender. */
  predicate Stores(m: MessageVal, id: int, channel: Uuid, sender: Uuid, text: Text, now: uint64) {
    && m.snowflake == id && m.sender == sender && m.channel == channel && m.text == text
    && m.createdAt == now && m.modifiedAt == now && m.readBy == [sender]
  }

  /** A new message is stored under `id` and listed last in its channel, and nothing else is different. */
  ghost predicate Gains(s: DbVal, s': DbVal, channel: Uuid, id: int)
    requires channel in s.channels
  {
    var c := s.channels[channel];
    && 0 <= id < TWO_64 && id !in s.messages && id in s'.messages && s'.messages - {id} == s.messages
    && s'.channels == s.channels[channel := ChannelVal(c.uid, c.name, c.members, c.history + [id])]
    && s'.users == s.users && s'.passwords == s.passwords
  }

  /** Each registered user is sent the signal as often as listed, and nobody else is. */
  ghost predicate Tells(s: DbVal, members: seq<Uuid>, n: Notice, es: seq<Event>) {
    && (forall e :: e in es ==> e.to in s.users)
    && forall u :: u in s.users ==> FramesFor(u, es) == Repeat(NoticeFrame(n), multiset(members)[u])
  }

  lemma {:induction false} BroadcastTells(s: DbVal, members: seq<Uuid>, n: Notice)
    ensures Tells(s, members, n, Broadcast(members, s.users.Keys, n))
  {
    var es := Broadcast(members, s.users.Keys, n);
    forall e | e in es ensures e.to in s.users {
      BroadcastReaches(members, s.users.Keys, n, e);
    }
    forall u | u in s.users ensures FramesFor(u, es) == Repeat(NoticeFrame(n), multiset(members)[u]) {
      BroadcastFrames(u, members, s.users.Keys, n);
    }
  }

  lemma {:induction false} SendStores(s: DbVal, g: Gen, sender: Uuid, channel: Uuid, text: Text, clock: seq<int>,
                                      now: uint64)
    requires g.Valid() && Keyed(s) && Below(s, Bound(g)) && ClockOk(clock) && channel in s.channels
    requires g.lastTimestamp == -1 || EPOCH <= g.lastTimestamp < EPOCH + CLOCK_SPAN
    requires Next(g, clock).0.Issued?
    ensures var (s', _, es) := PostMessage(s, g, sender, channel, text, clock, now);
      var id := Next(g, clock).0.id;
      && Gains(s, s', channel, id) && Stores(s'.messages[id], id, channel, sender, text, now)
      && Tells(s, s.channels[channel].members, MessageReceived(s'.messages[id]), es)
  {
    DrawnAbove(g, clock);
    var m := NewMessage(Next(g, clock).0.id, sender, channel, text, now);
    BroadcastTells(s, s.channels[channel].members, MessageReceived(m));
    assert s.messages[m.snowflake := m] - {m.snowflake} == s.messages;
  }

  /** Sending to an existing channel stores the message, lists it last, and tells the registered members; it
      changes nothing else. Without an id, or without the channel, nothing happens. The request names the
      channel first. */
  lemma {:induction false} SendOutcome(v: ServerVal, hash: Text -> Text, channel: Uuid, sender: Uuid, text: Text,
                                       d: Draws)
    requires Sound(v) && |text| <= 255 && ClockOk(d.clock) && Next(v.gen, d.clock).0 != NotReturned
    ensures var f, s, outcome := Frame(4, channel + sender + EncodeText(text)), v.db, Next(v.gen, d.clock).0;
      && Readable(f)
      && var (v', es, fs) := Served(v, hash, Asked(f, d));
         && fs == []
         && if channel in s.channels && outcome.Issued? then
              && Gains(s, v'.db, channel, outcome.id)
              && Stores(v'.db.messages[outcome.id], outcome.id, channel, sender, text, d.now)
              && Tells(s, s.channels[channel].members, MessageReceived(v'.db.messages[outcome.id]), es)
            else v' == v && es == []
  {
    RequestServed(SendMessage(channel, sender, text), d);
    DrawnAbove(v.gen, d.clock);
    if channel in v.db.channels && Next(v.gen, d.clock).0.Issued? {
      SendStores(v.db, v.gen, sender, channel, text, d.clock, d.now);
    }
  }

  /** Deleting a stored message removes it from the table and from its channel's history, and tells the
      registered members. The channel that the request names does not matter. */
  lemma {:induction false} MessageDeletionOutcome(v: ServerVal, hash: Text -> Text, named: Uuid, k: uint64, d: Draws)
    requires Sound(v)
    ensures var f, s := Frame(6, named + BigEndian(k, 8)), v.db;
      && Readable(f)
      && var (v', es, fs) := Served(v, hash, Asked(f, d));
         && fs == []
         && if k in s.messages && s.messages[k].channel in s.channels then
              var channel := s.messages[k].channel;
              var c := s.channels[channel];
              && v'.gen == v.gen && v'.db.users == s.users && v'.db.passwords == s.passwords
              && v'.db.messages == s.messages - {k} && v'.db.channels.Keys == s.channels.Keys
              && v'.db.channels - {channel} == s.channels - {channel}
              && var c' := v'.db.channels[channel];
                 && c' == ChannelVal(c.uid, c.name, c.members, c'.history) && Increasing(c'.history)
                 && (forall j :: j in c'.history <==> j in c.history && j != k)
                 && Tells(s, c.members, MessageDeleted(s.messages[k]), es)
            else v' == v && es == []
  {
    RequestServed(DeleteMessage(named, k), d);
    var s := v.db;
    if k in s.messages && s.messages[k].channel in s.channels {
      var c := s.channels[s.messages[k].channel];
      MinusIncreasing(c.history, {k});
      forall j ensures j in Without(c.history, k) <==> j in c.history && j != k {
        MinusMembers(c.history, {k}, j);
      }
      BroadcastTells(s, c.members, MessageDeleted(s.messages[k]));
    }
  }

  /** Creating a channel files it with the name and members given and no messages; each registered user gets
      it as often as listed, and is told. */
  lemma {:induction false} CreationOutcome(v: ServerVal, hash: Text -> Text, name: Text, members: seq<Uuid>, d: Draws)
    requires Sound(v) && |name| <= 255 && |members| <= 255 && d.uid !in v.db.channels
    ensures var f, s := Frame(9, EncodeText(name) + EncodeUuidList(members)), v.db;
      && Readable(f)
      && var (v', es, fs) := Served(v, hash, Asked(f, d));
         var c := ChannelVal(d.uid, name, members, []);
         && v'.gen == v.gen && v'.db.messages == s.messages && v'.db.passwords == s.passwords && fs == []
         && v'.db.channels == s.channels[d.uid := c] && v'.db.users.Keys == s.users.Keys
         && (forall u :: u in s.users ==> v'.db.users[u] == UserVal(
               s.users[u].profile, s.users[u].channels + Repeat(d.uid, multiset(members)[u])))
         && Tells(s, members, ChannelAdded(c), es)
  {
    RequestServed(CreateChannel(name, members), d);
    BroadcastTells(v.db, members, ChannelAdded(ChannelVal(d.uid, name, members, [])));
  }
}
