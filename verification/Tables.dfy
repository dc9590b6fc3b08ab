/** The server's tables as one value, and what each operation of `Database` does to it and emits
    (src/bin/server/db/). Iteration order plays no part here: each operation is stated by its effect
    on every user, channel and message. */
module Tables {
  import opened Bits
  import opened Bytes
  import opened Lists
  import opened Models
  import opened Snowflake

  /** A stored password: the digest of the salted password, and the salt. */
  datatype Secret = Secret(digest: Text, salt: Text)

  datatype DbVal = DbVal(
    users: map<Uuid, UserVal>,
    channels: map<Uuid, ChannelVal>,
    messages: map<uint64, MessageVal>,
    passwords: map<Uuid, Secret>)

  const NO_TABLES := DbVal(map[], map[], map[], map[])

  /** A signal of a user object, with its payload as it was when the signal was emitted. */
  datatype Notice =
    | ChannelAdded(channel: ChannelVal)
    | MessageReceived(message: MessageVal)
    | MessageDeleted(message: MessageVal)

  datatype Event = Event(to: Uuid, notice: Notice)

  const BLANK_PROFILE_PIC: Text := Ascii(":/assets/profile_pics/blank_profile_pic.png")

  /** `unordered_map::insert`: an existing key keeps its value. */
  function Insert<K, V>(m: map<K, V>, k: K, v: V): map<K, V> {
    if k in m then m else m[k := v]
  }

  /** One event for each occurrence of a registered user in a member list, in order. */
  function Broadcast(members: seq<Uuid>, registered: set<Uuid>, notice: Notice): seq<Event> {
    if members == [] then []
    else
      var last := members[|members| - 1];
      Broadcast(members[..|members| - 1], registered, notice)
      + if last in registered then [Event(last, notice)] else []
  }

  /* Users and passwords */

  function Account(uid: Uuid, username: Text, displayName: Text): UserVal {
    UserVal(Profile(uid, username, displayName, BLANK_PROFILE_PIC), [])
  }

  function AddUser(s: DbVal, hash: Text -> Text, user: UserVal, password: Text, salt: Text): DbVal {
    s.(passwords := Insert(s.passwords, user.profile.uid, Secret(hash(password + salt), salt)),
       users := Insert(s.users, user.profile.uid, user))
  }

  /** `None` is the error "User does not exist". */
  function VerifyPassword(s: DbVal, hash: Text -> Text, uid: Uuid, password: Text): Option<bool> {
    if uid in s.passwords then Some(s.passwords[uid].digest == hash(password + s.passwords[uid].salt))
    else None
  }

  /** Whether `r` is what the scan of the user table for a username may return, in some order of
      iteration. */
  ghost predicate Finds(s: DbVal, username: Text, r: Option<Uuid>) {
    match r
    case None => forall u :: u in s.users ==> s.users[u].profile.username != username
    case Some(uid) => uid in s.users && s.users[uid].profile.username == username
  }

  /** What an account search finds in the user table, in some order of iteration. */
  datatype Found = Matching(users: seq<Uuid>) | BadRegex(text: Text)

  /** What becomes of a regular expression: a matcher, or the text of an exception. */
  datatype Regex = Compiled(matches: Text -> bool) | Broken(what: Text)

  /** Exactly the users whose names match, each once. */
  ghost predicate FoundBy(s: DbVal, regex: Regex, found: Found) {
    match regex
    case Broken(what) => found == BadRegex(Ascii("Regex error: ") + what)
    case Compiled(matches) =>
      && found.Matching?
      && (forall u :: u in found.users <==> u in s.users && matches(s.users[u].profile.username))
      && forall i, j :: 0 <= i < j < |found.users| ==> found.users[i] != found.users[j]
  }

  /* Messages */

  function Listed(history: seq<uint64>): set<uint64> {
    set k | k in history
  }

  /** Stores a message and lists it in its channel. */
  function AddMessage(s: DbVal, m: MessageVal): (DbVal, seq<Event>)
    requires m.channel in s.channels
  {
    var c := s.channels[m.channel];
    (s.(messages := Insert(s.messages, m.snowflake, m),
        channels := s.channels[m.channel := c.(history := c.history + [m.snowflake])]),
     Broadcast(c.members, s.users.Keys, MessageReceived(m)))
  }

  /** Sends a message: nothing happens for an unknown channel, or when the generator throws or does not
      return. */
  function PostMessage(s: DbVal, gen: Gen, sender: Uuid, channel: Uuid, text: Text, clock: seq<int>, now: uint64)
    : (r: (DbVal, Gen, seq<Event>))
    requires gen.Valid()
    ensures r.1.Valid()
  {
    if channel !in s.channels then (s, gen, [])
    else
      var (outcome, g) := Next(gen, clock);
      if outcome.Issued? then
        var (s', es) := AddMessage(s, NewMessage(outcome.id, sender, channel, text, now));
        (s', g, es)
      else (s, g, [])
  }

  /** `None`: the message, or the channel it names, does not exist. */
  function RemoveMessage(s: DbVal, snowflake: uint64): Option<(DbVal, seq<Event>)> {
    if snowflake !in s.messages then None
    else
      var m := s.messages[snowflake];
      if m.channel !in s.channels then None
      else
        var c := s.channels[m.channel];
        Some((s.(messages := s.messages - {snowflake},
                 channels := s.channels[m.channel := c.(history := Without(c.history, snowflake))]),
              Broadcast(c.members, s.users.Keys, MessageDeleted(m))))
  }

  function WithChannel(s: DbVal, c: Uuid, v: ChannelVal): DbVal {
    s.(channels := s.channels[c := v])
  }

  lemma {:induction false} WithChannelTwice(s: DbVal, c: Uuid, v: ChannelVal, w: ChannelVal)
    ensures WithChannel(WithChannel(s, c, v), c, w) == WithChannel(s, c, w)
  {
  }

  /* Channels */

  /** Each registered user gains the channel once per occurrence in the member list. */
  function Enrolled(users: map<Uuid, UserVal>, channel: Uuid, members: seq<Uuid>): (r: map<Uuid, UserVal>)
    ensures r.Keys == users.Keys
  {
    map u | u in users ::
      users[u].(channels := users[u].channels + Repeat(channel, multiset(members)[u]))
  }

  /** A registered user gains the channel once. */
  function Enlisted(users: map<Uuid, UserVal>, channel: Uuid, user: Uuid): (r: map<Uuid, UserVal>)
    ensures r.Keys == users.Keys
  {
    if user in users then users[user := users[user].(channels := users[user].channels + [channel])] else users
  }

  /** A registered user loses one occurrence of the channel. */
  function Delisted(users: map<Uuid, UserVal>, channel: Uuid, user: Uuid): (r: map<Uuid, UserVal>)
    ensures r.Keys == users.Keys
  {
    if user in users then users[user := users[user].(channels := RemoveFirst(users[user].channels, channel))]
    else users
  }

  function AddChannel(s: DbVal, c: ChannelVal): (DbVal, seq<Event>) {
    (s.(channels := Insert(s.channels, c.uid, c), users := Enrolled(s.users, c.uid, c.members)),
     Broadcast(c.members, s.users.Keys, ChannelAdded(c)))
  }

  function AddUserToChannel(s: DbVal, user: Uuid, channel: Uuid): Option<DbVal> {
    if user !in s.users || channel !in s.channels then None
    else
      var u, c := s.users[user], s.channels[channel];
      Some(s.(users := s.users[user := u.(channels := u.channels + [channel])],
              channels := s.channels[channel := c.(members := c.members + [user])]))
  }

  /** Each registered user loses one occurrence of the channel per occurrence in the member list. */
  function Dismissed(users: map<Uuid, UserVal>, channel: Uuid, members: seq<Uuid>): (r: map<Uuid, UserVal>)
    ensures r.Keys == users.Keys
  {
    map u | u in users ::
      users[u].(channels := RemoveTimes(users[u].channels, channel, multiset(members)[u]))
  }

  /** The members lose the channel, the messages listed in it go, and so does the channel. `None` is
      the exception for an unknown channel. */
  function RemoveChannel(s: DbVal, channel: Uuid): Option<DbVal> {
    if channel !in s.channels then None
    else
      var c := s.channels[channel];
      Some(s.(users := Dismissed(s.users, channel, c.members),
              messages := s.messages - Listed(c.history),
              channels := s.channels - {channel}))
  }

  /* Account deletion */

  function SentBy(messages: map<uint64, MessageVal>, user: Uuid): set<uint64> {
    set k | k in messages && messages[k].sender == user
  }

  /** A channel the user has left: the user is out of the member list, and the user's stored
      messages are out of the history. */
  function Departed(messages: map<uint64, MessageVal>, user: Uuid, c: ChannelVal): ChannelVal {
    c.(members := Without(c.members, user), history := Minus(c.history, SentBy(messages, user)))
  }

  /** The events of unlisting the user's messages from one channel. */
  function UnlistEvents(messages: map<uint64, MessageVal>, registered: set<Uuid>, members: seq<Uuid>,
                        history: seq<uint64>, user: Uuid): seq<Event> {
    if history == [] then []
    else
      var k := history[|history| - 1];
      UnlistEvents(messages, registered, members, history[..|history| - 1], user)
      + if k in messages && messages[k].sender == user
        then Broadcast(members, registered, MessageDeleted(messages[k])) else []
  }

  /** The events of leaving the channels `cs`, each at its first occurrence. */
  function DepartureEvents(s: DbVal, user: Uuid, cs: seq<Uuid>): seq<Event> {
    if cs == [] then []
    else
      var front, c := cs[..|cs| - 1], cs[|cs| - 1];
      DepartureEvents(s, user, front)
      + if c in s.channels && c !in front
        then UnlistEvents(s.messages, s.users.Keys, Without(s.channels[c].members, user),
                          s.channels[c].history, user)
        else []
  }

  function Abandoned(channels: map<Uuid, ChannelVal>, messages: map<uint64, MessageVal>, user: Uuid,
                     cs: seq<Uuid>): (r: map<Uuid, ChannelVal>)
    ensures r.Keys == channels.Keys
  {
    map c | c in channels :: if c in cs then Departed(messages, user, channels[c]) else channels[c]
  }

  /** `None` is the error "User does not exist". Neither the message table nor the password table
      changes. */
  function RemoveUser(s: DbVal, user: Uuid): Option<(DbVal, seq<Event>)> {
    if user !in s.users then None
    else
      var cs := s.users[user].channels;
      Some((s.(users := s.users - {user},
               channels := Abandoned(s.channels, s.messages, user, cs)),
            DepartureEvents(s, user, cs)))
  }

  /* The same effects, one member at a time */

  lemma {:induction false} EnrolledNobody(users: map<Uuid, UserVal>, channel: Uuid)
    ensures Enrolled(users, channel, []) == users
  {
    forall u | u in users ensures users[u].channels + Repeat(channel, 0) == users[u].channels {
    }
  }

  lemma {:induction false} EnrolledStep(users: map<Uuid, UserVal>, channel: Uuid, members: seq<Uuid>, x: Uuid)
    ensures Enrolled(users, channel, members + [x]) == Enlisted(Enrolled(users, channel, members), channel, x)
  {
    var r := Enrolled(users, channel, members);
    var r' := Enrolled(users, channel, members + [x]);
    forall u | u in users ensures r'[u] == Enlisted(r, channel, x)[u] {
      var n := multiset(members)[u];
      assert multiset(members + [x])[u] == n + if u == x then 1 else 0;
      if u == x {
        AppendMore(users[u].channels, Repeat(channel, n), [channel]);
      }
    }
    assert r' == Enlisted(r, channel, x);
  }

  lemma AppendMore(a: seq<Uuid>, b: seq<Uuid>, c: seq<Uuid>)
    ensures a + (b + c) == a + b + c
  {
  }

  lemma {:induction false} DismissedNobody(users: map<Uuid, UserVal>, channel: Uuid)
    ensures Dismissed(users, channel, []) == users
  {
  }

  lemma {:induction false} DismissedStep(users: map<Uuid, UserVal>, channel: Uuid, members: seq<Uuid>, x: Uuid)
    ensures Dismissed(users, channel, members + [x]) == Delisted(Dismissed(users, channel, members), channel, x)
  {
    var r := Dismissed(users, channel, members);
    var r' := Dismissed(users, channel, members + [x]);
    forall u | u in users
      ensures r'[u] == if u == x then r[u].(channels := RemoveFirst(r[u].channels, channel)) else r[u]
    {
      assert multiset(members + [x])[u] == multiset(members)[u] + if u == x then 1 else 0;
    }
  }

  lemma {:induction false} BroadcastStep(before: seq<Event>, members: seq<Uuid>, i: nat, registered: set<Uuid>,
                                         notice: Notice)
    requires i < |members|
    ensures before + Broadcast(members[..i + 1], registered, notice)
         == before + Broadcast(members[..i], registered, notice)
            + if members[i] in registered then [Event(members[i], notice)] else []
  {
    assert members[..i + 1][..i] == members[..i];
  }

  lemma {:induction false} DepartedTwice(messages: map<uint64, MessageVal>, user: Uuid, c: ChannelVal)
    ensures Departed(messages, user, Departed(messages, user, c)) == Departed(messages, user, c)
  {
    var dead := SentBy(messages, user);
    assert {user} + {user} == {user} && dead + dead == dead;
    MinusTwice(c.members, {user}, {user});
    MinusTwice(c.history, dead, dead);
  }

  lemma {:induction false} AbandonedNothing(channels: map<Uuid, ChannelVal>, messages: map<uint64, MessageVal>,
                                            user: Uuid)
    ensures Abandoned(channels, messages, user, []) == channels
  {
  }

  lemma {:induction false} AbandonedOne(channels: map<Uuid, ChannelVal>, messages: map<uint64, MessageVal>,
                                        user: Uuid, cs: seq<Uuid>, c: Uuid)
    ensures var r := Abandoned(channels, messages, user, cs);
      Abandoned(channels, messages, user, cs + [c])
      == if c in r then r[c := Departed(messages, user, r[c])] else r
  {
    if c in channels {
      DepartedTwice(messages, user, channels[c]);
    }
  }

  lemma {:induction false} AbandonedStep(channels: map<Uuid, ChannelVal>, messages: map<uint64, MessageVal>,
                                         user: Uuid, cs: seq<Uuid>, i: nat)
    requires i < |cs|
    ensures var r, c := Abandoned(channels, messages, user, cs[..i]), cs[i];
      Abandoned(channels, messages, user, cs[..i + 1])
      == if c in r then r[c := Departed(messages, user, r[c])] else r
  {
    assert cs[..i + 1] == cs[..i] + [cs[i]];
    AbandonedOne(channels, messages, user, cs[..i], cs[i]);
  }

  lemma {:induction false} UnlistNobody(messages: map<uint64, MessageVal>, registered: set<Uuid>,
                                        members: seq<Uuid>, history: seq<uint64>, user: Uuid)
    requires forall k :: k in history ==> k !in SentBy(messages, user)
    ensures UnlistEvents(messages, registered, members, history, user) == []
  {
    if history != [] {
      var n := |history| - 1;
      assert history == history[..n] + [history[n]];
      assert history[n] in history;
      UnlistNobody(messages, registered, members, history[..n], user);
    }
  }

  /** The events of leaving one channel, in the state it is in by then. */
  function LeaveEvents(s: DbVal, user: Uuid, channels: map<Uuid, ChannelVal>, c: Uuid): seq<Event> {
    if c in channels then
      UnlistEvents(s.messages, s.users.Keys, Without(channels[c].members, user), channels[c].history, user)
    else []
  }

  /** A second visit to a channel the user has left finds nothing more to unlist. */
  lemma {:induction false} SecondVisit(s: DbVal, user: Uuid, front: seq<Uuid>, c: Uuid)
    ensures LeaveEvents(s, user, Abandoned(s.channels, s.messages, user, front), c)
         == if c in front then [] else LeaveEvents(s, user, s.channels, c)
  {
    if c in s.channels && c in front {
      var left := Departed(s.messages, user, s.channels[c]);
      forall k | k in left.history ensures k !in SentBy(s.messages, user) {
        MinusMembers(s.channels[c].history, SentBy(s.messages, user), k);
      }
      UnlistNobody(s.messages, s.users.Keys, Without(left.members, user), left.history, user);
    }
  }

  lemma {:induction false} DepartureStep(s: DbVal, user: Uuid, cs: seq<Uuid>, i: nat, before: seq<Event>)
    requires i < |cs|
    ensures before + DepartureEvents(s, user, cs[..i + 1])
         == before + DepartureEvents(s, user, cs[..i])
            + LeaveEvents(s, user, Abandoned(s.channels, s.messages, user, cs[..i]), cs[i])
  {
    var front, c := cs[..i], cs[i];
    assert cs[..i + 1][..i] == front;
    SecondVisit(s, user, front, c);
    var more := LeaveEvents(s, user, Abandoned(s.channels, s.messages, user, front), c);
    assert DepartureEvents(s, user, cs[..i + 1]) == DepartureEvents(s, user, front) + more;
  }

  /** The user's stored messages among some snowflakes. */
  function SentAmong(messages: map<uint64, MessageVal>, user: Uuid, ks: seq<uint64>): set<uint64> {
    set k | k in ks && k in messages && messages[k].sender == user
  }

  /** Retracting one message of a user from a channel, if the user sent it. */
  function RetractedFrom(s: DbVal, user: Uuid, channel: Uuid, snowflake: uint64): DbVal
    requires channel in s.channels
  {
    var c := s.channels[channel];
    WithChannel(s, channel, c.(history :=
      if snowflake in s.messages && s.messages[snowflake].sender == user
      then Without(c.history, snowflake) else c.history))
  }

  function RetractEvents(s: DbVal, user: Uuid, snowflake: uint64, members: seq<Uuid>): seq<Event> {
    if snowflake in s.messages && s.messages[snowflake].sender == user
    then Broadcast(members, s.users.Keys, MessageDeleted(s.messages[snowflake])) else []
  }

  /** A channel after the user's messages among `seen` have been retracted. */
  function Unlisted(s: DbVal, channel: Uuid, user: Uuid, seen: seq<uint64>): (r: DbVal)
    requires channel in s.channels
    ensures channel in r.channels && r.messages == s.messages && r.users == s.users
  {
    var c := s.channels[channel];
    WithChannel(s, channel, c.(history := Minus(c.history, SentAmong(s.messages, user, seen))))
  }

  lemma {:induction false} UnlistStart(s: DbVal, channel: Uuid, user: Uuid)
    requires channel in s.channels
    ensures Unlisted(s, channel, user, []) == s
  {
    MinusNothing(s.channels[channel].history, SentAmong(s.messages, user, []));
  }

  /** Once the whole history has been gone through, none of the user's messages is left in it. */
  lemma {:induction false} UnlistedAll(s: DbVal, channel: Uuid, user: Uuid, members: seq<Uuid>)
    requires channel in s.channels
    ensures var c := s.channels[channel];
      var r := WithChannel(s, channel, c.(members := members));
      Unlisted(r, channel, user, c.history)
      == WithChannel(s, channel, c.(members := members, history := Minus(c.history, SentBy(s.messages, user))))
  {
    var c := s.channels[channel];
    var dead := SentAmong(s.messages, user, c.history);
    MinusSame(c.history, dead, SentBy(s.messages, user));
    WithChannelTwice(s, channel, c.(members := members), c.(members := members, history := Minus(c.history, dead)));
  }

  lemma {:induction false} SentAmongStep(messages: map<uint64, MessageVal>, user: Uuid, history: seq<uint64>, i: nat)
    requires i < |history|
    ensures SentAmong(messages, user, history[..i + 1])
         == SentAmong(messages, user, history[..i])
            + if history[i] in messages && messages[history[i]].sender == user then {history[i]} else {}
  {
    assert history[..i + 1] == history[..i] + [history[i]];
  }

  /** Retracting the next message of the history that was found. */
  lemma {:induction false} UnlistedNext(s: DbVal, channel: Uuid, i: nat, user: Uuid)
    requires channel in s.channels && i < |s.channels[channel].history|
    ensures var history := s.channels[channel].history;
      Unlisted(s, channel, user, history[..i + 1])
      == RetractedFrom(Unlisted(s, channel, user, history[..i]), user, channel, history[i])
  {
    var c := s.channels[channel];
    var k, seen := c.history[i], c.history[..i];
    var dead, next := SentAmong(s.messages, user, seen), SentAmong(s.messages, user, c.history[..i + 1]);
    SentAmongStep(s.messages, user, c.history, i);
    MinusTwice(c.history, dead, {k});
    var left := c.(history := Minus(c.history, dead));
    assert Unlisted(s, channel, user, seen).channels[channel] == left;
    if k in s.messages && s.messages[k].sender == user {
      assert Without(left.history, k) == Minus(c.history, next);
    } else {
      assert dead + {} == dead;
    }
    WithChannelTwice(s, channel, left, c.(history := Minus(c.history, next)));
  }

  lemma {:induction false} UnlistEventsNext(s: DbVal, members: seq<Uuid>, history: seq<uint64>, i: nat, user: Uuid)
    requires i < |history|
    ensures UnlistEvents(s.messages, s.users.Keys, members, history[..i + 1], user)
         == UnlistEvents(s.messages, s.users.Keys, members, history[..i], user)
            + RetractEvents(s, user, history[i], members)
  {
    assert history[..i + 1][..i] == history[..i];
  }

  lemma {:induction false} UnlistStep(s: DbVal, members: seq<Uuid>, channel: Uuid, i: nat, user: Uuid,
                                      before: seq<Event>)
    requires channel in s.channels && i < |s.channels[channel].history|
    ensures var history := s.channels[channel].history;
      var k, r := history[i], Unlisted(s, channel, user, history[..i]);
      && Unlisted(s, channel, user, history[..i + 1]) == RetractedFrom(r, user, channel, k)
      && before + UnlistEvents(s.messages, s.users.Keys, members, history[..i + 1], user)
         == before + UnlistEvents(s.messages, s.users.Keys, members, history[..i], user)
            + RetractEvents(r, user, k, members)
  {
    var history := s.channels[channel].history;
    UnlistedNext(s, channel, i, user);
    UnlistEventsNext(s, members, history, i, user);
    assert RetractEvents(Unlisted(s, channel, user, history[..i]), user, history[i], members)
        == RetractEvents(s, user, history[i], members);
    Associative(before, UnlistEvents(s.messages, s.users.Keys, members, history[..i], user),
                RetractEvents(s, user, history[i], members));
  }

  lemma Associative(a: seq<Event>, b: seq<Event>, c: seq<Event>)
    ensures a + (b + c) == a + b + c
  {
  }

  lemma {:induction false} EraseStep(messages: map<uint64, MessageVal>, history: seq<uint64>, i: nat)
    requires i < |history|
    ensures messages - Listed(history[..i + 1])
         == if history[i] in messages - Listed(history[..i])
            then messages - Listed(history[..i]) - {history[i]}
            else messages - Listed(history[..i])
  {
    assert history[..i + 1] == history[..i] + [history[i]];
  }
}
