/** The cross-table invariants of the server's database, and that every operation keeps them. */
module Consistency {
  import opened Bits
  import opened Bytes
  import opened Lists
  import opened Models
  import opened Tables

  /** Everything is filed under its own id. */
  ghost predicate Keyed(s: DbVal) {
    && (forall u :: u in s.users ==> s.users[u].profile.uid == u)
    && (forall c :: c in s.channels ==> s.channels[c].uid == c)
    && (forall k :: k in s.messages ==> s.messages[k].snowflake == k)
  }

  /** A registered user lists an existing channel exactly as often as the channel lists the user. */
  ghost predicate Symmetric(s: DbVal) {
    forall u, c :: u in s.users && c in s.channels ==>
      multiset(s.users[u].channels)[c] == multiset(s.channels[c].members)[u]
  }

  /** No registered user lists a channel that does not exist. */
  ghost predicate NoDangling(s: DbVal) {
    forall u, c :: u in s.users && c in s.users[u].channels ==> c in s.channels
  }

  /** Every history is strictly increasing, and lists stored messages of its own channel. */
  ghost predicate Ordered(s: DbVal) {
    forall c :: c in s.channels ==>
      && Increasing(s.channels[c].history)
      && forall k :: k in s.channels[c].history ==> k in s.messages && s.messages[k].channel == c
  }

  /** A stored message whose sender is registered is listed in the channel it names. */
  ghost predicate Conserved(s: DbVal) {
    forall k :: k in s.messages && s.messages[k].sender in s.users ==>
      s.messages[k].channel in s.channels && k in s.channels[s.messages[k].channel].history
  }

  ghost predicate NamesUnique(s: DbVal) {
    forall u, v :: u in s.users && v in s.users && s.users[u].profile.username == s.users[v].profile.username ==>
      u == v
  }

  /** Every registered user has a stored password. */
  ghost predicate Secured(s: DbVal) {
    s.users.Keys <= s.passwords.Keys
  }

  ghost predicate Below(s: DbVal, bound: int) {
    forall k :: k in s.messages ==> k < bound
  }

  ghost predicate Consistent(s: DbVal) {
    && Keyed(s) && Symmetric(s) && NoDangling(s) && Ordered(s) && Conserved(s)
    && NamesUnique(s) && Secured(s)
  }

  /** A uid that has not appeared anywhere before. */
  ghost predicate FreshUser(s: DbVal, uid: Uuid) {
    && uid !in s.users && uid !in s.passwords
    && (forall c :: c in s.channels ==> uid !in s.channels[c].members)
    && (forall k :: k in s.messages ==> s.messages[k].sender != uid)
  }

  lemma CountIn<T>(xs: seq<T>, x: T)
    ensures x in xs <==> multiset(xs)[x] > 0
  {
    assert x in xs <==> x in multiset(xs);
  }

  /** Membership seen from either side. */
  lemma {:induction false} MemberBothWays(s: DbVal, u: Uuid, c: Uuid)
    requires Symmetric(s) && u in s.users && c in s.channels
    ensures c in s.users[u].channels <==> u in s.channels[c].members
  {
    CountIn(s.users[u].channels, c);
    CountIn(s.channels[c].members, u);
  }

  /** In a consistent database each stored message is listed exactly once, in the channel it names
      and in no other, or its sender is not registered. */
  lemma {:induction false} ListedExactlyOnce(s: DbVal, k: uint64)
    requires Consistent(s) && k in s.messages
    ensures forall c :: c in s.channels && k in s.channels[c].history ==> c == s.messages[k].channel
    ensures s.messages[k].sender in s.users ==>
      s.messages[k].channel in s.channels && multiset(s.channels[s.messages[k].channel].history)[k] == 1
  {
    if s.messages[k].sender in s.users {
      IncreasingCount(s.channels[s.messages[k].channel].history, k);
    }
  }

  /* Registration */

  lemma {:induction false} AddUserKeeps(s: DbVal, hash: Text -> Text, user: UserVal, password: Text, salt: Text,
                                        bound: int)
    requires Consistent(s) && Below(s, bound) && FreshUser(s, user.profile.uid) && user.channels == []
    requires Finds(s, user.profile.username, None)
    ensures Consistent(AddUser(s, hash, user, password, salt))
    ensures Below(AddUser(s, hash, user, password, salt), bound)
  {
    var s' := AddUser(s, hash, user, password, salt);
    var uid := user.profile.uid;
    forall c | c in s'.channels ensures multiset(s'.channels[c].members)[uid] == 0 {
      CountIn(s'.channels[c].members, uid);
    }
  }

  /* Messages */

  lemma {:induction false} AppendIncreasing(h: seq<uint64>, k: uint64)
    requires Increasing(h) && forall j :: j in h ==> j < k
    ensures Increasing(h + [k])
  {
    assert forall i :: 0 <= i < |h| ==> h[i] in h;
  }

  lemma {:induction false} AddMessageHistories(s: DbVal, m: MessageVal, bound: int)
    requires Ordered(s) && Conserved(s) && Below(s, bound) && m.channel in s.channels && bound <= m.snowflake
    ensures Ordered(AddMessage(s, m).0) && Conserved(AddMessage(s, m).0)
  {
    var h := s.channels[m.channel].history;
    AppendIncreasing(h, m.snowflake);
    assert AddMessage(s, m).0.channels[m.channel].history == h + [m.snowflake];
  }

  lemma {:induction false} AddMessageKeeps(s: DbVal, m: MessageVal, bound: int)
    requires Consistent(s) && Below(s, bound) && m.channel in s.channels && bound <= m.snowflake
    ensures Consistent(AddMessage(s, m).0) && Below(AddMessage(s, m).0, m.snowflake + 1)
  {
    AddMessageHistories(s, m, bound);
  }

  lemma {:induction false} RemoveMessageKeeps(s: DbVal, k: uint64, bound: int)
    requires Consistent(s) && Below(s, bound) && RemoveMessage(s, k).Some?
    ensures Consistent(RemoveMessage(s, k).value.0) && Below(RemoveMessage(s, k).value.0, bound)
  {
    var s' := RemoveMessage(s, k).value.0;
    var h := s.channels[s.messages[k].channel].history;
    MinusIncreasing(h, {k});
    forall x ensures x in Without(h, k) <==> x in h && x != k {
      MinusMembers(h, {k}, x);
    }
  }

  /* Channels */

  lemma {:induction false} AddChannelCounts(s: DbVal, c: ChannelVal, u: Uuid, d: Uuid)
    requires u in s.users
    ensures multiset(AddChannel(s, c).0.users[u].channels)[d]
         == multiset(s.users[u].channels)[d] + if d == c.uid then multiset(c.members)[u] else 0
  {
    RepeatCount(c.uid, multiset(c.members)[u], d);
  }

  lemma {:induction false} AddChannelMembership(s: DbVal, c: ChannelVal)
    requires Symmetric(s) && NoDangling(s) && c.uid !in s.channels
    ensures Symmetric(AddChannel(s, c).0) && NoDangling(AddChannel(s, c).0)
  {
    var s' := AddChannel(s, c).0;
    forall u, d | u in s'.users && d in s'.channels
      ensures multiset(s'.users[u].channels)[d] == multiset(s'.channels[d].members)[u]
    {
      AddChannelCounts(s, c, u, d);
      CountIn(s.users[u].channels, c.uid);
    }
    forall u, d | u in s'.users && d in s'.users[u].channels ensures d in s'.channels {
      AddChannelCounts(s, c, u, d);
      CountIn(s'.users[u].channels, d);
      CountIn(s.users[u].channels, d);
    }
  }

  lemma {:induction false} AddChannelKeeps(s: DbVal, c: ChannelVal, bound: int)
    requires Consistent(s) && Below(s, bound) && c.uid !in s.channels && c.history == []
    ensures Consistent(AddChannel(s, c).0) && Below(AddChannel(s, c).0, bound)
  {
    AddChannelMembership(s, c);
    var s' := AddChannel(s, c).0;
    assert forall d :: d in s.channels ==> s'.channels[d] == s.channels[d];
    assert Ordered(s') && Conserved(s');
  }

  lemma {:induction false} AddUserToChannelMembership(s: DbVal, user: Uuid, channel: Uuid)
    requires Symmetric(s) && NoDangling(s) && AddUserToChannel(s, user, channel).Some?
    ensures Symmetric(AddUserToChannel(s, user, channel).value)
    ensures NoDangling(AddUserToChannel(s, user, channel).value)
  {
    var s' := AddUserToChannel(s, user, channel).value;
    assert s'.users[user].channels == s.users[user].channels + [channel];
    assert s'.channels[channel].members == s.channels[channel].members + [user];
  }

  lemma {:induction false} AddUserToChannelHistories(s: DbVal, user: Uuid, channel: Uuid)
    requires Ordered(s) && Conserved(s) && AddUserToChannel(s, user, channel).Some?
    ensures Ordered(AddUserToChannel(s, user, channel).value)
    ensures Conserved(AddUserToChannel(s, user, channel).value)
  {
    var s' := AddUserToChannel(s, user, channel).value;
    assert forall c :: c in s.channels ==> s'.channels[c].history == s.channels[c].history;
  }

  lemma {:induction false} AddUserToChannelKeeps(s: DbVal, user: Uuid, channel: Uuid, bound: int)
    requires Consistent(s) && Below(s, bound) && AddUserToChannel(s, user, channel).Some?
    ensures Consistent(AddUserToChannel(s, user, channel).value)
    ensures Below(AddUserToChannel(s, user, channel).value, bound)
  {
    AddUserToChannelMembership(s, user, channel);
    AddUserToChannelHistories(s, user, channel);
  }

  /** Adding a member: user and channel list each other once more, and nothing else changes. */
  lemma {:induction false} AddUserToChannelMeaning(s: DbVal, user: Uuid, channel: Uuid)
    ensures AddUserToChannel(s, user, channel).Some? <==> user in s.users && channel in s.channels
    ensures var r := AddUserToChannel(s, user, channel); r.Some? ==>
      var u, c, s' := s.users[user], s.channels[channel], r.value;
      && s'.users[user] == UserVal(u.profile, u.channels + [channel])
      && s'.channels[channel] == ChannelVal(c.uid, c.name, c.members + [user], c.history)
      && s'.users - {user} == s.users - {user} && s'.channels - {channel} == s.channels - {channel}
      && s'.messages == s.messages && s'.passwords == s.passwords
  {
    if AddUserToChannel(s, user, channel).Some? {
      var s' := AddUserToChannel(s, user, channel).value;
      assert s'.users - {user} == s.users - {user};
      assert s'.channels - {channel} == s.channels - {channel};
    }
  }

  lemma {:induction false} RemoveChannelMembership(s: DbVal, channel: Uuid)
    requires Symmetric(s) && NoDangling(s) && RemoveChannel(s, channel).Some?
    ensures Symmetric(RemoveChannel(s, channel).value) && NoDangling(RemoveChannel(s, channel).value)
  {
    var s', c := RemoveChannel(s, channel).value, s.channels[channel];
    forall u, d | u in s.users ensures multiset(s'.users[u].channels)[d]
      == if d == channel then 0 else multiset(s.users[u].channels)[d]
    {
      RemoveTimesCount(s.users[u].channels, channel, multiset(c.members)[u], d);
    }
    forall u, d | u in s'.users && d in s'.users[u].channels ensures d in s'.channels {
      CountIn(s'.users[u].channels, d);
      CountIn(s.users[u].channels, d);
    }
  }

  /** Another channel's messages are not listed in the channel that goes. */
  lemma {:induction false} RemoveChannelHistories(s: DbVal, channel: Uuid)
    requires Ordered(s) && Conserved(s) && RemoveChannel(s, channel).Some?
    ensures Ordered(RemoveChannel(s, channel).value) && Conserved(RemoveChannel(s, channel).value)
  {
  }

  lemma {:induction false} RemoveChannelKeeps(s: DbVal, channel: Uuid, bound: int)
    requires Consistent(s) && Below(s, bound) && RemoveChannel(s, channel).Some?
    ensures Consistent(RemoveChannel(s, channel).value) && Below(RemoveChannel(s, channel).value, bound)
  {
    RemoveChannelMembership(s, channel);
    RemoveChannelHistories(s, channel);
  }

  /** After the members have each lost as many occurrences as they had, nobody lists the channel. */
  lemma {:induction false} RemoveChannelComplete(s: DbVal, channel: Uuid, u: Uuid)
    requires Consistent(s) && RemoveChannel(s, channel).Some? && u in s.users
    ensures channel !in RemoveChannel(s, channel).value.users[u].channels
  {
    var c := s.channels[channel];
    RemoveTimesCount(s.users[u].channels, channel, multiset(c.members)[u], channel);
    CountIn(RemoveChannel(s, channel).value.users[u].channels, channel);
  }

  /** Removing a channel, exactly: the channel goes, with the messages it lists and no other; a user lists
      every other channel as often as before; and no other channel, profile or password changes. */
  lemma {:induction false} RemoveChannelMeaning(s: DbVal, channel: Uuid, u: Uuid, d: Uuid, k: uint64)
    requires Consistent(s) && RemoveChannel(s, channel).Some?
    ensures var s' := RemoveChannel(s, channel).value;
      && s'.channels == s.channels - {channel} && s'.passwords == s.passwords && s'.users.Keys == s.users.Keys
      && (k in s'.messages <==> k in s.messages && k !in s.channels[channel].history)
      && (k in s'.messages ==> s'.messages[k] == s.messages[k])
      && (u in s.users ==>
          && s'.users[u].profile == s.users[u].profile
          && multiset(s'.users[u].channels)[d] == if d == channel then 0 else multiset(s.users[u].channels)[d])
  {
    if u in s.users {
      RemoveTimesCount(s.users[u].channels, channel, multiset(s.channels[channel].members)[u], d);
    }
  }

  /* Account deletion */

  lemma {:induction false} RemoveUserMembership(s: DbVal, user: Uuid)
    requires Symmetric(s) && NoDangling(s) && RemoveUser(s, user).Some?
    ensures Symmetric(RemoveUser(s, user).value.0) && NoDangling(RemoveUser(s, user).value.0)
  {
    var s' := RemoveUser(s, user).value.0;
    forall u, c | u in s'.users && c in s'.channels
      ensures multiset(s'.users[u].channels)[c] == multiset(s'.channels[c].members)[u]
    {
      MinusCount(s.channels[c].members, {user}, u);
    }
  }

  /** What a channel the user belonged to still lists. */
  lemma {:induction false} StillListed(s: DbVal, user: Uuid, c: Uuid, k: uint64)
    requires RemoveUser(s, user).Some? && c in s.channels
    ensures k in RemoveUser(s, user).value.0.channels[c].history <==>
      k in s.channels[c].history && (c in s.users[user].channels ==> k !in SentBy(s.messages, user))
  {
    MinusMembers(s.channels[c].history, SentBy(s.messages, user), k);
  }

  lemma {:induction false} RemoveUserHistories(s: DbVal, user: Uuid)
    requires Ordered(s) && Conserved(s) && RemoveUser(s, user).Some?
    ensures Ordered(RemoveUser(s, user).value.0) && Conserved(RemoveUser(s, user).value.0)
  {
    var s' := RemoveUser(s, user).value.0;
    forall c | c in s'.channels
      ensures Increasing(s'.channels[c].history)
      ensures forall k :: k in s'.channels[c].history ==> k in s.messages && s.messages[k].channel == c
    {
      MinusIncreasing(s.channels[c].history, SentBy(s.messages, user));
      forall k | k in s'.channels[c].history ensures k in s.messages && s.messages[k].channel == c {
        StillListed(s, user, c, k);
      }
    }
    forall k | k in s'.messages && s'.messages[k].sender in s'.users
      ensures s'.messages[k].channel in s'.channels && k in s'.channels[s'.messages[k].channel].history
    {
      StillListed(s, user, s.messages[k].channel, k);
    }
  }

  lemma {:induction false} RemoveUserKeeps(s: DbVal, user: Uuid, bound: int)
    requires Consistent(s) && Below(s, bound) && RemoveUser(s, user).Some?
    ensures Consistent(RemoveUser(s, user).value.0) && Below(RemoveUser(s, user).value.0, bound)
  {
    RemoveUserMembership(s, user);
    RemoveUserHistories(s, user);
  }

  /** Account deletion, exactly: the user is in no channel's member list any more, and everybody else is as
      often as before; a channel the user belonged to keeps every message but the user's, in the order they
      had, and so lists none the user sent; any other channel is untouched; and no message leaves the
      message table. */
  lemma {:induction false} RemoveUserMeaning(s: DbVal, user: Uuid, c: Uuid)
    requires Consistent(s) && RemoveUser(s, user).Some? && c in s.channels
    ensures var s' := RemoveUser(s, user).value.0;
      && s'.users == s.users - {user} && s'.messages == s.messages && s'.passwords == s.passwords
      && s'.channels.Keys == s.channels.Keys
      && Left(s, user, s.channels[c], s'.channels[c])
      && (c !in s.users[user].channels ==> s'.channels[c] == s.channels[c])
  {
    var s' := RemoveUser(s, user).value.0;
    MinusIncreasing(s.channels[c].history, SentBy(s.messages, user));
    forall k ensures k in s'.channels[c].history <==>
      k in s.channels[c].history && (c in s.users[user].channels ==> k !in SentBy(s.messages, user))
    {
      StillListed(s, user, c, k);
    }
    MemberBothWays(s, user, c);
    forall w
      ensures multiset(s'.channels[c].members)[w] == if w == user then 0 else multiset(s.channels[c].members)[w]
    {
      MinusCount(s.channels[c].members, {user}, w);
      CountIn(s.channels[c].members, user);
    }
  }

  /** Channel `d` is channel `c` without a user, and without the user's messages if the user was a member. */
  ghost predicate Left(s: DbVal, user: Uuid, c: ChannelVal, d: ChannelVal)
    requires forall k :: k in c.history ==> k in s.messages
  {
    && d.uid == c.uid && d.name == c.name && Increasing(d.history)
    && (forall w :: multiset(d.members)[w] == if w == user then 0 else multiset(c.members)[w])
    && (forall k :: k in d.history <==> k in c.history && !(user in c.members && s.messages[k].sender == user))
  }

  /** A broadcast reaches exactly the registered users in the member list. */
  lemma {:induction false} BroadcastReaches(members: seq<Uuid>, registered: set<Uuid>, n: Notice, e: Event)
    ensures e in Broadcast(members, registered, n) <==> e.notice == n && e.to in members && e.to in registered
  {
    if members != [] {
      var i := |members| - 1;
      assert members == members[..i] + [members[i]];
      BroadcastReaches(members[..i], registered, n, e);
    }
  }

  /** The signal `e` tells a member of the message's channel that a message of `user` is gone. */
  predicate Retracts(s: DbVal, members: seq<Uuid>, user: Uuid, e: Event) {
    && e.notice.MessageDeleted? && e.to in members && e.to in s.users
    && var m := e.notice.message; m.snowflake in s.messages && s.messages[m.snowflake] == m && m.sender == user
  }

  lemma {:induction false} UnlistReaches(s: DbVal, members: seq<Uuid>, history: seq<uint64>, user: Uuid, e: Event)
    requires Keyed(s)
    ensures e in UnlistEvents(s.messages, s.users.Keys, members, history, user) <==>
      Retracts(s, members, user, e) && e.notice.message.snowflake in history
  {
    if history != [] {
      var n := |history| - 1;
      var k := history[n];
      assert history == history[..n] + [k];
      UnlistReaches(s, members, history[..n], user, e);
      if k in s.messages {
        BroadcastReaches(members, s.users.Keys, MessageDeleted(s.messages[k]), e);
      }
    }
  }

  lemma {:induction false} DepartureReaches(s: DbVal, user: Uuid, cs: seq<Uuid>, e: Event)
    requires Keyed(s) && Ordered(s)
    ensures e in DepartureEvents(s, user, cs) <==>
      && e.notice.MessageDeleted? && e.notice.message.channel in cs && e.notice.message.channel in s.channels
      && var c := s.channels[e.notice.message.channel];
         Retracts(s, Without(c.members, user), user, e) && e.notice.message.snowflake in c.history
  {
    if cs != [] {
      var n := |cs| - 1;
      var front, c := cs[..n], cs[n];
      assert cs == front + [c];
      DepartureReaches(s, user, front, e);
      if c in s.channels {
        UnlistReaches(s, Without(s.channels[c].members, user), s.channels[c].history, user, e);
      }
    }
  }

  /** The signals of an account deletion, exactly: for each stored message the user sent to a channel the
      user belongs to, the other registered members of that channel are told. */
  lemma {:induction false} RemoveUserSignals(s: DbVal, user: Uuid, e: Event)
    requires Consistent(s) && RemoveUser(s, user).Some?
    ensures e in RemoveUser(s, user).value.1 <==>
      && e.notice.MessageDeleted? && e.to in s.users && e.to != user
      && var m := e.notice.message;
         && m.snowflake in s.messages && s.messages[m.snowflake] == m && m.sender == user
         && m.channel in s.users[user].channels && e.to in s.channels[m.channel].members
  {
    DepartureReaches(s, user, s.users[user].channels, e);
    if e.notice.MessageDeleted? && e.notice.message.channel in s.channels {
      MinusMembers(s.channels[e.notice.message.channel].members, {user}, e.to);
    }
  }

  /** What the documentation says of account deletion (README.md): the user's messages leave the
      message table, and a channel with no other member goes too. */
  ghost predicate AsDocumented(s: DbVal, user: Uuid, s': DbVal) {
    && SentBy(s'.messages, user) == {}
    && forall c :: c in s.channels && OnlyMember(s.channels[c], user) ==> c !in s'.channels
  }

  predicate OnlyMember(c: ChannelVal, user: Uuid) {
    c.members != [] && forall i :: 0 <= i < |c.members| ==> c.members[i] == user
  }

  /** The code does what the documentation says exactly when there is nothing of either kind to
      remove: the user has no stored message, and shares each of their channels with somebody. */
  lemma {:induction false} DeletionAsDocumented(s: DbVal, user: Uuid)
    requires Consistent(s) && RemoveUser(s, user).Some?
    ensures AsDocumented(s, user, RemoveUser(s, user).value.0) <==>
      && SentBy(s.messages, user) == {}
      && forall c :: c in s.users[user].channels ==> exists v :: v in s.channels[c].members && v != user
  {
    forall c | c in s.channels
      ensures OnlyMember(s.channels[c], user) <==>
        c in s.users[user].channels && !exists v :: v in s.channels[c].members && v != user
    {
      MemberBothWays(s, user, c);
      var members := s.channels[c].members;
      if OnlyMember(s.channels[c], user) {
        assert members[0] == user;
      }
      if !exists v :: v in members && v != user {
        forall i | 0 <= i < |members| ensures members[i] == user {
          assert members[i] in members;
        }
      }
    }
  }
}
