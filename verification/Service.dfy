/** The server as a state machine: the tables, the snowflake generator, and one step per handler
    (src/bin/server/model/message_handlers.cpp), together with the two database operations no handler
    calls. Handlers run one after another. */
module Service {
  import opened Bits
  import opened Bytes
  import opened Consistency
  import opened Lists
  import opened Models
  import opened Snowflake
  import opened Tables

  datatype ServerVal = ServerVal(db: DbVal, gen: Gen)

  const START := ServerVal(NO_TABLES, Gen(1, 1, -1, 0))

  /** A handler call, with the random values and clock readings it draws. */
  datatype Op =
    | Register(username: Text, password: Text, displayName: Text, uid: Uuid, salt: Text)
    | LogIn(username: Text, password: Text)
    | Unregister(username: Text, password: Text)
    | Create(name: Text, members: seq<Uuid>, uid: Uuid)
    | Send(sender: Uuid, channel: Uuid, text: Text, clock: seq<int>, now: uint64)
    | Delete(snowflake: uint64)
    | Search(found: Found)
    | AddToChannel(user: Uuid, channel: Uuid)
    | DropChannel(channel: Uuid)

  /** The user found by a scan for a username. */
  ghost function Lookup(s: DbVal, username: Text): (r: Option<Uuid>)
    ensures Finds(s, username, r)
  {
    if u :| u in s.users && s.users[u].profile.username == username then Some(u) else None
  }

  /** The inverse of the map from uids to usernames. */
  ghost function Directory(s: DbVal): map<Text, Uuid>
    requires NamesUnique(s)
  {
    map u | u in s.users :: s.users[u].profile.username := u
  }

  /** With unique names, whatever order the scan of the user table takes, it returns what the inverse
      map holds. */
  lemma {:induction false} ScanIsLookup(s: DbVal, username: Text, r: Option<Uuid>)
    requires NamesUnique(s)
    ensures Finds(s, username, r) <==>
      r == if username in Directory(s) then Some(Directory(s)[username]) else None
    ensures Finds(s, username, r) <==> r == Lookup(s, username)
  {
    var d := Directory(s);
    if r.Some? && Finds(s, username, r) {
      assert s.users[r.value].profile.username in d;
    }
    if username in d {
      assert Finds(s, username, Some(d[username]));
    }
  }

  ghost predicate Authentic(s: DbVal, hash: Text -> Text, username: Text, password: Text) {
    var r := Lookup(s, username);
    r.Some? && VerifyPassword(s, hash, r.value, password) == Some(true)
  }

  /** What a handler does to the server, and the signals it emits. A request that fails changes
      nothing. */
  ghost function Step(v: ServerVal, hash: Text -> Text, op: Op): (ServerVal, seq<Event>)
    requires v.gen.Valid()
    ensures Step(v, hash, op).0.gen.Valid()
  {
    var s := v.db;
    match op
    case Register(username, password, displayName, uid, salt) =>
      if Lookup(s, username).Some? then (v, [])
      else (v.(db := AddUser(s, hash, Account(uid, username, displayName), password, salt)), [])
    case LogIn(_, _) => (v, [])
    case Unregister(username, password) =>
      if Authentic(s, hash, username, password) then
        (match RemoveUser(s, Lookup(s, username).value)
         case None => (v, [])
         case Some((s', es)) => (v.(db := s'), es))
      else (v, [])
    case Create(name, members, uid) =>
      var (s', es) := AddChannel(s, ChannelVal(uid, name, members, []));
      (v.(db := s'), es)
    case Send(sender, channel, text, clock, now) =>
      var (s', gen, es) := PostMessage(s, v.gen, sender, channel, text, clock, now);
      (ServerVal(s', gen), es)
    case Delete(snowflake) =>
      (match RemoveMessage(s, snowflake)
       case None => (v, [])
       case Some((s', es)) => (v.(db := s'), es))
    case Search(_) => (v, [])
    case AddToChannel(user, channel) =>
      (match AddUserToChannel(s, user, channel) case None => (v, []) case Some(s') => (v.(db := s'), []))
    case DropChannel(channel) =>
      (match RemoveChannel(s, channel) case None => (v, []) case Some(s') => (v.(db := s'), []))
  }

  /** Readings for which ids are positive 63-bit numbers. */
  predicate ClockOk(clock: seq<int>) {
    forall i :: 0 <= i < |clock| ==> EPOCH <= clock[i] < EPOCH + CLOCK_SPAN
  }

  /** The operations that requests can cause; no handler calls the other two. */
  predicate FromRequest(op: Op) {
    !op.AddToChannel? && !op.DropChannel?
  }

  /** The limits that the request format enforces. */
  predicate OpFits(op: Op) {
    match op
    case Register(username, _, displayName, _, _) => |username| <= 255 && |displayName| <= 255
    case Create(name, members, _) => |name| <= 255 && |members| <= 255
    case Send(_, _, text, _, _) => |text| <= 255
    case _ => true
  }

  /** What the environment promises: random uids are fresh, the clock is in range, and a call of the
      generator returns. */
  ghost predicate Enabled(v: ServerVal, op: Op)
    requires v.gen.Valid()
  {
    match op
    case Register(_, _, _, uid, _) => FreshUser(v.db, uid)
    case Create(_, _, uid) => uid !in v.db.channels
    case Send(_, channel, _, clock, _) => ClockOk(clock) && Next(v.gen, clock).0 != NotReturned
    case Search(Matching(users)) => forall u :: u in users ==> u in v.db.users
    case _ => true
  }

  /** Every issued id is below this. */
  function Bound(g: Gen): int
    requires g.Valid()
  {
    if g.lastTimestamp == -1 then 0 else Pack(g) + 1
  }

  ghost predicate Sound(v: ServerVal) {
    && v.gen.Valid()
    && (v.gen.lastTimestamp == -1 || EPOCH <= v.gen.lastTimestamp < EPOCH + CLOCK_SPAN)
    && Consistent(v.db) && Below(v.db, Bound(v.gen))
  }

  lemma {:induction false} StartSound()
    ensures Sound(START)
  {
  }

  lemma SmallId(id: int)
    requires 0 <= id < TWO_64
    ensures id % TWO_64 == id
  {
  }

  /** The id a send step draws is above all stored ones, and a send that throws leaves the generator
      as it was. */
  lemma {:induction false} DrawnAbove(g: Gen, clock: seq<int>)
    requires g.Valid() && ClockOk(clock) && Next(g, clock).0 != NotReturned
    requires g.lastTimestamp == -1 || EPOCH <= g.lastTimestamp < EPOCH + CLOCK_SPAN
    ensures var (outcome, g') := Next(g, clock);
      && (outcome == ClockMovedBackwards ==> g' == g)
      && (outcome.Issued? ==>
          && EPOCH <= g'.lastTimestamp < EPOCH + CLOCK_SPAN
          && Bound(g) <= outcome.id && Bound(g') == outcome.id + 1
          && 0 <= outcome.id < TWO_64 && outcome.id % TWO_64 == outcome.id)
  {
    NextMeaning(g, clock);
    var (outcome, g') := Next(g, clock);
    if outcome.Issued? {
      FieldRecovery(g');
      SmallId(Pack(g'));
      if g.lastTimestamp != -1 {
        PackMonotone(g, g');
      }
    }
  }

  lemma {:induction false} SendSound(v: ServerVal, sender: Uuid, channel: Uuid, text: Text, clock: seq<int>,
                                     now: uint64)
    requires Sound(v) && ClockOk(clock) && Next(v.gen, clock).0 != NotReturned
    ensures var (s, gen, _) := PostMessage(v.db, v.gen, sender, channel, text, clock, now);
      Sound(ServerVal(s, gen))
  {
    if channel in v.db.channels {
      DrawnAbove(v.gen, clock);
      var (outcome, gen) := Next(v.gen, clock);
      if outcome.Issued? {
        AddMessageKeeps(v.db, NewMessage(outcome.id, sender, channel, text, now), Bound(v.gen));
      }
    }
  }

  lemma {:induction false} AccountsSound(v: ServerVal, hash: Text -> Text, op: Op)
    requires Sound(v) && Enabled(v, op) && (op.Register? || op.Unregister?)
    ensures Sound(Step(v, hash, op).0)
  {
    var s, bound := v.db, Bound(v.gen);
    if op.Register? {
      if Lookup(s, op.username).None? {
        AddUserKeeps(s, hash, Account(op.uid, op.username, op.displayName), op.password, op.salt, bound);
      }
    } else if Authentic(s, hash, op.username, op.password) {
      RemoveUserKeeps(s, Lookup(s, op.username).value, bound);
    }
  }

  /** Every step of the server keeps the tables consistent and the generator ahead of them. */
  lemma {:induction false} StepSound(v: ServerVal, hash: Text -> Text, op: Op)
    requires Sound(v) && Enabled(v, op)
    ensures Sound(Step(v, hash, op).0)
  {
    var s, bound := v.db, Bound(v.gen);
    match op {
      case Register(_, _, _, _, _) => AccountsSound(v, hash, op);
      case LogIn(_, _) =>
      case Unregister(_, _) => AccountsSound(v, hash, op);
      case Create(name, members, uid) =>
        AddChannelKeeps(s, ChannelVal(uid, name, members, []), bound);
      case Send(sender, channel, text, clock, now) => SendSound(v, sender, channel, text, clock, now);
      case Delete(snowflake) =>
        if RemoveMessage(s, snowflake).Some? {
          RemoveMessageKeeps(s, snowflake, bound);
        }
      case Search(_) =>
      case AddToChannel(user, channel) =>
        if AddUserToChannel(s, user, channel).Some? {
          AddUserToChannelKeeps(s, user, channel, bound);
        }
      case DropChannel(channel) =>
        if RemoveChannel(s, channel).Some? {
          RemoveChannelKeeps(s, channel, bound);
        }
    }
  }

  /* The two operations no handler calls */

  lemma {:induction false} MemberAdded(v: ServerVal, hash: Text -> Text, user: Uuid, channel: Uuid)
    requires v.gen.Valid() && user in v.db.users && channel in v.db.channels
    ensures var s' := Step(v, hash, AddToChannel(user, channel)).0.db;
      && s'.users[user].channels == v.db.users[user].channels + [channel]
      && s'.channels[channel].members == v.db.channels[channel].members + [user]
  {
    AddUserToChannelMeaning(v.db, user, channel);
  }

  lemma {:induction false} ChannelDropped(v: ServerVal, hash: Text -> Text, channel: Uuid)
    requires Sound(v) && channel in v.db.channels
    ensures var s' := Step(v, hash, DropChannel(channel)).0.db;
      && s'.channels == v.db.channels - {channel}
      && (forall u :: u in s'.users ==> channel !in s'.users[u].channels)
      && forall k :: k in s'.messages <==> k in v.db.messages && k !in v.db.channels[channel].history
  {
    forall u | u in v.db.users ensures channel !in RemoveChannel(v.db, channel).value.users[u].channels {
      RemoveChannelComplete(v.db, channel, u);
    }
    RemoveChannelMeaning(v.db, channel, NIL, NIL, 0);
    forall k ensures k in RemoveChannel(v.db, channel).value.messages <==>
      k in v.db.messages && k !in v.db.channels[channel].history
    {
      RemoveChannelMeaning(v.db, channel, NIL, NIL, k);
    }
  }

  /* Runs */

  ghost function Run(v: ServerVal, hash: Text -> Text, ops: seq<Op>): (r: ServerVal)
    requires v.gen.Valid()
    ensures r.gen.Valid()
    decreases |ops|
  {
    if ops == [] then v else Run(Step(v, hash, ops[0]).0, hash, ops[1..])
  }

  ghost predicate RunEnabled(v: ServerVal, hash: Text -> Text, ops: seq<Op>)
    requires v.gen.Valid()
    decreases |ops|
  {
    ops == [] || (Enabled(v, ops[0]) && RunEnabled(Step(v, hash, ops[0]).0, hash, ops[1..]))
  }

  lemma {:induction false} RunSound(v: ServerVal, hash: Text -> Text, ops: seq<Op>)
    requires Sound(v) && RunEnabled(v, hash, ops)
    ensures Sound(Run(v, hash, ops))
    decreases |ops|
  {
    if ops != [] {
      StepSound(v, hash, ops[0]);
      RunSound(Step(v, hash, ops[0]).0, hash, ops[1..]);
    }
  }

  /** In every reachable state: members and channels agree, with multiplicity; no user lists a
      channel that is gone; histories are strictly increasing and list stored messages of their
      channel; every stored message of a registered sender is listed; names are unique; and every
      user has a password. */
  lemma {:induction false} ReachableConsistent(hash: Text -> Text, ops: seq<Op>)
    requires RunEnabled(START, hash, ops)
    ensures Consistent(Run(START, hash, ops).db)
  {
    StartSound();
    RunSound(START, hash, ops);
  }

  /* The life of a message */

  /** In one step a message leaves the message table only by being deleted, or with its channel, and
      it never changes while it is there. */
  lemma {:induction false} StepPersists(v: ServerVal, hash: Text -> Text, op: Op, k: uint64)
    requires Sound(v) && Enabled(v, op) && k in v.db.messages
    ensures var s' := Step(v, hash, op).0.db;
      || (k in s'.messages && s'.messages[k] == v.db.messages[k])
      || op == Delete(k)
      || op == DropChannel(v.db.messages[k].channel)
  {
  }

  /** The channel of every stored message exists. */
  ghost predicate Homed(s: DbVal) {
    forall k :: k in s.messages ==> s.messages[k].channel in s.channels
  }

  lemma {:induction false} StepHomed(v: ServerVal, hash: Text -> Text, op: Op)
    requires v.gen.Valid() && Homed(v.db) && FromRequest(op)
    ensures Homed(Step(v, hash, op).0.db)
  {
  }

  lemma {:induction false} RunHomed(v: ServerVal, hash: Text -> Text, ops: seq<Op>)
    requires v.gen.Valid() && Homed(v.db) && AllRequests(ops)
    ensures Homed(Run(v, hash, ops).db)
    decreases |ops|
  {
    if ops != [] {
      StepHomed(v, hash, ops[0]);
      RunHomed(Step(v, hash, ops[0]).0, hash, ops[1..]);
    }
  }

  /** Ids are never used twice, so a message that is gone does not come back. */
  lemma {:induction false} StepStaysGone(v: ServerVal, hash: Text -> Text, op: Op, k: uint64)
    requires Sound(v) && Enabled(v, op) && k !in v.db.messages && k < Bound(v.gen)
    ensures var v' := Step(v, hash, op).0; k !in v'.db.messages && k < Bound(v'.gen)
  {
    if op.Send? && op.channel in v.db.channels {
      DrawnAbove(v.gen, op.clock);
    }
  }

  lemma {:induction false} StaysGone(v: ServerVal, hash: Text -> Text, ops: seq<Op>, k: uint64)
    requires Sound(v) && RunEnabled(v, hash, ops) && k !in v.db.messages && k < Bound(v.gen)
    ensures k !in Run(v, hash, ops).db.messages
    decreases |ops|
  {
    if ops != [] {
      StepSound(v, hash, ops[0]);
      StepStaysGone(v, hash, ops[0], k);
      StaysGone(Step(v, hash, ops[0]).0, hash, ops[1..], k);
    }
  }

  predicate AllRequests(ops: seq<Op>) {
    forall i :: 0 <= i < |ops| ==> FromRequest(ops[i])
  }

  lemma {:induction false} PersistsFrom(v: ServerVal, hash: Text -> Text, ops: seq<Op>, k: uint64)
    requires Sound(v) && Homed(v.db) && RunEnabled(v, hash, ops) && AllRequests(ops) && k in v.db.messages
    ensures var s' := Run(v, hash, ops).db;
      && (k in s'.messages <==> Delete(k) !in ops)
      && (k in s'.messages ==> s'.messages[k] == v.db.messages[k])
    decreases |ops|
  {
    if ops != [] {
      var v' := Step(v, hash, ops[0]).0;
      assert ops == [ops[0]] + ops[1..];
      StepSound(v, hash, ops[0]);
      if ops[0] == Delete(k) {
        StaysGone(v', hash, ops[1..], k);
      } else {
        StepPersists(v, hash, ops[0], k);
        StepHomed(v, hash, ops[0]);
        PersistsFrom(v', hash, ops[1..], k);
      }
    }
  }

  /** Over every run of requests from the empty server, a message that is stored at some point is in the
      message table at any later one exactly when no request has deleted it since, and then unchanged.
      Deleting its sender's account does not remove it. */
  lemma {:induction false} MessagesPersist(hash: Text -> Text, before: seq<Op>, ops: seq<Op>, k: uint64)
    requires RunEnabled(START, hash, before) && AllRequests(before)
    requires RunEnabled(Run(START, hash, before), hash, ops) && AllRequests(ops)
    requires k in Run(START, hash, before).db.messages
    ensures var s, s' := Run(START, hash, before).db, Run(Run(START, hash, before), hash, ops).db;
      && (k in s'.messages <==> Delete(k) !in ops)
      && (k in s'.messages ==> s'.messages[k] == s.messages[k])
  {
    StartSound();
    RunSound(START, hash, before);
    RunHomed(START, hash, before);
    PersistsFrom(Run(START, hash, before), hash, ops, k);
  }

  /** A stored message is listed exactly if it was not sent by a member (`inside`) whose account is gone. */
  ghost predicate Placed(s: DbVal, k: uint64, inside: bool) {
    && k in s.messages && s.messages[k].channel in s.channels
    && var sender, c := s.messages[k].sender, s.channels[s.messages[k].channel];
       && (k in c.history <==> sender in s.users || !inside)
       && (sender in s.users ==> (sender in c.members <==> inside))
  }

  lemma {:induction false} DeparturePlaced(s: DbVal, user: Uuid, k: uint64, inside: bool)
    requires Consistent(s) && RemoveUser(s, user).Some? && Placed(s, k, inside)
    ensures Placed(RemoveUser(s, user).value.0, k, inside)
  {
    var m := s.messages[k];
    StillListed(s, user, m.channel, k);
    MemberBothWays(s, user, m.channel);
    MinusMembers(s.channels[m.channel].members, {user}, m.sender);
  }

  lemma {:induction false} DeletionPlaced(s: DbVal, other: uint64, k: uint64, inside: bool)
    requires Consistent(s) && RemoveMessage(s, other).Some? && Placed(s, k, inside) && other != k
    ensures Placed(RemoveMessage(s, other).value.0, k, inside)
  {
    MinusMembers(s.channels[s.messages[other].channel].history, {other}, k);
  }

  lemma {:induction false} SendPlaced(v: ServerVal, op: Op, k: uint64, inside: bool)
    requires Sound(v) && op.Send? && Enabled(v, op) && Placed(v.db, k, inside)
    ensures Placed(PostMessage(v.db, v.gen, op.sender, op.channel, op.text, op.clock, op.now).0, k, inside)
  {
    DrawnAbove(v.gen, op.clock);
  }

  lemma {:induction false} StepPlaced(v: ServerVal, hash: Text -> Text, op: Op, k: uint64, inside: bool)
    requires Sound(v) && Enabled(v, op) && FromRequest(op) && op != Delete(k) && Placed(v.db, k, inside)
    ensures Placed(Step(v, hash, op).0.db, k, inside)
  {
    var s := v.db;
    if op.Unregister? && Authentic(s, hash, op.username, op.password) {
      DeparturePlaced(s, Lookup(s, op.username).value, k, inside);
    } else if op.Delete? && RemoveMessage(s, op.snowflake).Some? {
      DeletionPlaced(s, op.snowflake, k, inside);
    } else if op.Send? {
      SendPlaced(v, op, k, inside);
    }
  }

  /** Over every run of requests a listed message that no request deletes ends up unlisted exactly if its
      sender was a registered member of the channel and the account has been deleted since; a message of
      anybody else stays listed. */
  lemma {:induction false} ListedUntilDeparture(v: ServerVal, hash: Text -> Text, ops: seq<Op>, k: uint64,
                                                inside: bool)
    requires Sound(v) && RunEnabled(v, hash, ops) && AllRequests(ops) && Delete(k) !in ops
    requires Placed(v.db, k, inside)
    ensures Placed(Run(v, hash, ops).db, k, inside) && Run(v, hash, ops).db.messages[k] == v.db.messages[k]
    decreases |ops|
  {
    if ops != [] {
      assert ops == [ops[0]] + ops[1..];
      StepSound(v, hash, ops[0]);
      StepPlaced(v, hash, ops[0], k, inside);
      StepPersists(v, hash, ops[0], k);
      ListedUntilDeparture(Step(v, hash, ops[0]).0, hash, ops[1..], k, inside);
    }
  }

  /** The same from the empty server: a message listed at some point and never deleted is unlisted later
      exactly if its sender was then a registered member of its channel and is not registered any more. */
  lemma {:induction false} UnlistedExactly(hash: Text -> Text, before: seq<Op>, ops: seq<Op>, c: Uuid, k: uint64)
    requires RunEnabled(START, hash, before) && AllRequests(before)
    requires RunEnabled(Run(START, hash, before), hash, ops) && AllRequests(ops) && Delete(k) !in ops
    requires var s := Run(START, hash, before).db; c in s.channels && k in s.channels[c].history
    ensures var s, s' := Run(START, hash, before).db, Run(Run(START, hash, before), hash, ops).db;
      && k in s.messages && c in s'.channels
      && (k !in s'.channels[c].history <==>
          var sender := s.messages[k].sender;
          sender in s.users && sender in s.channels[c].members && sender !in s'.users)
  {
    ReachableConsistent(hash, before);
    StartSound();
    RunSound(START, hash, before);
    var v := Run(START, hash, before);
    var sender := v.db.messages[k].sender;
    var inside := sender in v.db.users && sender in v.db.channels[c].members;
    ListedUntilDeparture(v, hash, ops, k, inside);
    if !inside && sender in v.db.users {
      assert Placed(v.db, k, false);
    }
  }

  /* Credentials */

  /** The stored secret is the one of a registration, and if the account still exists it has the
      registered name. */
  ghost predicate Holds(s: DbVal, uid: Uuid, username: Text, secret: Secret) {
    && uid in s.passwords && s.passwords[uid] == secret
    && (uid in s.users ==> s.users[uid].profile.username == username)
  }

  lemma {:induction false} StepHolds(v: ServerVal, hash: Text -> Text, op: Op, uid: Uuid, username: Text,
                                     secret: Secret)
    requires Sound(v) && Enabled(v, op) && Holds(v.db, uid, username, secret)
    ensures Holds(Step(v, hash, op).0.db, uid, username, secret)
  {
  }

  lemma {:induction false} RunHolds(v: ServerVal, hash: Text -> Text, ops: seq<Op>, uid: Uuid, username: Text,
                                    secret: Secret)
    requires Sound(v) && RunEnabled(v, hash, ops) && Holds(v.db, uid, username, secret)
    ensures Holds(Run(v, hash, ops).db, uid, username, secret)
    decreases |ops|
  {
    if ops != [] {
      StepSound(v, hash, ops[0]);
      StepHolds(v, hash, ops[0], uid, username, secret);
      RunHolds(Step(v, hash, ops[0]).0, hash, ops[1..], uid, username, secret);
    }
  }

  /** A deleted account never comes back: its password entry stays, so its uid is never fresh. */
  lemma {:induction false} GoneForGood(x: ServerVal, hash: Text -> Text, ops: seq<Op>, u: Uuid)
    requires x.gen.Valid() && RunEnabled(x, hash, ops) && u !in x.db.users && u in x.db.passwords
    ensures u !in Run(x, hash, ops).db.users
    decreases |ops|
  {
    if ops != [] {
      GoneForGood(Step(x, hash, ops[0]).0, hash, ops[1..], u);
    }
  }

  /** A request that deletes the account: it names it, with a password of the right digest. */
  predicate Deletes(op: Op, hash: Text -> Text, username: Text, secret: Secret) {
    op.Unregister? && op.username == username && hash(op.password + secret.salt) == secret.digest
  }

  lemma {:induction false} FoundByName(s: DbVal, uid: Uuid, username: Text, secret: Secret)
    requires NamesUnique(s) && Holds(s, uid, username, secret) && uid in s.users
    ensures Lookup(s, username) == Some(uid)
  {
    ScanIsLookup(s, username, Some(uid));
  }

  lemma {:induction false} StepKeepsAccount(v: ServerVal, hash: Text -> Text, op: Op, uid: Uuid, username: Text,
                                            secret: Secret)
    requires Sound(v) && Holds(v.db, uid, username, secret) && uid in v.db.users
    ensures uid in Step(v, hash, op).0.db.users <==> !Deletes(op, hash, username, secret)
  {
    FoundByName(v.db, uid, username, secret);
  }

  lemma {:induction false} NoneDeletes(ops: seq<Op>, hash: Text -> Text, username: Text, secret: Secret)
    requires ops != []
    ensures (forall i :: 0 <= i < |ops| ==> !Deletes(ops[i], hash, username, secret)) <==>
      && !Deletes(ops[0], hash, username, secret)
      && forall i :: 0 <= i < |ops[1..]| ==> !Deletes(ops[1..][i], hash, username, secret)
  {
    assert ops == [ops[0]] + ops[1..];
  }

  /** An account lasts exactly until a request names it with a password of the right digest. */
  lemma {:induction false} AccountLasts(v: ServerVal, hash: Text -> Text, ops: seq<Op>, uid: Uuid, username: Text,
                                        secret: Secret)
    requires Sound(v) && RunEnabled(v, hash, ops) && Holds(v.db, uid, username, secret) && uid in v.db.users
    ensures uid in Run(v, hash, ops).db.users <==>
      forall i :: 0 <= i < |ops| ==> !Deletes(ops[i], hash, username, secret)
    decreases |ops|
  {
    if ops != [] {
      var v' := Step(v, hash, ops[0]).0;
      StepSound(v, hash, ops[0]);
      StepHolds(v, hash, ops[0], uid, username, secret);
      StepKeepsAccount(v, hash, ops[0], uid, username, secret);
      NoneDeletes(ops, hash, username, secret);
      if Deletes(ops[0], hash, username, secret) {
        GoneForGood(v', hash, ops[1..], uid);
      } else {
        AccountLasts(v', hash, ops[1..], uid, username, secret);
      }
    }
  }

  /** After a registration in a reachable state, under a name no registered user has, the account exists
      until a request deletes it with a password of the registered digest. As long as it exists its
      name leads to it, even if an earlier, deleted account had the name; and the passwords accepted for
      it are exactly those with the registered digest. */
  lemma {:induction false} CredentialsLast(hash: Text -> Text, before: seq<Op>, r: Op, after: seq<Op>, password: Text)
    requires r.Register? && RunEnabled(START, hash, before)
    requires var v := Run(START, hash, before);
      Lookup(v.db, r.username).None? && RunEnabled(v, hash, [r] + after)
    ensures var s := Run(Run(START, hash, before), hash, [r] + after).db;
      var secret := Secret(hash(r.password + r.salt), r.salt);
      && (r.uid in s.users <==> forall i :: 0 <= i < |after| ==> !Deletes(after[i], hash, r.username, secret))
      && (r.uid in s.users ==>
          && Lookup(s, r.username) == Some(r.uid)
          && (Authentic(s, hash, r.username, password) <==> hash(password + r.salt) == secret.digest))
  {
    StartSound();
    RunSound(START, hash, before);
    var v := Run(START, hash, before);
    assert ([r] + after)[1..] == after;
    StepSound(v, hash, r);
    RegisteredThen(Step(v, hash, r).0, hash, r, after, password);
  }

  lemma {:induction false} RegisteredThen(v: ServerVal, hash: Text -> Text, r: Op, after: seq<Op>, password: Text)
    requires Sound(v) && RunEnabled(v, hash, after) && r.Register? && r.uid in v.db.users
    requires Holds(v.db, r.uid, r.username, Secret(hash(r.password + r.salt), r.salt))
    ensures var s := Run(v, hash, after).db;
      var secret := Secret(hash(r.password + r.salt), r.salt);
      && (r.uid in s.users <==> forall i :: 0 <= i < |after| ==> !Deletes(after[i], hash, r.username, secret))
      && (r.uid in s.users ==>
          && Lookup(s, r.username) == Some(r.uid)
          && (Authentic(s, hash, r.username, password) <==> hash(password + r.salt) == secret.digest))
  {
    var secret := Secret(hash(r.password + r.salt), r.salt);
    RunSound(v, hash, after);
    RunHolds(v, hash, after, r.uid, r.username, secret);
    AccountLasts(v, hash, after, r.uid, r.username, secret);
    var s := Run(v, hash, after).db;
    if r.uid in s.users {
      FoundByName(s, r.uid, r.username, secret);
    }
  }

  /** If no other password that fits a request has the registered digest, only the registered password
      is accepted. */
  lemma {:induction false} OnlyThePassword(hash: Text -> Text, before: seq<Op>, r: Op, after: seq<Op>, password: Text)
    requires r.Register? && RunEnabled(START, hash, before)
    requires var v := Run(START, hash, before);
      Lookup(v.db, r.username).None? && RunEnabled(v, hash, [r] + after)
    requires |password| <= 255
    ensures var s := Run(Run(START, hash, before), hash, [r] + after).db;
      && (forall p: Text :: |p| <= 255 && hash(p + r.salt) == hash(r.password + r.salt) ==> p == r.password)
      && r.uid in s.users ==>
         (Authentic(s, hash, r.username, password) <==> password == r.password)
  {
    CredentialsLast(hash, before, r, after, password);
  }

  /* The documentation against a run */

  lemma {:induction false} RunSnoc(v: ServerVal, hash: Text -> Text, ops: seq<Op>, op: Op)
    requires v.gen.Valid() && RunEnabled(v, hash, ops) && Enabled(Run(v, hash, ops), op)
    ensures RunEnabled(v, hash, ops + [op])
    ensures Run(v, hash, ops + [op]) == Step(Run(v, hash, ops), hash, op).0
    decreases |ops|
  {
    if ops == [] {
      assert [] + [op] == [op] && [op][1..] == [];
    } else {
      assert (ops + [op])[1..] == ops[1..] + [op];
      RunSnoc(Step(v, hash, ops[0]).0, hash, ops[1..], op);
    }
  }

  /** A user registers and creates a channel with no other member. */
  const ALONE: seq<Op> := [Register([], [], [], NIL, []), Create([], [NIL], NIL)]

  lemma {:induction false} AloneState(hash: Text -> Text)
    ensures RunEnabled(START, hash, ALONE)
    ensures var v := Run(START, hash, ALONE);
      && v.gen == START.gen && Holds(v.db, NIL, [], Secret(hash([]), [])) && NIL in v.db.users
      && NIL in v.db.channels && v.db.channels[NIL].members == [NIL]
  {
    var register, create := ALONE[0], ALONE[1];
    var v := Step(START, hash, register).0;
    var nothing: Text := [];
    assert nothing + nothing == [];
    assert Holds(v.db, NIL, [], Secret(hash([]), [])) && v.db.channels == map[];
    assert [register][1..] == [];
    RunSnoc(START, hash, [], register);
    assert [] + [register] == [register];
    RunSnoc(START, hash, [register], create);
    assert [register] + [create] == ALONE;
  }

  /** The only id a new generator issues at the epoch. */
  const FIRST_ID: int := 0x2100

  lemma {:induction false} FirstId()
    ensures Pack(Gen(1, 1, 1738022400000, 0)) == FIRST_ID
  {
    PackIsSum(Gen(1, 1, 1738022400000, 0));
  }

  /** That user sends a message to the channel. */
  const SPEAKING: seq<Op> := ALONE + [Send(NIL, NIL, [], [EPOCH], 0)]

  lemma {:induction false} SpeakingState(hash: Text -> Text)
    ensures RunEnabled(START, hash, SPEAKING)
    ensures var v := Run(START, hash, SPEAKING);
      && Sound(v) && Holds(v.db, NIL, [], Secret(hash([]), [])) && NIL in v.db.users
      && NIL in v.db.channels && v.db.channels[NIL].members == [NIL]
      && FIRST_ID in v.db.messages && v.db.messages[FIRST_ID].sender == NIL
  {
    AloneState(hash);
    FirstId();
    var v, send := Run(START, hash, ALONE), Send(NIL, NIL, [], [EPOCH], 0);
    assert Next(v.gen, [EPOCH]) == (Issued(FIRST_ID), Gen(1, 1, EPOCH, 0));
    StartSound();
    RunSound(START, hash, ALONE);
    StepHolds(v, hash, send, NIL, [], Secret(hash([]), []));
    StepSound(v, hash, send);
    RunSnoc(START, hash, ALONE, send);
  }

  /** A run of requests on which the documented account deletion fails: the user is gone, but neither
      their message nor the channel in which they were alone. */
  lemma {:induction false} DeletionNotAsDocumented(hash: Text -> Text)
    ensures RunEnabled(START, hash, SPEAKING + [Unregister([], [])])
    ensures var s, s' := Run(START, hash, SPEAKING).db, Run(START, hash, SPEAKING + [Unregister([], [])]).db;
      && NIL in s.users && NIL !in s'.users
      && FIRST_ID in s'.messages && s'.messages[FIRST_ID].sender == NIL && NIL in s'.channels
      && !AsDocumented(s, NIL, s')
  {
    SpeakingState(hash);
    var v := Run(START, hash, SPEAKING);
    RunSnoc(START, hash, SPEAKING, Unregister([], []));
    FoundByName(v.db, NIL, [], Secret(hash([]), []));
    var nothing: Text := [];
    assert nothing + nothing == [];
    var s' := Run(START, hash, SPEAKING + [Unregister([], [])]).db;
    assert FIRST_ID in SentBy(s'.messages, NIL);
  }
}
