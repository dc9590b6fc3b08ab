/** One client's connection over a run of the server: the signals of its user, the answers to its own
    requests, and what the client makes of both. */
module Connection {
  import opened Bytes
  import opened Consistency
  import opened Lists
  import opened Live
  import opened Mirror
  import opened Models
  import opened Replay
  import opened Replies
  import opened Service
  import opened Stream
  import opened Tables
  import opened Wire

  /** A handler call, made on the followed connection (`own`) or on another. */
  datatype Call = Call(own: bool, op: Op)

  function Ops(calls: seq<Call>): (ops: seq<Op>)
    ensures |ops| == |calls| && forall i :: 0 <= i < |calls| ==> ops[i] == calls[i].op
  {
    seq(|calls|, i requires 0 <= i < |calls| => calls[i].op)
  }

  /** The frames a call writes to the connection that is logged in as `u`: the signals of `u`, and then
      the answer, if the call was made here. */
  ghost function CallFrames(x: ServerVal, hash: Text -> Text, call: Call, u: Uuid): seq<Frame>
    requires x.gen.Valid()
  {
    FramesFor(u, Step(x, hash, call.op).1) + if call.own then Answers(x.db, hash, call.op) else []
  }

  ghost function RunFrames(x: ServerVal, hash: Text -> Text, calls: seq<Call>, u: Uuid): seq<Frame>
    requires x.gen.Valid()
    decreases |calls|
  {
    if calls == [] then []
    else CallFrames(x, hash, calls[0], u) + RunFrames(Step(x, hash, calls[0].op).0, hash, calls[1..], u)
  }

  /* What a call on the connection may do to it */

  /** An accepted login: the connection now belongs to the user it names. */
  ghost predicate LogsIn(s: DbVal, hash: Text -> Text, call: Call) {
    call.own && call.op.LogIn? && Authentic(s, hash, call.op.username, call.op.password)
  }

  /** An accepted deletion of an account, no matter whose: the answer resets the client. */
  ghost predicate Erases(s: DbVal, hash: Text -> Text, call: Call) {
    call.own && call.op.Unregister? && Authentic(s, hash, call.op.username, call.op.password)
  }

  /** No call on the connection logs in again. */
  ghost predicate StaysLoggedIn(x: ServerVal, hash: Text -> Text, calls: seq<Call>)
    requires x.gen.Valid()
    decreases |calls|
  {
    calls == [] ||
    (!LogsIn(x.db, hash, calls[0]) && StaysLoggedIn(Step(x, hash, calls[0].op).0, hash, calls[1..]))
  }

  /** Some call on the connection deletes an account. */
  ghost predicate EverErases(x: ServerVal, hash: Text -> Text, calls: seq<Call>)
    requires x.gen.Valid()
    decreases |calls|
  {
    calls != [] &&
    (Erases(x.db, hash, calls[0]) || EverErases(Step(x, hash, calls[0].op).0, hash, calls[1..]))
  }

  /** Some call creates a channel that lists `u`. */
  predicate Invites(calls: seq<Call>, u: Uuid) {
    calls != [] && ((calls[0].op.Create? && u in calls[0].op.members) || Invites(calls[1..], u))
  }

  /** Some call creates a channel that lists `u` after the first deletion made on the connection. */
  ghost predicate InvitedAfter(x: ServerVal, hash: Text -> Text, calls: seq<Call>, u: Uuid)
    requires x.gen.Valid()
    decreases |calls|
  {
    calls != [] &&
    if Erases(x.db, hash, calls[0]) then Invites(calls[1..], u)
    else InvitedAfter(Step(x, hash, calls[0].op).0, hash, calls[1..], u)
  }

  predicate RequestsFit(ops: seq<Op>) {
    forall i :: 0 <= i < |ops| ==> FromRequest(ops[i]) && OpFits(ops[i])
  }

  /** A run of calls that can happen, in which the account survives and nobody logs in again here. */
  ghost predicate Lasting(x: ServerVal, hash: Text -> Text, calls: seq<Call>, u: Uuid) {
    && Sound(x) && TablesFit(x.db)
    && RunEnabled(x, hash, Ops(calls)) && RequestsFit(Ops(calls))
    && u in Run(x, hash, Ops(calls)).db.users && StaysLoggedIn(x, hash, calls)
  }

  lemma {:induction false} FirstOp(calls: seq<Call>)
    requires calls != []
    ensures Ops(calls)[0] == calls[0].op && Ops(calls)[1..] == Ops(calls[1..])
    ensures RequestsFit(Ops(calls)) ==>
      FromRequest(calls[0].op) && OpFits(calls[0].op) && RequestsFit(Ops(calls[1..]))
  {
    if RequestsFit(Ops(calls)) {
      assert FromRequest(Ops(calls)[0]) && OpFits(Ops(calls)[0]);
      forall i | 0 <= i < |calls| - 1 ensures FromRequest(Ops(calls[1..])[i]) && OpFits(Ops(calls[1..])[i]) {
        assert Ops(calls[1..])[i] == Ops(calls)[i + 1];
      }
    }
  }

  /** A user who is registered at the end of a run is registered after its first step: once deleted, the
      account would not come back. */
  lemma {:induction false} StillThere(x: ServerVal, hash: Text -> Text, ops: seq<Op>, u: Uuid)
    requires x.gen.Valid() && Secured(x.db) && RunEnabled(x, hash, ops) && ops != [] && u in x.db.users
    requires u in Run(x, hash, ops).db.users
    ensures u in Step(x, hash, ops[0]).0.db.users
  {
    var y := Step(x, hash, ops[0]).0;
    assert u in y.db.passwords;
    if u !in y.db.users {
      GoneForGood(y, hash, ops[1..], u);
      assert false;
    }
  }

  lemma {:induction false} LastingStep(x: ServerVal, hash: Text -> Text, calls: seq<Call>, u: Uuid)
    requires Lasting(x, hash, calls, u) && calls != [] && u in x.db.users
    ensures var y := Step(x, hash, calls[0].op).0;
      && Lasting(y, hash, calls[1..], u) && u in y.db.users
      && Enabled(x, calls[0].op) && FromRequest(calls[0].op) && OpFits(calls[0].op)
      && Run(x, hash, Ops(calls)) == Run(y, hash, Ops(calls[1..]))
  {
    FirstOp(calls);
    StillThere(x, hash, Ops(calls), u);
    StepSound(x, hash, calls[0].op);
    StepFits(x, hash, calls[0].op);
  }

  /* The answers */

  lemma {:induction false} ProfilesOfFit(s: DbVal, users: seq<Uuid>)
    requires TablesFit(s)
    ensures ProfilesFit(ProfilesOf(s, users))
  {
    if users != [] {
      ProfilesOfFit(s, users[..|users| - 1]);
    }
  }

  lemma {:induction false} AccountsHandled(v: SessionVal, r: Reply<seq<Profile>>)
    requires r.Ok? ==> ProfilesFit(r.data)
    ensures ApplyFrame(v, Frame(LIST_ACCOUNTS, EncodeAccounts(r))) == Some(v)
  {
    if r.Ok? {
      AccountsReadable(r.data);
    } else {
      AccountsErrorReadable(r.text);
    }
  }

  lemma {:induction false} SearchHandled(v: SessionVal, s: DbVal, found: Found)
    requires TablesFit(s)
    ensures ApplyFrame(v, Frame(LIST_ACCOUNTS, EncodeAccounts(SearchReply(s, found)))) == Some(v)
  {
    if found.Matching? {
      ProfilesOfFit(s, found.users);
    }
    AccountsHandled(v, SearchReply(s, found));
  }

  lemma {:induction false} RegistrationHandled(v: SessionVal, taken: bool)
    ensures ApplyFrame(v, Frame(REGISTER_ACCOUNT, EncodeRegistered(RegistrationError(taken)))) == Some(v)
  {
    RegisteredRoundTrip(RegistrationError(taken));
  }

  lemma {:induction false} RefusalHandled(v: SessionVal, text: Text)
    requires |text| <= 255
    ensures ApplyFrame(v, Frame(LOGIN, EncodeLogin(Error(text)))) == Some(v)
  {
    LoginRoundTrip(Error(text));
  }

  lemma {:induction false} DeletionHandled(v: SessionVal, r: Reply<Profile>)
    requires LoginFits(r)
    ensures ApplyFrame(v, Frame(DELETE_ACCOUNT, EncodeLogin(r))) == Some(if r.Ok? then EMPTY else v)
  {
    LoginRoundTrip(r);
  }

  /** The answer to a call: it leaves the client alone, unless it confirms a deletion. */
  lemma {:induction false} AnswerHandled(v: SessionVal, s: DbVal, hash: Text -> Text, op: Op)
    requires TablesFit(s) && !LogsIn(s, hash, Call(true, op))
    ensures ApplyFrames(v, Answers(s, hash, op)) == Some(if Erases(s, hash, Call(true, op)) then EMPTY else v)
  {
    match op {
      case Register(username, _, _, _, _) =>
        RegistrationHandled(v, Lookup(s, username).Some?);
        ApplyOne(v, Answers(s, hash, op)[0]);
      case LogIn(username, password) =>
        var end := LoginResult(s, hash, Lookup(s, username), password);
        if end.Refused? {
          RefusalHandled(v, end.text);
          ApplyOne(v, Frame(LOGIN, EncodeLogin(Error(end.text))));
        }
      case Unregister(username, password) =>
        DeletionHandled(v, DeletionReply(s, hash, Lookup(s, username), password));
        ApplyOne(v, Answers(s, hash, op)[0]);
      case Search(found) =>
        SearchHandled(v, s, found);
        ApplyOne(v, Answers(s, hash, op)[0]);
      case _ =>
    }
  }

  /* Following a channel over a run */

  /** One call, wherever it was made: the client follows the channel afterwards, unless the answer has
      reset it. */
  lemma {:induction false} CallFollowed(v: SessionVal, x: ServerVal, hash: Text -> Text, call: Call, u: Uuid, c: Uuid,
                                        k: nat, sent: seq<MessageVal>)
    requires Sound(x) && TablesFit(x.db) && Enabled(x, call.op) && FromRequest(call.op) && OpFits(call.op)
    requires Follows(v, x.db, u, c, k, sent) && u in Step(x, hash, call.op).0.db.users && !LogsIn(x.db, hash, call)
    ensures var r := ApplyFrames(v, CallFrames(x, hash, call, u));
      && r.Some?
      && if Erases(x.db, hash, call) then r.value == EMPTY
         else Follows(r.value, Step(x, hash, call.op).0.db, u, c, k, sent + SentIn(x, call.op, c))
  {
    var signals := FramesFor(u, Step(x, hash, call.op).1);
    StepFollowed(v, x, hash, call.op, u, c, k, sent);
    if call.own {
      ApplyConcat(v, signals, Answers(x.db, hash, call.op));
      AnswerHandled(ApplyFrames(v, signals).value, x.db, hash, call.op);
    } else {
      assert signals + [] == signals;
    }
  }

  /** While no call on the connection deletes an account, the client follows the channel. */
  lemma {:induction false} RunKept(v: SessionVal, x: ServerVal, hash: Text -> Text, calls: seq<Call>, u: Uuid, c: Uuid,
                                   k: nat, sent: seq<MessageVal>)
    requires Lasting(x, hash, calls, u) && Follows(v, x.db, u, c, k, sent) && !EverErases(x, hash, calls)
    ensures var r := ApplyFrames(v, RunFrames(x, hash, calls, u));
      r.Some? && Follows(r.value, Run(x, hash, Ops(calls)).db, u, c, k, sent + Sent(x, hash, Ops(calls), c))
    decreases |calls|
  {
    if calls == [] {
      assert sent + [] == sent;
    } else {
      var y := Step(x, hash, calls[0].op).0;
      var first, more := CallFrames(x, hash, calls[0], u), SentIn(x, calls[0].op, c);
      LastingStep(x, hash, calls, u);
      FirstOp(calls);
      CallFollowed(v, x, hash, calls[0], u, c, k, sent);
      ApplyConcat(v, first, RunFrames(y, hash, calls[1..], u));
      RunKept(ApplyFrames(v, first).value, y, hash, calls[1..], u, c, k, sent + more);
      SentMore(sent, more, Sent(y, hash, Ops(calls[1..]), c));
    }
  }

  lemma SentMore(a: seq<MessageVal>, b: seq<MessageVal>, c: seq<MessageVal>)
    ensures a + b + c == a + (b + c)
  {
  }

  /* After a deletion */

  /** Signals other than an added channel leave an empty session empty. */
  lemma {:induction false} SignalsOnEmpty(u: Uuid, es: seq<Event>)
    requires forall e :: e in es ==> Modest(e.notice) && !e.notice.ChannelAdded?
    ensures ApplyFrames(EMPTY, FramesFor(u, es)) == Some(EMPTY)
  {
    if es != [] {
      var front, e := es[..|es| - 1], es[|es| - 1];
      SignalsOnEmpty(u, front);
      if e.to == u {
        ApplyConcat(EMPTY, FramesFor(u, front), [NoticeFrame(e.notice)]);
        ApplyOne(EMPTY, NoticeFrame(e.notice));
        NoticeArrives(EMPTY, e.notice);
      } else {
        assert FramesFor(u, front) + [] == FramesFor(u, front);
      }
    }
  }

  /** An added channel is an exception there: nobody is logged in. */
  lemma {:induction false} AddedOnEmpty(ch: ChannelVal, j: nat)
    requires ChannelFits(ch)
    ensures ApplyFrames(EMPTY, Repeat(NoticeFrame(ChannelAdded(ch)), j)) == if j > 0 then None else Some(EMPTY)
  {
    var f := NoticeFrame(ChannelAdded(ch));
    if j > 0 {
      AddedOnEmpty(ch, j - 1);
      ApplyConcat(EMPTY, Repeat(f, j - 1), [f]);
      ApplyOne(EMPTY, f);
      NoticeArrives(EMPTY, ChannelAdded(ch));
    }
  }

  lemma {:induction false} StepOnEmpty(x: ServerVal, hash: Text -> Text, op: Op, u: Uuid)
    requires Sound(x) && TablesFit(x.db) && FromRequest(op) && OpFits(op) && u in x.db.users
    ensures ApplyFrames(EMPTY, FramesFor(u, Step(x, hash, op).1))
         == if op.Create? && u in op.members then None else Some(EMPTY)
  {
    if op.Create? {
      var ch := ChannelVal(op.uid, op.name, op.members, []);
      BroadcastFrames(u, op.members, x.db.users.Keys, ChannelAdded(ch));
      AddedOnEmpty(ch, multiset(op.members)[u]);
      CountIn(op.members, u);
    } else {
      forall e | e in Step(x, hash, op).1 ensures Modest(e.notice) && !e.notice.ChannelAdded? {
        StepNotices(x, hash, op, e);
      }
      SignalsOnEmpty(u, Step(x, hash, op).1);
    }
  }

  lemma {:induction false} CallOnEmpty(x: ServerVal, hash: Text -> Text, call: Call, u: Uuid)
    requires Sound(x) && TablesFit(x.db) && FromRequest(call.op) && OpFits(call.op) && u in x.db.users
    requires !LogsIn(x.db, hash, call)
    ensures ApplyFrames(EMPTY, CallFrames(x, hash, call, u))
         == if call.op.Create? && u in call.op.members then None else Some(EMPTY)
  {
    var signals := FramesFor(u, Step(x, hash, call.op).1);
    StepOnEmpty(x, hash, call.op, u);
    if call.own {
      ApplyConcat(EMPTY, signals, Answers(x.db, hash, call.op));
      AnswerHandled(EMPTY, x.db, hash, call.op);
    } else {
      assert signals + [] == signals;
    }
  }

  /** A reset client stays empty, until a channel is created that lists the user, which it does not
      survive. */
  lemma {:induction false} RunOnEmpty(x: ServerVal, hash: Text -> Text, calls: seq<Call>, u: Uuid)
    requires Lasting(x, hash, calls, u) && u in x.db.users
    ensures ApplyFrames(EMPTY, RunFrames(x, hash, calls, u)) == if Invites(calls, u) then None else Some(EMPTY)
    decreases |calls|
  {
    if calls != [] {
      var y := Step(x, hash, calls[0].op).0;
      LastingStep(x, hash, calls, u);
      CallOnEmpty(x, hash, calls[0], u);
      ApplyConcat(EMPTY, CallFrames(x, hash, calls[0], u), RunFrames(y, hash, calls[1..], u));
      RunOnEmpty(y, hash, calls[1..], u);
    }
  }

  /** Once a call on the connection has deleted an account, the client has lost the channel. */
  lemma {:induction false} RunErased(v: SessionVal, x: ServerVal, hash: Text -> Text, calls: seq<Call>, u: Uuid,
                                     c: Uuid, k: nat, sent: seq<MessageVal>)
    requires Lasting(x, hash, calls, u) && Follows(v, x.db, u, c, k, sent) && EverErases(x, hash, calls)
    ensures ApplyFrames(v, RunFrames(x, hash, calls, u))
         == if InvitedAfter(x, hash, calls, u) then None else Some(EMPTY)
    decreases |calls|
  {
    var y, first := Step(x, hash, calls[0].op).0, CallFrames(x, hash, calls[0], u);
    LastingStep(x, hash, calls, u);
    CallFollowed(v, x, hash, calls[0], u, c, k, sent);
    ApplyConcat(v, first, RunFrames(y, hash, calls[1..], u));
    if Erases(x.db, hash, calls[0]) {
      RunOnEmpty(y, hash, calls[1..], u);
    } else {
      RunErased(ApplyFrames(v, first).value, y, hash, calls[1..], u, c, k, sent + SentIn(x, calls[0].op, c));
    }
  }

  /* The live mirror */

  lemma {:induction false} CreationCall(v: SessionVal, x: ServerVal, hash: Text -> Text, call: Call, u: Uuid)
    requires x.gen.Valid() && v.Valid() && v.user.Some? && u in x.db.users
    requires call.op.Create? && u in call.op.members && Enabled(x, call.op) && OpFits(call.op)
    ensures var r := ApplyFrames(v, CallFrames(x, hash, call, u));
      && r.Some?
      && Follows(r.value, Step(x, hash, call.op).0.db, u, call.op.uid, multiset(call.op.members)[u], [])
  {
    var signals := FramesFor(u, Step(x, hash, call.op).1);
    CreationSeen(v, x.db, ChannelVal(call.op.uid, call.op.name, call.op.members, []), u);
    assert signals + [] == signals;
  }

  /** What the first call leaves to the rest of a run. */
  lemma {:induction false} AfterCreation(v: SessionVal, x: ServerVal, hash: Text -> Text, calls: seq<Call>, u: Uuid)
    requires Lasting(x, hash, calls, u) && v.Valid() && v.user.Some? && u in x.db.users
    requires calls != [] && calls[0].op.Create? && u in calls[0].op.members
    ensures var y, r := Step(x, hash, calls[0].op).0, ApplyFrames(v, CallFrames(x, hash, calls[0], u));
      && Lasting(y, hash, calls[1..], u) && r.Some?
      && Follows(r.value, y.db, u, calls[0].op.uid, multiset(calls[0].op.members)[u], [])
      && ApplyFrames(v, RunFrames(x, hash, calls, u)) == ApplyFrames(r.value, RunFrames(y, hash, calls[1..], u))
  {
    LastingStep(x, hash, calls, u);
    CreationCall(v, x, hash, calls[0], u);
    ApplyConcat(v, CallFrames(x, hash, calls[0], u), RunFrames(Step(x, hash, calls[0].op).0, hash, calls[1..], u));
  }

  lemma {:induction false} CreationErasesNothing(x: ServerVal, hash: Text -> Text, calls: seq<Call>, u: Uuid)
    requires x.gen.Valid() && calls != [] && calls[0].op.Create?
    ensures var y := Step(x, hash, calls[0].op).0;
      && EverErases(x, hash, calls) == EverErases(y, hash, calls[1..])
      && InvitedAfter(x, hash, calls, u) == InvitedAfter(y, hash, calls[1..], u)
  {
  }

  lemma {:induction false} CreationPostsNothing(x: ServerVal, hash: Text -> Text, calls: seq<Call>)
    requires x.gen.Valid() && calls != [] && calls[0].op.Create?
    ensures var y, c := Step(x, hash, calls[0].op).0, calls[0].op.uid;
      && Run(x, hash, Ops(calls)) == Run(y, hash, Ops(calls[1..]))
      && Posts(x, hash, Ops(calls), c) == Posts(y, hash, Ops(calls[1..]), c)
  {
    FirstOp(calls);
    var more := Posts(Step(x, hash, calls[0].op).0, hash, Ops(calls[1..]), calls[0].op.uid);
    assert [] + more == more;
  }

  /** Of messages held `k` times each, entry `n` says what request `n / k` said. */
  predicate HoldsPost(ms: seq<MessageVal>, posts: seq<Post>, k: nat, n: nat)
    requires k > 0 && n < |ms|
  {
    0 <= n / k < |posts| && Carries(ms[n], posts[n / k])
  }

  predicate HoldsPosts(ms: seq<MessageVal>, posts: seq<Post>, k: nat)
    requires k > 0
  {
    |ms| == k * |posts| && forall n :: 0 <= n < |ms| ==> HoldsPost(ms, posts, k, n)
  }

  /** The client holds of channel `c` what it should: every entry of the server's list, and the message of
      every request that sent one to the channel, `k` times. */
  ghost predicate Mirrors(r: Option<SessionVal>, s: DbVal, c: Uuid, k: nat, posts: seq<Post>) {
    && k > 0 && r.Some? && c in r.value.channels && c in r.value.messages && c in s.channels
    && r.value.channels[c].history == RepeatEach(s.channels[c].history, k)
    && HoldsPosts(r.value.messages[c], posts, k)
    && (r.value.channels[c].history == s.channels[c].history <==> k == 1 || s.channels[c].history == [])
  }

  lemma {:induction false} RepeatedPosts(sent: seq<MessageVal>, posts: seq<Post>, k: nat)
    requires k > 0 && AllCarry(sent, posts)
    ensures HoldsPosts(RepeatEach(sent, k), posts, k)
  {
    RepeatEachLength(sent, k);
    var ms := RepeatEach(sent, k);
    forall n | 0 <= n < |ms| ensures HoldsPost(ms, posts, k, n) {
      RepeatEachAt(sent, k, n);
    }
  }

  lemma {:induction false} FollowsMirrors(v: SessionVal, s: DbVal, u: Uuid, c: Uuid, k: nat, sent: seq<MessageVal>,
                                          posts: seq<Post>)
    requires Follows(v, s, u, c, k, sent) && AllCarry(sent, posts)
    ensures Mirrors(Some(v), s, c, k, posts)
  {
    RepeatEachFixed(s.channels[c].history, k);
    RepeatedPosts(sent, posts, k);
  }

  /** A channel that lists a logged-in user `k` times is created, and any run of calls follows, on this
      connection or on others, in which the account survives and nobody logs in again here. The client
      survives and keeps the channel if and only if no call made on its own connection deletes an account.
      Then its snowflake list is the server's, every entry `k` times, and its messages are those of all
      requests that have sent one to the channel, each `k` times, whatever has been deleted. Otherwise it is
      empty, or has stopped with an exception if a later creation listed the user. */
  lemma {:induction false} LiveMirror(v: SessionVal, x: ServerVal, hash: Text -> Text, calls: seq<Call>, u: Uuid)
    requires Lasting(x, hash, calls, u) && v.Valid() && v.user.Some? && u in x.db.users
    requires calls != [] && calls[0].op.Create? && u in calls[0].op.members
    ensures var r, s := ApplyFrames(v, RunFrames(x, hash, calls, u)), Run(x, hash, Ops(calls)).db;
      var c, k := calls[0].op.uid, multiset(calls[0].op.members)[u];
      && (r.Some? && c in r.value.channels <==> !EverErases(x, hash, calls))
      && if EverErases(x, hash, calls) then r == if InvitedAfter(x, hash, calls, u) then None else Some(EMPTY)
         else Mirrors(r, s, c, k, Posts(x, hash, Ops(calls), c))
  {
    var c, k, y := calls[0].op.uid, multiset(calls[0].op.members)[u], Step(x, hash, calls[0].op).0;
    AfterCreation(v, x, hash, calls, u);
    CreationErasesNothing(x, hash, calls, u);
    CreationPostsNothing(x, hash, calls);
    MirrorFrom(ApplyFrames(v, CallFrames(x, hash, calls[0], u)).value, y, hash, calls[1..], u, c, k);
  }

  lemma {:induction false} MirrorKept(v: SessionVal, y: ServerVal, hash: Text -> Text, calls: seq<Call>, u: Uuid,
                                      c: Uuid, k: nat)
    requires Lasting(y, hash, calls, u) && Follows(v, y.db, u, c, k, []) && !EverErases(y, hash, calls)
    ensures Mirrors(ApplyFrames(v, RunFrames(y, hash, calls, u)), Run(y, hash, Ops(calls)).db, c, k,
                    Posts(y, hash, Ops(calls), c))
  {
    RunKept(v, y, hash, calls, u, c, k, []);
    var sent := Sent(y, hash, Ops(calls), c);
    assert [] + sent == sent;
    SentAsPosted(y, hash, Ops(calls), c);
    FollowsMirrors(ApplyFrames(v, RunFrames(y, hash, calls, u)).value, Run(y, hash, Ops(calls)).db, u, c, k, sent,
                   Posts(y, hash, Ops(calls), c));
  }

  lemma {:induction false} MirrorFrom(v: SessionVal, y: ServerVal, hash: Text -> Text, calls: seq<Call>, u: Uuid,
                                      c: Uuid, k: nat)
    requires Lasting(y, hash, calls, u) && Follows(v, y.db, u, c, k, [])
    ensures var r := ApplyFrames(v, RunFrames(y, hash, calls, u));
      if EverErases(y, hash, calls) then r == if InvitedAfter(y, hash, calls, u) then None else Some(EMPTY)
      else Mirrors(r, Run(y, hash, Ops(calls)).db, c, k, Posts(y, hash, Ops(calls), c))
  {
    if EverErases(y, hash, calls) {
      RunErased(v, y, hash, calls, u, c, k, []);
    } else {
      MirrorKept(v, y, hash, calls, u, c, k);
    }
  }

  /* The frames of a run fit */

  /** The answers to the account searches made on the connection fit their length fields. */
  ghost predicate SearchesFit(x: ServerVal, hash: Text -> Text, calls: seq<Call>)
    requires x.gen.Valid()
    decreases |calls|
  {
    calls == [] ||
    (AnswerFits(x.db, calls[0]) && SearchesFit(Step(x, hash, calls[0].op).0, hash, calls[1..]))
  }

  /** If the call is a search made on the connection, its answer fits. */
  predicate AnswerFits(s: DbVal, call: Call) {
    call.own && call.op.Search? ==> |EncodeAccounts(SearchReply(s, call.op.found))| <= 0xFFFF
  }

  lemma {:induction false} SignalsFit(u: Uuid, es: seq<Event>)
    requires forall e :: e in es ==> Modest(e.notice)
    ensures FramesFit(FramesFor(u, es))
  {
    if es != [] {
      SignalsFit(u, es[..|es| - 1]);
    }
  }

  lemma {:induction false} OneFits(f: Frame)
    ensures FramesFit([f]) <==> FrameFits(f)
  {
    assert FramesFit([f]) <==> FrameFits([f][0]);
  }

  lemma {:induction false} AnswersFit(s: DbVal, hash: Text -> Text, op: Op)
    requires TablesFit(s) && !LogsIn(s, hash, Call(true, op))
    ensures FramesFit(Answers(s, hash, op)) <==> AnswerFits(s, Call(true, op))
  {
    match op {
      case Register(_, _, _, _, _) => OneFits(Answers(s, hash, op)[0]);
      case LogIn(username, password) =>
        var end := LoginResult(s, hash, Lookup(s, username), password);
        if end.Refused? {
          OneFits(Frame(LOGIN, EncodeLogin(Error(end.text))));
        }
      case Unregister(_, _) => OneFits(Answers(s, hash, op)[0]);
      case Search(_) => OneFits(Answers(s, hash, op)[0]);
      case _ =>
    }
  }

  lemma {:induction false} CallFits(x: ServerVal, hash: Text -> Text, call: Call, u: Uuid)
    requires Sound(x) && TablesFit(x.db) && FromRequest(call.op) && OpFits(call.op) && !LogsIn(x.db, hash, call)
    ensures FramesFit(CallFrames(x, hash, call, u)) <==> AnswerFits(x.db, call)
  {
    var signals, answers := FramesFor(u, Step(x, hash, call.op).1), Answers(x.db, hash, call.op);
    forall e | e in Step(x, hash, call.op).1 ensures Modest(e.notice) {
      StepNotices(x, hash, call.op, e);
    }
    SignalsFit(u, Step(x, hash, call.op).1);
    if call.own {
      AnswersFit(x.db, hash, call.op);
      FramesFitConcat(signals, answers);
    } else {
      assert signals + [] == signals;
    }
  }

  /** Every frame of a run fits its length field if and only if the answers to the client's own account
      searches do. */
  lemma {:induction false} RunFramesFit(x: ServerVal, hash: Text -> Text, calls: seq<Call>, u: Uuid)
    requires Lasting(x, hash, calls, u) && u in x.db.users
    ensures FramesFit(RunFrames(x, hash, calls, u)) <==> SearchesFit(x, hash, calls)
    decreases |calls|
  {
    if calls != [] {
      var y := Step(x, hash, calls[0].op).0;
      LastingStep(x, hash, calls, u);
      CallFits(x, hash, calls[0], u);
      FramesFitConcat(CallFrames(x, hash, calls[0], u), RunFrames(y, hash, calls[1..], u));
      RunFramesFit(y, hash, calls[1..], u);
    }
  }

  /* Logins */

  lemma {:induction false} RunFits(x: ServerVal, hash: Text -> Text, ops: seq<Op>)
    requires x.gen.Valid() && TablesFit(x.db) && RequestsFit(ops)
    ensures TablesFit(Run(x, hash, ops).db)
    decreases |ops|
  {
    if ops != [] {
      assert FromRequest(ops[0]) && OpFits(ops[0]);
      StepFits(x, hash, ops[0]);
      RunFits(Step(x, hash, ops[0]).0, hash, ops[1..]);
    }
  }

  /** A login as user `u`: the name is theirs, and the password is accepted. */
  ghost predicate LogsInAs(s: DbVal, hash: Text -> Text, login: Op, u: Uuid) {
    && login.LogIn? && u in s.users && s.users[u].profile.username == login.username
    && Authentic(s, hash, login.username, login.password)
  }

  /** The answer to a login under the name of a user: with a password of the stored digest, and with no
      other, it gives a reset client that user's session. To any other password the answer is an error,
      which leaves a client as it was. */
  lemma {:induction false} LoginAnswered(s: DbVal, hash: Text -> Text, login: Op, u: Uuid, v: SessionVal)
    requires Consistent(s) && TablesFit(s)
    requires login.LogIn? && u in s.users && s.users[u].profile.username == login.username
    ensures var fs, secret := Answers(s, hash, login), s.passwords[u];
      var right := hash(login.password + secret.salt) == secret.digest;
      && (LogsInAs(s, hash, login, u) <==> right)
      && (ApplyFrames(EMPTY, fs) == Some(Restored(s, s.users[u].profile, s.users[u].channels)) <==> right)
      && (right ==> fs == LoginFrames(s, u))
      && (!right ==>
          fs == [Frame(LOGIN, [1] + EncodeText(Ascii("Incorrect password")))] && ApplyFrames(v, fs) == Some(v))
  {
    ScanIsLookup(s, login.username, Some(u));
    if LogsInAs(s, hash, login, u) {
      LoginApplies(s, u);
    } else {
      var f := Frame(LOGIN, [1] + EncodeText(Ascii("Incorrect password")));
      assert Answers(s, hash, login) == [f];
      ErrorsChangeNothing(v, LOGIN, Ascii("Incorrect password"));
      ErrorsChangeNothing(EMPTY, LOGIN, Ascii("Incorrect password"));
      ApplyOne(v, f);
      ApplyOne(EMPTY, f);
    }
  }

  /** A login under a name nobody has is not answered: the handler ends in an exception. */
  lemma {:induction false} UnknownName(s: DbVal, hash: Text -> Text, login: Op)
    requires login.LogIn? && forall u :: u in s.users ==> s.users[u].profile.username != login.username
    ensures Answers(s, hash, login) == [] && !Authentic(s, hash, login.username, login.password)
  {
  }

  /** Login in any state that requests can reach. With the right password, and with no other, the answer
      restores the session of the user named; nothing but the size of the channel records stands between
      the server's tables and what the client restores from the bytes. */
  lemma {:induction false} ReachableLogin(hash: Text -> Text, ops: seq<Op>, login: Op, u: Uuid, v: SessionVal)
    requires RunEnabled(START, hash, ops) && RequestsFit(ops)
    requires var s := Run(START, hash, ops).db;
      login.LogIn? && u in s.users && s.users[u].profile.username == login.username
    ensures var s := Run(START, hash, ops).db;
      var fs, right := Answers(s, hash, login), Authentic(s, hash, login.username, login.password);
      && Consistent(s) && TablesFit(s)
      && (ApplyFrames(EMPTY, fs) == Some(Restored(s, s.users[u].profile, s.users[u].channels)) <==> right)
      && (!right ==> ApplyFrames(v, fs) == Some(v))
      && (right ==>
          && (FramesFit(fs) <==> forall c :: c in s.users[u].channels ==> RecordFits(s.channels[c]))
          && (FramesFit(fs) ==> Split(EncodeFrames(fs)) == (fs, [])))
  {
    var s := Run(START, hash, ops).db;
    ReachableConsistent(hash, ops);
    RunFits(START, hash, ops);
    LoginAnswered(s, hash, login, u, v);
    LoginPayloadsFit(s, u);
    if FramesFit(LoginFrames(s, u)) {
      SplitWhole(LoginFrames(s, u));
    }
  }

  /** The frames that answer a login as `u`, and those of the run that follows. */
  ghost function Visit(x: ServerVal, hash: Text -> Text, login: Op, calls: seq<Call>, u: Uuid): seq<Frame>
    requires x.gen.Valid()
  {
    Answers(x.db, hash, login) + RunFrames(x, hash, calls, u)
  }

  /** Login and live mirror together, from a reset session. */
  lemma {:induction false} LoginThenLive(x: ServerVal, hash: Text -> Text, login: Op, calls: seq<Call>, u: Uuid)
    requires Lasting(x, hash, calls, u) && LogsInAs(x.db, hash, login, u) && !EverErases(x, hash, calls)
    requires calls != [] && calls[0].op.Create? && multiset(calls[0].op.members)[u] == 1
    ensures var r, s := ApplyFrames(EMPTY, Visit(x, hash, login, calls, u)), Run(x, hash, Ops(calls)).db;
      Mirrors(r, s, calls[0].op.uid, 1, Posts(x, hash, Ops(calls), calls[0].op.uid))
  {
    var answer := Answers(x.db, hash, login);
    LoginAnswered(x.db, hash, login, u, EMPTY);
    SessionStaysValid(EMPTY, answer);
    ApplyConcat(EMPTY, answer, RunFrames(x, hash, calls, u));
    CountIn(calls[0].op.members, u);
    LiveMirror(ApplyFrames(EMPTY, answer).value, x, hash, calls, u);
  }

  lemma {:induction false} StepKeepsProfile(v: ServerVal, hash: Text -> Text, op: Op, u: Uuid)
    requires v.gen.Valid() && u in v.db.users && u in Step(v, hash, op).0.db.users
    ensures Step(v, hash, op).0.db.users[u].profile == v.db.users[u].profile
  {
  }

  /** The profile of a user never changes. */
  lemma {:induction false} ProfileLasts(v: ServerVal, hash: Text -> Text, ops: seq<Op>, u: Uuid)
    requires Sound(v) && RunEnabled(v, hash, ops) && u in v.db.users && u in Run(v, hash, ops).db.users
    ensures Run(v, hash, ops).db.users[u].profile == v.db.users[u].profile
    decreases |ops|
  {
    if ops != [] {
      StillThere(v, hash, ops, u);
      StepSound(v, hash, ops[0]);
      StepKeepsProfile(v, hash, ops[0], u);
      ProfileLasts(Step(v, hash, ops[0]).0, hash, ops[1..], u);
    }
  }

  /** After a registration in a reachable state, under a name nobody has, and any run in which no request
      deletes the account: a login under that name with the registered password gives a reset client the
      session of a user with the registered uid and names, and so does exactly every password of the same
      digest. */
  lemma {:induction false} RegisteredLogsIn(hash: Text -> Text, before: seq<Op>, r: Op, after: seq<Op>, password: Text)
    requires r.Register? && RunEnabled(START, hash, before) && RequestsFit(before + ([r] + after))
    requires var v := Run(START, hash, before);
      (forall u :: u in v.db.users ==> v.db.users[u].profile.username != r.username) && RunEnabled(v, hash, [r] + after)
    requires forall i :: 0 <= i < |after| ==>
      !Deletes(after[i], hash, r.username, Secret(hash(r.password + r.salt), r.salt))
    ensures var s := Run(Run(START, hash, before), hash, [r] + after).db;
      && Ordered(s) && NoDangling(s) && r.uid in s.users
      && (ApplyFrames(EMPTY, Answers(s, hash, LogIn(r.username, password)))
          == Some(Restored(s, Profile(r.uid, r.username, r.displayName, BLANK_PROFILE_PIC), s.users[r.uid].channels))
          <==> hash(password + r.salt) == hash(r.password + r.salt))
  {
    var v := Run(START, hash, before);
    StartSound();
    RunSound(START, hash, before);
    CredentialsLast(hash, before, r, after, password);
    RunSound(v, hash, [r] + after);
    var s := Run(v, hash, [r] + after).db;
    var y := Step(v, hash, r).0;
    assert ([r] + after)[1..] == after;
    StepSound(v, hash, r);
    ProfileLasts(y, hash, after, r.uid);
    FitsThrough(hash, before, [r] + after);
    LoginAnswered(s, hash, LogIn(r.username, password), r.uid, EMPTY);
  }

  lemma {:induction false} FitsThrough(hash: Text -> Text, before: seq<Op>, after: seq<Op>)
    requires RequestsFit(before + after)
    ensures TablesFit(Run(Run(START, hash, before), hash, after).db)
  {
    forall i | 0 <= i < |before| ensures FromRequest(before[i]) && OpFits(before[i]) {
      assert (before + after)[i] == before[i];
    }
    forall i | 0 <= i < |after| ensures FromRequest(after[i]) && OpFits(after[i]) {
      assert (before + after)[|before| + i] == after[i];
    }
    RunFits(START, hash, before);
    RunFits(Run(START, hash, before), hash, after);
  }

  /* A run that breaks a client */

  const OTHER: Uuid := [1, 0, 0, 0, 0, 0, 0, 0, 0, 0, 0, 0, 0, 0, 0, 0]

  /** Two users register, under different names. */
  const TWO_USERS: seq<Op> := [Register([], [], [], NIL, []), Register([1], [], [], OTHER, [])]

  /** A channel is created for the first; on its connection the account of the second is deleted, with
      that account's password; and another channel is created for the first. */
  const MEDDLING: seq<Call> := [
    Call(true, Create([], [NIL], NIL)),
    Call(true, Unregister([1], [])),
    Call(true, Create([], [NIL], OTHER))]

  lemma {:induction false} OneUserState(hash: Text -> Text)
    ensures RunEnabled(START, hash, TWO_USERS[..1])
    ensures var y := Run(START, hash, TWO_USERS[..1]);
      && y.db.channels == map[] && y.db.messages == map[] && y.db.users.Keys == {NIL} && y.db.passwords.Keys == {NIL}
      && Holds(y.db, NIL, [], Secret(hash([]), [])) && TablesFit(y.db)
  {
    var nothing: Text := [];
    assert nothing + nothing == [];
    assert TWO_USERS[..1] == [] + [TWO_USERS[0]];
    RunSnoc(START, hash, [], TWO_USERS[0]);
  }

  lemma {:induction false} TwoUsersState(hash: Text -> Text)
    ensures RunEnabled(START, hash, TWO_USERS)
    ensures var x, secret := Run(START, hash, TWO_USERS), Secret(hash([]), []);
      && Sound(x) && TablesFit(x.db) && x.db.channels == map[] && NIL in x.db.users && OTHER in x.db.users
      && Holds(x.db, NIL, [], secret) && Holds(x.db, OTHER, [1], secret)
  {
    var nothing: Text := [];
    assert nothing + nothing == [];
    OneUserState(hash);
    assert Lookup(Run(START, hash, TWO_USERS[..1]).db, [1]).None?;
    RunSnoc(START, hash, TWO_USERS[..1], TWO_USERS[1]);
    assert TWO_USERS[..1] + [TWO_USERS[1]] == TWO_USERS;
    StartSound();
    RunSound(START, hash, TWO_USERS);
  }

  lemma {:induction false} LastingCons(x: ServerVal, hash: Text -> Text, calls: seq<Call>, u: Uuid)
    requires calls != [] && Sound(x) && TablesFit(x.db)
    requires Enabled(x, calls[0].op) && FromRequest(calls[0].op) && OpFits(calls[0].op) && !LogsIn(x.db, hash, calls[0])
    requires Lasting(Step(x, hash, calls[0].op).0, hash, calls[1..], u)
    ensures Lasting(x, hash, calls, u)
  {
    FirstOp(calls);
    forall i | 0 <= i < |calls| ensures FromRequest(Ops(calls)[i]) && OpFits(Ops(calls)[i]) {
      if i > 0 {
        assert Ops(calls)[i] == Ops(calls[1..])[i - 1];
      }
    }
  }

  lemma {:induction false} LastingNil(x: ServerVal, hash: Text -> Text, u: Uuid)
    requires Sound(x) && TablesFit(x.db) && u in x.db.users
    ensures Lasting(x, hash, [], u)
  {
    assert Ops([]) == [];
  }

  lemma {:induction false} MeddlingStates(x: ServerVal, hash: Text -> Text)
    requires x == Run(START, hash, TWO_USERS)
    ensures var y := Step(x, hash, MEDDLING[0].op).0;
      && Sound(x) && TablesFit(x.db) && Enabled(x, MEDDLING[0].op)
      && Sound(y) && TablesFit(y.db) && NIL in y.db.users && OTHER !in y.db.channels
      && Lookup(y.db, []) == Some(NIL) && Lookup(y.db, [1]) == Some(OTHER)
      && Authentic(y.db, hash, [1], [])
  {
    TwoUsersState(hash);
    var secret, nothing: Text := Secret(hash([]), []), [];
    assert nothing + nothing == [];
    var y, create := Step(x, hash, MEDDLING[0].op).0, MEDDLING[0].op;
    StepSound(x, hash, create);
    StepFits(x, hash, create);
    StepHolds(x, hash, create, NIL, [], secret);
    StepHolds(x, hash, create, OTHER, [1], secret);
    FoundByName(y.db, NIL, [], secret);
    FoundByName(y.db, OTHER, [1], secret);
  }

  lemma {:induction false} InvitationLasts(z: ServerVal, hash: Text -> Text)
    requires Sound(z) && TablesFit(z.db) && NIL in z.db.users && OTHER !in z.db.channels
    ensures Lasting(z, hash, MEDDLING[2..], NIL)
  {
    var c := MEDDLING[2];
    StepSound(z, hash, c.op);
    StepFits(z, hash, c.op);
    LastingNil(Step(z, hash, c.op).0, hash, NIL);
    LastingCons(z, hash, MEDDLING[2..], NIL);
  }

  lemma {:induction false} OthersStay(y: ServerVal, hash: Text -> Text)
    requires Sound(y) && TablesFit(y.db) && NIL in y.db.users && OTHER !in y.db.channels
    requires Lookup(y.db, [1]) == Some(OTHER)
    ensures var z := Step(y, hash, MEDDLING[1].op).0;
      Sound(z) && TablesFit(z.db) && NIL in z.db.users && OTHER !in z.db.channels
  {
    StepSound(y, hash, MEDDLING[1].op);
    StepFits(y, hash, MEDDLING[1].op);
  }

  lemma {:induction false} DeletionLasts(y: ServerVal, hash: Text -> Text)
    requires Sound(y) && TablesFit(y.db) && NIL in y.db.users && OTHER !in y.db.channels
    requires Lookup(y.db, [1]) == Some(OTHER)
    ensures Lasting(y, hash, MEDDLING[1..], NIL)
  {
    OthersStay(y, hash);
    InvitationLasts(Step(y, hash, MEDDLING[1].op).0, hash);
    assert MEDDLING[1..][1..] == MEDDLING[2..];
    LastingCons(y, hash, MEDDLING[1..], NIL);
  }

  lemma {:induction false} MeddlingLasts(x: ServerVal, hash: Text -> Text)
    requires x == Run(START, hash, TWO_USERS)
    ensures Lasting(x, hash, MEDDLING, NIL) && NIL in x.db.users
  {
    TwoUsersState(hash);
    MeddlingStates(x, hash);
    DeletionLasts(Step(x, hash, MEDDLING[0].op).0, hash);
    LastingCons(x, hash, MEDDLING, NIL);
  }

  lemma {:induction false} MeddlingErases(x: ServerVal, hash: Text -> Text)
    requires x == Run(START, hash, TWO_USERS)
    ensures Erases(Step(x, hash, MEDDLING[0].op).0.db, hash, MEDDLING[1])
  {
    MeddlingStates(x, hash);
  }

  lemma {:induction false} MeddlingInvites(x: ServerVal, hash: Text -> Text)
    requires x.gen.Valid() && Erases(Step(x, hash, MEDDLING[0].op).0.db, hash, MEDDLING[1])
    ensures EverErases(x, hash, MEDDLING) && InvitedAfter(x, hash, MEDDLING, NIL)
  {
    var y, rest := Step(x, hash, MEDDLING[0].op).0, MEDDLING[1..];
    assert rest[0] == MEDDLING[1] && rest[1..] == [MEDDLING[2]];
    assert Invites(rest[1..], NIL);
    assert EverErases(y, hash, rest) && InvitedAfter(y, hash, rest, NIL);
  }

  /** The user of the connection is registered and connected to the end, but the client has stopped with an
      exception: its reset session has nobody to add the second channel to. */
  lemma {:induction false} MeddlingBreaks(v: SessionVal, hash: Text -> Text)
    requires v.Valid() && v.user.Some?
    ensures RunEnabled(START, hash, TWO_USERS)
    ensures var x := Run(START, hash, TWO_USERS);
      && Lasting(x, hash, MEDDLING, NIL) && NIL in x.db.users
      && ApplyFrames(v, RunFrames(x, hash, MEDDLING, NIL)) == None
  {
    TwoUsersState(hash);
    var x := Run(START, hash, TWO_USERS);
    MeddlingLasts(x, hash);
    MeddlingErases(x, hash);
    MeddlingInvites(x, hash);
    LiveMirror(v, x, hash, MEDDLING, NIL);
  }
}
