/** Following a channel live: what the signals of a user's account, written to the client as frames,
    keep true of the client's copy of a channel while the server takes its steps. */
module Live {
  import opened Bits
  import opened Bytes
  import opened Consistency
  import opened Lists
  import opened Mirror
  import opened Models
  import opened Replay
  import opened Service
  import opened Snowflake
  import opened Tables
  import opened Wire

  /** The frames of the signals of `u`, in emission order. */
  function FramesFor(u: Uuid, es: seq<Event>): seq<Frame> {
    if es == [] then []
    else
      var e := es[|es| - 1];
      FramesFor(u, es[..|es| - 1]) + if e.to == u then [NoticeFrame(e.notice)] else []
  }

  lemma {:induction false} FramesForConcat(u: Uuid, es: seq<Event>, ds: seq<Event>)
    ensures FramesFor(u, es + ds) == FramesFor(u, es) + FramesFor(u, ds)
  {
    if ds == [] {
      assert es + ds == es;
    } else {
      var n := |ds| - 1;
      assert (es + ds)[..|es + ds| - 1] == es + ds[..n];
      FramesForConcat(u, es, ds[..n]);
    }
  }

  /** A broadcast reaches a registered user once per occurrence in the member list. */
  lemma {:induction false} BroadcastFrames(u: Uuid, members: seq<Uuid>, registered: set<Uuid>, n: Notice)
    requires u in registered
    ensures FramesFor(u, Broadcast(members, registered, n)) == Repeat(NoticeFrame(n), multiset(members)[u])
  {
    if members != [] {
      var i := |members| - 1;
      assert members == members[..i] + [members[i]];
      BroadcastFrames(u, members[..i], registered, n);
      BroadcastOneMore(u, members[..i], members[i], registered, n);
      var k := multiset(members[..i])[u];
      assert multiset(members)[u] == k + if members[i] == u then 1 else 0;
      RepeatMore(NoticeFrame(n), k, members[i] == u);
    }
  }

  lemma {:induction false} BroadcastOneMore(u: Uuid, front: seq<Uuid>, last: Uuid, registered: set<Uuid>, n: Notice)
    requires u in registered
    ensures FramesFor(u, Broadcast(front + [last], registered, n))
         == FramesFor(u, Broadcast(front, registered, n)) + if last == u then [NoticeFrame(n)] else []
  {
    assert (front + [last])[..|front|] == front;
    var es, e := Broadcast(front, registered, n), Event(last, n);
    if last in registered {
      assert (es + [e])[..|es|] == es;
    } else {
      assert es + [] == es;
    }
  }

  /* The client's view of one channel */

  /** What a client holds of one channel: its snowflake list, and its messages. */
  datatype View = View(history: seq<uint64>, messages: seq<MessageVal>)

  /** A working session, logged in, that holds `w` of channel `c`. */
  ghost predicate Sees(v: SessionVal, c: Uuid, w: View) {
    && v.Valid() && v.user.Some? && c in v.channels
    && v.channels[c].history == w.history && v.messages[c] == w.messages
  }

  /** What one signal does to the view of channel `c`. */
  function Effect(n: Notice, c: Uuid, w: View): View {
    match n
    case ChannelAdded(_) => w
    case MessageReceived(m) =>
      if m.channel == c then View(w.history + [m.snowflake], w.messages + [m]) else w
    case MessageDeleted(m) =>
      if m.channel == c then w.(history := Without(w.history, m.snowflake)) else w
  }

  function Effects(n: Notice, c: Uuid, w: View, j: nat): View {
    if j == 0 then w else Effect(n, c, Effects(n, c, w, j - 1))
  }

  lemma {:induction false} NoticeSeen(v: SessionVal, n: Notice, c: Uuid, w: View)
    requires Sees(v, c, w) && NoticeFits(n) && (n.ChannelAdded? ==> n.channel.uid != c)
    ensures ApplyFrames(v, [NoticeFrame(n)]).Some?
    ensures Sees(ApplyFrames(v, [NoticeFrame(n)]).value, c, Effect(n, c, w))
  {
    ApplyOne(v, NoticeFrame(n));
    NoticeArrives(v, n);
    SessionStaysValid(v, [NoticeFrame(n)]);
  }

  lemma {:induction false} RepeatSeen(v: SessionVal, n: Notice, c: Uuid, w: View, j: nat)
    requires Sees(v, c, w) && NoticeFits(n) && (n.ChannelAdded? ==> n.channel.uid != c)
    ensures ApplyFrames(v, Repeat(NoticeFrame(n), j)).Some?
    ensures Sees(ApplyFrames(v, Repeat(NoticeFrame(n), j)).value, c, Effects(n, c, w, j))
  {
    if j > 0 {
      RepeatSeen(v, n, c, w, j - 1);
      ApplyConcat(v, Repeat(NoticeFrame(n), j - 1), [NoticeFrame(n)]);
      NoticeSeen(ApplyFrames(v, Repeat(NoticeFrame(n), j - 1)).value, n, c, Effects(n, c, w, j - 1));
    }
  }

  lemma {:induction false} ReceivedTimes(m: MessageVal, c: Uuid, w: View, j: nat)
    ensures Effects(MessageReceived(m), c, w, j)
         == if m.channel == c then View(w.history + Repeat(m.snowflake, j), w.messages + Repeat(m, j)) else w
  {
    if j > 0 {
      ReceivedTimes(m, c, w, j - 1);
      assert w.history + Repeat(m.snowflake, j - 1) + [m.snowflake] == w.history + Repeat(m.snowflake, j);
      assert w.messages + Repeat(m, j - 1) + [m] == w.messages + Repeat(m, j);
    } else {
      assert w.history + Repeat(m.snowflake, 0) == w.history && w.messages + Repeat(m, 0) == w.messages;
    }
  }

  lemma {:induction false} DeletedTimes(m: MessageVal, c: Uuid, w: View, j: nat)
    ensures Effects(MessageDeleted(m), c, w, j)
         == if m.channel == c && j > 0 then w.(history := Without(w.history, m.snowflake)) else w
  {
    if j > 1 {
      DeletedTimes(m, c, w, j - 1);
      assert {m.snowflake} + {m.snowflake} == {m.snowflake};
      MinusTwice(w.history, {m.snowflake}, {m.snowflake});
    } else if j == 1 {
      assert Effects(MessageDeleted(m), c, w, 0) == w;
    }
  }

  lemma {:induction false} AddedTimes(ch: ChannelVal, c: Uuid, w: View, j: nat)
    ensures Effects(ChannelAdded(ch), c, w, j) == w
  {
    if j > 0 {
      AddedTimes(ch, c, w, j - 1);
    }
  }

  lemma {:induction false} BroadcastSeen(v: SessionVal, c: Uuid, w: View, u: Uuid, members: seq<Uuid>,
                                         registered: set<Uuid>, n: Notice)
    requires Sees(v, c, w) && NoticeFits(n) && (n.ChannelAdded? ==> n.channel.uid != c) && u in registered
    ensures var r := ApplyFrames(v, FramesFor(u, Broadcast(members, registered, n)));
      r.Some? && Sees(r.value, c, Effects(n, c, w, multiset(members)[u]))
  {
    BroadcastFrames(u, members, registered, n);
    RepeatSeen(v, n, c, w, multiset(members)[u]);
  }

  /* Account deletions of other members */

  /** The view without some messages in its snowflake list. */
  function Losing(w: View, dead: set<uint64>): View {
    w.(history := Minus(w.history, dead))
  }

  /** One message of channel `d` examined while `x` leaves it. */
  lemma {:induction false} RetractSeen(v: SessionVal, c: Uuid, w: View, u: Uuid, s: DbVal, x: Uuid, k: uint64,
                                       members: seq<Uuid>)
    requires Sees(v, c, w) && u in s.users && k in s.messages && s.messages[k].snowflake == k
    requires MessageFits(s.messages[k]) && (s.messages[k].channel == c ==> multiset(members)[u] > 0)
    ensures var r := ApplyFrames(v, FramesFor(u, RetractEvents(s, x, k, members)));
      && r.Some?
      && Sees(r.value, c, if s.messages[k].channel == c && s.messages[k].sender == x then Losing(w, {k}) else w)
  {
    if s.messages[k].sender == x {
      BroadcastSeen(v, c, w, u, members, s.users.Keys, MessageDeleted(s.messages[k]));
      DeletedTimes(s.messages[k], c, w, multiset(members)[u]);
    }
  }

  lemma {:induction false} LosingMore(w: View, s: DbVal, x: Uuid, history: seq<uint64>, i: nat)
    requires i < |history| && history[i] in s.messages
    ensures Losing(w, SentAmong(s.messages, x, history[..i + 1]))
         == var r := Losing(w, SentAmong(s.messages, x, history[..i]));
            if s.messages[history[i]].sender == x then Losing(r, {history[i]}) else r
  {
    var dead := SentAmong(s.messages, x, history[..i]);
    SentAmongStep(s.messages, x, history, i);
    MinusTwice(w.history, dead, {history[i]});
    assert dead + {} == dead;
  }

  lemma {:induction false} UnlistSeen(v: SessionVal, c: Uuid, w: View, u: Uuid, s: DbVal, x: Uuid, d: Uuid,
                                      members: seq<Uuid>, n: nat)
    requires Sees(v, c, w) && Keyed(s) && Ordered(s) && TablesFit(s) && u in s.users && d in s.channels
    requires n <= |s.channels[d].history| && (d == c ==> multiset(members)[u] > 0)
    ensures var history := s.channels[d].history[..n];
      var r := ApplyFrames(v, FramesFor(u, UnlistEvents(s.messages, s.users.Keys, members, history, x)));
      r.Some? && Sees(r.value, c, if d == c then Losing(w, SentAmong(s.messages, x, history)) else w)
  {
    var history := s.channels[d].history;
    if n == 0 {
      MinusNothing(w.history, SentAmong(s.messages, x, []));
    } else {
      var i := n - 1;
      var k, front := history[i], history[..i];
      assert k in history;
      UnlistSeen(v, c, w, u, s, x, d, members, i);
      UnlistEventsNext(s, members, history, i, x);
      var es, more := UnlistEvents(s.messages, s.users.Keys, members, front, x), RetractEvents(s, x, k, members);
      FramesForConcat(u, es, more);
      ApplyConcat(v, FramesFor(u, es), FramesFor(u, more));
      var w1 := if d == c then Losing(w, SentAmong(s.messages, x, front)) else w;
      RetractSeen(ApplyFrames(v, FramesFor(u, es)).value, c, w1, u, s, x, k, members);
      LosingMore(w, s, x, history, i);
    }
  }

  /** Leaving one channel, whether it is the followed one or another. */
  lemma {:induction false} LeaveSeen(v: SessionVal, c: Uuid, w: View, u: Uuid, s: DbVal, x: Uuid, d: Uuid)
    requires Sees(v, c, w) && Keyed(s) && Ordered(s) && TablesFit(s) && u in s.users && u != x
    requires c in s.channels && multiset(s.channels[c].members)[u] > 0
    requires forall k :: k in w.history ==> k in s.channels[c].history
    ensures var r := ApplyFrames(v, FramesFor(u, LeaveEvents(s, x, s.channels, d)));
      r.Some? && Sees(r.value, c, if d == c then Losing(w, SentBy(s.messages, x)) else w)
  {
    if d in s.channels {
      var history, members := s.channels[d].history, Without(s.channels[d].members, x);
      MinusCount(s.channels[d].members, {x}, u);
      UnlistSeen(v, c, w, u, s, x, d, members, |history|);
      assert history[..|history|] == history;
      if d == c {
        MinusSame(w.history, SentAmong(s.messages, x, history), SentBy(s.messages, x));
      }
    }
  }

  lemma {:induction false} DepartureSeen(v: SessionVal, c: Uuid, w: View, u: Uuid, s: DbVal, x: Uuid, cs: seq<Uuid>)
    requires Sees(v, c, w) && Keyed(s) && Ordered(s) && TablesFit(s) && u in s.users && u != x
    requires c in s.channels && multiset(s.channels[c].members)[u] > 0
    requires forall k :: k in w.history ==> k in s.channels[c].history
    ensures var r := ApplyFrames(v, FramesFor(u, DepartureEvents(s, x, cs)));
      r.Some? && Sees(r.value, c, if c in cs then Losing(w, SentBy(s.messages, x)) else w)
  {
    if cs != [] {
      var n := |cs| - 1;
      var front, d := cs[..n], cs[n];
      assert cs == front + [d];
      DepartureSeen(v, c, w, u, s, x, front);
      var es := DepartureEvents(s, x, front);
      var more := if d in front then [] else LeaveEvents(s, x, s.channels, d);
      assert DepartureEvents(s, x, cs) == es + more;
      FramesForConcat(u, es, more);
      ApplyConcat(v, FramesFor(u, es), FramesFor(u, more));
      if d !in front {
        var w1 := if c in front then Losing(w, SentBy(s.messages, x)) else w;
        forall k | k in w1.history ensures k in s.channels[c].history {
          MinusMembers(w.history, SentBy(s.messages, x), k);
        }
        LeaveSeen(ApplyFrames(v, FramesFor(u, es)).value, c, w1, u, s, x, d);
      }
    }
  }

  /* Steps */

  /** What the client of a user listed `k` times holds of a channel to which `sent` has been sent since it
      was created: every entry of the server's list, and every message, `k` times. */
  function Repeated(history: seq<uint64>, sent: seq<MessageVal>, k: nat): View {
    View(RepeatEach(history, k), RepeatEach(sent, k))
  }

  /** The client of `u` follows channel `c`, which lists `u` `k` times. */
  ghost predicate Follows(v: SessionVal, s: DbVal, u: Uuid, c: Uuid, k: nat, sent: seq<MessageVal>) {
    && u in s.users && c in s.channels && k > 0 && multiset(s.channels[c].members)[u] == k
    && Sees(v, c, Repeated(s.channels[c].history, sent, k))
  }

  lemma {:induction false} DeparturesFit(s: DbVal, w: Uuid)
    requires TablesFit(s) && RemoveUser(s, w).Some?
    ensures TablesFit(RemoveUser(s, w).value.0)
  {
    forall c | c in s.channels ensures |Without(s.channels[c].members, w)| <= |s.channels[c].members| {
    }
  }

  /** Requests keep every string and list within a one-byte length. */
  lemma {:induction false} StepFits(x: ServerVal, hash: Text -> Text, op: Op)
    requires x.gen.Valid() && TablesFit(x.db) && FromRequest(op) && OpFits(op)
    ensures TablesFit(Step(x, hash, op).0.db)
  {
    if op.Unregister? && Authentic(x.db, hash, op.username, op.password) {
      DeparturesFit(x.db, Lookup(x.db, op.username).value);
    }
  }

  lemma {:induction false} SendSeen(v: SessionVal, s: DbVal, u: Uuid, c: Uuid, k: nat, sent: seq<MessageVal>,
                                    m: MessageVal)
    requires Follows(v, s, u, c, k, sent) && m.channel in s.channels && MessageFits(m)
    ensures var r := ApplyFrames(v, FramesFor(u, AddMessage(s, m).1));
      r.Some? && Follows(r.value, AddMessage(s, m).0, u, c, k, if m.channel == c then sent + [m] else sent)
  {
    var h := s.channels[c].history;
    var w, members: seq<Uuid> := Repeated(h, sent, k), s.channels[m.channel].members;
    BroadcastSeen(v, c, w, u, members, s.users.Keys, MessageReceived(m));
    ReceivedTimes(m, c, w, multiset(members)[u]);
    RepeatEachAppend(h, m.snowflake, k);
    RepeatEachAppend(sent, m, k);
  }

  lemma {:induction false} DeleteSeen(v: SessionVal, s: DbVal, u: Uuid, c: Uuid, k: nat, sent: seq<MessageVal>,
                                      snowflake: uint64)
    requires Follows(v, s, u, c, k, sent) && RemoveMessage(s, snowflake).Some? && TablesFit(s) && Keyed(s)
    ensures var r := ApplyFrames(v, FramesFor(u, RemoveMessage(s, snowflake).value.1));
      r.Some? && Follows(r.value, RemoveMessage(s, snowflake).value.0, u, c, k, sent)
  {
    var h, m := s.channels[c].history, s.messages[snowflake];
    var w, members: seq<Uuid> := Repeated(h, sent, k), s.channels[m.channel].members;
    BroadcastSeen(v, c, w, u, members, s.users.Keys, MessageDeleted(m));
    DeletedTimes(m, c, w, multiset(members)[u]);
    RepeatEachMinus(h, k, {snowflake});
  }

  lemma {:induction false} CreateSeen(v: SessionVal, s: DbVal, u: Uuid, c: Uuid, k: nat, sent: seq<MessageVal>,
                                      ch: ChannelVal)
    requires Follows(v, s, u, c, k, sent) && ch.uid !in s.channels && ChannelFits(ch)
    ensures var r := ApplyFrames(v, FramesFor(u, AddChannel(s, ch).1));
      r.Some? && Follows(r.value, AddChannel(s, ch).0, u, c, k, sent)
  {
    var w := Repeated(s.channels[c].history, sent, k);
    BroadcastSeen(v, c, w, u, ch.members, s.users.Keys, ChannelAdded(ch));
    AddedTimes(ch, c, w, multiset(ch.members)[u]);
  }

  lemma {:induction false} DepartSeen(v: SessionVal, s: DbVal, u: Uuid, c: Uuid, k: nat, sent: seq<MessageVal>, x: Uuid)
    requires Follows(v, s, u, c, k, sent) && Consistent(s) && TablesFit(s) && RemoveUser(s, x).Some? && u != x
    ensures var r := ApplyFrames(v, FramesFor(u, RemoveUser(s, x).value.1));
      r.Some? && Follows(r.value, RemoveUser(s, x).value.0, u, c, k, sent)
  {
    var h, cs := s.channels[c].history, s.users[x].channels;
    forall y | y in RepeatEach(h, k) ensures y in h {
      RepeatEachMembers(h, k, y);
    }
    DepartureSeen(v, c, Repeated(h, sent, k), u, s, x, cs);
    RepeatEachMinus(h, k, SentBy(s.messages, x));
    MinusCount(s.channels[c].members, {x}, u);
  }

  lemma {:induction false} RepeatEachMembers(s: seq<uint64>, k: nat, x: uint64)
    requires x in RepeatEach(s, k)
    ensures x in s
  {
    var n := |s| - 1;
    assert s == s[..n] + [s[n]];
    if x in RepeatEach(s[..n], k) {
      RepeatEachMembers(s[..n], k, x);
    } else {
      RepeatMembers(s[n], k, x);
    }
  }

  /** The message a step sends to channel `c`, if it does. */
  ghost function SentIn(x: ServerVal, op: Op, c: Uuid): seq<MessageVal>
    requires x.gen.Valid()
  {
    if op.Send? && op.channel == c && c in x.db.channels && Next(x.gen, op.clock).0.Issued? then
      [NewMessage(Next(x.gen, op.clock).0.id, op.sender, c, op.text, op.now)]
    else []
  }

  /** The messages a run sends to channel `c`, deleted or not. */
  ghost function Sent(x: ServerVal, hash: Text -> Text, ops: seq<Op>, c: Uuid): seq<MessageVal>
    requires x.gen.Valid()
    decreases |ops|
  {
    if ops == [] then [] else SentIn(x, ops[0], c) + Sent(Step(x, hash, ops[0]).0, hash, ops[1..], c)
  }

  /** A send that reaches its channel, and the id it is issued. */
  datatype Post = Post(op: Op, id: int)

  ghost function PostsIn(x: ServerVal, op: Op, c: Uuid): seq<Post>
    requires x.gen.Valid()
  {
    if op.Send? && op.channel == c && c in x.db.channels && Next(x.gen, op.clock).0.Issued?
    then [Post(op, Next(x.gen, op.clock).0.id)] else []
  }

  ghost function Posts(x: ServerVal, hash: Text -> Text, ops: seq<Op>, c: Uuid): seq<Post>
    requires x.gen.Valid()
    decreases |ops|
  {
    if ops == [] then [] else PostsIn(x, ops[0], c) + Posts(Step(x, hash, ops[0]).0, hash, ops[1..], c)
  }

  /** The message says what the request said: its sender, channel and text, the time it was handled, and its
      sender as the only reader. */
  predicate Carries(m: MessageVal, p: Post) {
    && p.op.Send? && m.snowflake == p.id
    && m.sender == p.op.sender && m.channel == p.op.channel && m.text == p.op.text
    && m.createdAt == p.op.now && m.modifiedAt == p.op.now && m.readBy == [p.op.sender]
  }

  predicate AllCarry(ms: seq<MessageVal>, posts: seq<Post>) {
    |ms| == |posts| && forall i :: 0 <= i < |ms| ==> Carries(ms[i], posts[i])
  }

  lemma {:induction false} SentInAsPosted(x: ServerVal, op: Op, c: Uuid)
    requires Sound(x) && Enabled(x, op)
    ensures AllCarry(SentIn(x, op, c), PostsIn(x, op, c))
  {
    if op.Send? {
      DrawnAbove(x.gen, op.clock);
    }
  }

  /** The messages a run sends to a channel are those of its requests, one for one and in order. */
  lemma {:induction false} SentAsPosted(x: ServerVal, hash: Text -> Text, ops: seq<Op>, c: Uuid)
    requires Sound(x) && RunEnabled(x, hash, ops)
    ensures AllCarry(Sent(x, hash, ops, c), Posts(x, hash, ops, c))
    decreases |ops|
  {
    if ops != [] {
      StepSound(x, hash, ops[0]);
      SentInAsPosted(x, ops[0], c);
      SentAsPosted(Step(x, hash, ops[0]).0, hash, ops[1..], c);
    }
  }

  lemma {:induction false} SendFollowed(v: SessionVal, x: ServerVal, hash: Text -> Text, op: Op, u: Uuid, c: Uuid,
                                        k: nat, sent: seq<MessageVal>)
    requires x.gen.Valid() && op.Send? && OpFits(op) && Follows(v, x.db, u, c, k, sent)
    ensures var r := ApplyFrames(v, FramesFor(u, Step(x, hash, op).1));
      r.Some? && Follows(r.value, Step(x, hash, op).0.db, u, c, k, sent + SentIn(x, op, c))
  {
    assert sent + [] == sent;
    var outcome := Next(x.gen, op.clock).0;
    if op.channel in x.db.channels && outcome.Issued? {
      SendSeen(v, x.db, u, c, k, sent, NewMessage(outcome.id, op.sender, op.channel, op.text, op.now));
    }
  }

  /** A step that is not a send. */
  lemma {:induction false} OtherFollowed(v: SessionVal, x: ServerVal, hash: Text -> Text, op: Op, u: Uuid, c: Uuid,
                                         k: nat, sent: seq<MessageVal>)
    requires x.gen.Valid() && Consistent(x.db) && TablesFit(x.db) && Enabled(x, op) && FromRequest(op) && OpFits(op)
    requires !op.Send? && Follows(v, x.db, u, c, k, sent) && u in Step(x, hash, op).0.db.users
    ensures var r := ApplyFrames(v, FramesFor(u, Step(x, hash, op).1));
      r.Some? && Follows(r.value, Step(x, hash, op).0.db, u, c, k, sent)
  {
    var s := x.db;
    match op {
      case Unregister(username, password) =>
        if Authentic(s, hash, username, password) {
          DepartSeen(v, s, u, c, k, sent, Lookup(s, username).value);
        }
      case Create(name, members, uid) =>
        CreateSeen(v, s, u, c, k, sent, ChannelVal(uid, name, members, []));
      case Delete(snowflake) =>
        if RemoveMessage(s, snowflake).Some? {
          DeleteSeen(v, s, u, c, k, sent, snowflake);
        }
      case _ =>
    }
  }

  /** One step of the server: the signals it causes do not break the client, which still follows the
      channel afterwards. */
  lemma {:induction false} StepFollowed(v: SessionVal, x: ServerVal, hash: Text -> Text, op: Op, u: Uuid, c: Uuid,
                                        k: nat, sent: seq<MessageVal>)
    requires Sound(x) && TablesFit(x.db) && Enabled(x, op) && FromRequest(op) && OpFits(op)
    requires Follows(v, x.db, u, c, k, sent) && u in Step(x, hash, op).0.db.users
    ensures var r := ApplyFrames(v, FramesFor(u, Step(x, hash, op).1));
      r.Some? && Follows(r.value, Step(x, hash, op).0.db, u, c, k, sent + SentIn(x, op, c))
  {
    if op.Send? {
      SendFollowed(v, x, hash, op, u, c, k, sent);
    } else {
      OtherFollowed(v, x, hash, op, u, c, k, sent);
      assert sent + [] == sent;
    }
  }

  /** The signals of a channel's creation leave the client with the new, empty channel. */
  lemma {:induction false} AddedSeen(v: SessionVal, ch: ChannelVal, j: nat)
    requires v.Valid() && v.user.Some? && ChannelFits(ch) && ch.history == [] && j > 0
    ensures var r := ApplyFrames(v, Repeat(NoticeFrame(ChannelAdded(ch)), j));
      r.Some? && Sees(r.value, ch.uid, View([], []))
  {
    var f := NoticeFrame(ChannelAdded(ch));
    if j > 1 {
      AddedSeen(v, ch, j - 1);
      ApplyConcat(v, Repeat(f, j - 1), [f]);
    } else {
      assert Repeat(f, 1) == [f];
    }
    var v1 := if j > 1 then ApplyFrames(v, Repeat(f, j - 1)).value else v;
    ApplyOne(v1, f);
    NoticeArrives(v1, ChannelAdded(ch));
    SessionStaysValid(v1, [f]);
    assert Received(ch).history == [];
  }

  /** Once a channel listing a user `k` times has been created, the user's client follows it. */
  lemma {:induction false} CreationSeen(v: SessionVal, s: DbVal, ch: ChannelVal, u: Uuid)
    requires v.Valid() && v.user.Some? && ChannelFits(ch) && ch.history == []
    requires ch.uid !in s.channels && u in ch.members && u in s.users
    ensures var r := ApplyFrames(v, FramesFor(u, AddChannel(s, ch).1));
      r.Some? && Follows(r.value, AddChannel(s, ch).0, u, ch.uid, multiset(ch.members)[u], [])
  {
    CountIn(ch.members, u);
    BroadcastFrames(u, ch.members, s.users.Keys, ChannelAdded(ch));
    AddedSeen(v, ch, multiset(ch.members)[u]);
    assert AddChannel(s, ch).0.channels[ch.uid] == ch;
  }

  /* The signals of a step */

  /** A signal whose record fits its length bytes, and whose frame fits its length field. */
  predicate Modest(n: Notice) {
    NoticeFits(n) && FrameFits(NoticeFrame(n))
  }

  /** Every signal of a step is modest, and only a creation adds a channel. */
  lemma {:induction false} StepNotices(x: ServerVal, hash: Text -> Text, op: Op, e: Event)
    requires x.gen.Valid() && Keyed(x.db) && Ordered(x.db) && TablesFit(x.db) && FromRequest(op) && OpFits(op)
    requires e in Step(x, hash, op).1
    ensures Modest(e.notice) && (e.notice.ChannelAdded? ==> op.Create?)
  {
    var s := x.db;
    match op {
      case Unregister(username, _) =>
        var w := Lookup(s, username).value;
        DepartureReaches(s, w, s.users[w].channels, e);
      case Create(name, members, uid) =>
        BroadcastReaches(members, s.users.Keys, ChannelAdded(ChannelVal(uid, name, members, [])), e);
      case Send(sender, channel, text, clock, now) =>
        var m := NewMessage(Next(x.gen, clock).0.id, sender, channel, text, now);
        BroadcastReaches(s.channels[channel].members, s.users.Keys, MessageReceived(m), e);
      case Delete(snowflake) =>
        var m := s.messages[snowflake];
        BroadcastReaches(s.channels[m.channel].members, s.users.Keys, MessageDeleted(m), e);
    }
    NoticeFrameFits(e.notice);
  }
}
