/** From the server's tables, over bytes cut into chunks, to the client's session. */
module EndToEnd {
  import opened Arrival
  import opened Bytes
  import opened Client
  import opened Connection
  import opened Consistency
  import opened Live
  import opened Mirror
  import opened Replay
  import opened Replies
  import opened Service
  import opened Stream
  import opened Tables
  import opened Wire

  /** The frames of a visit fit if the user's channel records and the answers to the client's own searches
      do. */
  lemma {:induction false} VisitFits(x: ServerVal, hash: Text -> Text, login: Op, calls: seq<Call>, u: Uuid)
    requires Lasting(x, hash, calls, u) && LogsInAs(x.db, hash, login, u)
    ensures FramesFit(Visit(x, hash, login, calls, u)) <==>
      && SearchesFit(x, hash, calls)
      && forall c :: c in x.db.users[u].channels && c in x.db.channels ==> RecordFits(x.db.channels[c])
  {
    LoginAnswered(x.db, hash, login, u, EMPTY);
    LoginPayloadsFit(x.db, u);
    RunFramesFit(x, hash, calls, u);
    FramesFitConcat(LoginFrames(x.db, u), RunFrames(x, hash, calls, u));
  }

  /** A client is started on the bytes that answer a login with the right password, cut into chunks whose
      payloads come in time. Its session is then exactly what the login restores. */
  method ReceiveLogin(ghost s: DbVal, ghost hash: Text -> Text, ghost login: Op, ghost u: Uuid, chunks: seq<Text>,
                      random: Uuid)
    returns (client: TcpClient)
    requires Consistent(s) && TablesFit(s) && LogsInAs(s, hash, login, u)
    requires forall c :: c in s.users[u].channels ==> RecordFits(s.channels[c])
    requires var fs := Answers(s, hash, login); Flatten(chunks) == EncodeFrames(fs) && InTime(chunks, fs)
    ensures client.session.Valid() && client.socket == []
    ensures client.session.State() == Restored(s, s.users[u].profile, s.users[u].channels)
  {
    ghost var fs := Answers(s, hash, login);
    LoginAnswered(s, hash, login, u, EMPTY);
    LoginPayloadsFit(s, u);
    DeliveredExactly(chunks, fs);
    client := ReceiveStream(fs, chunks, random);
  }

  /** A client is started on the bytes that answer a login with the right password, and of a creation that
      lists its user once and any run that follows, in which its own calls delete no account. If the
      payloads come in time, its session holds of the new channel exactly the server's snowflake list, and
      of every request that sent a message there the message, in order. */
  method ReceiveVisit(ghost x: ServerVal, ghost hash: Text -> Text, ghost login: Op, ghost calls: seq<Call>,
                      ghost u: Uuid, chunks: seq<Text>, random: Uuid)
    returns (client: TcpClient)
    requires Lasting(x, hash, calls, u) && LogsInAs(x.db, hash, login, u) && !EverErases(x, hash, calls)
    requires calls != [] && calls[0].op.Create? && multiset(calls[0].op.members)[u] == 1
    requires SearchesFit(x, hash, calls)
    requires forall c :: c in x.db.users[u].channels && c in x.db.channels ==> RecordFits(x.db.channels[c])
    requires var fs := Visit(x, hash, login, calls, u); Flatten(chunks) == EncodeFrames(fs) && InTime(chunks, fs)
    ensures client.session.Valid() && client.socket == []
    ensures Mirrors(Some(client.session.State()), Run(x, hash, Ops(calls)).db, calls[0].op.uid, 1,
                    Posts(x, hash, Ops(calls), calls[0].op.uid))
  {
    ghost var fs := Visit(x, hash, login, calls, u);
    VisitFits(x, hash, login, calls, u);
    LoginThenLive(x, hash, login, calls, u);
    DeliveredExactly(chunks, fs);
    client := ReceiveStream(fs, chunks, random);
  }
}
