/** What a handler answers on the connection its request came from
    (src/bin/server/model/message_handlers.cpp). */
module Replies {
  import opened Bytes
  import opened Consistency
  import opened Models
  import opened Replay
  import opened Service
  import opened Tables
  import opened Wire

  /** `Crashed` is the uncaught exception of looking at the uid of an unknown username. */
  datatype LoginOutcome = Crashed | Refused(text: Text) | Accepted

  /** How a login ends, given the user the scan for its name found. */
  function LoginResult(s: DbVal, hash: Text -> Text, user: Option<Uuid>, password: Text): LoginOutcome {
    match user
    case None => Crashed
    case Some(u) =>
      match VerifyPassword(s, hash, u, password)
      case None => Refused(Ascii("User does not exist"))
      case Some(false) => Refused(Ascii("Incorrect password"))
      case Some(true) => Accepted
  }

  /** The frames a login writes. */
  function LoginOutput(s: DbVal, hash: Text -> Text, user: Option<Uuid>, password: Text): seq<Frame>
    requires user.Some? ==> user.value in s.users
  {
    match LoginResult(s, hash, user, password)
    case Crashed => []
    case Refused(t) => [Frame(LOGIN, EncodeLogin(Error(t)))]
    case Accepted => LoginFrames(s, user.value)
  }

  /** What a request to delete an account is answered, given the user the scan for its name found. */
  function DeletionReply(s: DbVal, hash: Text -> Text, user: Option<Uuid>, password: Text): Reply<Profile>
    requires user.Some? ==> user.value in s.users
  {
    match user
    case None => Error(Ascii("Username does not exist"))
    case Some(u) =>
      match VerifyPassword(s, hash, u, password)
      case None => Error(Ascii("User does not exist"))
      case Some(false) => Error(Ascii("Username and password do not match"))
      case Some(true) => Ok(s.users[u].profile)
  }

  /** The effect of such a request. */
  function Deletion(s: DbVal, hash: Text -> Text, user: Option<Uuid>, password: Text): (DbVal, seq<Event>)
    requires user.Some? ==> user.value in s.users
  {
    if user.Some? && VerifyPassword(s, hash, user.value, password) == Some(true)
    then RemoveUser(s, user.value).value
    else (s, [])
  }

  /** With unique names, that is the step of the server, whichever user the scan meets first. */
  lemma {:induction false} DeletionIsStep(v: ServerVal, hash: Text -> Text, username: Text, password: Text,
                                          user: Option<Uuid>)
    requires v.gen.Valid() && NamesUnique(v.db) && Finds(v.db, username, user)
    ensures var (s, es) := Deletion(v.db, hash, user, password);
      Step(v, hash, Unregister(username, password)) == (v.(db := s), es)
  {
    ScanIsLookup(v.db, username, user);
  }

  function RegistrationError(taken: bool): Option<Text> {
    if taken then Some(Ascii("Username already exists")) else None
  }

  /** The users found by a search, as far as they are registered. */
  function ProfilesOf(s: DbVal, users: seq<Uuid>): seq<Profile> {
    if users == [] then []
    else
      var last := users[|users| - 1];
      ProfilesOf(s, users[..|users| - 1]) + if last in s.users then [s.users[last].profile] else []
  }

  lemma {:induction false} ProfilesListed(s: DbVal, users: seq<Uuid>)
    requires forall u :: u in users ==> u in s.users
    ensures |ProfilesOf(s, users)| == |users|
    ensures forall i :: 0 <= i < |users| ==> users[i] in users && ProfilesOf(s, users)[i] == s.users[users[i]].profile
  {
    if users != [] {
      var n := |users| - 1;
      assert users == users[..n] + [users[n]];
      ProfilesListed(s, users[..n]);
    }
  }

  function SearchReply(s: DbVal, found: Found): Reply<seq<Profile>> {
    match found
    case Matching(users) => Ok(ProfilesOf(s, users))
    case BadRegex(t) => Error(t)
  }

  /** The profiles of the registered users with matching names, and no others. */
  ghost predicate ListsMatching(s: DbVal, matches: Text -> bool, ps: seq<Profile>) {
    forall p :: p in ps <==> exists u :: u in s.users && matches(s.users[u].profile.username)
                                         && s.users[u].profile == p
  }

  /** The answer to a search, exactly: one profile per user found, in order, and a profile is among them if
      and only if it is that of a registered user with a matching name. */
  lemma {:induction false} SearchAnswered(s: DbVal, matches: Text -> bool, found: Found)
    requires FoundBy(s, Compiled(matches), found)
    ensures var r := SearchReply(s, found);
      && r.Ok? && |r.data| == |found.users|
      && (forall i :: 0 <= i < |r.data| ==>
            found.users[i] in s.users && r.data[i] == s.users[found.users[i]].profile)
      && ListsMatching(s, matches, r.data)
  {
    var ps := SearchReply(s, found).data;
    ProfilesListed(s, found.users);
    forall u | u in s.users && matches(s.users[u].profile.username) ensures s.users[u].profile in ps {
      var i :| 0 <= i < |found.users| && found.users[i] == u;
      assert ps[i] == s.users[u].profile;
    }
  }

  /** The frames a handler writes in answer to its request. Creating a channel, sending and deleting a
      message are answered only through the signals of the members. */
  ghost function Answers(s: DbVal, hash: Text -> Text, op: Op): seq<Frame> {
    match op
    case Register(username, _, _, _, _) =>
      [Frame(REGISTER_ACCOUNT, EncodeRegistered(RegistrationError(Lookup(s, username).Some?)))]
    case LogIn(username, password) => LoginOutput(s, hash, Lookup(s, username), password)
    case Unregister(username, password) =>
      [Frame(DELETE_ACCOUNT, EncodeLogin(DeletionReply(s, hash, Lookup(s, username), password)))]
    case Search(found) => [Frame(LIST_ACCOUNTS, EncodeAccounts(SearchReply(s, found)))]
    case _ => []
  }
}
