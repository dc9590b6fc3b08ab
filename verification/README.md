# Chat server and client: a verified model

A Dafny model of the binary build of this chat application: the server's four tables and its message
handlers, the snowflake generator, the wire format and its framing, and the client's session. The
main results cross the boundaries between these parts:

- **Server to client, over cut bytes** (`EndToEnd.ReceiveLogin`, `EndToEnd.ReceiveVisit`). The bytes of a
  login, and of any run of requests after it, in any chunks whose payloads arrive in time, leave the
  client's session as it should be.
- **Live mirror** (`Connection.LiveMirror`). Over every run, with the signals of the user and the answers to
  the client's own requests, the client keeps a channel created for it exactly if it deletes no account from
  its own connection; what it then holds of the channel is given exactly.
- **Login replay** (`Connection.ReachableLogin`, `Connection.RegisteredLogsIn`). In every reachable state the
  answer to a login restores the user's channels and messages if and only if the password is accepted, and a
  registered password is accepted until the account is deleted.
- **Requests** (`Requests.SendOutcome` and six more). What the bytes of each request do to the tables, whom
  they tell, and what they are answered, in the request's own terms.
- **Read loop** (`Arrival.DeliveredExactly`, `Client.ReceiveStream`). A stream is dispatched as it was sent
  if and only if, for every frame, at most a hundred chunks lie between header and payload. Otherwise the
  loop drops a header and goes on in the middle of a payload (`Arrival.LateFrame`).
- **Cross-table invariants** (`Service.ReachableConsistent`). Membership symmetry with multiplicity,
  ordered histories, conservation of messages and unique names hold in every reachable state.
- **Life of messages and accounts** (`Service.MessagesPersist`, `Service.UnlistedExactly`,
  `Service.CredentialsLast`). When a message is stored, when it is listed, and how long an account and its
  password last, each as an equivalence over runs.
- **Codecs**, each with the exact condition under which a value survives, and **snowflakes** over whole
  runs of a clock.

## Layout

| module | models |
|---|---|
| Bits, Bytes, Lists | machine words, byte buffers and their readers, the list operations of the standard library |
| UuidText | the hexadecimal form of a UUID |
| Snowflake | the id generator as a clocked state machine and as an object |
| Models, Objects | users, channels and messages: record formats, and the objects that hold and serialise them |
| Wire, Packets | headers, frames, responses and requests as formats, and the objects that write and read them |
| Stream, Arrival | splitting a byte stream into frames, and what the read loop does as the stream arrives in chunks |
| Tables, Storage | the effect of each database operation on the four tables, and the `Database` object that has it |
| Consistency | the invariants across the tables, and that each operation keeps them |
| Service | the server as a state machine, and its runs |
| Replies, Requests | what the handlers answer, and what the bytes of each request achieve |
| Handlers | the handlers of one connection, on the shared database |
| Mirror, Client | the session as a value, and the session and socket objects |
| Replay, Live | what a login writes and restores, and what the signals of a step do to a client |
| Connection, EndToEnd | one connection over a run: signals, answers and bytes, up to the client's session |

Code that changes objects is a class whose methods are proved against a function of the old state; the
properties are proved about those functions. Event order, shared objects and update in place are those of
the source: the database maps uids to `User` and `Channel` objects, and its loops change them one at a time.

## Assumptions

- Handlers run one after another; NOTEBOOK.md:109 says that synchronising the database was not a goal.
- The uid of a new user or channel has not appeared before (src/models/uuid.cpp:9-17). UUIDs and salts are
  parameters.
- `sha256` is an arbitrary function from byte strings to byte strings.
- A signal's payload is the object's value when it is emitted, and signals are delivered in that order. On the
  connection a request came from, they are written before its answer.
- Each call of the generator is given its clock readings in order; a call whose readings run out has not
  returned. Where an id must be a positive 63-bit number the readings lie in the 2^40 milliseconds from the
  epoch.
- `Database::remove_user` erases from a channel's snowflake vector while iterating over it
  (src/bin/server/db/database.cpp:147-155); the model iterates over the vector as it was.
- The host is little-endian (src/models/message.cpp:29-34).
- The chunks a client receives, one at each readiness signal or sleep of a retry, are a list of byte strings;
  nothing limits how the stream is cut, and an empty chunk is a sleep in which nothing arrives.
- What `std::regex` matches is an arbitrary predicate on names, and whether an expression compiles is arbitrary.
- A decoder that would read past its buffer has no result (`Short`); methods that decode require a result,
  since the source's behaviour there is undefined.

## Where the source and its documentation or intent disagree

- The repository's README.md:269 says account deletion removes the user's messages from the message table and a channel
  whose only member it was. It removes neither (`Service.DeletionNotAsDocumented` is a run that
  shows it, and `Consistency.DeletionAsDocumented` gives the exact case in which there is nothing to remove).
- `on_delete_account` does not look at who is logged in, and its answer resets the client it came from
  (src/bin/client/model/message_handlers.cpp:49-59), whoever's account it was; the next channel created for the
  user of that client is then an uncaught exception (`Connection.MeddlingBreaks`).
- After a payload that does not come in time the read loop drops the header and reads the payload as headers
  (src/bin/client/model/tcp_client.cpp:127-135; `Arrival.LateFrame`).
- `on_login` reads the uid of an unknown username before testing that there is one
  (src/bin/server/model/message_handlers.cpp:55-57), so that login ends in an uncaught exception and the
  message "Username does not exist" is never sent (`Handlers.ClientHandler.OnLogin`).
- `Channel::serialize` writes one byte of each 64-bit snowflake (src/models/channel.cpp:28-32), so a client
  that logs in holds stray entries in front of a replayed history (`Replay.RestoredAgrees`).
- `Session::remove_message` erases stored messages by pointer and snowflakes by value
  (src/bin/client/model/session.cpp:69-71), so a deletion that arrives over the wire keeps the message and
  drops the snowflake (`Mirror.DeletionKeepsMessages`).
- `Channel::deserialize` and `CreateChannelMessage::deserialize` append to the lists already there
  (`Models.ChannelDecodesTwice`).
- Lengths are written in one byte, and packet lengths in two, without a check; every round trip below
  says exactly which values survive.

## Model

| member | source | states |
|---|---|---|
| EndToEnd.ReceiveVisit | src/bin/client/model/tcp_client.cpp:108-140 | a new client, fed the bytes that answer a login with the right password and those of a creation that lists its user once and of any run that follows, cut into chunks whose payloads arrive in time, ends with exactly the server's snowflake list for that channel and, for each request that sent a message there, in order, a message with its sender, text and time, provided no call made on its own connection deletes an account |
| EndToEnd.ReceiveLogin | src/bin/server/model/message_handlers.cpp:46-107 | a new client, fed the bytes that answer a login with the right password, cut into chunks whose payloads arrive in time, ends with exactly the session of the user named |
| EndToEnd.VisitFits | src/message/header.cpp:9-14 | the frames of a login and a run fit their length fields if and only if the user's channel records and the answers to the client's own account searches do |
| Connection.LiveMirror | src/bin/server/model/message_handlers.cpp:135-158 | a channel listing a logged-in user `k` times is created, and any calls follow, on this connection or others, in which the account survives and no login is accepted here: the client survives and keeps the channel if and only if no call made on its connection deletes an account; then its snowflake list is the server's with every entry `k` times, and entry `n` of its messages has the sender, text and time of the `n / k`-th request that sent one there; otherwise it is reset, and stops with an exception exactly if a later creation lists the user |
| Connection.MeddlingBreaks | src/bin/client/model/message_handlers.cpp:49-74 | a concrete run from the empty server: a client deletes another user's account, its session is reset by the answer, and the next channel created for its user, who is still registered, is an exception |
| Connection.LoginThenLive | src/bin/server/model/message_handlers.cpp:83-106 | from a reset session, the answer to a login with the right password and the frames of such a run without deletions leave the client with the server's list and the messages of all requests |
| Connection.ReachableLogin | src/bin/server/model/message_handlers.cpp:46-107 | in every state requests can reach, the answer to a login restores the session of the user named if and only if the password is accepted, and otherwise leaves any client as it was; its bytes split back if every channel record of the user has at most 65535 bytes, which is exactly when every payload fits its length field |
| Connection.LoginAnswered | src/bin/server/model/message_handlers.cpp:52-81 | the answer to a login under a user's name restores that user's session if and only if the salted password has the stored digest; any other password is answered with the one frame "Incorrect password" |
| Connection.UnknownName | src/bin/server/model/message_handlers.cpp:55-57 | a login under a name nobody has is not answered |
| Connection.RegisteredLogsIn | src/bin/server/model/message_handlers.cpp:23-107 | after a registration in a reachable state and any run in which no request deletes the account, a login with the registered password gives a client the session of a user with the registered uid, username and display name, and so does exactly every password of the same digest |
| Connection.RunFramesFit | src/message/header.cpp:9-14 | every frame of a run on a connection fits its length field if and only if the answers to its own account searches do |
| Connection.AnswerHandled | src/bin/client/model/message_handlers.cpp:12-59 | the answer to any request but an accepted login leaves the client's session alone, unless it confirms the deletion of an account, which resets it |
| Connection.RunFits | src/bin/server/model/message_handlers.cpp:23-173 | over every run of requests that fit, all strings and lists of the database keep fitting one-byte lengths |
| Replay.LoginRestores | src/bin/server/model/message_handlers.cpp:46-107 | the bytes of a successful login, in any consistent database whose strings and lists fit one-byte lengths and whose channel records fit the length field, split back with nothing left over, and handling the frames from a reset session gives `Restored`: the user with all its channels, for each the server's messages in list order, and the last channel open; channels may repeat |
| Replay.LoginApplies | src/bin/server/model/message_handlers.cpp:83-106 | handling the frames of a login from a reset session restores it, whatever their size |
| Replay.RestoredAgrees | src/models/channel.cpp:28-32 | after a login the message map has exactly the user's channels as keys, and the snowflake list of a channel is the server's if and only if its length is a multiple of 256, because the channel record already carries that many low bytes |
| Replay.LoginPayloadsFit | src/message/header.cpp:9-14 | every payload of a login fits the 16-bit length if and only if every channel of the user has a record of at most 65535 bytes, which bounds the history |
| Replay.ChannelReplays | src/bin/server/model/message_handlers.cpp:84-106 | replaying one channel replaces whatever the session held for it by the channel and exactly its messages |
| Replay.NoticeArrives | src/bin/server/model/client_handler.cpp:154-176 | the frame written for a signal, decoded and handled by the client, has the effect of that signal with the record the codec delivers |
| Live.StepFollowed | src/bin/server/db/database.cpp:69-197 | the signals of one step keep the client following the channel: list and messages grow by what is sent, and lose from the list what is deleted or left behind |
| Live.SentAsPosted | src/models/message.cpp:10-20 | over every run the messages sent to a channel are those of the requests, one for one and in order: issued id, sender, channel, text, the handling time twice, and the sender as only reader |
| Live.BroadcastFrames | src/bin/server/db/database.cpp:84-90 | a registered user is sent a broadcast once per occurrence in the member list |
| Live.DepartureSeen | src/bin/server/db/database.cpp:138-165 | the signals of another user's account deletion remove exactly that user's snowflakes from the client's list of a channel the user left, and no message |
| Live.CreationSeen | src/bin/server/db/database.cpp:95-113 | the signals of a creation leave the client of a listed user with the new, empty channel |
| Live.StepFits | src/bin/server/model/message_handlers.cpp:23-173 | requests whose strings and lists fit one-byte lengths keep the whole database within them |
| Service.GoneForGood | src/bin/server/db/password_table.cpp:71-78 | a deleted account's uid is never registered again, since its password entry stays |
| Service.ReachableConsistent | src/bin/server/db/database.cpp:56-220 | every state reachable from the empty server satisfies all invariants: membership symmetry with multiplicity, no dangling channel, strictly increasing histories of stored messages of their own channel, conservation, unique names, a password for every user |
| Service.StepSound | src/bin/server/model/message_handlers.cpp:23-173 | every handler, and the two operations no handler calls, keeps those invariants and keeps the generator ahead of all stored ids |
| Service.RunSound | src/bin/server/model/message_handlers.cpp:23-173 | every run from a sound state ends in one: all invariants hold and the generator is ahead of all stored ids |
| Service.MessagesPersist | src/bin/server/db/database.cpp:132-197 | over every run of requests from the empty server, a message stored at some point is in the table later if and only if no request has deleted it since, and then unchanged; account deletion does not remove it |
| Service.UnlistedExactly | src/bin/server/db/database.cpp:132-168 | over every such run, a message listed at some point and not deleted is unlisted later if and only if its sender was then a registered member of the channel and is not registered any more; a non-member's message stays listed |
| Service.RunHomed | src/bin/server/db/database.cpp:69-93 | over every run of requests the channel of every stored message exists |
| Service.DeletionNotAsDocumented | src/bin/server/db/database.cpp:138-167 | a concrete run from the empty server on which the documented account deletion fails: the user is gone, the message and the channel with no other member are not |
| Consistency.DeletionAsDocumented | src/bin/server/db/database.cpp:132-168 | the documented effect of account deletion (README.md:269) holds if and only if the user has no stored message and is alone in no channel |
| Consistency.ListedExactlyOnce | src/bin/server/db/database.cpp:77-83 | in a consistent database a stored message is listed in no channel but the one it names, and there exactly once if its sender is registered |
| Service.OnlyThePassword | src/bin/server/db/password_table.cpp:8-19 | if no other password of at most 255 bytes has, with the stored salt, the registered digest, only the registered password is accepted |
| Service.StepPersists | src/bin/server/db/database.cpp:69-220 | in one step, including the operations no handler calls, a message leaves the table only by `remove_message` or with its channel |
| Service.MemberAdded | src/bin/server/db/database.cpp:115-130 | the step no handler asks for that adds a member does so, on both sides |
| Service.ChannelDropped | src/bin/server/db/database.cpp:199-220 | the step no handler asks for that removes a channel removes it, its messages and every user's entry for it |
| Service.StaysGone | src/models/snowflake.cpp:27-50 | a message that has left the table never comes back, because later ids are larger |
| Service.DrawnAbove | src/models/snowflake.cpp:27-50 | the id a send draws lies above every stored id, and a send that throws leaves the generator unchanged |
| Service.CredentialsLast | src/bin/server/model/message_handlers.cpp:23-44 | after a registration in a reachable state the account exists until a request names it with a password of the registered digest, and no longer; as long as it exists the name leads to it, even if an earlier deleted account had the name, and exactly the passwords with that digest are accepted |
| Service.AccountLasts | src/bin/server/model/message_handlers.cpp:135-158 | over every run an account survives if and only if no deletion request names it with a password of the right digest |
| Service.ScanIsLookup | src/bin/server/db/user_table.cpp:37-45 | with unique names the scan of the unordered map returns what the inverse map holds, for any iteration order, and nothing else |
| Consistency.MemberBothWays | src/bin/server/db/database.cpp:95-130 | a user lists a channel if and only if the channel lists the user |
| Consistency.AddUserKeeps | src/bin/server/db/database.cpp:56-67 | registration keeps the invariants |
| Consistency.AddMessageKeeps | src/bin/server/db/database.cpp:69-93 | sending keeps the invariants, given an id above all stored ones |
| Consistency.RemoveMessageKeeps | src/bin/server/db/database.cpp:170-197 | message deletion keeps the invariants |
| Consistency.AddChannelMembership | src/bin/server/db/database.cpp:95-113 | channel creation adds the channel to each registered member once per occurrence, so symmetry is kept |
| Consistency.AddChannelKeeps | src/bin/server/db/database.cpp:95-113 | channel creation keeps the invariants |
| Consistency.AddUserToChannelKeeps | src/bin/server/db/database.cpp:115-130 | adding a member keeps the invariants |
| Consistency.RemoveChannelComplete | src/models/user.cpp:138-144 | removing one occurrence per listed member is enough: afterwards no user lists the channel |
| Consistency.RemoveChannelMeaning | src/bin/server/db/database.cpp:199-220 | after a channel removal exactly that channel and the messages it listed are gone, and every user lists every other channel as often as before |
| Consistency.AddUserToChannelMeaning | src/bin/server/db/database.cpp:115-130 | adding a member succeeds if and only if both exist, and then each lists the other once more and nothing else changes |
| Consistency.RemoveChannelKeeps | src/bin/server/db/database.cpp:199-220 | channel removal keeps the invariants |
| Consistency.RemoveUserMembership | src/models/channel.cpp:139-144 | dropping all occurrences of a user keeps symmetry for everybody else |
| Consistency.RemoveUserKeeps | src/bin/server/db/database.cpp:132-168 | account deletion keeps the invariants |
| Consistency.RemoveUserMeaning | src/bin/server/db/database.cpp:132-168 | after an account deletion the user, and nobody else, has left the user table and every member list; a channel the user belonged to lists exactly the messages others sent, in order; other channels are untouched; the message and password tables are unchanged |
| Consistency.RemoveUserSignals | src/bin/server/db/database.cpp:147-164 | an event of an account deletion tells a registered member other than the user that a stored message of the user, in a channel of the user that lists that member, is gone; and every such event is emitted |
| Storage.Database.AddUser | src/bin/server/db/database.cpp:56-67 | stores salted digest and user; an existing key keeps its value |
| Storage.Database.AddMessage | src/bin/server/db/database.cpp:69-93 | an unknown channel or a throwing generator changes nothing; otherwise message stored, listed last, and one event per registered member occurrence, in order |
| Storage.Database.AddChannel | src/bin/server/db/database.cpp:95-113 | channel stored, one channel entry and one event per registered member occurrence |
| Storage.Database.AddUserToChannel | src/bin/server/db/database.cpp:115-130 | both lists grow by one, or an error and no change |
| Storage.Database.RemoveMessage | src/bin/server/db/database.cpp:170-197 | exact new tables and events, or an error and no change |
| Storage.Database.RemoveChannel | src/bin/server/db/database.cpp:199-220 | members lose as many entries as they had, listed messages go, the channel goes; unknown channel reported |
| Storage.Database.Dismiss | src/bin/server/db/database.cpp:202-208 | the loop that removes one entry per listed member, as one effect on every user |
| Storage.Database.EraseMessages | src/bin/server/db/database.cpp:210-217 | the loop over the history removes exactly the listed messages |
| Storage.Database.RemoveUser | src/bin/server/db/database.cpp:132-168 | exact new tables and event log of account deletion |
| Storage.Database.LeaveAll | src/bin/server/db/database.cpp:138-165 | the loop over the user's channels, as one effect, with second visits of a repeated channel finding nothing to do |
| Storage.Database.LeaveHistory | src/bin/server/db/database.cpp:147-164 | the loop over a channel's history, read as iterating over the history it started with |
| Storage.Database.Emit | src/bin/server/db/database.cpp:84-90 | a broadcast loop emits one event per registered member occurrence, in order |
| Storage.Database.GetUidFromUsername | src/bin/server/db/user_table.cpp:37-45 | returns a user of that name, or none if there is none |
| Storage.Database.VerifyPassword | src/bin/server/db/password_table.cpp:8-19 | compares the digest of the salted password; unknown users are reported |
| Handlers.ClientHandler.Dispatch | src/bin/server/model/client_handler.cpp:91-145 | a frame that can be read does to the shared database, signals and is answered exactly what its step prescribes; a search is answered with the users it found; an unknown operation does nothing |
| Handlers.ClientHandler.Serve | src/bin/server/model/message_handlers.cpp:23-173 | each handler, on the shared objects, is the step of the server for its request, and writes exactly the frames of its answer |
| Requests.ServedSound | src/bin/server/model/client_handler.cpp:91-145 | whatever frame arrives whose payload is not read past its end, the invariants across the tables and the one-byte limits survive it |
| Requests.ArrivingOpFits | src/bin/server/model/client_handler.cpp:91-145 | whatever readable bytes arrive, the step they ask for keeps to the one-byte limits |
| Requests.RequestServed | src/bin/server/model/client_handler.cpp:91-145 | a request whose strings and lists have at most 255 entries is decoded and handed to the handler of its operation |
| Requests.SendOutcome | src/bin/server/model/message_handlers.cpp:170-173 | the bytes of a send request, if the channel exists and an id is issued, store a message with the request's sender, channel and text, the time it was handled, and the sender as only reader, list it last in that channel, and tell each registered member as often as listed; nothing else changes; otherwise nothing happens |
| Requests.RegistrationOutcome | src/bin/server/model/message_handlers.cpp:23-44 | the bytes of a registration file a user with the names given, no channels, and the digest of the salted password, and are answered with success; a taken name is answered with an error and changes nothing |
| Requests.RegistrationAnswered | src/message/register_account_response.cpp:10-30 | the answer to a registration is read as a success if and only if the uid is in the user table afterwards |
| Requests.LoginOutcome | src/bin/server/model/message_handlers.cpp:46-107 | the bytes of a login change nothing on the server, and the answer restores the session of the user named if and only if the password has the stored digest |
| Requests.SearchOutcome | src/bin/server/model/message_handlers.cpp:109-133 | the bytes of a search change nothing on the server; the client reads in the answer exactly the profiles of the registered users whose names match, if these are at most 255 |
| Requests.FailedSearchOutcome | src/bin/server/db/user_table.cpp:23-27 | a search whose expression does not compile is answered with the reason |
| Requests.AccountDeletionOutcome | src/bin/server/model/message_handlers.cpp:135-158 | the bytes of an account deletion, with the right password and no other, remove the user from the user table and all member lists and the user's messages from the histories of the user's channels, and are answered with the user; a wrong password is answered with an error and changes nothing |
| Requests.UnknownAccountOutcome | src/bin/server/model/message_handlers.cpp:139-141 | deleting an account nobody has changes nothing and is answered with an error |
| Requests.MessageDeletionOutcome | src/bin/server/model/message_handlers.cpp:160-163 | the bytes of a message deletion remove exactly that message from the table and from the history of its own channel, whatever channel the request names, and tell each registered member as often as listed |
| Requests.CreationOutcome | src/bin/server/model/message_handlers.cpp:165-168 | the bytes of a creation file a channel with the name and members given and no messages; each registered user gets it, and is told, as often as listed |
| Replies.SearchAnswered | src/bin/server/model/message_handlers.cpp:113-126 | a search is answered with one profile per user found, in order, and a profile is among them if and only if it is that of a registered user with a matching name |
| Handlers.ClientHandler.OnListAccounts | src/bin/server/model/message_handlers.cpp:109-133 | answers a search with the profiles of exactly the users whose names match, each once, or with the error of the expression |
| Storage.Database.SearchUsers | src/bin/server/db/user_table.cpp:18-35 | finds exactly the users whose names match, each once, in some order, or reports the error of the expression |
| Handlers.ClientHandler.OnRegisterAccount | src/bin/server/model/message_handlers.cpp:23-44 | a taken name is refused, otherwise the account is stored; the answer says which |
| Handlers.ClientHandler.OnCreateChannel | src/bin/server/model/message_handlers.cpp:165-168 | on the shared objects, has the effect and signals of adding the channel |
| Handlers.ClientHandler.OnSendMessage | src/bin/server/model/message_handlers.cpp:170-173 | on the shared objects, has the effect and signals of sending the message |
| Handlers.ClientHandler.OnDeleteMessage | src/bin/server/model/message_handlers.cpp:160-163 | on the shared objects, has the effect and signals of removing the message; the request's channel uid is ignored |
| Handlers.ClientHandler.OnLogin | src/bin/server/model/message_handlers.cpp:46-107 | unknown name: the uncaught exception of reading an empty optional; wrong password: one error frame; otherwise the login frame, then each existing channel followed by its stored messages, and the tables unchanged |
| Handlers.ClientHandler.WriteChannels | src/bin/server/model/message_handlers.cpp:84-106 | the two nested replay loops append exactly the frames of the replay |
| Handlers.ClientHandler.WriteHistory | src/bin/server/model/message_handlers.cpp:95-105 | the inner loop appends one frame per listed message that is stored, in list order |
| Handlers.ClientHandler.OnDeleteAccount | src/bin/server/model/message_handlers.cpp:135-158 | the account found is removed if the password is right; one reply frame in each case |
| Handlers.ClientHandler.OnMessageReceived | src/bin/server/model/client_handler.cpp:154-160 | a received message is written to the client as one send-message frame |
| Handlers.ClientHandler.OnMessageDeleted | src/bin/server/model/client_handler.cpp:162-168 | a deleted message is written to the client as one delete-message frame |
| Handlers.ClientHandler.OnChannelAdded | src/bin/server/model/client_handler.cpp:170-176 | an added channel is written to the client as one create-channel frame |
| Client.ReceiveStream | src/bin/client/model/tcp_client.cpp:108-198 | a new client, given an encoded frame list cut into chunks, dispatches exactly those frames if and only if every payload arrives in time, and then drops no header and holds what handling them gives |
| Client.TcpClient.Receive | src/bin/client/model/tcp_client.cpp:108-198 | over all chunks, one readiness signal per chunk that no sleep has taken, the client consumes and dispatches exactly what the read loop prescribes, going on after a dropped header; its session is what handling the dispatched frames gives |
| Client.TcpClient.OnReadyRead | src/bin/client/model/tcp_client.cpp:108-198 | one readiness signal consumes and dispatches exactly what the read loop prescribes, and returns for a missing header, another version, or a payload that did not come |
| Client.TcpClient.ReadAndDispatch | src/bin/client/model/tcp_client.cpp:109-197 | one round dispatches the frame it has read to its handler, or drops a header |
| Client.TcpClient.ReadFrame | src/bin/client/model/tcp_client.cpp:109-140 | one round reads a frame, or finds no header, or drops one of another version or whose payload has not come after a hundred sleeps |
| Client.TcpClient.Await | src/bin/client/model/tcp_client.cpp:127-135 | a wait succeeds if and only if what is there and the chunks of the next hundred sleeps hold enough bytes |
| Client.Session.Dispatch | src/bin/client/model/tcp_client.cpp:142-196 | decoding and handling a frame on the shared objects has the effect of the frame on the session's value |
| Client.Session.AddMessage | src/bin/client/model/session.cpp:36-43 | only a known channel takes a message; both the message list and the channel's snowflakes grow |
| Client.Session.RemoveMessage | src/bin/client/model/session.cpp:64-72 | erases the message objects equal by pointer and all equal snowflakes |
| Client.Session.OnDeleteMessageResponse | src/bin/client/model/message_handlers.cpp:87-96 | the decoded message is a new object, so no stored message is erased, only snowflakes |
| Client.Session.AddChannel | src/bin/client/model/session.cpp:59-62 | replaces a channel of the same uid and empties its messages |
| Client.Session.OnCreateChannelResponse | src/bin/client/model/message_handlers.cpp:61-74 | the user gains the channel, which replaces any of the same uid and becomes the open one |
| Client.Session.OnSendMessageResponse | src/bin/client/model/message_handlers.cpp:76-85 | the effect of a received message on the session |
| Client.Session.OnLoginResponse | src/bin/client/model/message_handlers.cpp:22-37 | the decoded user becomes the authenticated one, and nothing else changes |
| Client.Session.OnDeleteAccountResponse | src/bin/client/model/message_handlers.cpp:49-59 | a successful deletion resets the session, an error leaves it alone |
| Mirror.SessionStaysValid | src/bin/client/model/session.cpp:45-62 | whatever frames arrive, the two maps keep the same keys and the open channel is one of them, so the lookup of the open channel's messages does not throw |
| Mirror.DeletionKeepsMessages | src/bin/client/model/session.cpp:69-71 | a deletion frame never changes the stored messages, only snowflakes |
| Mirror.ErrorsChangeNothing | src/bin/client/model/message_handlers.cpp:12-97 | an error response, to whatever request, leaves the session alone |
| Mirror.OneChannelTouched | src/bin/client/model/session.cpp:36-72 | a sent or deleted message reaches only the channel it names, and nothing if the session does not hold it |
| Arrival.DeliveredExactly | src/bin/client/model/tcp_client.cpp:108-140 | for any frames and any way of cutting their bytes into chunks, the loop dispatches exactly those frames if and only if no more than a hundred chunks lie between the one that completes a header and the one that completes its payload, for each frame; and exactly then it drops no header |
| Arrival.NeededLeast | src/bin/client/model/tcp_client.cpp:127-135 | the number of chunks that the timing condition counts is the least whose bytes suffice |
| Arrival.LateFrame | src/bin/client/model/tcp_client.cpp:127-135 | a concrete chunking that fails: a payload that is itself an encoded frame arrives one sleep too late, its header is dropped, and the frame inside is dispatched instead |
| Arrival.IntakePrefix | src/bin/client/model/tcp_client.cpp:108-140 | on any bytes in any chunks, the frames before the first dropped header are the whole frames at the front of the stream, in order, and all of them if no header is dropped |
| Arrival.CutIntake | src/bin/client/model/tcp_client.cpp:108-140 | when the stream is cut off, the frames before the first dropped header are a prefix of those sent, and without one exactly those that end at or before the cut |
| Arrival.IntakeAccounts | src/bin/client/model/tcp_client.cpp:108-140 | every byte that arrives is in a dispatched frame, in a dropped header, or still there |
| Stream.WholeFrame | src/bin/client/model/tcp_client.cpp:111-140 | a header and a payload of its length are the first frame of a stream |
| Stream.SplitEncoded | src/bin/client/model/tcp_client.cpp:108-140 | the frames of an encoded list come back in order, followed by what the rest of the stream holds |
| Stream.CutStream | src/bin/client/model/tcp_client.cpp:108-140 | a stream cut anywhere yields exactly the frames that end at or before the cut |
| Stream.EncodingUnique | src/message/header.cpp:9-23 | different frame lists never have the same bytes |
| Wire.FrameHeader | src/message/header.cpp:9-14 | the header's length is the payload's if and only if that is at most 65535 |
| Wire.FrameBytes | src/message/header.cpp:9-14 | a frame byte by byte: version and header size in one byte, the operation, the big-endian length, the payload |
| Wire.RegisteredRoundTrip | src/message/register_account_response.cpp:10-30 | the answer to a registration can always be read, and is recovered if and only if its text has at most 255 bytes |
| Wire.HeaderRoundTrip | src/message/header.cpp:9-23 | a header decodes to itself if and only if its version is below 16; operation and length always survive |
| Wire.Header.Serialize | src/message/header.cpp:9-14 | the shifts and masks produce the four header bytes |
| Wire.Header.Deserialize | src/message/header.cpp:16-23 | reads version, operation and big-endian length back from the four bytes |
| Models.ChannelDecodes | src/models/channel.cpp:41-63 | for a history of any length: uid and name replaced, members and the low bytes of the first (length mod 256) snowflakes appended; trailing bytes harmless |
| Models.ChannelRoundTrip | src/models/channel.cpp:16-63 | into a fresh object a channel is recovered if and only if name, members and history have at most 255 entries and every snowflake is one byte |
| Models.ChannelDecodesTwice | src/models/channel.cpp:50-63 | decoding twice into one object doubles its lists; harmless if and only if they are empty |
| Models.ChannelParts | src/models/channel.cpp:16-32 | where each field of a channel record starts |
| Models.MessageParts | src/models/message.cpp:27-42 | where each field of a message record starts |
| Models.MessageRoundTrip | src/models/message.cpp:27-78 | a message, with its three 64-bit fields, is recovered if and only if its text and reader list have at most 255 entries; trailing bytes harmless |
| Models.ProfileRoundTrip | src/models/user.cpp:21-59 | a user record anywhere in a buffer is recovered, and its size is the bytes consumed, if and only if its three strings have at most 255 bytes |
| Wire.AccountsRoundTrip | src/message/list_accounts_response.cpp:20-59 | an account list is recovered, all users in order, if and only if it has at most 255 users with fields of at most 255 bytes |
| Wire.DecodedSize | src/models/user.cpp:80-91 | the size a decoded user reports is the number of bytes it was decoded from |
| Wire.LoginRoundTrip | src/message/login_response.cpp:9-49 | a login or account-deletion response is recovered if and only if it fits |
| Wire.ChannelReplyDecodes | src/message/create_channel_response.cpp:12-52 | a channel response arrives with everything but its full history |
| Wire.MessageReplyRoundTrip | src/message/send_message_response.cpp:9-48 | a message response is recovered if and only if it fits |
| Wire.RequestRoundTrip | src/bin/server/model/client_handler.cpp:91-145 | each of the seven requests is recovered if and only if its strings and lists have at most 255 entries; a delete request always |
| Wire.DecodedRequestFits | src/bin/server/model/client_handler.cpp:91-145 | whatever bytes arrive, a decoded request respects the one-byte limits |
| Wire.RegisterDecodes | src/message/register_account.cpp:11-59 | three strings at computed offsets come back |
| Bytes.BigEndianInverse | src/message/delete_message.cpp:17-41 | the big-endian loops invert each other for every 64-bit number |
| Bytes.BigEndianOfValue | src/message/delete_message.cpp:17-41 | any eight bytes are the big-endian form of the number they read as |
| Bytes.LittleEndianInverse | src/models/message.cpp:29-67 | eight little-endian bytes give back every 64-bit number |
| Bytes.LittleEndianAt | src/models/message.cpp:29-34 | byte `i` has weight 256^i |
| Bytes.BigEndianAt | src/message/delete_message.cpp:17-19 | byte `i` from the end has weight 256^i |
| Bytes.UuidListDecodes | src/message/create_channel.cpp:21-59 | a list of UUIDs comes back cut to its length modulo 256 |
| Bytes.TextDecodes | src/message/create_channel.cpp:17-49 | a string comes back cut to its length modulo 256 |
| Objects.User.Serialize | src/models/user.cpp:16-36 | appends exactly the record and leaves the earlier buffer intact |
| Objects.User.Size | src/models/user.cpp:80-91 | is the length of the record, with no limit on any field |
| Objects.User.Deserialize | src/models/user.cpp:38-61 | decodes any buffer that holds a record, ignoring what follows it |
| Objects.Channel.Serialize | src/models/channel.cpp:11-34 | appends exactly the record and leaves the earlier buffer intact |
| Objects.Channel.Size | src/models/channel.cpp:94-102 | is the length of the record, with no limit on any field |
| Objects.Channel.Deserialize | src/models/channel.cpp:36-65 | decodes any buffer that holds a record; members and snowflakes are appended |
| Objects.Message.Serialize | src/models/message.cpp:22-44 | appends exactly the record and leaves the earlier buffer intact |
| Objects.Message.Size | src/models/message.cpp:112-126 | is the length of the record |
| Objects.Message.Deserialize | src/models/message.cpp:52-80 | decodes any buffer that holds a record into a fresh message |
| Objects.Message.Create | src/models/message.cpp:10-20 | asks the generator for the id; no message when that call throws |
| Objects.User.RemoveChannel | src/models/user.cpp:138-144 | find and erase: exactly the first occurrence goes |
| Objects.Channel.RemoveUser | src/models/channel.cpp:139-144 | every occurrence goes, the rest keeps its order |
| Objects.Channel.RemoveMessage | src/models/channel.cpp:146-154 | every occurrence goes, the rest keeps its order |
| Lists.EraseAll | src/models/channel.cpp:139-154 | the erase-remove idiom removes every occurrence and keeps the order of the rest |
| Lists.EraseFirst | src/models/user.cpp:138-144 | find and erase removes the first occurrence |
| Lists.RemoveFirstSplit | src/models/user.cpp:138-144 | it is the first occurrence that goes, and the rest keeps its order |
| Lists.MinusIncreasing | src/models/channel.cpp:146-154 | removing elements keeps a history strictly increasing |
| Lists.RemoveTimesCount | src/models/user.cpp:138-144 | how many occurrences are left after removing one occurrence several times |
| Packets.LoginResponse.SerializeMsg | src/message/login_response.cpp:26-30 | appends exactly one frame, whose header carries the size modulo 65536 |
| Packets.LoginResponse.Size | src/message/login_response.cpp:72-85 | is the length of the payload, for every value |
| Packets.LoginResponse.Deserialize | src/message/login_response.cpp:32-49 | decodes every payload that the specification decodes |
| Packets.CreateChannelResponse.SerializeMsg | src/message/create_channel_response.cpp:29-33 | appends exactly one frame, whose header carries the size modulo 65536 |
| Packets.CreateChannelResponse.Size | src/message/create_channel_response.cpp:75-88 | is the length of the payload, for every value |
| Packets.CreateChannelResponse.Deserialize | src/message/create_channel_response.cpp:35-52 | decodes every payload that the specification decodes |
| Packets.MessageResponse.SerializeMsg | src/message/send_message_response.cpp:26-30 | appends exactly one frame, whose header carries the size modulo 65536 |
| Packets.MessageResponse.Size | src/message/send_message_response.cpp:73-86 | is the length of the payload, for every value |
| Packets.MessageResponse.Deserialize | src/message/send_message_response.cpp:32-48 | decodes every payload that the specification decodes |
| Packets.ListAccountsResponse.SerializeMsg | src/message/list_accounts_response.cpp:37-41 | appends exactly one frame, whose header carries the size modulo 65536 |
| Packets.ListAccountsResponse.Size | src/message/list_accounts_response.cpp:97-114 | is the length of the payload, for every value |
| Packets.ListAccountsResponse.Deserialize | src/message/list_accounts_response.cpp:43-66 | decodes every payload that the specification decodes |
| Packets.ListAccountsResponse.PullUsers | src/message/list_accounts_response.cpp:53-58 | the loop over suffix buffers, the offset advanced by each decoded user's size |
| Packets.RegisterAccountMessage.Serialize | src/message/register_account.cpp:11-35 | appends exactly the request, character by character |
| Packets.RegisterAccountMessage.Deserialize | src/message/register_account.cpp:43-59 | reads the three lengths, then the strings at computed offsets |
| Packets.DeleteMessageMessage.Serialize | src/message/delete_message.cpp:9-21 | the shift loop pushes the big-endian bytes |
| Packets.DeleteMessageMessage.Deserialize | src/message/delete_message.cpp:30-43 | the shift-or loop rebuilds the number |
| Packets.ShiftIn | src/message/delete_message.cpp:39-41 | shifting a byte into an accumulator on 64 bits, and when no bit is lost |
| Packets.CreateChannelMessage.Serialize | src/message/create_channel.cpp:11-30 | appends exactly the request |
| Packets.CreateChannelMessage.Deserialize | src/message/create_channel.cpp:39-61 | replaces the name and appends to the members already there |
| Packets.CreateChannelMessage.Size | src/message/create_channel.cpp:84-94 | is the length of the request |
| Handlers.RegisteredBytes | src/message/register_account_response.cpp:10-30 | the frame of a registration response |
| Snowflake.RunIncreasing | src/models/snowflake.cpp:27-50 | over every run of calls, with repeated readings, spins and backward jumps that throw, the issued ids are strictly increasing |
| Snowflake.NextMeaning | src/models/snowflake.cpp:27-50 | a call issues an id with the next sequence number of the old timestamp, or with sequence number 0 of a later one; or throws and leaves the generator as it was; or is still spinning because no reading exceeds the last timestamp |
| Snowflake.RunNumbered | src/models/snowflake.cpp:35-44 | over every run of calls the sequence number of an id is the number of ids before it with its timestamp, so every new timestamp is numbered from 0 without gaps |
| Snowflake.WaitsAfter256 | src/models/snowflake.cpp:35-41 | after any run of a new generator, a call that reads the last timestamp has to wait if and only if 256 ids carry that timestamp; otherwise its id is the next of them |
| Snowflake.NextReading | src/models/snowflake.cpp:29-46 | an earlier reading throws, a later one is used, and so is the same one while sequence numbers are left; otherwise the call ends with the first later reading |
| Snowflake.SpinTerminates | src/models/snowflake.cpp:35-41 | the spin ends for every clock that at some point exceeds the last timestamp |
| Snowflake.AtMost256PerMillisecond | src/models/snowflake.cpp:35-42 | ids of a run with the same timestamp are fewer than 256 positions apart |
| Snowflake.FieldRecovery | src/models/snowflake.cpp:48-49 | an id fits in 63 bits, is non-negative if and only if the clock is at or past the epoch, and decodes to its four fields |
| Snowflake.NodeRecovery | src/models/snowflake.cpp:48-49 | machine and process survive any clock, wrapped or not |
| Snowflake.DisjointRuns | include/models/snowflake.hpp:53-66 | generators that differ in machine or process never share an id, whatever their clocks read |
| Snowflake.PatternIsSum | src/models/snowflake.cpp:48-49 | the shifted fields are disjoint, so the three ors are a sum, at any timestamp |
| Snowflake.PackMonotone | src/models/snowflake.cpp:48-49 | ids are ordered as (timestamp, sequence) |
| Snowflake.SnowflakeIDGenerator.NextId | src/models/snowflake.cpp:27-50 | the method with its spin loop is the state machine's step |
| Snowflake.SnowflakeIDGenerator.Create | src/models/snowflake.cpp:5-14 | the constructor throws if and only if an argument is out of range |
| UuidText.UnhexHex | src/models/uuid.cpp:37-64 | parsing the printed form gives back every byte string |
| UuidText.HexUnhex | src/models/uuid.cpp:37-64 | printing a parsed string gives it in lower case, so it is unchanged if and only if it was lower-case |
| UuidText.HexInjective | src/models/uuid.cpp:37-48 | the text form identifies the UUID |
| UuidText.FromString | src/models/uuid.cpp:50-64 | for every string of at most 32 characters: two characters at a time as `stoul` reads them, the rest of the random value untouched, or the exception of a pair without digits |
| UuidText.PairParses | src/models/uuid.cpp:55-59 | which pairs of characters are taken: a digit first, or a blank or sign before a digit; two digits give their value |
| UuidText.ParseDigits | src/models/uuid.cpp:55-59 | on hexadecimal digits alone the parsed bytes are the value of each pair |
| UuidText.ToString | src/models/uuid.cpp:37-48 | the loop prints 32 lower-case digits |

## Left out

- The graphical client: windows, validators, page transitions and the signals to them.
- Qt sockets, threads, signal plumbing and real sleeping: chunks, an event log and a retry bound stand for
  them. The order in which two handlers' bytes interleave on one connection is not modelled.
- Races between handlers: each table has its own lock, but operations over several tables have none, so the
  invariants are claimed for handlers that run one after another.
- JSON (`to_json`, `from_json`, the `PROTOCOL_JSON` branches); the version is fixed at 1.
- SHA-256, salt generation and the random generator of UUIDs.
- What `std::regex` matches.
- Reading requests off the server's socket (`on_read_data`, lines 59-89): its frame reader repeats the
  client's for a single frame. Decoding and dispatch of the request are modelled
  (`Handlers.ClientHandler.Dispatch`).
- The objects of `LoginMessage`, `DeleteAccountMessage`, `ListAccountsMessage`, `SendMessageMessage`,
  `RegisterAccountResponse`: their formats are in `Wire`, their code repeats patterns modelled for others.
- `Message::set_text`, `Message::set_read_by` and the other setters: neither program calls them. The fields
  of a `Message` object are therefore constants, and `Message::deserialize`, which the source runs on a
  newly made object, is a constructor.
- The four table classes are folded into `Database`: each is a map with find, insert and erase.
- UuidText.FromString: requires at most 32 characters; a longer string writes past the array, which the source
  leaves undefined.
- Connection.LiveMirror: does not cover a login accepted on the same connection during the run, after which the
  connection belongs to the user it names and replayed channels replace followed ones. It says nothing of
  channels replayed with a history, whose list the source does not keep equal to the server's
  (`Replay.RestoredAgrees`).
- Service.Step: a login under an unknown name ends in an uncaught exception in the source; a run of the model
  goes on as if that call had not been made.
- Handlers.ClientHandler.OnLogin: which client a later signal reaches, after `set_authenticated_user`
  reconnects it, is not modelled beyond the field; signals are addressed by uid.
