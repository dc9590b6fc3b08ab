/** The packet header, the frames it makes, and the payload of every modelled request and response
    (src/message/). */
module Wire {
  import opened Bits
  import opened Bytes
  import opened Models

  const PROTOCOL_VERSION: byte := 1

  const REGISTER_ACCOUNT: byte := 0
  const LOGIN: byte := 1
  const LIST_ACCOUNTS: byte := 2
  const DELETE_ACCOUNT: byte := 3
  const SEND_MESSAGE: byte := 4
  const DELETE_MESSAGE: byte := 6
  const CREATE_CHANNEL: byte := 9

  const HEADER_SIZE := 4

  type uint16 = n: int | 0 <= n < 0x1_0000

  /* The header */

  datatype HeaderVal = HeaderVal(version: byte, operation: byte, packetLength: uint16)

  /** `(version << 4) | size()`, converted to a byte. */
  function VersionByte(version: byte): byte {
    Or(version * 16, HEADER_SIZE) % 256
  }

  function EncodeHeader(h: HeaderVal): (e: Text)
    ensures |e| == 4
  {
    [VersionByte(h.version), h.operation, h.packetLength / 256, h.packetLength % 256]
  }

  function DecodeHeader(buf: Text): HeaderVal
    requires |buf| >= 4
  {
    HeaderVal(buf[0] / 16, buf[1], buf[2] as int * 256 + buf[3])
  }

  lemma {:induction false} VersionNibble(version: byte)
    ensures VersionByte(version) == version % 16 * 16 + 4
  {
    assert Pow2(4) == 16;
    OrDisjoint(version, 4, 4);
    assert Or(version * 16, 4) == version * 16 + 4;
    NibbleShift(version);
  }

  lemma {:induction false} NibbleShift(version: byte)
    ensures (version * 16 + 4) % 256 == version % 16 * 16 + 4
  {
    var hi, lo := version / 16, version % 16;
    assert version * 16 + 4 == hi * 256 + (lo * 16 + 4);
  }

  /** A header round-trips exactly when its version fits the upper nibble; operation and length
      always do. */
  lemma {:induction false} HeaderRoundTrip(h: HeaderVal)
    ensures DecodeHeader(EncodeHeader(h)) == h.(version := h.version % 16)
    ensures DecodeHeader(EncodeHeader(h)) == h <==> h.version < 16
  {
    VersionNibble(h.version);
  }

  class Header {
    var version: byte
    var operation: byte
    var packetLength: uint16

    ghost function Value(): HeaderVal
      reads this
    {
      HeaderVal(version, operation, packetLength)
    }

    constructor (version: byte, operation: byte, size: nat)
      ensures Value() == HeaderVal(version, operation, size % 0x1_0000)
    {
      this.version, this.operation, packetLength := version, operation, size % 0x1_0000;
    }

    method Serialize(buf: Buffer)
      modifies buf
      ensures buf.data == old(buf.data) + EncodeHeader(Value())
    {
      buf.PushBack(Or(version * 16, HEADER_SIZE));
      buf.PushBack(operation);
      buf.PushBack(packetLength / 256);
      LowByte(packetLength);
      buf.PushBack(And(packetLength, 0xFF));
    }

    method Deserialize(buf: Text)
      requires |buf| >= 4
      modifies this
      ensures Value() == DecodeHeader(buf)
    {
      packetLength := buf[2] as int * 256 + buf[3];
      version := buf[0] / 16;
      operation := buf[1];
    }
  }

  lemma {:induction false} LowByte(n: nat)
    ensures And(n, 0xFF) == n % 256
  {
    assert Pow2(4) == 16;
    assert Pow2(8) == 256;
    AndMask(n, 8);
  }

  /* Frames */

  datatype Frame = Frame(operation: byte, payload: Text)

  function EncodeFrame(f: Frame): (e: Text)
    ensures |e| == 4 + |f.payload|
  {
    EncodeHeader(HeaderVal(PROTOCOL_VERSION, f.operation, |f.payload| % 0x1_0000)) + f.payload
  }

  function EncodeFrames(fs: seq<Frame>): Text {
    if fs == [] then [] else EncodeFrame(fs[0]) + EncodeFrames(fs[1..])
  }

  predicate FrameFits(f: Frame) {
    |f.payload| <= 0xFFFF
  }

  predicate FramesFit(fs: seq<Frame>) {
    forall i :: 0 <= i < |fs| ==> FrameFits(fs[i])
  }

  lemma {:induction false} EncodeFramesConcat(fs: seq<Frame>, gs: seq<Frame>)
    ensures EncodeFrames(fs + gs) == EncodeFrames(fs) + EncodeFrames(gs)
  {
    if fs == [] {
      assert fs + gs == gs;
    } else {
      assert (fs + gs)[1..] == fs[1..] + gs;
      EncodeFramesConcat(fs[1..], gs);
    }
  }

  /** The header in front of a payload names its operation, and its length exactly when the payload
      has at most 65535 bytes. */
  lemma {:induction false} FrameHeader(f: Frame, rest: Text)
    ensures var h := DecodeHeader(EncodeFrame(f) + rest);
      && h.version == PROTOCOL_VERSION && h.operation == f.operation
      && (h.packetLength == |f.payload| <==> FrameFits(f))
  {
    var n := |f.payload| % 0x1_0000;
    HeaderRoundTrip(HeaderVal(PROTOCOL_VERSION, f.operation, n));
    var e := EncodeHeader(HeaderVal(PROTOCOL_VERSION, f.operation, n));
    assert (EncodeFrame(f) + rest)[..4] == e;
    assert DecodeHeader(EncodeFrame(f) + rest) == DecodeHeader(e);
  }

  /** A frame, byte by byte. */
  lemma {:induction false} FrameBytes(f: Frame)
    requires FrameFits(f)
    ensures EncodeFrame(f) == [0x14, f.operation, |f.payload| / 256, |f.payload| % 256] + f.payload
  {
    VersionNibble(PROTOCOL_VERSION);
  }

  /* Responses: a tag byte, then the data or an error text */

  datatype Reply<+T> = Ok(data: T) | Error(text: Text)

  function EncodeLogin(r: Reply<Profile>): Text {
    match r
    case Ok(p) => [0] + EncodeProfile(p)
    case Error(t) => [1] + EncodeText(t)
  }

  function EncodeChannelReply(r: Reply<ChannelVal>): Text {
    match r
    case Ok(c) => [0] + EncodeChannel(c)
    case Error(t) => [1] + EncodeText(t)
  }

  function EncodeMessageReply(r: Reply<MessageVal>): Text {
    match r
    case Ok(m) => [0] + EncodeMessage(m)
    case Error(t) => [1] + EncodeText(t)
  }

  function EncodeProfiles(ps: seq<Profile>): Text {
    if ps == [] then [] else EncodeProfiles(ps[..|ps| - 1]) + EncodeProfile(ps[|ps| - 1])
  }

  function EncodeAccounts(r: Reply<seq<Profile>>): Text {
    match r
    case Ok(ps) => [0] + ([|ps| % 256] + EncodeProfiles(ps))
    case Error(t) => [1] + EncodeText(t)
  }

  function DecodeError(buf: Text): Read<Text> {
    ReadText(buf, 1)
  }

  function DecodeLogin(buf: Text): Read<Reply<Profile>> {
    var (tag, at) :- ReadByte(buf, 0);
    if tag == 0 then
      var (p, at) :- DecodeProfile(buf[1..], 0);
      Got(Ok(p), 1 + at)
    else
      var (t, at) :- DecodeError(buf);
      Got(Error(t), at)
  }

  /** The receiving object is fresh; its own random uid is overwritten. */
  function DecodeChannelReply(buf: Text): Read<Reply<ChannelVal>> {
    var (tag, at) :- ReadByte(buf, 0);
    if tag == 0 then
      var (c, at) :- DecodeChannel(Blank(NIL), buf[1..]);
      Got(Ok(c), 1 + at)
    else
      var (t, at) :- DecodeError(buf);
      Got(Error(t), at)
  }

  function DecodeMessageReply(buf: Text): Read<Reply<MessageVal>> {
    var (tag, at) :- ReadByte(buf, 0);
    if tag == 0 then
      var (m, at) :- DecodeMessage(buf[1..]);
      Got(Ok(m), 1 + at)
    else
      var (t, at) :- DecodeError(buf);
      Got(Error(t), at)
  }

  /** `RegisterAccountResponse`: a tag alone, or an error text. */
  function EncodeRegistered(error: Option<Text>): Text {
    match error
    case None => [0]
    case Some(t) => [1] + EncodeText(t)
  }

  function DecodeRegistered(buf: Text): Read<Option<Text>> {
    var (tag, at) :- ReadByte(buf, 0);
    if tag == 0 then Got(None, at)
    else
      var (t, at) :- DecodeError(buf);
      Got(Some(t), at)
  }

  /** One user, decoded from everything that is left, the offset advanced by the decoded user's own
      size. */
  function SuffixUser(buf: Text, at: nat): Read<Profile> {
    if at > |buf| then Short
    else
      var (p, used) :- DecodeProfile(buf[at..], 0);
      Got(p, at + |EncodeProfile(p)|)
  }

  function UserReader(buf: Text): nat -> Read<Profile> {
    (at: nat) => SuffixUser(buf, at)
  }

  function DecodeProfiles(buf: Text, start: nat, n: nat): Read<seq<Profile>> {
    ReadMany(UserReader(buf), start, n)
  }

  function DecodeAccounts(buf: Text): Read<Reply<seq<Profile>>> {
    var (tag, at) :- ReadByte(buf, 0);
    if tag == 0 then
      var (n, at) :- ReadByte(buf, 1);
      var (ps, at) :- DecodeProfiles(buf, at, n);
      Got(Ok(ps), at)
    else
      var (t, at) :- DecodeError(buf);
      Got(Error(t), at)
  }

  lemma {:induction false} TagDecodes(tag: byte, e: Text)
    ensures ReadByte([tag] + e, 0) == Got(tag, 1)
    ensures ([tag] + e)[1..] == e && At(e, 0, e)
  {
  }

  lemma {:induction false} ErrorDecodes(t: Text)
    ensures DecodeError([1] + EncodeText(t)) == Got(t[..|t| % 256], 2 + |t| % 256)
  {
    assert At([1] + EncodeText(t), 1, EncodeText(t));
    TextDecodes([1] + EncodeText(t), 1, t);
  }

  predicate LoginFits(r: Reply<Profile>) {
    match r
    case Ok(p) => ProfileFits(p)
    case Error(t) => |t| <= 255
  }

  lemma {:induction false} LoginRoundTrip(r: Reply<Profile>)
    ensures (DecodeLogin(EncodeLogin(r)).Got? && DecodeLogin(EncodeLogin(r)).value == r) <==> LoginFits(r)
  {
    match r
    case Ok(p) =>
      TagDecodes(0, EncodeProfile(p));
      ProfileRoundTrip(EncodeProfile(p), 0, p);
    case Error(t) =>
      TagDecodes(1, EncodeText(t));
      ErrorDecodes(t);
  }

  predicate ChannelReplyFits(r: Reply<ChannelVal>) {
    match r
    case Ok(c) => ChannelFits(c)
    case Error(t) => |t| <= 255
  }

  function ReceivedReply(r: Reply<ChannelVal>): Reply<ChannelVal> {
    match r
    case Ok(c) => Ok(Received(c))
    case Error(_) => r
  }

  /** A channel response reaches the client with everything but its full history. */
  lemma {:induction false} ChannelReplyDecodes(r: Reply<ChannelVal>)
    requires ChannelReplyFits(r)
    ensures DecodeChannelReply(EncodeChannelReply(r)).Got?
    ensures DecodeChannelReply(EncodeChannelReply(r)).value == ReceivedReply(r)
  {
    match r
    case Ok(c) =>
      TagDecodes(0, EncodeChannel(c));
      ChannelDecodes(EncodeChannel(c), c, Blank(NIL));
      assert [] + c.members == c.members && [] + Received(c).history == Received(c).history;
    case Error(t) =>
      TagDecodes(1, EncodeText(t));
      ErrorDecodes(t);
  }

  predicate MessageReplyFits(r: Reply<MessageVal>) {
    match r
    case Ok(m) => MessageFits(m)
    case Error(t) => |t| <= 255
  }

  lemma {:induction false} MessageReplyRoundTrip(r: Reply<MessageVal>)
    ensures (DecodeMessageReply(EncodeMessageReply(r)).Got? && DecodeMessageReply(EncodeMessageReply(r)).value == r)
       <==> MessageReplyFits(r)
  {
    match r
    case Ok(m) =>
      TagDecodes(0, EncodeMessage(m));
      MessageRoundTrip(EncodeMessage(m), m);
    case Error(t) =>
      TagDecodes(1, EncodeText(t));
      ErrorDecodes(t);
  }

  /** The size a decoded user reports is the number of bytes it was decoded from. */
  lemma {:induction false} DecodedSize(buf: Text, at: nat)
    requires DecodeProfile(buf, at).Got?
    ensures DecodeProfile(buf, at).next == at + |EncodeProfile(DecodeProfile(buf, at).value)|
  {
  }

  predicate ProfilesFit(ps: seq<Profile>) {
    forall i :: 0 <= i < |ps| ==> ProfileFits(ps[i])
  }

  lemma {:induction false} SuffixProfile(buf: Text, at: nat, p: Profile)
    requires At(buf, at, EncodeProfile(p))
    ensures ProfileFits(p) ==> SuffixUser(buf, at) == Got(p, at + |EncodeProfile(p)|)
    ensures !ProfileFits(p) && SuffixUser(buf, at).Got? ==> SuffixUser(buf, at).value != p
  {
    assert buf[at..][0..|EncodeProfile(p)|] == buf[at..at + |EncodeProfile(p)|];
    ProfileRoundTrip(buf[at..], 0, p);
  }

  lemma {:induction false} ProfilesSplit(buf: Text, start: nat, front: seq<Profile>, last: Profile)
    requires At(buf, start, EncodeProfiles(front + [last]))
    ensures |EncodeProfiles(front + [last])| == |EncodeProfiles(front)| + |EncodeProfile(last)|
    ensures At(buf, start, EncodeProfiles(front))
    ensures At(buf, start + |EncodeProfiles(front)|, EncodeProfile(last))
  {
    assert (front + [last])[..|front|] == front;
    AtConcat(buf, start, EncodeProfiles(front), EncodeProfile(last));
  }

  lemma {:induction false} ProfilesDecode(buf: Text, start: nat, ps: seq<Profile>)
    requires At(buf, start, EncodeProfiles(ps)) && ProfilesFit(ps)
    ensures DecodeProfiles(buf, start, |ps|) == Got(ps, start + |EncodeProfiles(ps)|)
  {
    if ps != [] {
      var front, last := ps[..|ps| - 1], ps[|ps| - 1];
      assert ps == front + [last];
      ProfilesSplit(buf, start, front, last);
      ProfilesDecode(buf, start, front);
      var at := start + |EncodeProfiles(front)|;
      SuffixProfile(buf, at, last);
      ManyStep(UserReader(buf), start, front, at, last, at + |EncodeProfile(last)|);
    }
  }

  /** A user that does not fit is lost, so a list that is recovered has none. */
  lemma {:induction false} ProfilesRecovered(buf: Text, start: nat, ps: seq<Profile>, next: nat)
    requires At(buf, start, EncodeProfiles(ps)) && DecodeProfiles(buf, start, |ps|) == Got(ps, next)
    ensures ProfilesFit(ps) && next == start + |EncodeProfiles(ps)|
  {
    if ps != [] {
      var front, last := ps[..|ps| - 1], ps[|ps| - 1];
      assert ps == front + [last];
      ProfilesSplit(buf, start, front, last);
      ManyLast(UserReader(buf), start, |front|);
      var d := DecodeProfiles(buf, start, |front|);
      SnocUnique(d.value, SuffixUser(buf, d.next).value, front, last);
      ProfilesRecovered(buf, start, front, d.next);
      SuffixProfile(buf, d.next, last);
    }
  }

  lemma {:induction false} ProfilesPrefix(ps: seq<Profile>, n: nat)
    requires n <= |ps|
    ensures EncodeProfiles(ps[..n]) <= EncodeProfiles(ps)
    decreases |ps|
  {
    if n < |ps| {
      ProfilesPrefix(ps[..|ps| - 1], n);
      assert ps[..|ps| - 1][..n] == ps[..n];
    } else {
      assert ps[..n] == ps;
    }
  }

  /** A list of fitting users can always be read, whatever its count byte says. */
  lemma {:induction false} AccountsReadable(ps: seq<Profile>)
    requires ProfilesFit(ps)
    ensures DecodeAccounts(EncodeAccounts(Ok(ps))).Got?
  {
    var buf, n := EncodeAccounts(Ok(ps)), |ps| % 256;
    AccountsTagged(ps);
    CountAtMost(|ps|);
    FrontReadable(buf, ps, n);
    var d := DecodeProfiles(buf, 2, n);
    assert DecodeAccounts(buf) == Got(Ok(d.value), d.next);
  }

  lemma CountAtMost(n: nat)
    ensures n % 256 <= n
  {
  }

  lemma {:induction false} FrontReadable(buf: Text, ps: seq<Profile>, n: nat)
    requires At(buf, 2, EncodeProfiles(ps)) && ProfilesFit(ps) && n <= |ps|
    ensures DecodeProfiles(buf, 2, n).Got?
  {
    ProfilesPrefix(ps, n);
    AtPrefix(buf, 2, EncodeProfiles(ps[..n]), EncodeProfiles(ps));
    ProfilesDecode(buf, 2, ps[..n]);
  }

  lemma {:induction false} AccountsErrorReadable(t: Text)
    ensures DecodeAccounts(EncodeAccounts(Error(t))).Got?
  {
    TagDecodes(1, EncodeText(t));
    ErrorDecodes(t);
  }

  /** The answer to a registration can always be read, and is recovered exactly when its text, if it has
      one, fits. */
  lemma {:induction false} RegisteredRoundTrip(error: Option<Text>)
    ensures DecodeRegistered(EncodeRegistered(error)).Got?
    ensures DecodeRegistered(EncodeRegistered(error)).value == error <==> (error.Some? ==> |error.value| <= 255)
  {
    if error.Some? {
      TagDecodes(1, EncodeText(error.value));
      ErrorDecodes(error.value);
      TextKept(error.value);
    }
  }

  predicate AccountsFit(r: Reply<seq<Profile>>) {
    match r
    case Ok(ps) => |ps| <= 255 && ProfilesFit(ps)
    case Error(t) => |t| <= 255
  }

  /** The count byte wraps, so a list of more than 255 users is not recovered. */
  lemma {:induction false} LongListLost(buf: Text, ps: seq<Profile>, n: byte)
    requires |ps| > 255 && DecodeProfiles(buf, 2, n).Got?
    ensures DecodeProfiles(buf, 2, n).value != ps
  {
    ManyCount(UserReader(buf), 2, n);
  }

  lemma {:induction false} UserListRoundTrip(buf: Text, ps: seq<Profile>)
    requires At(buf, 2, EncodeProfiles(ps))
    ensures var d := DecodeProfiles(buf, 2, |ps|); (d.Got? && d.value == ps) <==> ProfilesFit(ps)
  {
    var d := DecodeProfiles(buf, 2, |ps|);
    if ProfilesFit(ps) {
      ProfilesDecode(buf, 2, ps);
    } else if d.Got? && d.value == ps {
      ProfilesRecovered(buf, 2, ps, d.next);
    }
  }

  lemma CountSmall(n: nat)
    ensures n <= 255 ==> n % 256 == n
  {
  }

  lemma {:induction false} ListRecovered(buf: Text, ps: seq<Profile>)
    requires At(buf, 2, EncodeProfiles(ps))
    ensures var d := DecodeProfiles(buf, 2, |ps| % 256);
      (d.Got? && d.value == ps) <==> |ps| <= 255 && ProfilesFit(ps)
  {
    CountSmall(|ps|);
    if |ps| <= 255 {
      UserListRoundTrip(buf, ps);
    } else if DecodeProfiles(buf, 2, |ps| % 256).Got? {
      LongListLost(buf, ps, |ps| % 256);
    }
  }

  lemma {:induction false} AccountsTagged(ps: seq<Profile>)
    ensures var buf := EncodeAccounts(Ok(ps));
      && At(buf, 2, EncodeProfiles(ps))
      && DecodeAccounts(buf) == match DecodeProfiles(buf, 2, |ps| % 256) {
           case Short => Short
           case Got(read, at) => Got(Ok(read), at)
         }
  {
    var buf, n := EncodeAccounts(Ok(ps)), |ps| % 256;
    assert buf == [0, n] + EncodeProfiles(ps);
    assert buf[0] == 0 && buf[1] == n;
  }

  /** An account list is recovered, all users in order, exactly when it has at most 255 users and
      every field of each at most 255 bytes. */
  lemma {:induction false} AccountsRoundTrip(r: Reply<seq<Profile>>)
    ensures (DecodeAccounts(EncodeAccounts(r)).Got? && DecodeAccounts(EncodeAccounts(r)).value == r)
       <==> AccountsFit(r)
  {
    match r
    case Ok(ps) =>
      AccountsTagged(ps);
      ListRecovered(EncodeAccounts(r), ps);
    case Error(t) =>
      TagDecodes(1, EncodeText(t));
      ErrorDecodes(t);
  }

  /* Requests */

  datatype Request =
    | RegisterAccount(username: Text, password: Text, displayName: Text)
    | Login(username: Text, password: Text)
    | ListAccounts(regex: Text)
    | DeleteAccount(username: Text, password: Text)
    | SendMessage(channel: Uuid, sender: Uuid, text: Text)
    | DeleteMessage(channel: Uuid, snowflake: uint64)
    | CreateChannel(name: Text, members: seq<Uuid>)

  function Operation(r: Request): byte {
    match r
    case RegisterAccount(_, _, _) => REGISTER_ACCOUNT
    case Login(_, _) => LOGIN
    case ListAccounts(_) => LIST_ACCOUNTS
    case DeleteAccount(_, _) => DELETE_ACCOUNT
    case SendMessage(_, _, _) => SEND_MESSAGE
    case DeleteMessage(_, _) => DELETE_MESSAGE
    case CreateChannel(_, _) => CREATE_CHANNEL
  }

  function EncodeRequest(r: Request): Text {
    match r
    case RegisterAccount(username, password, displayName) =>
      EncodeText(username) + EncodeText(password) + EncodeText(displayName)
    case Login(username, password) => EncodeText(username) + EncodeText(password)
    case ListAccounts(regex) => EncodeText(regex)
    case DeleteAccount(username, password) => EncodeText(username) + EncodeText(password)
    case SendMessage(channel, sender, text) => channel + sender + EncodeText(text)
    case DeleteMessage(channel, snowflake) => channel + BigEndian(snowflake, 8)
    case CreateChannel(name, members) => EncodeText(name) + EncodeUuidList(members)
  }

  function ReadBigEndian(buf: Text, at: nat): Read<uint64> {
    if at + 8 <= |buf| then
      BigEndianBound(buf[at..at + 8]);
      Pow256();
      Got(BigEndianValue(buf[at..at + 8]), at + 8)
    else Short
  }

  function DecodeRegister(buf: Text): Read<Request> {
    var (username, at) :- ReadText(buf, 0);
    var (password, at) :- ReadText(buf, at);
    var (displayName, at) :- ReadText(buf, at);
    Got(RegisterAccount(username, password, displayName), at)
  }

  function DecodePair(buf: Text): Read<(Text, Text)> {
    var (username, at) :- ReadText(buf, 0);
    var (password, at) :- ReadText(buf, at);
    Got((username, password), at)
  }

  function DecodeSend(buf: Text): Read<Request> {
    var (channel, at) :- ReadUuid(buf, 0);
    var (sender, at) :- ReadUuid(buf, at);
    var (text, at) :- ReadText(buf, at);
    Got(SendMessage(channel, sender, text), at)
  }

  function DecodeDelete(buf: Text): Read<Request> {
    var (channel, at) :- ReadUuid(buf, 0);
    var (snowflake, at) :- ReadBigEndian(buf, at);
    Got(DeleteMessage(channel, snowflake), at)
  }

  function DecodeCreate(buf: Text): Read<Request> {
    var (name, at) :- ReadText(buf, 0);
    var (members, at) :- ReadUuidList(buf, at);
    Got(CreateChannel(name, members), at)
  }

  /** The server's dispatch on the operation of a frame: `None` for an unknown operation, a short
      read for a payload it would read past the end of. */
  function DecodeRequest(f: Frame): Option<Read<Request>> {
    if f.operation == REGISTER_ACCOUNT then Some(DecodeRegister(f.payload))
    else if f.operation == LOGIN then
      Some(match DecodePair(f.payload) case Short => Short case Got(p, at) => Got(Login(p.0, p.1), at))
    else if f.operation == LIST_ACCOUNTS then
      Some(match ReadText(f.payload, 0) case Short => Short case Got(t, at) => Got(ListAccounts(t), at))
    else if f.operation == DELETE_ACCOUNT then
      Some(match DecodePair(f.payload) case Short => Short case Got(p, at) => Got(DeleteAccount(p.0, p.1), at))
    else if f.operation == SEND_MESSAGE then Some(DecodeSend(f.payload))
    else if f.operation == DELETE_MESSAGE then Some(DecodeDelete(f.payload))
    else if f.operation == CREATE_CHANNEL then Some(DecodeCreate(f.payload))
    else None
  }

  /** The strings and lists of a request fit their length bytes. */
  predicate RequestFits(r: Request) {
    match r
    case RegisterAccount(username, password, displayName) =>
      |username| <= 255 && |password| <= 255 && |displayName| <= 255
    case Login(username, password) => |username| <= 255 && |password| <= 255
    case ListAccounts(regex) => |regex| <= 255
    case DeleteAccount(username, password) => |username| <= 255 && |password| <= 255
    case SendMessage(_, _, text) => |text| <= 255
    case DeleteMessage(_, _) => true
    case CreateChannel(name, members) => |name| <= 255 && |members| <= 255
  }

  /** Whatever bytes arrive, a request the server obtains from them fits: the limits that the
      responses need are enforced by the request format itself. */
  lemma {:induction false} DecodedRequestFits(f: Frame)
    requires DecodeRequest(f).Some? && DecodeRequest(f).value.Got?
    ensures RequestFits(DecodeRequest(f).value.value)
  {
  }

  lemma {:induction false} PairDecodes(a: Text, b: Text)
    ensures var d := DecodePair(EncodeText(a) + EncodeText(b));
      (d.Got? && d.value == (a, b)) <==> |a| <= 255 && |b| <= 255
  {
    var buf := EncodeText(a) + EncodeText(b);
    AtConcat(buf, 0, EncodeText(a), EncodeText(b));
    TextDecodes(buf, 0, a);
    if |a| <= 255 {
      ShortTextDecodes(buf, 0, a);
      TextDecodes(buf, 1 + |a|, b);
      TextKept(b);
    }
  }

  lemma {:induction false} TextKept(t: Text)
    ensures t[..|t| % 256] == t <==> |t| <= 255
  {
  }

  lemma {:induction false} ShortRegisterDecodes(buf: Text, a: Text, b: Text, c: Text)
    requires |a| <= 255 && |b| <= 255 && |c| <= 255
    requires At(buf, 0, EncodeText(a)) && At(buf, 1 + |a|, EncodeText(b))
    requires At(buf, 2 + |a| + |b|, EncodeText(c))
    ensures DecodeRegister(buf) == Got(RegisterAccount(a, b, c), 3 + |a| + |b| + |c|)
  {
    ShortTextDecodes(buf, 0, a);
    ShortTextDecodes(buf, 1 + |a|, b);
    ShortTextDecodes(buf, 2 + |a| + |b|, c);
  }

  lemma {:induction false} RegisterDecodes(a: Text, b: Text, c: Text)
    ensures var d := DecodeRegister(EncodeText(a) + EncodeText(b) + EncodeText(c));
      (d.Got? && d.value == RegisterAccount(a, b, c)) <==> |a| <= 255 && |b| <= 255 && |c| <= 255
  {
    var buf := EncodeText(a) + EncodeText(b) + EncodeText(c);
    AtConcat(buf, 0, EncodeText(a) + EncodeText(b), EncodeText(c));
    AtConcat(buf, 0, EncodeText(a), EncodeText(b));
    if |a| <= 255 && |b| <= 255 && |c| <= 255 {
      ShortRegisterDecodes(buf, a, b, c);
    } else {
      LongRegisterDecodes(buf, a, b, c);
    }
  }

  lemma {:induction false} LongRegisterDecodes(buf: Text, a: Text, b: Text, c: Text)
    requires |a| > 255 || |b| > 255 || |c| > 255
    requires At(buf, 0, EncodeText(a)) && At(buf, 1 + |a|, EncodeText(b))
    requires At(buf, 2 + |a| + |b|, EncodeText(c))
    ensures DecodeRegister(buf).Got? ==> DecodeRegister(buf).value != RegisterAccount(a, b, c)
  {
    TextDecodes(buf, 0, a);
    if |a| <= 255 {
      TextDecodes(buf, 1 + |a|, b);
      if |b| <= 255 {
        TextDecodes(buf, 2 + |a| + |b|, c);
      }
    }
  }

  lemma {:induction false} SendDecodes(channel: Uuid, sender: Uuid, text: Text)
    ensures var d := DecodeSend(channel + sender + EncodeText(text));
      (d.Got? && d.value == SendMessage(channel, sender, text)) <==> |text| <= 255
  {
    var buf := channel + sender + EncodeText(text);
    AtConcat(buf, 0, channel + sender, EncodeText(text));
    AtConcat(buf, 0, channel, sender);
    TextDecodes(buf, 32, text);
    TextKept(text);
  }

  lemma {:induction false} DeleteDecodes(channel: Uuid, snowflake: uint64)
    ensures DecodeDelete(channel + BigEndian(snowflake, 8)) == Got(DeleteMessage(channel, snowflake), 24)
  {
    AtConcat(channel + BigEndian(snowflake, 8), 0, channel, BigEndian(snowflake, 8));
    Pow256();
    BigEndianInverse(snowflake, 8);
  }

  lemma {:induction false} CreateDecodes(name: Text, members: seq<Uuid>)
    ensures var d := DecodeCreate(EncodeText(name) + EncodeUuidList(members));
      (d.Got? && d.value == CreateChannel(name, members)) <==> |name| <= 255 && |members| <= 255
  {
    var buf := EncodeText(name) + EncodeUuidList(members);
    AtConcat(buf, 0, EncodeText(name), EncodeUuidList(members));
    TextDecodes(buf, 0, name);
    if |name| <= 255 {
      ShortTextDecodes(buf, 0, name);
      UuidListDecodes(buf, 1 + |name|, members);
      if |members| <= 255 {
        ShortUuidListDecodes(buf, 1 + |name|, members);
      }
    }
  }

  lemma {:induction false} SearchDecodes(regex: Text)
    ensures var d := ReadText(EncodeText(regex), 0); (d.Got? && d.value == regex) <==> |regex| <= 255
  {
    assert At(EncodeText(regex), 0, EncodeText(regex));
    TextDecodes(EncodeText(regex), 0, regex);
    TextKept(regex);
  }

  lemma {:induction false} PairRoundTrip(r: Request)
    requires r.Login? || r.DeleteAccount?
    ensures var d := DecodeRequest(Frame(Operation(r), EncodeRequest(r)));
      d.Some? && ((d.value.Got? && d.value.value == r) <==> RequestFits(r))
  {
    PairDecodes(r.username, r.password);
  }

  lemma {:induction false} SearchRoundTrip(r: Request)
    requires r.ListAccounts?
    ensures var d := DecodeRequest(Frame(Operation(r), EncodeRequest(r)));
      d.Some? && ((d.value.Got? && d.value.value == r) <==> RequestFits(r))
  {
    SearchDecodes(r.regex);
  }

  lemma {:induction false} RegisterRoundTrip(r: Request)
    requires r.RegisterAccount?
    ensures var d := DecodeRequest(Frame(Operation(r), EncodeRequest(r)));
      d.Some? && ((d.value.Got? && d.value.value == r) <==> RequestFits(r))
  {
    RegisterDecodes(r.username, r.password, r.displayName);
  }

  lemma {:induction false} MessageRequestRoundTrip(r: Request)
    requires r.SendMessage? || r.DeleteMessage?
    ensures var d := DecodeRequest(Frame(Operation(r), EncodeRequest(r)));
      d.Some? && ((d.value.Got? && d.value.value == r) <==> RequestFits(r))
  {
    if r.SendMessage? {
      SendDecodes(r.channel, r.sender, r.text);
    } else {
      DeleteDecodes(r.channel, r.snowflake);
    }
  }

  lemma {:induction false} CreateRoundTrip(r: Request)
    requires r.CreateChannel?
    ensures var d := DecodeRequest(Frame(Operation(r), EncodeRequest(r)));
      d.Some? && ((d.value.Got? && d.value.value == r) <==> RequestFits(r))
  {
    CreateDecodes(r.name, r.members);
  }

  /** Every request survives the wire exactly when it fits; a delete request always does, for every
      64-bit snowflake. */
  lemma {:induction false} RequestRoundTrip(r: Request)
    ensures var d := DecodeRequest(Frame(Operation(r), EncodeRequest(r)));
      d.Some? && ((d.value.Got? && d.value.value == r) <==> RequestFits(r))
  {
    match r
    case RegisterAccount(_, _, _) => RegisterRoundTrip(r);
    case Login(_, _) => PairRoundTrip(r);
    case DeleteAccount(_, _) => PairRoundTrip(r);
    case ListAccounts(_) => SearchRoundTrip(r);
    case SendMessage(_, _, _) => MessageRequestRoundTrip(r);
    case DeleteMessage(_, _) => MessageRequestRoundTrip(r);
    case CreateChannel(_, _) => CreateRoundTrip(r);
  }
}
