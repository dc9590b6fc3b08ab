/** The values carried by users, channels and messages, their wire records, and what decoding a
    record yields (src/models/user.cpp, channel.cpp, message.cpp). */
module Models {
  import opened Bits
  import opened Bytes

  /** The part of a user that travels on the wire. */
  datatype Profile = Profile(uid: Uuid, username: Text, displayName: Text, profilePic: Text)

  datatype UserVal = UserVal(profile: Profile, channels: seq<Uuid>)

  datatype ChannelVal = ChannelVal(uid: Uuid, name: Text, members: seq<Uuid>, history: seq<uint64>)

  datatype MessageVal = MessageVal(snowflake: uint64, sender: Uuid, channel: Uuid,
                                   createdAt: uint64, modifiedAt: uint64, text: Text, readBy: seq<Uuid>)

  /** A message as its constructor fills it in, from an issued id and a clock reading. */
  function NewMessage(id: int, sender: Uuid, channel: Uuid, text: Text, now: uint64): MessageVal {
    MessageVal(id % TWO_64, sender, channel, now, now, text, [sender])
  }

  /* Encodings */

  function EncodeProfile(p: Profile): (e: Text)
    ensures |e| == 19 + |p.username| + |p.displayName| + |p.profilePic|
  {
    p.uid + EncodeText(p.username) + EncodeText(p.displayName) + EncodeText(p.profilePic)
  }

  /** One byte per snowflake: the conversion to `uint8_t` keeps the lowest. */
  function LowBytes(history: seq<uint64>): (e: Text)
    ensures |e| == |history|
    ensures forall i :: 0 <= i < |e| ==> e[i] == history[i] % 256
  {
    seq(|history|, i requires 0 <= i < |history| => history[i] % 256)
  }

  function EncodeHistory(history: seq<uint64>): (e: Text)
    ensures |e| == 1 + |history|
  {
    [|history| % 256] + LowBytes(history)
  }

  function EncodeChannel(c: ChannelVal): (e: Text)
    ensures |e| == 19 + |c.name| + 16 * |c.members| + |c.history|
  {
    c.uid + EncodeText(c.name) + EncodeUuidList(c.members) + EncodeHistory(c.history)
  }

  function EncodeMessage(m: MessageVal): (e: Text)
    ensures |e| == 58 + |m.text| + 16 * |m.readBy|
  {
    m.sender + m.channel
    + LittleEndian(m.snowflake, 8) + LittleEndian(m.createdAt, 8) + LittleEndian(m.modifiedAt, 8)
    + EncodeText(m.text) + EncodeUuidList(m.readBy)
  }

  /* Decodings */

  function DecodeProfile(buf: Text, at: nat): Read<Profile> {
    var (uid, at) :- ReadUuid(buf, at);
    var (username, at) :- ReadText(buf, at);
    var (displayName, at) :- ReadText(buf, at);
    var (profilePic, at) :- ReadText(buf, at);
    Got(Profile(uid, username, displayName, profilePic), at)
  }

  function ReadHistory(buf: Text, at: nat): Read<seq<uint64>> {
    var (n, at) :- ReadByte(buf, at);
    var (bs, at) :- ReadBytes(buf, at, n);
    Got(bs, at)
  }

  /** Decoding replaces the uid and the name of the receiving object, but appends to its lists. */
  function DecodeChannel(into: ChannelVal, buf: Text): Read<ChannelVal> {
    var (uid, at) :- ReadUuid(buf, 0);
    var (name, at) :- ReadText(buf, at);
    var (members, at) :- ReadUuidList(buf, at);
    var (history, at) :- ReadHistory(buf, at);
    Got(ChannelVal(uid, name, into.members + members, into.history + history), at)
  }

  function DecodeMessage(buf: Text): Read<MessageVal> {
    var (sender, at) :- ReadUuid(buf, 0);
    var (channel, at) :- ReadUuid(buf, at);
    var (snowflake, at) :- ReadUint64(buf, at);
    var (createdAt, at) :- ReadUint64(buf, at);
    var (modifiedAt, at) :- ReadUint64(buf, at);
    var (text, at) :- ReadText(buf, at);
    var (readBy, at) :- ReadUuidList(buf, at);
    Got(MessageVal(snowflake, sender, channel, createdAt, modifiedAt, text, readBy), at)
  }

  /** A channel object as `std::make_shared<Channel>()` leaves it. */
  function Blank(uid: Uuid): ChannelVal {
    ChannelVal(uid, [], [], [])
  }

  /* Values that survive the one-byte length prefixes */

  predicate ProfileFits(p: Profile) {
    |p.username| <= 255 && |p.displayName| <= 255 && |p.profilePic| <= 255
  }

  predicate ChannelFits(c: ChannelVal) {
    |c.name| <= 255 && |c.members| <= 255
  }

  predicate MessageFits(m: MessageVal) {
    |m.text| <= 255 && |m.readBy| <= 255
  }

  lemma {:induction false} ProfileParts(buf: Text, at: nat, p: Profile)
    requires At(buf, at, EncodeProfile(p))
    ensures At(buf, at, p.uid) && At(buf, at + 16, EncodeText(p.username))
    ensures At(buf, at + 17 + |p.username|, EncodeText(p.displayName))
    ensures At(buf, at + 18 + |p.username| + |p.displayName|, EncodeText(p.profilePic))
  {
    var u, d, f := EncodeText(p.username), EncodeText(p.displayName), EncodeText(p.profilePic);
    AtConcat(buf, at, p.uid + u + d, f);
    AtConcat(buf, at, p.uid + u, d);
    AtConcat(buf, at, p.uid, u);
  }

  lemma {:induction false} ProfileDecodes(buf: Text, at: nat, p: Profile)
    requires At(buf, at, EncodeProfile(p)) && ProfileFits(p)
    ensures DecodeProfile(buf, at) == Got(p, at + |EncodeProfile(p)|)
  {
    ProfileParts(buf, at, p);
    UuidDecodes(buf, at, p.uid);
    var at1 := at + 16;
    ShortTextDecodes(buf, at1, p.username);
    var at2 := at1 + 1 + |p.username|;
    ShortTextDecodes(buf, at2, p.displayName);
    var at3 := at2 + 1 + |p.displayName|;
    ShortTextDecodes(buf, at3, p.profilePic);
  }

  lemma {:induction false} ProfileTruncated(buf: Text, at: nat, p: Profile)
    requires At(buf, at, EncodeProfile(p)) && !ProfileFits(p)
    ensures DecodeProfile(buf, at).Got? ==> DecodeProfile(buf, at).value != p
  {
    ProfileParts(buf, at, p);
    UuidDecodes(buf, at, p.uid);
    TextDecodes(buf, at + 16, p.username);
    if |p.username| <= 255 {
      TextDecodes(buf, at + 17 + |p.username|, p.displayName);
      if |p.displayName| <= 255 {
        TextDecodes(buf, at + 18 + |p.username| + |p.displayName|, p.profilePic);
      }
    }
  }

  /** A profile found anywhere in a buffer is recovered exactly when its three strings fit their
      length bytes; what follows it does not matter, and the bytes consumed are its size. */
  lemma {:induction false} ProfileRoundTrip(buf: Text, at: nat, p: Profile)
    requires At(buf, at, EncodeProfile(p))
    ensures ProfileFits(p) ==> DecodeProfile(buf, at) == Got(p, at + |EncodeProfile(p)|)
    ensures (DecodeProfile(buf, at).Got? && DecodeProfile(buf, at).value == p) <==> ProfileFits(p)
  {
    if ProfileFits(p) {
      ProfileDecodes(buf, at, p);
    } else {
      ProfileTruncated(buf, at, p);
    }
  }

  lemma {:induction false} HistoryDecodes(buf: Text, at: nat, history: seq<uint64>)
    requires At(buf, at, EncodeHistory(history))
    ensures ReadHistory(buf, at)
         == Got(LowBytes(history)[..|history| % 256], at + 1 + |history| % 256)
  {
    var n := |history| % 256;
    AtConcat(buf, at, [n], LowBytes(history));
    AtByte(buf, at, n);
    assert buf[at + 1..at + 1 + n] == buf[at + 1..at + 1 + |history|][..n];
  }

  lemma {:induction false} ChannelParts(buf: Text, c: ChannelVal)
    requires At(buf, 0, EncodeChannel(c))
    ensures At(buf, 0, c.uid) && At(buf, 16, EncodeText(c.name))
    ensures At(buf, 17 + |c.name|, EncodeUuidList(c.members))
    ensures At(buf, 18 + |c.name| + 16 * |c.members|, EncodeHistory(c.history))
  {
    var n, m, h := EncodeText(c.name), EncodeUuidList(c.members), EncodeHistory(c.history);
    AtConcat(buf, 0, c.uid + n + m, h);
    AtConcat(buf, 0, c.uid + n, m);
    AtConcat(buf, 0, c.uid, n);
  }

  /** What a client holds after decoding a channel into a fresh object. */
  function Received(c: ChannelVal): ChannelVal {
    c.(history := LowBytes(c.history)[..|c.history| % 256])
  }

  /** Each field of a channel record is read from where the one before it ended. */
  lemma {:induction false} ChannelFields(buf: Text, c: ChannelVal)
    requires At(buf, 0, EncodeChannel(c)) && ChannelFits(c)
    ensures var at2 := 17 + |c.name|;
      var at3 := at2 + 1 + 16 * |c.members|;
      && ReadUuid(buf, 0) == Got(c.uid, 16)
      && ReadText(buf, 16) == Got(c.name, at2)
      && ReadUuidList(buf, at2) == Got(c.members, at3)
      && ReadHistory(buf, at3) == Got(Received(c).history, at3 + 1 + |c.history| % 256)
  {
    ChannelParts(buf, c);
    var at2 := 17 + |c.name|;
    UuidDecodes(buf, 0, c.uid);
    ShortTextDecodes(buf, 16, c.name);
    ShortUuidListDecodes(buf, at2, c.members);
    HistoryDecodes(buf, at2 + 1 + 16 * |c.members|, c.history);
  }

  /** The exact meaning of the channel record, for a history of any length: uid, name and members
      are recovered, and of the history only the low bytes of its first (length mod 256) entries.
      Trailing bytes are harmless. */
  lemma {:induction false} ChannelDecodes(buf: Text, c: ChannelVal, into: ChannelVal)
    requires At(buf, 0, EncodeChannel(c)) && ChannelFits(c)
    ensures DecodeChannel(into, buf).Got?
    ensures DecodeChannel(into, buf).value
         == Received(c).(members := into.members + c.members,
                         history := into.history + Received(c).history)
  {
    ChannelFields(buf, c);
  }

  predicate AllBytes(history: seq<uint64>) {
    forall i :: 0 <= i < |history| ==> history[i] < 256
  }

  lemma {:induction false} ReceivedHistory(history: seq<uint64>)
    ensures LowBytes(history)[..|history| % 256] == history <==> |history| <= 255 && AllBytes(history)
  {
    var low := LowBytes(history)[..|history| % 256];
    if low == history {
      forall i | 0 <= i < |history| ensures history[i] < 256 {
        assert low[i] == history[i] % 256;
      }
    }
  }

  /** A channel round-trips into a fresh object exactly when its name, members and history fit their
      length bytes and every snowflake is a single byte. */
  lemma {:induction false} ChannelRoundTrip(buf: Text, c: ChannelVal, uid: Uuid)
    requires At(buf, 0, EncodeChannel(c))
    ensures (DecodeChannel(Blank(uid), buf).Got? && DecodeChannel(Blank(uid), buf).value == c)
       <==> ChannelFits(c) && |c.history| <= 255 && AllBytes(c.history)
  {
    ChannelParts(buf, c);
    TextDecodes(buf, 16, c.name);
    ReceivedHistory(c.history);
    if ChannelFits(c) {
      ChannelDecodes(buf, c, Blank(uid));
      assert [] + c.members == c.members && [] + Received(c).history == Received(c).history;
    } else if |c.name| <= 255 {
      UuidListDecodes(buf, 17 + |c.name|, c.members);
    }
  }

  /** Decoding the same record twice into one object doubles its lists: the decoder appends. */
  lemma {:induction false} ChannelDecodesTwice(buf: Text, c: ChannelVal, uid: Uuid)
    requires At(buf, 0, EncodeChannel(c)) && ChannelFits(c)
    ensures var once := DecodeChannel(Blank(uid), buf);
      && once.Got? && DecodeChannel(once.value, buf).Got?
      && DecodeChannel(once.value, buf).value.members == c.members + c.members
      && (DecodeChannel(once.value, buf).value == once.value
          <==> c.members == [] && |c.history| % 256 == 0)
  {
    ChannelDecodes(buf, c, Blank(uid));
    var once := DecodeChannel(Blank(uid), buf).value;
    ChannelDecodes(buf, c, once);
    assert [] + c.members == c.members;
    var h := Received(c).history;
    assert [] + h == h && |h + h| == 2 * |h| && |c.members + c.members| == 2 * |c.members|;
    assert h == [] <==> |c.history| % 256 == 0;
  }

  lemma {:induction false} MessageParts(buf: Text, m: MessageVal)
    requires At(buf, 0, EncodeMessage(m))
    ensures At(buf, 0, m.sender) && At(buf, 16, m.channel)
    ensures At(buf, 32, LittleEndian(m.snowflake, 8)) && At(buf, 40, LittleEndian(m.createdAt, 8))
    ensures At(buf, 48, LittleEndian(m.modifiedAt, 8)) && At(buf, 56, EncodeText(m.text))
    ensures At(buf, 57 + |m.text|, EncodeUuidList(m.readBy))
  {
    var s, c, d := LittleEndian(m.snowflake, 8), LittleEndian(m.createdAt, 8), LittleEndian(m.modifiedAt, 8);
    var t, r := EncodeText(m.text), EncodeUuidList(m.readBy);
    AtConcat(buf, 0, m.sender + m.channel + s + c + d + t, r);
    AtConcat(buf, 0, m.sender + m.channel + s + c + d, t);
    AtConcat(buf, 0, m.sender + m.channel + s + c, d);
    AtConcat(buf, 0, m.sender + m.channel + s, c);
    AtConcat(buf, 0, m.sender + m.channel, s);
    AtConcat(buf, 0, m.sender, m.channel);
  }

  /** A message is recovered, with all its 64-bit fields, exactly when its text and its reader list
      fit their length bytes. */
  lemma {:induction false} MessageRoundTrip(buf: Text, m: MessageVal)
    requires At(buf, 0, EncodeMessage(m))
    ensures (DecodeMessage(buf).Got? && DecodeMessage(buf).value == m) <==> MessageFits(m)
  {
    MessageParts(buf, m);
    UuidDecodes(buf, 0, m.sender);
    UuidDecodes(buf, 16, m.channel);
    Uint64Decodes(buf, 32, m.snowflake);
    Uint64Decodes(buf, 40, m.createdAt);
    Uint64Decodes(buf, 48, m.modifiedAt);
    TextDecodes(buf, 56, m.text);
    if |m.text| <= 255 {
      UuidListDecodes(buf, 57 + |m.text|, m.readBy);
    }
  }
}
