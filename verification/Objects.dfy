/** The mutable user, channel and message objects that the tables and the client share, with their
    serialisers, decoders and list updates. */
module Objects {
  import opened Bits
  import opened Bytes
  import opened Lists
  import opened Models
  import opened Snowflake

  /* Serialising helpers: the pieces every record is pushed from */

  method PushText(buf: Buffer, t: Text)
    modifies buf
    ensures buf.data == old(buf.data) + EncodeText(t)
  {
    buf.PushBack(|t|);
    buf.Insert(t);
  }

  method PushUuidList(buf: Buffer, us: seq<Uuid>)
    modifies buf
    ensures buf.data == old(buf.data) + EncodeUuidList(us)
  {
    buf.PushBack(|us|);
    for i := 0 to |us|
      invariant buf.data == old(buf.data) + [|us| % 256] + EncodeUuids(us[..i])
    {
      assert us[..i + 1][..i] == us[..i];
      buf.Insert(us[i]);
    }
    assert us[..|us|] == us;
  }

  /** Reads a counted list of UUIDs, advancing an offset past each. */
  method PullUuidList(buf: Text, start: nat) returns (us: seq<Uuid>, offset: nat)
    requires ReadUuidList(buf, start).Got?
    ensures Got(us, offset) == ReadUuidList(buf, start)
  {
    var n := buf[start];
    offset := start + 1;
    us := [];
    for i := 0 to n
      invariant ReadUuids(buf, start + 1, i) == Got(us, offset)
    {
      UuidsPrefix(buf, start + 1, i + 1, n);
      us := us + [buf[offset..offset + 16]];
      offset := offset + 16;
    }
  }

  lemma {:induction false} UuidsPrefix(buf: Text, at: nat, i: nat, n: nat)
    requires i <= n && ReadUuids(buf, at, n).Got?
    ensures ReadUuids(buf, at, i).Got?
  {
    if i < n {
      UuidsPrefix(buf, at, i, n - 1);
    }
  }

  class User {
    var uid: Uuid
    var username: Text
    var displayName: Text
    var profilePic: Text
    var channels: seq<Uuid>

    ghost function Wire(): Profile
      reads this
    {
      Profile(uid, username, displayName, profilePic)
    }

    ghost function Value(): UserVal
      reads this
    {
      UserVal(Wire(), channels)
    }

    constructor (username: Text, displayName: Text, uid: Uuid, profilePic: Text)
      ensures Value() == UserVal(Profile(uid, username, displayName, profilePic), [])
    {
      this.uid, this.username, this.displayName, this.profilePic := uid, username, displayName, profilePic;
      channels := [];
    }

    constructor Blank(uid: Uuid)
      ensures Value() == UserVal(Profile(uid, [], [], []), [])
    {
      this.uid, username, displayName, profilePic, channels := uid, [], [], [], [];
    }

    method Serialize(buf: Buffer)
      modifies buf
      ensures buf.data == old(buf.data) + EncodeProfile(Wire())
    {
      buf.Insert(uid);
      PushText(buf, username);
      PushText(buf, displayName);
      PushText(buf, profilePic);
    }

    /** Ignores the bytes after the profile. */
    method Deserialize(buf: Text)
      requires DecodeProfile(buf, 0).Got?
      modifies this
      ensures Wire() == DecodeProfile(buf, 0).value && channels == old(channels)
    {
      var offset: nat := 0;
      uid := buf[offset..offset + 16];
      offset := offset + 16;
      var usernameLength := buf[offset];
      offset := offset + 1;
      username := buf[offset..offset + usernameLength];
      offset := offset + usernameLength;
      var displayNameLength := buf[offset];
      offset := offset + 1;
      displayName := buf[offset..offset + displayNameLength];
      offset := offset + displayNameLength;
      var profilePicLength := buf[offset];
      offset := offset + 1;
      profilePic := buf[offset..offset + profilePicLength];
    }

    method Size() returns (size: nat)
      ensures size == |EncodeProfile(Wire())|
    {
      size := |uid|;
      size := size + 1 + |username|;
      size := size + 1 + |displayName|;
      size := size + 1 + |profilePic|;
    }

    method AddChannel(channel: Uuid)
      modifies this`channels
      ensures channels == old(channels) + [channel]
    {
      channels := channels + [channel];
    }

    method RemoveChannel(channel: Uuid)
      modifies this`channels
      ensures channels == RemoveFirst(old(channels), channel)
    {
      channels := EraseFirst(channels, channel);
    }
  }

  class Channel {
    var uid: Uuid
    var name: Text
    var members: seq<Uuid>
    var history: seq<uint64>

    function Value(): ChannelVal
      reads this
    {
      ChannelVal(uid, name, members, history)
    }

    constructor (name: Text, members: seq<Uuid>, uid: Uuid)
      ensures Value() == ChannelVal(uid, name, members, [])
    {
      this.uid, this.name, this.members, history := uid, name, members, [];
    }

    constructor Blank(uid: Uuid)
      ensures Value() == Models.Blank(uid)
    {
      this.uid, name, members, history := uid, [], [], [];
    }

    method Serialize(buf: Buffer)
      modifies buf
      ensures buf.data == old(buf.data) + EncodeChannel(Value())
    {
      buf.Insert(uid);
      PushText(buf, name);
      PushUuidList(buf, members);
      ghost var before := buf.data;
      buf.PushBack(|history|);
      for i := 0 to |history|
        invariant buf.data == before + [|history| % 256] + LowBytes(history)[..i]
      {
        assert LowBytes(history)[..i + 1] == LowBytes(history)[..i] + [history[i] % 256];
        buf.PushBack(history[i]);
      }
      assert LowBytes(history)[..|history|] == LowBytes(history);
    }

    method Deserialize(buf: Text)
      requires DecodeChannel(Value(), buf).Got?
      modifies this
      ensures Value() == DecodeChannel(old(Value()), buf).value
    {
      var offset: nat := 0;
      uid := buf[offset..offset + 16];
      offset := offset + 16;
      var nameLength := buf[offset];
      offset := offset + 1;
      name := buf[offset..offset + nameLength];
      offset := offset + nameLength;
      var users;
      users, offset := PullUuidList(buf, offset);
      members := members + users;
      PullHistory(buf, offset);
    }

    /** Appends the counted snowflakes, one byte each. */
    method PullHistory(buf: Text, start: nat)
      requires ReadHistory(buf, start).Got?
      modifies this`history
      ensures history == old(history) + ReadHistory(buf, start).value
    {
      var numMessages := buf[start];
      var offset: nat := start + 1;
      for i := 0 to numMessages
        invariant offset == start + 1 + i
        invariant history == old(history) + buf[start + 1..offset]
      {
        history := history + [buf[offset]];
        offset := offset + 1;
      }
    }

    method Size() returns (size: nat)
      ensures size == |EncodeChannel(Value())|
    {
      size := |uid| + 1 + |name| + 1;
      for i := 0 to |members|
        invariant size == 18 + |name| + 16 * i
      {
        size := size + 16;
      }
      size := size + 1;
      size := size + |history|;
    }

    method AddUser(user: Uuid)
      modifies this`members
      ensures members == old(members) + [user]
    {
      members := members + [user];
    }

    method AddMessage(snowflake: uint64)
      modifies this`history
      ensures history == old(history) + [snowflake]
    {
      history := history + [snowflake];
    }

    method RemoveUser(user: Uuid)
      modifies this`members
      ensures members == Without(old(members), user)
    {
      members := EraseAll(members, user);
    }

    method RemoveMessage(snowflake: uint64)
      modifies this`history
      ensures history == Without(old(history), snowflake)
    {
      history := EraseAll(history, snowflake);
    }
  }

  /** Nothing changes a message once it is built, so its fields are constants. */
  class Message {
    const snowflake: uint64
    const sender: Uuid
    const channel: Uuid
    const createdAt: uint64
    const modifiedAt: uint64
    const text: Text
    const readBy: seq<Uuid>

    function Value(): MessageVal {
      MessageVal(snowflake, sender, channel, createdAt, modifiedAt, text, readBy)
    }

    constructor (id: int, sender: Uuid, channel: Uuid, text: Text, now: uint64)
      ensures Value() == NewMessage(id, sender, channel, text, now)
    {
      snowflake := id % TWO_64;
      this.sender, this.channel, this.text := sender, channel, text;
      createdAt, modifiedAt := now, now;
      readBy := [sender];
    }

    /** The source's constructor asks the generator for its id first; null when that call throws or
        does not return. */
    static method Create(sender: Uuid, channel: Uuid, text: Text, generator: SnowflakeIDGenerator,
                         clock: seq<int>, now: uint64)
      returns (message: Message?)
      requires generator.Valid()
      modifies generator
      ensures generator.Valid() && generator.State() == Next(old(generator.State()), clock).1
      ensures var outcome := Next(old(generator.State()), clock).0;
        if outcome.Issued? then
          message != null && fresh(message)
          && message.Value() == NewMessage(outcome.id, sender, channel, text, now)
        else message == null
    {
      var outcome := generator.NextId(clock);
      if outcome.Issued? {
        message := new Message(outcome.id, sender, channel, text, now);
      } else {
        message := null;
      }
    }

    method Serialize(buf: Buffer)
      modifies buf
      ensures buf.data == old(buf.data) + EncodeMessage(Value())
    {
      buf.Insert(sender);
      buf.Insert(channel);
      buf.Insert(LittleEndian(snowflake, 8));
      buf.Insert(LittleEndian(createdAt, 8));
      buf.Insert(LittleEndian(modifiedAt, 8));
      PushText(buf, text);
      PushUuidList(buf, readBy);
    }

    /** A fresh message, decoded field by field at advancing offsets. */
    constructor Deserialize(buf: Text)
      requires DecodeMessage(buf).Got?
      ensures Value() == DecodeMessage(buf).value
    {
      var offset: nat := 0;
      sender := buf[offset..offset + 16];
      offset := offset + 16;
      channel := buf[offset..offset + 16];
      offset := offset + 16;
      snowflake := HostUint64(buf, offset);
      offset := offset + 8;
      createdAt := HostUint64(buf, offset);
      offset := offset + 8;
      modifiedAt := HostUint64(buf, offset);
      offset := offset + 8;
      var textLength := buf[offset];
      offset := offset + 1;
      text := buf[offset..offset + textLength];
      offset := offset + textLength;
      var readers;
      readers, offset := PullUuidList(buf, offset);
      readBy := readers;
    }

    method Size() returns (size: nat)
      ensures size == |EncodeMessage(Value())|
    {
      size := |sender| + |channel|;
      size := size + 8 + 8 + 8;
      size := size + 1 + |text|;
      size := size + 1;
      for i := 0 to |readBy|
        invariant size == 58 + |text| + 16 * i
      {
        size := size + 16;
      }
    }
  }

  /** The `uint64_t` found in memory at an offset of a buffer, on a little-endian host. */
  function HostUint64(buf: Text, offset: nat): uint64
    requires offset + 8 <= |buf|
  {
    LittleEndianFits(buf[offset..offset + 8]);
    LittleEndianValue(buf[offset..offset + 8])
  }
}
