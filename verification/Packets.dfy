/** The request and response objects of src/message/, each a field or a tagged variant with a
    serialiser, a decoder and a size. */
module Packets {
  import opened Bits
  import opened Bytes
  import opened Models
  import opened Objects
  import opened Wire

  /** `std::variant<std::shared_ptr<T>, std::string>`. */
  datatype Variant<+T> = Holds(value: T) | ErrorText(text: Text)

  /** Appends a packet header for a payload of the given size. */
  method PushHeader(buf: Buffer, operation: byte, size: nat)
    modifies buf
    ensures buf.data == old(buf.data) + EncodeHeader(HeaderVal(PROTOCOL_VERSION, operation, size % 0x1_0000))
  {
    var header := new Header(PROTOCOL_VERSION, operation, size);
    header.Serialize(buf);
  }

  /** A header and its payload, appended one after the other, are a frame. */
  lemma {:induction false} FrameAppended(before: Text, operation: byte, payload: Text)
    ensures before + EncodeHeader(HeaderVal(PROTOCOL_VERSION, operation, |payload| % 0x1_0000)) + payload
         == before + EncodeFrame(Frame(operation, payload))
  {
  }

  method PushError(buf: Buffer, text: Text)
    modifies buf
    ensures buf.data == old(buf.data) + [1] + EncodeText(text)
  {
    buf.PushBack(1);
    PushText(buf, text);
  }

  /** Reads an error text after the tag byte. */
  method PullError(buf: Text) returns (text: Text)
    requires DecodeError(buf).Got?
    ensures text == DecodeError(buf).value
  {
    var length := buf[1];
    text := buf[2..2 + length as int];
  }

  /** `LoginResponse` and `DeleteAccountResponse`, which differ only in their operation. */
  class LoginResponse {
    const operation: byte
    var data: Variant<User>

    ghost function Value(): Reply<Profile>
      reads this, if data.Holds? then {data.value} else {}
    {
      match data
      case Holds(user) => Ok(user.Wire())
      case ErrorText(t) => Error(t)
    }

    constructor (operation: byte, data: Variant<User>)
      ensures this.operation == operation && this.data == data
    {
      this.operation, this.data := operation, data;
    }

    method Size() returns (size: nat)
      ensures size == |EncodeLogin(Value())|
    {
      size := 1;
      match data {
        case Holds(user) =>
          var n := user.Size();
          size := size + n;
        case ErrorText(t) =>
          size := size + 1 + |t|;
      }
    }

    method Serialize(buf: Buffer)
      modifies buf
      ensures buf.data == old(buf.data) + EncodeLogin(Value())
    {
      match data {
        case Holds(user) =>
          buf.PushBack(0);
          user.Serialize(buf);
          AppendTwice(old(buf.data), [0], EncodeProfile(user.Wire()));
        case ErrorText(t) =>
          PushError(buf, t);
          AppendTwice(old(buf.data), [1], EncodeText(t));
      }
    }

    method SerializeMsg(buf: Buffer)
      modifies buf
      ensures buf.data == old(buf.data) + EncodeFrame(Frame(operation, EncodeLogin(Value())))
    {
      var size := Size();
      PushHeader(buf, operation, size);
      Serialize(buf);
      FrameAppended(old(buf.data), operation, EncodeLogin(Value()));
    }

    /** Decodes into a fresh user, whose uid starts out random. */
    method Deserialize(buf: Text, random: Uuid)
      requires DecodeLogin(buf).Got?
      modifies this
      ensures Value() == DecodeLogin(buf).value
      ensures data.Holds? ==> fresh(data.value) && data.value.channels == []
    {
      if buf[0] == 0 {
        var user := new User.Blank(random);
        user.Deserialize(buf[1..]);
        data := Holds(user);
      } else {
        var t := PullError(buf);
        data := ErrorText(t);
      }
    }
  }

  class CreateChannelResponse {
    var data: Variant<Channel>

    ghost function Value(): Reply<ChannelVal>
      reads this, if data.Holds? then {data.value} else {}
    {
      match data
      case Holds(channel) => Ok(channel.Value())
      case ErrorText(t) => Error(t)
    }

    constructor (data: Variant<Channel>)
      ensures this.data == data
    {
      this.data := data;
    }

    method Size() returns (size: nat)
      ensures size == |EncodeChannelReply(Value())|
    {
      size := 1;
      match data {
        case Holds(channel) =>
          var n := channel.Size();
          size := size + n;
        case ErrorText(t) =>
          size := size + 1 + |t|;
      }
    }

    method Serialize(buf: Buffer)
      modifies buf
      ensures buf.data == old(buf.data) + EncodeChannelReply(Value())
    {
      match data {
        case Holds(channel) =>
          buf.PushBack(0);
          channel.Serialize(buf);
          AppendTwice(old(buf.data), [0], EncodeChannel(channel.Value()));
        case ErrorText(t) =>
          PushError(buf, t);
          AppendTwice(old(buf.data), [1], EncodeText(t));
      }
    }

    method SerializeMsg(buf: Buffer)
      modifies buf
      ensures buf.data == old(buf.data) + EncodeFrame(Frame(CREATE_CHANNEL, EncodeChannelReply(Value())))
    {
      var size := Size();
      PushHeader(buf, CREATE_CHANNEL, size);
      Serialize(buf);
      FrameAppended(old(buf.data), CREATE_CHANNEL, EncodeChannelReply(Value()));
    }

    method Deserialize(buf: Text, random: Uuid)
      requires DecodeChannelReply(buf).Got?
      modifies this
      ensures Value() == DecodeChannelReply(buf).value
      ensures data.Holds? ==> fresh(data.value)
    {
      if buf[0] == 0 {
        var channel := new Channel.Blank(random);
        channel.Deserialize(buf[1..]);
        data := Holds(channel);
      } else {
        var t := PullError(buf);
        data := ErrorText(t);
      }
    }
  }

  /** `SendMessageResponse` and `DeleteMessageResponse`, which differ only in their operation. */
  class MessageResponse {
    const operation: byte
    var data: Variant<Message>

    ghost function Value(): Reply<MessageVal>
      reads this
    {
      match data
      case Holds(message) => Ok(message.Value())
      case ErrorText(t) => Error(t)
    }

    constructor (operation: byte, data: Variant<Message>)
      ensures this.operation == operation && this.data == data
    {
      this.operation, this.data := operation, data;
    }

    method Size() returns (size: nat)
      ensures size == |EncodeMessageReply(Value())|
    {
      size := 1;
      match data {
        case Holds(message) =>
          var n := message.Size();
          size := size + n;
        case ErrorText(t) =>
          size := size + 1 + |t|;
      }
    }

    method Serialize(buf: Buffer)
      modifies buf
      ensures buf.data == old(buf.data) + EncodeMessageReply(Value())
    {
      match data {
        case Holds(message) =>
          buf.PushBack(0);
          message.Serialize(buf);
          AppendTwice(old(buf.data), [0], EncodeMessage(message.Value()));
        case ErrorText(t) =>
          PushError(buf, t);
          AppendTwice(old(buf.data), [1], EncodeText(t));
      }
    }

    method SerializeMsg(buf: Buffer)
      modifies buf
      ensures buf.data == old(buf.data) + EncodeFrame(Frame(operation, EncodeMessageReply(Value())))
    {
      var size := Size();
      PushHeader(buf, operation, size);
      Serialize(buf);
      FrameAppended(old(buf.data), operation, EncodeMessageReply(Value()));
    }

    method Deserialize(buf: Text)
      requires DecodeMessageReply(buf).Got?
      modifies this
      ensures Value() == DecodeMessageReply(buf).value
      ensures data.Holds? ==> fresh(data.value)
    {
      if buf[0] == 0 {
        var message := new Message.Deserialize(buf[1..]);
        data := Holds(message);
      } else {
        var t := PullError(buf);
        data := ErrorText(t);
      }
    }
  }

  class ListAccountsResponse {
    var data: Variant<seq<User>>

    static ghost function Profiles(users: seq<User>): (ps: seq<Profile>)
      reads users
      ensures |ps| == |users| && forall i :: 0 <= i < |users| ==> ps[i] == users[i].Wire()
    {
      seq(|users|, i requires 0 <= i < |users| reads users => users[i].Wire())
    }

    ghost function Value(): Reply<seq<Profile>>
      reads this, if data.Holds? then data.value else []
    {
      match data
      case Holds(users) => Ok(Profiles(users))
      case ErrorText(t) => Error(t)
    }

    constructor (data: Variant<seq<User>>)
      ensures this.data == data
    {
      this.data := data;
    }

    method Size() returns (size: nat)
      ensures size == |EncodeAccounts(Value())|
    {
      size := 1;
      match data {
        case Holds(users) =>
          size := size + 1;
          ghost var ps := Profiles(users);
          for i := 0 to |users|
            invariant size == 2 + |EncodeProfiles(ps[..i])|
          {
            var n := users[i].Size();
            size := size + n;
            assert ps[..i + 1][..i] == ps[..i];
          }
          assert ps[..|users|] == ps;
        case ErrorText(t) =>
          size := size + 1 + |t|;
      }
    }

    method Serialize(buf: Buffer)
      modifies buf
      ensures buf.data == old(buf.data) + EncodeAccounts(Value())
    {
      match data {
        case Holds(users) =>
          buf.PushBack(0);
          buf.PushBack(|users|);
          ghost var ps, before := Profiles(users), buf.data;
          for i := 0 to |users|
            invariant forall k :: 0 <= k < |users| ==> users[k].Wire() == ps[k]
            invariant buf.data == before + EncodeProfiles(ps[..i])
          {
            assert ps[..i + 1][..i] == ps[..i];
            users[i].Serialize(buf);
            AppendTwice(before, EncodeProfiles(ps[..i]), EncodeProfile(ps[i]));
          }
          assert ps[..|users|] == ps;
          assert Profiles(users) == ps;
          AppendTwice(old(buf.data), [0], [|users| % 256]);
          AppendTwice(old(buf.data), [0] + [|users| % 256], EncodeProfiles(ps));
          AppendTwice([0], [|users| % 256], EncodeProfiles(ps));
        case ErrorText(t) =>
          PushError(buf, t);
      }
    }

    method SerializeMsg(buf: Buffer)
      modifies buf
      ensures buf.data == old(buf.data) + EncodeFrame(Frame(LIST_ACCOUNTS, EncodeAccounts(Value())))
    {
      var size := Size();
      PushHeader(buf, LIST_ACCOUNTS, size);
      Serialize(buf);
      FrameAppended(old(buf.data), LIST_ACCOUNTS, EncodeAccounts(Value()));
    }

    /** A user is decoded from the rest of the buffer, and tells by its size where the next one
        starts. */
    static method PullUser(buf: Text, offset: nat, random: Uuid) returns (user: User, next: nat)
      requires SuffixUser(buf, offset).Got?
      ensures fresh(user) && SuffixUser(buf, offset) == Got(user.Wire(), next)
    {
      user := new User.Blank(random);
      user.Deserialize(buf[offset..]);
      var n := user.Size();
      next := offset + n;
    }

    static method PullUsers(buf: Text, count: byte, random: Uuid) returns (users: seq<User>)
      requires DecodeProfiles(buf, 2, count).Got?
      ensures fresh(users) && Profiles(users) == DecodeProfiles(buf, 2, count).value
    {
      var offset: nat := 2;
      users := [];
      ghost var ps: seq<Profile> := [];
      for i := 0 to count
        invariant |users| == |ps| == i && fresh(users)
        invariant forall k :: 0 <= k < i ==> users[k].Wire() == ps[k]
        invariant DecodeProfiles(buf, 2, i) == Got(ps, offset)
      {
        ManyPrefix(UserReader(buf), 2, i + 1, count);
        ManyLast(UserReader(buf), 2, i);
        var user, next := PullUser(buf, offset, random);
        ManyStep(UserReader(buf), 2, ps, offset, user.Wire(), next);
        ps, users, offset := ps + [user.Wire()], users + [user], next;
      }
      assert Profiles(users) == ps;
    }

    method Deserialize(buf: Text, random: Uuid)
      requires DecodeAccounts(buf).Got?
      modifies this
      ensures Value() == DecodeAccounts(buf).value
    {
      if buf[0] == 0 {
        var users := PullUsers(buf, buf[1], random);
        data := Holds(users);
      } else {
        var t := PullError(buf);
        data := ErrorText(t);
      }
    }
  }

  class RegisterAccountMessage {
    var username: Text
    var password: Text
    var displayName: Text

    ghost function Value(): Request
      reads this
    {
      RegisterAccount(username, password, displayName)
    }

    constructor (username: Text, password: Text, displayName: Text)
      ensures Value() == RegisterAccount(username, password, displayName)
    {
      this.username, this.password, this.displayName := username, password, displayName;
    }

    method PushChars(buf: Buffer, t: Text)
      modifies buf
      ensures buf.data == old(buf.data) + EncodeText(t)
    {
      buf.PushBack(|t|);
      for i := 0 to |t|
        invariant buf.data == old(buf.data) + [|t| % 256] + t[..i]
      {
        buf.PushBack(t[i]);
      }
    }

    method Serialize(buf: Buffer)
      modifies buf
      ensures buf.data == old(buf.data) + EncodeRequest(Value())
    {
      PushChars(buf, username);
      PushChars(buf, password);
      PushChars(buf, displayName);
      AppendTwice(old(buf.data), EncodeText(username), EncodeText(password));
      AppendTwice(old(buf.data), EncodeText(username) + EncodeText(password), EncodeText(displayName));
    }

    /** All three lengths are found first, then the strings are cut out at computed offsets. */
    method Deserialize(buf: Text)
      requires DecodeRegister(buf).Got?
      modifies this
      ensures Value() == DecodeRegister(buf).value
    {
      var usernameLength: nat := buf[0];
      var passwordLength: nat := buf[usernameLength + 1];
      var displayNameLength: nat := buf[usernameLength + passwordLength + 2];
      username := buf[1..1 + usernameLength];
      password := buf[usernameLength + 2..usernameLength + 2 + passwordLength];
      displayName := buf[usernameLength + passwordLength + 3
                         ..usernameLength + passwordLength + 3 + displayNameLength];
    }

    method Size() returns (size: nat)
      ensures size == |EncodeRequest(Value())|
    {
      size := 3 + |username| + |password| + |displayName|;
    }
  }

  class DeleteMessageMessage {
    var channel: Uuid
    var snowflake: uint64

    ghost function Value(): Request
      reads this
    {
      DeleteMessage(channel, snowflake)
    }

    constructor (channel: Uuid, snowflake: uint64)
      ensures Value() == DeleteMessage(channel, snowflake)
    {
      this.channel, this.snowflake := channel, snowflake;
    }

    method Serialize(buf: Buffer)
      modifies buf
      ensures buf.data == old(buf.data) + EncodeRequest(Value())
    {
      buf.Insert(channel);
      var i := 8;
      while i > 0
        invariant 0 <= i <= 8
        invariant buf.data == old(buf.data) + channel + BigEndian(Shr8(snowflake, i), 8 - i)
      {
        i := i - 1;
        buf.PushBack(Shr8(snowflake, i));
      }
    }

    method Deserialize(buf: Text)
      requires DecodeDelete(buf).Got?
      modifies this
      ensures Value() == DecodeDelete(buf).value
    {
      channel := buf[..16];
      snowflake := 0;
      ghost var bs := buf[16..24];
      for i := 0 to 8
        invariant channel == buf[..16]
        invariant snowflake == BigEndianValue(bs[..i])
      {
        ghost var high := BigEndianValue(bs[..i]);
        BigEndianPrefix(bs, i);
        snowflake := ShiftIn(snowflake, buf[16 + i]);
        assert snowflake == high * 256 + bs[i];
      }
      assert bs[..8] == bs;
    }

    method Size() returns (size: nat)
      ensures size == |EncodeRequest(Value())|
    {
      size := 24;
    }
  }

  /** `(acc << 8) | b` on a `uint64_t`. */
  function ShiftIn(acc: uint64, b: byte): (r: uint64)
    ensures r == acc * 256 % TWO_64 + b
    ensures acc * 256 + b < TWO_64 ==> r == acc * 256 + b
  {
    assert Pow2(4) == 16;
    assert Pow2(8) == 256;
    var high := acc % 0x100_0000_0000_0000;
    assert Shl64(acc, 8) == high * 256;
    OrDisjoint(high, b, 8);
    Or(Shl64(acc, 8), b)
  }

  lemma {:induction false} BigEndianPrefix(bs: Text, i: nat)
    requires |bs| == 8 && i < 8
    ensures BigEndianValue(bs[..i + 1]) == 256 * BigEndianValue(bs[..i]) + bs[i] < TWO_64
  {
    assert bs[..i + 1][..i] == bs[..i];
    BigEndianBound(bs[..i + 1]);
    PowGrows(i + 1, 8);
    Pow256();
  }

  lemma {:induction false} PowGrows(i: nat, n: nat)
    requires i <= n
    ensures Pow256Of(i) <= Pow256Of(n)
  {
    if i < n {
      PowGrows(i, n - 1);
    }
  }

  class CreateChannelMessage {
    var name: Text
    var members: seq<Uuid>

    ghost function Value(): Request
      reads this
    {
      CreateChannel(name, members)
    }

    constructor (name: Text, members: seq<Uuid>)
      ensures Value() == CreateChannel(name, members)
    {
      this.name, this.members := name, members;
    }

    method Serialize(buf: Buffer)
      modifies buf
      ensures buf.data == old(buf.data) + EncodeRequest(Value())
    {
      PushText(buf, name);
      PushUuidList(buf, members);
      AppendTwice(old(buf.data), EncodeText(name), EncodeUuidList(members));
    }

    /** Replaces the name, but appends to the members the object already has. */
    method Deserialize(buf: Text)
      requires DecodeCreate(buf).Got?
      modifies this
      ensures name == DecodeCreate(buf).value.name
      ensures members == old(members) + DecodeCreate(buf).value.members
    {
      var nameLength: nat := buf[0];
      name := buf[1..1 + nameLength];
      var read, offset := PullUuidList(buf, 1 + nameLength);
      members := members + read;
    }

    method Size() returns (size: nat)
      ensures size == |EncodeRequest(Value())|
    {
      size := 1 + |name| + 1;
      for i := 0 to |members|
        invariant size == 2 + |name| + 16 * i
      {
        size := size + 16;
      }
    }
  }
}
