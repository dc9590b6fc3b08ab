/** Byte buffers and the length-prefixed records every message of the protocol is made of.

    `Encode...` functions say which bytes are appended to a buffer. `Read...` functions say what a
    decoder obtains at an offset; `Short` is a read past the end of the buffer, which the source
    leaves undefined. */
module Bytes {
  import opened Bits

  type byte = b: int | 0 <= b < 256

  /** A `std::string` or a byte vector. */
  type Text = seq<byte>

  /** The sixteen bytes of a UUID. */
  type Uuid = u: seq<byte> | |u| == 16 witness [0, 0, 0, 0, 0, 0, 0, 0, 0, 0, 0, 0, 0, 0, 0, 0]

  const NIL: Uuid := [0, 0, 0, 0, 0, 0, 0, 0, 0, 0, 0, 0, 0, 0, 0, 0]

  datatype Option<+T> = None | Some(value: T)

  /** The bytes of an ASCII string literal. */
  function Ascii(s: string): (t: Text)
    ensures |t| == |s|
  {
    seq(|s|, i requires 0 <= i < |s| => s[i] as int % 256)
  }

  /** The result of reading one item: its value and the offset after it. */
  datatype Read<+T> = Short | Got(value: T, next: nat) {
    predicate IsFailure() { Short? }
    function PropagateFailure<U>(): Read<U> requires Short? { Short }
    function Extract(): (T, nat) requires Got? { (value, next) }
  }

  /** A growing `std::vector<uint8_t>`. */
  class Buffer {
    var data: Text

    constructor ()
      ensures data == []
    {
      data := [];
    }

    /** Appends one byte; the conversion to `uint8_t` keeps the low eight bits. */
    method PushBack(n: int)
      modifies this
      ensures data == old(data) + [n % 256]
    {
      data := data + [n % 256];
    }

    method Insert(bs: Text)
      modifies this
      ensures data == old(data) + bs
    {
      data := data + bs;
    }
  }

  /* Encodings */

  function EncodeText(t: Text): (e: Text)
    ensures |e| == 1 + |t|
  {
    [|t| % 256] + t
  }

  function EncodeUuids(us: seq<Uuid>): (e: Text)
    ensures |e| == 16 * |us|
  {
    if us == [] then [] else EncodeUuids(us[..|us| - 1]) + us[|us| - 1]
  }

  function EncodeUuidList(us: seq<Uuid>): (e: Text)
    ensures |e| == 1 + 16 * |us|
  {
    [|us| % 256] + EncodeUuids(us)
  }

  /** The little-endian layout of a `uint64_t` field in memory: its `n` lowest bytes. */
  function LittleEndian(x: nat, n: nat): (e: Text)
    ensures |e| == n
  {
    if n == 0 then [] else [x % 256] + LittleEndian(x / 256, n - 1)
  }

  function LittleEndianValue(bs: Text): nat {
    if bs == [] then 0 else bs[0] + 256 * LittleEndianValue(bs[1..])
  }

  /** `x >> 8 * k`. */
  function Shr8(x: nat, k: nat): nat {
    if k == 0 then x else Shr8(x, k - 1) / 256
  }

  /** The `n` lowest bytes of `x`, most significant first. */
  function BigEndian(x: nat, n: nat): (e: Text)
    ensures |e| == n
  {
    if n == 0 then [] else BigEndian(x / 256, n - 1) + [x % 256]
  }

  function BigEndianValue(bs: Text): nat {
    if bs == [] then 0 else 256 * BigEndianValue(bs[..|bs| - 1]) + bs[|bs| - 1]
  }

  /* Reads */

  function ReadBytes(buf: Text, at: nat, n: nat): (r: Read<Text>) {
    if at + n <= |buf| then Got(buf[at..at + n], at + n) else Short
  }

  function ReadByte(buf: Text, at: nat): Read<byte> {
    if at < |buf| then Got(buf[at], at + 1) else Short
  }

  function ReadText(buf: Text, at: nat): Read<Text> {
    var (n, at) :- ReadByte(buf, at);
    ReadBytes(buf, at, n)
  }

  function ReadUuid(buf: Text, at: nat): Read<Uuid> {
    if at + 16 <= |buf| then Got(buf[at..at + 16], at + 16) else Short
  }

  function ReadUuids(buf: Text, at: nat, n: nat): (r: Read<seq<Uuid>>)
    ensures r.Got? ==> |r.value| == n && r.next == at + 16 * n
  {
    if n == 0 then Got([], at)
    else
      var (us, at) :- ReadUuids(buf, at, n - 1);
      var (u, at) :- ReadUuid(buf, at);
      Got(us + [u], at)
  }

  function ReadUuidList(buf: Text, at: nat): Read<seq<Uuid>> {
    var (n, at) :- ReadByte(buf, at);
    ReadUuids(buf, at, n)
  }

  function ReadUint64(buf: Text, at: nat): Read<uint64> {
    if at + 8 <= |buf| then
      LittleEndianFits(buf[at..at + 8]);
      Got(LittleEndianValue(buf[at..at + 8]), at + 8)
    else Short
  }

  /** `n` records in a row, each read where the one before it ended. */
  function ReadMany<T>(read: nat -> Read<T>, at: nat, n: nat): Read<seq<T>> {
    if n == 0 then Got([], at)
    else
      var (xs, at) :- ReadMany(read, at, n - 1);
      var (x, at) :- read(at);
      Got(xs + [x], at)
  }

  lemma {:induction false} ManyStep<T>(read: nat -> Read<T>, at: nat, xs: seq<T>, mid: nat, x: T, next: nat)
    requires ReadMany(read, at, |xs|) == Got(xs, mid) && read(mid) == Got(x, next)
    ensures ReadMany(read, at, |xs + [x]|) == Got(xs + [x], next)
  {
  }

  lemma {:induction false} ManyLast<T>(read: nat -> Read<T>, at: nat, n: nat)
    requires ReadMany(read, at, n + 1).Got?
    ensures var d := ReadMany(read, at, n);
      && d.Got? && read(d.next).Got? && read(d.next).next == ReadMany(read, at, n + 1).next
      && ReadMany(read, at, n + 1).value == d.value + [read(d.next).value]
  {
  }

  lemma {:induction false} ManyPrefix<T>(read: nat -> Read<T>, at: nat, i: nat, n: nat)
    requires i <= n && ReadMany(read, at, n).Got?
    ensures ReadMany(read, at, i).Got?
  {
    if i < n {
      ManyLast(read, at, n - 1);
      ManyPrefix(read, at, i, n - 1);
    }
  }

  lemma {:induction false} ManyCount<T>(read: nat -> Read<T>, at: nat, n: nat)
    requires ReadMany(read, at, n).Got?
    ensures |ReadMany(read, at, n).value| == n
  {
    if n > 0 {
      ManyCount(read, at, n - 1);
    }
  }

  lemma {:induction false} SnocUnique<T>(xs: seq<T>, x: T, ys: seq<T>, y: T)
    requires xs + [x] == ys + [y]
    ensures xs == ys && x == y
  {
    assert xs == (xs + [x])[..|xs|] && ys == (ys + [y])[..|ys|];
  }

  lemma AppendTwice(a: Text, b: Text, c: Text)
    ensures a + b + c == a + (b + c)
  {
  }

  /* An encoding found at an offset of a larger buffer */

  predicate At(buf: Text, at: nat, e: Text) {
    at + |e| <= |buf| && buf[at..at + |e|] == e
  }

  lemma {:induction false} AtConcat(buf: Text, at: nat, a: Text, b: Text)
    requires At(buf, at, a + b)
    ensures At(buf, at, a) && At(buf, at + |a|, b)
  {
    assert buf[at..at + |a|] == buf[at..at + |a + b|][..|a|] == a;
    assert buf[at + |a|..at + |a| + |b|] == buf[at..at + |a + b|][|a|..] == b;
  }

  lemma {:induction false} AtPrefix(buf: Text, at: nat, a: Text, b: Text)
    requires At(buf, at, b) && a <= b
    ensures At(buf, at, a)
  {
    assert buf[at..at + |a|] == buf[at..at + |b|][..|a|] == b[..|a|];
  }

  lemma {:induction false} AtByte(buf: Text, at: nat, b: byte)
    requires At(buf, at, [b])
    ensures ReadByte(buf, at) == Got(b, at + 1)
  {
    assert buf[at] == buf[at..at + 1][0];
  }

  /** A one-byte length loses everything above eight bits, so a string of any length decodes to a
      prefix of itself: all of it exactly when it has at most 255 bytes. */
  lemma {:induction false} TextDecodes(buf: Text, at: nat, t: Text)
    requires At(buf, at, EncodeText(t))
    ensures ReadText(buf, at) == Got(t[..|t| % 256], at + 1 + |t| % 256)
  {
    AtConcat(buf, at, [|t| % 256], t);
    AtByte(buf, at, |t| % 256);
    assert buf[at + 1..at + 1 + |t| % 256] == buf[at + 1..at + 1 + |t|][..|t| % 256];
  }

  lemma {:induction false} ShortTextDecodes(buf: Text, at: nat, t: Text)
    requires At(buf, at, EncodeText(t)) && |t| <= 255
    ensures ReadText(buf, at) == Got(t, at + 1 + |t|)
  {
    TextDecodes(buf, at, t);
    assert t[..|t|] == t;
  }

  lemma {:induction false} UuidDecodes(buf: Text, at: nat, u: Uuid)
    requires At(buf, at, u)
    ensures ReadUuid(buf, at) == Got(u, at + 16)
  {
  }

  lemma {:induction false} UuidPrefixDecodes(buf: Text, at: nat, us: seq<Uuid>, n: nat)
    requires At(buf, at, EncodeUuids(us)) && n <= |us|
    ensures ReadUuids(buf, at, n) == Got(us[..n], at + 16 * n)
    decreases |us| + n
  {
    if n < |us| {
      AtConcat(buf, at, EncodeUuids(us[..|us| - 1]), us[|us| - 1]);
      UuidPrefixDecodes(buf, at, us[..|us| - 1], n);
      assert us[..|us| - 1][..n] == us[..n];
    } else if n > 0 {
      AtConcat(buf, at, EncodeUuids(us[..n - 1]), us[n - 1]);
      UuidPrefixDecodes(buf, at, us[..n - 1], n - 1);
      UuidDecodes(buf, at + 16 * (n - 1), us[n - 1]);
      assert us[..n - 1][..n - 1] == us[..n - 1];
      assert us[..n] == us[..n - 1] + [us[n - 1]];
    }
  }

  /** A list of UUIDs decodes to its first (length mod 256) entries. */
  lemma {:induction false} UuidListDecodes(buf: Text, at: nat, us: seq<Uuid>)
    requires At(buf, at, EncodeUuidList(us))
    ensures ReadUuidList(buf, at) == Got(us[..|us| % 256], at + 1 + 16 * (|us| % 256))
  {
    AtConcat(buf, at, [|us| % 256], EncodeUuids(us));
    AtByte(buf, at, |us| % 256);
    UuidPrefixDecodes(buf, at + 1, us, |us| % 256);
  }

  lemma {:induction false} ShortUuidListDecodes(buf: Text, at: nat, us: seq<Uuid>)
    requires At(buf, at, EncodeUuidList(us)) && |us| <= 255
    ensures ReadUuidList(buf, at) == Got(us, at + 1 + 16 * |us|)
  {
    UuidListDecodes(buf, at, us);
    assert us[..|us|] == us;
  }

  lemma {:induction false} LittleEndianFits(bs: Text)
    requires |bs| == 8
    ensures LittleEndianValue(bs) < TWO_64
  {
    LittleEndianBound(bs);
    Pow256();
  }

  function Pow256Of(n: nat): (p: nat)
    ensures p > 0
  {
    if n == 0 then 1 else 256 * Pow256Of(n - 1)
  }

  lemma {:induction false} Pow256()
    ensures Pow256Of(8) == TWO_64
  {
    assert Pow256Of(2) == 0x1_0000;
    assert Pow256Of(4) == 0x1_0000_0000;
    assert Pow256Of(6) == 0x1_0000_0000_0000;
  }

  lemma {:induction false} LittleEndianBound(bs: Text)
    ensures LittleEndianValue(bs) < Pow256Of(|bs|)
  {
    if bs != [] {
      LittleEndianBound(bs[1..]);
    }
  }

  lemma {:induction false} BigEndianBound(bs: Text)
    ensures BigEndianValue(bs) < Pow256Of(|bs|)
  {
    if bs != [] {
      BigEndianBound(bs[..|bs| - 1]);
    }
  }

  lemma {:induction false} LittleEndianInverse(x: nat, n: nat)
    requires x < Pow256Of(n)
    ensures LittleEndianValue(LittleEndian(x, n)) == x
  {
    if n > 0 {
      LittleEndianInverse(x / 256, n - 1);
    }
  }

  /** Byte `i` of the little-endian form has weight 256^i. */
  lemma {:induction false} LittleEndianAt(x: nat, n: nat, i: nat)
    requires i < n
    ensures LittleEndian(x, n)[i] == x / Pow256Of(i) % 256
  {
    if i > 0 {
      LittleEndianAt(x / 256, n - 1, i - 1);
      DivTwice(x, 256, Pow256Of(i - 1));
    }
  }

  /** Of the big-endian form the last byte has weight 1. */
  lemma {:induction false} BigEndianAt(x: nat, n: nat, i: nat)
    requires i < n
    ensures BigEndian(x, n)[n - 1 - i] == x / Pow256Of(i) % 256
  {
    if i > 0 {
      BigEndianAt(x / 256, n - 1, i - 1);
      DivTwice(x, 256, Pow256Of(i - 1));
    }
  }

  lemma {:induction false} DivTwice(x: nat, a: nat, b: nat)
    requires a > 0 && b > 0
    ensures a * b > 0 && x / a / b == x / (a * b)
  {
    var q := x / a / b;
    var r := x / a % b * a + x % a;
    assert x / a == b * q + x / a % b;
    assert x == a * (x / a) + x % a;
    assert a * (b * q) == a * b * q;
    assert x / a % b * a <= (b - 1) * a;
    DivModUnique(x, a * b, q, r);
  }

  /** Eight big-endian bytes and the value they spell determine each other, in both directions. */
  lemma {:induction false} BigEndianInverse(x: nat, n: nat)
    requires x < Pow256Of(n)
    ensures BigEndianValue(BigEndian(x, n)) == x
  {
    if n > 0 {
      BigEndianInverse(x / 256, n - 1);
      assert BigEndian(x, n)[..n - 1] == BigEndian(x / 256, n - 1);
    }
  }

  lemma {:induction false} BigEndianOfValue(bs: Text)
    ensures BigEndian(BigEndianValue(bs), |bs|) == bs
  {
    if bs != [] {
      BigEndianOfValue(bs[..|bs| - 1]);
      assert bs == bs[..|bs| - 1] + [bs[|bs| - 1]];
    }
  }

  lemma {:induction false} Uint64Decodes(buf: Text, at: nat, x: uint64)
    requires At(buf, at, LittleEndian(x, 8))
    ensures ReadUint64(buf, at) == Got(x, at + 8)
  {
    Pow256();
    LittleEndianInverse(x, 8);
  }
}
