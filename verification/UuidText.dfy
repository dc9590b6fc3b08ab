/** The textual form of a UUID (src/models/uuid.cpp), which is also what its hash is computed from. */
module UuidText {
  import opened Bytes

  /** The digit `std::hex` prints for a nibble: '0'..'9', then 'a'..'f'. */
  function HexDigit(n: nat): byte
    requires n < 16
  {
    if n < 10 then 48 + n else 87 + n
  }

  predicate IsLowerHex(c: byte) {
    48 <= c <= 57 || 97 <= c <= 102
  }

  predicate IsUpperHex(c: byte) {
    65 <= c <= 70
  }

  predicate IsHex(c: byte) {
    IsLowerHex(c) || IsUpperHex(c)
  }

  /** The value base-16 parsing gives a digit of either case. */
  function HexValue(c: byte): (n: nat)
    requires IsHex(c)
    ensures n < 16
  {
    if c <= 57 then c - 48 else if c <= 70 then c - 55 else c - 87
  }

  function Lower(s: Text): (t: Text)
    ensures |t| == |s|
    ensures forall i :: 0 <= i < |s| ==> t[i] == if IsUpperHex(s[i]) then s[i] + 32 else s[i]
  {
    seq(|s|, i requires 0 <= i < |s| => if IsUpperHex(s[i]) then s[i] + 32 else s[i])
  }

  /** Two digits per byte, high nibble first. */
  function Hex(bs: Text): (s: Text)
    ensures |s| == 2 * |bs|
    ensures forall i :: 0 <= i < |s| ==> IsLowerHex(s[i])
  {
    if bs == [] then []
    else
      var b := bs[|bs| - 1];
      Hex(bs[..|bs| - 1]) + [HexDigit(b / 16), HexDigit(b % 16)]
  }

  predicate AllHex(s: Text) {
    forall i :: 0 <= i < |s| ==> IsHex(s[i])
  }

  /** The number `stoul(str.substr(i, 2), nullptr, 16)` parses from hexadecimal digits. */
  function PairValue(s: Text, i: nat): (b: byte)
    requires i < |s| && AllHex(s)
  {
    if i + 1 < |s| then 16 * HexValue(s[i]) + HexValue(s[i + 1]) else HexValue(s[i])
  }

  /** The bytes `from_string` writes. */
  function Unhex(s: Text): (bs: Text)
    requires AllHex(s)
    ensures |bs| == (|s| + 1) / 2
    ensures forall i :: 0 <= i < |bs| ==> bs[i] == PairValue(s, 2 * i)
  {
    seq((|s| + 1) / 2, i requires 0 <= i < (|s| + 1) / 2 => PairValue(s, 2 * i))
  }

  lemma {:induction false} HexAt(bs: Text, i: nat)
    requires i < |bs|
    ensures Hex(bs)[2 * i] == HexDigit(bs[i] / 16) && Hex(bs)[2 * i + 1] == HexDigit(bs[i] % 16)
    decreases |bs|
  {
    if i < |bs| - 1 {
      HexAt(bs[..|bs| - 1], i);
    }
  }

  /** Round trip: parsing the printed form gives back every byte string. */
  lemma {:induction false} UnhexHex(bs: Text)
    ensures AllHex(Hex(bs)) && Unhex(Hex(bs)) == bs
  {
    forall i | 0 <= i < |bs| ensures Unhex(Hex(bs))[i] == bs[i] {
      HexAt(bs, i);
    }
  }

  lemma {:induction false} DigitOfValue(c: byte)
    requires IsHex(c)
    ensures HexDigit(HexValue(c)) == if IsUpperHex(c) then c + 32 else c
  {
  }

  lemma {:induction false} PairDigits(hi: byte, lo: byte)
    requires IsHex(hi) && IsHex(lo)
    ensures var b := 16 * HexValue(hi) + HexValue(lo);
      && HexDigit(b / 16) == (if IsUpperHex(hi) then hi + 32 else hi)
      && HexDigit(b % 16) == if IsUpperHex(lo) then lo + 32 else lo
  {
    DigitOfValue(hi);
    DigitOfValue(lo);
  }

  lemma {:induction false} HexUnhexAt(s: Text, k: nat)
    requires AllHex(s) && |s| % 2 == 0 && 2 * k + 1 < |s|
    ensures Hex(Unhex(s))[2 * k] == Lower(s)[2 * k] && Hex(Unhex(s))[2 * k + 1] == Lower(s)[2 * k + 1]
  {
    HexAt(Unhex(s), k);
    PairDigits(s[2 * k], s[2 * k + 1]);
  }

  /** Printing a parsed string gives the string in lower case, so the two agree exactly on
      lower-case strings. */
  lemma {:induction false} HexUnhex(s: Text)
    requires AllHex(s) && |s| % 2 == 0
    ensures Hex(Unhex(s)) == Lower(s)
    ensures Hex(Unhex(s)) == s <==> forall i :: 0 <= i < |s| ==> IsLowerHex(s[i])
  {
    var t := Hex(Unhex(s));
    forall i | 0 <= i < |s| ensures t[i] == Lower(s)[i] {
      HexUnhexAt(s, i / 2);
      assert i == 2 * (i / 2) || i == 2 * (i / 2) + 1;
    }
    assert t == Lower(s);
    LowerFixed(s);
  }

  lemma {:induction false} LowerFixed(s: Text)
    requires AllHex(s)
    ensures Lower(s) == s <==> forall i :: 0 <= i < |s| ==> IsLowerHex(s[i])
  {
    if i :| 0 <= i < |s| && !IsLowerHex(s[i]) {
      assert Lower(s)[i] != s[i];
    }
  }

  /** The text form identifies the UUID. */
  lemma {:induction false} HexInjective(u: Uuid, v: Uuid)
    requires Hex(u) == Hex(v)
    ensures u == v
  {
    UnhexHex(u);
    UnhexHex(v);
  }

  method ToString(value: Uuid) returns (s: Text)
    ensures s == Hex(value)
  {
    s := [];
    for i := 0 to 16
      invariant s == Hex(value[..i])
    {
      assert value[..i + 1][..i] == value[..i];
      s := s + [HexDigit(value[i] / 16), HexDigit(value[i] % 16)];
    }
    assert value[..16] == value;
  }

  /* Strings that are not all digits */

  /** `isspace`. */
  predicate IsBlank(c: byte) {
    c == 32 || 9 <= c <= 13
  }

  predicate IsSign(c: byte) {
    c == 43 || c == 45
  }

  function SkipBlanks(s: Text): Text {
    if s != [] && IsBlank(s[0]) then SkipBlanks(s[1..]) else s
  }

  /** A `0x` in front of a digit. */
  function SkipPrefix(s: Text): Text {
    if |s| >= 3 && s[0] == 48 && (s[1] == 120 || s[1] == 88) && IsHex(s[2]) then s[2..] else s
  }

  /** The digits at the front, onto what has been read. */
  function Digits(s: Text, read: nat): nat {
    if s == [] || !IsHex(s[0]) then read else Digits(s[1..], 16 * read + HexValue(s[0]))
  }

  /** `static_cast<uint8_t>(stoul(s, nullptr, 16))`: blanks, a sign and a prefix are skipped, what
      follows the digits is ignored, and a minus negates the unsigned number. Without digits it throws. */
  function ByteOf(s: Text): Option<byte> {
    var t := SkipBlanks(s);
    var signed := t != [] && IsSign(t[0]);
    var u := SkipPrefix(if signed then t[1..] else t);
    if u == [] || !IsHex(u[0]) then None
    else if signed && t[0] == 45 then Some((256 - Digits(u, 0) % 256) % 256)
    else Some(Digits(u, 0) % 256)
  }

  lemma {:induction false} DigitParses(a: byte)
    ensures ByteOf([a]).Some? <==> IsHex(a)
    ensures IsHex(a) ==> ByteOf([a]) == Some(HexValue(a))
  {
    var s: Text := [a];
    assert s[1..] == [];
    if IsHex(a) {
      assert SkipBlanks(s) == s && SkipPrefix(s) == s;
      assert Digits(s, 0) == Digits([], HexValue(a)) == HexValue(a);
    } else if IsBlank(a) {
      assert SkipBlanks(s) == SkipBlanks([]) == [];
    } else {
      assert SkipBlanks(s) == s;
      assert SkipPrefix([]) == [] && SkipPrefix(s) == s;
    }
  }

  /** Which pairs of characters `stoul` takes, and what it makes of two digits. */
  lemma {:induction false} PairParses(a: byte, b: byte)
    ensures ByteOf([a, b]).Some? <==> IsHex(a) || ((IsBlank(a) || IsSign(a)) && IsHex(b))
    ensures IsHex(a) && IsHex(b) ==> ByteOf([a, b]) == Some(16 * HexValue(a) + HexValue(b))
  {
    if IsHex(a) {
      DigitFirst(a, b);
    } else if IsBlank(a) {
      BlankFirst(a, b);
      DigitParses(b);
    } else {
      OtherFirst(a, b);
    }
  }

  lemma {:induction false} DigitFirst(a: byte, b: byte)
    requires IsHex(a)
    ensures ByteOf([a, b]).Some?
    ensures IsHex(b) ==> ByteOf([a, b]) == Some(16 * HexValue(a) + HexValue(b))
  {
    var s: Text, last: Text := [a, b], [b];
    assert s[1..] == last && last[1..] == [];
    assert SkipBlanks(s) == s && SkipPrefix(s) == s;
    assert Digits(s, 0) == Digits(last, HexValue(a));
    if IsHex(b) {
      assert Digits(last, HexValue(a)) == Digits([], 16 * HexValue(a) + HexValue(b));
    }
  }

  lemma {:induction false} OtherFirst(a: byte, b: byte)
    requires !IsHex(a) && !IsBlank(a)
    ensures ByteOf([a, b]).Some? <==> IsSign(a) && IsHex(b)
  {
    var s: Text, last: Text := [a, b], [b];
    assert s[1..] == last;
    assert SkipBlanks(s) == s && SkipPrefix(last) == last && SkipPrefix(s) == s;
  }

  lemma {:induction false} BlankFirst(a: byte, b: byte)
    requires IsBlank(a)
    ensures ByteOf([a, b]) == ByteOf([b])
  {
    var s: Text, last: Text := [a, b], [b];
    assert s[1..] == last;
    assert SkipBlanks(s) == SkipBlanks(last);
  }

  /** `substr(i, 2)`. */
  function Pair(s: Text, i: nat): Text
    requires i < |s|
  {
    if i + 2 <= |s| then s[i..i + 2] else s[i..]
  }

  function Onto(done: Text, r: Option<Text>): Option<Text> {
    match r case None => None case Some(bs) => Some(done + bs)
  }

  /** Two characters at a time, the last alone if their number is odd; `None` if one of them throws. */
  function ParseFrom(s: Text, i: nat): (r: Option<Text>)
    ensures r.Some? ==> |r.value| == if i < |s| then (|s| - i + 1) / 2 else 0
    decreases |s| - i
  {
    if i >= |s| then Some([])
    else
      match ByteOf(Pair(s, i))
      case None => None
      case Some(b) => Onto([b], ParseFrom(s, i + 2))
  }

  lemma {:induction false} DigitsParse(s: Text, i: nat)
    requires AllHex(s) && i < |s|
    ensures ByteOf(Pair(s, i)) == Some(PairValue(s, i))
  {
    if i + 1 == |s| {
      assert Pair(s, i) == [s[i]];
      DigitParses(s[i]);
    } else {
      assert Pair(s, i) == [s[i], s[i + 1]];
      PairParses(s[i], s[i + 1]);
    }
  }

  lemma {:induction false} ParseStep(s: Text, i: nat)
    requires AllHex(s) && i < |s|
    ensures ParseFrom(s, i) == Onto([PairValue(s, i)], ParseFrom(s, i + 2))
  {
    DigitsParse(s, i);
  }

  /** On digits alone that is their value. */
  lemma {:induction false} ParseDigits(s: Text, k: nat)
    requires AllHex(s) && k <= |Unhex(s)|
    ensures ParseFrom(s, 2 * k) == Some(Unhex(s)[k..])
    decreases |Unhex(s)| - k
  {
    if k < |Unhex(s)| {
      ParseDigits(s, k + 1);
      ParseStep(s, 2 * k);
      NextByte(Unhex(s), k);
    } else {
      assert 2 * k >= |s| && Unhex(s)[k..] == [];
    }
  }

  lemma NextByte(bs: Text, k: nat)
    requires k < |bs|
    ensures bs[k..] == [bs[k]] + bs[k + 1..]
  {
  }

  /** One more byte written over the array. */
  lemma {:induction false} WriteByte(value: Text, random: Text, k: nat, b: byte)
    requires k < |value| == |random| && value[k..] == random[k..]
    ensures value[k := b][..k + 1] == value[..k] + [b] && value[k := b][k + 1..] == random[k + 1..]
  {
    assert value[k..][1..] == value[k + 1..] && random[k..][1..] == random[k + 1..];
  }

  lemma OntoMore(done: Text, b: byte, r: Option<Text>)
    ensures Onto(done, Onto([b], r)) == Onto(done + [b], r) && Onto([], r) == r
  {
    if r.Some? {
      assert [] + r.value == r.value;
      assert done + ([b] + r.value) == done + [b] + r.value;
    }
  }

  /** After `k` rounds the first `k` bytes have been parsed, and the rest is as it was. */
  predicate Parsed(str: Text, value: Text, random: Uuid, k: nat) {
    && |value| == 16 && k <= 16
    && ParseFrom(str, 0) == Onto(value[..k], ParseFrom(str, 2 * k)) && value[k..] == random[k..]
  }

  lemma {:induction false} ParsedNothing(str: Text, random: Uuid)
    ensures Parsed(str, random, random, 0)
  {
    OntoMore([], 0, ParseFrom(str, 0));
    assert random[..0] == [];
  }

  lemma {:induction false} ParsedMore(str: Text, value: Text, random: Uuid, k: nat)
    requires Parsed(str, value, random, k) && 2 * k < |str| <= 32 && ByteOf(Pair(str, 2 * k)).Some?
    ensures Parsed(str, value[k := ByteOf(Pair(str, 2 * k)).value], random, k + 1)
  {
    var b := ByteOf(Pair(str, 2 * k)).value;
    WriteByte(value, random, k, b);
    OntoMore(value[..k], b, ParseFrom(str, 2 * k + 2));
  }

  lemma {:induction false} ParsedAll(str: Text, value: Text, random: Uuid, k: nat)
    requires Parsed(str, value, random, k) && 2 * k >= |str|
    ensures ParseFrom(str, 0) == Some(value[..k]) && value == value[..k] + random[k..]
  {
    assert value[..k] + [] == value[..k];
  }

  /** Parses into a UUID that starts out random: a string of fewer than 31 characters leaves the rest of
      it untouched. `None` is the exception of a pair without digits; a string of more than 32 characters
      would write past the array. */
  method FromString(str: Text, random: Uuid) returns (uuid: Option<Uuid>)
    requires |str| <= 32
    ensures uuid == match ParseFrom(str, 0) case None => None case Some(bs) => Some(bs + random[|bs|..])
    ensures AllHex(str) ==> uuid == Some(Unhex(str) + random[(|str| + 1) / 2..])
  {
    if AllHex(str) {
      ParseDigits(str, 0);
    }
    var value: Uuid := random;
    var i := 0;
    ghost var k := 0;
    ParsedNothing(str, random);
    while i < |str|
      invariant i == 2 * k && Parsed(str, value, random, k)
    {
      var b := ByteOf(Pair(str, i));
      if b.None? {
        return None;
      }
      assert i / 2 == k;
      ParsedMore(str, value, random, k);
      value := value[i / 2 := b.value];
      i := i + 2;
      k := k + 1;
    }
    ParsedAll(str, value, random, k);
    return Some(value);
  }
}
