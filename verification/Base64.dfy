/** Decoding the base 64 form of a PhySL program, against the encoding of
    section 4 of RFC 4648. */
module Base64 {

  type Byte = n: nat | n < 256
  type Sextet = n: nat | n < 64

  predicate IsBase64(c: char) {
    'A' <= c <= 'Z' || 'a' <= c <= 'z' || '0' <= c <= '9' || c == '+' || c == '/'
  }

  /** The alphabet: upper case, lower case, digits, and two more. */
  function Letter(i: Sextet): char {
    if i < 26 then ('A' as int + i) as char
    else if i < 52 then ('a' as int + i - 26) as char
    else if i < 62 then ('0' as int + i - 52) as char
    else if i == 62 then '+'
    else '/'
  }

  /** The position of a character in the alphabet. */
  function Find(c: char): Sextet
    requires IsBase64(c)
  {
    if 'A' <= c <= 'Z' then c as int - 'A' as int
    else if 'a' <= c <= 'z' then c as int - 'a' as int + 26
    else if '0' <= c <= '9' then c as int - '0' as int + 52
    else if c == '+' then 62
    else 63
  }

  lemma FindLetter(i: Sextet)
    ensures IsBase64(Letter(i)) && Find(Letter(i)) == i && Letter(i) != '='
  {}

  /** Table 1 of RFC 4648: three runs of consecutive characters, and two more. */
  lemma Alphabet(i: Sextet)
    ensures Letter(0) == 'A' && Letter(25) == 'Z' && Letter(26) == 'a' && Letter(51) == 'z'
    ensures Letter(52) == '0' && Letter(61) == '9' && Letter(62) == '+' && Letter(63) == '/'
    ensures i !in {25, 51, 61, 62, 63} ==> Letter(i + 1) as int == Letter(i) as int + 1
  {}

  // ---------------------------------------------------------------------
  // The encoding of RFC 4648

  function EncodeGroup(a: Byte, b: Byte, c: Byte): (s: string)
    ensures |s| == 4
  {
    [Letter(a / 4), Letter(a % 4 * 16 + b / 16), Letter(b % 16 * 4 + c / 64), Letter(c % 64)]
  }

  /** A last group of one or two bytes is padded. */
  function Encode(bytes: seq<Byte>): string {
    if |bytes| == 0 then ""
    else if |bytes| == 1 then EncodeGroup(bytes[0], 0, 0)[..2] + "=="
    else if |bytes| == 2 then EncodeGroup(bytes[0], bytes[1], 0)[..3] + "="
    else EncodeGroup(bytes[0], bytes[1], bytes[2]) + Encode(bytes[3..])
  }

  // ---------------------------------------------------------------------
  // What the decoder computes

  /** The leading run of alphabet characters, as sextets. */
  function Leading(s: string): seq<Sextet> {
    if s == "" || !IsBase64(s[0]) then [] else [Find(s[0])] + Leading(s[1..])
  }

  /** `(a << 2) + ((b & 0x30) >> 4)` and its two companions, on sextets. */
  function First(a: Sextet, b: Sextet): Byte { a * 4 + b / 16 }

  function Second(b: Sextet, c: Sextet): Byte { b % 16 * 16 + c / 4 }

  function Third(c: Sextet, d: Sextet): Byte { c % 4 * 64 + d }

  /** Four sextets make three bytes; a rest of one, two or three makes one byte less. */
  function Bytes(q: seq<Sextet>): seq<Byte> {
    if |q| < 2 then []
    else if |q| == 2 then [First(q[0], q[1])]
    else if |q| == 3 then [First(q[0], q[1]), Second(q[1], q[2])]
    else [First(q[0], q[1]), Second(q[1], q[2]), Third(q[2], q[3])] + Bytes(q[4..])
  }

  // ---------------------------------------------------------------------
  // The program

  /** The buffer holds bytes; its first characters are the given ones. */
  ghost predicate Buffered(four: seq<int>, chars: string) {
    && |chars| <= |four| == 4
    && (forall k | 0 <= k < 4 :: 0 <= four[k] < 256)
    && (forall k | 0 <= k < |chars| :: IsBase64(chars[k]) && four[k] == chars[k] as int)
  }

  /** Decodes the buffer in place and appends all but one of its bytes; the
      buffer may hold anything beyond its first `count` places. */
  method Flush(four: array<int>, three: array<int>, count: nat, ret: seq<Byte>, ghost chars: string)
    returns (ret': seq<Byte>)
    requires four.Length == 4 && three.Length == 3 && four != three && 1 <= count == |chars|
    requires Buffered(four[..], chars)
    modifies four, three
    ensures forall k | 0 <= k < 4 :: 0 <= four[k] < 256
    ensures ret' == ret + Bytes(Sextets(chars))
  {
    assert forall k | 0 <= k < 4 :: four[k] == four[..][k];
    var j := 0;
    while j < count
      invariant j <= count
      invariant forall k | 0 <= k < 4 :: 0 <= four[k] < 256
      invariant forall k | 0 <= k < j :: four[k] == Sextets(chars)[k]
      invariant forall k | j <= k < count :: four[k] == chars[k] as int
    {
      four[j] := Find(four[j] as char);
      j := j + 1;
    }
    three[0] := (four[0] * 4 + four[1] / 16 % 4) % 256;
    three[1] := (four[1] % 16 * 16 + four[2] / 4 % 16) % 256;
    three[2] := (four[2] % 4 * 64 + four[3]) % 256;
    FlushedBytes(Sextets(chars), four[..], three[..]);
    ret' := Append(ret, three, count - 1);
    assert three[..count - 1] == Bytes(Sextets(chars));
  }

  method Append(ret: seq<Byte>, three: array<int>, n: nat) returns (ret': seq<Byte>)
    requires n <= three.Length && forall k | 0 <= k < three.Length :: 0 <= three[k] < 256
    ensures |ret'| == |ret| + n && ret' == ret + three[..n]
  {
    ret' := ret;
    var j := 0;
    while j < n
      invariant j <= n && ret' == ret + three[..j]
    {
      ret' := ret' + [three[j]];
      j := j + 1;
    }
  }

  lemma FlushedBytes(q: seq<Sextet>, four: seq<int>, three: seq<int>)
    requires 1 <= |q| <= 4 == |four| && |three| == 3
    requires forall k | 0 <= k < |q| :: four[k] == q[k]
    requires three[0] == (four[0] * 4 + four[1] / 16 % 4) % 256
    requires three[1] == (four[1] % 16 * 16 + four[2] / 4 % 16) % 256
    requires three[2] == (four[2] % 4 * 64 + four[3]) % 256
    ensures |Bytes(q)| == |q| - 1 && forall k | 0 <= k < |q| - 1 :: Bytes(q)[k] == three[k]
  {
    if |q| == 4 { assert Bytes(q[4..]) == []; ThirdByte(q[2], q[3]); }
    if |q| >= 3 { SecondByte(q[1], q[2]); }
    if |q| >= 2 { FirstByte(q[0], q[1]); }
  }

  lemma FirstByte(a: Sextet, b: Sextet)
    ensures (a * 4 + b / 16 % 4) % 256 == First(a, b)
  {}

  lemma SecondByte(b: Sextet, c: Sextet)
    ensures (b % 16 * 16 + c / 4 % 16) % 256 == Second(b, c)
  {}

  lemma ThirdByte(c: Sextet, d: Sextet)
    ensures (c % 4 * 64 + d) % 256 == Third(c, d)
  {}

  /** `at` characters are read: those in `done` are decoded, `chars` buffered. */
  ghost predicate Reading(encoded: string, at: nat, done: seq<Sextet>, chars: string, ret: seq<Byte>) {
    && at <= |encoded| && (forall k | 0 <= k < |chars| :: IsBase64(chars[k]))
    && |done| % 4 == 0 && ret == Bytes(done)
    && Leading(encoded) == done + (Sextets(chars) + Leading(encoded[at..]))
  }

  lemma ReadOne(encoded: string, at: nat, done: seq<Sextet>, chars: string, ret: seq<Byte>)
    requires Reading(encoded, at, done, chars, ret) && at < |encoded| && IsBase64(encoded[at])
    ensures Reading(encoded, at + 1, done, chars + [encoded[at]], ret)
  {
    LeadingNext(encoded, chars, at);
  }

  lemma ReadFlushed(encoded: string, at: nat, done: seq<Sextet>, chars: string, ret: seq<Byte>)
    requires Reading(encoded, at, done, chars, ret) && |chars| == 4
    ensures Reading(encoded, at, done + Sextets(chars), "", ret + Bytes(Sextets(chars)))
  {
    BytesAppend(done, Sextets(chars));
    FourMore(Leading(encoded), done, Sextets(chars), Leading(encoded[at..]));
    NothingBuffered(Leading(encoded[at..]));
  }

  lemma FourMore<T>(all: seq<T>, done: seq<T>, four: seq<T>, rest: seq<T>)
    requires all == done + (four + rest) && |done| % 4 == 0 && |four| == 4
    ensures all == done + four + rest && |done + four| % 4 == 0
  {}

  lemma NothingBuffered(rest: seq<Sextet>)
    ensures Sextets("") + rest == rest
  {}

  lemma ReadAll(encoded: string, at: nat, done: seq<Sextet>, chars: string, ret: seq<Byte>)
    requires Reading(encoded, at, done, chars, ret)
    requires at < |encoded| ==> encoded[at] == '=' || !IsBase64(encoded[at])
    ensures Bytes(Leading(encoded)) == ret + Bytes(Sextets(chars))
  {
    BytesAppend(done, Sextets(chars));
    assert Leading(encoded[at..]) == [];
    assert Sextets(chars) + [] == Sextets(chars);
  }

  /** `base64_decode`. */
  method Decode(encoded: string) returns (ret: seq<Byte>)
    ensures ret == Bytes(Leading(encoded))
  {
    var i, at := 0, 0;
    var four, three := new int[4](k => 0), new int[3](k => 0);
    ret := [];
    ghost var done, chars := [], "";
    assert encoded[0..] == encoded;
    while at < |encoded| && encoded[at] != '=' && IsBase64(encoded[at])
      invariant i == |chars| < 4 && fresh(four) && fresh(three)
      invariant Buffered(four[..], chars) && Reading(encoded, at, done, chars, ret)
      decreases |encoded| - at
    {
      ReadOne(encoded, at, done, chars, ret);
      four[i] := encoded[at] as int;
      chars := chars + [encoded[at]];
      i, at := i + 1, at + 1;
      if i == 4 {
        ReadFlushed(encoded, at, done, chars, ret);
        ret := Flush(four, three, 4, ret, chars);
        done, chars := done + Sextets(chars), "";
        i := 0;
      }
    }
    ReadAll(encoded, at, done, chars, ret);
    if i > 0 {
      ret := Flush(four, three, i, ret, chars);
    }
  }

  function Sextets(s: string): (q: seq<Sextet>)
    requires forall k | 0 <= k < |s| :: IsBase64(s[k])
    ensures |q| == |s| && forall k | 0 <= k < |s| :: q[k] == Find(s[k])
  {
    seq(|s|, k requires 0 <= k < |s| => Find(s[k]))
  }

  lemma LeadingNext(s: string, chars: string, at: nat)
    requires at < |s| && IsBase64(s[at]) && forall k | 0 <= k < |chars| :: IsBase64(chars[k])
    ensures forall k | 0 <= k < |chars| + 1 :: IsBase64((chars + [s[at]])[k])
    ensures Sextets(chars) + Leading(s[at..]) == Sextets(chars + [s[at]]) + Leading(s[at + 1..])
  {
    assert s[at..][1..] == s[at + 1..];
    assert Sextets(chars + [s[at]]) == Sextets(chars) + [Find(s[at])];
  }

  lemma {:induction false} BytesAppend(a: seq<Sextet>, b: seq<Sextet>)
    requires |a| % 4 == 0
    ensures Bytes(a + b) == Bytes(a) + Bytes(b)
    decreases |a|
  {
    if a == [] {
      assert a + b == b;
    } else {
      assert (a + b)[4..] == a[4..] + b;
      BytesAppend(a[4..], b);
    }
  }

  // ---------------------------------------------------------------------
  // Main results

  /** Whatever the input, `k` leading alphabet characters give `6 k / 8` bytes. */
  lemma {:induction false} DecodedLength(q: seq<Sextet>)
    ensures |Bytes(q)| == 6 * |q| / 8
    decreases |q|
  {
    if |q| >= 4 { DecodedLength(q[4..]); }
  }

  /** Three bytes as four sextets. */
  function Split(a: Byte, b: Byte, c: Byte): (q: seq<Sextet>)
    ensures |q| == 4
  {
    [a / 4, a % 4 * 16 + b / 16, b % 16 * 4 + c / 64, c % 64]
  }

  /** The bits keep their order: three bytes and their four sextets are one number. */
  lemma SplitIsOneNumber(a: Byte, b: Byte, c: Byte)
    ensures var q := Split(a, b, c);
      (a as int * 256 + b as int) * 256 + c as int
        == ((q[0] as int * 64 + q[1] as int) * 64 + q[2] as int) * 64 + q[3] as int
  {
    var x, y, z: int := a, b, c;
    assert x == x / 4 * 4 + x % 4 && y == y / 16 * 16 + y % 16 && z == z / 64 * 64 + z % 64;
  }

  lemma SplitRoundTrip(a: Byte, b: Byte, c: Byte)
    ensures var q := Split(a, b, c);
      First(q[0], q[1]) == a && Second(q[1], q[2]) == b && Third(q[2], q[3]) == c
  {}

  /** The sextets of an encoding. */
  function Groups(bytes: seq<Byte>): seq<Sextet> {
    if |bytes| == 0 then []
    else if |bytes| == 1 then Split(bytes[0], 0, 0)[..2]
    else if |bytes| == 2 then Split(bytes[0], bytes[1], 0)[..3]
    else Split(bytes[0], bytes[1], bytes[2]) + Groups(bytes[3..])
  }

  function Spell(q: seq<Sextet>): string {
    if q == [] then "" else [Letter(q[0])] + Spell(q[1..])
  }

  lemma Prepend<T>(x: T, a: seq<T>, b: seq<T>)
    ensures [x] + a + b == [x] + (a + b)
  {}

  lemma LeadingOfLetter(i: Sextet, s: string)
    ensures Leading([Letter(i)] + s) == [i] + Leading(s)
  {
    FindLetter(i);
    assert ([Letter(i)] + s)[1..] == s;
  }

  lemma {:induction false} LeadingOfSpell(q: seq<Sextet>, s: string)
    requires s == "" || !IsBase64(s[0])
    ensures Leading(Spell(q) + s) == q
    decreases |q|
  {
    if q == [] {
      assert "" + s == s;
    } else {
      LeadingOfSpell(q[1..], s);
      Prepend(Letter(q[0]), Spell(q[1..]), s);
      LeadingOfLetter(q[0], Spell(q[1..]) + s);
    }
  }

  lemma {:induction false} SpellAppend(a: seq<Sextet>, b: seq<Sextet>)
    ensures Spell(a + b) == Spell(a) + Spell(b)
    decreases |a|
  {
    if a == [] {
      assert a + b == b;
    } else {
      assert (a + b)[1..] == a[1..] + b;
      SpellAppend(a[1..], b);
    }
  }

  lemma {:induction false} SpellPrefix(q: seq<Sextet>, k: nat)
    requires k <= |q|
    ensures |Spell(q)| == |q| && Spell(q[..k]) == Spell(q)[..k]
    decreases |q|
  {
    if q != [] {
      SpellPrefix(q[1..], if k == 0 then 0 else k - 1);
      if k > 0 { assert q[..k][1..] == q[1..][..k - 1]; }
    }
  }

  lemma SplitSpells(a: Byte, b: Byte, c: Byte)
    ensures Spell(Split(a, b, c)) == EncodeGroup(a, b, c)
  {
    var q := Split(a, b, c);
    assert q == [] + [q[0]] + [q[1]] + [q[2]] + [q[3]];
    SpellLast([] + [q[0]] + [q[1]] + [q[2]], q[3]);
    SpellLast([] + [q[0]] + [q[1]], q[2]);
    SpellLast([] + [q[0]], q[1]);
    SpellLast([], q[0]);
  }

  lemma SpellLast(q: seq<Sextet>, a: Sextet)
    ensures Spell(q + [a]) == Spell(q) + [Letter(a)]
  {
    SpellAppend(q, [a]);
    assert [a][1..] == [];
  }

  function Padding(bytes: seq<Byte>): string {
    if |bytes| == 0 then "" else if |bytes| == 1 then "==" else if |bytes| == 2 then "=" else Padding(bytes[3..])
  }

  lemma {:induction false} PaddingIs(bytes: seq<Byte>)
    ensures Padding(bytes) == if |bytes| % 3 == 1 then "==" else if |bytes| % 3 == 2 then "=" else ""
    decreases |bytes|
  {
    if |bytes| > 2 { PaddingIs(bytes[3..]); }
  }

  /** An encoding is its sextets spelled out, and then padding. */
  lemma {:induction false} EncodeSpells(bytes: seq<Byte>) returns (pad: string)
    ensures pad == Padding(bytes)
    ensures Encode(bytes) == Spell(Groups(bytes)) + pad
    decreases |bytes|
  {
    if |bytes| == 0 {
      pad := "";
    } else if |bytes| == 1 {
      pad := "==";
      SplitSpells(bytes[0], 0, 0);
      SpellPrefix(Split(bytes[0], 0, 0), 2);
    } else if |bytes| == 2 {
      pad := "=";
      SplitSpells(bytes[0], bytes[1], 0);
      SpellPrefix(Split(bytes[0], bytes[1], 0), 3);
    } else {
      pad := EncodeSpells(bytes[3..]);
      SplitSpells(bytes[0], bytes[1], bytes[2]);
      SpellAppend(Split(bytes[0], bytes[1], bytes[2]), Groups(bytes[3..]));
    }
  }

  lemma {:induction false} GroupsRoundTrip(bytes: seq<Byte>)
    ensures Bytes(Groups(bytes)) == bytes
    decreases |bytes|
  {
    if |bytes| == 1 {
      SplitRoundTrip(bytes[0], 0, 0);
    } else if |bytes| == 2 {
      SplitRoundTrip(bytes[0], bytes[1], 0);
    } else if |bytes| > 2 {
      var q := Split(bytes[0], bytes[1], bytes[2]);
      SplitRoundTrip(bytes[0], bytes[1], bytes[2]);
      GroupsRoundTrip(bytes[3..]);
      BytesAppend(q, Groups(bytes[3..]));
      assert Bytes(q[4..]) == [];
      assert bytes == [bytes[0], bytes[1], bytes[2]] + bytes[3..];
    }
  }

  /** Main result: decoding inverts the encoding of every byte string. */
  lemma DecodeInvertsEncode(bytes: seq<Byte>)
    ensures Bytes(Leading(Encode(bytes))) == bytes
  {
    var pad := EncodeSpells(bytes);
    PaddingIs(bytes);
    LeadingOfSpell(Groups(bytes), pad);
    GroupsRoundTrip(bytes);
  }
}
