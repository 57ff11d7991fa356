/**
 * Base64 with the standard alphabet and `=` padding (section 4 of RFC 4648),
 * as Python's `base64.b64encode` produces it for the image payload, together
 * with a decoder used as its partner: it rejects characters outside the
 * alphabet and misplaced padding, and ignores the unused bits of a padded group.
 */
module Base64 {
  import opened Wrappers

  type Byte = x: int | 0 <= x < 256

  /** The character for a 6-bit value: A-Z, a-z, 0-9, '+', '/'. */
  function Sextet(v: nat): (c: char)
    requires v < 64
    ensures c != '='
  {
    if v < 26 then ('A' as int + v) as char
    else if v < 52 then ('a' as int + (v - 26)) as char
    else if v < 62 then ('0' as int + (v - 52)) as char
    else if v == 62 then '+'
    else '/'
  }

  /** The 6-bit value of an alphabet character; `None` for any other character. */
  function SextetOf(c: char): (r: Option<nat>)
    ensures r.Some? ==> r.value < 64 && Sextet(r.value) == c
  {
    if 'A' <= c <= 'Z' then Some(c as int - 'A' as int)
    else if 'a' <= c <= 'z' then Some(c as int - 'a' as int + 26)
    else if '0' <= c <= '9' then Some(c as int - '0' as int + 52)
    else if c == '+' then Some(62)
    else if c == '/' then Some(63)
    else None
  }

  lemma SextetOfSextet(v: nat)
    requires v < 64
    ensures SextetOf(Sextet(v)) == Some(v)
  {
  }

  /** Three bytes as four characters. */
  function EncodeGroup(b0: Byte, b1: Byte, b2: Byte): (q: string)
  {
    [Sextet(b0 / 4), Sextet(b0 % 4 * 16 + b1 / 16), Sextet(b1 % 16 * 4 + b2 / 64), Sextet(b2 % 64)]
  }

  /** `base64.b64encode(b)`: every full group of three bytes, then one padded group for one or two left-over bytes. */
  function Encode(b: seq<Byte>): (s: string)
    ensures |s| == 4 * ((|b| + 2) / 3)
    decreases |b|
  {
    if |b| == 0 then ""
    else if |b| == 1 then [Sextet(b[0] / 4), Sextet(b[0] % 4 * 16), '=', '=']
    else if |b| == 2 then [Sextet(b[0] / 4), Sextet(b[0] % 4 * 16 + b[1] / 16), Sextet(b[1] % 16 * 4), '=']
    else EncodeGroup(b[0], b[1], b[2]) + Encode(b[3..])
  }

  /** Decodes one group of four characters, which may end in one or two `=`. */
  function DecodeQuad(c0: char, c1: char, c2: char, c3: char): (r: Option<seq<Byte>>)
    ensures r.Some? ==> 1 <= |r.value| <= 3
    ensures r.Some? && |r.value| == 3 ==> c2 != '=' && c3 != '='
  {
    var v0, v1 := SextetOf(c0), SextetOf(c1);
    if v0.None? || v1.None? then None
    else if c2 == '=' && c3 == '=' then
      Some([v0.value * 4 + v1.value / 16])
    else
      var v2 := SextetOf(c2);
      if v2.None? then None
      else if c3 == '=' then
        Some([v0.value * 4 + v1.value / 16, v1.value % 16 * 16 + v2.value / 4])
      else
        var v3 := SextetOf(c3);
        if v3.None? then None
        else Some([v0.value * 4 + v1.value / 16, v1.value % 16 * 16 + v2.value / 4, v2.value % 4 * 64 + v3.value])
  }

  /** Decodes a padded Base64 string; padding may only appear in the last group. */
  function Decode(s: string): (r: Option<seq<Byte>>)
    decreases |s|
  {
    if |s| == 0 then Some([])
    else if |s| < 4 then None
    else
      var head := DecodeQuad(s[0], s[1], s[2], s[3]);
      if head.None? then None
      else if |s| == 4 then head
      else if |head.value| != 3 then None
      else
        match Decode(s[4..])
        case None => None
        case Some(rest) => Some(head.value + rest)
  }

  /** The sextets of a full group recombine into its three bytes. */
  lemma GroupArithmetic(b0: Byte, b1: Byte, b2: Byte)
    ensures b0 / 4 * 4 + (b0 % 4 * 16 + b1 / 16) / 16 == b0
    ensures (b0 % 4 * 16 + b1 / 16) % 16 * 16 + (b1 % 16 * 4 + b2 / 64) / 4 == b1
    ensures (b1 % 16 * 4 + b2 / 64) % 4 * 64 + b2 % 64 == b2
  {
    assert (b0 % 4 * 16 + b1 / 16) / 16 == b0 % 4;
    assert (b0 % 4 * 16 + b1 / 16) % 16 == b1 / 16;
    assert (b1 % 16 * 4 + b2 / 64) / 4 == b1 % 16;
    assert (b1 % 16 * 4 + b2 / 64) % 4 == b2 / 64;
  }

  lemma GroupRoundTrip(b0: Byte, b1: Byte, b2: Byte)
    ensures var q := EncodeGroup(b0, b1, b2); DecodeQuad(q[0], q[1], q[2], q[3]) == Some([b0, b1, b2])
  {
    var v0, v1, v2, v3 := b0 / 4, b0 % 4 * 16 + b1 / 16, b1 % 16 * 4 + b2 / 64, b2 % 64;
    SextetOfSextet(v0);
    SextetOfSextet(v1);
    SextetOfSextet(v2);
    SextetOfSextet(v3);
    GroupArithmetic(b0, b1, b2);
    var q := EncodeGroup(b0, b1, b2);
    assert q == [Sextet(v0), Sextet(v1), Sextet(v2), Sextet(v3)];
  }

  lemma OneByteRoundTrip(b0: Byte)
    ensures Decode(Encode([b0])) == Some([b0])
  {
    SextetOfSextet(b0 / 4);
    SextetOfSextet(b0 % 4 * 16);
    var s := Encode([b0]);
    assert s == [Sextet(b0 / 4), Sextet(b0 % 4 * 16), '=', '='];
    assert DecodeQuad(s[0], s[1], s[2], s[3]) == Some([b0]);
  }

  lemma TwoByteRoundTrip(b0: Byte, b1: Byte)
    ensures Decode(Encode([b0, b1])) == Some([b0, b1])
  {
    SextetOfSextet(b0 / 4);
    SextetOfSextet(b0 % 4 * 16 + b1 / 16);
    SextetOfSextet(b1 % 16 * 4);
    var s := Encode([b0, b1]);
    assert s == [Sextet(b0 / 4), Sextet(b0 % 4 * 16 + b1 / 16), Sextet(b1 % 16 * 4), '='];
    assert DecodeQuad(s[0], s[1], s[2], s[3]) == Some([b0, b1]);
  }

  /** A full group followed by a decodable remainder decodes to the group's bytes followed by the remainder's. */
  lemma DecodeAppend(q: string, t: string, head: seq<Byte>, rest: seq<Byte>)
    requires |q| == 4 && DecodeQuad(q[0], q[1], q[2], q[3]) == Some(head) && |head| == 3
    requires Decode(t) == Some(rest)
    ensures Decode(q + t) == Some(head + rest)
  {
    var s := q + t;
    assert s[0] == q[0] && s[1] == q[1] && s[2] == q[2] && s[3] == q[3];
    if t == [] {
      assert s == q;
      assert head + rest == head;
    } else {
      assert s[4..] == t;
    }
  }

  lemma EncodeStep(b: seq<Byte>)
    requires |b| >= 3
    ensures Encode(b) == EncodeGroup(b[0], b[1], b[2]) + Encode(b[3..])
  {
  }

  lemma SplitGroup<T>(b: seq<T>)
    requires |b| >= 3
    ensures b == [b[0], b[1], b[2]] + b[3..]
  {
  }

  /** The step of the round trip: a full group in front of a remainder that already round-trips. */
  lemma GroupStep(b: seq<Byte>)
    requires |b| >= 3 && Decode(Encode(b[3..])) == Some(b[3..])
    ensures Decode(Encode(b)) == Some(b)
  {
    var q, t := EncodeGroup(b[0], b[1], b[2]), Encode(b[3..]);
    EncodeStep(b);
    GroupRoundTrip(b[0], b[1], b[2]);
    SplitGroup(b);
    DecodeAppend(q, t, [b[0], b[1], b[2]], b[3..]);
  }

  /** Decoding what `Encode` produced gives back exactly the input bytes. */
  lemma {:induction false} DecodeEncode(b: seq<Byte>)
    ensures Decode(Encode(b)) == Some(b)
    decreases |b|
  {
    if |b| == 0 {
    } else if |b| == 1 {
      assert b == [b[0]];
      OneByteRoundTrip(b[0]);
    } else if |b| == 2 {
      assert b == [b[0], b[1]];
      TwoByteRoundTrip(b[0], b[1]);
    } else {
      DecodeEncode(b[3..]);
      GroupStep(b);
    }
  }

  /** The test vectors of section 10 of RFC 4648 ("f", "fo", ..., "foobar"), and one that uses '+' and '/'. */
  lemma TestVectors()
    ensures Encode([]) == ""
    ensures Encode([102]) == "Zg=="
    ensures Encode([102, 111]) == "Zm8="
    ensures Encode([102, 111, 111]) == "Zm9v"
    ensures Encode([102, 111, 111, 98]) == "Zm9vYg=="
    ensures Encode([102, 111, 111, 98, 97]) == "Zm9vYmE="
    ensures Encode([102, 111, 111, 98, 97, 114]) == "Zm9vYmFy"
    ensures Encode([255, 254, 253]) == "//79"
  {
  }
}
