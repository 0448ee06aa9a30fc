/** base64.StdEncoding: the padded encoding of section 4 of RFC 4648 that
  * turns each DER certificate into the text the connector returns, with the
  * decoding that undoes it. */
module Base64 {
  import opened Wrappers

  type byte = bv8

  /** The character for a 6-bit value: A-Z, a-z, 0-9, '+', '/'. */
  function CharOf(v: bv6): (c: char)
    ensures c != '='
  {
    if v < 26 then ('A' as int + v as int) as char
    else if v < 52 then ('a' as int + (v as int - 26)) as char
    else if v < 62 then ('0' as int + (v as int - 52)) as char
    else if v == 62 then '+'
    else '/'
  }

  /** The 6-bit value of an alphabet character; None for any other character. */
  function ValueOf(c: char): Option<bv6>
  {
    if 'A' <= c <= 'Z' then Some((c as int - 'A' as int) as bv6)
    else if 'a' <= c <= 'z' then Some((c as int - 'a' as int + 26) as bv6)
    else if '0' <= c <= '9' then Some((c as int - '0' as int + 52) as bv6)
    else if c == '+' then Some(62)
    else if c == '/' then Some(63)
    else None
  }

  lemma ValueOfCharOf(v: bv6)
    ensures ValueOf(CharOf(v)) == Some(v)
  {
  }

  /** The four 6-bit groups of three bytes, most significant first. */
  function Split(a: byte, b: byte, c: byte): (bv6, bv6, bv6, bv6)
  {
    var n: bv24 := (a as bv24 << 16) | (b as bv24 << 8) | c as bv24;
    ((n >> 18) as bv6, ((n >> 12) & 0x3F) as bv6, ((n >> 6) & 0x3F) as bv6, (n & 0x3F) as bv6)
  }

  /** The three bytes that four 6-bit groups stand for. */
  function Join(s0: bv6, s1: bv6, s2: bv6, s3: bv6): (byte, byte, byte)
  {
    var n: bv24 := (s0 as bv24 << 18) | (s1 as bv24 << 12) | (s2 as bv24 << 6) | s3 as bv24;
    ((n >> 16) as byte, ((n >> 8) & 0xFF) as byte, (n & 0xFF) as byte)
  }

  lemma JoinSplit(a: byte, b: byte, c: byte)
    ensures var (s0, s1, s2, s3) := Split(a, b, c); Join(s0, s1, s2, s3) == (a, b, c)
  {
  }

  /** With no third byte the last group is zero, and with no second byte the
    * last two are: this is what lets the padded forms drop them. */
  lemma SplitPadding(a: byte, b: byte)
    ensures Split(a, b, 0).3 == 0
    ensures Split(a, 0, 0).2 == 0 && Split(a, 0, 0).3 == 0
  {
  }

  function EncodeGroup(a: byte, b: byte, c: byte): (t: string)
    ensures |t| == 4
  {
    var (s0, s1, s2, s3) := Split(a, b, c);
    [CharOf(s0), CharOf(s1), CharOf(s2), CharOf(s3)]
  }

  /** EncodeToString: full groups of three bytes, then a final group padded
    * with '=' when one or two bytes are left. */
  function Encode(data: seq<byte>): (t: string)
    ensures |t| == (|data| + 2) / 3 * 4
    ensures forall i :: 0 <= i < |t| && t[i] == '=' ==> i >= |t| - 2
  {
    if |data| >= 3 then EncodeGroup(data[0], data[1], data[2]) + Encode(data[3..])
    else if |data| == 2 then EncodeGroup(data[0], data[1], 0)[..3] + "="
    else if |data| == 1 then EncodeGroup(data[0], 0, 0)[..2] + "=="
    else ""
  }

  /** DecodeString for padded input: groups of four characters, '=' only at
    * the end of the last group. */
  function Decode(t: string): Option<seq<byte>>
  {
    if t == [] then Some([])
    else if |t| < 4 then None
    else
      var v0, v1 := ValueOf(t[0]), ValueOf(t[1]);
      if v0.None? || v1.None? then None
      else if |t| == 4 && t[2] == '=' && t[3] == '=' then
        Some([Join(v0.value, v1.value, 0, 0).0])
      else if |t| == 4 && t[3] == '=' then
        var v2 := ValueOf(t[2]);
        if v2.None? then None
        else
          var (a, b, _) := Join(v0.value, v1.value, v2.value, 0);
          Some([a, b])
      else
        var v2, v3 := ValueOf(t[2]), ValueOf(t[3]);
        if v2.None? || v3.None? then None
        else
          match Decode(t[4..])
          case None => None
          case Some(rest) =>
            var (a, b, c) := Join(v0.value, v1.value, v2.value, v3.value);
            Some([a, b, c] + rest)
  }

  /** A full group decodes to its three bytes, followed by what the rest decodes to. */
  lemma DecodeFullGroup(a: byte, b: byte, c: byte, rest: string)
    ensures Decode(EncodeGroup(a, b, c) + rest) ==
      match Decode(rest) case None => None case Some(r) => Some([a, b, c] + r)
  {
    var t := EncodeGroup(a, b, c) + rest;
    var (s0, s1, s2, s3) := Split(a, b, c);
    ValueOfCharOf(s0); ValueOfCharOf(s1); ValueOfCharOf(s2); ValueOfCharOf(s3);
    JoinSplit(a, b, c);
    assert t[3] == CharOf(s3) && t[3] != '=';
    assert t[4..] == rest;
  }

  /** A final group of two bytes decodes to those bytes. */
  lemma DecodeTwoBytes(a: byte, b: byte)
    ensures Decode(EncodeGroup(a, b, 0)[..3] + "=") == Some([a, b])
  {
    var (s0, s1, s2, s3) := Split(a, b, 0);
    ValueOfCharOf(s0); ValueOfCharOf(s1); ValueOfCharOf(s2);
    JoinSplit(a, b, 0);
    SplitPadding(a, b);
  }

  /** A final group of one byte decodes to that byte. */
  lemma DecodeOneByte(a: byte)
    ensures Decode(EncodeGroup(a, 0, 0)[..2] + "==") == Some([a])
  {
    var (s0, s1, s2, s3) := Split(a, 0, 0);
    ValueOfCharOf(s0); ValueOfCharOf(s1);
    JoinSplit(a, 0, 0);
    SplitPadding(a, 0);
  }

  lemma DecodeEncodeTwo(data: seq<byte>)
    requires |data| == 2
    ensures Decode(Encode(data)) == Some(data)
  {
    assert Encode(data) == EncodeGroup(data[0], data[1], 0)[..3] + "=";
    DecodeTwoBytes(data[0], data[1]);
    assert [data[0], data[1]] == data;
  }

  lemma DecodeEncodeOne(data: seq<byte>)
    requires |data| == 1
    ensures Decode(Encode(data)) == Some(data)
  {
    assert Encode(data) == EncodeGroup(data[0], 0, 0)[..2] + "==";
    DecodeOneByte(data[0]);
    assert [data[0]] == data;
  }

  /** Decoding an encoding gives back the bytes. */
  lemma {:induction false} DecodeEncode(data: seq<byte>)
    ensures Decode(Encode(data)) == Some(data)
  {
    if |data| >= 3 {
      var rest := Encode(data[3..]);
      assert Encode(data) == EncodeGroup(data[0], data[1], data[2]) + rest;
      DecodeEncode(data[3..]);
      DecodeFullGroup(data[0], data[1], data[2], rest);
      assert [data[0], data[1], data[2]] + data[3..] == data;
    } else if |data| == 2 {
      DecodeEncodeTwo(data);
    } else if |data| == 1 {
      DecodeEncodeOne(data);
    }
  }

  /** The test vectors of section 10 of RFC 4648 for "f", "fo", "foo" and "foobar". */
  lemma EncodeKnownAnswers()
    ensures Encode([0x66]) == "Zg=="
    ensures Encode([0x66, 0x6F]) == "Zm8="
    ensures Encode([0x66, 0x6F, 0x6F]) == "Zm9v"
    ensures Encode([0x66, 0x6F, 0x6F, 0x62, 0x61, 0x72]) == "Zm9vYmFy"
  {
    var foobar: seq<byte> := [0x66, 0x6F, 0x6F, 0x62, 0x61, 0x72];
    assert foobar[3..] == [0x62, 0x61, 0x72];
    assert foobar[3..][3..] == [];
  }

  /** Distinct byte strings have distinct encodings. */
  lemma EncodeInjective(x: seq<byte>, y: seq<byte>)
    ensures Encode(x) == Encode(y) <==> x == y
  {
    DecodeEncode(x);
    DecodeEncode(y);
  }
}
