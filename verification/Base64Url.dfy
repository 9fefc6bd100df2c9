/** base64url without padding (sections 3.2 and 5 of RFC 4648). Strings outside the alphabet, where the
    language's decoder is lenient, are left to a parameter. */
module Base64Url {

  datatype Option<T> = None | Some(value: T)

  type byte = x: int | 0 <= x < 256

  type sextet = x: int | 0 <= x < 64

  function CharOf(v: sextet): char {
    if v < 26 then ('A' as int + v) as char
    else if v < 52 then ('a' as int + (v - 26)) as char
    else if v < 62 then ('0' as int + (v - 52)) as char
    else if v == 62 then '-' else '_'
  }

  /** The decoder reads both alphabets: '+' and '/' stand for '-' and '_'. */
  predicate InAlphabet(c: char) {
    'A' <= c <= 'Z' || 'a' <= c <= 'z' || '0' <= c <= '9' || c in "-_+/"
  }

  function ValueOf(c: char): sextet
    requires InAlphabet(c)
  {
    if 'A' <= c <= 'Z' then c as int - 'A' as int
    else if 'a' <= c <= 'z' then c as int - 'a' as int + 26
    else if '0' <= c <= '9' then c as int - '0' as int + 52
    else if c in "-+" then 62 else 63
  }

  lemma CharRoundTrip(v: sextet)
    ensures InAlphabet(CharOf(v)) && ValueOf(CharOf(v)) == v && CharOf(v) !in ".$+/="
  {
  }

  predicate Readable(s: string) {
    forall i :: 0 <= i < |s| ==> InAlphabet(s[i])
  }

  function Sextet0(x: byte): sextet {
    x as int / 4
  }

  function Sextet1(x: byte, y: byte): sextet {
    x as int % 4 * 16 + y as int / 16
  }

  function Sextet2(y: byte, z: byte): sextet {
    y as int % 16 * 4 + z as int / 64
  }

  function Sextet3(z: byte): sextet {
    z as int % 64
  }

  /** Three bytes become four sextets; one or two left over become two or three, filled up with zero bits. */
  function Pack(bytes: seq<byte>): (v: seq<sextet>)
    ensures v == [] <==> bytes == []
  {
    if bytes == [] then []
    else if |bytes| == 1 then [Sextet0(bytes[0]), Sextet1(bytes[0], 0)]
    else if |bytes| == 2 then [Sextet0(bytes[0]), Sextet1(bytes[0], bytes[1]), Sextet2(bytes[1], 0)]
    else [Sextet0(bytes[0]), Sextet1(bytes[0], bytes[1]), Sextet2(bytes[1], bytes[2]), Sextet3(bytes[2])] + Pack(bytes[3..])
  }

  function Byte0(a: sextet, b: sextet): byte {
    a as int * 4 + b as int / 16
  }

  function Byte1(b: sextet, c: sextet): byte {
    b as int % 16 * 16 + c as int / 4
  }

  function Byte2(c: sextet, d: sextet): byte {
    c as int % 4 * 64 + d as int
  }

  /** Four sextets become three bytes; one sextet alone cannot be completed to a byte. */
  function Unpack(v: seq<sextet>): (bytes: Option<seq<byte>>) {
    if v == [] then Some([])
    else if |v| == 1 then None
    else if |v| == 2 then Some([Byte0(v[0], v[1])])
    else if |v| == 3 then Some([Byte0(v[0], v[1]), Byte1(v[1], v[2])])
    else
      match Unpack(v[4..])
      case None => None
      case Some(rest) => Some([Byte0(v[0], v[1]), Byte1(v[1], v[2]), Byte2(v[2], v[3])] + rest)
  }

  function Chars(v: seq<sextet>): (s: string)
    ensures |s| == |v|
  {
    seq(|v|, i requires 0 <= i < |v| => CharOf(v[i]))
  }

  function Values(s: string): (v: seq<sextet>)
    requires Readable(s)
    ensures |v| == |s|
  {
    seq(|s|, i requires 0 <= i < |s| => ValueOf(s[i]))
  }

  function Encode(bytes: seq<byte>): string {
    Chars(Pack(bytes))
  }

  /** Padding is restored before decoding, so the length alone decides how the last bytes are read. */
  function Decode(s: string, lenient: string -> Option<seq<byte>>): Option<seq<byte>> {
    if Readable(s) then Unpack(Values(s)) else lenient(s)
  }

  lemma CharsRoundTrip(v: seq<sextet>)
    ensures Readable(Chars(v)) && Values(Chars(v)) == v
    ensures forall i :: 0 <= i < |v| ==> Chars(v)[i] !in ".$+/="
  {
    forall i | 0 <= i < |v|
      ensures InAlphabet(Chars(v)[i]) && ValueOf(Chars(v)[i]) == v[i] && Chars(v)[i] !in ".$+/="
    {
      CharRoundTrip(v[i]);
    }
  }

  lemma TripleRoundTrip(x: byte, y: byte, z: byte)
    ensures Byte0(Sextet0(x), Sextet1(x, y)) == x
    ensures Byte1(Sextet1(x, y), Sextet2(y, z)) == y
    ensures Byte2(Sextet2(y, z), Sextet3(z)) == z
  {
  }

  lemma UnpackFour(a: sextet, b: sextet, c: sextet, d: sextet, rest: seq<sextet>)
    requires Unpack(rest).Some?
    ensures Unpack([a, b, c, d] + rest) == Some([Byte0(a, b), Byte1(b, c), Byte2(c, d)] + Unpack(rest).value)
  {
    assert ([a, b, c, d] + rest)[4..] == rest;
  }

  lemma UnpackShort(a: sextet, b: sextet, c: sextet)
    ensures Unpack([a, b]) == Some([Byte0(a, b)]) && Unpack([a, b, c]) == Some([Byte0(a, b), Byte1(b, c)])
  {
  }

  lemma UnpackOne(x: byte)
    ensures Unpack(Pack([x])) == Some([x])
  {
    TripleRoundTrip(x, 0, x);
    var v := [Sextet0(x), Sextet1(x, 0)];
    assert Pack([x]) == v;
    assert Unpack(v) == Some([Byte0(v[0], v[1])]);
  }

  lemma UnpackTwo(x: byte, y: byte)
    ensures Unpack(Pack([x, y])) == Some([x, y])
  {
    TripleRoundTrip(x, y, 0);
    UnpackShort(Sextet0(x), Sextet1(x, y), Sextet2(y, 0));
  }

  lemma UnpackThree(x: byte, y: byte, z: byte, rest: seq<byte>)
    requires Unpack(Pack(rest)) == Some(rest)
    ensures Unpack(Pack([x, y, z] + rest)) == Some([x, y, z] + rest)
  {
    TripleRoundTrip(x, y, z);
    UnpackFour(Sextet0(x), Sextet1(x, y), Sextet2(y, z), Sextet3(z), Pack(rest));
    assert ([x, y, z] + rest)[3..] == rest;
  }

  lemma {:induction false} UnpackPack(bytes: seq<byte>)
    ensures Unpack(Pack(bytes)) == Some(bytes)
  {
    if |bytes| >= 3 {
      UnpackPack(bytes[3..]);
      UnpackThree(bytes[0], bytes[1], bytes[2], bytes[3..]);
      assert [bytes[0], bytes[1], bytes[2]] + bytes[3..] == bytes;
    } else if |bytes| == 2 {
      UnpackTwo(bytes[0], bytes[1]);
      assert [bytes[0], bytes[1]] == bytes;
    } else if |bytes| == 1 {
      UnpackOne(bytes[0]);
      assert [bytes[0]] == bytes;
    }
  }

  /** Decoding undoes encoding for every byte string, and the text is made of alphabet characters only. */
  lemma {:induction false} DecodeEncode(bytes: seq<byte>, lenient: string -> Option<seq<byte>>)
    ensures Decode(Encode(bytes), lenient) == Some(bytes)
    ensures Encode(bytes) == "" <==> bytes == []
    ensures forall i :: 0 <= i < |Encode(bytes)| ==> InAlphabet(Encode(bytes)[i]) && Encode(bytes)[i] !in ".$+/="
  {
    CharsRoundTrip(Pack(bytes));
    UnpackPack(bytes);
  }
}
