/** Password strings $pbkdf2-sha256$<iterations>$<salt>$<hash>: printing, parsing and verifying
    (key derivation as in section 5.2 of RFC 8018, here a parameter). */
module Passwords {
  import opened Text

  const ALGORITHM := "pbkdf2-sha256"
  const SALT_BYTES := 16
  const HASH_BYTES := 32
  const MIN_ITERATIONS := 10000
  const MAX_ITERATIONS := 1000000
  const MAX_INT_DIGITS := 4300

  type byte = x: int | 0 <= x < 256

  datatype Option<T> = None | Some(value: T)

  datatype Outcome = Matches(ok: bool) | ValueError

  // ---- bytes as hexadecimal text ----

  function HexChar(v: nat): (c: char)
    requires v < 16
    ensures IsHexDigit(c)
  {
    if v < 10 then DigitChar(v) else 'a' + (v - 10) as char
  }

  predicate ReadsAsHex(c: char) {
    IsHexDigit(c) || 'A' <= c <= 'F'
  }

  function HexValue(c: char): (v: nat)
    requires ReadsAsHex(c)
    ensures v < 16
  {
    if IsDigit(c) then DigitValue(c) else if 'a' <= c <= 'f' then c as nat - 'a' as nat + 10 else c as nat - 'A' as nat + 10
  }

  function PairOf(b: byte): (s: string)
    ensures |s| == 2
  {
    [HexChar(b as int / 16), HexChar(b as int % 16)]
  }

  /** bytes.hex() */
  function ToHex(bytes: seq<byte>): (s: string)
    ensures |s| == 2 * |bytes|
  {
    if bytes == [] then "" else PairOf(bytes[0]) + ToHex(bytes[1..])
  }

  predicate IsSpace(c: char) {
    c == ' ' || 9 <= c as int <= 13
  }

  /** bytes.fromhex(s): both cases, white space allowed between bytes. */
  function FromHex(s: string): Option<seq<byte>> {
    if s == "" then Some([])
    else if IsSpace(s[0]) then FromHex(s[1..])
    else if |s| < 2 || !ReadsAsHex(s[0]) || !ReadsAsHex(s[1]) then None
    else
      match FromHex(s[2..])
      case None => None
      case Some(rest) => Some([HexValue(s[0]) * 16 + HexValue(s[1])] + rest)
  }

  lemma HexCharRoundTrip(v: nat)
    requires v < 16
    ensures ReadsAsHex(HexChar(v)) && HexValue(HexChar(v)) == v && !IsSpace(HexChar(v)) && HexChar(v) != '$'
  {
  }

  lemma FromHexPair(x: char, y: char, rest: string)
    requires ReadsAsHex(x) && ReadsAsHex(y) && !IsSpace(x) && FromHex(rest).Some?
    ensures FromHex([x, y] + rest) == Some([HexValue(x) * 16 + HexValue(y)] + FromHex(rest).value)
  {
    assert ([x, y] + rest)[2..] == rest;
  }

  /** Hexadecimal text reads back as the bytes it was printed from. */
  lemma {:induction false} FromHexToHex(bytes: seq<byte>)
    ensures FromHex(ToHex(bytes)) == Some(bytes) && '$' !in ToHex(bytes)
  {
    if bytes != [] {
      var b: int := bytes[0];
      FromHexToHex(bytes[1..]);
      HexCharRoundTrip(b / 16);
      HexCharRoundTrip(b % 16);
      FromHexPair(HexChar(b / 16), HexChar(b % 16), ToHex(bytes[1..]));
      assert [bytes[0]] + bytes[1..] == bytes;
    }
  }

  // ---- hashing and verifying ----

  /** pbkdf2(password, salt, iterations) always has HASH_BYTES bytes. lenient: the language's int() outside plain digits. */
  datatype Env = Env(pbkdf2: (string, seq<byte>, int) -> seq<byte>, lenient: string -> Option<int>)

  ghost predicate Sound(e: Env) {
    forall password, salt, iterations :: |e.pbkdf2(password, salt, iterations)| == HASH_BYTES
  }

  function Print(iterations: nat, salt: seq<byte>, hash: seq<byte>): string {
    "$" + ALGORITHM + "$" + Decimal(iterations) + "$" + ToHex(salt) + "$" + ToHex(hash)
  }

  function HashPassword(e: Env, password: string, iterations: int, salt: seq<byte>): Option<string> {
    if iterations < MIN_ITERATIONS || iterations > MAX_ITERATIONS then None
    else Some(Print(iterations, salt, e.pbkdf2(password, salt, iterations)))
  }

  /** int(s), 0 when it is not a number. */
  function Iterations(e: Env, s: string): int {
    if s != "" && AllDigits(s) && |s| <= MAX_INT_DIGITS then DigitsValue(s)
    else match e.lenient(s) case None => 0 case Some(n) => n
  }

  function VerifyPassword(e: Env, password: string, stored: string): Outcome {
    if stored == "" || password == "" then Matches(false)
    else
      var parts := Split(stored, '$');
      if |parts| != 5 || parts[1] != ALGORITHM then Matches(false)
      else
        var iterations := Iterations(e, parts[2]);
        if iterations < MIN_ITERATIONS then Matches(false)
        else if iterations > MAX_ITERATIONS then ValueError
        else
          var salt, hash := FromHex(parts[3]), FromHex(parts[4]);
          if salt.None? || hash.None? then Matches(false)
          else if |parts[3]| != SALT_BYTES * 2 || |parts[4]| != HASH_BYTES * 2 then ValueError
          else Matches(e.pbkdf2(password, salt.value, iterations) == hash.value)
  }

  /** The characters of hexadecimal text and their values, in both cases. */
  lemma HexLetters(c: char)
    ensures ReadsAsHex(c) <==> c in "0123456789abcdefABCDEF"
    ensures IsSpace(c) <==> c in [' ', 9 as char, 10 as char, 11 as char, 12 as char, 13 as char]
    ensures ReadsAsHex(c) ==> "0123456789abcdef"[HexValue(c)] == c || "0123456789ABCDEF"[HexValue(c)] == c
  {
  }

  /** Spaces between bytes do not matter, within a byte they are refused; any pair of hexadecimal characters is a byte. */
  lemma FromHexInFields(x: char, y: char, rest: string)
    ensures IsSpace(x) ==> FromHex([x] + rest) == FromHex(rest)
    ensures !IsSpace(x) && (!ReadsAsHex(x) || !ReadsAsHex(y)) ==> FromHex([x, y] + rest) == None
    ensures ReadsAsHex(x) && ReadsAsHex(y) && FromHex(rest).Some? ==>
      FromHex([x, y] + rest) == Some([16 * HexValue(x) + HexValue(y)] + FromHex(rest).value)
    ensures FromHex("") == Some([]) && FromHex([x]) == if IsSpace(x) then Some([]) else None
  {
    assert ([x] + rest)[1..] == rest && ([x, y] + rest)[2..] == rest && [x][1..] == "";
  }

  /** Exactly when a password is accepted against any stored text: five fields of which the first is not looked at, the algorithm, an
      iteration count within bounds, and salt and hash of the right length that give the derived key. It raises exactly for
      counts above the bound, and for readable salts or hashes of a wrong length; everything else is refused. */
  lemma VerifyIff(e: Env, password: string, stored: string)
    ensures var parts, outcome := Split(stored, '$'), VerifyPassword(e, password, stored);
      var readable := password != "" && stored != "" && |parts| == 5 && parts[1] == "pbkdf2-sha256";
      var fits := readable && 10000 <= Iterations(e, parts[2]) <= 1000000
        && FromHex(parts[3]).Some? && FromHex(parts[4]).Some?;
      && (outcome == Matches(true) <==>
          fits && |parts[3]| == 32 && |parts[4]| == 64
          && e.pbkdf2(password, FromHex(parts[3]).value, Iterations(e, parts[2])) == FromHex(parts[4]).value)
      && (outcome == ValueError <==>
          (readable && Iterations(e, parts[2]) > 1000000) || (fits && (|parts[3]| != 32 || |parts[4]| != 64)))
  {
  }

  /** A count in plain digits is the number; what is neither that nor readable to the lenient parser counts as 0. */
  lemma IterationsRead(e: Env, s: string)
    ensures s != "" && (forall i :: 0 <= i < |s| ==> '0' <= s[i] <= '9') && |s| <= 4300 ==> Iterations(e, s) == DigitsValue(s)
    ensures s == "" && e.lenient(s).None? ==> Iterations(e, s) == 0
  {
  }

  // ---- print, then parse ----

  lemma DecimalShort(n: nat)
    requires n <= MAX_ITERATIONS
    ensures |Decimal(n)| <= 7
  {
    DecimalLength(n, 7);
  }

  lemma {:induction false} DecimalLength(n: nat, digits: nat)
    requires digits > 0 && n < Power10(digits)
    ensures |Decimal(n)| <= digits
  {
    if n >= 10 {
      DecimalLength(n / 10, digits - 1);
    }
  }

  function Power10(k: nat): nat {
    if k == 0 then 1 else 10 * Power10(k - 1)
  }

  lemma Regroup(a: string, b: string, c: string, d: string)
    ensures "$" + a + "$" + b + "$" + c + "$" + d == "" + ['$'] + (a + ['$'] + (b + ['$'] + (c + ['$'] + d)))
  {
  }

  lemma SplitTwo(a: string, b: string)
    requires '$' !in a && '$' !in b
    ensures Split(a + ['$'] + b, '$') == [a, b]
  {
    SplitWithout(b, '$');
    SplitField(a, '$', b);
  }

  lemma SplitFive(a: string, b: string, c: string, d: string)
    requires '$' !in a && '$' !in b && '$' !in c && '$' !in d
    ensures Split("$" + a + "$" + b + "$" + c + "$" + d, '$') == ["", a, b, c, d]
  {
    var cd := c + ['$'] + d;
    var bcd := b + ['$'] + cd;
    var abcd := a + ['$'] + bcd;
    Regroup(a, b, c, d);
    calc {
      Split("" + ['$'] + abcd, '$');
    == { SplitField("", '$', abcd); }
      [""] + Split(abcd, '$');
    == { SplitField(a, '$', bcd); }
      [""] + ([a] + Split(bcd, '$'));
    == { SplitField(b, '$', cd); }
      [""] + ([a] + ([b] + Split(cd, '$')));
    == { SplitTwo(c, d); }
      [""] + ([a] + ([b] + [c, d]));
    ==
      ["", a, b, c, d];
    }
  }

  lemma NoSeparator(iterations: nat, salt: seq<byte>)
    ensures '$' !in ALGORITHM && '$' !in Decimal(iterations) && '$' !in ToHex(salt)
  {
    FromHexToHex(salt);
  }

  lemma PrintedFields(iterations: nat, salt: seq<byte>, hash: seq<byte>)
    ensures Split(Print(iterations, salt, hash), '$') == ["", ALGORITHM, Decimal(iterations), ToHex(salt), ToHex(hash)]
  {
    NoSeparator(iterations, salt);
    NoSeparator(iterations, hash);
    SplitFive(ALGORITHM, Decimal(iterations), ToHex(salt), ToHex(hash));
  }

  /** Every printed string, in all cases: too few iterations are refused, too many and fields of the wrong length raise, and
      otherwise the derived keys decide. */
  lemma VerifyPrinted(e: Env, attempt: string, iterations: nat, salt: seq<byte>, hash: seq<byte>)
    requires |Decimal(iterations)| <= MAX_INT_DIGITS
    ensures VerifyPassword(e, attempt, Print(iterations, salt, hash)) == (
      if attempt == "" || iterations < MIN_ITERATIONS then Matches(false)
      else if iterations > MAX_ITERATIONS || |salt| != SALT_BYTES || |hash| != HASH_BYTES then ValueError
      else Matches(e.pbkdf2(attempt, salt, iterations) == hash))
  {
    PrintedFields(iterations, salt, hash);
    FromHexToHex(salt);
    FromHexToHex(hash);
    assert Iterations(e, Decimal(iterations)) == iterations;
  }

  /** A hash is read back as it was printed: verification never raises, and succeeds exactly for passwords
      that derive the same key. */
  lemma HashThenVerifyIff(e: Env, password: string, attempt: string, iterations: int, salt: seq<byte>)
    requires Sound(e) && MIN_ITERATIONS <= iterations <= MAX_ITERATIONS && |salt| == SALT_BYTES
    ensures HashPassword(e, password, iterations, salt).Some?
    ensures VerifyPassword(e, attempt, HashPassword(e, password, iterations, salt).value)
      == Matches(attempt != "" && e.pbkdf2(attempt, salt, iterations) == e.pbkdf2(password, salt, iterations))
  {
    DecimalShort(iterations);
    VerifyPrinted(e, attempt, iterations, salt, e.pbkdf2(password, salt, iterations));
  }

  /** The round trip. */
  lemma HashThenVerify(e: Env, password: string, iterations: int, salt: seq<byte>)
    requires Sound(e) && password != "" && MIN_ITERATIONS <= iterations <= MAX_ITERATIONS && |salt| == SALT_BYTES
    ensures VerifyPassword(e, password, HashPassword(e, password, iterations, salt).value) == Matches(true)
  {
    HashThenVerifyIff(e, password, password, iterations, salt);
  }

  /** Printed strings determine their fields. */
  lemma PrintInjective(i: nat, salt: seq<byte>, hash: seq<byte>, j: nat, salt': seq<byte>, hash': seq<byte>)
    requires Print(i, salt, hash) == Print(j, salt', hash')
    ensures i == j && salt == salt' && hash == hash'
  {
    PrintedFields(i, salt, hash);
    PrintedFields(j, salt', hash');
    var a, b := Split(Print(i, salt, hash), '$'), Split(Print(j, salt', hash'), '$');
    assert a[2] == b[2] && a[3] == b[3] && a[4] == b[4];
    DecimalInjective(i, j);
    FromHexToHex(salt);
    FromHexToHex(salt');
    FromHexToHex(hash);
    FromHexToHex(hash');
  }
}
