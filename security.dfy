/**
 * Auth tokens and random codes (lib/security.ts).
 *
 * An auth token is `token_<base36 timestamp>_<random>`. The clock reading and the
 * random draws are parameters: a draw of `Math.random()` is a real in [0, 1), a draw of
 * the platform's crypto source is a byte.
 */
module Security {
  import opened Common
  import opened Text
  import opened Numeric
  import Validation

  type Byte = x: int | 0 <= x < 256

  /** The base64url alphabet; the `Math.random` fallback draws from the same 64 characters. */
  const TokenAlphabet: string := "ABCDEFGHIJKLMNOPQRSTUVWXYZ" + "abcdefghijklmnopqrstuvwxyz" + "0123456789" + "-_"

  /** The 36 characters of a couple code. */
  const CodeAlphabet: string := "ABCDEFGHIJKLMNOPQRSTUVWXYZ0123456789"

  /** `30 * 24 * 60 * 60 * 1000` milliseconds. */
  const ThirtyDaysMs: int := 2592000000

  /** `[A-Za-z0-9_-]` */
  predicate IsTokenChar(c: char) {
    IsUpperAscii(c) || IsLowerAscii(c) || IsDigitChar(c) || c == '_' || c == '-'
  }

  predicate AllTokenChars(s: string) { forall i :: 0 <= i < |s| ==> IsTokenChar(s[i]) }

  predicate AllLowerAlnum(s: string) { forall i :: 0 <= i < |s| ==> IsLowerAlnum(s[i]) }

  /** The character of base64url digit `v`: `A-Z`, `a-z`, `0-9`, then `-` and `_`. */
  function SextetChar(v: nat): (c: char)
    requires v < 64
    ensures IsTokenChar(c)
  {
    if v < 26 then ('A' as int + v) as char
    else if v < 52 then ('a' as int + v - 26) as char
    else if v < 62 then ('0' as int + v - 52) as char
    else if v == 62 then '-'
    else '_'
  }

  /** The character of couple-code symbol `v`: `A-Z`, then `0-9`. */
  function CodeChar(v: nat): (c: char)
    requires v < 36
    ensures IsUpperAlnum(c)
  {
    if v < 26 then ('A' as int + v) as char else ('0' as int + v - 26) as char
  }

  function UpperRun(): string { seq(26, i requires 0 <= i < 26 => SextetChar(i)) }
  function LowerRun(): string { seq(26, i requires 0 <= i < 26 => SextetChar(i + 26)) }
  function DigitRun(): string { seq(10, i requires 0 <= i < 10 => SextetChar(i + 52)) }

  lemma RunsSpelled()
    ensures UpperRun() == "ABCDEFGHIJKLMNOPQRSTUVWXYZ"
    ensures LowerRun() == "abcdefghijklmnopqrstuvwxyz"
    ensures DigitRun() == "0123456789"
  {
    assert UpperRun() == "ABCDEFGHIJKLMNOPQRSTUVWXYZ";
    assert LowerRun() == "abcdefghijklmnopqrstuvwxyz";
  }

  lemma TokenAlphabetSpelled()
    ensures |TokenAlphabet| == 64
    ensures forall i :: 0 <= i < 64 ==> TokenAlphabet[i] == SextetChar(i)
  {
    RunsSpelled();
    var runs := UpperRun() + LowerRun() + DigitRun() + "-_";
    assert TokenAlphabet == runs;
    forall i | 0 <= i < 64 ensures runs[i] == SextetChar(i) {
      if i < 26 {
        assert runs[i] == UpperRun()[i];
      } else if i < 52 {
        assert runs[i] == LowerRun()[i - 26];
      } else if i < 62 {
        assert runs[i] == DigitRun()[i - 52];
      }
    }
  }

  lemma CodeAlphabetSpelled()
    ensures |CodeAlphabet| == 36
    ensures forall i :: 0 <= i < 36 ==> CodeAlphabet[i] == CodeChar(i)
  {
    assert seq(36, i requires 0 <= i < 36 => CodeChar(i)) == CodeAlphabet;
  }

  /** `Math.floor(draw * size)` for a draw in [0, 1): an index into an alphabet of `size` characters. */
  function DrawIndex(draw: real, size: nat): (i: nat)
    requires 0.0 <= draw < 1.0 && size > 0
    ensures i < size
  {
    var x := draw * size as real;
    assert x < size as real;
    x.Floor
  }

  predicate ValidDraws(draws: seq<real>) { forall i :: 0 <= i < |draws| ==> 0.0 <= draws[i] < 1.0 }

  // ---------------------------------------------------------------- base64url

  predicate AllSextets(sx: seq<int>) { forall i :: 0 <= i < |sx| ==> 0 <= sx[i] < 64 }

  /** The four 6-bit groups of three bytes. */
  function GroupSextets(x: Byte, y: Byte, z: Byte): (r: seq<int>)
    ensures |r| == 4 && AllSextets(r)
  {
    [x / 4, (x % 4) * 16 + y / 16, (y % 16) * 4 + z / 64, z % 64]
  }

  /** The three bytes held by four 6-bit groups. */
  function GroupBytes(a: int, b: int, c: int, d: int): seq<Byte>
    requires 0 <= a < 64 && 0 <= b < 64 && 0 <= c < 64 && 0 <= d < 64
  {
    [a * 4 + b / 16, (b % 16) * 16 + c / 4, (c % 4) * 64 + d]
  }

  lemma GroupRoundTrip(x: Byte, y: Byte, z: Byte)
    ensures var g := GroupSextets(x, y, z); GroupBytes(g[0], g[1], g[2], g[3]) == [x, y, z]
  {
    var b, c := (x % 4) * 16 + y / 16, (y % 16) * 4 + z / 64;
    assert b / 16 == x % 4 && b % 16 == y / 16;
    assert c / 4 == y % 16 && c % 4 == z / 64;
  }

  /** The 6-bit groups of `bytes`; a trailing one or two bytes give two or three groups, the last
    * padded with zero bits. */
  function Sextets(bytes: seq<Byte>): (r: seq<int>)
    ensures |r| == (4 * |bytes| + 2) / 3 && AllSextets(r)
  {
    if |bytes| == 0 then []
    else if |bytes| == 1 then GroupSextets(bytes[0], 0, 0)[..2]
    else if |bytes| == 2 then GroupSextets(bytes[0], bytes[1], 0)[..3]
    else GroupSextets(bytes[0], bytes[1], bytes[2]) + Sextets(bytes[3..])
  }

  /** Bytes back from 6-bit groups; `None` when a single group is left over or the padding bits are not zero. */
  function FromSextets(sx: seq<int>): Option<seq<Byte>>
    requires AllSextets(sx)
  {
    if |sx| == 0 then Some([])
    else if |sx| == 1 then None
    else if |sx| == 2 then
      if sx[1] % 16 != 0 then None else Some(GroupBytes(sx[0], sx[1], 0, 0)[..1])
    else if |sx| == 3 then
      if sx[2] % 4 != 0 then None else Some(GroupBytes(sx[0], sx[1], sx[2], 0)[..2])
    else match FromSextets(sx[4..])
      case None => None
      case Some(rest) => Some(GroupBytes(sx[0], sx[1], sx[2], sx[3]) + rest)
  }

  lemma {:induction false} SextetsRoundTrip(bytes: seq<Byte>)
    ensures FromSextets(Sextets(bytes)) == Some(bytes)
    decreases |bytes|
  {
    if |bytes| == 1 {
      var x := bytes[0];
      var g := GroupSextets(x, 0, 0);
      GroupRoundTrip(x, 0, 0);
      assert g[1] == (x % 4) * 16 && g[2] == 0 && g[3] == 0;
      assert (x % 4) * 16 % 16 == 0;
      assert Sextets(bytes) == g[..2];
      assert GroupBytes(g[0], g[1], 0, 0)[..1] == [x];
      assert bytes == [x];
    } else if |bytes| == 2 {
      var x, y := bytes[0], bytes[1];
      var g := GroupSextets(x, y, 0);
      GroupRoundTrip(x, y, 0);
      assert g[2] == (y % 16) * 4 && g[3] == 0;
      assert (y % 16) * 4 % 4 == 0;
      assert Sextets(bytes) == g[..3];
      assert GroupBytes(g[0], g[1], g[2], 0)[..2] == [x, y];
      assert bytes == [x, y];
    } else if |bytes| >= 3 {
      var g := GroupSextets(bytes[0], bytes[1], bytes[2]);
      var sx := Sextets(bytes);
      SextetsRoundTrip(bytes[3..]);
      GroupRoundTrip(bytes[0], bytes[1], bytes[2]);
      assert sx[..4] == g && sx[4..] == Sextets(bytes[3..]);
      assert bytes == [bytes[0], bytes[1], bytes[2]] + bytes[3..];
    }
  }

  /** The base64url text of `bytes`, without `=` padding: what `btoa` followed by the three
    * replacements, and Node's `toString('base64url')`, both produce. */
  function Base64Url(bytes: seq<Byte>): (r: string)
    ensures |r| == (4 * |bytes| + 2) / 3
    ensures AllTokenChars(r)
  {
    var sx := Sextets(bytes);
    seq(|sx|, i requires 0 <= i < |sx| => SextetChar(sx[i]))
  }

  /** The position of a base64url character in the alphabet, or -1. */
  function SextetOf(c: char): (v: int)
    ensures -1 <= v < 64
    ensures v >= 0 ==> SextetChar(v) == c
    ensures v == -1 <==> !IsTokenChar(c)
  {
    if IsUpperAscii(c) then c as int - 'A' as int
    else if IsLowerAscii(c) then c as int - 'a' as int + 26
    else if IsDigitChar(c) then c as int - '0' as int + 52
    else if c == '-' then 62
    else if c == '_' then 63
    else -1
  }

  lemma SextetOfChar(v: nat)
    requires v < 64
    ensures SextetOf(SextetChar(v)) == v
  {
  }

  /** Reading base64url text back into bytes; the inverse of `Base64Url`. */
  function Base64UrlDecode(s: string): Option<seq<Byte>>
  {
    if !AllTokenChars(s) then None
    else FromSextets(seq(|s|, i requires 0 <= i < |s| => SextetOf(s[i])))
  }

  /** Every byte string survives encoding: the token's random part carries all of its bytes. */
  lemma Base64UrlRoundTrip(bytes: seq<Byte>)
    ensures Base64UrlDecode(Base64Url(bytes)) == Some(bytes)
  {
    var sx := Sextets(bytes);
    var s := Base64Url(bytes);
    forall i | 0 <= i < |sx| ensures SextetOf(s[i]) == sx[i] {
      SextetOfChar(sx[i]);
    }
    assert seq(|s|, i requires 0 <= i < |s| => SextetOf(s[i])) == sx;
    SextetsRoundTrip(bytes);
  }

  // ---------------------------------------------------------------- secure token

  /** Where `generateSecureToken` gets its randomness: the browser's `crypto.getRandomValues`,
    * Node's `randomBytes`, or (when neither is available) `Math.random`. */
  datatype Entropy = WebCrypto(bytes: seq<Byte>) | NodeCrypto(bytes: seq<Byte>) | MathRandom(draws: seq<real>)

  predicate EntropyFor(env: Entropy, length: nat) {
    match env
    case WebCrypto(bytes) => |bytes| == length
    case NodeCrypto(bytes) => |bytes| == length
    case MathRandom(draws) => |draws| >= 2 * length && ValidDraws(draws)
  }

  /** The `Math.random` fallback: `2 * length` characters, each drawn from the 64-character alphabet. */
  method FallbackToken(length: nat, draws: seq<real>) returns (result: string)
    requires |draws| >= 2 * length && ValidDraws(draws)
    ensures |result| == 2 * length
    ensures forall i :: 0 <= i < |result| ==> result[i] == TokenAlphabet[DrawIndex(draws[i], 64)]
    ensures AllTokenChars(result)
  {
    TokenAlphabetSpelled();
    result := "";
    for i := 0 to 2 * length
      invariant |result| == i
      invariant forall j :: 0 <= j < i ==> result[j] == TokenAlphabet[DrawIndex(draws[j], 64)]
      invariant AllTokenChars(result)
    {
      result := result + [TokenAlphabet[DrawIndex(draws[i], 64)]];
    }
  }

  /** `generateSecureToken(length)`: base64url of `length` random bytes when a crypto source exists,
    * otherwise the `Math.random` fallback. Either way the text is over `[A-Za-z0-9_-]`. */
  method GenerateSecureToken(length: nat, env: Entropy) returns (token: string)
    requires EntropyFor(env, length)
    ensures AllTokenChars(token)
    ensures !env.MathRandom? ==> token == Base64Url(env.bytes)
    ensures !env.MathRandom? ==> Base64UrlDecode(token) == Some(env.bytes)
    ensures env.MathRandom? ==> |token| == 2 * length
    ensures length > 0 ==> token != []
  {
    match env {
      case WebCrypto(bytes) =>
        token := Base64Url(bytes);
        Base64UrlRoundTrip(bytes);
      case NodeCrypto(bytes) =>
        token := Base64Url(bytes);
        Base64UrlRoundTrip(bytes);
      case MathRandom(draws) =>
        token := FallbackToken(length, draws);
    }
  }

  // ---------------------------------------------------------------- auth token

  /** `generateAuthToken()` with `Date.now()` as `timestamp` and `generateSecureToken(16)` as `randomPart`. */
  function GenerateAuthToken(timestamp: nat, randomPart: string): (token: string)
    ensures |token| >= 8 + |randomPart|
    ensures token[..6] == "token_"
    ensures token[|token| - |randomPart|..] == randomPart
  {
    "token_" + ToRadixString(timestamp, 36) + "_" + randomPart
  }

  /** The longest prefix of `s` over `[a-z0-9]`. */
  function LowerAlnumRun(s: string): (k: nat)
    ensures k <= |s|
    ensures forall i :: 0 <= i < k ==> IsLowerAlnum(s[i])
    ensures k < |s| ==> !IsLowerAlnum(s[k])
  {
    if s == [] || !IsLowerAlnum(s[0]) then 0 else 1 + LowerAlnumRun(s[1..])
  }

  /** `isValidTokenFormat`: the regular expression `^token_[a-z0-9]+_[A-Za-z0-9_-]+$`, matched left to right.
    * The run `[a-z0-9]+` cannot contain `_`, so it ends at the first `_` after the prefix. */
  function IsValidTokenFormat(token: string): (r: bool)
    ensures r ==> |token| >= 9 && token[..6] == "token_" && '_' in token[7..]
  {
    |token| > 6 && token[..6] == "token_" &&
    var rest := token[6..];
    var k := LowerAlnumRun(rest);
    0 < k && k + 1 < |rest| && rest[k] == '_' && AllTokenChars(rest[k + 1..])
  }

  /** The language of the regular expression, stated by its parts. */
  ghost predicate TokenShape(token: string, stamp: string, tail: string) {
    |stamp| > 0 && AllLowerAlnum(stamp) && |tail| > 0 && AllTokenChars(tail)
    && token == "token_" + stamp + "_" + tail
  }

  ghost predicate MatchesTokenPattern(token: string) {
    exists stamp, tail :: TokenShape(token, stamp, tail)
  }

  /** The left-to-right check accepts exactly the strings the regular expression describes. */
  lemma TokenFormatIsPattern(token: string)
    ensures IsValidTokenFormat(token) <==> MatchesTokenPattern(token)
  {
    if IsValidTokenFormat(token) {
      var rest := token[6..];
      var k := LowerAlnumRun(rest);
      var stamp, tail := rest[..k], rest[k + 1..];
      assert token == "token_" + stamp + "_" + tail by {
        assert rest == stamp + "_" + tail;
        assert token == token[..6] + rest;
      }
      assert TokenShape(token, stamp, tail);
    }
    if MatchesTokenPattern(token) {
      var stamp, tail :| TokenShape(token, stamp, tail);
      var rest := token[6..];
      assert rest == stamp + "_" + tail;
      var k := LowerAlnumRun(rest);
      assert |stamp| < |rest| && rest[|stamp|] == '_' && !IsLowerAlnum(rest[|stamp|]);
      assert forall i :: 0 <= i < |stamp| ==> rest[i] == stamp[i];
      assert k == |stamp|;
      assert rest[k + 1..] == tail;
    }
  }

  /** A generated token passes the format check whenever its random part is non-empty over `[A-Za-z0-9_-]`. */
  lemma GeneratedTokenFormatValid(timestamp: nat, randomPart: string)
    requires |randomPart| > 0 && AllTokenChars(randomPart)
    ensures IsValidTokenFormat(GenerateAuthToken(timestamp, randomPart))
  {
    var stamp := ToRadixString(timestamp, 36);
    assert AllLowerAlnum(stamp);
    assert TokenShape(GenerateAuthToken(timestamp, randomPart), stamp, randomPart);
    TokenFormatIsPattern(GenerateAuthToken(timestamp, randomPart));
  }

  // ---------------------------------------------------------------- split on '_'

  /** `s.split(sep)` for a one-character separator. */
  function SplitOn(s: string, sep: char): (parts: seq<string>)
    ensures |parts| >= 1
    ensures forall i :: 0 <= i < |parts| ==> sep !in parts[i]
    ensures Join(parts, sep) == s
    decreases |s|
  {
    if s == [] then [[]]
    else
      var rest := SplitOn(s[1..], sep);
      if s[0] == sep then
        assert ([[]] + rest)[1..] == rest;
        [[]] + rest
      else
        var parts := [[s[0]] + rest[0]] + rest[1..];
        assert parts[1..] == rest[1..];
        assert s == [s[0]] + s[1..];
        parts
  }

  /** `parts.join(sep)`. */
  function Join(parts: seq<string>, sep: char): string
    requires |parts| >= 1
  {
    if |parts| == 1 then parts[0] else parts[0] + [sep] + Join(parts[1..], sep)
  }

  /** Text without the separator splits into itself. */
  lemma {:induction false} SplitWhole(s: string, sep: char)
    requires sep !in s
    ensures SplitOn(s, sep) == [s]
    decreases |s|
  {
    if s != [] {
      SplitWhole(s[1..], sep);
      assert s == [s[0]] + s[1..];
    }
  }

  /** Splitting stops at the first separator. */
  lemma {:induction false} SplitFirst(a: string, sep: char, s: string)
    requires sep !in a
    ensures SplitOn(a + [sep] + s, sep) == [a] + SplitOn(s, sep)
    decreases |a|
  {
    if a == [] {
      assert a + [sep] + s == [sep] + s;
      assert ([sep] + s)[1..] == s;
    } else {
      SplitFirst(a[1..], sep, s);
      assert (a + [sep] + s)[1..] == a[1..] + [sep] + s;
      assert a == [a[0]] + a[1..];
    }
  }

  /** Joining parts free of the separator and splitting again gives the parts back. */
  lemma {:induction false} SplitJoin(parts: seq<string>, sep: char)
    requires |parts| >= 1
    requires forall i :: 0 <= i < |parts| ==> sep !in parts[i]
    ensures SplitOn(Join(parts, sep), sep) == parts
    decreases |parts|
  {
    if |parts| == 1 {
      SplitWhole(parts[0], sep);
    } else {
      SplitJoin(parts[1..], sep);
      SplitFirst(parts[0], sep, Join(parts[1..], sep));
      assert parts == [parts[0]] + parts[1..];
    }
  }

  /** Text holding the separator splits into at least two parts. */
  lemma {:induction false} SplitAtSeparator(s: string, sep: char)
    requires sep in s
    ensures |SplitOn(s, sep)| >= 2
    decreases |s|
  {
    if s[0] != sep {
      assert sep in s[1..] by {
        var i :| 0 <= i < |s| && s[i] == sep;
        assert s[1..][i - 1] == sep;
      }
      SplitAtSeparator(s[1..], sep);
    }
  }

  // ---------------------------------------------------------------- expiry

  /** `isTokenExpired(token)` at clock reading `now` (ms). A token that does not split into exactly
    * `token`, a timestamp and one more part is expired; a timestamp `parseInt` cannot read is
    * `NaN`, and `NaN < x` is false. */
  function IsTokenExpired(token: string, now: int): (r: bool)
    ensures !r ==> |SplitOn(token, '_')| == 3 && SplitOn(token, '_')[0] == "token"
  {
    var parts := SplitOn(token, '_');
    if |parts| != 3 || parts[0] != "token" then true
    else match ParseInt(parts[1], 36)
      case None => false
      case Some(timestamp) => timestamp < now - ThirtyDaysMs
  }

  /** The parts a generated token splits into, when its random part has no `_`. */
  lemma GeneratedTokenParts(timestamp: nat, randomPart: string)
    requires '_' !in randomPart
    ensures SplitOn(GenerateAuthToken(timestamp, randomPart), '_') == ["token", ToRadixString(timestamp, 36), randomPart]
  {
    var stamp := ToRadixString(timestamp, 36);
    assert '_' !in stamp;
    var parts := ["token", stamp, randomPart];
    assert Join(parts, '_') == GenerateAuthToken(timestamp, randomPart) by {
      assert parts[1..] == [stamp, randomPart];
      assert parts[1..][1..] == [randomPart];
      assert Join([stamp, randomPart], '_') == stamp + "_" + randomPart;
    }
    SplitJoin(parts, '_');
  }

  /** A generated token with a `_`-free random part expires exactly when its timestamp is more than
    * thirty days before `now`. */
  lemma TokenExpiryWindow(timestamp: nat, randomPart: string, now: int)
    requires '_' !in randomPart
    ensures IsTokenExpired(GenerateAuthToken(timestamp, randomPart), now) <==> timestamp < now - ThirtyDaysMs
  {
    GeneratedTokenParts(timestamp, randomPart);
    RadixParseRoundTrip(timestamp, 36);
  }

  /** A token stays valid up to and including the moment thirty days after it was issued. */
  lemma FreshTokenUnexpired(timestamp: nat, randomPart: string, now: int)
    requires '_' !in randomPart
    requires now <= timestamp + ThirtyDaysMs
    ensures !IsTokenExpired(GenerateAuthToken(timestamp, randomPart), now)
  {
    TokenExpiryWindow(timestamp, randomPart, now);
  }

  /** A random part holding `_` (the base64url alphabet has one) adds parts to the split, so the
    * token counts as expired from the moment it is issued, although its format is valid. */
  lemma UnderscoreInRandomPartExpires(timestamp: nat, randomPart: string, now: int)
    requires '_' in randomPart
    ensures IsTokenExpired(GenerateAuthToken(timestamp, randomPart), now)
  {
    var stamp := ToRadixString(timestamp, 36);
    var token := GenerateAuthToken(timestamp, randomPart);
    assert token == "token" + ['_'] + (stamp + ['_'] + randomPart);
    SplitFirst("token", '_', stamp + ['_'] + randomPart);
    assert '_' !in stamp;
    SplitFirst(stamp, '_', randomPart);
    SplitAtSeparator(randomPart, '_');
  }

  /** Anything that does not begin with `token_` is expired. */
  lemma ForeignTokenExpires(token: string, now: int)
    requires !(|token| >= 6 && token[..6] == "token_")
    ensures IsTokenExpired(token, now)
  {
  }

  /** A timestamp part `parseInt` cannot read never expires: `token__x` is never expired, although
    * its format is invalid. */
  lemma UnreadableTimestampNeverExpires(tail: string, now: int)
    requires '_' !in tail
    ensures !IsTokenExpired("token__" + tail, now)
    ensures !IsValidTokenFormat("token__" + tail)
  {
    var parts := ["token", "", tail];
    assert Join(parts, '_') == "token__" + tail by {
      assert parts[1..] == ["", tail];
      assert parts[1..][1..] == [tail];
      assert Join(["", tail], '_') == "_" + tail;
    }
    SplitJoin(parts, '_');
    assert ("token__" + tail)[6..][0] == '_';
  }

  // ---------------------------------------------------------------- couple code

  /** `generateSecureCoupleCode(length)`: `length` characters, each `characters[floor(draw * 36)]`. */
  method GenerateSecureCoupleCode(length: nat, draws: seq<real>) returns (result: string)
    requires |draws| >= length && ValidDraws(draws)
    ensures |result| == length
    ensures forall i :: 0 <= i < length ==> result[i] == CodeAlphabet[DrawIndex(draws[i], 36)]
    ensures length == 6 ==> Validation.IsCodePattern(result)
  {
    CodeAlphabetSpelled();
    result := "";
    for i := 0 to length
      invariant |result| == i
      invariant forall j :: 0 <= j < i ==> result[j] == CodeAlphabet[DrawIndex(draws[j], 36)]
    {
      result := result + [CodeAlphabet[DrawIndex(draws[i], 36)]];
    }
  }
}
