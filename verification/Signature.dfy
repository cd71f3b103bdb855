/**
  The signature header of a hand-off: how it is printed, how it is parsed, and what is rebuilt
  for verification. HMAC is any function of secret and text; hex is section 8 of RFC 4648 in
  lower case.
 */
module Signature {
  import opened Types

  type Byte = n: nat | n < 256

  type Mac = (seq<Byte>, string) -> seq<Byte>

  // ---------- decimal numbers ----------

  function Digit(d: nat): char
    requires d < 10
  {
    ('0' as int + d) as char
  }

  predicate IsDigit(c: char) {
    '0' <= c <= '9'
  }

  function Digits(n: nat): (s: string)
    ensures s != [] && forall i | 0 <= i < |s| :: IsDigit(s[i])
  {
    if n < 10 then [Digit(n)] else Digits(n / 10) + [Digit(n % 10)]
  }

  function FormatInt(n: int): string {
    if n < 0 then "-" + Digits(-n) else Digits(n)
  }

  /** The number a string of digits denotes. */
  function Value(s: string): nat
    requires forall i | 0 <= i < |s| :: IsDigit(s[i])
  {
    if s == [] then 0 else
    var k := |s| - 1;
    assert IsDigit(s[k]);
    10 * Value(s[..k]) + (s[k] as int - '0' as int)
  }

  const TWO63: int := 0x8000_0000_0000_0000

  predicate IsInt64(n: int) {
    -TWO63 <= n < TWO63
  }

  predicate HasSign(s: string) {
    s != [] && (s[0] == '-' || s[0] == '+')
  }

  predicate AllDigits(s: string) {
    forall i | 0 <= i < |s| :: IsDigit(s[i])
  }

  /** Decimal with an optional sign; anything else and anything out of range is an error. */
  function ParseInt(s: string): Option<int> {
    var digits := if HasSign(s) then s[1..] else s;
    if digits == [] || !AllDigits(digits) then None else
    var n := if HasSign(s) && s[0] == '-' then 0 - Value(digits) else Value(digits);
    if IsInt64(n) then Some(n) else None
  }

  lemma {:induction false} ValueOfDigits(n: nat)
    ensures Value(Digits(n)) == n
  {
    if n >= 10 {
      ValueOfDigits(n / 10);
      var s := Digits(n);
      assert s[..|s| - 1] == Digits(n / 10);
    }
  }

  /** Every 64-bit number is read back as it was printed. */
  lemma ParseFormat(n: int)
    requires IsInt64(n)
    ensures ParseInt(FormatInt(n)) == Some(n)
  {
    var digits := Digits(if n < 0 then -n else n);
    ValueOfDigits(if n < 0 then -n else n);
    if n < 0 {
      assert FormatInt(n)[1..] == digits;
    } else {
      assert IsDigit(digits[0]);
    }
  }

  // ---------- hex ----------

  function HexDigit(d: nat): char
    requires d < 16
  {
    if d < 10 then ('0' as int + d) as char else ('a' as int + (d - 10)) as char
  }

  predicate IsHexDigit(c: char) {
    '0' <= c <= '9' || 'a' <= c <= 'f'
  }

  function HexValue(c: char): (d: nat)
    requires IsHexDigit(c)
    ensures d < 16
  {
    if '0' <= c <= '9' then c as int - '0' as int else c as int - 'a' as int + 10
  }

  function EncodeHex(bytes: seq<Byte>): (s: string)
    ensures |s| == 2 * |bytes| && forall i | 0 <= i < |s| :: IsHexDigit(s[i])
  {
    if bytes == [] then [] else
    [HexDigit(bytes[0] / 16), HexDigit(bytes[0] % 16)] + EncodeHex(bytes[1..])
  }

  function DecodeHex(s: string): Option<seq<Byte>> {
    if s == [] then Some([])
    else if |s| == 1 || !IsHexDigit(s[0]) || !IsHexDigit(s[1]) then None
    else
      match DecodeHex(s[2..])
      case None => None
      case Some(rest) => Some([16 * HexValue(s[0]) + HexValue(s[1])] + rest)
  }

  lemma {:induction false} DecodeEncodeHex(bytes: seq<Byte>)
    ensures DecodeHex(EncodeHex(bytes)) == Some(bytes)
  {
    if bytes != [] {
      DecodeEncodeHex(bytes[1..]);
      assert EncodeHex(bytes)[2..] == EncodeHex(bytes[1..]);
      assert bytes == [bytes[0]] + bytes[1..];
    }
  }

  /** Only the encoding of the bytes decodes to them. */
  lemma {:induction false} EncodeDecodeHex(s: string, bytes: seq<Byte>)
    requires DecodeHex(s) == Some(bytes)
    ensures EncodeHex(bytes) == s
    decreases |s|
  {
    if s != [] {
      EncodeDecodeHex(s[2..], DecodeHex(s[2..]).value);
      assert bytes[1..] == DecodeHex(s[2..]).value;
      assert bytes[0] / 16 == HexValue(s[0]) && bytes[0] % 16 == HexValue(s[1]);
      assert s == [s[0], s[1]] + s[2..];
    }
  }

  // ---------- printing ----------

  /** The text that is signed. */
  function Payload(timestamp: int, body: string): string {
    FormatInt(timestamp) + "." + body
  }

  function Header(timestamp: int, signature: string): string {
    "t=" + FormatInt(timestamp) + "," + "v1=" + signature
  }

  function SignPayload(mac: Mac, secret: seq<Byte>, timestamp: int, body: string): string {
    Header(timestamp, EncodeHex(mac(secret, Payload(timestamp, body))))
  }

  // ---------- parsing ----------

  function Split(s: string, sep: char): (parts: seq<string>)
    ensures |parts| >= 1
  {
    if s == [] then [[]]
    else if s[0] == sep then [[]] + Split(s[1..], sep)
    else
      var parts := Split(s[1..], sep);
      [[s[0]] + parts[0]] + parts[1..]
  }

  predicate IsSpace(c: char) {
    || c in ['\t', '\n', '\U{000b}', '\U{000c}', '\r', ' ', '\U{0085}', '\U{00a0}']
    || c in ['\U{1680}', '\U{2028}', '\U{2029}', '\U{202f}', '\U{205f}', '\U{3000}']
    || '\U{2000}' <= c <= '\U{200a}'
  }

  function TrimLeft(s: string): string {
    if s != [] && IsSpace(s[0]) then TrimLeft(s[1..]) else s
  }

  function TrimRight(s: string): string {
    if s != [] && IsSpace(s[|s| - 1]) then TrimRight(s[..|s| - 1]) else s
  }

  function TrimSpace(s: string): string {
    TrimRight(TrimLeft(s))
  }

  const STAMP := "t="
  const VERSION := "v1="

  /** What the loop has found so far. */
  datatype Found = Found(timestamp: Option<int>, signature: Option<string>)

  function AddPart(found: Found, part: string): Option<Found> {
    var p := TrimSpace(part);
    if STAMP <= p then
      match ParseInt(p[|STAMP|..])
      case None => None
      case Some(t) => Some(found.(timestamp := Some(t)))
    else if VERSION <= p then Some(found.(signature := Some(p[|VERSION|..])))
    else Some(found)
  }

  function AddParts(parts: seq<string>): Option<Found> {
    if parts == [] then Some(Found(None, None)) else
    var k := |parts| - 1;
    match AddParts(parts[..k])
    case None => None
    case Some(found) => AddPart(found, parts[k])
  }

  function ParseHeader(header: string): Option<(int, string)> {
    var parts := Split(header, ',');
    if |parts| != 2 then None else
    match AddParts(parts)
    case Some(Found(Some(t), Some(signature))) => Some((t, signature))
    case _ => None
  }

  method ParseSignatureHeader(header: string) returns (r: Option<(int, string)>)
    ensures r == ParseHeader(header)
  {
    var parts := Split(header, ',');
    if |parts| != 2 { return None; }
    var found := Found(None, None);
    var i := 0;
    while i < |parts|
      invariant 0 <= i <= |parts| && AddParts(parts[..i]) == Some(found)
    {
      assert parts[..i + 1][..i] == parts[..i];
      var part := TrimSpace(parts[i]);
      if STAMP <= part {
        var t := ParseInt(part[|STAMP|..]);
        if t.None? {
          NoneStays(parts, i + 1);
          return None;
        }
        found := found.(timestamp := t);
      } else if VERSION <= part {
        found := found.(signature := Some(part[|VERSION|..]));
      }
      i := i + 1;
    }
    assert parts[..i] == parts;
    if found.timestamp.None? || found.signature.None? { return None; }
    return Some((found.timestamp.value, found.signature.value));
  }

  lemma {:induction false} NoneStays(parts: seq<string>, i: nat)
    requires i <= |parts| && AddParts(parts[..i]) == None
    ensures AddParts(parts) == None
    decreases |parts|
  {
    if i == |parts| {
      assert parts[..i] == parts;
    } else {
      var k := |parts| - 1;
      assert parts[..k][..i] == parts[..i];
      NoneStays(parts[..k], i);
    }
  }

  // ---------- the parser accepts exactly the two parts, in either order ----------

  /** The header is two parts, one a timestamp and one a signature, with spaces around each. */
  ghost predicate Accepts(header: string, timestamp: int, signature: string) {
    exists a, b :: header == a + "," + b && ',' !in a && ',' !in b && IsPair(a, b, timestamp, signature)
  }

  ghost predicate IsPair(a: string, b: string, timestamp: int, signature: string) {
    (IsStamp(a, timestamp) && IsVersion(b, signature)) || (IsVersion(a, signature) && IsStamp(b, timestamp))
  }

  ghost predicate IsStamp(part: string, timestamp: int) {
    exists digits :: TrimSpace(part) == STAMP + digits && ParseInt(digits) == Some(timestamp)
  }

  ghost predicate IsVersion(part: string, signature: string) {
    TrimSpace(part) == VERSION + signature
  }

  lemma {:induction false} SplitWhole(s: string, sep: char)
    requires sep !in s
    ensures Split(s, sep) == [s]
  {
    if s != [] {
      SplitWhole(s[1..], sep);
      assert s == [s[0]] + s[1..];
    }
  }

  lemma {:induction false} SplitFirst(a: string, sep: char, rest: string)
    requires sep !in a
    ensures Split(a + [sep] + rest, sep) == [a] + Split(rest, sep)
  {
    var s := a + [sep] + rest;
    if a == [] {
      assert s[1..] == rest;
    } else {
      assert s[1..] == a[1..] + [sep] + rest;
      SplitFirst(a[1..], sep, rest);
      assert [a[0]] + a[1..] == a;
    }
  }

  /** Splitting cuts at every separator, and the parts with separators between them are the string. */
  lemma {:induction false} SplitParts(s: string, sep: char)
    ensures var parts := Split(s, sep);
            && sep !in parts[0]
            && (|parts| == 1 ==> s == parts[0])
            && (|parts| > 1 ==> |parts[0]| < |s| && s[|parts[0]|] == sep && s[..|parts[0]|] == parts[0]
                                && Split(s[|parts[0]| + 1..], sep) == parts[1..])
  {
    if s != [] && s[0] != sep {
      SplitParts(s[1..], sep);
      var rest := Split(s[1..], sep);
      var parts := Split(s, sep);
      assert parts[1..] == rest[1..] && s == [s[0]] + s[1..];
      if |parts| > 1 { assert s[|parts[0]| + 1..] == s[1..][|rest[0]| + 1..]; }
    }
  }

  lemma TwoPartsIff(s: string, a: string, b: string)
    ensures Split(s, ',') == [a, b] <==> s == a + "," + b && ',' !in a && ',' !in b
  {
    if Split(s, ',') == [a, b] {
      SplitParts(s, ',');
      SplitParts(s[|a| + 1..], ',');
      assert s == s[..|a|] + [s[|a|]] + s[|a| + 1..];
      assert [a, b][1..] == [b];
    }
    if s == a + "," + b && ',' !in a && ',' !in b {
      SplitFirst(a, ',', b);
      SplitWhole(b, ',');
    }
  }

  lemma AddTwoParts(a: string, b: string)
    ensures AddParts([a, b]) == match AddPart(Found(None, None), a) case None => None case Some(found) => AddPart(found, b)
  {
    assert [a, b][..1] == [a] && [a][..0] == [];
    assert AddParts([a]) == AddPart(Found(None, None), a);
  }

  lemma PrefixIff(prefix: string, s: string)
    ensures prefix <= s <==> exists rest :: s == prefix + rest
    ensures prefix <= s ==> s == prefix + s[|prefix|..]
  {
  }

  lemma StampIff(part: string, timestamp: int)
    ensures IsStamp(part, timestamp) <==> STAMP <= TrimSpace(part) && ParseInt(TrimSpace(part)[|STAMP|..]) == Some(timestamp)
  {
    var p := TrimSpace(part);
    PrefixIff(STAMP, p);
    if IsStamp(part, timestamp) {
      var digits :| p == STAMP + digits && ParseInt(digits) == Some(timestamp);
      assert p[|STAMP|..] == digits;
    }
  }

  lemma VersionIff(part: string, signature: string)
    ensures IsVersion(part, signature) <==> VERSION <= TrimSpace(part) && TrimSpace(part)[|VERSION|..] == signature
  {
    PrefixIff(VERSION, TrimSpace(part));
  }

  /** A part cannot be both. */
  lemma StampIsNoVersion(p: string)
    ensures !(STAMP <= p && VERSION <= p)
  {
    assert STAMP[0] == 't' && VERSION[0] == 'v';
  }

  lemma TwoPartsFound(a: string, b: string, timestamp: int, signature: string)
    ensures AddParts([a, b]) == Some(Found(Some(timestamp), Some(signature))) <==> IsPair(a, b, timestamp, signature)
  {
    AddTwoParts(a, b);
    StampIff(a, timestamp);
    StampIff(b, timestamp);
    VersionIff(a, signature);
    VersionIff(b, signature);
    StampIsNoVersion(TrimSpace(a));
    StampIsNoVersion(TrimSpace(b));
  }

  lemma ParsedIsAccepted(header: string, timestamp: int, signature: string)
    requires ParseHeader(header) == Some((timestamp, signature))
    ensures Accepts(header, timestamp, signature)
  {
    var parts := Split(header, ',');
    assert parts == [parts[0], parts[1]];
    TwoPartsIff(header, parts[0], parts[1]);
    TwoPartsFound(parts[0], parts[1], timestamp, signature);
  }

  lemma PairIsParsed(a: string, b: string, timestamp: int, signature: string)
    requires ',' !in a && ',' !in b && IsPair(a, b, timestamp, signature)
    ensures ParseHeader(a + "," + b) == Some((timestamp, signature))
  {
    TwoPartsIff(a + "," + b, a, b);
    TwoPartsFound(a, b, timestamp, signature);
  }

  /** A header is read as a timestamp and a signature exactly when it has that form. */
  lemma ParseHeaderIff(header: string, timestamp: int, signature: string)
    ensures ParseHeader(header) == Some((timestamp, signature)) <==> Accepts(header, timestamp, signature)
  {
    if ParseHeader(header) == Some((timestamp, signature)) {
      ParsedIsAccepted(header, timestamp, signature);
    } else if Accepts(header, timestamp, signature) {
      var a, b :| header == a + "," + b && ',' !in a && ',' !in b && IsPair(a, b, timestamp, signature);
      PairIsParsed(a, b, timestamp, signature);
    }
  }

  // ---------- the round trip ----------

  lemma NoSpace(s: string)
    requires s == [] || (!IsSpace(s[0]) && !IsSpace(s[|s| - 1]))
    ensures TrimSpace(s) == s
  {
  }

  predicate AllSpaces(s: string) {
    forall i | 0 <= i < |s| :: IsSpace(s[i])
  }

  lemma {:induction false} TrimsLeft(s: string) returns (a: string)
    ensures s == a + TrimLeft(s) && AllSpaces(a) && (TrimLeft(s) == [] || !IsSpace(TrimLeft(s)[0]))
  {
    a := [];
    if s != [] && IsSpace(s[0]) {
      a := TrimsLeft(s[1..]);
      assert s == [s[0]] + s[1..];
      a := [s[0]] + a;
    }
  }

  lemma {:induction false} TrimsRight(s: string) returns (n: nat)
    ensures n <= |s| && TrimRight(s) == s[..n] && AllSpaces(s[n..]) && (n == 0 || !IsSpace(s[n - 1]))
    decreases |s|
  {
    n := |s|;
    if s != [] && IsSpace(s[|s| - 1]) {
      var init := s[..|s| - 1];
      n := TrimsRight(init);
      assert init[..n] == s[..n];
      SpaceAdded(s, n);
    }
  }

  lemma SpaceAdded(s: string, n: nat)
    requires n < |s| && IsSpace(s[|s| - 1]) && AllSpaces(s[..|s| - 1][n..])
    ensures AllSpaces(s[n..])
  {
    assert s[n..] == s[..|s| - 1][n..] + [s[|s| - 1]];
  }

  /** Trimming takes the spaces around the text and nothing else. */
  lemma TrimTakesSpaces(s: string) returns (a: string, b: string)
    ensures s == a + TrimSpace(s) + b && AllSpaces(a) && AllSpaces(b)
    ensures var t := TrimSpace(s); t == [] || (!IsSpace(t[0]) && !IsSpace(t[|t| - 1]))
  {
    a := TrimsLeft(s);
    var t, left := TrimSpace(s), TrimLeft(s);
    var n := TrimsRight(left);
    b := left[n..];
    assert left == t + b;
    if t != [] { assert t[0] == TrimLeft(s)[0]; }
  }

  /** An optional sign and at least one digit, of the given value. */
  predicate IsNumeral(s: string, sign: string, digits: string, n: int) {
    && s == sign + digits && (sign == "" || sign == "+" || sign == "-") && digits != [] && AllDigits(digits)
    && n == if sign == "-" then 0 - Value(digits) else Value(digits)
  }

  /** A number is read exactly from a numeral whose value fits 64 bits. */
  lemma ParseIntIff(s: string, n: int)
    ensures ParseInt(s) == Some(n) <==> IsInt64(n) && exists sign, digits :: IsNumeral(s, sign, digits, n)
  {
    var sign, digits := if HasSign(s) then s[..1] else "", if HasSign(s) then s[1..] else s;
    if ParseInt(s) == Some(n) {
      assert s == sign + digits;
      assert IsNumeral(s, sign, digits, n);
    }
    if sign', digits' :| IsNumeral(s, sign', digits', n) {
      NumeralParts(s, sign', digits', n);
    }
  }

  lemma NumeralParts(s: string, sign: string, digits: string, n: int)
    requires IsNumeral(s, sign, digits, n)
    ensures HasSign(s) <==> sign != ""
    ensures digits == (if HasSign(s) then s[1..] else s) && (sign == "-" <==> s[0] == '-')
  {
    assert IsDigit(digits[0]);
    if sign == "" {
      assert s == digits;
    } else {
      assert s[0] == sign[0] && s[1..] == digits;
    }
  }

  lemma DigitsAreNoSpace(n: int)
    ensures var s := FormatInt(n); s != [] && !IsSpace(s[|s| - 1]) && ',' !in s && '.' !in s
  {
    var digits := Digits(if n < 0 then -n else n);
    assert IsDigit(digits[|digits| - 1]);
    assert forall i | 0 <= i < |digits| :: digits[i] != ',' && digits[i] != '.';
  }

  lemma StampPart(n: int)
    requires IsInt64(n)
    ensures IsStamp(STAMP + FormatInt(n), n) && ',' !in STAMP + FormatInt(n)
  {
    DigitsAreNoSpace(n);
    var part := STAMP + FormatInt(n);
    assert part[0] == 't' && part[|part| - 1] == FormatInt(n)[|FormatInt(n)| - 1];
    NoSpace(part);
    ParseFormat(n);
  }

  lemma VersionPart(signature: string)
    requires forall i | 0 <= i < |signature| :: IsHexDigit(signature[i])
    ensures IsVersion(VERSION + signature, signature) && ',' !in VERSION + signature
  {
    var part := VERSION + signature;
    assert part[0] == 'v' && part[|part| - 1] == if signature == [] then '=' else signature[|signature| - 1];
    NoSpace(part);
  }

  /** Every 64-bit timestamp and hex digest is read back as it was printed. */
  lemma ParseSigned(timestamp: int, signature: string)
    requires IsInt64(timestamp) && forall i | 0 <= i < |signature| :: IsHexDigit(signature[i])
    ensures ParseHeader(Header(timestamp, signature)) == Some((timestamp, signature))
  {
    var a, b := STAMP + FormatInt(timestamp), VERSION + signature;
    StampPart(timestamp);
    VersionPart(signature);
    PairIsParsed(a, b, timestamp, signature);
    assert Header(timestamp, signature) == a + "," + b;
  }

  /** What the middleware answers. `stale` is its test of the timestamp against its own clock. */
  datatype Verdict = Missing | Malformed | Stale | Mismatch | Authentic

  function Verify(mac: Mac, secret: seq<Byte>, stale: int -> bool, header: string, body: string): Verdict {
    if header == "" then Missing else
    match ParseHeader(header)
    case None => Malformed
    case Some((timestamp, signature)) =>
      if stale(timestamp) then Stale
      else if EncodeHex(mac(secret, Payload(timestamp, body))) != signature then Mismatch
      else Authentic
  }

  /** The header names a time within tolerance and the MAC of that time and the body. */
  ghost predicate IsSignedFor(mac: Mac, secret: seq<Byte>, stale: int -> bool, header: string, body: string, timestamp: int, signature: string) {
    Accepts(header, timestamp, signature) && !stale(timestamp) && DecodeHex(signature) == Some(mac(secret, FormatInt(timestamp) + "." + body))
  }

  /** A request is let through exactly when its header names a time within tolerance and the MAC of that time and this body. */
  lemma AuthenticIff(mac: Mac, secret: seq<Byte>, stale: int -> bool, header: string, body: string)
    ensures Verify(mac, secret, stale, header, body) == Authentic <==>
              exists timestamp, signature :: IsSignedFor(mac, secret, stale, header, body, timestamp, signature)
  {
    if Verify(mac, secret, stale, header, body) == Authentic {
      var (timestamp, signature) := ParseHeader(header).value;
      ParseHeaderIff(header, timestamp, signature);
      DecodeEncodeHex(mac(secret, FormatInt(timestamp) + "." + body));
      assert IsSignedFor(mac, secret, stale, header, body, timestamp, signature);
    }
    if timestamp, signature :| IsSignedFor(mac, secret, stale, header, body, timestamp, signature) {
      ParseHeaderIff(header, timestamp, signature);
      EncodeDecodeHex(signature, mac(secret, FormatInt(timestamp) + "." + body));
    }
  }

  /** The other answers: no header, a header that is not accepted, and one with a time out of tolerance. */
  lemma RefusedIff(mac: Mac, secret: seq<Byte>, stale: int -> bool, header: string, body: string)
    ensures Verify(mac, secret, stale, header, body) == Missing <==> header == ""
    ensures Verify(mac, secret, stale, header, body) == Malformed <==> header != "" && !exists timestamp, signature :: Accepts(header, timestamp, signature)
    ensures Verify(mac, secret, stale, header, body) == Stale <==> exists timestamp, signature :: Accepts(header, timestamp, signature) && stale(timestamp)
  {
    forall timestamp, signature ensures Accepts(header, timestamp, signature) <==> ParseHeader(header) == Some((timestamp, signature)) {
      ParseHeaderIff(header, timestamp, signature);
    }
    if ParseHeader(header).Some? {
      var (timestamp, signature) := ParseHeader(header).value;
      assert Accepts(header, timestamp, signature);
    }
  }

  /** A header signed for one body passes for another only if the two MACs are equal. */
  lemma SignatureIsForItsBody(mac: Mac, secret: seq<Byte>, stale: int -> bool, timestamp: int, body: string, other: string)
    requires IsInt64(timestamp)
    ensures Verify(mac, secret, stale, SignPayload(mac, secret, timestamp, body), other) == Authentic
            <==> !stale(timestamp) && mac(secret, FormatInt(timestamp) + "." + other) == mac(secret, FormatInt(timestamp) + "." + body)
  {
    var signed := EncodeHex(mac(secret, Payload(timestamp, body)));
    ParseSigned(timestamp, signed);
    DecodeEncodeHex(mac(secret, Payload(timestamp, body)));
    DecodeEncodeHex(mac(secret, Payload(timestamp, other)));
  }

  /** A hand-off signed with the shared secret passes unless the clocks disagree. */
  lemma SignedIsAuthentic(mac: Mac, secret: seq<Byte>, stale: int -> bool, timestamp: int, body: string)
    requires IsInt64(timestamp)
    ensures Verify(mac, secret, stale, SignPayload(mac, secret, timestamp, body), body) == if stale(timestamp) then Stale else Authentic
  {
    ParseSigned(timestamp, EncodeHex(mac(secret, Payload(timestamp, body))));
  }

  /** The signed text determines both the timestamp and the body. */
  lemma PayloadIsInjective(t0: int, b0: string, t1: int, b1: string)
    requires IsInt64(t0) && IsInt64(t1) && Payload(t0, b0) == Payload(t1, b1)
    ensures t0 == t1 && b0 == b1
  {
    DigitsAreNoSpace(t0);
    DigitsAreNoSpace(t1);
    var p, n0, n1 := Payload(t0, b0), |FormatInt(t0)|, |FormatInt(t1)|;
    assert p[n0] == '.' && p[..n0] == FormatInt(t0) && p[n0 + 1..] == b0;
    assert p[n1] == '.' && p[..n1] == FormatInt(t1) && p[n1 + 1..] == b1;
    assert n0 == n1;
    ParseFormat(t0);
    ParseFormat(t1);
  }
}
