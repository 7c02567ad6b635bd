// internal/web/server.go: signState and verifyState, the signed OAuth state of section 10.12 of RFC 6749.
// The MAC is any function of the payload; base64 is left off both ends.
module Token {
  import opened Text
  import opened Wrappers
  import opened Clock

  type Byte = x: nat | x < 256
  type Mac = string -> seq<Byte>

  const STATE_TTL: int := 15 * MINUTE
  const MAX_INT64: int := 0x7fff_ffff_ffff_ffff

  // ---- hex ------------------------------------------------------------------------------

  function HexDigit(n: nat): char
    requires n < 16
  {
    if n < 10 then '0' + n as char else 'a' + (n - 10) as char
  }

  function HexValue(c: char): Option<nat>
    ensures HexValue(c).Some? ==> HexValue(c).value < 16
  {
    if '0' <= c <= '9' then Some((c - '0') as nat)
    else if 'a' <= c <= 'f' then Some((c - 'a') as nat + 10)
    else if 'A' <= c <= 'F' then Some((c - 'A') as nat + 10)
    else None
  }

  function HexEncode(bs: seq<Byte>): string {
    if bs == [] then "" else [HexDigit(bs[0] / 16), HexDigit(bs[0] % 16)] + HexEncode(bs[1..])
  }

  function HexDecode(s: string): Option<seq<Byte>> {
    if s == "" then Some([])
    else if |s| == 1 || HexValue(s[0]) == None || HexValue(s[1]) == None then None
    else
      match HexDecode(s[2..])
      case None => None
      case Some(rest) => Some([HexValue(s[0]).value * 16 + HexValue(s[1]).value] + rest)
  }

  lemma HexDigitValue(n: nat)
    requires n < 16
    ensures HexValue(HexDigit(n)) == Some(n)
  {
  }

  /** One byte in front. */
  lemma HexByte(b: Byte, rest: seq<Byte>, text: string)
    requires HexDecode(text) == Some(rest)
    ensures HexDecode([HexDigit(b / 16), HexDigit(b % 16)] + text) == Some([b] + rest)
  {
    var hi, lo := b / 16, b % 16;
    HexDigitValue(hi);
    HexDigitValue(lo);
    assert ([HexDigit(hi), HexDigit(lo)] + text)[2..] == text;
    assert hi * 16 + lo == b;
  }

  lemma {:induction false} HexRoundTrip(bs: seq<Byte>)
    ensures HexDecode(HexEncode(bs)) == Some(bs)
    ensures ':' !in HexEncode(bs)
  {
    if bs != [] {
      HexRoundTrip(bs[1..]);
      HexByte(bs[0], bs[1..], HexEncode(bs[1..]));
      assert bs == [bs[0]] + bs[1..];
    }
  }

  function LowerHex(c: char): char {
    if 'A' <= c <= 'F' then 'a' + (c - 'A') else c
  }

  /** A text with its hex letters in lower case. */
  function Lowered(s: string): (r: string)
    ensures |r| == |s| && forall i :: 0 <= i < |s| ==> r[i] == LowerHex(s[i])
  {
    seq(|s|, i requires 0 <= i < |s| => LowerHex(s[i]))
  }

  lemma HexValueIff(c: char, n: nat)
    requires n < 16
    ensures HexValue(c) == Some(n) <==> LowerHex(c) == HexDigit(n)
  {
  }

  /** Two digits make this byte exactly if they are its two digits. */
  lemma HexPairIff(a: char, b: char, byte: Byte)
    ensures (HexValue(a).Some? && HexValue(b).Some? && HexValue(a).value * 16 + HexValue(b).value == byte) <==>
            (LowerHex(a) == HexDigit(byte / 16) && LowerHex(b) == HexDigit(byte % 16))
  {
    HexValueIff(a, byte / 16);
    HexValueIff(b, byte % 16);
  }

  lemma HexTwoMore(a: char, b: char, text: string)
    ensures HexDecode([a, b] + text) ==
            if HexValue(a).Some? && HexValue(b).Some? && HexDecode(text).Some?
            then Some([HexValue(a).value * 16 + HexValue(b).value] + HexDecode(text).value) else None
  {
    var s := [a, b] + text;
    assert s[0] == a && s[1] == b && s[2..] == text && s != "" && |s| != 1;
  }

  lemma LoweredTwoMore(a: char, b: char, text: string)
    ensures Lowered([a, b] + text) == [LowerHex(a), LowerHex(b)] + Lowered(text)
  {
    var s := [a, b] + text;
    forall i | 0 <= i < |s| ensures Lowered(s)[i] == ([LowerHex(a), LowerHex(b)] + Lowered(text))[i] {
      if i >= 2 { assert s[i] == text[i - 2]; }
    }
  }

  lemma ByteMore(a: char, b: char, text: string, byte: Byte, bs: seq<Byte>)
    requires HexDecode(text) == Some(bs) <==> Lowered(text) == HexEncode(bs)
    ensures HexDecode([a, b] + text) == Some([byte] + bs) <==>
            Lowered([a, b] + text) == [HexDigit(byte / 16), HexDigit(byte % 16)] + HexEncode(bs)
  {
    HexTwoMore(a, b, text);
    LoweredTwoMore(a, b, text);
    HexPairIff(a, b, byte);
    var x, y := [LowerHex(a), LowerHex(b)] + Lowered(text), [HexDigit(byte / 16), HexDigit(byte % 16)] + HexEncode(bs);
    assert x[2..] == Lowered(text) && y[2..] == HexEncode(bs);
    if HexDecode([a, b] + text).Some? { assert HexDecode([a, b] + text).value[1..] == HexDecode(text).value && ([byte] + bs)[1..] == bs; }
  }

  /** hex.DecodeString accepts exactly the encoding, in either case of letters. */
  lemma {:induction false} HexDecodeIff(s: string, bs: seq<Byte>)
    ensures HexDecode(s) == Some(bs) <==> Lowered(s) == HexEncode(bs)
  {
    if |s| >= 2 && bs != [] {
      var text, rest := s[2..], bs[1..];
      HexDecodeIff(text, rest);
      ByteMore(s[0], s[1], text, bs[0], rest);
      assert [s[0], s[1]] + text == s;
      assert [bs[0]] + rest == bs;
    } else {
      assert |Lowered(s)| == |s|;
    }
  }

  // ---- decimal -----------------------------------------------------------------------------

  function Decimal(n: nat): (s: string)
    ensures |s| > 0
    ensures forall i :: 0 <= i < |s| ==> '0' <= s[i] <= '9'
    decreases n
  {
    if n < 10 then ['0' + n as char] else Decimal(n / 10) + ['0' + (n % 10) as char]
  }

  function Digits(s: string): Option<nat> {
    if s == "" then Some(0)
    else
      var c := s[|s| - 1];
      if !('0' <= c <= '9') then None
      else match Digits(s[..|s| - 1]) case None => None case Some(v) => Some(v * 10 + (c - '0') as nat)
  }

  /** strconv.ParseInt(s, 10, 64). */
  function ParseInt(s: string): Option<int> {
    if s == "" then None
    else
      var neg := s[0] == '-';
      var body := if s[0] == '-' || s[0] == '+' then s[1..] else s;
      if body == "" then None
      else
        match Digits(body)
        case None => None
        case Some(v) =>
          var n := if neg then -(v as int) else v as int;
          if -MAX_INT64 - 1 <= n <= MAX_INT64 then Some(n) else None
  }

  lemma {:induction false} DigitsOfDecimal(n: nat)
    ensures Digits(Decimal(n)) == Some(n)
    decreases n
  {
    var s := Decimal(n);
    if n < 10 {
      assert s[..0] == "";
    } else {
      DigitsOfDecimal(n / 10);
      assert s[..|s| - 1] == Decimal(n / 10);
    }
  }

  lemma ParseOfDecimal(n: nat)
    requires n <= MAX_INT64
    ensures ParseInt(Decimal(n)) == Some(n) && ':' !in Decimal(n)
  {
    DigitsOfDecimal(n);
  }

  function Zeros(n: nat): (s: string)
    ensures |s| == n && forall i :: 0 <= i < n ==> s[i] == '0'
  {
    seq(n, i => '0')
  }

  lemma {:induction false} DigitsOfZeros(n: nat)
    ensures Digits(Zeros(n)) == Some(0)
  {
    if n > 0 {
      DigitsOfZeros(n - 1);
      assert Zeros(n)[..n - 1] == Zeros(n - 1);
    }
  }

  lemma {:induction false} DigitsOfPadded(z: nat, v: nat)
    ensures Digits(Zeros(z) + Decimal(v)) == Some(v)
    decreases v
  {
    var s := Zeros(z) + Decimal(v);
    if v < 10 {
      DigitsOfZeros(z);
      assert s[..|s| - 1] == Zeros(z);
    } else {
      DigitsOfPadded(z, v / 10);
      assert s[..|s| - 1] == Zeros(z) + Decimal(v / 10);
    }
  }

  /** Digits reads exactly the decimal notation, with any number of zeros in front. */
  lemma {:induction false} PaddedOfDigits(s: string, v: nat) returns (z: nat)
    requires s != "" && Digits(s) == Some(v)
    ensures s == Zeros(z) + Decimal(v)
    decreases |s|
  {
    var n := |s| - 1;
    assert s == s[..n] + [s[n]];
    if n == 0 {
      z := 0;
    } else {
      var u := Digits(s[..n]).value;
      z := PaddedOfDigits(s[..n], u);
      if u == 0 {
        z := z + 1;
        assert Zeros(z) == Zeros(z - 1) + "0";
      } else {
        assert v / 10 == u && v % 10 == (s[n] - '0') as nat;
      }
    }
  }

  /** s is n in decimal: a sign or none, any number of zeros, the digits; and n fits in 64 bits. */
  ghost predicate Numeral(s: string, n: int) {
    exists z: nat :: NumeralOf(s, n, "", z) || NumeralOf(s, n, "+", z) || NumeralOf(s, n, "-", z)
  }

  function Abs(n: int): nat {
    if n < 0 then -n else n
  }

  predicate NumeralOf(s: string, n: int, sign: string, z: nat) {
    && s == sign + (Zeros(z) + Decimal(Abs(n)))
    && (sign == "-" ==> n <= 0) && (n < 0 ==> sign == "-")
    && -0x8000_0000_0000_0000 <= n <= 0x7fff_ffff_ffff_ffff
  }

  /** The sign and the size, whatever the digits. */
  lemma ParseBody(s: string, sign: string, body: string, v: nat)
    requires s == sign + body && sign in {"", "+", "-"} && body != "" && '0' <= body[0] <= '9' && Digits(body) == Some(v)
    ensures var n: int := if sign == "-" then -(v as int) else v;
            ParseInt(s) == if -0x8000_0000_0000_0000 <= n <= 0x7fff_ffff_ffff_ffff then Some(n) else None
  {
    if sign == "" {
      assert s == body;
    } else {
      assert s[0] == sign[0] && s[1..] == body;
    }
  }

  lemma {:induction false} DigitsFirst(s: string)
    requires s != "" && Digits(s).Some?
    ensures '0' <= s[0] <= '9'
  {
    if |s| > 1 { DigitsFirst(s[..|s| - 1]); }
  }

  lemma ParseIntReads(s: string, n: int, sign: string, z: nat)
    requires sign in {"", "+", "-"} && NumeralOf(s, n, sign, z)
    ensures ParseInt(s) == Some(n)
  {
    DigitsOfPadded(z, Abs(n));
    ParseDigits(s, sign, Zeros(z) + Decimal(Abs(n)), Abs(n));
  }

  lemma ParseDigits(s: string, sign: string, body: string, v: nat)
    requires s == sign + body && sign in {"", "+", "-"} && body != "" && Digits(body) == Some(v)
    ensures var n: int := if sign == "-" then -(v as int) else v;
            ParseInt(s) == if -0x8000_0000_0000_0000 <= n <= 0x7fff_ffff_ffff_ffff then Some(n) else None
  {
    DigitsFirst(body);
    ParseBody(s, sign, body, v);
  }

  lemma ParseIntWrites(s: string, n: int)
    requires ParseInt(s) == Some(n)
    ensures Numeral(s, n)
  {
    var sign := if s[0] == '-' then "-" else if s[0] == '+' then "+" else "";
    var body := if sign == "" then s else s[1..];
    assert s == sign + body;
    var v: nat := Digits(body).value;
    DigitsFirst(body);
    ParseBody(s, sign, body, v);
    var z := PaddedOfDigits(body, v);
    assert NumeralOf(s, n, sign, z);
  }

  lemma ParseIntIff(s: string, n: int)
    ensures ParseInt(s) == Some(n) <==> Numeral(s, n)
  {
    if ParseInt(s) == Some(n) { ParseIntWrites(s, n); }
    if Numeral(s, n) {
      var z: nat :| NumeralOf(s, n, "", z) || NumeralOf(s, n, "+", z) || NumeralOf(s, n, "-", z);
      var sign := if NumeralOf(s, n, "", z) then "" else if NumeralOf(s, n, "+", z) then "+" else "-";
      ParseIntReads(s, n, sign, z);
    }
  }

  // ---- the state -----------------------------------------------------------------------------

  /** now is nanoseconds since the epoch. */
  function Sign(mac: Mac, nonce: string, now: nat): string {
    var payload := Decimal(now / SECOND) + ":" + nonce;
    payload + ":" + HexEncode(mac(payload))
  }

  function Verify(mac: Mac, state: string, now: int): Option<string> {
    var parts := Split(state, ':');
    if |parts| != 3 then None
    else
      var payload := parts[0] + ":" + parts[1];
      match HexDecode(parts[2])
      case None => None
      case Some(want) =>
        if mac(payload) != want then None
        else
          match ParseInt(parts[0])
          case None => None
          case Some(sec) => if now - sec * SECOND > STATE_TTL then None else Some(parts[1])
  }

  lemma {:induction false} PiecesCount(s: string, sep: char)
    ensures |Split(s, sep)| == 1 <==> sep !in s
  {
    if s != [] { PiecesCount(s[1..], sep); }
  }

  lemma SignedParts(mac: Mac, nonce: string, now: nat)
    ensures var secs := Decimal(now / SECOND);
            && ':' !in secs
            && Split(Sign(mac, nonce, now), ':') ==
               [secs] + Split(nonce, ':') + [HexEncode(mac(secs + ":" + nonce))]
  {
    var secs := Decimal(now / SECOND);
    var payload := secs + ":" + nonce;
    var hex := HexEncode(mac(payload));
    HexRoundTrip(mac(payload));
    SplitConcat(payload, hex, ':');
    SplitConcat(secs, nonce, ':');
    SplitWhole(secs, ':');
    SplitWhole(hex, ':');
  }

  /** verifyState gives back exactly the nonce that was signed, exactly when the nonce has no colon
      and fifteen minutes have not passed since the second it was signed in. */
  lemma VerifyOfSign(mac: Mac, nonce: string, signed: nat, now: int)
    requires signed / SECOND <= MAX_INT64
    ensures Verify(mac, Sign(mac, nonce, signed), now) ==
            if ':' !in nonce && now - signed / SECOND * SECOND <= STATE_TTL then Some(nonce) else None
  {
    var secs := Decimal(signed / SECOND);
    SignedParts(mac, nonce, signed);
    PiecesCount(nonce, ':');
    if ':' !in nonce {
      SplitWhole(nonce, ':');
      var hex := HexEncode(mac(secs + ":" + nonce));
      assert [secs] + [nonce] + [hex] == [secs, nonce, hex];
      HexRoundTrip(mac(secs + ":" + nonce));
      ParseOfDecimal(signed / SECOND);
    }
  }

  /** state is a time of at most fifteen minutes ago, the nonce and their MAC, between colons. */
  ghost predicate Genuine(mac: Mac, state: string, nonce: string, now: int) {
    exists secs, hex, sec :: GenuineParts(mac, state, nonce, now, secs, hex, sec)
  }

  ghost predicate GenuineParts(mac: Mac, state: string, nonce: string, now: int, secs: string, hex: string, sec: int) {
    && state == secs + ":" + (nonce + ":" + hex) && ':' !in secs && ':' !in nonce && ':' !in hex
    && Lowered(hex) == HexEncode(mac(secs + ":" + nonce))
    && Numeral(secs, sec) && now <= sec * 1_000_000_000 + 900 * 1_000_000_000
  }

  /** verifyState accepts exactly the states that carry the MAC of their time and nonce, and answers
      with that nonce. */
  lemma VerifyIff(mac: Mac, state: string, nonce: string, now: int)
    ensures Verify(mac, state, now) == Some(nonce) <==> Genuine(mac, state, nonce, now)
  {
    if Verify(mac, state, now) == Some(nonce) {
      var parts := Split(state, ':');
      var secs, hex := parts[0], parts[2];
      JoinOfSplit(state, ':');
      assert parts[1] == nonce && parts[1..][0] == nonce && parts[1..][1..] == [hex];
      assert Join(parts[1..], ':') == nonce + ":" + hex;
      HexDecodeIff(hex, mac(secs + ":" + nonce));
      ParseIntIff(secs, ParseInt(secs).value);
      assert GenuineParts(mac, state, nonce, now, secs, hex, ParseInt(secs).value);
    }
    if Genuine(mac, state, nonce, now) {
      var secs, hex, sec :| GenuineParts(mac, state, nonce, now, secs, hex, sec);
      SplitConcat(secs, nonce + ":" + hex, ':');
      SplitConcat(nonce, hex, ':');
      SplitWhole(secs, ':');
      SplitWhole(nonce, ':');
      SplitWhole(hex, ':');
      assert Split(state, ':') == [secs, nonce, hex];
      HexDecodeIff(hex, mac(secs + ":" + nonce));
      ParseIntIff(secs, sec);
    }
  }
}
