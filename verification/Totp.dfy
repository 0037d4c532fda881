/** TOTPService of libs/shared/auth.py: HOTP codes (section 5.3 of RFC 4226) and their
    verification with clock drift (section 5.2 of RFC 6238). */
module Totp {
  import opened Wrappers
  import opened Text

  type Byte = b: int | 0 <= b < 256

  /** An HMAC-SHA-1 value. */
  type Digest = d: seq<Byte> | |d| == 20 witness seq(20, i => 0)

  /** The keyed hash of one secret, as a function of the counter it is applied to. */
  type Mac = nat -> Digest

  const COUNTER_LIMIT := 0x1_0000_0000_0000_0000

  // ---- Codes --------------------------------------------------------------

  /** The low four bits of the last byte. */
  function Offset(d: Digest): nat {
    d[19] % 16
  }

  /** Dynamic truncation: four bytes from the offset, big-endian, without the sign bit.
      Its slice never leaves the digest, or the indices would not be well-formed. */
  function Truncated(d: Digest): nat {
    var o := Offset(d);
    BigEndian(d[o..o + 4]) % 0x8000_0000
  }

  /** int.from_bytes(bytes, "big"). */
  function BigEndian(bytes: seq<Byte>): nat {
    if bytes == [] then 0 else BigEndian(bytes[..|bytes| - 1]) * 256 + bytes[|bytes| - 1]
  }

  function Pow10(n: nat): (r: nat)
    ensures r > 0
  {
    if n == 0 then 1 else 10 * Pow10(n - 1)
  }

  function DigitChar(n: nat): char
    requires n < 10
  {
    '0' + n as char
  }

  /** str(n). */
  function Decimal(n: nat): string {
    if n < 10 then [DigitChar(n)] else Decimal(n / 10) + [DigitChar(n % 10)]
  }

  /** s.zfill(width) for a string without sign. */
  function Zfill(s: string, width: nat): string
    decreases width - |s|
  {
    if |s| >= width then s else Zfill("0" + s, width)
  }

  function Hotp(mac: Mac, counter: nat, digits: nat): string {
    Zfill(Decimal(Truncated(mac(counter)) % Pow10(digits)), digits)
  }

  predicate AllDecimal(s: string) {
    forall i :: 0 <= i < |s| ==> IsDigit(s[i])
  }

  /** The number a decimal string denotes. */
  function ValueOf(s: string): nat
    requires AllDecimal(s)
  {
    if s == [] then 0 else 10 * ValueOf(s[..|s| - 1]) + (s[|s| - 1] as int - '0' as int)
  }

  lemma {:induction false} DecimalDenotes(n: nat)
    ensures AllDecimal(Decimal(n)) && ValueOf(Decimal(n)) == n
  {
    if n >= 10 {
      DecimalDenotes(n / 10);
      var s := Decimal(n);
      assert s[..|s| - 1] == Decimal(n / 10);
    } else {
      var s := Decimal(n);
      assert s[..0] == [];
    }
  }

  lemma {:induction false} DecimalLength(n: nat, width: nat)
    requires width > 0 && n < Pow10(width)
    ensures |Decimal(n)| <= width
  {
    if n >= 10 {
      DecimalLength(n / 10, width - 1);
    }
  }

  lemma {:induction false} LeadingZero(s: string)
    requires AllDecimal(s)
    ensures AllDecimal("0" + s) && ValueOf("0" + s) == ValueOf(s)
  {
    var z := "0" + s;
    if s == [] {
      assert z[..0] == [];
    } else {
      LeadingZero(s[..|s| - 1]);
      assert z[..|z| - 1] == "0" + s[..|s| - 1];
    }
  }

  lemma {:induction false} ZfillPads(s: string, width: nat)
    requires AllDecimal(s) && |s| <= width
    ensures |Zfill(s, width)| == width && AllDecimal(Zfill(s, width))
    ensures ValueOf(Zfill(s, width)) == ValueOf(s)
    decreases width - |s|
  {
    if |s| < width {
      LeadingZero(s);
      ZfillPads("0" + s, width);
    }
  }

  /** Every code has exactly `digits` decimal digits and denotes the truncated hash
      modulo 10^digits. */
  lemma CodeShape(mac: Mac, counter: nat, digits: nat)
    requires digits > 0
    ensures var code := Hotp(mac, counter, digits);
            && |code| == digits && AllDecimal(code)
            && ValueOf(code) == Truncated(mac(counter)) % Pow10(digits)
  {
    var n := Truncated(mac(counter)) % Pow10(digits);
    DecimalDenotes(n);
    DecimalLength(n, digits);
    ZfillPads(Decimal(n), digits);
  }

  lemma BigEndianOfFour(p: nat, q: nat, r: nat, s: nat)
    requires p < 256 && q < 256 && r < 256 && s < 256
    ensures BigEndian([p, q, r, s]) == ((256 * p + q) * 256 + r) * 256 + s
  {
    var b := [p, q, r, s];
    assert b[..3] == [p, q, r];
    assert b[..3][..2] == [p, q];
    assert b[..3][..2][..1] == [p];
    assert b[..3][..2][..1][..0] == [];
    assert BigEndian([]) == 0;
    assert BigEndian([p]) == p;
    assert BigEndian([p, q]) == 256 * p + q;
    assert BigEndian([p, q, r]) == (256 * p + q) * 256 + r;
  }

  /** Dynamic truncation, digit by digit: the byte at the offset without its top bit, then
      the next three. */
  lemma TruncatedExactly(d: Digest)
    ensures var o := d[19] % 16;
            Truncated(d)
            == 0x100_0000 * (d[o] as nat % 128) + 0x1_0000 * d[o + 1] as nat + 0x100 * d[o + 2] as nat + d[o + 3]
  {
    var o := d[19] % 16;
    var high, b := d[o] as nat, d[o..o + 4];
    var low := 0x1_0000 * d[o + 1] as nat + 0x100 * d[o + 2] as nat + d[o + 3];
    assert b == [d[o], d[o + 1], d[o + 2], d[o + 3]];
    BigEndianOfFour(d[o], d[o + 1], d[o + 2], d[o + 3]);
    assert BigEndian(b) == 0x100_0000 * high + low;
    assert 0 <= low < 0x100_0000;
    assert high % 128 == if high >= 128 then high - 128 else high;
  }

  /** The worked example of section 5.4 of RFC 4226. */
  lemma Rfc4226Example(mac: Mac)
    requires mac(0) == [0x1f, 0x86, 0x98, 0x69, 0x0e, 0x02, 0xca, 0x16, 0x61, 0x85,
                        0x50, 0xef, 0x7f, 0x19, 0xda, 0x8e, 0x94, 0x5b, 0x55, 0x5a]
    ensures Truncated(mac(0)) == 0x50ef7f19 && Hotp(mac, 0, 6) == "872921"
  {
    var d := mac(0);
    assert Offset(d) == 10;
    var b := d[10..14];
    assert b == [0x50, 0xef, 0x7f, 0x19];
    BigEndianOfFour(0x50, 0xef, 0x7f, 0x19);
    assert Pow10(3) == 1000 && Pow10(6) == 1000000;
    assert Decimal(872) == "872" && Decimal(872921) == "872921";
  }

  // ---- Verification -------------------------------------------------------

  datatype Service = Service(step: int, digits: int, drift: int) {
    predicate Valid() {
      step > 0 && 6 <= digits <= 8 && drift >= 0
    }
  }

  function Counter(svc: Service, at: real): int
    requires svc.Valid()
  {
    (at / svc.step as real).Floor
  }

  function WithoutBlanks(s: string): string {
    if s == [] then [] else (if s[0] == ' ' then [] else [s[0]]) + WithoutBlanks(s[1..])
  }

  /** code.strip().replace(" ", ""). */
  function Normalized(code: string): string {
    WithoutBlanks(Strip(code))
  }

  /** The characters str.isdigit accepts: the ASCII digits and, per `exotic`, others. */
  predicate LooksNumeric(s: string, exotic: char -> bool) {
    forall i :: 0 <= i < |s| ==> IsDigit(s[i]) || (s[i] as int >= 128 && exotic(s[i]))
  }

  predicate WellFormed(svc: Service, code: string, exotic: char -> bool) {
    |Normalized(code)| == svc.digits && LooksNumeric(Normalized(code), exotic)
  }

  /** A digit string that hmac.compare_digest refuses to compare. */
  predicate Unicode(svc: Service, code: string, exotic: char -> bool) {
    WellFormed(svc, code, exotic) && !AllDecimal(Normalized(code))
  }

  predicate Matches(svc: Service, mac: Mac, code: string, c: int)
    requires svc.Valid()
  {
    0 <= c < COUNTER_LIMIT && Normalized(code) == Hotp(mac, c, svc.digits)
  }

  /** The code is the HOTP value at some eight-byte counter within the drift. */
  ghost predicate Accepts(svc: Service, mac: Mac, code: string, at: real)
    requires svc.Valid()
  {
    exists c :: Counter(svc, at) - svc.drift <= c <= Counter(svc, at) + svc.drift && Matches(svc, mac, code, c)
  }

  datatype TotpError = BadSecret | CounterOverflow | NonAsciiCode

  /** generate_totp. */
  function Generated(svc: Service, mac: Option<Mac>, at: real): Result<string, TotpError>
    requires svc.Valid()
  {
    var c := Counter(svc, at);
    if mac.None? then Err(BadSecret)
    else if c < 0 || c >= COUNTER_LIMIT then Err(CounterOverflow)
    else Ok(Hotp(mac.value, c, svc.digits))
  }

  /** When a code is generated, and from which counter. */
  lemma GeneratedExactly(svc: Service, mac: Option<Mac>, at: real)
    requires svc.Valid()
    ensures Generated(svc, mac, at).Ok?
        <==> mac.Some? && 0.0 <= at < (COUNTER_LIMIT * svc.step) as real
    ensures Generated(svc, mac, at).Ok? ==>
              0 <= Counter(svc, at) && Generated(svc, mac, at).value == Hotp(mac.value, Counter(svc, at), svc.digits)
    ensures Generated(svc, mac, at) == Err(BadSecret) <==> mac.None?
  {
    CounterExactly(svc, at);
    var c := Counter(svc, at);
    StepsOrder(c, COUNTER_LIMIT, svc.step);
    StepsOrder(c, 0, svc.step);
  }

  lemma StepsOrder(a: int, b: int, step: int)
    requires step > 0
    ensures a >= b ==> a * step >= b * step
    ensures a < b ==> (a + 1) * step <= b * step
  {
    if a >= b {
      Product(a - b, step);
      assert (a - b) * step == a * step - b * step;
    } else {
      Product(b - a - 1, step);
      assert (b - a - 1) * step == b * step - (a + 1) * step;
    }
  }

  lemma Product(x: int, y: int)
    requires x >= 0 && y >= 0
    ensures x * y >= 0
  {
  }

  /** A refused digit string has the right length and nothing but digits, one of them
      outside ASCII. */
  lemma UnicodeExactly(svc: Service, code: string, exotic: char -> bool)
    ensures Unicode(svc, code, exotic)
        <==> var s := Normalized(code);
             && |s| == svc.digits
             && (forall c :: c in s ==> ('0' <= c <= '9') || (c as int >= 128 && exotic(c)))
             && (exists c :: c in s && c as int >= 128 && exotic(c))
  {
    var s := Normalized(code);
    if Unicode(svc, code, exotic) {
      var i :| 0 <= i < |s| && !IsDigit(s[i]);
      assert s[i] in s;
    }
    if c :| c in s && c as int >= 128 && exotic(c) {
      var i :| 0 <= i < |s| && s[i] == c;
      assert !IsDigit(s[i]);
    }
  }

  /** verify_totp; `mac` is None when the secret is not base32. */
  method VerifyTotp(svc: Service, mac: Option<Mac>, code: string, at: real, exotic: char -> bool)
    returns (r: Result<bool, TotpError>)
    requires svc.Valid()
    ensures !WellFormed(svc, code, exotic) ==> r == Ok(false)
    ensures WellFormed(svc, code, exotic) && Counter(svc, at) + svc.drift < 0 ==> r == Ok(false)
    ensures WellFormed(svc, code, exotic) && Counter(svc, at) + svc.drift >= 0 && mac.None? ==>
              r == Err(BadSecret)
    ensures mac.Some? && 0 <= Counter(svc, at) + svc.drift < COUNTER_LIMIT ==>
              r == if Unicode(svc, code, exotic) then Err(NonAsciiCode)
                   else Ok(Accepts(svc, mac.value, code, at))
    ensures mac.Some? && WellFormed(svc, code, exotic) && Counter(svc, at) + svc.drift >= COUNTER_LIMIT ==>
              r == if Unicode(svc, code, exotic) && Counter(svc, at) - svc.drift < COUNTER_LIMIT
                   then Err(NonAsciiCode)
                   else if Accepts(svc, mac.value, code, at) then Ok(true) else Err(CounterOverflow)
  {
    var normalized := Normalized(code);
    if !WellFormed(svc, code, exotic) {
      if mac.Some? {
        OnlyWellFormedMatch(svc, mac.value, code, exotic);
      }
      return Ok(false);
    }
    var counter := Counter(svc, at);
    var c := counter - svc.drift;
    while c <= counter + svc.drift
      invariant counter - svc.drift <= c <= counter + svc.drift + 1
      invariant c > 0 ==> c == counter - svc.drift || (mac.Some? && AllDecimal(normalized))
      invariant c > COUNTER_LIMIT ==> c == counter - svc.drift
      invariant mac.Some? ==>
        forall k :: counter - svc.drift <= k < c ==> !Matches(svc, mac.value, code, k)
    {
      if c >= 0 {
        if mac.None? {
          return Err(BadSecret);
        }
        if c >= COUNTER_LIMIT {
          return Err(CounterOverflow);
        }
        if !AllDecimal(normalized) {
          return Err(NonAsciiCode);
        }
        if Hotp(mac.value, c, svc.digits) == normalized {
          assert Matches(svc, mac.value, code, c);
          return Ok(true);
        }
      }
      c := c + 1;
    }
    return Ok(false);
  }

  /** The shape check loses nothing: whatever equals a code is well-formed. */
  lemma OnlyWellFormedMatch(svc: Service, mac: Mac, code: string, exotic: char -> bool)
    requires svc.Valid()
    ensures forall c :: Matches(svc, mac, code, c) ==> WellFormed(svc, code, exotic) && !Unicode(svc, code, exotic)
  {
    forall c | Matches(svc, mac, code, c)
      ensures WellFormed(svc, code, exotic) && !Unicode(svc, code, exotic)
    {
      CodeShape(mac, c, svc.digits);
    }
  }

  lemma {:induction false} DigitsNormalize(s: string)
    requires AllDecimal(s)
    ensures Normalized(s) == s
  {
    StripKeeps(s);
    BlanksAbsent(s);
  }

  lemma {:induction false} BlanksAbsent(s: string)
    requires AllDecimal(s)
    ensures WithoutBlanks(s) == s
  {
    if s != [] {
      BlanksAbsent(s[1..]);
    }
  }

  /** The counter is the number of whole steps since the epoch. */
  lemma CounterExactly(svc: Service, at: real)
    requires svc.Valid()
    ensures (Counter(svc, at) * svc.step) as real <= at < ((Counter(svc, at) + 1) * svc.step) as real
  {
    var s, c := svc.step as real, Counter(svc, at);
    var x := at / s;
    assert x * s == at;
    assert c as real <= x < (c + 1) as real;
    Scale(x, c as real, s);
    Scale((c + 1) as real, x, s);
    assert (c * svc.step) as real == c as real * s;
    assert ((c + 1) * svc.step) as real == (c + 1) as real * s;
  }

  /** A code may be written in groups: what is left of two strings is what is left of
      each, of a blank nothing, and of anything without blanks all. */
  lemma BlanksDoNotCount(a: string, b: string)
    ensures WithoutBlanks(a + b) == WithoutBlanks(a) + WithoutBlanks(b)
    ensures WithoutBlanks([' ']) == []
    ensures ' ' !in a ==> WithoutBlanks(a) == a
  {
    BlanksConcat(a, b);
    OneBlank();
    if ' ' !in a {
      NoBlanks(a);
    }
  }

  lemma OneBlank()
    ensures WithoutBlanks([' ']) == []
  {
    assert [' '][1..] == [];
  }

  lemma {:induction false} BlanksConcat(a: string, b: string)
    ensures WithoutBlanks(a + b) == WithoutBlanks(a) + WithoutBlanks(b)
  {
    if a == [] {
      assert a + b == b;
    } else {
      var tail, all := a[1..], a + b;
      var head := if a[0] == ' ' then [] else [a[0]];
      BlanksConcat(tail, b);
      assert all[1..] == tail + b && all[0] == a[0];
      assert WithoutBlanks(all) == head + (WithoutBlanks(tail) + WithoutBlanks(b));
      assert WithoutBlanks(a) == head + WithoutBlanks(tail);
    }
  }

  lemma {:induction false} NoBlanks(a: string)
    requires ' ' !in a
    ensures WithoutBlanks(a) == a
  {
    if a != [] {
      NoBlanks(a[1..]);
      assert a == [a[0]] + a[1..];
    }
  }

  lemma CounterShifts(svc: Service, at: real, k: int)
    requires svc.Valid()
    ensures Counter(svc, at + (k * svc.step) as real) == Counter(svc, at) + k
  {
    var s := svc.step as real;
    assert (k * svc.step) as real == k as real * s;
    assert (at + k as real * s) / s == at / s + k as real;
  }

  /** Accepted are exactly the codes generated now or up to `drift` steps earlier or later. */
  lemma AcceptsExactly(svc: Service, mac: Mac, code: string, at: real)
    requires svc.Valid()
    ensures Accepts(svc, mac, code, at)
        <==> exists k :: -svc.drift <= k <= svc.drift
                         && Generated(svc, Some(mac), at + (k * svc.step) as real) == Ok(Normalized(code))
  {
    forall k ensures Counter(svc, at + (k * svc.step) as real) == Counter(svc, at) + k {
      CounterShifts(svc, at, k);
    }
    if Accepts(svc, mac, code, at) {
      var c :| Counter(svc, at) - svc.drift <= c <= Counter(svc, at) + svc.drift && Matches(svc, mac, code, c);
      var k := c - Counter(svc, at);
      assert Generated(svc, Some(mac), at + (k * svc.step) as real) == Ok(Normalized(code));
    }
    if k :| -svc.drift <= k <= svc.drift
            && Generated(svc, Some(mac), at + (k * svc.step) as real) == Ok(Normalized(code)) {
      assert Matches(svc, mac, code, Counter(svc, at) + k);
    }
  }

  /** Moving the clock by at most `drift` steps moves the counter by at most `drift`. */
  lemma CounterDrifts(svc: Service, a: real, b: real)
    requires svc.Valid() && a - b <= (svc.drift * svc.step) as real
    ensures Counter(svc, a) - Counter(svc, b) <= svc.drift
  {
    var s, d := svc.step as real, svc.drift as real;
    var x, y := a / s, b / s;
    assert x * s == a && y * s == b;
    assert (svc.drift * svc.step) as real == d * s;
    if x - y > d {
      Scale(x - y, d, s);
    }
    assert y < (Counter(svc, b) + 1) as real;
    assert x >= Counter(svc, a) as real;
  }

  lemma Scale(x: real, y: real, factor: real)
    requires factor > 0.0
    ensures x > y ==> x * factor > y * factor
    ensures x >= y ==> x * factor >= y * factor
  {
  }

  /** A code generated at one time is accepted at every time within drift * step of it. */
  lemma GeneratedIsAccepted(svc: Service, mac: Mac, generatedAt: real, verifiedAt: real)
    requires svc.Valid()
    requires Generated(svc, Some(mac), generatedAt).Ok?
    requires generatedAt - verifiedAt <= (svc.drift * svc.step) as real
    requires verifiedAt - generatedAt <= (svc.drift * svc.step) as real
    ensures Accepts(svc, mac, Generated(svc, Some(mac), generatedAt).value, verifiedAt)
  {
    var c := Counter(svc, generatedAt);
    CodeShape(mac, c, svc.digits);
    DigitsNormalize(Hotp(mac, c, svc.digits));
    CounterDrifts(svc, generatedAt, verifiedAt);
    CounterDrifts(svc, verifiedAt, generatedAt);
    assert Matches(svc, mac, Hotp(mac, c, svc.digits), c);
  }
}
