/** The string operations the models rely on: decimal numerals, stripping, ASCII lower
    case, and the slugging that a regular-expression substitution performs. */
module Text {

  // ----- decimal numerals, as `str(n)` prints them and `int(s)` reads them -----

  predicate IsDigit(c: char) {
    '0' <= c <= '9'
  }

  predicate AllDigits(s: string) {
    forall i :: 0 <= i < |s| ==> IsDigit(s[i])
  }

  function DigitChar(d: nat): char
    requires d < 10
  {
    '0' + d as char
  }

  function Decimal(n: nat): (s: string)
    ensures |s| > 0 && AllDigits(s)
  {
    if n < 10 then [DigitChar(n)] else Decimal(n / 10) + [DigitChar(n % 10)]
  }

  function ParseDecimal(s: string): nat
    requires AllDigits(s)
  {
    if s == "" then 0
    else 10 * ParseDecimal(s[..|s| - 1]) + (s[|s| - 1] - '0') as nat
  }

  lemma {:induction false} ParseOfDecimal(n: nat)
    ensures ParseDecimal(Decimal(n)) == n
  {
    if n >= 10 {
      ParseOfDecimal(n / 10);
      assert Decimal(n)[..|Decimal(n)| - 1] == Decimal(n / 10);
    } else {
      assert Decimal(n)[..0] == "";
    }
  }

  lemma DecimalInjective(m: nat, n: nat)
    requires Decimal(m) == Decimal(n)
    ensures m == n
  {
    ParseOfDecimal(m);
    ParseOfDecimal(n);
  }

  /** How many digits `s` starts with. */
  function DigitRun(s: string): (n: nat)
    ensures n <= |s| && AllDigits(s[..n])
    ensures n < |s| ==> !IsDigit(s[n])
  {
    if s != "" && IsDigit(s[0]) then 1 + DigitRun(s[1..]) else 0
  }

  lemma {:induction false} DigitRunOf(s: string, rest: string)
    requires AllDigits(s) && rest != "" && !IsDigit(rest[0])
    ensures DigitRun(s + rest) == |s|
  {
    if s == "" {
      assert s + rest == rest;
    } else {
      assert (s + rest)[1..] == s[1..] + rest;
      DigitRunOf(s[1..], rest);
    }
  }

  lemma {:induction false} DecimalLengthGrows(m: nat, n: nat)
    requires m <= n
    ensures |Decimal(m)| <= |Decimal(n)|
  {
    if m >= 10 {
      DecimalLengthGrows(m / 10, n / 10);
    }
  }

  // ----- `str.lower()` on ASCII letters -----

  function LowerChar(c: char): char {
    if 'A' <= c <= 'Z' then (c as int + 32) as char else c
  }

  function Lower(s: string): (r: string)
    ensures |r| == |s|
  {
    seq(|s|, i requires 0 <= i < |s| => LowerChar(s[i]))
  }

  /** Codes 65 to 90, the capital letters, move up by 32; no other character changes. */
  lemma LowerCodes(s: string)
    ensures forall i :: 0 <= i < |s| ==>
              Lower(s)[i] as int == if 65 <= s[i] as int <= 90 then s[i] as int + 32 else s[i] as int
  {
    assert 'A' as int == 65 && 'Z' as int == 90;
  }

  // ----- `strip`, `lstrip`, `rstrip` over a character class -----

  function StripLeft(s: string, drop: char -> bool): (r: string)
    ensures |r| <= |s| && r == s[|s| - |r|..]
    ensures r != "" ==> !drop(r[0])
    ensures forall i :: 0 <= i < |s| - |r| ==> drop(s[i])
  {
    if s != "" && drop(s[0]) then StripLeft(s[1..], drop) else s
  }

  function StripRight(s: string, drop: char -> bool): (r: string)
    ensures r <= s
    ensures r != "" ==> !drop(r[|r| - 1])
    ensures forall i :: |r| <= i < |s| ==> drop(s[i])
  {
    if s != "" && drop(s[|s| - 1]) then StripRight(s[..|s| - 1], drop) else s
  }

  function Strip(s: string, drop: char -> bool): string {
    StripRight(StripLeft(s, drop), drop)
  }

  /** `core` is what is left of `s`, from position `n`, without the characters to drop at its ends. */
  predicate IsCore(s: string, drop: char -> bool, core: string, n: nat) {
    && n + |core| <= |s| && core == s[n..n + |core|]
    && (forall i :: 0 <= i < n ==> drop(s[i]))
    && (forall i :: n + |core| <= i < |s| ==> drop(s[i]))
    && (core != "" ==> !drop(core[0]) && !drop(core[|core| - 1]))
  }

  lemma StripIsCore(s: string, drop: char -> bool)
    ensures exists n :: IsCore(s, drop, Strip(s, drop), n)
  {
    hide StripLeft, StripRight;
    var left := StripLeft(s, drop);
    CoreOfRest(s, drop, left, StripRight(left, drop));
    assert IsCore(s, drop, Strip(s, drop), |s| - |left|);
  }

  lemma CoreOfRest(s: string, drop: char -> bool, left: string, core: string)
    requires |left| <= |s| && left == s[|s| - |left|..] && core <= left
    requires forall i :: 0 <= i < |s| - |left| ==> drop(s[i])
    requires forall i :: |core| <= i < |left| ==> drop(left[i])
    requires core != "" ==> !drop(left[0]) && !drop(core[|core| - 1])
    ensures IsCore(s, drop, core, |s| - |left|)
  {
    var n := |s| - |left|;
    forall i | n + |core| <= i < |s|
      ensures drop(s[i])
    {
      assert s[i] == left[i - n];
    }
  }

  /** A text has one core. */
  lemma StripOfCore(s: string, drop: char -> bool, core: string, n: nat)
    requires IsCore(s, drop, core, n)
    ensures Strip(s, drop) == core
  {
    StripIsCore(s, drop);
    var k :| IsCore(s, drop, Strip(s, drop), k);
    CoreReaches(s, drop, core, n, Strip(s, drop), k);
    CoreReaches(s, drop, Strip(s, drop), k, core, n);
  }

  lemma CoreReaches(s: string, drop: char -> bool, core: string, n: nat, other: string, k: nat)
    requires IsCore(s, drop, core, n) && IsCore(s, drop, other, k)
    ensures other != "" ==> core != "" && n <= k && k + |other| <= n + |core|
  {
    if other != "" {
      assert other[0] == s[k] && other[|other| - 1] == s[k + |other| - 1];
    }
  }

  predicate IsSpace(c: char) {
    || c == ' ' || c == '\t' || c == '\n' || c == '\r' || c == '\U{000B}' || c == '\U{000C}'
    || '\U{001C}' <= c <= '\U{001F}'
  }

  /** The ASCII characters that count as white space, by code. */
  lemma SpaceCodes(c: char)
    ensures IsSpace(c) <==> 9 <= c as int <= 13 || 28 <= c as int <= 32
  {
    assert '\t' as int == 9 && '\r' as int == 13 && ' ' as int == 32;
  }

  /** `name.strip()` leaves `name` alone exactly when neither end is white space. */
  predicate Trimmed(s: string) {
    s != "" && !IsSpace(s[0]) && !IsSpace(s[|s| - 1])
  }

  lemma StripOfTrimmed(s: string)
    requires Trimmed(s)
    ensures Strip(s, IsSpace) == s
  {
  }

  // ----- `re.sub("[^ok]+", "-", s)`: every maximal run of other characters becomes one dash -----

  function DashRuns(s: string, ok: char -> bool): (r: string)
    ensures forall i :: 0 <= i < |r| ==> ok(r[i]) || r[i] == '-'
  {
    if s == "" then ""
    else if ok(s[0]) then [s[0]] + DashRuns(s[1..], ok)
    else "-" + DashRuns(StripLeft(s, Other(ok)), ok)
  }

  function Other(ok: char -> bool): char -> bool {
    c => !ok(c)
  }

  predicate IsDash(c: char) {
    c == '-'
  }

  /** The slug of a name, over the characters allowed in it. */
  function Slug(name: string, ok: char -> bool): (slug: string)
    ensures forall i :: 0 <= i < |slug| ==> ok(slug[i]) || slug[i] == '-'
  {
    Strip(DashRuns(Lower(Strip(name, IsSpace)), ok), IsDash)
  }
}
