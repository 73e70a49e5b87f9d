/** String helpers the components rely on: JavaScript's `trim`, the decimal
    rendering of a number, `padStart(2, '0')`, and the inverse reading of a
    rendered `minutes:seconds` clock. */
module Text {

  /** The characters `String.prototype.trim` strips: ECMAScript WhiteSpace
      (tab, vertical tab, form feed, space, no-break space, byte order mark
      and the space separators) and LineTerminator. */
  predicate IsTrimmable(c: char) {
    || '\t' <= c <= '\r' || c == ' ' || c == '\U{00A0}' || c == '\U{1680}'
    || '\U{2000}' <= c <= '\U{200A}' || c == '\U{2028}' || c == '\U{2029}'
    || c == '\U{202F}' || c == '\U{205F}' || c == '\U{3000}' || c == '\U{FEFF}'
  }

  predicate AllTrimmable(s: string) {
    forall i :: 0 <= i < |s| ==> IsTrimmable(s[i])
  }

  /** Where `trim` starts keeping: the number of leading trimmable
      characters. */
  function TrimStartIndex(s: string): (k: nat)
    ensures k <= |s|
    ensures forall i :: 0 <= i < k ==> IsTrimmable(s[i])
    ensures k < |s| ==> !IsTrimmable(s[k])
  {
    if s != [] && IsTrimmable(s[0]) then
      var k := 1 + TrimStartIndex(s[1..]);
      assert forall i :: 1 <= i < k ==> s[i] == s[1..][i - 1];
      k
    else 0
  }

  /** Where `trim` stops keeping: the length left once the trailing
      trimmable characters are dropped. */
  function TrimEndIndex(s: string): (e: nat)
    ensures e <= |s|
    ensures forall i :: e <= i < |s| ==> IsTrimmable(s[i])
    ensures e > 0 ==> !IsTrimmable(s[e - 1])
  {
    if s != [] && IsTrimmable(s[|s| - 1]) then
      var e := TrimEndIndex(s[..|s| - 1]);
      assert forall i :: e <= i < |s| - 1 ==> s[i] == s[..|s| - 1][i];
      e
    else |s|
  }

  /** `s.trim()`: the contiguous slice of `s` that starts at the first
      character that is not trimmable, with only trimmable characters
      around it and neither end trimmable; it is empty exactly when every
      character of `s` is trimmable. */
  function Trim(s: string): (r: string)
    ensures TrimStartIndex(s) + |r| <= |s| && r == s[TrimStartIndex(s)..TrimStartIndex(s) + |r|]
    ensures forall i :: 0 <= i < |s| && !(TrimStartIndex(s) <= i < TrimStartIndex(s) + |r|) ==> IsTrimmable(s[i])
    ensures r == [] <==> AllTrimmable(s)
    ensures r != [] ==> !IsTrimmable(r[0]) && !IsTrimmable(r[|r| - 1])
  {
    var k := TrimStartIndex(s);
    var e := TrimEndIndex(s);
    if k == |s| then []
    else
      assert k < e;
      s[k..e]
  }

  /** A string whose `trim()` is empty, that is, falsy in JavaScript:
      by the contract of `Trim`, one made only of trimmable characters. */
  predicate Blank(s: string) {
    AllTrimmable(s)
  }

  predicate IsDigit(c: char) {
    '0' <= c <= '9'
  }

  predicate AllDigits(s: string) {
    forall i :: 0 <= i < |s| ==> IsDigit(s[i])
  }

  /** The value of a string of decimal digits. */
  function DigitsValue(s: string): nat
    requires AllDigits(s)
  {
    if s == [] then 0
    else DigitsValue(s[..|s| - 1]) * 10 + ((s[|s| - 1] as int) - ('0' as int))
  }

  function DigitChar(d: nat): (c: char)
    requires d < 10
    ensures IsDigit(c) && (c as int) - ('0' as int) == d
  {
    "0123456789"[d]
  }

  /** `n.toString()` for a non-negative integer: decimal digits with no
      leading zero, which read back as `n`. */
  function NatToString(n: nat): (r: string)
    ensures AllDigits(r) && DigitsValue(r) == n
    ensures |r| >= 1 && (|r| > 1 ==> r[0] != '0')
    ensures |r| == 1 <==> n < 10
    ensures |r| == 2 <==> 10 <= n < 100
  {
    var prefix := if n < 10 then [] else NatToString(n / 10);
    var r := prefix + [DigitChar(n % 10)];
    assert r[..|r| - 1] == prefix;
    r
  }

  /** `n.toString()` for any integer: a minus sign before the digits of a
      negative number. */
  function IntToString(n: int): (r: string)
    ensures |r| >= 1
    ensures n >= 0 ==> r == NatToString(n)
    ensures n < 0 ==> r == "-" + NatToString(-n)
  {
    if n < 0 then "-" + NatToString(-n) else NatToString(n)
  }

  /** A positive number is written without a leading zero. */
  lemma NoLeadingZero(n: nat)
    requires n >= 1
    ensures NatToString(n)[0] != '0'
  {
    var d := NatToString(n);
    if |d| == 1 {
      assert d[..0] == [];
      assert DigitsValue(d) == (d[0] as int) - ('0' as int);
    }
  }

  /** `s.padStart(2, '0')`: zeros in front up to length two; a longer string
      is left as it is. On digits the value does not change. */
  function PadStart2(s: string): (r: string)
    ensures |r| == if |s| >= 2 then |s| else 2
    ensures AllDigits(s) ==> AllDigits(r) && DigitsValue(r) == DigitsValue(s)
  {
    if |s| >= 2 then s
    else
      LeadingZeros(2 - |s|, s);
      seq(2 - |s|, _ => '0') + s
  }

  /** Zeros in front of a digit string leave its value unchanged. */
  lemma {:induction false} LeadingZeros(k: nat, s: string)
    ensures AllDigits(s) ==>
      AllDigits(seq(k, _ => '0') + s) && DigitsValue(seq(k, _ => '0') + s) == DigitsValue(s)
    decreases |s|
  {
    var z := seq(k, _ => '0');
    if !AllDigits(s) {
    } else if s == [] {
      assert z + s == z;
      ZerosValue(k);
    } else {
      var init := s[..|s| - 1];
      assert (z + s)[..|z + s| - 1] == z + init;
      LeadingZeros(k, init);
    }
  }

  lemma {:induction false} ZerosValue(k: nat)
    ensures AllDigits(seq(k, _ => '0'))
    ensures DigitsValue(seq(k, _ => '0')) == 0
  {
    if k > 0 {
      assert seq(k, _ => '0')[..k - 1] == seq(k - 1, _ => '0');
      ZerosValue(k - 1);
    }
  }

  /** `s` is a clock reading of `minutes` and `secs`: a minutes field of
      digits, a colon, and a seconds field of exactly two digits. */
  predicate IsClock(s: string, minutes: nat, secs: nat) {
    |s| >= 4 && s[|s| - 3] == ':'
    && AllDigits(s[..|s| - 3]) && DigitsValue(s[..|s| - 3]) == minutes
    && AllDigits(s[|s| - 2..]) && DigitsValue(s[|s| - 2..]) == secs
  }

  /** Reads a rendered clock "M…M:SS" back as seconds: everything before the
      last three characters is minutes, the last two are seconds. */
  function ParseClock(s: string): int
  {
    if |s| >= 4 && s[|s| - 3] == ':' && AllDigits(s[..|s| - 3]) && AllDigits(s[|s| - 2..])
    then DigitsValue(s[..|s| - 3]) * 60 + DigitsValue(s[|s| - 2..])
    else -1
  }

  /** The shared shape of both clocks: minutes, a colon, seconds padded to two
      digits. Whatever the minutes are rendered as, reading back gives `n`. */
  lemma ClockRoundTrip(minutes: string, n: nat)
    requires AllDigits(minutes) && |minutes| >= 1 && DigitsValue(minutes) == n / 60
    ensures var s := minutes + ":" + PadStart2(NatToString(n % 60));
      |s| == |minutes| + 3 && s[..|minutes|] == minutes
      && IsClock(s, n / 60, n % 60) && ParseClock(s) == n
  {
    SecondsField(n % 60);
    ReadClock(minutes, PadStart2(NatToString(n % 60)));
  }

  /** Seconds below a minute, padded, are two digits with their value. */
  lemma SecondsField(sec: nat)
    requires sec < 60
    ensures var ss := PadStart2(NatToString(sec));
      |ss| == 2 && AllDigits(ss) && DigitsValue(ss) == sec
  {
    var digits := NatToString(sec);
    assert AllDigits(digits) && DigitsValue(digits) == sec;
    assert |digits| <= 2;
    var ss := PadStart2(digits);
    assert AllDigits(ss) && DigitsValue(ss) == DigitsValue(digits);
  }

  /** A minutes field, a colon and a two-digit seconds field read back as
      minutes times sixty plus seconds. */
  lemma ReadClock(minutes: string, ss: string)
    requires AllDigits(minutes) && |minutes| >= 1
    requires |ss| == 2 && AllDigits(ss)
    ensures var s := minutes + ":" + ss;
      |s| == |minutes| + 3 && s[..|minutes|] == minutes
      && IsClock(s, DigitsValue(minutes), DigitsValue(ss))
      && ParseClock(s) == DigitsValue(minutes) * 60 + DigitsValue(ss)
  {
    var s := minutes + ":" + ss;
    assert s[|s| - 3] == ':';
    assert s[..|s| - 3] == minutes;
    assert s[|s| - 2..] == ss;
  }
}
