/**
 * The PHP string built-ins the panel relies on, over `seq<char>`:
 * trim(), strtoupper(), empty(), decimal printing, the `(int)` cast of a
 * string, bin2hex(), and literal (regex-free) substring search and replace.
 * Strings are sequences of characters; every helper is ASCII-only, as the
 * PHP functions are for the inputs the panel feeds them.
 */
module Text {
  import opened Wrappers

  /** One byte as returned by random_bytes(). */
  type byte = x: int | 0 <= x < 256

  // ---------------------------------------------------------------- trim()

  /** The characters trim() strips by default: space, \t, \n, \r, \0 and \x0B. */
  predicate IsTrimSpace(c: char) {
    c == ' ' || c == '\t' || c == '\n' || c == '\r' || c == '\0' || c == '\U{000B}'
  }

  /** The index of the first character at or after `i` that trim() keeps. */
  function TrimStart(s: string, i: nat): (k: nat)
    requires i <= |s|
    ensures i <= k <= |s|
    ensures forall j :: i <= j < k ==> IsTrimSpace(s[j])
    ensures k == |s| || !IsTrimSpace(s[k])
    decreases |s| - i
  {
    if i == |s| || !IsTrimSpace(s[i]) then i else TrimStart(s, i + 1)
  }

  /** The end of what trim() keeps: `hi` moved left over trim space, but not
      below `lo`. */
  function TrimEnd(s: string, lo: nat, hi: nat): (e: nat)
    requires lo <= hi <= |s|
    ensures lo <= e <= hi
    ensures forall j :: e <= j < hi ==> IsTrimSpace(s[j])
    ensures e == lo || !IsTrimSpace(s[e - 1])
  {
    if hi == lo || !IsTrimSpace(s[hi - 1]) then hi else TrimEnd(s, lo, hi - 1)
  }

  /** trim($s): the longest infix of `s` that neither starts nor ends with trim space;
      everything cut off on either side is trim space. */
  function Trim(s: string): (r: string)
    ensures var k := TrimStart(s, 0);
      && k + |r| <= |s| && r == s[k..k + |r|]
      && (forall i :: 0 <= i < k ==> IsTrimSpace(s[i]))
      && (forall i :: k + |r| <= i < |s| ==> IsTrimSpace(s[i]))
    ensures r == [] || (!IsTrimSpace(r[0]) && !IsTrimSpace(r[|r| - 1]))
  {
    var k := TrimStart(s, 0);
    s[k..TrimEnd(s, k, |s|)]
  }

  // ---------------------------------------------------------- strtoupper()

  function UpperChar(c: char): char {
    if 'a' <= c <= 'z' then (c as int - 32) as char else c
  }

  /** strtoupper($s), which only maps the ASCII letters a-z. */
  function Upper(s: string): string {
    seq(|s|, i requires 0 <= i < |s| => UpperChar(s[i]))
  }

  // --------------------------------------------------------------- empty()

  /** empty($s) for a string: true for "" and, as PHP has it, for "0". */
  predicate PhpEmpty(s: string) {
    s == "" || s == "0"
  }

  // ------------------------------------------------- decimal and (int) cast

  predicate IsDigit(c: char) {
    '0' <= c <= '9'
  }

  function DigitChar(d: nat): char
    requires d < 10
  {
    ('0' as int + d) as char
  }

  function DigitValue(c: char): nat
    requires IsDigit(c)
  {
    c as int - '0' as int
  }

  /** How PHP prints a non-negative integer: decimal digits, no leading zero. */
  function NatToString(n: nat): (s: string)
    ensures |s| > 0 && forall i :: 0 <= i < |s| ==> IsDigit(s[i])
    ensures s[0] == '0' ==> n == 0
  {
    if n < 10 then [DigitChar(n)] else NatToString(n / 10) + [DigitChar(n % 10)]
  }

  /** How PHP prints any integer, e.g. what file_put_contents writes for time(). */
  function IntToString(n: int): string {
    if n < 0 then "-" + NatToString(-n) else NatToString(n)
  }

  /** The value of a run of decimal digits. */
  function DecimalValue(s: string): nat
    requires forall i :: 0 <= i < |s| ==> IsDigit(s[i])
  {
    if s == [] then 0 else DecimalValue(s[..|s| - 1]) * 10 + DigitValue(s[|s| - 1])
  }

  /** The longest prefix of `s` made of decimal digits. */
  function LeadingDigits(s: string): (r: string)
    ensures |r| <= |s| && r == s[..|r|] && forall i :: 0 <= i < |r| ==> IsDigit(r[i])
    ensures |r| == |s| || !IsDigit(s[|r|])
  {
    if |s| > 0 && IsDigit(s[0]) then [s[0]] + LeadingDigits(s[1..]) else []
  }

  /** The whitespace PHP's integer conversion skips before the number. */
  predicate IsCastSpace(c: char) {
    c == ' ' || c == '\t' || c == '\n' || c == '\r' || c == '\U{000B}' || c == '\U{000C}'
  }

  function SkipCastSpace(s: string): (r: string)
    ensures |r| <= |s| && r == s[|s| - |r|..]
    ensures r == [] || !IsCastSpace(r[0])
  {
    if |s| > 0 && IsCastSpace(s[0]) then SkipCastSpace(s[1..]) else s
  }

  /** PHP's integer cast of a string: leading whitespace, an optional sign, then the longest run of
      decimal digits; 0 when there is no digit at all ("", "abc"). */
  function IntCast(s: string): int {
    var t := SkipCastSpace(s);
    if |t| > 0 && (t[0] == '-' || t[0] == '+') then
      var v: int := DecimalValue(LeadingDigits(t[1..]));
      if t[0] == '-' then -v else v
    else
      DecimalValue(LeadingDigits(t))
  }

  lemma {:induction false} DecimalValueOfNatToString(n: nat)
    ensures DecimalValue(NatToString(n)) == n
  {
    if n >= 10 {
      var s := NatToString(n);
      assert s[..|s| - 1] == NatToString(n / 10);
      DecimalValueOfNatToString(n / 10);
    }
  }

  lemma LeadingDigitsOfDigits(d: string)
    requires forall i :: 0 <= i < |d| ==> IsDigit(d[i])
    ensures LeadingDigits(d) == d
  {
  }

  lemma CastOfDigits(d: string)
    requires |d| > 0 && forall i :: 0 <= i < |d| ==> IsDigit(d[i])
    ensures IntCast(d) == DecimalValue(d)
  {
    LeadingDigitsOfDigits(d);
    assert !IsCastSpace(d[0]);
    assert SkipCastSpace(d) == d;
  }

  lemma CastOfNegDigits(d: string)
    requires |d| > 0 && forall i :: 0 <= i < |d| ==> IsDigit(d[i])
    ensures IntCast("-" + d) == -(DecimalValue(d) as int)
  {
    var neg := "-" + d;
    LeadingDigitsOfDigits(d);
    assert neg[0] == '-' && !IsCastSpace(neg[0]);
    assert SkipCastSpace(neg) == neg;
    assert neg[1..] == d;
  }

  /** Reading back what PHP printed: `(int)` of the decimal text of `n` is `n`. */
  lemma IntCastRoundTrip(n: int)
    ensures IntCast(IntToString(n)) == n
  {
    var m: nat := if n < 0 then -n else n;
    DecimalValueOfNatToString(m);
    CastOfDigits(NatToString(m));
    CastOfNegDigits(NatToString(m));
  }

  // ------------------------------------------------------ htmlspecialchars()

  /** The characters htmlspecialchars(…, ENT_QUOTES) rewrites. */
  predicate IsHtmlSpecial(c: char) {
    c == '&' || c == '<' || c == '>' || c == '"' || c == '\''
  }

  function HtmlEntity(c: char): string {
    match c
    case '&' => "&amp;"
    case '<' => "&lt;"
    case '>' => "&gt;"
    case '"' => "&quot;"
    case '\'' => "&#039;"
    case _ => [c]
  }

  /** htmlspecialchars($s, ENT_QUOTES, 'UTF-8'): each special character becomes its
      entity, so no markup character survives; text without one is returned
      unchanged. */
  function HtmlEscape(s: string): (r: string)
    ensures |r| >= |s|
    ensures forall i :: 0 <= i < |r| ==> r[i] != '<' && r[i] != '>' && r[i] != '"' && r[i] != '\''
    ensures (forall i :: 0 <= i < |s| ==> !IsHtmlSpecial(s[i])) ==> r == s
  {
    if s == [] then [] else HtmlEntity(s[0]) + HtmlEscape(s[1..])
  }

  // ------------------------------------------------------------- bin2hex()

  predicate IsLowerHex(c: char) {
    '0' <= c <= '9' || 'a' <= c <= 'f'
  }

  predicate IsUpperHex(c: char) {
    '0' <= c <= '9' || 'A' <= c <= 'F'
  }

  function HexDigit(n: nat): (c: char)
    requires n < 16
    ensures IsLowerHex(c)
  {
    if n < 10 then ('0' as int + n) as char else ('a' as int + n - 10) as char
  }

  /** The value of a hex digit of either case. */
  function HexValue(c: char): (n: nat)
    requires IsLowerHex(c) || IsUpperHex(c)
    ensures n < 16
  {
    if '0' <= c <= '9' then c as int - '0' as int
    else if 'a' <= c <= 'f' then c as int - 'a' as int + 10
    else c as int - 'A' as int + 10
  }

  /** bin2hex(): two lower-case hex digits per byte, high nibble first. */
  function BinToHex(bytes: seq<byte>): (h: string)
    ensures |h| == 2 * |bytes|
    ensures forall i :: 0 <= i < |h| ==> IsLowerHex(h[i])
  {
    if bytes == [] then [] else [HexDigit(bytes[0] / 16), HexDigit(bytes[0] % 16)] + BinToHex(bytes[1..])
  }

  /** hex2bin(), reading digits of either case. */
  function HexToBin(h: string): (bytes: seq<byte>)
    requires |h| % 2 == 0
    requires forall i :: 0 <= i < |h| ==> IsLowerHex(h[i]) || IsUpperHex(h[i])
    ensures |bytes| * 2 == |h|
  {
    if h == [] then [] else [HexValue(h[0]) * 16 + HexValue(h[1])] + HexToBin(h[2..])
  }

  lemma HexDigitValue(n: nat)
    requires n < 16
    ensures HexValue(HexDigit(n)) == n && HexValue(UpperChar(HexDigit(n))) == n
  {
  }

  /** hex2bin(bin2hex($b)) == $b, also after strtoupper(). */
  lemma {:induction false} HexRoundTrip(bytes: seq<byte>)
    ensures HexToBin(BinToHex(bytes)) == bytes
    ensures forall i :: 0 <= i < |BinToHex(bytes)| ==> IsUpperHex(Upper(BinToHex(bytes))[i])
    ensures HexToBin(Upper(BinToHex(bytes))) == bytes
  {
    if bytes != [] {
      var b := bytes[0];
      var h := BinToHex(bytes);
      HexDigitValue(b / 16);
      HexDigitValue(b % 16);
      HexRoundTrip(bytes[1..]);
      assert h[2..] == BinToHex(bytes[1..]);
      assert Upper(h)[2..] == Upper(h[2..]);
    }
  }

  /** The hex text of a prefix is the prefix of the hex text. */
  lemma {:induction false} BinToHexPrefix(bytes: seq<byte>, n: nat)
    requires n <= |bytes|
    ensures BinToHex(bytes)[..2 * n] == BinToHex(bytes[..n])
  {
    if n > 0 {
      BinToHexPrefix(bytes[1..], n - 1);
      assert bytes[..n][1..] == bytes[1..][..n - 1];
    }
  }

  // -------------------------------------------------- literal search/replace

  predicate StartsWith(s: string, p: string) {
    |p| <= |s| && s[..|p|] == p
  }

  predicate EndsWith(s: string, p: string) {
    |p| <= |s| && s[|s| - |p|..] == p
  }

  /** `p` occurs in `s` starting at index `i`. */
  predicate OccursAt(s: string, p: string, i: int) {
    0 <= i && i + |p| <= |s| && s[i..i + |p|] == p
  }

  predicate Contains(s: string, p: string) {
    exists i :: 0 <= i <= |s| - |p| && OccursAt(s, p, i)
  }

  /** The leftmost occurrence of `p` in `s` at or after index `from`. */
  function FindFrom(s: string, p: string, from: nat): (r: Option<nat>)
    ensures r.Some? ==> (from <= r.value && OccursAt(s, p, r.value)
                         && forall j :: from <= j < r.value ==> !OccursAt(s, p, j))
    ensures r.None? ==> forall j :: from <= j ==> !OccursAt(s, p, j)
    decreases |s| - from
  {
    if from + |p| > |s| then None
    else if s[from..from + |p|] == p then Some(from)
    else FindFrom(s, p, from + 1)
  }

  /** An unanchored sed substitution `s/p/r/` without the g flag: the leftmost
      occurrence of `p` is replaced by `r`. */
  function ReplaceFirst(s: string, p: string, r: string): string {
    match FindFrom(s, p, 0)
    case None => s
    case Some(i) => s[..i] + r + s[i + |p|..]
  }

  /** An anchored sed substitution `s/^p/r/`. */
  function ReplacePrefix(s: string, p: string, r: string): string {
    if StartsWith(s, p) then r + s[|p|..] else s
  }
}
