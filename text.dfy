/** The string operations the HTTP wrapper relies on: str.startswith,
    Python's str() and int() on integers, and bytes.hex(). */
module Text {
  import opened Types

  // ---------------------------------------------------------------------
  // Prefixes

  /** s.startswith(p) */
  predicate IsPrefix(p: string, s: string) {
    |p| <= |s| && s[..|p|] == p
  }

  // ---------------------------------------------------------------------
  // Decimal numerals

  predicate IsDigit(c: char) {
    '0' <= c <= '9'
  }

  predicate IsDigits(s: string) {
    forall i :: 0 <= i < |s| ==> IsDigit(s[i])
  }

  function DigitChar(d: nat): (c: char)
    requires d < 10
    ensures IsDigit(c)
  {
    ('0' as int + d) as char
  }

  function DigitValue(c: char): (d: nat)
    requires IsDigit(c)
    ensures d < 10
  {
    c as int - '0' as int
  }

  /** str(n) for a non-negative n: its decimal digits, most significant first. */
  function NatToString(n: nat): (s: string)
    ensures |s| > 0 && IsDigits(s)
  {
    if n < 10 then [DigitChar(n)] else NatToString(n / 10) + [DigitChar(n % 10)]
  }

  /** str(n) for any int, as an f-string prints it. */
  function IntToString(n: int): (s: string)
    ensures |s| > 0
    ensures n >= 0 <==> IsDigit(s[0])
    ensures n < 0 <==> s[0] == '-'
  {
    if n < 0 then "-" + NatToString(-n) else NatToString(n)
  }

  /** The number a string of decimal digits denotes. */
  function DigitsToNat(s: string): nat
    requires IsDigits(s)
  {
    if s == [] then 0 else DigitsToNat(s[..|s| - 1]) * 10 + DigitValue(s[|s| - 1])
  }

  lemma {:induction false} NatToStringRoundTrip(n: nat)
    ensures DigitsToNat(NatToString(n)) == n
  {
    if n >= 10 {
      var s := NatToString(n);
      assert s[..|s| - 1] == NatToString(n / 10);
      assert DigitValue(s[|s| - 1]) == n % 10;
      NatToStringRoundTrip(n / 10);
    }
  }

  // ---------------------------------------------------------------------
  // Python's int() on a string

  /** The white space int() skips on both sides of a numeral. CPython
      first turns every non-ASCII character for which str.isspace() holds
      into ' ', keeps the ASCII characters as they are, and then skips only
      ' ', '\t', '\n', '\v', '\f' and '\r'. So the separators U+001C to
      U+001F, although str.isspace() holds for them, are not skipped. */
  predicate IsSpace(c: char) {
    c == ' ' || '\t' <= c <= '\r' || c == '\U{85}' || c == '\U{A0}'
    || c == '\U{1680}' || '\U{2000}' <= c <= '\U{200A}' || c == '\U{2028}' || c == '\U{2029}'
    || c == '\U{202F}' || c == '\U{205F}' || c == '\U{3000}'
  }

  function TrimLeft(s: string): (r: string)
    ensures |r| <= |s| && r == s[|s| - |r|..]
    ensures forall i :: 0 <= i < |s| - |r| ==> IsSpace(s[i])
    ensures r != [] ==> !IsSpace(r[0])
  {
    if s != [] && IsSpace(s[0]) then TrimLeft(s[1..]) else s
  }

  function TrimRight(s: string): (r: string)
    ensures |r| <= |s| && r == s[..|r|]
    ensures forall i :: |r| <= i < |s| ==> IsSpace(s[i])
    ensures r != [] ==> !IsSpace(r[|r| - 1])
  {
    if s != [] && IsSpace(s[|s| - 1]) then TrimRight(s[..|s| - 1]) else s
  }

  /** s without the white space int() skips around a numeral. */
  function Strip(s: string): string {
    TrimRight(TrimLeft(s))
  }

  /** Digits in groups separated by single underscores, as int() accepts
      them: no underscore at either end and never two in a row. */
  predicate WellGrouped(b: string) {
    |b| > 0 && IsDigit(b[0]) && IsDigit(b[|b| - 1])
    && DigitsOrUnderscores(b)
    && forall i :: 0 <= i < |b| - 1 && b[i] == '_' ==> IsDigit(b[i + 1])
  }

  predicate DigitsOrUnderscores(b: string) {
    forall i :: 0 <= i < |b| ==> IsDigit(b[i]) || b[i] == '_'
  }

  function RemoveUnderscores(b: string): (r: string)
    requires DigitsOrUnderscores(b)
    ensures IsDigits(r)
    ensures IsDigits(b) ==> r == b
  {
    if b == [] then []
    else (if b[0] == '_' then [] else [b[0]]) + RemoveUnderscores(b[1..])
  }

  /** The stripped numeral without its sign, if it has one. */
  function Unsigned(t: string): string {
    if |t| > 0 && (t[0] == '-' || t[0] == '+') then t[1..] else t
  }

  /** CPython's default limit on the number of digits int() converts from
      a decimal string (sys.get_int_max_str_digits()); underscores do not
      count, leading zeros do. */
  const MaxStrDigits := 4300

  function Abs(n: int): nat {
    if n < 0 then -n else n
  }

  /** int(s): None where Python raises ValueError, which includes a numeral
      of more than MaxStrDigits digits. Non-ASCII decimal digits, which
      Python also accepts, are not modelled. */
  function ParseInt(s: string): Option<int> {
    var t := Strip(s);
    var signed := |t| > 0 && (t[0] == '-' || t[0] == '+');
    var body := Unsigned(t);
    if WellGrouped(body) && |RemoveUnderscores(body)| <= MaxStrDigits then
      var magnitude: int := DigitsToNat(RemoveUnderscores(body));
      Some(if signed && t[0] == '-' then -magnitude else magnitude)
    else None
  }

  /** int(str(n)) == n for every n of at most MaxStrDigits digits. */
  lemma ParseIntRoundTrip(n: int)
    requires |NatToString(Abs(n))| <= MaxStrDigits
    ensures ParseInt(IntToString(n)) == Some(n)
  {
    var s := IntToString(n);
    var digits := NatToString(Abs(n));
    StripNothing(s);
    if n < 0 {
      assert s[1..] == digits;
    }
    assert Unsigned(s) == digits;
    DigitsWellGrouped(digits);
    NatToStringRoundTrip(Abs(n));
  }

  /** A numeral of more than MaxStrDigits digits makes int() raise. */
  lemma ParseIntRejectsLongNumerals(d: string)
    requires IsDigits(d) && |d| > MaxStrDigits
    ensures ParseInt(d) == None
  {
    StripNothing(d);
    assert Unsigned(d) == d;
    DigitsWellGrouped(d);
  }

  /** int("\x1c5") raises: U+001C is not skipped although it is white
      space to str.isspace(). */
  lemma ParseIntRejectsFileSeparator()
    ensures ParseInt("\U{1C}5") == None
  {
    ParseIntOnlyNumerals("\U{1C}5", 0);
  }

  /** str(n) has no white space to strip. */
  lemma StripNothing(s: string)
    requires s != [] && (IsDigit(s[0]) || s[0] == '-') && IsDigit(s[|s| - 1])
    ensures Strip(s) == s
  {
    assert !IsSpace(s[0]) && !IsSpace(s[|s| - 1]);
    assert TrimLeft(s) == s;
    assert TrimRight(s) == s;
  }

  lemma DigitsWellGrouped(d: string)
    requires d != [] && IsDigits(d)
    ensures WellGrouped(d) && RemoveUnderscores(d) == d
  {
  }

  /** int() raises on any string holding a character that is neither
      white space, a digit, an underscore nor a sign. */
  lemma ParseIntOnlyNumerals(s: string, k: nat)
    requires k < |s|
    requires !(IsSpace(s[k]) || IsDigit(s[k]) || s[k] == '_' || s[k] == '+' || s[k] == '-')
    ensures ParseInt(s) == None
  {
    StripKeeps(s, k);
    var t := Strip(s);
    var j := k - (|s| - |TrimLeft(s)|);
    var body := Unsigned(t);
    if |t| > 0 && (t[0] == '-' || t[0] == '+') {
      assert j != 0;
      assert body[j - 1] == s[k];
    } else {
      assert body[j] == s[k];
    }
    assert !DigitsOrUnderscores(body);
  }

  /** A character that is not white space int() skips survives the
      trimming, shifted left by the white space trimmed in front. */
  lemma StripKeeps(s: string, k: nat)
    requires k < |s| && !IsSpace(s[k])
    ensures var a := |s| - |TrimLeft(s)|;
      a <= k && k - a < |Strip(s)| && Strip(s)[k - a] == s[k]
  {
    TrimLeftKeeps(s, k);
    var l := TrimLeft(s);
    TrimRightKeeps(l, k - (|s| - |l|));
  }

  lemma TrimLeftKeeps(s: string, k: nat)
    requires k < |s| && !IsSpace(s[k])
    ensures var a := |s| - |TrimLeft(s)|;
      a <= k && TrimLeft(s)[k - a] == s[k]
  {
  }

  lemma TrimRightKeeps(s: string, k: nat)
    requires k < |s| && !IsSpace(s[k])
    ensures k < |TrimRight(s)| && TrimRight(s)[k] == s[k]
  {
  }

  // ---------------------------------------------------------------------
  // bytes.hex()

  predicate IsHexDigit(c: char) {
    '0' <= c <= '9' || 'a' <= c <= 'f'
  }

  /** The lower-case hexadecimal digit of a value below 16. */
  function HexDigit(d: nat): (c: char)
    requires d < 16
    ensures IsHexDigit(c) && HexValue(c) == d
  {
    if d < 10 then ('0' as int + d) as char else ('a' as int + d - 10) as char
  }

  function HexValue(c: char): (v: nat)
    requires IsHexDigit(c)
    ensures v < 16
  {
    if '0' <= c <= '9' then c as int - '0' as int else c as int - 'a' as int + 10
  }

  /** bytes.hex(): two lower-case hexadecimal digits per byte, high nibble
      first, so digit i comes from byte i / 2. */
  function Hex(b: seq<byte>): (r: string)
    ensures |r| == 2 * |b|
    ensures forall i :: 0 <= i < |r| ==> IsHexDigit(r[i])
  {
    seq(2 * |b|, i requires 0 <= i < 2 * |b| =>
      HexDigit(if i % 2 == 0 then b[i / 2] as int / 16 else b[i / 2] as int % 16))
  }

  /** bytes.fromhex() on a string of lower-case digit pairs: the inverse of Hex. */
  function Unhex(s: string): (b: seq<byte>)
    requires |s| % 2 == 0
    requires forall i :: 0 <= i < |s| ==> IsHexDigit(s[i])
    ensures |b| == |s| / 2
  {
    seq(|s| / 2, j requires 0 <= j < |s| / 2 => (HexValue(s[2 * j]) * 16 + HexValue(s[2 * j + 1])) as byte)
  }

  /** The two digits of byte j of b are digits 2j and 2j + 1 of Hex(b). */
  lemma HexPair(b: seq<byte>, j: nat)
    requires j < |b|
    ensures Hex(b)[2 * j] == HexDigit(b[j] as int / 16)
    ensures Hex(b)[2 * j + 1] == HexDigit(b[j] as int % 16)
  {
    assert (2 * j) % 2 == 0 && (2 * j) / 2 == j;
    assert (2 * j + 1) % 2 == 1 && (2 * j + 1) / 2 == j;
  }

  lemma HexRoundTrip(b: seq<byte>)
    ensures Unhex(Hex(b)) == b
  {
    var u := Unhex(Hex(b));
    forall j | 0 <= j < |b|
      ensures u[j] == b[j]
    {
      HexPair(b, j);
    }
  }

  /** bytes.hex() is already lower case, so the .lower() after it changes nothing. */
  lemma HexIsLower(b: seq<byte>)
    ensures Lower(Hex(b)) == Hex(b)
  {
  }
}
