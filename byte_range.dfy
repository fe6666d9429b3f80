/** The Range header a range worker sends, and a reader for the one form
    of it the worker means to send: a single byte-range-spec with both
    positions, "bytes=first-last", last inclusive (section 14.1.2 of
    RFC 9110). */
module ByteRange {
  import opened Types
  import opened Text

  /** f"bytes={start}-{end}" */
  function RangeHeader(first: int, last: int): string {
    "bytes=" + IntToString(first) + "-" + IntToString(last)
  }

  function IndexOf(s: string, c: char): (r: Option<nat>)
    ensures r.Some? ==> r.value < |s| && s[r.value] == c
    ensures r.Some? ==> forall j :: 0 <= j < r.value ==> s[j] != c
    ensures r.None? ==> forall j :: 0 <= j < |s| ==> s[j] != c
  {
    if s == [] then None
    else if s[0] == c then Some(0)
    else match IndexOf(s[1..], c)
      case None => None
      case Some(k) => Some(k + 1)
  }

  /** The positions of a "bytes=first-last" value, or None when the value
      is not of that form or names an invalid range (section 14.1.2 of
      RFC 9110: a byte-range-spec whose last position is below its first
      is invalid). */
  function ParseByteRange(h: string): Option<(nat, nat)> {
    if |h| < 6 || h[..6] != "bytes=" then None
    else
      var spec := h[6..];
      match IndexOf(spec, '-')
      case None => None
      case Some(k) =>
        var first, last := spec[..k], spec[k + 1..];
        if |first| > 0 && |last| > 0 && IsDigits(first) && IsDigits(last)
           && DigitsToNat(first) <= DigitsToNat(last)
        then Some((DigitsToNat(first), DigitsToNat(last)))
        else None
  }

  /** The first occurrence is found. */
  lemma IndexOfFirst(s: string, c: char, m: nat)
    requires m < |s| && s[m] == c
    requires forall j :: 0 <= j < m ==> s[j] != c
    ensures IndexOf(s, c) == Some(m)
  {
  }

  lemma SplitAtDash(first: nat, last: int)
    ensures var spec := RangeHeader(first, last)[6..];
      RangeHeader(first, last)[..6] == "bytes="
      && spec == NatToString(first) + "-" + IntToString(last)
      && IndexOf(spec, '-') == Some(|NatToString(first)|)
  {
    var a := NatToString(first);
    var spec := a + "-" + IntToString(last);
    var h := "bytes=" + spec;
    assert RangeHeader(first, last) == h;
    assert h[..6] == "bytes=" && h[6..] == spec;
    assert spec[|a|] == '-';
    assert forall j :: 0 <= j < |a| ==> spec[j] == a[j] && IsDigit(a[j]);
    IndexOfFirst(spec, '-', |a|);
  }

  /** For a non-empty window the header reads back as the window itself. */
  lemma RangeHeaderRoundTrip(first: nat, last: nat)
    requires first <= last
    ensures ParseByteRange(RangeHeader(first, last)) == Some((first, last))
  {
    SplitAtDash(first, last);
    var a := NatToString(first);
    var spec := a + "-" + NatToString(last);
    assert spec[..|a|] == a && spec[|a| + 1..] == NatToString(last);
    NatToStringRoundTrip(first);
    NatToStringRoundTrip(last);
  }

  /** For an empty window (last below first, e.g. "bytes=0--1") the header
      is not a valid byte range. */
  lemma RangeHeaderOfEmptyWindow(first: nat, last: int)
    requires last < first
    ensures ParseByteRange(RangeHeader(first, last)) == None
  {
    SplitAtDash(first, last);
    var a := NatToString(first);
    var b := IntToString(last);
    var spec := a + "-" + b;
    assert spec[..|a|] == a && spec[|a| + 1..] == b;
    if last >= 0 {
      NatToStringRoundTrip(first);
      NatToStringRoundTrip(last);
    } else {
      assert !IsDigit(b[0]);
    }
  }
}
