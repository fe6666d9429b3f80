/** The HTTP wrapper (class Request): the status check that head() and
    stream() apply to every reply, the two header probes, and the
    magic-number sniffing that guesses a file extension. The session is
    never changed by these calls, so every one is a function of the reply
    the network gave. */
module Request {
  import opened Types
  import opened Text

  // ---------------------------------------------------------------------
  // head() and stream()

  /** stream(): the GET reply once raise_for_status has looked at it. */
  function Stream(reply: Response): (r: Result<Response>)
    ensures r.Ok? <==> reply.Response? && !IsErrorStatus(reply.status)
    ensures r.Ok? ==> r.value == reply
    ensures reply.Unreachable? ==> r == Err(TransportError)
    ensures reply.Response? && IsErrorStatus(reply.status) ==> r == Err(HttpError(reply.status))
  {
    if reply.Unreachable? then Err(TransportError)
    else if IsErrorStatus(reply.status) then Err(HttpError(reply.status))
    else Ok(reply)
  }

  /** head(): the headers of the HEAD reply, or the exception raise_for_status raises. */
  function Head(reply: Response): (r: Result<Headers>)
    ensures r.Ok? <==> Stream(reply).Ok?
    ensures r.Ok? ==> r.value == reply.headers
    ensures r.Err? ==> r.error == Stream(reply).error
  {
    match Stream(reply)
    case Ok(ok) => Ok(ok.headers)
    case Err(e) => Err(e)
  }

  /** headers.get(name): header names are compared without regard to case. */
  function Header(h: Headers, name: string): (r: Option<string>)
    ensures r.Some? <==> exists k :: k in h && Lower(k) == Lower(name)
    ensures r.Some? ==> forall k :: k in h && Lower(k) == Lower(name) ==> r.value == h[k]
  {
    if Lower(name) in h then Some(h[Lower(name)]) else None
  }

  // ---------------------------------------------------------------------
  // supports_range() and content_length()

  /** The values of Accept-Ranges that lower-case to "bytes": the five
      letters of the range unit of section 14.1 of RFC 9110, each in either case. */
  predicate NamesBytesUnit(v: string) {
    |v| == 5 && forall i :: 0 <= i < 5 ==> v[i] == "bytes"[i] || v[i] == "BYTES"[i]
  }

  lemma LowersToBytes(v: string)
    ensures Lower(v) == "bytes" <==> NamesBytesUnit(v)
  {
    if Lower(v) == "bytes" {
      forall i | 0 <= i < 5
        ensures v[i] == "bytes"[i] || v[i] == "BYTES"[i]
      {
        assert LowerChar(v[i]) == "bytes"[i];
      }
    }
    if NamesBytesUnit(v) {
      assert forall i | 0 <= i < 5 :: Lower(v)[i] == "bytes"[i];
    }
  }

  /** supports_range(): does the HEAD reply advertise byte ranges? */
  function SupportsRange(probe: Response): (r: Result<bool>)
    ensures r.Err? <==> Head(probe).Err?
    ensures r.Err? ==> r.error == Head(probe).error
    ensures r.Ok? ==> (r.value <==>
      Header(probe.headers, "Accept-Ranges").Some? && NamesBytesUnit(Header(probe.headers, "Accept-Ranges").value))
  {
    match Head(probe)
    case Err(e) => Err(e)
    case Ok(h) =>
      var v := match Header(h, "Accept-Ranges") case Some(v) => v case None => "";
      LowersToBytes(v);
      Ok(Lower(v) == "bytes")
  }

  /** content_length(): int() of the Content-Length header, 0 when there is none. */
  function ContentLength(probe: Response): (r: Result<int>)
    ensures Head(probe).Err? ==> r == Err(Head(probe).error)
    ensures Head(probe).Ok? && Header(probe.headers, "Content-Length").None? ==> r == Ok(0)
  {
    match Head(probe)
    case Err(e) => Err(e)
    case Ok(h) =>
      match Header(h, "Content-Length")
      case None => Ok(0)
      case Some(v) =>
        match ParseInt(v)
        case Some(n) => Ok(n)
        case None => Err(ValueError)
  }

  /** A Content-Length written as str(n) reads back as n, when n has no
      more digits than int() converts. */
  lemma ContentLengthReadsNumeral(probe: Response, n: int)
    requires Head(probe).Ok?
    requires Header(probe.headers, "Content-Length") == Some(IntToString(n))
    requires |NatToString(Abs(n))| <= MaxStrDigits
    ensures ContentLength(probe) == Ok(n)
  {
    ParseIntRoundTrip(n);
  }

  /** A Content-Length of more digits than int() converts raises ValueError. */
  lemma ContentLengthRejectsLongNumeral(probe: Response, v: string)
    requires Head(probe).Ok?
    requires Header(probe.headers, "Content-Length") == Some(v)
    requires IsDigits(v) && |v| > MaxStrDigits
    ensures ContentLength(probe) == Err(ValueError)
  {
    ParseIntRejectsLongNumerals(v);
  }

  /** A Content-Length holding a character that cannot be part of a numeral
      raises ValueError instead of defaulting to 0. */
  lemma ContentLengthRejectsNonNumeral(probe: Response, v: string, k: nat)
    requires Head(probe).Ok?
    requires Header(probe.headers, "Content-Length") == Some(v)
    requires k < |v| && !(IsSpace(v[k]) || IsDigit(v[k]) || v[k] == '_' || v[k] == '+' || v[k] == '-')
    ensures ContentLength(probe) == Err(ValueError)
  {
    ParseIntOnlyNumerals(v, k);
  }

  // ---------------------------------------------------------------------
  // detect_extension()

  /** The class-level table, in its declaration order (which is the order
      in which a Python dict is iterated). */
  const Signatures: seq<(string, string)> := [
    ("25504446", "pdf"),
    ("89504e47", "png"),
    ("ffd8ffe0", "jpg"),
    ("504b0304", "zip"),
    ("47494638", "gif"),
    ("66747970", "mp4"),
    ("3c3f786d6c", "xml"),
    ("3c21444f", "html"),
    ("7b22636f", "json")
  ]

  /** Every extension detect_extension can return. */
  const Extensions: set<string> :=
    {".pdf", ".png", ".jpg", ".zip", ".gif", ".mp4", ".xml", ".html", ".json", ".bin"}

  /** chunk.hex().lower() */
  function Signature(chunk: seq<byte>): (sig: string)
    ensures |sig| == 2 * |chunk|
    ensures forall i :: 0 <= i < |sig| ==> IsHexDigit(sig[i])
    ensures Unhex(sig) == chunk
  {
    HexIsLower(chunk);
    HexRoundTrip(chunk);
    Lower(Hex(chunk))
  }

  /** The index of the first table entry whose key the signature starts with. */
  function FirstMatch(sig: string, table: seq<(string, string)>): (r: Option<nat>)
    ensures r.Some? ==> r.value < |table| && IsPrefix(table[r.value].0, sig)
    ensures r.Some? ==> forall j :: 0 <= j < r.value ==> !IsPrefix(table[j].0, sig)
    ensures r.None? ==> forall j :: 0 <= j < |table| ==> !IsPrefix(table[j].0, sig)
  {
    if table == [] then None
    else if IsPrefix(table[0].0, sig) then Some(0)
    else match FirstMatch(sig, table[1..])
      case None => None
      case Some(k) => Some(k + 1)
  }

  /** The signature detect_extension computes from its own GET reply, or
      None where that attempt raises: no reply, a 4xx or 5xx status, or a
      body that breaks off before 8 bytes could be read. */
  function Sniff(reply: Response): (sig: Option<string>)
    ensures sig.Some? <==> Stream(reply).Ok? && (!reply.cut || |Concat(reply.chunks)| >= 8)
    ensures sig.Some? ==> var body := Concat(reply.chunks);
      |sig.value| <= 16 && |sig.value| % 2 == 0
      && (forall i :: 0 <= i < |sig.value| ==> IsHexDigit(sig.value[i]))
      && Unhex(sig.value) == body[..if |body| < 8 then |body| else 8]
  {
    match Stream(reply)
    case Err(_) => None
    case Ok(ok) =>
      var body := Concat(ok.chunks);
      if ok.cut && |body| < 8 then None
      else Some(Signature(if |body| <= 8 then body else body[..8]))
  }

  /** detect_extension(): "." and the extension of the first matching
      table entry, ".bin" when nothing matches or anything raised. */
  function DetectExtension(reply: Response): (ext: string)
    ensures ext in Extensions
  {
    match Sniff(reply)
    case None => ".bin"
    case Some(sig) =>
      match FirstMatch(sig, Signatures)
      case None => ".bin"
      case Some(i) => DottedExtension(i); "." + Signatures[i].1
  }

  lemma DottedExtension(i: nat)
    requires i < |Signatures|
    ensures "." + Signatures[i].1 in Extensions && "." + Signatures[i].1 != ".bin"
  {
    match i
    case 0 => assert "." + Signatures[i].1 == ".pdf";
    case 1 => assert "." + Signatures[i].1 == ".png";
    case 2 => assert "." + Signatures[i].1 == ".jpg";
    case 3 => assert "." + Signatures[i].1 == ".zip";
    case 4 => assert "." + Signatures[i].1 == ".gif";
    case 5 => assert "." + Signatures[i].1 == ".mp4";
    case 6 => assert "." + Signatures[i].1 == ".xml";
    case 7 => assert "." + Signatures[i].1 == ".html";
    case 8 => assert "." + Signatures[i].1 == ".json";
  }

  /** No key of the table is a prefix of another. */
  lemma SignatureKeysPrefixFree()
    ensures forall i, j :: 0 <= i < |Signatures| && 0 <= j < |Signatures| && i != j ==>
      !IsPrefix(Signatures[i].0, Signatures[j].0)
  {
    forall i, j | 0 <= i < |Signatures| && 0 <= j < |Signatures| && i != j
      ensures !IsPrefix(Signatures[i].0, Signatures[j].0)
    {
      // the keys differ in their first character, or else in their fourth
      var p, q := Signatures[i].0, Signatures[j].0;
      assert p[0] != q[0] || p[3] != q[3];
    }
  }

  lemma CommonPrefix(p: string, q: string, s: string)
    requires IsPrefix(p, s) && IsPrefix(q, s) && |p| <= |q|
    ensures IsPrefix(p, q)
  {
    assert q[..|p|] == s[..|p|];
  }

  /** Since the keys are prefix-free, the entry found is the only one that
      matches: the table order does not decide the result. */
  lemma DetectExtensionMatches(reply: Response, i: nat)
    requires Sniff(reply).Some? && i < |Signatures|
    requires IsPrefix(Signatures[i].0, Sniff(reply).value)
    ensures DetectExtension(reply) == "." + Signatures[i].1
  {
    var sig := Sniff(reply).value;
    var m := FirstMatch(sig, Signatures);
    SignatureKeysPrefixFree();
    if m.value != i {
      var j := m.value;
      if |Signatures[j].0| <= |Signatures[i].0| {
        CommonPrefix(Signatures[j].0, Signatures[i].0, sig);
      } else {
        CommonPrefix(Signatures[i].0, Signatures[j].0, sig);
      }
    }
  }

  /** ".bin" comes back exactly when the probe raised or no key starts the signature. */
  lemma DetectExtensionFallsBack(reply: Response)
    ensures DetectExtension(reply) == ".bin" <==>
      Sniff(reply).None? || forall i :: 0 <= i < |Signatures| ==> !IsPrefix(Signatures[i].0, Sniff(reply).value)
  {
    if Sniff(reply).Some? {
      var m := FirstMatch(Sniff(reply).value, Signatures);
      if m.Some? {
        DottedExtension(m.value);
      }
    }
  }

  lemma HexOfPrefix(b: seq<byte>, n: nat)
    requires n <= |b|
    ensures Hex(b[..n]) == Hex(b)[..2 * n]
  {
    var l, r := Hex(b[..n]), Hex(b)[..2 * n];
    forall i | 0 <= i < 2 * n
      ensures l[i] == r[i]
    {
      assert b[..n][i / 2] == b[i / 2];
    }
  }

  /** The PNG magic number in hexadecimal. */
  lemma PngMagic()
    ensures Hex([0x89, 0x50, 0x4e, 0x47]) == Signatures[1].0
  {
    var h := Hex([0x89, 0x50, 0x4e, 0x47]);
    assert h[0] == '8' && h[1] == '9' && h[2] == '5' && h[3] == '0';
    assert h[4] == '4' && h[5] == 'e' && h[6] == '4' && h[7] == '7';
  }

  /** The signature of a body that starts with 89 50 4e 47 starts with the
      PNG key. */
  lemma PngSniffed(reply: Response)
    requires Stream(reply).Ok? && !reply.cut
    requires |Concat(reply.chunks)| >= 4
    requires Concat(reply.chunks)[..4] == [0x89, 0x50, 0x4e, 0x47]
    ensures Sniff(reply).Some? && IsPrefix(Signatures[1].0, Sniff(reply).value)
  {
    var body := Concat(reply.chunks);
    var chunk := if |body| <= 8 then body else body[..8];
    HexIsLower(chunk);
    assert Sniff(reply).value == Hex(chunk);
    assert chunk[..4] == body[..4];
    HexOfPrefix(chunk, 4);
    PngMagic();
  }

  /** A body that starts with the PNG magic number 89 50 4e 47 is given ".png". */
  lemma DetectsPng(reply: Response)
    requires Stream(reply).Ok? && !reply.cut
    requires |Concat(reply.chunks)| >= 4
    requires Concat(reply.chunks)[..4] == [0x89, 0x50, 0x4e, 0x47]
    ensures DetectExtension(reply) == ".png"
  {
    PngSniffed(reply);
    DetectExtensionMatches(reply, 1);
    PngExtension();
  }

  lemma PngExtension()
    ensures "." + Signatures[1].1 == ".png"
  {
  }

  /** The network failing during sniffing gives ".bin" and no exception. */
  lemma DetectExtensionUnreachable()
    ensures DetectExtension(Unreachable) == ".bin"
  {
  }

  /** A body that breaks off before 8 bytes makes r.raw.read(8) raise;
      detect_extension swallows the exception and gives ".bin". */
  lemma DetectExtensionShortCutBody(reply: Response)
    requires Stream(reply).Ok? && reply.cut && |Concat(reply.chunks)| < 8
    ensures Sniff(reply).None? && DetectExtension(reply) == ".bin"
  {
  }
}
