/** Values shared by the HTTP wrapper and the download engine: bytes, the
    replies the network gives, and the exceptions the Python code raises. */
module Types {

  newtype byte = x: int | 0 <= x < 256

  datatype Option<T> = None | Some(value: T)

  /** The exceptions that can leave the core. */
  datatype Error =
    | HttpError(status: int)   // raise_for_status on a 4xx or 5xx reply
    | TransportError           // no reply at all, or the body broke off while being read
    | ValueError               // int() of a Content-Length that is not a number
    | ZeroDivisionError        // size // threads with threads == 0

  datatype Result<T> = Ok(value: T) | Err(error: Error)

  datatype Outcome = Pass | Fail(error: Error)

  /** Lower-casing of one character. Only the ASCII letters change: the
      only characters whose Python lower case is an ASCII letter are the
      ASCII capitals, the Kelvin sign (giving 'k') and the dotted capital I
      (giving "i" plus a combining dot), so comparing a lowered value with
      an all-ASCII word that has neither 'k' nor 'i' comes out the same. */
  function LowerChar(c: char): char {
    if 'A' <= c <= 'Z' then (c as int + 32) as char else c
  }

  /** s.lower() */
  function Lower(s: string): (r: string)
    ensures |r| == |s|
    ensures forall i :: 0 <= i < |s| ==> r[i] == LowerChar(s[i])
  {
    seq(|s|, i requires 0 <= i < |s| => LowerChar(s[i]))
  }

  /** Response headers. The HTTP library keeps them in a case-insensitive
      dictionary; here every key is stored lower-cased, so two names that
      differ only in case cannot both be present, and lookups lower-case
      the name asked for. */
  type Headers = h: map<string, string> | LowerCaseKeys(h)
    witness map[]

  predicate LowerCaseKeys(h: map<string, string>) {
    forall k :: k in h ==> Lower(k) == k
  }

  /** What the network gives back for one request. `chunks` is what
      iter_content yields, in order; `cut` says that reading the body raises
      once those chunks have been delivered (a connection reset mid-body). */
  datatype Response =
    | Unreachable
    | Response(status: int, headers: Headers, chunks: seq<seq<byte>>, cut: bool)

  /** The statuses on which raise_for_status raises. */
  predicate IsErrorStatus(status: int) {
    400 <= status < 600
  }

  /** The body a sequence of chunks spells, chunk after chunk. */
  function Concat(chunks: seq<seq<byte>>): (r: seq<byte>)
    ensures chunks == [] ==> r == []
  {
    if chunks == [] then [] else Concat(chunks[..|chunks| - 1]) + chunks[|chunks| - 1]
  }

  lemma ConcatSnoc(chunks: seq<seq<byte>>, i: nat)
    requires i < |chunks|
    ensures Concat(chunks[..i + 1]) == Concat(chunks[..i]) + chunks[i]
  {
    assert chunks[..i + 1][..i] == chunks[..i];
  }
}
