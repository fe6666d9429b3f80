# threadracer download engine, modelled in Dafny

threadracer is a command-line file fetcher. Its engine downloads a file
in one of two ways:

- **Single stream.** One GET request whose body is written straight into
  the destination file.
- **Threaded.** Used when the server advertises byte ranges (`Accept-Ranges:
  bytes`) and reports a positive `Content-Length`. The engine:
  - cuts `[0, size)` into one window per thread (`part = size // threads`,
    with the last window taking the remainder);
  - empties the destination and truncates it to `size` bytes;
  - runs one worker per window. Each worker sends `Range:
    bytes=<start>-<end>` and writes its reply from `start` on.

The HTTP wrapper around the engine provides:

- a status check (`raise_for_status`);
- the two header probes behind that decision;
- a best-effort sniffer that guesses a file extension from the first 8
  bytes of the body.

This project models these parts:

- `types.dfy`: bytes, the replies the network gives (`Response`: no reply,
  or status, headers, the chunks of the body and whether the body breaks
  off), the exceptions that leave the core, and ASCII lower-casing. The
  header map keeps its names lower-cased, as the HTTP library's
  case-insensitive dictionary compares them.
- `text.dfy`: the string operations the wrapper relies on:
  - `str.startswith`;
  - `str()` and `int()` on integers (white space, sign, underscore groups);
  - `bytes.hex()`.
- `request.py` → `request.dfy`: `head`, `stream`, `supports_range`,
  `content_length`, the signature table and `detect_extension`. All of them
  are functions of the reply.
- `byte_range.dfy`: the Range header value, and a reader for the
  `bytes=first-last` byte-range-spec of section 14.1.2 of RFC 9110.
- `segments.dfy`: the window arithmetic of `_download_threaded`.
- `destination.dfy`: the destination file as a class with its contents
  and the position of the handle. It supports `open(…, "wb")`,
  `open(…, "r+b")`, `truncate`, `seek` and `write`, including growth and
  zero-filling.
- `downloader.py` → `downloader.dfy`: `Downloader.download`,
  `_download_single`, `_download_threaded` and `_download_range` as methods
  on a `DestinationFile`. Each is proved equal to a specification function
  (`Perform`, `SingleAttempt`, `RangeAttempt`, `RunWorkers`), and the
  properties of the engine are proved about those functions.

The network is a `Server` value with three parts:

- the reply to the HEAD behind `supports_range`;
- the reply to the separate HEAD behind `content_length`;
- a function from the Range header value (or none) to the reply of a GET.

The threads run one after the other in window order.
When every reply fits its window, any two workers on disjoint windows
commute (`DisjointWorkersCommute`). Each byte of the file is then what
its own worker writes into the zero-filled file, whatever the other
workers' replies were (`ThreadedDownloadByteByByte`).

In the following places the code behaves differently from what the
system is meant to do, and the model follows the code:

- **Worker exceptions.** A download is meant to fail when any range
  worker fails. In the code an exception in a range worker ends that
  thread only: `threading.Thread` reports it and `join` does not re-raise
  it. So the threaded path returns the path even when every worker
  failed. `ThreadedDownloadAlwaysReturnsPath` states this.
- **Which statuses raise.** Every reply outside 2xx is meant to be an
  error. `raise_for_status` raises on 4xx and 5xx replies only.
- **Content-Length.** A length that cannot be read is meant to count as
  0. In the code only an absent header gives 0: a `Content-Length` that
  is not a numeral raises `ValueError`.
- **Digit limit.** `int()` raises `ValueError` on a numeral of more than
  4300 digits, CPython's default `sys.get_int_max_str_digits()`. The model
  uses that default. Because every window position is below a size read
  by `int()`, the `str()` of a position in the Range header never reaches
  the limit, so `RangeHeader` does not model it.
- **Retries.** There is no retry or backoff loop. A failure ends the call.
- **Two HEAD requests.** `supports_range` and `content_length` each send
  their own HEAD, so the model has two probe replies.
- **Thread count.**
  - `threads == 0`: `size // threads` raises `ZeroDivisionError` before
    the file is opened.
  - A negative count: the file is truncated and no worker runs.
  - More threads than bytes: every window but the last is the empty
    window `0..-1`, whose header `bytes=0--1` is not a valid byte range.

## Model

| member | source | states |
|---|---|---|
| Request.Stream | src/threadracer/core/request.py:46-49 | the GET reply passes exactly when there is a reply and its status is not 4xx/5xx; no reply raises a transport error, a 4xx/5xx raises an HTTP error carrying the status |
| Request.Head | src/threadracer/core/request.py:20-23 | the HEAD headers come back exactly when the status check passes, and otherwise the same exception is raised |
| Request.Header | src/threadracer/core/request.py:27-31 | headers.get finds a value exactly when some header name equals the name asked for without regard to case, and then gives that header's value |
| Request.LowersToBytes | src/threadracer/core/request.py:27 | a value lower-cases to "bytes" exactly when each of its five letters is that letter of "bytes" in either case |
| Request.SupportsRange | src/threadracer/core/request.py:25-27 | raises exactly when the HEAD raises; otherwise true exactly when Accept-Ranges is present and spells "bytes" in any case, so a missing header gives false |
| Request.ContentLength | src/threadracer/core/request.py:29-31 | a HEAD failure propagates, and an absent Content-Length gives 0 |
| Request.ContentLengthReadsNumeral | src/threadracer/core/request.py:29-31 | a Content-Length written as str(n) gives n, for every integer n of at most 4300 digits |
| Request.ContentLengthRejectsNonNumeral | src/threadracer/core/request.py:29-31 | a Content-Length holding a character that no numeral can hold raises ValueError instead of defaulting to 0 |
| Request.ContentLengthRejectsLongNumeral | src/threadracer/core/request.py:31 | a Content-Length of more than 4300 digits raises ValueError |
| Text.ParseInt | src/threadracer/core/request.py:31 | int(s): the numeral between the white space int() skips, with an optional sign and single underscores between digits, of at most 4300 digits; None where int() raises |
| Text.ParseIntRoundTrip | src/threadracer/core/request.py:31 | int(str(n)) == n for every integer n of at most 4300 digits |
| Text.ParseIntOnlyNumerals | src/threadracer/core/request.py:31 | int() raises on a string with a character that is not white space int() skips, a digit, an underscore or a sign; U+001C to U+001F are not skipped |
| Text.ParseIntRejectsLongNumerals | src/threadracer/core/request.py:31 | a numeral of more than 4300 digits makes int() raise |
| Text.ParseIntRejectsFileSeparator | src/threadracer/core/request.py:31 | int("\x1c5") raises, although str.isspace() holds for U+001C |
| Text.StripKeeps | src/threadracer/core/request.py:31 | a character that is not white space int() skips survives the trimming of that white space, at its shifted position |
| Text.StripNothing | src/threadracer/core/request.py:31 | trimming the white space int() skips leaves a numeral unchanged |
| Text.NatToStringRoundTrip | src/threadracer/core/downloader.py:55 | the decimal digits of a natural number read back as that number |
| Text.HexRoundTrip | src/threadracer/core/request.py:38 | bytes.hex() loses nothing: decoding its digit pairs gives the bytes back |
| Text.HexIsLower | src/threadracer/core/request.py:38 | the .lower() after bytes.hex() changes nothing |
| Text.Hex | src/threadracer/core/request.py:38 | bytes.hex(): two hexadecimal digits per byte |
| Types.Lower | src/threadracer/core/request.py:27 | ASCII lower-casing, which agrees with str.lower() on the header names and the value the core compares |
| Text.IsPrefix | src/threadracer/core/request.py:40 | str.startswith: the string begins with the prefix |
| Text.HexPair | src/threadracer/core/request.py:38 | digits 2j and 2j+1 of the hex are the high and low digit of byte j |
| Text.HexDigit | src/threadracer/core/request.py:38 | every value below 16 has a lower-case hexadecimal digit that reads back as the value |
| Request.Signature | src/threadracer/core/request.py:37-38 | the signature has two lower-case hexadecimal digits per byte and decodes back to the bytes read |
| Request.Sniff | src/threadracer/core/request.py:34-38 | a signature exists exactly when the status check passes and the body does not break off before 8 bytes, and it encodes the first min(8, length) bytes of the body as lower-case hexadecimal digit pairs |
| Request.FirstMatch | src/threadracer/core/request.py:39-41 | the index found is a table entry whose key starts the signature and no earlier entry's key does; none is found only when no key starts it |
| Request.DetectExtension | src/threadracer/core/request.py:33-44 | the result is always one of the ten dotted extensions |
| Request.DottedExtension | src/threadracer/core/request.py:5-15 | "." followed by any table value is one of the dotted extensions |
| Request.SignatureKeysPrefixFree | src/threadracer/core/request.py:5-15 | no key of the signature table is a prefix of another |
| Request.Signatures | src/threadracer/core/request.py:5-15 | the nine keys and extensions of the class table in declaration order, which is the dict's iteration order |
| Request.CommonPrefix | src/threadracer/core/request.py:40 | two prefixes of one signature are prefixes of each other |
| Request.DetectExtensionMatches | src/threadracer/core/request.py:39-41 | any entry whose key starts the signature is the one whose extension is returned, so the table order does not decide the result |
| Request.DetectExtensionFallsBack | src/threadracer/core/request.py:33-44 | ".bin" comes back exactly when the probe raised or no key starts the signature |
| Request.HexOfPrefix | src/threadracer/core/request.py:37-38 | the hex of the first n bytes is the first 2n digits of the hex |
| Request.DetectsPng | src/threadracer/core/request.py:7 | a body starting 89 50 4e 47 is given ".png" |
| Request.PngSniffed | src/threadracer/core/request.py:7 | a complete body starting 89 50 4e 47 has a signature starting with the PNG key |
| Request.PngMagic | src/threadracer/core/request.py:7 | the hexadecimal form of the PNG magic number is the PNG key |
| Request.DetectExtensionUnreachable | src/threadracer/core/request.py:42-44 | a failed network probe gives ".bin" and raises nothing |
| Request.DetectExtensionShortCutBody | src/threadracer/core/request.py:37-44 | a passing reply whose body breaks off before 8 bytes gives no signature, and detect_extension swallows the read error and returns ".bin" |
| ByteRange.SplitAtDash | src/threadracer/core/downloader.py:55 | the header is "bytes=", the first position's digits, the first dash, then the last position |
| ByteRange.RangeHeader | src/threadracer/core/downloader.py:55 | the value f"bytes={start}-{end}"; RangeHeaderRoundTrip reads it back |
| ByteRange.IndexOfFirst | src/threadracer/core/downloader.py:55 | the search finds the first occurrence of the character |
| ByteRange.RangeHeaderRoundTrip | src/threadracer/core/downloader.py:55 | for a non-empty window the header reads back as exactly that window (section 14.1.2 of RFC 9110) |
| ByteRange.RangeHeaderOfEmptyWindow | src/threadracer/core/downloader.py:55 | for a window whose end is below its start the header is not a valid byte range |
| Segments.WindowAt | src/threadracer/core/downloader.py:42-43 | every window starts at or after byte 0 |
| Segments.Partition | src/threadracer/core/downloader.py:35-43 | there are exactly threads windows, window i being that of thread i |
| Segments.PartitionShape | src/threadracer/core/downloader.py:35-43 | window i starts at i * (size // threads), non-last windows are part bytes long, the last ends at size - 1 and is size % threads bytes longer |
| Segments.WindowBounds | src/threadracer/core/downloader.py:35-43 | with size >= threads a window is non-empty, inside the file, and ends right before the next one starts |
| Segments.PartitionTiles | src/threadracer/core/downloader.py:35-43 | with size >= threads the windows start at 0, lie inside the file, are contiguous, and the last ends at size - 1 |
| Segments.PartitionDisjoint | src/threadracer/core/downloader.py:35-43 | with size >= threads an earlier window lies wholly before a later one |
| Segments.Owner | src/threadracer/core/downloader.py:35-43 | every byte has an owning thread among the threads |
| Segments.OwnerWindow | src/threadracer/core/downloader.py:35-43 | every byte lies in its owner's window |
| Segments.PartitionCovers | src/threadracer/core/downloader.py:35-43 | with size >= threads every byte lies in exactly one window |
| Segments.PartitionWithSurplusThreads | src/threadracer/core/downloader.py:35-43 | with more threads than bytes every window but the last is 0..-1 and the last covers the file |
| Segments.PartitionOfAMillionOverFour | src/threadracer/core/downloader.py:35-43 | 1,000,000 bytes over 4 threads give four 250,000-byte windows |
| Destination.Zeros | src/threadracer/core/downloader.py:39 | n zero bytes |
| Destination.Resized | src/threadracer/core/downloader.py:39 | truncate(n) leaves n bytes: the old ones that fit, zeros beyond them |
| Destination.Overwrite | src/threadracer/core/downloader.py:58-61 | a write puts its data at the offset, keeps every other byte, zero-fills a gap past the end, and writing nothing changes nothing |
| Destination.OverwriteAppend | src/threadracer/core/downloader.py:59-61 | two writes back to back equal one write of the pieces joined |
| Destination.OverwriteCommutes | src/threadracer/core/downloader.py:57-61 | writes to disjoint ranges give the same file in either order |
| Destination.OverwriteEmpty | src/threadracer/core/downloader.py:24-27 | writing a body into an emptied file leaves exactly the body |
| Destination.DestinationFile.constructor | src/threadracer/core/downloader.py:13 | the file at the resolved path, with the contents it already holds and the handle at 0 |
| Destination.DestinationFile.OpenForWriting | src/threadracer/core/downloader.py:24 | "wb" empties the file and puts the handle at 0 |
| Destination.DestinationFile.OpenForUpdate | src/threadracer/core/downloader.py:57 | "r+b" keeps the contents and puts the handle at 0 |
| Destination.DestinationFile.Truncate | src/threadracer/core/downloader.py:39 | truncate resizes the contents and keeps the position |
| Destination.DestinationFile.Seek | src/threadracer/core/downloader.py:58 | seek moves the handle and keeps the contents |
| Destination.DestinationFile.Write | src/threadracer/core/downloader.py:61 | write overwrites at the position and advances it by the data's length |
| Types.ConcatSnoc | src/threadracer/core/downloader.py:25-27 | the body of one more chunk is the body so far followed by that chunk |
| Types.Concat | src/threadracer/core/downloader.py:25-27 | the body the chunks of iter_content spell, chunk after chunk; no chunks spell the empty body |
| Downloader.ThreadedRoute | src/threadracer/core/downloader.py:30-35 | the threaded path needs a positive size and a non-zero thread count |
| Downloader.RouteOf | src/threadracer/core/downloader.py:14-17 | the threaded path needs a positive size and a non-zero thread count |
| Downloader.StrategyChoice | src/threadracer/core/downloader.py:14-17 | threaded exactly when ranges are advertised, the size is positive and threads is non-zero; single stream exactly when ranges are not advertised or the size is not positive |
| Downloader.SingleAttempt | src/threadracer/core/downloader.py:21-27 | a rejected stream leaves the file as it was and raises its exception; otherwise the file is the body, and the call passes exactly when the body does not break off |
| Downloader.RangeAttempt | src/threadracer/core/downloader.py:53-61 | a rejected stream leaves the file as it was and raises; the call passes exactly when the reply passes and its body does not break off; the file never shrinks |
| Downloader.RunWorkers | src/threadracer/core/downloader.py:41-51 | the workers run in window order, an exception ending only its own worker, and they never shrink the file |
| Downloader.Windows | src/threadracer/core/downloader.py:35-43 | one window per value of range(threads): none for a negative count, threads windows otherwise |
| Downloader.Perform | src/threadracer/core/downloader.py:12-51 | a failed route raises and leaves the file as it was; the threaded path always passes and leaves at least size bytes |
| Downloader.RunWorkersLast | src/threadracer/core/downloader.py:41-51 | the first n workers are the first n - 1 followed by worker n - 1 |
| Downloader.Downloader.constructor | src/threadracer/core/downloader.py:7-10 | the engine keeps its thread count |
| Downloader.Downloader.Download | src/threadracer/core/downloader.py:12-19 | the file and the result are those of the route chosen: the path when the route passes, its exception otherwise |
| Downloader.Downloader.DownloadSingle | src/threadracer/core/downloader.py:21-27 | a rejected reply leaves the file untouched; otherwise the file is exactly the body, and a body that breaks off raises after its chunks are written |
| Downloader.Downloader.DownloadThreaded | src/threadracer/core/downloader.py:29-51 | falls back to one stream for a size that is not positive, raises for zero threads, and otherwise empties the file, truncates it to size and runs the workers of the partition in order, passing whatever they did |
| Downloader.Downloader.RunThreads | src/threadracer/core/downloader.py:41-51 | the worker loop leaves the file as the workers of the windows leave it, run in window order |
| Downloader.Downloader.DownloadRange | src/threadracer/core/downloader.py:53-61 | sends the Range header of its window, and on a passing reply writes the body from the window's start; a rejected reply leaves the file untouched |
| Downloader.WriteBody | src/threadracer/core/downloader.py:58-61 | the non-empty chunks are written back to back from the position, which ends after the body; a body that breaks off raises afterwards |
| Downloader.WriteChunk | src/threadracer/core/downloader.py:59-61 | writing one more chunk, skipped when empty, leaves the file as the body of one more chunk written at the starting position |
| Downloader.ChunkStep | src/threadracer/core/downloader.py:59-61 | the body of one more chunk written at a position is the body so far followed by a write of that chunk at its end, and nothing changes for an empty chunk |
| Downloader.RangeWorkerStaysInWindow | src/threadracer/core/downloader.py:55-61 | a worker whose reply fits its window keeps the file length and every byte outside the window, and a reply of the window's length fills the window |
| Destination.OverwriteInside | src/threadracer/core/downloader.py:57-61 | a write inside the file keeps its length, puts the data at the offset and keeps every other byte |
| Downloader.DisjointWorkersCommute | src/threadracer/core/downloader.py:41-51 | two workers on disjoint windows whose replies fit leave the same file whichever runs first |
| Downloader.FillStep | src/threadracer/core/downloader.py:53-61 | a worker answered with its slice extends the correct prefix of the file to the end of its window |
| Downloader.WorkersByteByByte | src/threadracer/core/downloader.py:41-61 | after the workers of a chain whose replies fit, the file keeps its length and each byte of window i holds what worker i alone writes into the zero-filled file |
| Downloader.ZerosBeyondReach | src/threadracer/core/downloader.py:38-61 | the workers of a chain whose replies fit keep the zero-filled file at its length and leave every byte past their last window 0 |
| Downloader.WindowBelowReach | src/threadracer/core/downloader.py:41-43 | every window of a chain ends before the end of the chain's last window |
| Downloader.PartitionChain | src/threadracer/core/downloader.py:35-43 | with size >= threads the windows of the partition, taken in thread order, form a chain: non-empty, inside the file, the first at 0 and each starting where the previous one ended |
| Downloader.PartitionServed | src/threadracer/core/downloader.py:35-43 | a server that answers every range with its slice answers each window of the partition with its slice |
| Downloader.OwnWorkerByte | src/threadracer/core/downloader.py:57-61 | a byte still 0 in a worker's window ends up as the worker writes it into a zero-filled file |
| Downloader.PartitionByteByByte | src/threadracer/core/downloader.py:35-51 | the workers of the partition keep the file at size bytes and each byte is what its owner writes |
| Downloader.ThreadedDownloadByteByByte | src/threadracer/core/downloader.py:29-51 | on the threaded path with replies that fit, the file is exactly size bytes and each byte is what its owning worker writes into the zero-filled file, whatever the other workers did |
| Downloader.WorkersFillPrefix | src/threadracer/core/downloader.py:41-61 | the workers of a chain of windows, each answered with its slice of the body, keep the truncated file at the body's length and leave it holding the body as far as their last window reaches |
| Downloader.PartitionFillsBody | src/threadracer/core/downloader.py:38-51 | all the workers of the partition, answered with their slices, leave exactly the body in the truncated file |
| Downloader.RangedDownloadDeliversBody | src/threadracer/core/downloader.py:12-19 | a server that advertises ranges, reports the body's length and answers every range with its slice takes the threaded path, and the file ends up exactly the body for any thread count from 1 to the length |
| Downloader.SingleStreamDeliversBody | src/threadracer/core/downloader.py:21-27 | on the single-stream path a complete reply leaves exactly its body in the file |
| Downloader.NegativeThreadsLeaveZeros | src/threadracer/core/downloader.py:38-41 | a negative thread count starts no worker and leaves size zero bytes |
| Downloader.RejectedStreamLeavesFile | src/threadracer/core/downloader.py:23-24 | a rejected single stream leaves the file untouched and download raises the same exception |
| Downloader.ThreadedDownloadAlwaysReturnsPath | src/threadracer/core/downloader.py:44-51 | on the threaded path download returns the path whatever the range workers' replies were |

## Left out

- Concurrency: the threads are run one after the other in window order.
  With replies that fit their windows, any two workers on disjoint
  windows commute (`DisjointWorkersCommute`), and each byte is what its
  own worker writes (`ThreadedDownloadByteByByte`). No lemma composes the
  swaps into an arbitrary order of whole workers, and interleavings within
  a worker's writes are not modelled. With an overlong reply, workers
  overlap, and real threads could interleave their writes.
- The HTTP session: connection handling, redirects, timeouts and the
  request headers passed in from the command line. Each request is
  reduced to the reply it gets (`Server`). `Server.get` gives the same
  reply to every request carrying the same Range value, so with more
  threads than bytes all empty-window workers, which send "bytes=0--1",
  share one reply where the program sends separate requests that could
  be answered differently. No proved property depends on this.
- Chunking: `iter_content(chunk_size=8192)` is taken as the given sequence
  of chunks. The 8192-byte size is not modelled. Content decoding, where
  `iter_content` decodes and `raw.read` does not, is not modelled either.
  The sniffer reads the same body.
- `resolve_output_path` and `parse_headers`: `threadracer.utils` is not part
  of this model. The resolved path is a parameter of `Download`.
- The logger calls: they change nothing the model observes.
- File-system errors from `open`, `truncate`, `seek` and `write`: the
  destination file always accepts the operation.
- The command-line front end (`src/threadracer/cli.py`): argument parsing,
  banner, the unused cookie option and exit codes.
- Request.ContentLength: `int()` is modelled for ASCII digits only. Python
  also accepts other Unicode decimal digits, which the model rejects. The
  digit limit is fixed at CPython's default of 4300. A limit changed with
  `sys.set_int_max_str_digits`, and the missing limit of Pythons before
  3.10.7, are not modelled.
- Request.SupportsRange: only ASCII letters are lower-cased. This gives
  the same answer as Python for the comparison with "bytes".
- A retry or backoff loop: the code has none.
