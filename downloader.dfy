/** The download engine (class Downloader): it picks between one stream
    and one range worker per thread, cuts the file into windows, sizes the
    destination, and has every worker write its reply from the start of
    its window. The network is the Server value; the threads run one
    after the other in window order. When every reply fits its window,
    any two workers on disjoint windows commute (DisjointWorkersCommute)
    and each byte is what its own worker writes (WorkersByteByByte). */
module Downloader {
  import opened Types
  import opened Request
  import opened ByteRange
  import opened Segments
  import opened Destination

  /** The replies the network gives during one download: the HEAD behind
      supports_range, the separate HEAD behind content_length, and the GET
      for each value of the Range header (None: no Range header). */
  datatype Server = Server(rangeProbe: Response, sizeProbe: Response, get: Option<string> -> Response)

  /** What one call leaves behind: the exception it raised, if any, and
      the contents of the destination file. */
  datatype Attempt = Attempt(outcome: Outcome, contents: seq<byte>)

  /** The path download() takes. */
  datatype Route = Failed(error: Error) | Whole | Split(size: int)

  // ---------------------------------------------------------------------
  // Strategy choice

  /** The decision of _download_threaded: a single stream when the
      reported size is not positive, division by zero when there are no
      threads, the threaded path otherwise. */
  function ThreadedRoute(threads: int, sizeProbe: Response): (r: Route)
    ensures r.Split? ==> r.size > 0 && threads != 0
  {
    match ContentLength(sizeProbe)
    case Err(e) => Failed(e)
    case Ok(size) =>
      if size <= 0 then Whole
      else if threads == 0 then Failed(ZeroDivisionError)
      else Split(size)
  }

  /** The decision of download(). */
  function RouteOf(threads: int, server: Server): (r: Route)
    ensures r.Split? ==> r.size > 0 && threads != 0
  {
    match SupportsRange(server.rangeProbe)
    case Err(e) => Failed(e)
    case Ok(ranged) => if ranged then ThreadedRoute(threads, server.sizeProbe) else Whole
  }

  /** The threaded path is taken exactly when the server advertises byte
      ranges, reports a positive size and there is a non-zero thread count;
      the single stream exactly when ranges are not advertised or the size
      is not positive. */
  lemma StrategyChoice(threads: int, server: Server)
    ensures RouteOf(threads, server).Split? <==>
      SupportsRange(server.rangeProbe) == Ok(true) && ContentLength(server.sizeProbe).Ok?
      && ContentLength(server.sizeProbe).value > 0 && threads != 0
    ensures RouteOf(threads, server) == Whole <==>
      SupportsRange(server.rangeProbe) == Ok(false)
      || (SupportsRange(server.rangeProbe) == Ok(true) && ContentLength(server.sizeProbe).Ok?
          && ContentLength(server.sizeProbe).value <= 0)
  {
  }

  // ---------------------------------------------------------------------
  // What each path does to the file

  /** A body that breaks off raises once its chunks are written. */
  function BodyOutcome(reply: Response): Outcome
    requires reply.Response?
  {
    if reply.cut then Fail(TransportError) else Pass
  }

  /** _download_single: when stream() raises, the file is not touched;
      otherwise it is emptied and the body written into it. */
  function SingleAttempt(c: seq<byte>, reply: Response): (a: Attempt)
    ensures Stream(reply).Err? ==> a == Attempt(Fail(Stream(reply).error), c)
    ensures Stream(reply).Ok? ==> a.contents == Concat(reply.chunks)
    ensures a.outcome == Pass <==> Stream(reply).Ok? && !reply.cut
  {
    match Stream(reply)
    case Err(e) => Attempt(Fail(e), c)
    case Ok(ok) => Attempt(BodyOutcome(ok), Concat(ok.chunks))
  }

  /** _download_range for window w: the reply to the request carrying the
      Range header of w is written from w.start on. */
  function RangeAttempt(c: seq<byte>, w: Window, get: Option<string> -> Response): (a: Attempt)
    requires w.start >= 0
    ensures var reply := get(Some(RangeHeader(w.start, w.end)));
      (Stream(reply).Err? ==> a == Attempt(Fail(Stream(reply).error), c))
      && (a.outcome == Pass <==> Stream(reply).Ok? && !reply.cut)
    ensures |a.contents| >= |c|
  {
    match Stream(get(Some(RangeHeader(w.start, w.end))))
    case Err(e) => Attempt(Fail(e), c)
    case Ok(ok) => Attempt(BodyOutcome(ok), Overwrite(c, w.start, Concat(ok.chunks)))
  }

  predicate StartsInFile(ws: seq<Window>) {
    forall i :: 0 <= i < |ws| ==> ws[i].start >= 0
  }

  /** The workers of ws run in order; an exception in one of them ends
      that worker only. */
  function RunWorkers(c: seq<byte>, ws: seq<Window>, get: Option<string> -> Response): (r: seq<byte>)
    requires StartsInFile(ws)
    ensures |r| >= |c|
  {
    if ws == [] then c
    else RangeAttempt(RunWorkers(c, ws[..|ws| - 1], get), ws[|ws| - 1], get).contents
  }

  /** The first n workers are the first n - 1 followed by worker n - 1. */
  lemma RunWorkersLast(c: seq<byte>, ws: seq<Window>, get: Option<string> -> Response, n: nat)
    requires StartsInFile(ws) && 0 < n <= |ws|
    ensures StartsInFile(ws[..n - 1]) && StartsInFile(ws[..n])
    ensures RunWorkers(c, ws[..n], get) == RangeAttempt(RunWorkers(c, ws[..n - 1], get), ws[n - 1], get).contents
  {
    assert ws[..n][..n - 1] == ws[..n - 1];
  }

  /** range(threads) is empty for a negative count. */
  function Windows(size: int, threads: int): (ws: seq<Window>)
    requires size > 0 && threads != 0
    ensures StartsInFile(ws)
    ensures |ws| == if threads < 0 then 0 else threads
  {
    if threads < 0 then [] else Partition(size, threads)
  }

  /** The effect of following a route. On the threaded path the file is
      emptied and truncated to size before any worker runs, and the
      attempt passes whatever the workers did. */
  function Perform(c: seq<byte>, route: Route, threads: int, server: Server): (a: Attempt)
    requires route.Split? ==> route.size > 0 && threads != 0
    ensures route.Failed? ==> a == Attempt(Fail(route.error), c)
    ensures route.Split? ==> a.outcome == Pass && |a.contents| >= route.size
  {
    match route
    case Failed(e) => Attempt(Fail(e), c)
    case Whole => SingleAttempt(c, server.get(None))
    case Split(size) => Attempt(Pass, RunWorkers(Resized([], size), Windows(size, threads), server.get))
  }

  function ResultOf(a: Attempt, path: string): Result<string> {
    match a.outcome
    case Pass => Ok(path)
    case Fail(e) => Err(e)
  }

  // ---------------------------------------------------------------------
  // The engine

  class Downloader {
    const threads: int

    constructor (threads: int)
      ensures this.threads == threads
    {
      this.threads := threads;
    }

    /** download(): path is what resolve_output_path gave. */
    method Download(path: string, server: Server, f: DestinationFile) returns (r: Result<string>)
      modifies f
      ensures var a := Perform(old(f.contents), RouteOf(threads, server), threads, server);
        f.contents == a.contents && r == ResultOf(a, path)
    {
      var ranged := SupportsRange(server.rangeProbe);
      if ranged.Err? {
        return Err(ranged.error);
      }
      var outcome: Outcome;
      if ranged.value {
        outcome := DownloadThreaded(server, f);
      } else {
        outcome := DownloadSingle(server.get(None), f);
      }
      r := if outcome.Pass? then Ok(path) else Err(outcome.error);
    }

    /** _download_single */
    method DownloadSingle(reply: Response, f: DestinationFile) returns (o: Outcome)
      modifies f
      ensures Attempt(o, f.contents) == SingleAttempt(old(f.contents), reply)
    {
      var streamed := Stream(reply);
      if streamed.Err? {
        return Fail(streamed.error);
      }
      f.OpenForWriting();
      o := WriteBody(f, reply);
      OverwriteEmpty(Concat(reply.chunks));
    }

    /** _download_threaded */
    method DownloadThreaded(server: Server, f: DestinationFile) returns (o: Outcome)
      modifies f
      ensures Attempt(o, f.contents) ==
        Perform(old(f.contents), ThreadedRoute(threads, server.sizeProbe), threads, server)
    {
      var length := ContentLength(server.sizeProbe);
      if length.Err? {
        return Fail(length.error);
      }
      var size := length.value;
      if size <= 0 {
        o := DownloadSingle(server.get(None), f);
        return;
      }
      if threads == 0 {
        return Fail(ZeroDivisionError);
      }
      f.OpenForWriting();
      f.Truncate(size);
      RunThreads(server.get, size, f);
      o := Pass;
    }

    /** The worker loop of _download_threaded: one range worker per value
        of range(threads), each run to completion before the next starts;
        an exception in a worker ends that worker only. */
    method RunThreads(get: Option<string> -> Response, size: int, f: DestinationFile)
      requires size > 0 && threads != 0
      modifies f
      ensures f.contents == RunWorkers(old(f.contents), Windows(size, threads), get)
    {
      if threads > 0 {
        ghost var c, ws := f.contents, Partition(size, threads);
        var i := 0;
        while i < threads
          invariant 0 <= i <= threads
          invariant f.contents == RunWorkers(c, ws[..i], get)
        {
          var w := WindowAt(size, threads, i);
          var ignored := DownloadRange(get, w.start, w.end, f);
          RunWorkersLast(c, ws, get, i + 1);
          i := i + 1;
        }
        assert ws[..threads] == ws;
      }
    }

    /** _download_range */
    method DownloadRange(get: Option<string> -> Response, start: nat, end: int, f: DestinationFile)
      returns (o: Outcome)
      modifies f
      ensures Attempt(o, f.contents) == RangeAttempt(old(f.contents), Window(start, end), get)
    {
      var range := RangeHeader(start, end);
      var streamed := Stream(get(Some(range)));
      if streamed.Err? {
        return Fail(streamed.error);
      }
      f.OpenForUpdate();
      f.Seek(start);
      o := WriteBody(f, streamed.value);
    }
  }

  /** The loop both paths share: every non-empty chunk is written at the
      current position, in order; a body that breaks off raises after the
      chunks it delivered. */
  method WriteBody(f: DestinationFile, reply: Response) returns (o: Outcome)
    requires reply.Response?
    modifies f
    ensures f.contents == Overwrite(old(f.contents), old(f.position), Concat(reply.chunks))
    ensures f.position == old(f.position) + |Concat(reply.chunks)|
    ensures o == BodyOutcome(reply)
  {
    var chunks := reply.chunks;
    var i := 0;
    while i < |chunks|
      invariant 0 <= i <= |chunks|
      invariant f.contents == Overwrite(old(f.contents), old(f.position), Concat(chunks[..i]))
      invariant f.position == old(f.position) + |Concat(chunks[..i])|
    {
      WriteChunk(f, old(f.contents), old(f.position), chunks, i);
      i := i + 1;
    }
    assert chunks[..|chunks|] == chunks;
    o := if reply.cut then Fail(TransportError) else Pass;
  }

  /** One turn of the loop: chunk i is written if it is not empty. */
  method WriteChunk(f: DestinationFile, ghost c: seq<byte>, ghost pos: nat, chunks: seq<seq<byte>>, i: nat)
    requires i < |chunks|
    requires f.contents == Overwrite(c, pos, Concat(chunks[..i]))
    requires f.position == pos + |Concat(chunks[..i])|
    modifies f
    ensures f.contents == Overwrite(c, pos, Concat(chunks[..i + 1]))
    ensures f.position == pos + |Concat(chunks[..i + 1])|
  {
    ChunkStep(c, pos, chunks, i);
    if |chunks[i]| > 0 {
      f.Write(chunks[i]);
    }
  }

  /** Writing chunk i where the first i chunks ended gives the file with
      the first i + 1 chunks written; writing nothing changes nothing. */
  lemma ChunkStep(c: seq<byte>, pos: nat, chunks: seq<seq<byte>>, i: nat)
    requires i < |chunks|
    ensures var before := Concat(chunks[..i]);
      var written := Overwrite(c, pos, before);
      |Concat(chunks[..i + 1])| == |before| + |chunks[i]|
      && Overwrite(c, pos, Concat(chunks[..i + 1])) ==
         if chunks[i] == [] then written else Overwrite(written, pos + |before|, chunks[i])
  {
    ConcatSnoc(chunks, i);
    OverwriteAppend(c, pos, Concat(chunks[..i]), chunks[i]);
    if chunks[i] == [] {
      assert Concat(chunks[..i]) + chunks[i] == Concat(chunks[..i]);
    }
  }

  // ---------------------------------------------------------------------
  // Properties

  /** A range worker whose reply fits its window changes no byte outside
      it and leaves the file length alone; a reply of exactly the window's
      length fills the window with the reply. */
  lemma RangeWorkerStaysInWindow(c: seq<byte>, w: Window, get: Option<string> -> Response)
    requires 0 <= w.start <= w.end < |c|
    requires var reply := get(Some(RangeHeader(w.start, w.end)));
      Stream(reply).Ok? ==> |Concat(reply.chunks)| <= w.end - w.start + 1
    ensures var r := RangeAttempt(c, w, get).contents;
      |r| == |c| && forall k :: 0 <= k < |c| && !(w.start <= k <= w.end) ==> r[k] == c[k]
    ensures var reply := get(Some(RangeHeader(w.start, w.end)));
      Stream(reply).Ok? && |Concat(reply.chunks)| == w.end - w.start + 1 ==>
        RangeAttempt(c, w, get).contents[w.start..w.end + 1] == Concat(reply.chunks)
  {
    var reply := get(Some(RangeHeader(w.start, w.end)));
    if Stream(reply).Ok? {
      OverwriteInside(c, w.start, Concat(reply.chunks));
    }
  }

  /** Two workers on disjoint windows whose replies fit them leave the
      same file whichever runs first. */
  lemma DisjointWorkersCommute(c: seq<byte>, v: Window, w: Window, get: Option<string> -> Response)
    requires 0 <= v.start && 0 <= w.start
    requires v.end < w.start || w.end < v.start
    requires var reply := get(Some(RangeHeader(v.start, v.end)));
      Stream(reply).Ok? ==> |Concat(reply.chunks)| <= v.end - v.start + 1
    requires var reply := get(Some(RangeHeader(w.start, w.end)));
      Stream(reply).Ok? ==> |Concat(reply.chunks)| <= w.end - w.start + 1
    ensures RangeAttempt(RangeAttempt(c, v, get).contents, w, get).contents
         == RangeAttempt(RangeAttempt(c, w, get).contents, v, get).contents
  {
    var rv := get(Some(RangeHeader(v.start, v.end)));
    var rw := get(Some(RangeHeader(w.start, w.end)));
    if Stream(rv).Ok? && Stream(rw).Ok? {
      OverwriteCommutes(c, v.start, Concat(rv.chunks), w.start, Concat(rw.chunks));
    }
  }

  /** A reply that delivers exactly data, without error. */
  predicate Delivers(reply: Response, data: seq<byte>) {
    reply.Response? && !IsErrorStatus(reply.status) && !reply.cut && Concat(reply.chunks) == data
  }

  /** A server that answers every non-empty range of body with that slice of body. */
  predicate ServesRanges(get: Option<string> -> Response, body: seq<byte>) {
    forall a: nat, b: nat :: a <= b < |body| ==> Delivers(get(Some(RangeHeader(a, b))), body[a..b + 1])
  }

  /** One worker of an honest server extends the correct prefix of the
      file from the start of its window to its end. */
  lemma FillStep(prev: seq<byte>, w: Window, get: Option<string> -> Response, body: seq<byte>)
    requires |prev| == |body| && 0 <= w.start <= w.end < |body|
    requires forall k :: 0 <= k < w.start ==> prev[k] == body[k]
    requires Delivers(get(Some(RangeHeader(w.start, w.end))), body[w.start..w.end + 1])
    ensures var r := RangeAttempt(prev, w, get).contents;
      |r| == |body| && forall k :: 0 <= k < w.end + 1 ==> r[k] == body[k]
  {
    var data := body[w.start..w.end + 1];
    var r := RangeAttempt(prev, w, get).contents;
    assert r == Overwrite(prev, w.start, data);
    forall k | 0 <= k < w.end + 1
      ensures r[k] == body[k]
    {
      if k >= w.start {
        assert data[k - w.start] == body[k];
      }
    }
  }

  /** One past the end of the last window of ws: how far the workers of
      ws, run in order, reach into the file. */
  function Reach(ws: seq<Window>): int {
    if ws == [] then 0 else ws[|ws| - 1].end + 1
  }

  /** Non-empty windows inside [0, size), the first at 0 and each later one
      starting where the one before it ended. */
  predicate Chain(ws: seq<Window>, size: int) {
    StartsInFile(ws) && Linked(ws, size)
  }

  predicate Linked(ws: seq<Window>, size: int) {
    ws == [] ||
    var init, last := ws[..|ws| - 1], ws[|ws| - 1];
    Linked(init, size) && last.start == Reach(init) && last.start <= last.end < size
  }

  /** Every window of ws is answered with its slice of body. */
  predicate Served(ws: seq<Window>, get: Option<string> -> Response, body: seq<byte>) {
    ws == [] ||
    var init, last := ws[..|ws| - 1], ws[|ws| - 1];
    Served(init, get, body) && 0 <= last.start <= last.end < |body|
    && Delivers(get(Some(RangeHeader(last.start, last.end))), body[last.start..last.end + 1])
  }

  /** Every reply to a window of ws that gets past stream() is no longer
      than the window. */
  predicate Fits(ws: seq<Window>, get: Option<string> -> Response) {
    ws == [] ||
    var init, last := ws[..|ws| - 1], ws[|ws| - 1];
    Fits(init, get)
    && var reply := get(Some(RangeHeader(last.start, last.end)));
       Stream(reply).Ok? ==> |Concat(reply.chunks)| <= last.end - last.start + 1
  }

  /** The workers of a chain of windows, each answered with its slice of
      body, leave the truncated file at its length and holding body as far
      as they reach. */
  lemma {:induction false} WorkersFillPrefix(body: seq<byte>, ws: seq<Window>, get: Option<string> -> Response)
    requires Chain(ws, |body|) && Served(ws, get, body)
    ensures var r := RunWorkers(Resized([], |body|), ws, get);
      |r| == |body| && forall k :: 0 <= k < Reach(ws) ==> r[k] == body[k]
  {
    if ws != [] {
      var init := ws[..|ws| - 1];
      WorkersFillPrefix(body, init, get);
      FillStep(RunWorkers(Resized([], |body|), init, get), ws[|ws| - 1], get, body);
    }
  }

  /** The workers of a chain whose replies fit keep the zero-filled file at
      its length and leave every byte beyond their reach 0. */
  lemma {:induction false} ZerosBeyondReach(size: nat, ws: seq<Window>, get: Option<string> -> Response)
    requires Chain(ws, size) && Fits(ws, get)
    ensures var r := RunWorkers(Zeros(size), ws, get);
      |r| == size && forall k :: Reach(ws) <= k < size ==> r[k] == 0
  {
    if ws != [] {
      var init := ws[..|ws| - 1];
      ZerosBeyondReach(size, init, get);
      RangeWorkerStaysInWindow(RunWorkers(Zeros(size), init, get), ws[|ws| - 1], get);
    }
  }

  /** Every window of a chain ends before the chain's reach. */
  lemma {:induction false} WindowBelowReach(ws: seq<Window>, size: int, i: nat)
    requires Chain(ws, size) && i < |ws|
    ensures ws[i].end < Reach(ws)
  {
    if i < |ws| - 1 {
      var init := ws[..|ws| - 1];
      WindowBelowReach(init, size, i);
    }
  }

  /** After the workers of a chain whose replies fit, the file keeps its
      length and a byte of window i holds what worker i alone would have
      written into the zero-filled file: the workers do not depend on one
      another. */
  lemma {:induction false} WorkersByteByByte(size: nat, ws: seq<Window>, get: Option<string> -> Response,
                                             i: nat, k: int)
    requires Chain(ws, size) && Fits(ws, get)
    requires i < |ws| && ws[i].start <= k <= ws[i].end
    ensures var r, alone := RunWorkers(Zeros(size), ws, get), RangeAttempt(Zeros(size), ws[i], get).contents;
      |r| == size && k < size && k < |alone| && r[k] == alone[k]
  {
    var init, last := ws[..|ws| - 1], ws[|ws| - 1];
    var prev := RunWorkers(Zeros(size), init, get);
    if i == |ws| - 1 {
      ZerosBeyondReach(size, init, get);
      OwnWorkerByte(prev, last, get, k);
    } else {
      WorkersByteByByte(size, init, get, i, k);
      WindowBelowReach(init, size, i);
      RangeWorkerStaysInWindow(prev, last, get);
    }
  }

  /** A byte of a worker's window that is still 0 ends up as in a
      zero-filled file. */
  lemma OwnWorkerByte(prev: seq<byte>, w: Window, get: Option<string> -> Response, k: int)
    requires 0 <= w.start <= k <= w.end < |prev| && prev[k] == 0
    requires var reply := get(Some(RangeHeader(w.start, w.end)));
      Stream(reply).Ok? ==> |Concat(reply.chunks)| <= w.end - w.start + 1
    ensures var r := RangeAttempt(prev, w, get).contents;
      |r| == |prev| && r[k] == RangeAttempt(Zeros(|prev|), w, get).contents[k]
  {
    RangeWorkerStaysInWindow(prev, w, get);
    RangeWorkerStaysInWindow(Zeros(|prev|), w, get);
  }

  /** With size >= threads the first n windows of the partition form a chain. */
  lemma {:induction false} PartitionChain(size: int, threads: int, n: nat)
    requires 1 <= threads <= size && n <= threads
    ensures Chain(Partition(size, threads)[..n], size)
  {
    var ws := Partition(size, threads);
    if n > 0 {
      PartitionChain(size, threads, n - 1);
      assert ws[..n][..n - 1] == ws[..n - 1];
      WindowBounds(size, threads, n - 1);
      if n > 1 {
        WindowBounds(size, threads, n - 2);
      }
    }
  }

  /** An honest server answers each of the first n windows of the partition
      with its slice. */
  lemma {:induction false} PartitionServed(body: seq<byte>, threads: int, get: Option<string> -> Response, n: nat)
    requires 1 <= threads <= |body| && n <= threads && ServesRanges(get, body)
    ensures Served(Partition(|body|, threads)[..n], get, body)
  {
    var ws := Partition(|body|, threads);
    if n > 0 {
      PartitionServed(body, threads, get, n - 1);
      assert ws[..n][..n - 1] == ws[..n - 1];
      WindowBounds(|body|, threads, n - 1);
      var a: nat, b: nat := ws[n - 1].start, ws[n - 1].end;
      assert Delivers(get(Some(RangeHeader(a, b))), body[a..b + 1]);
    }
  }

  /** All the workers of the partition, each answered with its slice of
      body, leave exactly body in the truncated file. */
  lemma PartitionFillsBody(body: seq<byte>, threads: int, get: Option<string> -> Response)
    requires 1 <= threads <= |body| && ServesRanges(get, body)
    ensures RunWorkers(Resized([], |body|), Partition(|body|, threads), get) == body
  {
    var ws := Partition(|body|, threads);
    PartitionChain(|body|, threads, threads);
    PartitionServed(body, threads, get, threads);
    assert ws[..threads] == ws;
    WorkersFillPrefix(body, ws, get);
    WindowBounds(|body|, threads, threads - 1);
  }

  /** The round trip of the threaded path: from a server that advertises
      byte ranges, reports the body's length and answers each range with
      its slice, any thread count from 1 to that length downloads exactly
      the body, and the file ends up exactly size bytes long. */
  lemma RangedDownloadDeliversBody(c: seq<byte>, threads: int, server: Server, body: seq<byte>)
    requires 1 <= threads <= |body|
    requires SupportsRange(server.rangeProbe) == Ok(true)
    requires ContentLength(server.sizeProbe) == Ok(|body|)
    requires ServesRanges(server.get, body)
    ensures RouteOf(threads, server) == Split(|body|)
    ensures Perform(c, RouteOf(threads, server), threads, server) == Attempt(Pass, body)
  {
    assert RouteOf(threads, server) == Split(|body|);
    assert Windows(|body|, threads) == Partition(|body|, threads);
    PartitionFillsBody(body, threads, server.get);
  }

  /** The workers of the partition, with replies that fit, keep the file
      at size bytes, and each byte is what its owner writes. */
  lemma PartitionByteByByte(size: int, threads: int, get: Option<string> -> Response, k: int)
    requires 1 <= threads <= size && 0 <= k < size
    requires Fits(Partition(size, threads), get)
    ensures var r := RunWorkers(Resized([], size), Partition(size, threads), get);
      var w := Partition(size, threads)[Owner(size, threads, k)];
      |r| == size && r[k] == RangeAttempt(Zeros(size), w, get).contents[k]
  {
    var ws := Partition(size, threads);
    PartitionChain(size, threads, threads);
    assert ws[..threads] == ws;
    OwnerWindow(size, threads, k);
    assert Resized([], size) == Zeros(size);
    WorkersByteByByte(size, ws, get, Owner(size, threads, k), k);
  }

  /** The threaded path with at least one byte per thread and replies that
      fit their windows: the file ends up exactly size bytes long, and each
      byte is what the worker owning it writes into the zero-filled file,
      whatever the other workers did. */
  lemma ThreadedDownloadByteByByte(c: seq<byte>, threads: int, server: Server, size: int, k: int)
    requires RouteOf(threads, server) == Split(size)
    requires 1 <= threads <= size && Fits(Partition(size, threads), server.get)
    requires 0 <= k < size
    ensures var r := Perform(c, Split(size), threads, server).contents;
      var w := Partition(size, threads)[Owner(size, threads, k)];
      |r| == size && r[k] == RangeAttempt(Zeros(size), w, server.get).contents[k]
  {
    assert Windows(size, threads) == Partition(size, threads);
    PartitionByteByByte(size, threads, server.get, k);
  }

  /** The round trip of the single-stream path: the file ends up holding
      exactly the body of the unranged reply. */
  lemma SingleStreamDeliversBody(c: seq<byte>, threads: int, server: Server, body: seq<byte>)
    requires RouteOf(threads, server) == Whole
    requires Delivers(server.get(None), body)
    ensures Perform(c, RouteOf(threads, server), threads, server) == Attempt(Pass, body)
  {
  }

  /** A negative thread count starts no worker: the file is the
      truncated, zero-filled one, and download() returns the path. */
  lemma NegativeThreadsLeaveZeros(c: seq<byte>, threads: int, server: Server, size: int)
    requires RouteOf(threads, server) == Split(size) && threads < 0
    ensures Perform(c, Split(size), threads, server) == Attempt(Pass, Zeros(size))
  {
    assert Resized([], size) == Zeros(size);
  }

  /** On the single-stream path a reply that stream() rejects leaves the
      file as it was, and download() raises what stream() raised. */
  lemma RejectedStreamLeavesFile(c: seq<byte>, threads: int, server: Server, path: string)
    requires RouteOf(threads, server) == Whole && Stream(server.get(None)).Err?
    ensures Perform(c, Whole, threads, server).contents == c
    ensures ResultOf(Perform(c, Whole, threads, server), path) == Err(Stream(server.get(None)).error)
  {
  }

  /** Failing range workers do not fail the download: on the threaded
      path download() returns the path whatever the ranged replies were. */
  lemma ThreadedDownloadAlwaysReturnsPath(c: seq<byte>, threads: int, server: Server, path: string)
    requires RouteOf(threads, server).Split?
    ensures ResultOf(Perform(c, RouteOf(threads, server), threads, server), path) == Ok(path)
  {
  }
}
