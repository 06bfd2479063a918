/** The byte-range arithmetic of `Downloader.download()`: how a resource of
    `total` bytes is split among `n` threads, and in which order the tasks for
    those ranges are created. */
module Chunking {
  import opened Results

  /** An inclusive byte range `[start, end]`, as requested from the server.
      A range with `end == start - 1` selects no byte. */
  datatype ChunkRange = ChunkRange(start: int, end: int)

  /** One download task: the index of the chunk it fetches and that chunk's range. */
  datatype Task = Task(chunk: nat, range: ChunkRange)

  /** Byte offset `p` lies inside range `r`. */
  predicate Covers(r: ChunkRange, p: int) {
    r.start <= p <= r.end
  }

  /** Number of bytes an inclusive range selects (0 for an empty range). */
  function Size(r: ChunkRange): int {
    r.end - r.start + 1
  }

  /** `blockSize`: bytes per chunk. With `total >= 0` and `n >= 1`, Java's
      truncating `long` division agrees with Dafny's Euclidean one. */
  function BlockSize(total: nat, n: int): (b: nat)
    requires n >= 1
    ensures b * n <= total < (b + 1) * n
  {
    total / n
  }

  /** The range chunk `i` is given. Chunk 0 runs on the calling thread and
      always takes `[0, blockSize-1]`; spawned chunk `i` starts at
      `i*blockSize` and ends one before the next chunk, except that the last
      spawned chunk ends at `total` itself. Chunk 0's separate expression is
      the loop's formula for `i = 0`: every chunk starts at `i*blockSize`,
      and all but the last spawned one end at `(i+1)*blockSize - 1`. */
  function ChunkAt(total: nat, n: int, i: int): (r: ChunkRange)
    requires 0 <= i < n
    ensures r.start == i * BlockSize(total, n)
    ensures n == 1 || i < n - 1 ==> r.end == (i + 1) * BlockSize(total, n) - 1
    ensures n >= 2 && i == n - 1 ==> r.end == total
  {
    var b := BlockSize(total, n);
    if i == 0 then ChunkRange(0, b - 1)
    else ChunkRange(i * b, if i == n - 1 then total else (i + 1) * b - 1)
  }

  /** The ranges in chunk-index order. They start at offset 0, each ends one
      byte before the next starts, and the last ends at `CoveredEnd`. */
  function Ranges(total: nat, n: int): (rs: seq<ChunkRange>)
    requires n >= 1
    ensures |rs| == n && forall i :: 0 <= i < n ==> rs[i] == ChunkAt(total, n, i)
    ensures rs[0].start == 0 && rs[n - 1].end == CoveredEnd(total, n)
    ensures forall k :: 0 <= k < n - 1 ==> rs[k].end + 1 == rs[k + 1].start
  {
    Contiguous(total, n);
    seq(n, i requires 0 <= i < n => ChunkAt(total, n, i))
  }

  /** The last byte offset any chunk asks for: `total - 1` for one thread, but
      `total` (one past the end of the file) as soon as a chunk is spawned. */
  function CoveredEnd(total: nat, n: int): int {
    if n == 1 then total - 1 else total
  }

  /** The tasks the loop spawns for chunks `i .. n-1`, in creation order. */
  function Spawned(total: nat, n: int, i: int): (tasks: seq<Task>)
    requires 1 <= i <= n
    ensures |tasks| == n - i
    ensures forall k :: 0 <= k < |tasks| ==> tasks[k] == Task(i + k, ChunkAt(total, n, i + k))
    decreases n - i
  {
    if i == n then [] else [Task(i, ChunkAt(total, n, i))] + Spawned(total, n, i + 1)
  }

  /** The task list `download()` builds: spawned chunks `1 .. n-1` in order,
      then chunk 0, which the calling thread runs itself. Every chunk index
      appears exactly once. */
  function Plan(total: nat, n: int): (tasks: seq<Task>)
    requires n >= 1
    ensures |tasks| == n
    ensures forall k :: 0 <= k < n - 1 ==> tasks[k].chunk == k + 1
    ensures tasks[n - 1].chunk == 0
    ensures forall k :: 0 <= k < n ==> tasks[k].chunk < n && tasks[k].range == ChunkAt(total, n, tasks[k].chunk)
    ensures forall c :: 0 <= c < n ==> c in ChunkSet(tasks)
    ensures forall k, l :: 0 <= k < l < n ==> tasks[k].chunk != tasks[l].chunk
  {
    var tasks := Spawned(total, n, 1) + [Task(0, ChunkAt(total, n, 0))];
    assert forall c :: 0 <= c < n ==> c in ChunkSet(tasks) by {
      forall c | 0 <= c < n
        ensures c in ChunkSet(tasks)
      {
        var k := if c == 0 then n - 1 else c - 1;
        assert tasks[k].chunk == c;
      }
    }
    tasks
  }

  /** The chunk indices a task list serves. */
  function ChunkSet(tasks: seq<Task>): set<nat> {
    set k | 0 <= k < |tasks| :: tasks[k].chunk
  }

  /** Each chunk has `blockSize` bytes, except that for two or more threads
      the last chunk takes the division remainder plus one extra byte. A single
      thread's chunk is exactly `[0, total-1]`. */
  lemma ChunkSizes(total: nat, n: int, i: int)
    requires 0 <= i < n
    ensures Size(ChunkAt(total, n, i)) ==
      if n >= 2 && i == n - 1 then BlockSize(total, n) + total % n + 1 else BlockSize(total, n)
    ensures n == 1 ==> ChunkAt(total, n, i) == ChunkRange(0, total - 1)
  {
    var b := BlockSize(total, n);
    assert total == n * b + total % n;
    if n >= 2 && i == n - 1 {
      assert (n - 1) * b == n * b - b;
    }
  }

  /** Consecutive chunks meet: each chunk ends one byte before the next starts. */
  lemma Contiguous(total: nat, n: int)
    requires n >= 1
    ensures forall i :: 0 <= i < n - 1 ==> ChunkAt(total, n, i).end + 1 == ChunkAt(total, n, i + 1).start
  {
    forall i | 0 <= i < n - 1
      ensures ChunkAt(total, n, i).end + 1 == ChunkAt(total, n, i + 1).start
    {
      var b := BlockSize(total, n);
      assert (i + 1) * b == i * b + b;
    }
  }

  /** `a*b <= c*b` for `a <= c` and `b >= 0`. */
  lemma MulMonotone(a: int, c: int, b: int)
    requires a <= c && b >= 0
    ensures a * b <= c * b
  {
    assert c * b - a * b == (c - a) * b;
  }

  /** Chunks are sorted by start and pairwise disjoint: an earlier chunk ends
      before any later chunk starts, so no byte offset is requested twice. */
  lemma OrderedDisjoint(total: nat, n: int)
    requires n >= 1
    ensures forall i, j :: 0 <= i < j < n ==>
      ChunkAt(total, n, i).start <= ChunkAt(total, n, j).start &&
      ChunkAt(total, n, i).end < ChunkAt(total, n, j).start
    ensures forall i, j, p :: 0 <= i < n && 0 <= j < n && i != j && Covers(ChunkAt(total, n, i), p) ==>
      !Covers(ChunkAt(total, n, j), p)
  {
    var b := BlockSize(total, n);
    forall i, j | 0 <= i < j < n
      ensures ChunkAt(total, n, i).start <= ChunkAt(total, n, j).start
      ensures ChunkAt(total, n, i).end < ChunkAt(total, n, j).start
    {
      MulMonotone(i, i + 1, b);
      MulMonotone(i + 1, j, b);
    }
  }

  /** When the file has fewer bytes than there are threads, every chunk but the
      last is the empty range `[0, -1]` and, with two or more threads, the last
      chunk is `[0, total]`. */
  lemma SmallFile(total: nat, n: int)
    requires n >= 1 && total < n
    ensures forall i :: 0 <= i < n && (n == 1 || i < n - 1) ==> ChunkAt(total, n, i) == ChunkRange(0, -1)
    ensures n >= 2 ==> ChunkAt(total, n, n - 1) == ChunkRange(0, total)
  {
    var b := BlockSize(total, n);
    if b >= 1 {
      MulMonotone(1, b, n);
    }
    assert b == 0;
    forall i | 0 <= i < n && (n == 1 || i < n - 1)
      ensures ChunkAt(total, n, i) == ChunkRange(0, -1)
    {
      assert i * b == 0 && (i + 1) * b == 0;
    }
    assert (n - 1) * b == 0;
  }

  /** Byte offset `p` is requested by some chunk. */
  predicate CoveredByAny(total: nat, n: int, p: int)
    requires n >= 1
  {
    exists i :: 0 <= i < n && Covers(ChunkAt(total, n, i), p)
  }

  /** No chunk requests an offset outside `[0, CoveredEnd]`. */
  lemma ChunkWithinSpan(total: nat, n: int, i: int, p: int)
    requires 0 <= i < n && Covers(ChunkAt(total, n, i), p)
    ensures 0 <= p <= CoveredEnd(total, n)
  {
    var b := BlockSize(total, n);
    assert 0 <= i * b;
    if !(n >= 2 && i == n - 1) {
      MulMonotone(i + 1, n, b);
      assert n * b <= total;
    }
  }

  /** The quotient of `p` by a positive `b` brackets `p` between two
      consecutive multiples of `b`. */
  lemma Quotient(p: nat, b: int) returns (q: nat)
    requires b > 0
    ensures q * b <= p < q * b + b
  {
    q := p / b;
  }

  /** The chunk that requests offset `p` of `[0, CoveredEnd]`. */
  lemma ChunkContaining(total: nat, n: int, p: int) returns (i: int)
    requires n >= 1 && 0 <= p <= CoveredEnd(total, n)
    ensures 0 <= i < n && Covers(ChunkAt(total, n, i), p)
  {
    var b := BlockSize(total, n);
    if n >= 2 && (n - 1) * b <= p {
      i := n - 1;
    } else {
      if n == 1 {
        assert b == total && p < total;
      } else {
        assert (n - 1) * b > p >= 0;
      }
      assert b > 0;
      i := Quotient(p, b);
      if n >= 2 && i >= n - 1 {
        MulMonotone(n - 1, i, b);
      }
      if n == 1 && i >= 1 {
        MulMonotone(1, i, b);
      }
      assert (i + 1) * b == i * b + b;
    }
  }

  /** The chunks together request exactly the offsets `[0, CoveredEnd]`: all of
      `[0, total-1]` and, with two or more threads, also offset `total`, which
      lies past the end of the file pre-sized to `total` bytes. */
  lemma Coverage(total: nat, n: int)
    requires n >= 1
    ensures forall p :: CoveredByAny(total, n, p) <==> 0 <= p <= CoveredEnd(total, n)
    ensures n >= 2 ==> Covers(ChunkAt(total, n, n - 1), total)
  {
    forall p
      ensures CoveredByAny(total, n, p) <==> 0 <= p <= CoveredEnd(total, n)
    {
      if CoveredByAny(total, n, p) {
        var i :| 0 <= i < n && Covers(ChunkAt(total, n, i), p);
        ChunkWithinSpan(total, n, i, p);
      }
      if 0 <= p <= CoveredEnd(total, n) {
        var i := ChunkContaining(total, n, p);
      }
    }
  }

  /** Sum of the sizes of a sequence of ranges. */
  function TotalSize(rs: seq<ChunkRange>): int {
    if rs == [] then 0 else TotalSize(rs[..|rs| - 1]) + Size(rs[|rs| - 1])
  }

  /** Ranges that meet end to start add up to the span from the first start to the last end. */
  lemma {:induction false} TelescopingSize(rs: seq<ChunkRange>)
    requires |rs| >= 1
    requires forall k :: 0 <= k < |rs| - 1 ==> rs[k].end + 1 == rs[k + 1].start
    ensures TotalSize(rs) == rs[|rs| - 1].end + 1 - rs[0].start
    decreases |rs|
  {
    if |rs| > 1 {
      var front := rs[..|rs| - 1];
      assert forall k :: 0 <= k < |front| - 1 ==> front[k].end + 1 == front[k + 1].start;
      TelescopingSize(front);
    }
  }

  /** The bytes requested add up to `total` for one thread and to `total + 1`
      for two or more. */
  lemma BytesRequested(total: nat, n: int)
    requires n >= 1
    ensures TotalSize(Ranges(total, n)) == CoveredEnd(total, n) + 1
    ensures n >= 2 ==> TotalSize(Ranges(total, n)) == total + 1
  {
    TelescopingSize(Ranges(total, n));
  }

  /** A request a server can answer with partial content: well formed, its
      first position not after its last, and satisfiable, its first position
      before the end of the representation (sections 14.1.1 and 14.1.2 of
      RFC 9110). */
  predicate Satisfiable(r: ChunkRange, length: nat) {
    0 <= r.start <= r.end && r.start < length
  }

  /** A range whose last position at or past the end of a representation of
      `length` bytes is taken as `length - 1` (section 14.1.2 of RFC 9110). */
  function ClampEnd(r: ChunkRange, length: nat): ChunkRange {
    if r.end >= length then ChunkRange(r.start, length - 1) else r
  }

  /** What a server sends for request `r` on a representation of `length`
      bytes: the clamped range when the request is satisfiable, and otherwise
      no partial content at all (`None`: a 416 answer, or the whole body when
      the server ignores the Range header). A served range lies inside both
      the request and the representation. */
  function Serve(r: ChunkRange, length: nat): (served: Option<ChunkRange>)
    ensures served.Some? <==> Satisfiable(r, length)
    ensures served.Some? ==>
      Satisfiable(served.value, length) && served.value.start == r.start && served.value.end <= r.end
  {
    if Satisfiable(r, length) then Some(ClampEnd(r, length)) else None
  }

  /** When the file has at least one byte per thread, every request the code
      sends is well formed and satisfiable. */
  lemma RequestsSatisfiable(total: nat, n: int)
    requires n >= 1 && total >= n
    ensures forall i :: 0 <= i < n ==> Satisfiable(ChunkAt(total, n, i), total)
  {
    var b := BlockSize(total, n);
    assert b >= 1;
    forall i | 0 <= i < n
      ensures Satisfiable(ChunkAt(total, n, i), total)
    {
      MulMonotone(i, n - 1, b);
      assert (n - 1) * b == n * b - b;
      assert (i + 1) * b == i * b + b;
    }
  }

  /** When the file has fewer bytes than threads, chunk 0's request `[0, -1]`
      is malformed and gets no partial content; for an empty file no request
      does. */
  lemma SmallFileRequestRejected(total: nat, n: int)
    requires n >= 1 && total < n
    ensures ChunkAt(total, n, 0) == ChunkRange(0, -1)
    ensures Serve(ChunkAt(total, n, 0), total) == None
    ensures total == 0 ==> forall i :: 0 <= i < n ==> Serve(ChunkAt(total, n, i), total) == None
  {
  }

  /** With at least one byte per thread, the server's clamping changes only
      the over-long last range, which then ends at `total - 1`. */
  lemma ServeChangesOnlyLast(total: nat, n: int)
    requires n >= 1 && total >= n
    ensures forall i :: 0 <= i < n && (n == 1 || i < n - 1) ==>
      Serve(ChunkAt(total, n, i), total) == Some(ChunkAt(total, n, i))
    ensures n >= 2 ==>
      Serve(ChunkAt(total, n, n - 1), total) == Some(ChunkRange((n - 1) * BlockSize(total, n), total - 1))
  {
    var b := BlockSize(total, n);
    RequestsSatisfiable(total, n);
    forall i | 0 <= i < n && (n == 1 || i < n - 1)
      ensures Serve(ChunkAt(total, n, i), total) == Some(ChunkAt(total, n, i))
    {
      MulMonotone(i + 1, n, b);
    }
  }

  /** Byte offset `p` is served to some chunk. */
  predicate ServedByAny(total: nat, n: int, p: int)
    requires n >= 1
  {
    exists i :: 0 <= i < n && Serve(ChunkAt(total, n, i), total).Some? &&
      Covers(Serve(ChunkAt(total, n, i), total).value, p)
  }

  /** With at least one byte per thread, the served offsets are exactly the
      file's, `[0, total-1]`. */
  lemma ServedOffsets(total: nat, n: int)
    requires n >= 1 && total >= n
    ensures forall p :: ServedByAny(total, n, p) <==> 0 <= p < total
  {
    Coverage(total, n);
    RequestsSatisfiable(total, n);
    forall p
      ensures ServedByAny(total, n, p) <==> 0 <= p < total
    {
      if 0 <= p < total {
        var i := ChunkContaining(total, n, p);
        assert Covers(Serve(ChunkAt(total, n, i), total).value, p);
      }
    }
  }

  /** The served ranges, in chunk-index order. */
  function Served(total: nat, n: int): (rs: seq<ChunkRange>)
    requires n >= 1
    ensures |rs| == n
  {
    seq(n, i requires 0 <= i < n => ClampEnd(ChunkAt(total, n, i), total))
  }

  /** With at least one byte per thread, each request is served as its entry
      of `Served`, and the served ranges add up to exactly `total` bytes. */
  lemma ServedBytes(total: nat, n: int)
    requires n >= 1 && total >= n
    ensures forall i :: 0 <= i < n ==> Serve(ChunkAt(total, n, i), total) == Some(Served(total, n)[i])
    ensures TotalSize(Served(total, n)) == total
  {
    RequestsSatisfiable(total, n);
    ServeChangesOnlyLast(total, n);
    var rs := Served(total, n);
    var cs := Ranges(total, n);
    forall k | 0 <= k < n - 1
      ensures rs[k].end + 1 == rs[k + 1].start
    {
      assert rs[k] == cs[k];
      assert rs[k + 1].start == cs[k + 1].start;
    }
    assert rs[0].start == 0;
    assert rs[n - 1].end == total - 1;
    TelescopingSize(rs);
  }

  /** Largest value of a Java `long`. */
  const LongMax: int := 0x7FFF_FFFF_FFFF_FFFF

  /** Largest value of a Java `int`, the type of `threadNumber` and `i`. */
  const IntMax: int := 0x7FFF_FFFF

  /** For any content length a Java `long` holds and any thread count an
      `int` holds, the `int` sum `i + 1` cannot wrap (it is at most
      `threadNumber`), and every `long` product and bound the loop computes
      lies in `[-1, total]`, inside the `long` range. Unbounded integers
      therefore model the arithmetic exactly. */
  lemma BoundsFitInLong(total: nat, n: int, i: int)
    requires total <= LongMax && n <= IntMax
    requires 0 <= i < n
    ensures i + 1 <= n <= IntMax
    ensures 0 <= i * BlockSize(total, n) <= (i + 1) * BlockSize(total, n) <= total <= LongMax
    ensures 0 <= ChunkAt(total, n, i).start <= total
    ensures -1 <= ChunkAt(total, n, i).end <= total
  {
    var b := BlockSize(total, n);
    MulMonotone(i, i + 1, b);
    MulMonotone(i + 1, n, b);
  }

  /** 1000 bytes on 4 threads: the last range reaches offset 1000. */
  lemma EvenSplitExample()
    ensures Ranges(1000, 4) ==
      [ChunkRange(0, 249), ChunkRange(250, 499), ChunkRange(500, 749), ChunkRange(750, 1000)]
  {
  }

  /** 1001 bytes on 3 threads: blocks of 333, the last range absorbing the
      remainder and reaching offset 1001. */
  lemma UnevenSplitExample()
    ensures Ranges(1001, 3) == [ChunkRange(0, 332), ChunkRange(333, 665), ChunkRange(666, 1001)]
  {
  }
}
