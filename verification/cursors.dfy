/** The archive's two readable streams, flattened: a stream pulls block after
    block from a feed, counting a limit down, and stops at the limit, at the
    first absent block or at the first failing read. */
module Cursors {
  import opened Results
  import opened Feeds
  import opened Entries

  /** How a stream ended: pushed `null`, or emitted an error. */
  datatype End = Finished | Failed(error: Error)

  /** Everything a stream yields, in order, and how it ended. */
  datatype Cursor<T> = Cursor(items: seq<T>, end: End)

  /** The `{start, limit}` options of both streams. */
  datatype StreamOptions = StreamOptions(start: Option<nat>, limit: Option<int>)

  /** `opts.start || 0`. */
  function StartOf(opts: StreamOptions): nat {
    opts.start.GetOr(0)
  }

  /** `opts.limit || Infinity`, with `None` for Infinity: a zero limit is falsy. */
  function LimitOf(opts: StreamOptions): Option<int> {
    if opts.limit == Some(0) then None else opts.limit
  }

  /** How many reads a `limit-- === 0` countdown starting at `limit` allows;
      `None` when it never reaches zero (Infinity, or a negative start). */
  function Countdown(limit: Option<int>): Option<nat> {
    if limit.Some? && limit.value >= 0 then Some(limit.value) else None
  }

  /** `limit--` on what is left of a countdown. */
  function Decrement(bound: Option<nat>): Option<nat> {
    if bound.Some? && bound.value > 0 then Some(bound.value - 1) else bound
  }

  /** `Math.min(limit, x)`, where `None` is Infinity. */
  function MinLimit(limit: Option<int>, x: int): int {
    if limit.Some? && limit.value < x then limit.value else x
  }

  function Min(a: int, b: int): int {
    if a < b then a else b
  }

  /** The number of entries the entry stream may yield: a positive limit, or
      no bound at all when the limit is absent, zero or negative. */
  function EntryBound(opts: StreamOptions): (b: Option<nat>)
    ensures b.Some? <==> opts.limit.Some? && opts.limit.value > 0
    ensures b.Some? ==> b.value == opts.limit.value
  {
    Countdown(LimitOf(opts))
  }

  /** What a stream pulling from `blocks` at `start`, with `bound` reads left,
      yields when the reads in `faults` fail. */
  function Window<T>(blocks: seq<T>, faults: map<nat, Error>, start: nat, bound: Option<nat>): Cursor<T>
    decreases |blocks| - start
  {
    if bound == Some(0) then Cursor([], Finished)
    else match Read(blocks, faults, start)
      case Failure(e) => Cursor([], Failed(e))
      case Success(None) => Cursor([], Finished)
      case Success(Some(b)) =>
        var rest := Window(blocks, faults, start + 1, Decrement(bound));
        Cursor([b] + rest.items, rest.end)
  }

  /** A stream yields the blocks from `start` on, in order, never more than its
      bound; it fails with the error of the read it stopped at, and otherwise
      stops only when the bound is used up or the next block is absent. */
  lemma {:induction false} WindowInOrder<T>(blocks: seq<T>, faults: map<nat, Error>, start: nat, bound: Option<nat>)
    decreases |blocks| - start
    ensures var c := Window(blocks, faults, start, bound);
      && (bound.Some? ==> |c.items| <= bound.value)
      && (c.items == [] || start + |c.items| <= |blocks|)
      && (forall k :: 0 <= k < |c.items| ==> c.items[k] == blocks[start + k])
      && (forall j :: start <= j < start + |c.items| ==> j !in faults)
      && (c.end.Failed? ==> start + |c.items| in faults && c.end.error == faults[start + |c.items|])
      && (c.end == Finished ==>
            bound == Some(|c.items|) || (start + |c.items| !in faults && start + |c.items| >= |blocks|))
  {
    if bound != Some(0) && start !in faults && start < |blocks| {
      WindowInOrder(blocks, faults, start + 1, Decrement(bound));
      var rest := Window(blocks, faults, start + 1, Decrement(bound));
      var c := Window(blocks, faults, start, bound);
      assert c.items == [blocks[start]] + rest.items;
      forall k | 0 <= k < |c.items|
        ensures c.items[k] == blocks[start + k]
      {
        if k > 0 {
          assert c.items[k] == rest.items[k - 1];
        }
      }
    }
  }

  /** The index a fault-free stream stops before. */
  function Stop(n: nat, start: nat, bound: Option<nat>): nat {
    if start >= n then n
    else if bound.Some? && start + bound.value < n then start + bound.value
    else n
  }

  /** Without failing reads, a stream yields exactly the blocks from `start` up
      to its bound or the end of the feed, and nothing when `start` is past the end. */
  lemma {:induction false} WindowWithoutFaults<T>(blocks: seq<T>, faults: map<nat, Error>, start: nat, bound: Option<nat>)
    requires forall j :: j in faults ==> j < start
    decreases |blocks| - start
    ensures Window(blocks, faults, start, bound)
         == Cursor(blocks[Min(start, |blocks|)..Stop(|blocks|, start, bound)], Finished)
  {
    if bound != Some(0) && start < |blocks| {
      WindowWithoutFaults(blocks, faults, start + 1, Decrement(bound));
      assert blocks[start..Stop(|blocks|, start, bound)]
          == [blocks[start]] + blocks[start + 1..Stop(|blocks|, start + 1, Decrement(bound))];
    }
  }

  /** The from2 pull loop of both streams, over a feed that does not change meanwhile. */
  method Pull<T>(feed: Feed<T>, faults: map<nat, Error>, start: nat, bound: Option<nat>) returns (c: Cursor<T>)
    ensures c == Window(feed.blocks, faults, start, bound)
  {
    var next, limit := start, bound;
    var yielded: seq<T> := [];
    while true
      invariant Window(feed.blocks, faults, start, bound)
             == Cursor(yielded + Window(feed.blocks, faults, next, limit).items,
                       Window(feed.blocks, faults, next, limit).end)
      decreases |feed.blocks| - next
    {
      if limit == Some(0) {
        return Cursor(yielded, Finished);
      }
      var r := feed.Get(next, faults);
      if r.Failure? {
        return Cursor(yielded, Failed(r.error));
      }
      if r.value.None? {
        return Cursor(yielded, Finished);
      }
      yielded := yielded + [r.value.value];
      next, limit := next + 1, Decrement(limit);
    }
  }

  /** The read limit of a file stream once the entry's link is known: the
      caller's limit, capped at the content feed's block count. */
  function FileBound(opts: StreamOptions, link: Link): (b: Option<nat>)
    ensures opts.limit.None? || opts.limit == Some(0) ==> b == Some(link.blocks)
    ensures opts.limit.Some? && opts.limit.value > 0 ==> b == Some(Min(opts.limit.value, link.blocks))
    ensures opts.limit.Some? && opts.limit.value < 0 ==> b == None
  {
    Countdown(Some(MinLimit(LimitOf(opts), link.blocks)))
  }

  /** The same limit as index.js computes it, capped at the block count minus
      the byte length of the packed index. Once that difference is negative the
      countdown never reaches zero, so the caller's limit is lost as well. */
  function FileBoundAsWritten(opts: StreamOptions, link: Link): (b: Option<nat>)
    ensures opts.limit.None? || opts.limit == Some(0) ==>
      b == if |link.index| <= link.blocks then Some(link.blocks - |link.index|) else None
    ensures opts.limit.Some? && opts.limit.value > 0 ==>
      b == if |link.index| <= link.blocks then Some(Min(opts.limit.value, link.blocks - |link.index|)) else None
    ensures opts.limit.Some? && opts.limit.value < 0 ==> b == None
  {
    Countdown(Some(MinLimit(LimitOf(opts), link.blocks - |link.index|)))
  }

  /** Reading back a file just appended, from its first chunk with no limit,
      yields every chunk in order: their concatenation is the file. */
  lemma ReadBack(name: string, id: Option<FeedId>, chunks: seq<Bytes>, pack: seq<nat> -> Bytes)
    ensures Window(chunks, map[], 0, FileBound(StreamOptions(None, None), FileRecord(name, id, chunks, pack).link.value))
         == Cursor(chunks, Finished)
  {
    WindowWithoutFaults(chunks, map[], 0, Some(|chunks|));
  }

  /** With the limit as written, a file whose packed index is `m` bytes long,
      `0 < m <= ` its chunk count, reads back without its last `m` chunks. */
  lemma ReadBackAsWrittenDropsChunks(name: string, id: Option<FeedId>, chunks: seq<Bytes>, pack: seq<nat> -> Bytes)
    requires 0 < |pack(Offsets(chunks))| <= |chunks|
    ensures var c := Window(chunks, map[], 0,
                            FileBoundAsWritten(StreamOptions(None, None), FileRecord(name, id, chunks, pack).link.value));
      c.items == chunks[..|chunks| - |pack(Offsets(chunks))|] && c.items != chunks
  {
    WindowWithoutFaults(chunks, map[], 0, Some(|chunks| - |pack(Offsets(chunks))|));
  }

  /** With the limit as written, a file whose packed index is longer than its
      chunk count reads back whole from `start` on, whatever limit the caller gave. */
  lemma ReadBackAsWrittenIgnoresLimit(name: string, id: Option<FeedId>, chunks: seq<Bytes>, pack: seq<nat> -> Bytes,
                                      opts: StreamOptions)
    requires |pack(Offsets(chunks))| > |chunks|
    ensures Window(chunks, map[], StartOf(opts), FileBoundAsWritten(opts, FileRecord(name, id, chunks, pack).link.value))
         == Cursor(chunks[Min(StartOf(opts), |chunks|)..], Finished)
  {
    var link := FileRecord(name, id, chunks, pack).link.value;
    assert FileBoundAsWritten(opts, link) == None;
    WindowUnbounded(chunks, StartOf(opts));
  }

  /** An unbounded stream over a feed without failing reads yields all from `start` on. */
  lemma WindowUnbounded<T>(blocks: seq<T>, start: nat)
    ensures Window(blocks, map[], start, None) == Cursor(blocks[Min(start, |blocks|)..], Finished)
  {
    WindowWithoutFaults(blocks, map[], start, None);
  }

  /** The corrected limit keeps the caller's: a positive limit `l` reads back
      `chunks[start .. min(start + l, count)]`. */
  lemma ReadBackLimited(name: string, id: Option<FeedId>, chunks: seq<Bytes>, pack: seq<nat> -> Bytes,
                        opts: StreamOptions)
    requires opts.limit.Some? && opts.limit.value > 0
    ensures var start, l := StartOf(opts), opts.limit.value;
      Window(chunks, map[], start, FileBound(opts, FileRecord(name, id, chunks, pack).link.value))
      == Cursor(chunks[Min(start, |chunks|)..Min(Min(start, |chunks|) + l, |chunks|)], Finished)
  {
    WindowWithoutFaults(chunks, map[], StartOf(opts), Some(Min(opts.limit.value, |chunks|)));
  }

  /** A one-chunk file whose packed index is one byte reads back as nothing. */
  lemma AsWrittenReadsNothing()
    ensures Window([[1]], map[], 0,
                   FileBoundAsWritten(StreamOptions(None, None),
                                      FileRecord("a", None, [[1]], (o: seq<nat>) => [0]).link.value))
         == Cursor([], Finished)
  {
  }

  /** A two-chunk file whose packed index is three bytes, read with limit 1,
      reads back as both chunks. */
  lemma AsWrittenIgnoresLimit()
    ensures Window([[1], [2]], map[], 0,
                   FileBoundAsWritten(StreamOptions(None, Some(1)),
                                      FileRecord("a", None, [[1], [2]], (o: seq<nat>) => [0, 0, 0]).link.value))
         == Cursor([[1], [2]], Finished)
  {
    ReadBackAsWrittenIgnoresLimit("a", None, [[1], [2]], (o: seq<nat>) => [0, 0, 0], StreamOptions(None, Some(1)));
  }
}
