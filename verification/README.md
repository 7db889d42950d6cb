# Hyperdrive archives, modelled in Dafny

Hyperdrive stores a directory as an *archive*. An archive lists its files in an
append-only feed of entry records. Each record names a file and, optionally,
links to a second feed that holds that file's content as content-defined
chunks. This project models the `Archive` of `index.js`:

- its state: `id`, the cached `entries` count, and the entry feed it owns;
- its reads: `get`, `select`, the entry stream and the file read stream;
- `finalize`;
- the `appendFile` pipeline, which fills and seals a content feed and then
  appends the record that points at it;
- the four operations that only throw "not yet implemented";
- the drive that creates archives (`Hyperdrive.get` and `add`).

The feed is kept abstract. A `Feeds.Feed<T>` holds its blocks, a finalized flag
and an optional id. The feed store behind `core.add`/`core.get` is
`Hyperdrive.Core`, which keeps the sealed content feeds and entry feeds by id.
Every storage outcome the code reacts to comes in as a parameter:

- a failing read or chunk write is a map from block index to error;
- appending a record and opening a feed each take an `Outcome`;
- the id a feed gets when it is sealed is a `Result`.

Callback chains are flattened into sequential steps. Each stream is a method
that returns everything it yields, in order, and how it ended. These methods
are proved against `Cursors.Window`, a recursive definition of the `from2`
pull loop.

Modules: `Results` (callback outcomes), `Feeds` (the feed), `Entries` (entry
records and the chunk index), `Cursors` (the streams' windowing), `Hyperdrive`
(store, drive, archive).

## Model

| member | source | states |
|---|---|---|
| `Hyperdrive.Drive.constructor` | index.js:14-21 | The drive is bound to a fresh feed store over the given database contents. |
| `Hyperdrive.Drive.Get` | index.js:27-29 | Opens the archive whose entry feed was sealed under `id`: its id is set, it holds the stored entries, and it is valid with a count of 0. |
| `Hyperdrive.Drive.Add` | index.js:31-33 | Creates a new archive with no id, an empty writable entry feed and a count of 0. |
| `Hyperdrive.Archive.constructor` | index.js:35-54 | With no id it creates a new writable entry feed; with an id it opens the existing sealed feed of that id. `entries` starts at 0 and the one-shot update listener is armed. |
| `Hyperdrive.Archive.OnUpdate` | index.js:49-53 | The first update sets `entries` to the entry feed's block count. Later updates change nothing. The invariant is kept. |
| `Hyperdrive.Archive.Get` | index.js:77-83 | Three outcomes. A feed error is passed on unchanged and carries no result. An index past the end gives an empty result, not an error. Otherwise the result is the record at that index. |
| `Hyperdrive.Archive.Select` | index.js:60-71 | Error at `i`: that error, and nothing is opened. Entry absent or without a link: success, nothing opened. Otherwise the content feed named by `link.id` is opened under `directory/name`, and the open's own outcome is returned. The stores are unchanged. |
| `Hyperdrive.Archive.Deselect` | index.js:73-75 | Always fails with "not yet implemented". |
| `Hyperdrive.Archive.Finalize` | index.js:85-94 | Succeeds exactly when sealing succeeds (or the feed was already sealed). On success `id` is the feed's id, `entries` its block count, and the store holds the entries under that id, so the drive can reopen them. On error, `id`, `entries`, the feed and the store are unchanged and the error is returned. Sealing twice keeps the first id. |
| `Hyperdrive.Archive.CreateEntryStream` | index.js:96-107 | Yields exactly the window of the entry feed that starts at `start` (default 0) and is bounded by `EntryBound`. |
| `Hyperdrive.Archive.CreateFileCursor` | index.js:109-111 | Always fails with "not yet implemented". |
| `Hyperdrive.Archive.CreateFileReadStream` | index.js:113-135 | Error while reading entry `i`: that error, nothing yielded. Entry without a link: nothing yielded. Otherwise it yields the window of the linked content feed from `start`, bounded by `FileBound`. `i` must be in range or failing, since the code dereferences a null entry otherwise. |
| `Hyperdrive.Archive.CreateFileReadStreamAsWritten` | index.js:113-135 | The file stream with the read limit exactly as index.js:132 computes it: the same three outcomes, with the linked content feed's window bounded by `FileBoundAsWritten`. |
| `Hyperdrive.Archive.ReadContent` | index.js:121-133 | The read shared by both file streams: the entry's read error, nothing for an entry without a link, otherwise the window of the linked content feed from `start` under the limit derived from the link. |
| `Hyperdrive.Archive.CreateFileWriteStream` | index.js:138-140 | Always fails with "not yet implemented". |
| `Hyperdrive.Archive.Append` | index.js:142-144 | Always fails with "not yet implemented". |
| `Hyperdrive.Archive.AppendFile` | index.js:146-183 | Chunks are written in order until the first failing write, which stops the pipeline; a source error does the same. Both leave the entry feed and `entries` unchanged. Otherwise the content feed is sealed, and its seal error is ignored. Then the record `{name, link: {id, blocks, pack(index)}}` is appended. `entries` goes up by exactly one iff that append succeeds. Every linked id in the entry feed names a feed already sealed in the store. |
| `Hyperdrive.AppendThenReadBack` | index.js:161-181 | On an empty store, a new archive has no entry 0. After one file is appended the count is 1, and the file stream of entry 0 yields exactly the file's chunks. |
| `Hyperdrive.FinalizeTwice` | index.js:85-94 | Once a finalize has succeeded, a second one succeeds too and changes neither `id` nor `entries`. The id is the one the first seal gave, or the feed's own id when it was sealed already. |
| `Hyperdrive.FinalizeThenReopen` | index.js:27-29 | A file is appended to a new archive, and the archive is finalized under `key`. `drive.get(key)` then reopens an archive holding exactly that file's record, and its file stream yields the file's chunks. |
| `Hyperdrive.Core.OpenContent` | index.js:131 | Opening a content feed by id yields a sealed feed with what the store holds under that id. An unknown or missing id yields an empty feed. |
| `Hyperdrive.Core.OpenCatalog` | index.js:46 | Opening an entry feed by id yields a sealed feed with the stored entries, whose links all name sealed content feeds. |
| `Hyperdrive.Core.SealContent` | index.js:166 | Finalizing a content feed keeps its blocks. On success the feed is sealed under the given id and the store holds its blocks there. On failure nothing changes. |
| `Hyperdrive.Core.SealCatalog` | index.js:88 | The same, for an entry feed. The store's invariant (links only to sealed content) is kept. |
| `Hyperdrive.Core.Open` | index.js:66-69 | Returns the open's outcome. A successful open is recorded as a selection. |
| `Feeds.Feed.Create` | index.js:43 | `core.add`: a new writable feed, empty, unsealed and without an id, stored under the given filename. |
| `Feeds.Feed.Open` | index.js:45 | `core.get(id)`: an existing feed, sealed under `id`, holding what the store keeps for it. |
| `Feeds.Read` | index.js:78-80 | What reading a block calls back with: the read's error, nothing past the end, or the block. |
| `Feeds.Feed.Append` | index.js:162 | Assumed feed contract: a sealed feed refuses the append. Otherwise storage decides, and only a successful append adds the block at the end. |
| `Feeds.Feed.Get` | index.js:78-80 | Assumed feed contract: a failing read gives its error, a read past the end gives nothing, and otherwise the block is returned. |
| `Feeds.Feed.Finalize` | index.js:88-91 | Assumed feed contract: sealing a sealed feed is a no-op success. Otherwise storage's id or error decides. Blocks never change. |
| `Feeds.FirstFault` | index.js:152-163 | The first failing chunk write: no earlier write fails, and it is the first index that does, or the chunk count when none fails. |
| `Entries.Offsets` | index.js:172 | The storage index `_storage._index` of a content feed: one cumulative end offset per chunk. |
| `Entries.FileRecord` | index.js:167-174 | The record appended for a file: its name, and a link holding the content feed's id, its block count and the packed storage index. |
| `Entries.OffsetsDeltas` | index.js:172 | The storage index handed to `pack` loses nothing: its successive differences are exactly the chunk sizes, it never decreases, and it ends at the file's length. |
| `Cursors.EntryBound` | index.js:98-104 | The entry stream is bounded exactly when the limit is positive, and then by that limit. An absent, zero (`||`) or negative limit means no bound. |
| `Cursors.Window` | index.js:103-106 | What a stream pulling from `start` with a countdown yields: nothing once the countdown is used up, the error of a failing read, nothing past the end, and otherwise the block followed by the rest of the stream. |
| `Cursors.WindowUnbounded` | index.js:103-106 | A stream without a bound and without failing reads yields every block from `start` on. |
| `Cursors.Pull` | index.js:101-106 | The pull loop yields exactly `Window(blocks, faults, start, bound)`. |
| `Cursors.WindowInOrder` | index.js:103-106 | A stream yields `blocks[start]`, `blocks[start+1]`, … in order and never more than its bound. It fails only with the error of the read it stopped at. Otherwise it stops only when the bound is used up or the next block is absent. |
| `Cursors.WindowWithoutFaults` | index.js:103-106 | With no failing read, a stream yields exactly `blocks[start .. min(start+limit, length)]`, or nothing when `start` is past the end. |
| `Cursors.FileBound` | index.js:132 | Corrected file read limit: the caller's limit capped at the link's block count. With no limit (or zero) it is the whole block count; a negative limit means no bound. |
| `Cursors.FileBoundAsWritten` | index.js:132 | The limit as written, case by case. With no caller limit it is `blocks - index.length`. With a positive one it is the smaller of the two. Whenever `blocks - index.length` is negative, or the caller's limit is, there is no bound at all: the caller's limit is lost too. |
| `Cursors.ReadBack` | index.js:121-133 | Reading back a freshly appended file from chunk 0 with no limit yields every chunk in order and ends normally. |
| `Cursors.ReadBackAsWrittenDropsChunks` | index.js:132 | With the limit as written, a file whose packed index is `m` bytes (`0 < m <=` chunk count) reads back without its last `m` chunks. |
| `Cursors.ReadBackLimited` | index.js:121-133 | With the corrected limit, a freshly appended file read with a positive limit `l` yields `chunks[start .. min(start + l, count)]`. |
| `Cursors.ReadBackAsWrittenIgnoresLimit` | index.js:132 | With the limit as written, a file whose packed index is longer than its chunk count reads back whole from `start` on, whatever the caller's limit. |
| `Cursors.AsWrittenReadsNothing` | index.js:132 | A one-chunk file with a one-byte packed index reads back as nothing. |
| `Cursors.AsWrittenIgnoresLimit` | index.js:132 | A two-chunk file with a three-byte packed index, read with limit 1, yields both chunks. |

## Left out

- Feed internals, storage (`./lib/storage`), replication and `createPeerStream` (index.js:18-25) are outside this model. A feed is its blocks, a finalized flag and an id. Failures and ids are parameters.
- Behaviour assumed of the feed, not visible in this code:
  - appending to a sealed feed fails;
  - sealing a sealed feed is a no-op;
  - a read past the end yields nothing;
  - opening an id the store does not hold gives an empty feed.
- `ready` (index.js:56-58) only passes the feed's readiness through. The model has no readiness state, so it is left out.
- The rabin chunker (index.js:154) is not modelled: the file arrives as its chunks. That the chunks concatenate to the file is the chunker's promise, not proved here.
- Delta-list `pack` (index.js:172) is an arbitrary function parameter. `_storage._index` is taken to be the blocks' cumulative end offsets.
- Protobuf `Entry.encode`/`decode` (`./lib/messages`) are not modelled. The entry feed holds decoded records, which assumes decoding undoes encoding.
- The filesystem read, `pump`, and `bulk-write-stream`'s batching of several chunks into one append are not modelled. Each chunk is its own write with its own outcome. A source read error is taken to come after the delivered chunks.
- The `from2` streams are not modelled: each stream returns all it yields at once. A stream's own start and limit are locals, so cursors share no state.
- The asynchronous `'update'` race (index.js:49-53) and concurrent `appendFile` calls are not modelled. The update is an explicit `OnUpdate` step, and every operation is one sequential step.
- The demo script (index.js:187-199) is not modelled.
- The crash at index.js:130 for an out-of-range `i` is not modelled. `CreateFileReadStream` requires `i` in range (or failing) instead.
- `path.join` normalisation is not modelled: a filename is kept as the pair (directory, name).
- An empty-string id is falsy in `!id` but is not treated specially. A non-integer or negative `start` is not modelled.
- A fractional `limit` is not modelled: `limit` is an integer. In JavaScript a limit such as 2.5 counts down past 0 without ever equalling it, so it never bounds the stream.
- Hyperdrive.Archive.CreateFileReadStream: uses the corrected read limit of the finding below, not the one written at index.js:132; `Hyperdrive.Archive.CreateFileReadStreamAsWritten` keeps the one written there.
- Cases the code does not guard, kept as written:
  - a failure to seal the content feed is ignored (index.js:166), so the record is appended with no content id;
  - `appendFile` on a finalized archive is not rejected up front: the chunks are written, and the feed refuses the record;
  - `finalize` has no guard of its own.

## Findings

| source | as written | input that shows it | evidently intended | confidence | as-written member | corrected member |
|---|---|---|---|---|---|---|
| index.js:132 | The read limit is `Math.min(limit, link.blocks - link.index.length)`. `index` is the packed index's bytes, so its length counts bytes, not chunks. | A packer that spends at least one byte per offset makes the index at least as long as the chunk count. A one-chunk file with a one-byte packed index reads back as nothing. | `Math.min(limit, link.blocks)`: read up to the whole file. | medium, not executed | `Cursors.ReadBackAsWrittenDropsChunks` | `Cursors.ReadBack` |
| index.js:132 | Same line: when the packed index is longer than the chunk count, `Math.min` is negative, and `limit-- === 0` never holds. | A two-chunk file with a three-byte packed index, read with limit 1, yields both chunks: the caller's limit is ignored. | The caller's limit bounds the stream. | medium, not executed | `Cursors.ReadBackAsWrittenIgnoresLimit` | `Cursors.ReadBackLimited` |
