/** A drive and its archives: an archive is a directory whose listing is an
    append-only feed of entry records, each file's content living in a feed of
    its own. */
module Hyperdrive {
  import opened Results
  import opened Feeds
  import opened Entries
  import opened Cursors

  /** A content feed opened for random access by `select`. */
  datatype Opening = Opening(id: Option<FeedId>, filename: Path)

  /** The feed store the drive is bound to: the content feeds and the entry feeds
      sealed so far, by id, and the content feeds selected for reading. */
  class Core {
    var contents: map<FeedId, seq<Bytes>>
    var catalogs: map<FeedId, seq<Entry>>
    var selected: seq<Opening>

    /** Every entry feed the store holds links only to content feeds it holds. */
    ghost predicate Valid()
      reads this
    {
      forall k | k in catalogs :: AllLinksSealed(catalogs[k], contents.Keys)
    }

    constructor (contents: map<FeedId, seq<Bytes>>, catalogs: map<FeedId, seq<Entry>>)
      requires forall k | k in catalogs :: AllLinksSealed(catalogs[k], contents.Keys)
      ensures Valid()
      ensures this.contents == contents && this.catalogs == catalogs && selected == []
    {
      this.contents := contents;
      this.catalogs := catalogs;
      selected := [];
    }

    /** `core.get(id)` for a content feed. */
    method OpenContent(id: Option<FeedId>) returns (f: Feed<Bytes>)
      ensures fresh(f) && f.blocks == Stored(contents, id) && f.finalized && f.id == id
    {
      f := new Feed.Open(id, Stored(contents, id), None);
    }

    /** `core.get(id)` for an archive's entry feed. */
    method OpenCatalog(id: Option<FeedId>) returns (f: Feed<Entry>)
      ensures fresh(f) && f.blocks == Stored(catalogs, id) && f.finalized && f.id == id
      ensures Valid() ==> AllLinksSealed(f.blocks, contents.Keys)
    {
      f := new Feed.Open(id, Stored(catalogs, id), None);
    }

    /** `feed.finalize` on a content feed; once sealed, the store holds it under its id. */
    method SealContent(f: Feed<Bytes>, io: Result<FeedId>) returns (r: Outcome)
      requires Valid()
      modifies this, f
      ensures Valid()
      ensures f.blocks == old(f.blocks)
      ensures old(f.finalized) ==> r == Pass && f.finalized && f.id == old(f.id)
      ensures !old(f.finalized) && io.Success? ==> r == Pass && f.finalized && f.id == Some(io.value)
      ensures !old(f.finalized) && io.Failure? ==> r == Fail(io.error) && !f.finalized && f.id == old(f.id)
      ensures contents == if r.Pass? && f.id.Some? then old(contents)[f.id.value := f.blocks] else old(contents)
      ensures catalogs == old(catalogs) && selected == old(selected)
    {
      r := f.Finalize(io);
      if r.Pass? && f.id.Some? {
        contents := contents[f.id.value := f.blocks];
      }
    }

    /** `feed.finalize` on an entry feed; once sealed, the store holds it under its id. */
    method SealCatalog(f: Feed<Entry>, io: Result<FeedId>) returns (r: Outcome)
      requires Valid() && AllLinksSealed(f.blocks, contents.Keys)
      modifies this, f
      ensures Valid()
      ensures f.blocks == old(f.blocks)
      ensures old(f.finalized) ==> r == Pass && f.finalized && f.id == old(f.id)
      ensures !old(f.finalized) && io.Success? ==> r == Pass && f.finalized && f.id == Some(io.value)
      ensures !old(f.finalized) && io.Failure? ==> r == Fail(io.error) && !f.finalized && f.id == old(f.id)
      ensures catalogs == if r.Pass? && f.id.Some? then old(catalogs)[f.id.value := f.blocks] else old(catalogs)
      ensures contents == old(contents) && selected == old(selected)
    {
      r := f.Finalize(io);
      if r.Pass? && f.id.Some? {
        catalogs := catalogs[f.id.value := f.blocks];
      }
    }

    /** `core.get(id, {filename}).open(cb)`: storage decides whether the open succeeds. */
    method Open(id: Option<FeedId>, filename: Path, io: Outcome) returns (r: Outcome)
      modifies this
      ensures r == io
      ensures selected == old(selected) + if io.Pass? then [Opening(id, filename)] else []
      ensures contents == old(contents) && catalogs == old(catalogs)
    {
      r := io;
      if io.Pass? {
        selected := selected + [Opening(id, filename)];
      }
    }
  }

  /** `Hyperdrive(db)`: a feed store over a database and a factory of archives. */
  class Drive {
    const core: Core

    constructor (contents: map<FeedId, seq<Bytes>>, catalogs: map<FeedId, seq<Entry>>)
      requires forall k | k in catalogs :: AllLinksSealed(catalogs[k], contents.Keys)
      ensures fresh(core) && core.Valid()
      ensures core.contents == contents && core.catalogs == catalogs && core.selected == []
    {
      core := new Core(contents, catalogs);
    }

    /** `drive.get(id, folder)`: the archive sealed under `id`. */
    method Get(id: FeedId, folder: string) returns (a: Archive)
      requires core.Valid()
      ensures fresh(a) && fresh(a.feed) && a.Valid()
      ensures a.core == core && a.directory == folder && a.id == Some(id)
      ensures a.entries == 0 && a.awaitingUpdate
      ensures a.feed.blocks == Stored(core.catalogs, Some(id)) && a.feed.finalized && a.feed.id == Some(id)
    {
      a := new Archive(this, folder, Some(id));
    }

    /** `drive.add(folder)`: a new, writable archive. */
    method Add(folder: string) returns (a: Archive)
      requires core.Valid()
      ensures fresh(a) && fresh(a.feed) && a.Valid()
      ensures a.core == core && a.directory == folder && a.id == None
      ensures a.entries == 0 && a.awaitingUpdate
      ensures a.feed.blocks == [] && !a.feed.finalized && a.feed.id == None
    {
      a := new Archive(this, folder, None);
    }
  }

  class Archive {
    var id: Option<FeedId>
    const directory: string
    const core: Core
    /** The feed of entry records, one block per entry. */
    const feed: Feed<Entry>
    /** The cached number of entries. */
    var entries: nat
    /** The one-shot `'update'` listener has not fired yet. */
    var awaitingUpdate: bool

    /** The cached count never runs ahead of the entry feed, a sealed entry feed
        has an id, and every entry that names a content feed names one that was
        sealed before it was appended. */
    ghost predicate Valid()
      reads this, core, feed
    {
      && entries <= |feed.blocks|
      && (feed.finalized ==> feed.id.Some?)
      && core.Valid()
      && AllLinksSealed(feed.blocks, core.contents.Keys)
    }

    /** `new Archive(drive, folder, id)`: without an id a new writable entry feed,
        with one the existing feed of that id; no entries counted yet. */
    constructor (drive: Drive, folder: string, id: Option<FeedId>)
      requires drive.core.Valid()
      ensures Valid() && fresh(feed)
      ensures this.id == id && directory == folder && core == drive.core
      ensures entries == 0 && awaitingUpdate
      ensures id.None? ==> feed.blocks == [] && !feed.finalized && feed.id == None && feed.filename == None
      ensures id.Some? ==> feed.blocks == Stored(core.catalogs, id) && feed.finalized && feed.id == id
    {
      this.id := id;
      directory := folder;
      core := drive.core;
      entries := 0;
      awaitingUpdate := true;
      var f: Feed<Entry>;
      if id.None? {
        f := new Feed.Create(None);
      } else {
        f := drive.core.OpenCatalog(id);
      }
      feed := f;
    }

    /** The first `'update'` of the entry feed sets the count to its length;
        later updates leave the count alone. */
    method OnUpdate()
      requires Valid()
      modifies this
      ensures Valid() && !awaitingUpdate && id == old(id)
      ensures entries == if old(awaitingUpdate) then |feed.blocks| else old(entries)
    {
      if awaitingUpdate {
        entries := |feed.blocks|;
        awaitingUpdate := false;
      }
    }

    /** Entry `i`: the feed's error, no entry past the end, or the decoded record. */
    method Get(i: nat, faults: map<nat, Error>) returns (r: Result<Option<Entry>>)
      ensures i in faults ==> r == Failure(faults[i])
      ensures i !in faults && i >= |feed.blocks| ==> r == Success(None)
      ensures i !in faults && i < |feed.blocks| ==> r == Success(Some(feed.blocks[i]))
    {
      var data := feed.Get(i, faults);
      if data.Failure? {
        return Failure(data.error);
      }
      if data.value.None? {
        return Success(None);
      }
      r := Success(Some(data.value.value));
    }

    /** Opens the content feed of entry `i` for reading: nothing to open when the
        entry is absent or has no link, the open's own outcome otherwise. */
    method Select(i: nat, faults: map<nat, Error>, io: Outcome) returns (r: Outcome)
      requires Valid()
      modifies core
      ensures Valid()
      ensures core.contents == old(core.contents) && core.catalogs == old(core.catalogs)
      ensures i in faults ==> r == Fail(faults[i]) && core.selected == old(core.selected)
      ensures i !in faults && (i >= |feed.blocks| || feed.blocks[i].link.None?) ==>
        r == Pass && core.selected == old(core.selected)
      ensures i !in faults && i < |feed.blocks| && feed.blocks[i].link.Some? ==>
        && r == io
        && core.selected == old(core.selected)
             + if io.Pass? then [Opening(feed.blocks[i].link.value.id, Path(directory, feed.blocks[i].name))] else []
    {
      var data := Get(i, faults);
      if data.Failure? {
        return Fail(data.error);
      }
      if data.value.None? || data.value.value.link.None? {
        return Pass;
      }
      var entry := data.value.value;
      r := core.Open(entry.link.value.id, Path(directory, entry.name), io);
    }

    method Deselect(i: nat) returns (r: Outcome)
      ensures r == Fail(NotYetImplemented)
    {
      r := Fail(NotYetImplemented);
    }

    /** Seals the entry feed; only then are the archive's id and count taken
        from it. Sealing an already sealed feed keeps its id. */
    method Finalize(io: Result<FeedId>) returns (r: Outcome)
      requires Valid()
      modifies this, feed, core
      ensures Valid()
      ensures feed.blocks == old(feed.blocks) && awaitingUpdate == old(awaitingUpdate)
      ensures core.contents == old(core.contents) && core.selected == old(core.selected)
      ensures r.Pass? <==> old(feed.finalized) || io.Success?
      ensures r.Pass? ==> feed.finalized && id == feed.id && entries == |feed.blocks|
      ensures core.catalogs == if r.Pass? then old(core.catalogs)[feed.id.value := feed.blocks] else old(core.catalogs)
      ensures r.Pass? ==> feed.id == if old(feed.finalized) then old(feed.id) else Some(io.value)
      ensures r.Fail? ==>
        && r == Fail(io.error) && id == old(id) && entries == old(entries)
        && feed.id == old(feed.id) && !feed.finalized
    {
      r := core.SealCatalog(feed, io);
      if r.Fail? {
        return;
      }
      id := feed.id;
      entries := |feed.blocks|;
    }

    /** The entries from `start` on, as many as the limit allows, up to the
        first absent entry or failing read. */
    method CreateEntryStream(opts: StreamOptions, faults: map<nat, Error>) returns (c: Cursor<Entry>)
      ensures c == Window(feed.blocks, faults, StartOf(opts), EntryBound(opts))
    {
      c := Pull(feed, faults, StartOf(opts), EntryBound(opts));
    }

    method CreateFileCursor(i: nat, opts: StreamOptions) returns (r: Outcome)
      ensures r == Fail(NotYetImplemented)
    {
      r := Fail(NotYetImplemented);
    }

    /** The chunks of entry `i`'s content feed from `start` on: nothing when the
        entry has no link, else at most the limit and at most the link's block count. */
    method CreateFileReadStream(i: nat, opts: StreamOptions, faults: map<nat, Error>, contentFaults: map<nat, Error>)
      returns (c: Cursor<Bytes>)
      requires i in faults || i < |feed.blocks|
      ensures i in faults ==> c == Cursor([], Failed(faults[i]))
      ensures i !in faults && feed.blocks[i].link.None? ==> c == Cursor([], Finished)
      ensures i !in faults && feed.blocks[i].link.Some? ==>
        var link := feed.blocks[i].link.value;
        c == Window(Stored(core.contents, link.id), contentFaults, StartOf(opts), FileBound(opts, link))
    {
      c := ReadContent(i, StartOf(opts), faults, contentFaults, link => FileBound(opts, link));
    }

    /** The same stream with the read limit index.js computes, which subtracts
        the byte length of the packed index from the block count. */
    method CreateFileReadStreamAsWritten(i: nat, opts: StreamOptions, faults: map<nat, Error>,
                                         contentFaults: map<nat, Error>)
      returns (c: Cursor<Bytes>)
      requires i in faults || i < |feed.blocks|
      ensures i in faults ==> c == Cursor([], Failed(faults[i]))
      ensures i !in faults && feed.blocks[i].link.None? ==> c == Cursor([], Finished)
      ensures i !in faults && feed.blocks[i].link.Some? ==>
        var link := feed.blocks[i].link.value;
        c == Window(Stored(core.contents, link.id), contentFaults, StartOf(opts), FileBoundAsWritten(opts, link))
    {
      c := ReadContent(i, StartOf(opts), faults, contentFaults, link => FileBoundAsWritten(opts, link));
    }

    /** Reads entry `i`, then pulls its content feed from `start` with the read
        limit `bound` derives from the entry's link. */
    method ReadContent(i: nat, start: nat, faults: map<nat, Error>, contentFaults: map<nat, Error>,
                       bound: Link -> Option<nat>)
      returns (c: Cursor<Bytes>)
      requires i in faults || i < |feed.blocks|
      ensures i in faults ==> c == Cursor([], Failed(faults[i]))
      ensures i !in faults && feed.blocks[i].link.None? ==> c == Cursor([], Finished)
      ensures i !in faults && feed.blocks[i].link.Some? ==>
        var link := feed.blocks[i].link.value;
        c == Window(Stored(core.contents, link.id), contentFaults, start, bound(link))
    {
      var data := Get(i, faults);
      if data.Failure? {
        return Cursor([], Failed(data.error));
      }
      var entry := data.value.value;
      if entry.link.None? {
        return Cursor([], Finished);
      }
      var content := core.OpenContent(entry.link.value.id);
      c := Pull(content, contentFaults, start, bound(entry.link.value));
    }

    method CreateFileWriteStream(entry: Entry) returns (r: Outcome)
      ensures r == Fail(NotYetImplemented)
    {
      r := Fail(NotYetImplemented);
    }

    method Append(entry: Entry, io: Outcome) returns (r: Outcome)
      ensures r == Fail(NotYetImplemented)
    {
      r := Fail(NotYetImplemented);
    }

    /** Stores the file `filename`, already cut into `chunks`, as a new content
        feed, seals that feed, and only then appends the file's record to the
        entry feed; the count goes up by one exactly when that append succeeds.
        A failing chunk write or source read stops the pipeline before anything
        reaches the entry feed; a failure to seal the content feed does not. */
    method AppendFile(filename: string, chunks: seq<Bytes>, sourceFault: Option<Error>,
                      writeFaults: map<nat, Error>, seal: Result<FeedId>, entryWrite: Outcome,
                      pack: seq<nat> -> Bytes)
      returns (content: Feed<Bytes>, r: Outcome)
      requires Valid()
      modifies this, feed, core
      ensures Valid() && fresh(content)
      ensures content.filename == Some(Path(directory, filename))
      ensures id == old(id) && awaitingUpdate == old(awaitingUpdate)
      ensures feed.finalized == old(feed.finalized) && feed.id == old(feed.id)
      ensures core.catalogs == old(core.catalogs) && core.selected == old(core.selected)
      ensures content.blocks == chunks[..FirstFault(writeFaults, |chunks|)]
      ensures FirstFault(writeFaults, |chunks|) < |chunks| ==>
        r == Fail(writeFaults[FirstFault(writeFaults, |chunks|)]) && !content.finalized
      ensures FirstFault(writeFaults, |chunks|) == |chunks| && sourceFault.Some? ==>
        r == Fail(sourceFault.value) && !content.finalized
      ensures FirstFault(writeFaults, |chunks|) == |chunks| && sourceFault.None? ==>
        && content.finalized == seal.Success?
        && content.id == (if seal.Success? then Some(seal.value) else None)
        && r == (if old(feed.finalized) then Fail(Sealed) else entryWrite)
      ensures core.contents ==
        if FirstFault(writeFaults, |chunks|) == |chunks| && sourceFault.None? && seal.Success?
        then old(core.contents)[seal.value := chunks]
        else old(core.contents)
      ensures r.Pass? ==>
        && entries == old(entries) + 1
        && feed.blocks == old(feed.blocks) + [FileRecord(filename, content.id, chunks, pack)]
      ensures r.Fail? ==> entries == old(entries) && feed.blocks == old(feed.blocks)
    {
      content := new Feed.Create(Some(Path(directory, filename)));
      var k := 0;
      while k < |chunks|
        invariant k <= |chunks| && content.blocks == chunks[..k]
        invariant !content.finalized && content.id == None
        invariant forall j :: 0 <= j < k ==> j !in writeFaults
        modifies content
      {
        var w := content.Append(chunks[k], if k in writeFaults then Fail(writeFaults[k]) else Pass);
        if w.Fail? {
          return content, w;
        }
        k := k + 1;
      }
      assert content.blocks == chunks;
      if sourceFault.Some? {
        return content, Fail(sourceFault.value);
      }
      var sealed := core.SealContent(content, seal);
      r := feed.Append(FileRecord(filename, content.id, content.blocks, pack), entryWrite);
      if r.Pass? {
        entries := entries + 1;
      }
    }
  }

  /** A drive over an empty store: a new archive has no entry 0; after one file
      is appended the count is one, and reading that file back yields its chunks. */
  method AppendThenReadBack(name: string, chunks: seq<Bytes>, key: FeedId, pack: seq<nat> -> Bytes)
    returns (before: Result<Option<Entry>>, count: nat, back: Cursor<Bytes>)
    ensures before == Success(None)
    ensures count == 1
    ensures back == Cursor(chunks, Finished)
  {
    var drive := new Drive(map[], map[]);
    var archive := drive.Add(".");
    before := archive.Get(0, map[]);
    var content, r := archive.AppendFile(name, chunks, None, map[], Success(key), Pass, pack);
    count := archive.entries;
    back := archive.CreateFileReadStream(0, StreamOptions(None, None), map[], map[]);
    ReadBack(name, Some(key), chunks, pack);
  }

  /** Finalizing twice: once the first call succeeds, the second succeeds
      whatever storage says and changes neither the id nor the count. */
  method FinalizeTwice(a: Archive, first: Result<FeedId>, second: Result<FeedId>) returns (r1: Outcome, r2: Outcome)
    requires a.Valid()
    modifies a, a.feed, a.core
    ensures r1.Pass? ==> r2 == Pass
    ensures r1.Pass? ==> a.id == a.feed.id && a.id.Some? && a.entries == |a.feed.blocks| == |old(a.feed.blocks)|
    ensures r1.Pass? && old(a.feed.finalized) ==> a.id == old(a.feed.id)
    ensures r1.Pass? && !old(a.feed.finalized) ==> first.Success? && a.id == Some(first.value)
  {
    r1 := a.Finalize(first);
    var id1, entries1 := a.id, a.entries;
    r2 := a.Finalize(second);
    if r1.Pass? {
      assert a.id == id1 && a.entries == entries1;
    }
  }

  /** A file appended to a new archive, then the archive finalized under `key`:
      the drive reopens it by `key` with that one record, and the reopened
      archive reads the file back whole. */
  method FinalizeThenReopen(name: string, chunks: seq<Bytes>, contentKey: FeedId, key: FeedId, pack: seq<nat> -> Bytes)
    returns (r: Outcome, id: Option<FeedId>, records: seq<Entry>, back: Cursor<Bytes>)
    ensures r == Pass && id == Some(key)
    ensures records == [FileRecord(name, Some(contentKey), chunks, pack)]
    ensures back == Cursor(chunks, Finished)
  {
    var drive := new Drive(map[], map[]);
    var archive := drive.Add(".");
    var content, w := archive.AppendFile(name, chunks, None, map[], Success(contentKey), Pass, pack);
    r := archive.Finalize(Success(key));
    id := archive.id;
    var reopened := drive.Get(key, ".");
    records := reopened.feed.blocks;
    back := reopened.CreateFileReadStream(0, StreamOptions(None, None), map[], map[]);
    ReadBack(name, Some(contentKey), chunks, pack);
  }
}
