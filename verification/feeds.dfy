/** The append-only feed the archive is built on, kept abstract: a sequence of
    blocks, a finalized flag and, once finalized, an id. Storage failures are
    not decided here; every operation is told its outcome by a parameter. */
module Feeds {
  import opened Results

  type Byte = bv8
  type Bytes = seq<Byte>

  /** The identifier a feed receives when it is finalized. */
  type FeedId = Bytes

  /** The filename a feed is stored under, `path.join(directory, name)`, kept unjoined. */
  datatype Path = Path(directory: string, name: string)

  /** What reading block `i` of `blocks` calls back with, when the reads named in
      `faults` fail: the error, the block, or nothing past the end. */
  function Read<T>(blocks: seq<T>, faults: map<nat, Error>, i: nat): Result<Option<T>> {
    if i in faults then Failure(faults[i])
    else if i < |blocks| then Success(Some(blocks[i]))
    else Success(None)
  }

  /** The blocks a store holds under `id`; an id it does not hold opens an empty feed. */
  function Stored<T>(store: map<FeedId, seq<T>>, id: Option<FeedId>): seq<T> {
    if id.Some? && id.value in store then store[id.value] else []
  }

  /** The index of the first of `n` successive writes that `faults` makes fail, or `n`. */
  function FirstFault(faults: map<nat, Error>, n: nat): (k: nat)
    ensures k <= n
    ensures k < n ==> k in faults
    ensures forall j :: 0 <= j < k ==> j !in faults
  {
    if n == 0 then 0
    else
      var k := FirstFault(faults, n - 1);
      if k < n - 1 then k
      else if n - 1 in faults then n - 1
      else n
  }

  class Feed<T> {
    var blocks: seq<T>
    var finalized: bool
    var id: Option<FeedId>
    const filename: Option<Path>

    /** A new writable feed (`core.add`). */
    constructor Create(filename: Option<Path>)
      ensures blocks == [] && !finalized && id == None && this.filename == filename
    {
      blocks := [];
      finalized := false;
      id := None;
      this.filename := filename;
    }

    /** An existing feed opened by its id (`core.get`), holding what storage has for it. */
    constructor Open(id: Option<FeedId>, stored: seq<T>, filename: Option<Path>)
      ensures blocks == stored && finalized && this.id == id && this.filename == filename
    {
      blocks := stored;
      finalized := true;
      this.id := id;
      this.filename := filename;
    }

    /** Appends one block; a finalized feed refuses, otherwise storage decides. */
    method Append(block: T, io: Outcome) returns (r: Outcome)
      modifies this
      ensures r == if old(finalized) then Fail(Sealed) else io
      ensures blocks == if r.Pass? then old(blocks) + [block] else old(blocks)
      ensures finalized == old(finalized) && id == old(id)
    {
      if finalized {
        r := Fail(Sealed);
      } else {
        r := io;
        if r.Pass? {
          blocks := blocks + [block];
        }
      }
    }

    method Get(i: nat, faults: map<nat, Error>) returns (r: Result<Option<T>>)
      ensures r == Read(blocks, faults, i)
    {
      if i in faults {
        r := Failure(faults[i]);
      } else if i < |blocks| {
        r := Success(Some(blocks[i]));
      } else {
        r := Success(None);
      }
    }

    /** Seals the feed under the id storage derives; sealing a sealed feed changes nothing. */
    method Finalize(io: Result<FeedId>) returns (r: Outcome)
      modifies this
      ensures blocks == old(blocks)
      ensures old(finalized) ==> r == Pass && finalized && id == old(id)
      ensures !old(finalized) && io.Success? ==> r == Pass && finalized && id == Some(io.value)
      ensures !old(finalized) && io.Failure? ==> r == Fail(io.error) && !finalized && id == old(id)
    {
      if finalized {
        r := Pass;
      } else if io.Success? {
        finalized, id := true, Some(io.value);
        r := Pass;
      } else {
        r := Fail(io.error);
      }
    }
  }
}
