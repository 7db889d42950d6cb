/** Entry records of an archive, and the chunk index a file's record carries. */
module Entries {
  import opened Results
  import opened Feeds

  /** Where a file's content lives: the content feed's id (unset when sealing it
      failed), its block count and its packed storage index. */
  datatype Link = Link(id: Option<FeedId>, blocks: nat, index: Bytes)

  /** One file of the archive; an entry without a link has no stored content. */
  datatype Entry = Entry(name: string, link: Option<Link>)

  /** Total number of bytes in `blocks`. */
  function Size(blocks: seq<Bytes>): nat {
    if blocks == [] then 0 else Size(blocks[..|blocks| - 1]) + |blocks[|blocks| - 1]|
  }

  /** The storage index of a feed holding `blocks`: the byte offset at which
      each block ends. */
  function Offsets(blocks: seq<Bytes>): (o: seq<nat>)
    ensures |o| == |blocks|
  {
    if blocks == [] then [] else Offsets(blocks[..|blocks| - 1]) + [Size(blocks)]
  }

  /** Successive differences of a sequence, the first taken from 0. */
  function Deltas(o: seq<nat>): seq<int> {
    seq(|o|, k requires 0 <= k < |o| => o[k] as int - (if k == 0 then 0 else o[k - 1]))
  }

  /** The length of each block. */
  function Sizes(blocks: seq<Bytes>): seq<int> {
    seq(|blocks|, k requires 0 <= k < |blocks| => |blocks[k]|)
  }

  /** The index handed to the packer loses nothing: its deltas are exactly the
      chunk sizes, so it never decreases and ends at the file's length. */
  lemma {:induction false} OffsetsDeltas(blocks: seq<Bytes>)
    ensures Deltas(Offsets(blocks)) == Sizes(blocks)
    ensures forall j, k :: 0 <= j <= k < |blocks| ==> Offsets(blocks)[j] <= Offsets(blocks)[k]
    ensures blocks != [] ==> Offsets(blocks)[|blocks| - 1] == Size(blocks)
  {
    if blocks != [] {
      var n := |blocks|;
      var front := blocks[..n - 1];
      OffsetsDeltas(front);
      var o, p := Offsets(blocks), Offsets(front);
      assert o == p + [Size(blocks)];
      assert n > 1 ==> p[n - 2] == Size(front);
      forall k | 0 <= k < n
        ensures Deltas(o)[k] == Sizes(blocks)[k]
      {
        if k < n - 1 {
          assert front[k] == blocks[k];
          assert Deltas(p)[k] == Sizes(front)[k];
        }
      }
    }
  }

  /** The record appendFile adds for a file named `name` whose content feed holds
      `chunks` and was given `id` on sealing. */
  function FileRecord(name: string, id: Option<FeedId>, chunks: seq<Bytes>, pack: seq<nat> -> Bytes): Entry {
    Entry(name, Some(Link(id, |chunks|, pack(Offsets(chunks)))))
  }

  /** The entry's link, when it names a content feed, names one in `sealed`. */
  predicate LinkSealed(e: Entry, sealed: set<FeedId>) {
    e.link.Some? && e.link.value.id.Some? ==> e.link.value.id.value in sealed
  }

  predicate AllLinksSealed(records: seq<Entry>, sealed: set<FeedId>) {
    forall j :: 0 <= j < |records| ==> LinkSealed(records[j], sealed)
  }
}
