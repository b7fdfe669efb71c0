/**
 * The values of a checkpoint archive: checkpoints, file metadata and the manifest
 * that indexes the files.
 */
module ArchiveTypes {
  import opened Prelude

  type Digest = Bytes
  type Committee = Bytes

  /** A certified checkpoint summary. `nextCommittee` is present on the last checkpoint of an epoch. */
  datatype Summary = Summary(
    seqNum: nat,
    epoch: nat,
    contentDigest: Digest,
    previousDigest: Option<Digest>,
    nextCommittee: Option<Committee>,
    signature: Bytes)

  datatype Contents = Contents(transactions: seq<Bytes>)

  datatype Entry = Entry(summary: Summary, contents: Contents)

  datatype FileKind = ContentKind | SummaryKind

  /** Where a file lives: `epoch_<epoch>/<start>.<chk|sum>`. */
  datatype Path = Path(epoch: nat, start: nat, kind: FileKind)

  datatype FileMetadata = FileMetadata(kind: FileKind, epoch: nat, start: nat, end: nat, digest: Digest) {
    function FilePath(): Path {
      Path(epoch, start, kind)
    }
  }

  datatype Manifest = Manifest(version: nat, next: nat, files: seq<FileMetadata>, epoch: nat) {
    function Update(newEpoch: nat, newNext: nat, content: FileMetadata, summary: FileMetadata): Manifest {
      Manifest(version, newNext, files + [content, summary], newEpoch)
    }
  }

  function NewManifest(epoch: nat, next: nat): Manifest {
    Manifest(1, next, [], epoch)
  }

  /** What the tailing task hands to the syncing task after a cut. */
  datatype CheckpointUpdates = CheckpointUpdates(content: FileMetadata, summary: FileMetadata, manifest: Manifest)

  /**
   * The encoders and decoders the protocol is built on. The archive format module supplies
   * them from any BCS encoding, any compressor and any hash.
   */
  datatype Codec = Codec(
    contentFile: seq<Entry> -> Bytes,
    summaryFile: seq<Entry> -> Bytes,
    readContents: Bytes -> Option<seq<Contents>>,
    readSummaries: Bytes -> Option<seq<Summary>>,
    blobSize: Contents -> nat,
    contentsDigest: Contents -> Digest,
    sha3: Bytes -> Digest,
    encodable: Manifest -> bool,
    encodeManifest: Manifest -> Bytes,
    decodeManifest: Bytes -> Option<Manifest>)

  function Summaries(entries: seq<Entry>): (r: seq<Summary>)
    ensures |r| == |entries|
  {
    seq(|entries|, i requires 0 <= i < |entries| => entries[i].summary)
  }

  function AllContents(entries: seq<Entry>): (r: seq<Contents>)
    ensures |r| == |entries|
  {
    seq(|entries|, i requires 0 <= i < |entries| => entries[i].contents)
  }

  /** A pair of files written for these checkpoints reads back as them. */
  ghost predicate ReadsBack(c: Codec, es: seq<Entry>) {
    && c.contentFile(es) != [] && c.readContents(c.contentFile(es)) == Some(AllContents(es))
    && c.summaryFile(es) != [] && c.readSummaries(c.summaryFile(es)) == Some(Summaries(es))
  }

  /** What the protocol needs of the codec, for a given history. */
  ghost predicate Lawful(c: Codec, h: seq<Entry>) {
    && (forall m | c.encodable(m) :: c.decodeManifest(c.encodeManifest(m)) == Some(m))
    && (forall i: nat, j: nat | i <= j <= |h| :: SliceReadsBack(c, h, i, j))
  }

  ghost predicate SliceReadsBack(c: Codec, h: seq<Entry>, i: nat, j: nat)
    requires i <= j <= |h|
  {
    ReadsBack(c, h[i..j])
  }

  /**
   * The checkpoints a full node serves: numbered from zero, epochs starting at zero and
   * advancing by at most one, every summary naming the digest of its contents.
   */
  ghost predicate WellFormedHistory(c: Codec, h: seq<Entry>) {
    && |h| <= U64_MAX
    && (forall i | 0 <= i < |h| :: WellFormedEntry(c, h, i))
  }

  ghost predicate WellFormedEntry(c: Codec, h: seq<Entry>, i: nat)
    requires i < |h|
  {
    && h[i].summary.seqNum == i
    && h[i].summary.epoch < U64_MAX
    && h[i].summary.contentDigest == c.contentsDigest(h[i].contents)
    && EpochBefore(h, i) <= h[i].summary.epoch <= EpochBefore(h, i) + 1
    && (i == 0 ==> h[i].summary.epoch == 0)
  }

  /** The epoch of the last of the first `n` checkpoints. */
  ghost function EpochBefore(h: seq<Entry>, n: nat): nat
    requires n <= |h|
  {
    if n == 0 then 0 else h[n - 1].summary.epoch
  }

  lemma {:induction false} EpochsNeverDecrease(c: Codec, h: seq<Entry>, i: nat, j: nat)
    requires WellFormedHistory(c, h) && i <= j < |h|
    ensures h[i].summary.epoch <= h[j].summary.epoch
    decreases j - i
  {
    if i == j {
    } else {
      EpochsNeverDecrease(c, h, i, j - 1);
      assert WellFormedEntry(c, h, j);
    }
  }
}
