/**
 * The files of an archive as bytes: blob files with a magic, a storage format and an optional compression,
 * and the manifest file with a trailing digest. BCS, the compressor and SHA3-256 are parameters.
 */
module ArchiveFormat {
  import opened Prelude
  import opened ArchiveTypes
  import opened BlobFormat

  const CHECKPOINT_FILE_MAGIC: nat := 0x0000DEAD
  const SUMMARY_FILE_MAGIC: nat := 0x0000CAFE
  const MANIFEST_FILE_MAGIC: nat := 0x00C0FFEE
  const HEADER_BYTES: nat := 6
  const SHA3_BYTES: nat := 32
  const BLOB_STORAGE: byte := 0

  datatype FileCompression = NoCompression | Zstd

  function CompressionByte(z: FileCompression): byte {
    match z case NoCompression => 0 case Zstd => 1
  }

  /** The parts the format is built from. `unzip` yields the bytes a decompressing reader produces. */
  datatype Wire = Wire(
    contents: Serde<Contents>,
    summary: Serde<Summary>,
    manifest: Serde<Manifest>,
    zip: Bytes -> Bytes,
    unzip: Bytes -> Bytes,
    sha3: Bytes -> Digest,
    contentsDigest: Contents -> Digest)

  ghost predicate LawfulWire(w: Wire) {
    && (forall x :: Reversible(w.contents, x))
    && (forall x :: Reversible(w.summary, x))
    && (forall x :: Reversible(w.manifest, x))
    && (forall b :: w.unzip(w.zip(b)) == b)
    && (forall b :: |w.sha3(b)| == SHA3_BYTES)
  }

  /** A 32-bit number, most significant byte first. */
  function BigEndian32(n: nat): (b: Bytes)
    requires n < 0x1_0000_0000
    ensures |b| == 4
  {
    var n1 := n / 0x100;
    var n2 := n1 / 0x100;
    [n2 / 0x100, n2 % 0x100, n1 % 0x100, n % 0x100]
  }

  function ReadBigEndian32(b: Bytes): nat
    requires |b| >= 4
  {
    (b[0] as int) * 0x100_0000 + (b[1] as int) * 0x1_0000 + (b[2] as int) * 0x100 + b[3] as int
  }

  /** What `next_file` writes before any blob. */
  function Header(magic: nat, z: FileCompression): (b: Bytes)
    requires magic < 0x1_0000_0000
    ensures |b| == HEADER_BYTES
  {
    BigEndian32(magic) + [BLOB_STORAGE, CompressionByte(z)]
  }

  /** A finished file: everything after the header is compressed, if compression is on. */
  function Finish(w: Wire, z: FileCompression, raw: Bytes): Bytes {
    if z.NoCompression? || |raw| < HEADER_BYTES then raw else raw[..HEADER_BYTES] + w.zip(raw[HEADER_BYTES..])
  }

  /** `make_iterator`: the body of a file with the expected magic, decompressed; None when the header is wrong. */
  function OpenBody(w: Wire, magic: nat, b: Bytes): Option<Bytes> {
    if |b| < HEADER_BYTES || ReadBigEndian32(b) != magic || b[4] != BLOB_STORAGE || b[5] > 1 then None
    else if b[5] == 0 then Some(b[HEADER_BYTES..])
    else Some(w.unzip(b[HEADER_BYTES..]))
  }

  lemma BigEndianRoundTrip(n: nat, tail: Bytes)
    requires n < 0x1_0000_0000
    ensures ReadBigEndian32(BigEndian32(n) + tail) == n
  {
    var b := BigEndian32(n) + tail;
    var n1 := n / 0x100;
    var n2 := n1 / 0x100;
    assert b[0] == n2 / 0x100 && b[1] == n2 % 0x100 && b[2] == n1 % 0x100 && b[3] == n % 0x100;
  }

  lemma OpenFinished(w: Wire, magic: nat, z: FileCompression, body: Bytes)
    requires LawfulWire(w) && magic < 0x1_0000_0000
    ensures OpenBody(w, magic, Finish(w, z, Header(magic, z) + body)) == Some(body)
    ensures Finish(w, z, Header(magic, z) + body) != []
  {
    var raw := Header(magic, z) + body;
    var b := Finish(w, z, raw);
    assert raw[..HEADER_BYTES] == Header(magic, z) && raw[HEADER_BYTES..] == body;
    assert b[..HEADER_BYTES] == Header(magic, z);
    assert b[4] == Header(magic, z)[4] && b[5] == Header(magic, z)[5];
    assert b == BigEndian32(magic) + b[4..];
    BigEndianRoundTrip(magic, b[4..]);
    assert z.Zstd? ==> b[HEADER_BYTES..] == w.zip(body);
  }

  /** Only a file with the magic asked for, the blob format and a known compression is opened. */
  lemma OpenedHeader(w: Wire, magic: nat, b: Bytes)
    requires magic < 0x1_0000_0000 && OpenBody(w, magic, b).Some?
    ensures |b| >= 6 && b[..4] == BigEndian32(magic) && b[4] == 0 && (b[5] == 0 || b[5] == 1)
    ensures OpenBody(w, magic, b).value == if b[5] == 0 then b[6..] else w.unzip(b[6..])
  {
    var n := ReadBigEndian32(b);
    var n1 := n / 0x100;
    var n2 := n1 / 0x100;
    assert n1 == (b[0] as int) * 0x1_0000 + (b[1] as int) * 0x100 + b[2] as int;
    assert n2 == (b[0] as int) * 0x100 + b[1] as int;
    assert BigEndian32(n) == [b[0], b[1], b[2], b[3]] == b[..4];
  }

  /** The first bytes of the three kinds of files, as they are on disk. */
  lemma MagicBytes(w: Wire, z: FileCompression, es: seq<Entry>, m: Manifest)
    ensures Finish(w, z, RawContents(w, z, es))[..6] == [0x00, 0x00, 0xDE, 0xAD, 0, if z.Zstd? then 1 else 0]
    ensures Finish(w, z, RawSummaries(w, z, es))[..6] == [0x00, 0x00, 0xCA, 0xFE, 0, if z.Zstd? then 1 else 0]
    ensures WriteManifest(w, m)[..4] == [0x00, 0xC0, 0xFF, 0xEE]
  {
    assert BigEndian32(CHECKPOINT_FILE_MAGIC) == [0x00, 0x00, 0xDE, 0xAD];
    assert BigEndian32(SUMMARY_FILE_MAGIC) == [0x00, 0x00, 0xCA, 0xFE];
    assert BigEndian32(MANIFEST_FILE_MAGIC) == [0x00, 0xC0, 0xFF, 0xEE];
    assert Header(CHECKPOINT_FILE_MAGIC, z) == RawContents(w, z, es)[..6];
    assert Header(SUMMARY_FILE_MAGIC, z) == RawSummaries(w, z, es)[..6];
  }

  /** The open content file after these checkpoints, before it is finished. */
  function RawContents(w: Wire, z: FileCompression, entries: seq<Entry>): Bytes {
    Header(CHECKPOINT_FILE_MAGIC, z) + WriteBlobs(w.contents, AllContents(entries))
  }

  function RawSummaries(w: Wire, z: FileCompression, entries: seq<Entry>): Bytes {
    Header(SUMMARY_FILE_MAGIC, z) + WriteBlobs(w.summary, Summaries(entries))
  }

  function ReadContents(w: Wire, b: Bytes): Option<seq<Contents>> {
    match OpenBody(w, CHECKPOINT_FILE_MAGIC, b)
    case None => None
    case Some(body) => Some(IterateBlobs(w.contents, body))
  }

  function ReadSummaries(w: Wire, b: Bytes): Option<seq<Summary>> {
    match OpenBody(w, SUMMARY_FILE_MAGIC, b)
    case None => None
    case Some(body) => Some(IterateBlobs(w.summary, body))
  }

  // --- The manifest file ---

  function WriteManifest(w: Wire, m: Manifest): Bytes {
    var buf := BigEndian32(MANIFEST_FILE_MAGIC) + WriteBlob(w.manifest.encode(m));
    buf + w.sha3(buf)
  }

  function ReadManifest(w: Wire, b: Bytes): Outcome<Manifest> {
    if |b| < 4 || ReadBigEndian32(b) != MANIFEST_FILE_MAGIC then Err
    else if |b| < SHA3_BYTES then Err
    else if w.sha3(b[..|b| - SHA3_BYTES]) != b[|b| - SHA3_BYTES..] then Err
    else
      match ReadBlob(b[4..])
      case None => Err
      case Some(dr) =>
        match w.manifest.decode(dr.0)
        case None => Err
        case Some(m) => Ok(m)
  }

  /** `read_manifest` inverts `write_manifest`. */
  lemma ManifestRoundTrip(w: Wire, m: Manifest)
    requires LawfulWire(w) && Addressable(w.manifest.encode(m))
    ensures ReadManifest(w, WriteManifest(w, m)) == Ok(m)
  {
    var buf := BigEndian32(MANIFEST_FILE_MAGIC) + WriteBlob(w.manifest.encode(m));
    var b := WriteManifest(w, m);
    assert Reversible(w.manifest, m);
    BigEndianRoundTrip(MANIFEST_FILE_MAGIC, WriteBlob(w.manifest.encode(m)) + w.sha3(buf));
    assert b == BigEndian32(MANIFEST_FILE_MAGIC) + (WriteBlob(w.manifest.encode(m)) + w.sha3(buf));
    assert b[4..] == WriteBlob(w.manifest.encode(m)) + w.sha3(buf);
    assert b[..|b| - SHA3_BYTES] == buf && b[|b| - SHA3_BYTES..] == w.sha3(buf);
    BlobRoundTrip(w.manifest.encode(m), w.sha3(buf));
  }

  /** Every accepted byte string has the magic, and ends with the digest of all that comes before. */
  lemma AcceptedManifest(w: Wire, b: Bytes)
    requires ReadManifest(w, b).Ok?
    ensures |b| >= SHA3_BYTES && b[..4] == BigEndian32(MANIFEST_FILE_MAGIC)
    ensures b[|b| - SHA3_BYTES..] == w.sha3(b[..|b| - SHA3_BYTES])
  {
    assert b[0] == 0 && b[1] == 0xC0 && b[2] == 0xFF && b[3] == 0xEE;
  }

  // --- The codec of the protocol ---

  ghost predicate AddressableEntries(w: Wire, es: seq<Entry>) {
    && (forall i | 0 <= i < |es| :: Addressable(w.contents.encode(es[i].contents)))
    && (forall i | 0 <= i < |es| :: Addressable(w.summary.encode(es[i].summary)))
  }

  function MakeCodec(w: Wire, z: FileCompression): Codec {
    Codec(
      es => Finish(w, z, RawContents(w, z, es)),
      es => Finish(w, z, RawSummaries(w, z, es)),
      b => ReadContents(w, b),
      b => ReadSummaries(w, b),
      x => Size(w.contents.encode(x)),
      w.contentsDigest,
      w.sha3,
      m => Addressable(w.manifest.encode(m)),
      m => WriteManifest(w, m),
      b => match ReadManifest(w, b) case Ok(m) => Some(m) case _ => None)
  }

  lemma FilesRoundTrip(w: Wire, z: FileCompression, es: seq<Entry>)
    requires LawfulWire(w) && AddressableEntries(w, es)
    ensures ReadsBack(MakeCodec(w, z), es)
  {
    OpenFinished(w, CHECKPOINT_FILE_MAGIC, z, WriteBlobs(w.contents, AllContents(es)));
    OpenFinished(w, SUMMARY_FILE_MAGIC, z, WriteBlobs(w.summary, Summaries(es)));
    forall i | 0 <= i < |es| ensures Reversible(w.contents, es[i].contents) && Reversible(w.summary, es[i].summary) {}
    BlobsRoundTrip(w.contents, AllContents(es));
    BlobsRoundTrip(w.summary, Summaries(es));
  }

  /** The byte format satisfies everything the protocol assumes of its codec. */
  lemma MakeCodecLawful(w: Wire, z: FileCompression, h: seq<Entry>)
    requires LawfulWire(w) && AddressableEntries(w, h)
    ensures Lawful(MakeCodec(w, z), h)
  {
    var c := MakeCodec(w, z);
    forall m | c.encodable(m) ensures c.decodeManifest(c.encodeManifest(m)) == Some(m) { ManifestRoundTrip(w, m); }
    forall i: nat, j: nat | i <= j <= |h| ensures SliceReadsBack(c, h, i, j) { FilesRoundTrip(w, z, h[i..j]); }
  }
}
