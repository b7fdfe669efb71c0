/** From the writer's history through the remote store into a reader's store. */
module ArchiveRestore {
  import opened Prelude
  import opened ArchiveTypes
  import opened ArchiveProtocol
  import opened ArchiveInvariant
  import opened ManifestCheck
  import opened ArchiveRead
  import opened ArchiveReplay
  import opened ArchiveTheorems
  import opened ArchiveReadTheorems
  import opened ArchiveWatermarks
  import opened BlobFormat
  import opened ArchiveFormat

  function FaultFree(entries: seq<Entry>): seq<Item> {
    seq(|entries|, i requires 0 <= i < |entries| => Item(entries[i], NoFault))
  }

  lemma {:induction false} FaultFreeSlice(h: seq<Entry>, a: nat, b: nat)
    requires a <= b <= |h|
    ensures FaultFree(h[a..b]) == SourceItems(h, a, b, map[])
    decreases b - a
  {
    if a == b {
    } else {
      FaultFreeSlice(h, a + 1, b);
      assert FaultFree(h[a..b]) == [Item(h[a], NoFault)] + FaultFree(h[a + 1..b]);
    }
  }

  lemma ReadSourceCompletes(t: Trust, h: seq<Entry>, st: Store, upto: nat)
    requires GenuineHistory(t, h) && Tracks(t, h, st) && st.synced + 1 <= upto <= |h|
    ensures var r := ReadSource(t, h, st, st.synced + 1, upto, map[]);
      r.outcome.Ok? && Tracks(t, h, r.st) && r.st.synced + 1 == upto
  {
    var good := (s: Store) => Tracks(t, h, s);
    forall s, fault ensures StepsWell(t, h, good, s, fault) {
      if good(s) && s.synced + 1 < |h| { TrackNext(t, h, s, fault); }
    }
    ReplayByStep(t, h, good, st, upto, map[]);
  }

  lemma ReplayIsReadSource(t: Trust, h: seq<Entry>, st: Store, n: nat, upto: nat)
    requires n <= upto <= |h|
    ensures Replay(t, st, FaultFree(h[n..upto]), true) == ReadSource(t, h, st, n, upto, map[])
  {
    FaultFreeSlice(h, n, upto);
    ReadSourceIsReplay(t, h, st, n, upto, map[]);
  }

  /** The store holds exactly the history below `next`, as far as it keeps what it was given. */
  ghost predicate Restored(h: seq<Entry>, st: Store, next: nat)
    requires next <= |h|
  {
    && st.synced + 1 == next
    && st.log <= Summaries(h) && |st.log| >= next
    && (!st.oneShot ==> forall n | 0 <= n < next :: n in st.contents && st.contents[n] == h[n].contents)
  }

  lemma RestoresFrom(t: Trust, h: seq<Entry>, st: Store, next: nat)
    requires GenuineHistory(t, h) && Tracks(t, h, st) && st.synced + 1 <= next <= |h|
    ensures var r := Replay(t, st, FaultFree(h[st.synced + 1..next]), true);
      r.outcome.Ok? && Restored(h, r.st, next)
  {
    ReplayIsReadSource(t, h, st, st.synced + 1, next);
    ReadSourceCompletes(t, h, st, next);
  }

  /** Reading without an upper bound delivers everything from `lo` to the end of the manifest. */
  lemma ReadsToEnd(g: Config, s: System, m: Manifest, lo: nat, rs: Search, re: Search)
    requires Sound(g) && Reachable(g, s) && m in s.published && lo < m.next
    requires VerifyManifest(m).Ok? ==> Answers(VerifyManifest(m).value, lo, rs) && Answers(VerifyManifest(m).value, U64_MAX, re)
    ensures m.next <= |g.h|
    ensures ReadRange(g.c, s.remote, m, lo, U64_MAX, rs, re) == Ok(Delivery(g.h[lo..m.next], false))
  {
    PublishedManifestsTile(g, s, m);
    ReadRoundTrip(g, s, m, lo, U64_MAX, rs, re);
  }

  /**
   * In every reachable state of the archive, reading from one past a store's synced watermark with any manifest
   * ever published, and replaying what is delivered with verification on, brings the store to the end of that
   * manifest: it then holds exactly the summaries of the history up to there, and a full store all contents.
   */
  lemma ArchiveRestores(g: Config, t: Trust, s: System, m: Manifest, st: Store, lo: nat, rs: Search, re: Search)
    returns (items: seq<Entry>, restored: Store)
    requires Sound(g) && Reachable(g, s) && m in s.published
    requires GenuineHistory(t, g.h) && Tracks(t, g.h, st) && lo == st.synced + 1 < m.next
    requires VerifyManifest(m).Ok? ==> Answers(VerifyManifest(m).value, lo, rs) && Answers(VerifyManifest(m).value, U64_MAX, re)
    ensures ReadRange(g.c, s.remote, m, lo, U64_MAX, rs, re) == Ok(Delivery(items, false))
    ensures var r := Replay(t, st, FaultFree(items), true); r.outcome.Ok? && r.st == restored
    ensures m.next <= |g.h| && Restored(g.h, restored, m.next)
  {
    ReadsToEnd(g, s, m, lo, rs, re);
    RestoresFrom(t, g.h, st, m.next);
    items := g.h[lo..m.next];
    restored := Replay(t, st, FaultFree(items), true).st;
  }

  // --- Over bytes ---

  /** The byte format over any history, however it is compressed. */
  ghost function ByteConfig(w: Wire, z: FileCompression, h: seq<Entry>, commitSize: nat): Config {
    Config(MakeCodec(w, z), h, commitSize)
  }

  /** Everything proved of the protocol holds of archives made of bytes, as long as every blob can be addressed. */
  lemma ByteArchiveSound(w: Wire, z: FileCompression, h: seq<Entry>, commitSize: nat)
    requires LawfulWire(w) && AddressableEntries(w, h) && WellFormedHistory(MakeCodec(w, z), h)
    requires forall cuts, n: nat | GoodCuts(h, cuts) && n <= |cuts| ::
      Addressable(w.manifest.encode(ManifestAt(ByteConfig(w, z, h, commitSize), cuts, n)))
    ensures Sound(ByteConfig(w, z, h, commitSize))
  {
    MakeCodecLawful(w, z, h);
  }
}
