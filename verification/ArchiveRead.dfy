/** `read`: the files of a range are downloaded in order, their summaries and contents zipped and filtered. */
module ArchiveRead {
  import opened Prelude
  import opened ArchiveTypes
  import opened ManifestCheck

  function Zip(ss: seq<Summary>, cs: seq<Contents>): seq<Entry> {
    if ss == [] || cs == [] then [] else [Entry(ss[0], cs[0])] + Zip(ss[1..], cs[1..])
  }

  function InRange(items: seq<Entry>, lo: nat, hi: nat): seq<Entry> {
    if items == [] then []
    else
      var rest := InRange(items[1..], lo, hi);
      if lo <= items[0].summary.seqNum < hi then [items[0]] + rest else rest
  }

  /** The pairs of one downloaded file pair; None when a download or a header fails. */
  function ReadPair(c: Codec, remote: map<Path, Bytes>, p: Pair): Option<seq<Entry>> {
    if p.0.FilePath() !in remote || p.1.FilePath() !in remote then None
    else
      match c.readSummaries(remote[p.0.FilePath()])
      case None => None
      case Some(ss) =>
        match c.readContents(remote[p.1.FilePath()])
        case None => None
        case Some(cs) => Some(Zip(ss, cs))
  }

  /** What reaches the store, and whether the stream ended with an error. */
  datatype Delivery = Delivery(items: seq<Entry>, failed: bool)

  function ReadPairs(c: Codec, remote: map<Path, Bytes>, ps: seq<Pair>, lo: nat, hi: nat): Delivery {
    if ps == [] then Delivery([], false)
    else
      match ReadPair(c, remote, ps[0])
      case None => Delivery([], true)
      case Some(items) =>
        var rest := ReadPairs(c, remote, ps[1..], lo, hi);
        Delivery(InRange(items, lo, hi) + rest.items, rest.failed)
  }

  function Between<T>(s: seq<T>, i: int, j: int): seq<T> {
    if 0 <= i <= j <= |s| then s[i..j] else []
  }

  /** `rs` and `re` are the answers of the two binary searches. */
  function ReadRange(
    c: Codec, remote: map<Path, Bytes>, m: Manifest, lo: nat, hi: nat, rs: Search, re: Search): Outcome<Delivery>
  {
    if m.next == 0 || lo > m.next - 1 then Err
    else
      match VerifyManifest(m)
      case Err => Err
      case Panicked => Panicked
      case Ok(ps) =>
        if StartIndex(rs) < 0 then Panicked
        else Ok(ReadPairs(c, remote, Between(ps, StartIndex(rs), EndIndex(re)), lo, hi))
  }

  /** Both files are there and both can be opened. */
  ghost predicate Legible(c: Codec, remote: map<Path, Bytes>, p: Pair) {
    && p.0.FilePath() in remote && c.readSummaries(remote[p.0.FilePath()]).Some?
    && p.1.FilePath() in remote && c.readContents(remote[p.1.FilePath()]).Some?
  }

  /**
   * For archives of any kind: the delivery fails exactly when some pair is not legible, and everything of the pairs
   * before the first such, and nothing else, has been delivered by then.
   */
  lemma {:induction false} ReadFailsExactly(c: Codec, remote: map<Path, Bytes>, ps: seq<Pair>, lo: nat, hi: nat) returns (k: nat)
    ensures k <= |ps| && (forall i | 0 <= i < k :: Legible(c, remote, ps[i])) && (k < |ps| ==> !Legible(c, remote, ps[k]))
    ensures ReadPairs(c, remote, ps, lo, hi).failed <==> k < |ps|
    ensures ReadPairs(c, remote, ps, lo, hi).items == ReadPairs(c, remote, ps[..k], lo, hi).items
  {
    if ps == [] || !Legible(c, remote, ps[0]) {
      k := 0;
    } else {
      var rest := ps[1..];
      var j := ReadFailsExactly(c, remote, rest, lo, hi);
      k := j + 1;
      assert ps[..k][1..] == rest[..j] && ps[..k][0] == ps[0];
      assert forall i | 0 < i < |ps| :: ps[i] == rest[i - 1];
    }
  }

  lemma {:induction false} ZipEntries(es: seq<Entry>)
    ensures Zip(Summaries(es), AllContents(es)) == es
  {
    if es == [] {
    } else {
      assert Summaries(es)[1..] == Summaries(es[1..]);
      assert AllContents(es)[1..] == AllContents(es[1..]);
      ZipEntries(es[1..]);
    }
  }

  ghost predicate Numbered(h: seq<Entry>) {
    forall i | 0 <= i < |h| :: h[i].summary.seqNum == i
  }

  /** The part of `h[a..b]` inside `lo..hi`. */
  ghost function Clip(h: seq<Entry>, a: nat, b: nat, lo: nat, hi: nat): seq<Entry> {
    Between(h, if a < lo then lo else a, if b < hi then b else hi)
  }

  lemma {:induction false} InRangeSlice(h: seq<Entry>, a: nat, b: nat, lo: nat, hi: nat)
    requires Numbered(h) && a <= b <= |h|
    ensures InRange(h[a..b], lo, hi) == Clip(h, a, b, lo, hi)
    decreases b - a
  {
    if a == b {
    } else {
      assert h[a..b][1..] == h[a + 1..b];
      InRangeSlice(h, a + 1, b, lo, hi);
    }
  }

  /** The pair's files hold exactly the checkpoints of its range. */
  ghost predicate Faithful(c: Codec, remote: map<Path, Bytes>, h: seq<Entry>, p: Pair) {
    && p.0.start <= p.0.end <= |h|
    && ReadPair(c, remote, p) == Some(h[p.0.start..p.0.end])
  }

  lemma ClipJoin(h: seq<Entry>, a: nat, b: nat, d: nat, lo: nat, hi: nat)
    requires a <= b <= d <= |h|
    ensures Clip(h, a, b, lo, hi) + Clip(h, b, d, lo, hi) == Clip(h, a, d, lo, hi)
  {}

  lemma ContiguousTail(ps: seq<Pair>)
    requires Contiguous(Firsts(ps)) && |ps| > 1
    ensures Contiguous(Firsts(ps[1..])) && ps[1].0.start == ps[0].0.end
  {
    assert Meets(Firsts(ps), 0);
    forall i | 0 <= i < |ps| - 2 ensures Meets(Firsts(ps[1..]), i) { assert Meets(Firsts(ps), i + 1); }
  }

  ghost function Reach(ps: seq<Pair>): nat
    requires ps != []
  {
    ps[|ps| - 1].0.end
  }

  lemma ReadOnePair(c: Codec, remote: map<Path, Bytes>, h: seq<Entry>, ps: seq<Pair>, lo: nat, hi: nat)
    requires Numbered(h) && ps != [] && Faithful(c, remote, h, ps[0])
    ensures ReadPairs(c, remote, ps, lo, hi) ==
      var rest := ReadPairs(c, remote, ps[1..], lo, hi);
      Delivery(Clip(h, ps[0].0.start, ps[0].0.end, lo, hi) + rest.items, rest.failed)
  {
    InRangeSlice(h, ps[0].0.start, ps[0].0.end, lo, hi);
  }

  /** Reading contiguous faithful pairs yields the history between their ends, clipped to the range. */
  lemma {:induction false} ReadFaithfulPairs(
    c: Codec, remote: map<Path, Bytes>, h: seq<Entry>, ps: seq<Pair>, lo: nat, hi: nat)
    requires Numbered(h) && ps != [] && Contiguous(Firsts(ps))
    requires forall i | 0 <= i < |ps| :: Faithful(c, remote, h, ps[i])
    ensures ps[0].0.start <= Reach(ps) <= |h|
    ensures ReadPairs(c, remote, ps, lo, hi) == Delivery(Clip(h, ps[0].0.start, Reach(ps), lo, hi), false)
  {
    assert Faithful(c, remote, h, ps[0]);
    ReadOnePair(c, remote, h, ps, lo, hi);
    if |ps| > 1 {
      ContiguousTail(ps);
      ReadFaithfulPairs(c, remote, h, ps[1..], lo, hi);
      ClipJoin(h, ps[0].0.start, ps[0].0.end, Reach(ps), lo, hi);
    } else {
      assert Clip(h, ps[0].0.start, ps[0].0.end, lo, hi) + [] == Clip(h, ps[0].0.start, ps[0].0.end, lo, hi);
    }
  }
}
