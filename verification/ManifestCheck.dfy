/**
 * The reader's view of a manifest: `verify_manifest` pairs up summary and content files and checks
 * that they tile the history; a binary search then picks the files of a checkpoint range.
 */
module ManifestCheck {
  import opened Prelude
  import opened ArchiveTypes

  function OfKind(files: seq<FileMetadata>, kind: FileKind): seq<FileMetadata> {
    if files == [] then []
    else
      var rest, last := OfKind(files[..|files| - 1], kind), files[|files| - 1];
      if last.kind == kind then rest + [last] else rest
  }

  /** `f` placed after every file that does not start later, as a stable sort does. */
  function InsertByStart(sorted: seq<FileMetadata>, f: FileMetadata): (r: seq<FileMetadata>)
    ensures multiset(r) == multiset(sorted) + multiset{f}
  {
    if sorted == [] || sorted[|sorted| - 1].start <= f.start then sorted + [f]
    else
      var front, last := sorted[..|sorted| - 1], sorted[|sorted| - 1];
      assert sorted == front + [last];
      InsertByStart(front, f) + [last]
  }

  function SortByStart(files: seq<FileMetadata>): (r: seq<FileMetadata>)
    ensures multiset(r) == multiset(files)
  {
    if files == [] then []
    else
      assert files == files[..|files| - 1] + [files[|files| - 1]];
      InsertByStart(SortByStart(files[..|files| - 1]), files[|files| - 1])
  }

  predicate Meets(files: seq<FileMetadata>, i: nat)
    requires i < |files| - 1
  {
    files[i + 1].start == files[i].end
  }

  predicate Contiguous(files: seq<FileMetadata>) {
    forall i | 0 <= i < |files| - 1 :: Meets(files, i)
  }

  predicate SameRange(s: FileMetadata, c: FileMetadata) {
    s.start == c.start && s.end == c.end
  }

  type Pair = (FileMetadata, FileMetadata)

  function VerifyManifest(m: Manifest): Outcome<seq<Pair>> {
    if m.files == [] then Err
    else
      var ss, cs := SortByStart(OfKind(m.files, SummaryKind)), SortByStart(OfKind(m.files, ContentKind));
      if |ss| != |cs| || !Contiguous(ss) || !Contiguous(cs) then Panicked
      else if exists i | 0 <= i < |ss| :: !SameRange(ss[i], cs[i]) then Panicked
      else if ss == [] || ss[0].start != 0 then Panicked
      else Ok(seq(|ss|, i requires 0 <= i < |ss| => (ss[i], cs[i])))
  }

  function Firsts(ps: seq<Pair>): (r: seq<FileMetadata>)
    ensures |r| == |ps|
  {
    seq(|ps|, i requires 0 <= i < |ps| => ps[i].0)
  }

  function Seconds(ps: seq<Pair>): (r: seq<FileMetadata>)
    ensures |r| == |ps|
  {
    seq(|ps|, i requires 0 <= i < |ps| => ps[i].1)
  }

  /** Pairs with equal ranges, each starting where the one before ended, the first at zero. */
  ghost predicate Tiles(ps: seq<Pair>) {
    && ps != []
    && ps[0].0.start == 0
    && (forall i | 0 <= i < |ps| :: SameRange(ps[i].0, ps[i].1))
    && Contiguous(Firsts(ps))
  }

  ghost predicate Ascending(files: seq<FileMetadata>) {
    forall i, j | 0 <= i < j < |files| :: files[i].start <= files[j].start
  }

  ghost predicate StrictlyAscending(files: seq<FileMetadata>) {
    forall i, j | 0 <= i < j < |files| :: files[i].start < files[j].start
  }

  lemma {:induction false} InsertKeepsAscending(sorted: seq<FileMetadata>, f: FileMetadata)
    requires Ascending(sorted)
    ensures Ascending(InsertByStart(sorted, f))
  {
    if sorted != [] && sorted[|sorted| - 1].start > f.start {
      var front, last := sorted[..|sorted| - 1], sorted[|sorted| - 1];
      InsertKeepsAscending(front, f);
      var r := InsertByStart(front, f);
      forall i | 0 <= i < |r| ensures r[i].start <= last.start {
        assert r[i] in multiset(r);
        assert r[i] in front || r[i] == f;
      }
    }
  }

  lemma {:induction false} SortIsAscending(files: seq<FileMetadata>)
    ensures Ascending(SortByStart(files))
  {
    if files == [] {
    } else {
      SortIsAscending(files[..|files| - 1]);
      InsertKeepsAscending(SortByStart(files[..|files| - 1]), files[|files| - 1]);
    }
  }

  lemma LastsAgree(a: seq<FileMetadata>, b: seq<FileMetadata>)
    requires Ascending(a) && StrictlyAscending(b) && a != [] && b != []
    requires a[|a| - 1] in b && b[|b| - 1] in a
    ensures a[|a| - 1] == b[|b| - 1]
  {
    var i :| 0 <= i < |a| && a[i] == b[|b| - 1];
    var k :| 0 <= k < |b| && b[k] == a[|a| - 1];
    assert a[i].start <= a[|a| - 1].start;
  }

  lemma SameMembers<T>(a: seq<T>, b: seq<T>)
    requires multiset(a) == multiset(b)
    ensures forall x :: x in a <==> x in b
  {
    forall x ensures x in a <==> x in b {
      assert x in a <==> x in multiset(a);
      assert x in b <==> x in multiset(b);
    }
  }

  lemma WithoutLast<T>(a: seq<T>)
    requires a != []
    ensures multiset(a[..|a| - 1]) == multiset(a) - multiset{a[|a| - 1]}
  {
    assert a == a[..|a| - 1] + [a[|a| - 1]];
  }

  lemma DropLasts(a: seq<FileMetadata>, b: seq<FileMetadata>)
    requires Ascending(a) && StrictlyAscending(b) && multiset(a) == multiset(b) && a != [] && b != []
    ensures a[|a| - 1] == b[|b| - 1]
    ensures multiset(a[..|a| - 1]) == multiset(b[..|b| - 1])
  {
    SameMembers(a, b);
    LastsAgree(a, b);
    WithoutLast(a);
    WithoutLast(b);
  }

  /** A multiset of files with distinct starts has one ascending arrangement. */
  lemma {:induction false} AscendingUnique(a: seq<FileMetadata>, b: seq<FileMetadata>)
    requires Ascending(a) && StrictlyAscending(b) && multiset(a) == multiset(b)
    ensures a == b
  {
    assert |a| == |b| by { assert |multiset(a)| == |multiset(b)|; }
    if a == [] {
    } else {
      DropLasts(a, b);
      AscendingUnique(a[..|a| - 1], b[..|b| - 1]);
    }
  }

  ghost predicate NonEmptyRanges(files: seq<FileMetadata>) {
    forall i | 0 <= i < |files| :: files[i].start < files[i].end
  }

  lemma {:induction false} TilesAscend(ps: seq<Pair>, i: nat, j: nat)
    requires Tiles(ps) && NonEmptyRanges(Firsts(ps)) && i < j < |ps|
    ensures ps[i].0.end <= ps[j].0.start
    decreases j
  {
    var k := j - 1;
    assert Meets(Firsts(ps), k);
    if i == k {
    } else {
      TilesAscend(ps, i, k);
      assert Firsts(ps)[k].start < Firsts(ps)[k].end;
    }
  }

  /** What acceptance means, with no mention of the order of the manifest's entries. */
  ghost predicate Arranges(m: Manifest, ps: seq<Pair>) {
    && Tiles(ps)
    && multiset(Firsts(ps)) == multiset(OfKind(m.files, SummaryKind))
    && multiset(Seconds(ps)) == multiset(OfKind(m.files, ContentKind))
  }

  lemma AcceptedArranges(m: Manifest, ps: seq<Pair>)
    requires VerifyManifest(m) == Ok(ps)
    ensures Arranges(m, ps) && Ascending(Firsts(ps))
  {
    var ss, cs := SortByStart(OfKind(m.files, SummaryKind)), SortByStart(OfKind(m.files, ContentKind));
    SortIsAscending(OfKind(m.files, SummaryKind));
    assert Firsts(ps) == ss && Seconds(ps) == cs;
  }

  lemma OfKindMember(files: seq<FileMetadata>, kind: FileKind, f: FileMetadata)
    ensures f in OfKind(files, kind) <==> f in files && f.kind == kind
  {
    if files != [] {
      assert files == files[..|files| - 1] + [files[|files| - 1]];
    }
  }

  lemma ArrangedAscends(m: Manifest, ps: seq<Pair>)
    requires Arranges(m, ps) && NonEmptyRanges(m.files)
    ensures NonEmptyRanges(Firsts(ps)) && StrictlyAscending(Firsts(ps)) && StrictlyAscending(Seconds(ps))
  {
    forall i | 0 <= i < |ps| ensures Firsts(ps)[i].start < Firsts(ps)[i].end {
      assert Firsts(ps)[i] in multiset(OfKind(m.files, SummaryKind));
      OfKindMember(m.files, SummaryKind, Firsts(ps)[i]);
    }
    forall i, j | 0 <= i < j < |ps| ensures ps[i].0.start < ps[j].0.start {
      TilesAscend(ps, i, j);
      assert Firsts(ps)[i].start < Firsts(ps)[i].end;
    }
  }

  lemma TilesSeconds(ps: seq<Pair>)
    requires Tiles(ps)
    ensures Contiguous(Seconds(ps))
  {
    forall i | 0 <= i < |ps| - 1 ensures Meets(Seconds(ps), i) {
      assert Meets(Firsts(ps), i);
      assert SameRange(ps[i].0, ps[i].1) && SameRange(ps[i + 1].0, ps[i + 1].1);
    }
  }

  /** The arrangement is what sorting both kinds of entries gives. */
  lemma ArrangedIsSorted(m: Manifest, ps: seq<Pair>)
    requires Arranges(m, ps) && NonEmptyRanges(m.files)
    ensures SortByStart(OfKind(m.files, SummaryKind)) == Firsts(ps)
    ensures SortByStart(OfKind(m.files, ContentKind)) == Seconds(ps)
  {
    ArrangedAscends(m, ps);
    SortIsAscending(OfKind(m.files, SummaryKind));
    SortIsAscending(OfKind(m.files, ContentKind));
    AscendingUnique(SortByStart(OfKind(m.files, SummaryKind)), Firsts(ps));
    AscendingUnique(SortByStart(OfKind(m.files, ContentKind)), Seconds(ps));
  }

  /** Pairing up the sorted entries gives the arrangement back, and no assertion fails on it. */
  lemma ArrangedPairs(ps: seq<Pair>)
    requires Tiles(ps)
    ensures var ss, cs := Firsts(ps), Seconds(ps);
      && Contiguous(ss) && Contiguous(cs) && ss != [] && ss[0].start == 0
      && (forall i | 0 <= i < |ss| :: SameRange(ss[i], cs[i]))
      && ps == seq(|ss|, i requires 0 <= i < |ss| => (ss[i], cs[i]))
  {
    TilesSeconds(ps);
  }

  lemma ArrangedAccepted(m: Manifest, ps: seq<Pair>)
    requires Arranges(m, ps) && NonEmptyRanges(m.files)
    ensures VerifyManifest(m) == Ok(ps)
  {
    ArrangedIsSorted(m, ps);
    ArrangedPairs(ps);
  }

  /**
   * For a manifest without empty ranges, `verify_manifest` accepts exactly when its entries can be arranged
   * into pairs tiling the history, and then returns that arrangement, however the entries are ordered.
   */
  lemma VerifyManifestIff(m: Manifest, ps: seq<Pair>)
    requires NonEmptyRanges(m.files)
    ensures VerifyManifest(m) == Ok(ps) <==> Arranges(m, ps)
  {
    if VerifyManifest(m) == Ok(ps) { AcceptedArranges(m, ps); }
    if Arranges(m, ps) { ArrangedAccepted(m, ps); }
  }

  /** An empty manifest is an error; one with files but no arrangement is a panic. */
  lemma VerifyManifestFails(m: Manifest)
    requires NonEmptyRanges(m.files)
    ensures VerifyManifest(m).Err? <==> m.files == []
    ensures VerifyManifest(m).Panicked? <==> m.files != [] && forall ps :: !Arranges(m, ps)
  {
    if VerifyManifest(m).Ok? { VerifyManifestIff(m, VerifyManifest(m).value); }
    forall ps | Arranges(m, ps) ensures VerifyManifest(m).Ok? { VerifyManifestIff(m, ps); }
  }

  /** Tiling, spelled out for the pair at `i`. */
  lemma TilesMeans(ps: seq<Pair>, i: nat)
    requires Tiles(ps) && i < |ps|
    ensures ps[0].0.start == 0
    ensures ps[i].0.start == ps[i].1.start && ps[i].0.end == ps[i].1.end
    ensures i + 1 < |ps| ==> ps[i + 1].0.start == ps[i].0.end
  {
    if i + 1 < |ps| { assert Meets(Firsts(ps), i); }
  }

  // --- File selection ---

  /** What `binary_search_by_key` on range starts may answer; with equal starts it may find any of them. */
  datatype Search = Found(index: nat) | InsertAt(index: nat)

  ghost predicate Answers(ps: seq<Pair>, key: nat, r: Search) {
    match r
    case Found(i) => i < |ps| && ps[i].0.start == key
    case InsertAt(i) =>
      && i <= |ps|
      && (forall k | 0 <= k < i :: ps[k].0.start < key)
      && (forall k | i <= k < |ps| :: key < ps[k].0.start)
  }

  method BinarySearchByStart(ps: seq<Pair>, key: nat) returns (r: Search)
    requires Ascending(Firsts(ps))
    ensures Answers(ps, key, r)
  {
    var lo, hi := 0, |ps|;
    while lo < hi
      invariant 0 <= lo <= hi <= |ps|
      invariant forall k | 0 <= k < lo :: ps[k].0.start < key
      invariant forall k | hi <= k < |ps| :: key < ps[k].0.start
    {
      var mid := lo + (hi - lo) / 2;
      assert forall k | 0 <= k < |ps| :: Firsts(ps)[k].start == ps[k].0.start;
      if ps[mid].0.start == key { return Found(mid); }
      if ps[mid].0.start < key { lo := mid + 1; } else { hi := mid; }
    }
    r := InsertAt(lo);
  }

  function StartIndex(r: Search): int {
    match r case Found(i) => i case InsertAt(i) => i - 1
  }

  function EndIndex(r: Search): int {
    r.index
  }

  lemma {:induction false} AcceptedEndsBefore(ps: seq<Pair>, i: nat, j: nat)
    requires Tiles(ps) && Ascending(Firsts(ps)) && i < j < |ps|
    ensures ps[i].0.end <= ps[j].0.start
  {
    assert Meets(Firsts(ps), i);
    assert i + 1 < j ==> Firsts(ps)[i + 1].start <= Firsts(ps)[j].start;
  }

  ghost predicate Covers(p: Pair, n: nat) {
    p.0.start <= n < p.0.end
  }

  lemma StartSelected(ps: seq<Pair>, lo: nat, r: Search)
    requires Tiles(ps) && Ascending(Firsts(ps)) && Answers(ps, lo, r)
    ensures 0 <= StartIndex(r) < |ps| && ps[StartIndex(r)].0.start <= lo
    ensures forall k | 0 <= k < StartIndex(r) :: ps[k].0.end <= lo
  {
    assert r.InsertAt? ==> r.index > 0;
    forall k | 0 <= k < StartIndex(r) ensures ps[k].0.end <= lo {
      AcceptedEndsBefore(ps, k, StartIndex(r));
    }
  }

  lemma EndSelected(ps: seq<Pair>, hi: nat, r: Search)
    requires Ascending(Firsts(ps)) && Answers(ps, hi, r)
    ensures EndIndex(r) <= |ps|
    ensures forall k | EndIndex(r) <= k < |ps| :: hi <= ps[k].0.start
  {
    forall k | EndIndex(r) <= k < |ps| ensures hi <= ps[k].0.start {
      if r.Found? && r.index < k { assert Firsts(ps)[r.index].start <= Firsts(ps)[k].start; }
    }
  }

  /**
   * For every accepted manifest and every answer of the binary search: the start index does not underflow,
   * its file does not begin after `lo`, and a file left out holds no checkpoint of `lo..hi`.
   */
  lemma SelectionComplete(m: Manifest, ps: seq<Pair>, lo: nat, hi: nat, rs: Search, re: Search)
    requires VerifyManifest(m) == Ok(ps) && Answers(ps, lo, rs) && Answers(ps, hi, re)
    ensures 0 <= StartIndex(rs) < |ps| && EndIndex(re) <= |ps|
    ensures ps[StartIndex(rs)].0.start <= lo
    ensures forall k, n: nat | 0 <= k < |ps| && Covers(ps[k], n) && lo <= n < hi :: StartIndex(rs) <= k < EndIndex(re)
  {
    AcceptedArranges(m, ps);
    StartSelected(ps, lo, rs);
    EndSelected(ps, hi, re);
  }

  /** Accepted pairs without empty ranges have strictly ascending starts. */
  lemma AcceptedStrictly(m: Manifest, ps: seq<Pair>)
    requires VerifyManifest(m) == Ok(ps) && NonEmptyRanges(m.files)
    ensures Tiles(ps) && StrictlyAscending(Firsts(ps)) && forall i | 0 <= i < |ps| :: ps[i].0.start < ps[i].0.end
  {
    AcceptedArranges(m, ps);
    ArrangedAscends(m, ps);
    forall i | 0 <= i < |ps| ensures ps[i].0.start < ps[i].0.end { assert Firsts(ps)[i] == ps[i].0; }
  }

  lemma SelectedReach(ps: seq<Pair>, lo: nat, hi: nat, rs: Search, re: Search, k: nat)
    requires Tiles(ps) && StrictlyAscending(Firsts(ps)) && Answers(ps, lo, rs) && Answers(ps, hi, re) && k < |ps|
    requires forall i | 0 <= i < |ps| :: ps[i].0.start < ps[i].0.end
    requires lo < ps[|ps| - 1].0.end
    ensures StartIndex(rs) <= k <==> lo < ps[k].0.end
    ensures k < EndIndex(re) <==> ps[k].0.start < hi
  {
    var si, ei := StartIndex(rs), EndIndex(re);
    assert forall i | 0 <= i < |ps| :: Firsts(ps)[i].start == ps[i].0.start;
    StartSelected(ps, lo, rs);
    if si < |ps| - 1 { assert Meets(Firsts(ps), si); }
    if si < k { AcceptedEndsBefore(ps, si, k); }
  }

  lemma StartsAtRange(ps: seq<Pair>, lo: nat, rs: Search)
    requires Tiles(ps) && StrictlyAscending(Firsts(ps)) && Answers(ps, lo, rs)
    requires forall i | 0 <= i < |ps| :: ps[i].0.start < ps[i].0.end
    ensures 0 <= StartIndex(rs) < |ps|
    ensures Covers(ps[StartIndex(rs)], lo) <==> lo < ps[|ps| - 1].0.end
  {
    StartSelected(ps, lo, rs);
    var si, last := StartIndex(rs), |ps| - 1;
    if si < last { AcceptedEndsBefore(ps, si, last); }
    if lo < ps[last].0.end { SelectedReach(ps, lo, lo, rs, rs, si); }
  }

  /** Without empty ranges the first file selected holds `lo` whenever any file does. */
  lemma SelectionStartsAtRange(m: Manifest, ps: seq<Pair>, lo: nat, rs: Search)
    requires VerifyManifest(m) == Ok(ps) && Answers(ps, lo, rs) && NonEmptyRanges(m.files)
    ensures 0 <= StartIndex(rs) < |ps|
    ensures Covers(ps[StartIndex(rs)], lo) <==> lo < ps[|ps| - 1].0.end
  {
    AcceptedStrictly(m, ps);
    StartsAtRange(ps, lo, rs);
  }

  /** Without empty ranges exactly the files that share a checkpoint with `lo..hi` are selected. */
  lemma SelectionExact(m: Manifest, ps: seq<Pair>, lo: nat, hi: nat, rs: Search, re: Search, k: nat)
    requires VerifyManifest(m) == Ok(ps) && Answers(ps, lo, rs) && Answers(ps, hi, re) && NonEmptyRanges(m.files)
    requires lo < hi && lo < ps[|ps| - 1].0.end && k < |ps|
    ensures StartIndex(rs) <= k < EndIndex(re) <==> exists n: nat | lo <= n < hi :: Covers(ps[k], n)
  {
    AcceptedStrictly(m, ps);
    SelectedReach(ps, lo, hi, rs, re, k);
    if lo < ps[k].0.end && ps[k].0.start < hi {
      var n := if lo < ps[k].0.start then ps[k].0.start else lo;
      assert Covers(ps[k], n);
    }
  }

  // --- The epoch index ---

  function FirstStartAfter(files: seq<FileMetadata>, epoch: nat): nat {
    if files == [] then U64_MAX
    else if files[0].epoch > epoch then files[0].start
    else FirstStartAfter(files[1..], epoch)
  }

  function NextCheckpointAfterEpoch(m: Manifest, epoch: nat): Outcome<nat> {
    var ss := SortByStart(OfKind(m.files, SummaryKind));
    if !Contiguous(ss) || ss == [] || ss[0].start != 0 then Panicked
    else Ok(FirstStartAfter(ss, epoch))
  }

  /** `k` is the first file of a later epoch, or past the end when there is none. */
  lemma {:induction false} FirstAfterIndex(files: seq<FileMetadata>, epoch: nat) returns (k: nat)
    ensures k <= |files| && (forall i | 0 <= i < k :: files[i].epoch <= epoch)
    ensures k < |files| ==> files[k].epoch > epoch && FirstStartAfter(files, epoch) == files[k].start
    ensures k == |files| ==> FirstStartAfter(files, epoch) == U64_MAX
  {
    if files == [] || files[0].epoch > epoch {
      k := 0;
    } else {
      var k' := FirstAfterIndex(files[1..], epoch);
      k := k' + 1;
    }
  }
}
