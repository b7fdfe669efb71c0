/** How epochs and checkpoint ranges are written into file names, and read back from them. */
module FileNames {
  import opened Prelude
  import opened ArchiveTypes
  import AnalyticsIndexer

  // --- Decimal numbers ---

  function Digit(d: nat): char
    requires d < 10
  {
    '0' + d as char
  }

  predicate IsDigit(c: char) {
    '0' <= c <= '9'
  }

  function Decimal(n: nat): (s: string)
    ensures s != [] && forall c | c in s :: IsDigit(c)
  {
    if n < 10 then [Digit(n)] else Decimal(n / 10) + [Digit(n % 10)]
  }

  function DigitsValue(s: string): Option<nat> {
    if s == [] then Some(0)
    else
      var before, last := DigitsValue(s[..|s| - 1]), s[|s| - 1];
      if before.Some? && IsDigit(last) then Some(10 * before.value + (last - '0') as nat) else None
  }

  /** Parsing a 64-bit unsigned number: an optional plus sign, then digits, without overflow. */
  function ParseU64(s: string): Option<nat> {
    var digits := if s != [] && s[0] == '+' then s[1..] else s;
    if digits == [] then None
    else
      match DigitsValue(digits)
      case Some(n) => if n <= U64_MAX then Some(n) else None
      case None => None
  }

  lemma {:induction false} DecimalValue(n: nat)
    ensures DigitsValue(Decimal(n)) == Some(n)
  {
    var s := Decimal(n);
    if n < 10 {
      assert s[..0] == [];
    } else {
      DecimalValue(n / 10);
      assert s[..|s| - 1] == Decimal(n / 10);
    }
  }

  lemma ParseDecimal(n: nat)
    ensures ParseU64(Decimal(n)) == if n <= U64_MAX then Some(n) else None
  {
    DecimalValue(n);
    assert IsDigit(Decimal(n)[0]);
  }

  /** The text before and after the first `c`. */
  function SplitOnce(s: string, c: char): Option<(string, string)> {
    if s == [] then None
    else if s[0] == c then Some(([], s[1..]))
    else
      match SplitOnce(s[1..], c)
      case None => None
      case Some(p) => Some(([s[0]] + p.0, p.1))
  }

  lemma {:induction false} SplitFirst(before: string, c: char, after: string)
    requires c !in before
    ensures SplitOnce(before + [c] + after, c) == Some((before, after))
  {
    var s := before + [c] + after;
    if before == [] {
      assert s[1..] == after;
    } else {
      assert s[1..] == before[1..] + [c] + after;
      SplitFirst(before[1..], c, after);
      assert before == [before[0]] + before[1..];
    }
  }

  // --- Epoch directories ---

  const EPOCH_WORD := "epoch"

  function EpochDir(epoch: nat): string {
    EPOCH_WORD + "_" + Decimal(epoch)
  }

  /** None for a directory that is not an epoch directory. */
  function ParseEpochDir(name: string): Option<nat> {
    if !(EPOCH_WORD + "_" <= name) then None
    else
      match SplitOnce(name, '_')
      case None => None
      case Some(p) => ParseU64(p.1)
  }

  lemma EpochDirRoundTrip(epoch: nat)
    requires epoch <= U64_MAX
    ensures ParseEpochDir(EpochDir(epoch)) == Some(epoch)
  {
    SplitFirst(EPOCH_WORD, '_', Decimal(epoch));
    ParseDecimal(epoch);
  }

  // --- Analytics files ---

  function Suffix(format: AnalyticsIndexer.FileFormat): string {
    match format case Csv => "csv" case Parquet => "parquet"
  }

  function RangeName(start: nat, end: nat, format: AnalyticsIndexer.FileFormat): string {
    Decimal(start) + "_" + Decimal(end) + "." + Suffix(format)
  }

  function ParseRangeName(name: string): Option<(nat, nat)> {
    match SplitOnce(name, '.')
    case None => None
    case Some(stem) =>
      match SplitOnce(stem.0, '_')
      case None => None
      case Some(ends) =>
        var start, end := ParseU64(ends.0), ParseU64(ends.1);
        if start.Some? && end.Some? then Some((start.value, end.value)) else None
  }

  /** What a restart reads off a file name is the range the file was cut for. */
  lemma RangeNameRoundTrip(start: nat, end: nat, format: AnalyticsIndexer.FileFormat)
    requires start <= U64_MAX && end <= U64_MAX
    ensures ParseRangeName(RangeName(start, end, format)) == Some((start, end))
  {
    var stem := Decimal(start) + "_" + Decimal(end);
    assert '.' !in Decimal(start) && '.' !in Decimal(end) && '_' !in Decimal(start);
    assert RangeName(start, end, format) == stem + ['.'] + Suffix(format);
    SplitFirst(stem, '.', Suffix(format));
    SplitFirst(Decimal(start), '_', Decimal(end));
    ParseDecimal(start);
    ParseDecimal(end);
  }

  // --- Archive files ---

  function KindSuffix(kind: FileKind): string {
    match kind case ContentKind => "chk" case SummaryKind => "sum"
  }

  function PathText(p: Path): string {
    EpochDir(p.epoch) + "/" + Decimal(p.start) + "." + KindSuffix(p.kind)
  }

  lemma DecimalInjective(m: nat, n: nat)
    requires Decimal(m) == Decimal(n)
    ensures m == n
  {
    DecimalValue(m);
    DecimalValue(n);
  }

  lemma PathParts(p: Path)
    ensures SplitOnce(PathText(p), '/') == Some((EpochDir(p.epoch), Decimal(p.start) + "." + KindSuffix(p.kind)))
    ensures SplitOnce(EpochDir(p.epoch), '_') == Some((EPOCH_WORD, Decimal(p.epoch)))
    ensures SplitOnce(Decimal(p.start) + "." + KindSuffix(p.kind), '.') == Some((Decimal(p.start), KindSuffix(p.kind)))
  {
    assert '/' !in Decimal(p.epoch) && '.' !in Decimal(p.start);
    assert PathText(p) == EpochDir(p.epoch) + ['/'] + (Decimal(p.start) + "." + KindSuffix(p.kind));
    SplitFirst(EpochDir(p.epoch), '/', Decimal(p.start) + "." + KindSuffix(p.kind));
    SplitFirst(EPOCH_WORD, '_', Decimal(p.epoch));
    SplitFirst(Decimal(p.start), '.', KindSuffix(p.kind));
  }

  /** No two files of an archive share a path. */
  lemma PathsDiffer(p: Path, q: Path)
    requires PathText(p) == PathText(q)
    ensures p == q
  {
    PathParts(p);
    PathParts(q);
    DecimalInjective(p.epoch, q.epoch);
    DecimalInjective(p.start, q.start);
    assert KindSuffix(p.kind)[0] == KindSuffix(q.kind)[0];
  }
}
