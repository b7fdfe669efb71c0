/** The consensus committee: stake thresholds in 64-bit arithmetic, and how sets of authorities meet. */
module ConsensusCommittee {
  import opened Prelude

  const U32_MAX: nat := 0xFFFF_FFFF

  datatype Committee = Committee(epoch: nat, total: nat, quorum: nat, validity: nat, stakes: seq<nat>)

  function Sum(stakes: seq<nat>): nat {
    if stakes == [] then 0 else Sum(stakes[..|stakes| - 1]) + stakes[|stakes| - 1]
  }

  /** Every operation wraps at 64 bits. */
  function New(epoch: nat, stakes: seq<nat>): Outcome<Committee> {
    if stakes == [] || |stakes| >= U32_MAX then Panicked
    else
      var total := Sum(stakes) % TWO_64;
      if total == 0 then Panicked
      else Ok(Committee(epoch, total, QuorumOf(total), ValidityOf(total), stakes))
  }

  /** A committee whose total stake, doubled, fits in 64 bits. */
  ghost predicate Proper(c: Committee) {
    New(c.epoch, c.stakes) == Ok(c) && 2 * Sum(c.stakes) < TWO_64
  }

  function QuorumOf(total: nat): nat {
    2 * total % TWO_64 / 3 + 1
  }

  function ValidityOf(total: nat): nat {
    (total + 2) % TWO_64 / 3
  }

  lemma ThresholdsFit(total: nat)
    requires 2 * total < TWO_64
    ensures QuorumOf(total) + ValidityOf(total) == total + 1
  {
    assert 2 * total % TWO_64 == 2 * total && (total + 2) % TWO_64 == total + 2;
    var k, r := total / 3, total % 3;
    assert total == 3 * k + r && (r == 0 || r == 1 || r == 2);
  }

  lemma ThresholdsOverflow(total: nat)
    requires total < TWO_64 <= 2 * total
    ensures QuorumOf(total) + ValidityOf(total) < total + 1
  {
    assert 2 * total % TWO_64 == 2 * total - TWO_64;
    assert (total + 2) % TWO_64 <= total + 2;
  }

  /**
   * The two thresholds add up to one more than the stake handed in exactly when twice that stake fits in 64 bits;
   * a sum that itself wraps is among the failures.
   */
  lemma ThresholdsExactly(epoch: nat, stakes: seq<nat>)
    requires New(epoch, stakes).Ok?
    ensures var c := New(epoch, stakes).value; c.quorum + c.validity == Sum(stakes) + 1 <==> 2 * Sum(stakes) < TWO_64
  {
    var total := Sum(stakes) % TWO_64;
    if 2 * total < TWO_64 { ThresholdsFit(total); } else { ThresholdsOverflow(total); }
  }

  lemma ProperThresholds(c: Committee)
    requires Proper(c)
    ensures c.total == Sum(c.stakes) && c.quorum + c.validity == c.total + 1
    ensures 0 < c.validity <= c.quorum && c.total <= 3 * c.validity <= c.total + 2
  {
    assert c.total == Sum(c.stakes);
    ThresholdsExactly(c.epoch, c.stakes);
  }

  // --- Sets of authorities ---

  /** The stake of the authorities in `a` among the first `n`. */
  function StakeAmong(stakes: seq<nat>, a: set<nat>, n: nat): nat
    requires n <= |stakes|
  {
    if n == 0 then 0 else StakeAmong(stakes, a, n - 1) + if n - 1 in a then stakes[n - 1] else 0
  }

  function Stake(c: Committee, a: set<nat>): nat {
    StakeAmong(c.stakes, a, |c.stakes|)
  }

  function Indices(n: nat): (r: set<nat>)
    ensures forall i: nat :: i in r <==> i < n
  {
    if n == 0 then {} else Indices(n - 1) + {n - 1}
  }

  function Everyone(c: Committee): set<nat> {
    Indices(|c.stakes|)
  }

  lemma {:induction false} InclusionExclusion(stakes: seq<nat>, a: set<nat>, b: set<nat>, n: nat)
    requires n <= |stakes|
    ensures StakeAmong(stakes, a, n) + StakeAmong(stakes, b, n) == StakeAmong(stakes, a + b, n) + StakeAmong(stakes, a * b, n)
  {
    if n == 0 {
    } else {
      InclusionExclusion(stakes, a, b, n - 1);
    }
  }

  lemma {:induction false} NoMoreThanAll(stakes: seq<nat>, a: set<nat>, n: nat)
    requires n <= |stakes|
    ensures StakeAmong(stakes, a, n) <= Sum(stakes[..n])
    ensures (forall i | 0 <= i < n :: i in a) ==> StakeAmong(stakes, a, n) == Sum(stakes[..n])
    ensures (forall i | 0 <= i < n :: i !in a) ==> StakeAmong(stakes, a, n) == 0
  {
    if n == 0 {
    } else {
      NoMoreThanAll(stakes, a, n - 1);
      assert stakes[..n][..n - 1] == stakes[..n - 1];
    }
  }

  lemma TotalBounds(c: Committee, a: set<nat>)
    ensures Stake(c, a) <= Sum(c.stakes)
    ensures Everyone(c) <= a ==> Stake(c, a) == Sum(c.stakes)
    ensures a !! Everyone(c) ==> Stake(c, a) == 0
  {
    NoMoreThanAll(c.stakes, a, |c.stakes|);
    assert c.stakes[..|c.stakes|] == c.stakes;
    assert forall i | 0 <= i < |c.stakes| :: i in Everyone(c);
  }

  lemma ComplementStake(c: Committee, a: set<nat>)
    ensures Stake(c, a) + Stake(c, Everyone(c) - a) == Sum(c.stakes)
  {
    var b := Everyone(c) - a;
    InclusionExclusion(c.stakes, a, b, |c.stakes|);
    TotalBounds(c, a + b);
    TotalBounds(c, a * b);
  }

  ghost predicate IsQuorum(c: Committee, a: set<nat>) {
    Stake(c, a) >= c.quorum
  }

  ghost predicate IsValid(c: Committee, a: set<nat>) {
    Stake(c, a) >= c.validity
  }

  /** A set reaches quorum exactly when those outside it stay below validity. */
  lemma QuorumComplement(c: Committee, a: set<nat>)
    requires Proper(c)
    ensures IsQuorum(c, a) <==> !IsValid(c, Everyone(c) - a)
  {
    ComplementStake(c, a);
    ProperThresholds(c);
  }

  /** Any two quorums share at least the validity threshold. */
  lemma QuorumsOverlap(c: Committee, a: set<nat>, b: set<nat>)
    requires Proper(c) && IsQuorum(c, a) && IsQuorum(c, b)
    ensures IsValid(c, a * b)
  {
    InclusionExclusion(c.stakes, a, b, |c.stakes|);
    TotalBounds(c, a + b);
    ProperThresholds(c);
  }

  lemma {:induction false} SomeoneWithStake(stakes: seq<nat>, a: set<nat>, n: nat) returns (i: nat)
    requires n <= |stakes| && StakeAmong(stakes, a, n) > 0
    ensures i < n && i in a && stakes[i] > 0
  {
    if n - 1 in a && stakes[n - 1] > 0 {
      i := n - 1;
    } else {
      i := SomeoneWithStake(stakes, a, n - 1);
    }
  }

  /** Every set reaching validity has an authority with stake in common with every quorum. */
  lemma ValidityMeetsQuorum(c: Committee, a: set<nat>, q: set<nat>) returns (i: nat)
    requires Proper(c) && IsValid(c, a) && IsQuorum(c, q)
    ensures i in a && i in q && i < |c.stakes| && c.stakes[i] > 0
  {
    InclusionExclusion(c.stakes, a, q, |c.stakes|);
    TotalBounds(c, a + q);
    ProperThresholds(c);
    i := SomeoneWithStake(c.stakes, a * q, |c.stakes|);
  }

  /** Faults below a third leave a quorum: with any set short of validity gone, the rest is one; and the bound is tight. */
  lemma FaultTolerance(c: Committee, faulty: set<nat>)
    requires Proper(c)
    ensures IsQuorum(c, Everyone(c) - faulty) <==> !IsValid(c, faulty)
    ensures !IsValid(c, faulty) <==> 3 * Stake(c, faulty) < c.total
  {
    ComplementStake(c, faulty);
    ProperThresholds(c);
  }

  lemma {:induction false} SumPositive(stakes: seq<nat>)
    ensures Sum(stakes) > 0 <==> exists i | 0 <= i < |stakes| :: stakes[i] > 0
  {
    if stakes == [] {
    } else {
      var front := stakes[..|stakes| - 1];
      SumPositive(front);
      assert forall i | 0 <= i < |front| :: front[i] == stakes[i];
    }
  }

  /**
   * Authorities whose doubled stake fits in 64 bits form a committee exactly when there are not too many and one of
   * them has stake; all of them together are then a quorum, and none of them reaches no threshold.
   */
  lemma FormsExactly(epoch: nat, stakes: seq<nat>)
    requires 2 * Sum(stakes) < TWO_64
    ensures New(epoch, stakes).Ok? <==> |stakes| < U32_MAX && exists i | 0 <= i < |stakes| :: stakes[i] > 0
    ensures New(epoch, stakes).Ok? ==>
      var c := New(epoch, stakes).value; IsQuorum(c, Everyone(c)) && !IsValid(c, {}) && !IsQuorum(c, {})
  {
    SumPositive(stakes);
    if New(epoch, stakes).Ok? {
      var c := New(epoch, stakes).value;
      ProperThresholds(c);
      TotalBounds(c, Everyone(c));
      TotalBounds(c, {});
    }
  }

  /** The sum and the stakes of a committee of two. */
  lemma TwoAuthorities(a: nat, b: nat)
    ensures Sum([a, b]) == a + b
    ensures StakeAmong([a, b], {0}, 2) == a && StakeAmong([a, b], {1}, 2) == b
  {
    assert [a, b][..1] == [a] && [a][..0] == [];
    assert Sum([a]) == a;
    assert StakeAmong([a, b], {0}, 1) == a && StakeAmong([a, b], {1}, 1) == 0;
  }

  /** When doubling the total overflows, two authorities can each be a quorum of their own. */
  lemma OverflowSplitsQuorum()
    ensures var stakes := [0x7FFF_FFFF_FFFF_FFFF, 0x7FFF_FFFF_FFFF_FFFF];
      && New(0, stakes).Ok? && Sum(stakes) < TWO_64
      && IsQuorum(New(0, stakes).value, {0}) && IsQuorum(New(0, stakes).value, {1})
  {
    TwoAuthorities(0x7FFF_FFFF_FFFF_FFFF, 0x7FFF_FFFF_FFFF_FFFF);
  }

  /** So they can when the sum itself wraps, although the thresholds then agree with the total that is left. */
  lemma WrappedSumSplitsQuorum()
    ensures var stakes := [0x8000_0000_0000_0000, 0x8000_0000_0000_000A];
      && New(0, stakes).Ok? && New(0, stakes).value.total == 10
      && New(0, stakes).value.quorum + New(0, stakes).value.validity == 11
      && IsQuorum(New(0, stakes).value, {0}) && IsQuorum(New(0, stakes).value, {1})
  {
    TwoAuthorities(0x8000_0000_0000_0000, 0x8000_0000_0000_000A);
  }
}
