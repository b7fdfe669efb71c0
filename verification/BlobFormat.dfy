/** Length-prefixed blobs and the files made of them. */
module BlobFormat {
  import opened Prelude

  const MAX_VARINT_LENGTH: nat := 10
  const BCS_ENCODING: byte := 1

  /** LEB128: seven bits a byte, the high bit set on all but the last. */
  function EncodeVar(n: nat): (b: Bytes)
    ensures b != []
  {
    if n < 128 then [n] else [n % 128 + 128] + EncodeVar(n / 128)
  }

  /** At most `k` bytes are looked at; the value is not yet reduced to 64 bits. */
  function ReadVar(b: Bytes, k: nat): (r: Option<(nat, Bytes)>)
    ensures r.Some? ==> |r.value.1| < |b|
  {
    if b == [] || k == 0 then None
    else if b[0] < 128 then Some((b[0], b[1..]))
    else
      match ReadVar(b[1..], k - 1)
      case None => None
      case Some(vr) => Some((b[0] - 128 + 128 * vr.0, vr.1))
  }

  function Size(data: Bytes): nat {
    RequiredSpace(|data|) + 1 + |data|
  }

  function RequiredSpace(n: nat): nat {
    if n < 128 then 1 else 1 + RequiredSpace(n / 128)
  }

  function WriteBlob(data: Bytes): Bytes {
    EncodeVar(|data|) + [BCS_ENCODING] + data
  }

  /** The data of the first blob and the bytes after it. */
  function ReadBlob(b: Bytes): (r: Option<(Bytes, Bytes)>)
    ensures r.Some? ==> |r.value.1| < |b|
  {
    match ReadVar(b, MAX_VARINT_LENGTH)
    case None => None
    case Some(vr) =>
      var len, rest := vr.0 % TWO_64, vr.1;
      if len == 0 || |rest| < 1 + len || rest[0] != BCS_ENCODING then None
      else Some((rest[1..1 + len], rest[1 + len..]))
  }

  function Pow128(k: nat): nat {
    if k == 0 then 1 else 128 * Pow128(k - 1)
  }

  lemma {:induction false} VarRoundTrip(n: nat, tail: Bytes, k: nat)
    requires n < Pow128(k) && k > 0
    ensures ReadVar(EncodeVar(n) + tail, k) == Some((n, tail))
  {
    var b := EncodeVar(n) + tail;
    if n < 128 {
      assert b[1..] == tail;
    } else {
      assert b[1..] == EncodeVar(n / 128) + tail;
      VarRoundTrip(n / 128, tail, k - 1);
    }
  }

  lemma {:induction false} VarLength(n: nat, k: nat)
    requires n < Pow128(k) && k > 0
    ensures |EncodeVar(n)| == RequiredSpace(n) <= k
  {
    if n < 128 {
    } else {
      VarLength(n / 128, k - 1);
    }
  }

  lemma U64Fits(n: nat)
    requires n < TWO_64
    ensures n < Pow128(MAX_VARINT_LENGTH)
  {
    assert Pow128(2) == 128 * Pow128(1) == 0x4000;
    assert Pow128(4) == 128 * Pow128(3) == 0x1000_0000;
    assert Pow128(6) == 128 * Pow128(5) == 0x400_0000_0000;
    assert Pow128(8) == 128 * Pow128(7) == 0x100_0000_0000_0000;
    assert Pow128(10) == 128 * Pow128(9);
  }

  /** `size` reports exactly what `write` writes, and the length prefix fits the ten-byte buffer. */
  lemma WriteHasSize(data: Bytes)
    requires Addressable(data)
    ensures |WriteBlob(data)| == Size(data) && |EncodeVar(|data|)| <= MAX_VARINT_LENGTH
  {
    U64Fits(|data|);
    VarLength(|data|, MAX_VARINT_LENGTH);
  }

  /** Whatever follows it, a blob is read back exactly, unless it is empty: an empty blob is never readable. */
  lemma BlobRoundTrip(data: Bytes, tail: Bytes)
    requires Addressable(data)
    ensures ReadBlob(WriteBlob(data) + tail) == if data == [] then None else Some((data, tail))
  {
    var rest := [BCS_ENCODING] + data + tail;
    assert WriteBlob(data) + tail == EncodeVar(|data|) + rest;
    U64Fits(|data|);
    VarRoundTrip(|data|, rest, MAX_VARINT_LENGTH);
    assert rest[1..1 + |data|] == data && rest[1 + |data|..] == tail;
  }

  // --- What the bytes say ---

  /** Seven bits of each byte, least significant first. */
  ghost function VarMeaning(b: Bytes): nat {
    if b == [] then 0 else (b[0] as int) % 128 + 128 * VarMeaning(b[1..])
  }

  /** Every byte but the last has its high bit set. */
  ghost predicate VarShaped(b: Bytes) {
    b != [] && b[|b| - 1] < 128 && forall i | 0 <= i < |b| - 1 :: b[i] >= 128
  }

  lemma LowBits(n: nat)
    ensures (n % 128 + 128) % 128 == n % 128 && n % 128 + 128 * (n / 128) == n
  {}

  lemma {:induction false} EncodeVarMeans(n: nat)
    ensures VarShaped(EncodeVar(n)) && VarMeaning(EncodeVar(n)) == n
  {
    var b := EncodeVar(n);
    if n < 128 {
      assert b[1..] == [];
    } else {
      EncodeVarMeans(n / 128);
      assert b[1..] == EncodeVar(n / 128);
      assert b[0] == n % 128 + 128;
      LowBits(n);
      assert forall i | 0 < i < |b| :: b[i] == b[1..][i - 1];
    }
  }

  lemma {:induction false} ReadVarMeans(b: Bytes, k: nat) returns (p: nat)
    requires ReadVar(b, k).Some?
    ensures 0 < p <= k && p <= |b| && VarShaped(b[..p]) && ReadVar(b, k).value == (VarMeaning(b[..p]), b[p..])
  {
    if b[0] < 128 {
      p := 1;
      assert b[..1][1..] == [];
    } else {
      var q := ReadVarMeans(b[1..], k - 1);
      p := q + 1;
      assert b[..p][1..] == b[1..][..q] && b[p..] == b[1..][q..];
      assert forall i | 0 < i < p :: b[i] == b[1..][i - 1];
    }
  }

  /** A blob that is read starts with its length in at most ten bytes and the encoding byte, and is not empty. */
  lemma AcceptedBlob(b: Bytes) returns (p: nat)
    requires ReadBlob(b).Some?
    ensures 0 < p <= 10 && p <= |b| && VarShaped(b[..p])
    ensures var data, rest := ReadBlob(b).value.0, ReadBlob(b).value.1;
      && data != [] && |data| == VarMeaning(b[..p]) % TWO_64
      && b == b[..p] + [1] + data + rest
  {
    p := ReadVarMeans(b, MAX_VARINT_LENGTH);
    var tail := b[p..];
    var n := VarMeaning(b[..p]) % TWO_64;
    assert tail == [tail[0]] + tail[1..1 + n] + tail[1 + n..];
    assert b == b[..p] + tail;
  }

  // --- Sequences of blobs ---

  /** An encoding of values into bytes, as BCS is. */
  datatype Serde<!T> = Serde(encode: T -> Bytes, decode: Bytes -> Option<T>)

  /** The encoding is not empty and can be decoded. */
  ghost predicate Reversible<T>(s: Serde<T>, x: T) {
    s.encode(x) != [] && s.decode(s.encode(x)) == Some(x)
  }

  /** A byte string a 64-bit machine can hold. */
  predicate Addressable(b: Bytes) {
    |b| < TWO_64
  }

  function WriteBlobs<T>(s: Serde<T>, xs: seq<T>): Bytes {
    if xs == [] then [] else WriteBlobs(s, xs[..|xs| - 1]) + WriteBlob(s.encode(xs[|xs| - 1]))
  }

  /** The iterator over a blob file: it ends quietly at the first blob that cannot be read. */
  function IterateBlobs<T>(s: Serde<T>, b: Bytes): seq<T>
    decreases |b|
  {
    match ReadBlob(b)
    case None => []
    case Some(dr) =>
      match s.decode(dr.0)
      case None => []
      case Some(x) => [x] + IterateBlobs(s, dr.1)
  }

  lemma {:induction false} WriteBlobsCons<T>(s: Serde<T>, xs: seq<T>)
    requires xs != []
    ensures WriteBlobs(s, xs) == WriteBlob(s.encode(xs[0])) + WriteBlobs(s, xs[1..])
  {
    if |xs| == 1 {
      assert xs[..0] == [] && xs[1..] == [];
    } else {
      WriteBlobsCons(s, xs[..|xs| - 1]);
      assert xs[..|xs| - 1][1..] == xs[1..][..|xs| - 2];
    }
  }

  lemma {:induction false} BlobsRoundTrip<T>(s: Serde<T>, xs: seq<T>)
    requires forall i | 0 <= i < |xs| :: Reversible(s, xs[i]) && Addressable(s.encode(xs[i]))
    ensures IterateBlobs(s, WriteBlobs(s, xs)) == xs
  {
    if xs != [] {
      assert Reversible(s, xs[0]);
      WriteBlobsCons(s, xs);
      BlobRoundTrip(s.encode(xs[0]), WriteBlobs(s, xs[1..]));
      BlobsRoundTrip(s, xs[1..]);
    } else {
      assert ReadBlob([]).None?;
    }
  }
}
