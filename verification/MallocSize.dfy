/**
 * Heap measurement over nested types. A type may promise a constant size for all its values, and containers
 * then multiply instead of visiting their elements.
 */
module MallocSize {
  import opened Prelude

  /** `Leaf` is a type with its own implementation and whatever constant size it claims. */
  datatype Ty =
    | RefTo
    | Leaf(claimed: Option<nat>)
    | BoxOf(inner: Ty)
    | TupleOf(parts: seq<Ty>)
    | OptionOf(inner: Ty)
    | ResultOf(good: Ty, bad: Ty)
    | CellOf(inner: Ty)
    | LockOf(inner: Ty)
    | CowOf(inner: Ty)
    | SliceOf(elem: Ty)
    | ListOf(elem: Ty)
    | MapOf(key: Ty, val: Ty)
    | IndexMapOf(key: Ty, val: Ty)

  /** `shallow` is what the allocator or an estimate says of the container's own storage. */
  datatype Value =
    | Reference
    | Plain(bytes: nat)
    | Boxed(shallow: nat, content: Value)
    | Tuple(items: seq<Value>)
    | Nothing
    | Just(content: Value)
    | Good(content: Value)
    | Bad(content: Value)
    | Held(content: Value)
    | List(shallow: nat, items: seq<Value>)
    | Map(shallow: nat, entries: seq<Pair>)

  datatype Pair = Pair(key: Value, val: Value)

  /** A leaf value keeps the promise of its type. */
  predicate HasType(v: Value, t: Ty)
    decreases v
  {
    match t
    case RefTo => v.Reference?
    case Leaf(claimed) => v.Plain? && (claimed.Some? ==> v.bytes == claimed.value)
    case BoxOf(inner) => v.Boxed? && HasType(v.content, inner)
    case TupleOf(parts) => v.Tuple? && |v.items| == |parts| && forall i | 0 <= i < |parts| :: HasType(v.items[i], parts[i])
    case OptionOf(inner) => v.Nothing? || (v.Just? && HasType(v.content, inner))
    case ResultOf(good, bad) => (v.Good? && HasType(v.content, good)) || (v.Bad? && HasType(v.content, bad))
    case CellOf(inner) => v.Held? && HasType(v.content, inner)
    case LockOf(inner) => v.Held? && HasType(v.content, inner)
    case CowOf(inner) => v.Reference? || (v.Held? && HasType(v.content, inner))
    case SliceOf(elem) => v.List? && v.shallow == 0 && ItemsHaveType(v, elem)
    case ListOf(elem) => v.List? && ItemsHaveType(v, elem)
    case MapOf(key, val) => v.Map? && EntriesHaveType(v, key, val)
    case IndexMapOf(key, val) => v.Map? && EntriesHaveType(v, key, val)
  }

  predicate ItemsHaveType(v: Value, elem: Ty)
    requires v.List?
    decreases v, 0
  {
    forall i | 0 <= i < |v.items| :: HasType(v.items[i], elem)
  }

  predicate EntriesHaveType(v: Value, key: Ty, val: Ty)
    requires v.Map?
    decreases v, 0
  {
    forall i | 0 <= i < |v.entries| :: PairHasType(v.entries[i], key, val)
  }

  predicate PairHasType(e: Pair, key: Ty, val: Ty)
    decreases e
  {
    HasType(e.key, key) && HasType(e.val, val)
  }

  /** The constant size a type promises. An option promises one only when it is zero, a result only when both agree. */
  function ConstantSize(t: Ty): Option<nat>
    decreases t
  {
    match t
    case RefTo => Some(0)
    case Leaf(claimed) => claimed
    case TupleOf(parts) => ConstantParts(t, |parts|)
    case OptionOf(inner) => if ConstantSize(inner) == Some(0) then Some(0) else None
    case ResultOf(good, bad) =>
      var g, b := ConstantSize(good), ConstantSize(bad);
      if g.Some? && b == g then g else None
    case CellOf(inner) => ConstantSize(inner)
    case _ => None
  }

  function ConstantParts(t: Ty, n: nat): Option<nat>
    requires t.TupleOf? && n <= |t.parts|
    decreases t, n
  {
    if n == 0 then Some(0)
    else
      var s, p := ConstantParts(t, n - 1), ConstantSize(t.parts[n - 1]);
      if s.Some? && p.Some? then Some(s.value + p.value) else None
  }

  /** Both constants of a map's entries. */
  function ConstantEntry(key: Ty, val: Ty): Option<nat> {
    var k, v := ConstantSize(key), ConstantSize(val);
    if k.Some? && v.Some? then Some(k.value + v.value) else None
  }

  /** `size_of`, with its shortcuts. The index map's slow path starts its fold from the running total it is then added to. */
  function SizeOf(v: Value, t: Ty): nat
    requires HasType(v, t)
    decreases v
  {
    match t
    case RefTo => 0
    case Leaf(_) => v.bytes
    case BoxOf(inner) => v.shallow + SizeOf(v.content, inner)
    case TupleOf(parts) => SizeOfParts(v, t, |parts|)
    case OptionOf(inner) => if v.Just? then SizeOf(v.content, inner) else 0
    case ResultOf(good, bad) => if v.Good? then SizeOf(v.content, good) else SizeOf(v.content, bad)
    case CellOf(inner) => SizeOf(v.content, inner)
    case LockOf(inner) => SizeOf(v.content, inner)
    case CowOf(inner) => if v.Held? then SizeOf(v.content, inner) else 0
    case SliceOf(elem) =>
      (match ConstantSize(elem)
       case Some(k) => |v.items| * k
       case None => FoldItems(0, v, elem, |v.items|))
    case ListOf(elem) =>
      (match ConstantSize(elem)
       case Some(k) => v.shallow + |v.items| * k
       case None => FoldItems(v.shallow, v, elem, |v.items|))
    case MapOf(key, val) =>
      (match ConstantEntry(key, val)
       case Some(k) => v.shallow + |v.entries| * k
       case None => FoldEntries(v.shallow, v, key, val, |v.entries|))
    case IndexMapOf(key, val) =>
      (match ConstantEntry(key, val)
       case Some(k) => v.shallow + |v.entries| * k
       case None => v.shallow + FoldEntries(v.shallow, v, key, val, |v.entries|))
  }

  function SizeOfParts(v: Value, t: Ty, n: nat): nat
    requires t.TupleOf? && HasType(v, t) && n <= |t.parts|
    decreases v, n
  {
    if n == 0 then 0 else SizeOfParts(v, t, n - 1) + SizeOf(v.items[n - 1], t.parts[n - 1])
  }

  /** The fold over the first `n` elements, from `acc`. */
  function FoldItems(acc: nat, v: Value, elem: Ty, n: nat): nat
    requires v.List? && n <= |v.items| && ItemsHaveType(v, elem)
    decreases v, n
  {
    if n == 0 then acc else FoldItems(acc, v, elem, n - 1) + SizeOf(v.items[n - 1], elem)
  }

  function FoldEntries(acc: nat, v: Value, key: Ty, val: Ty, n: nat): nat
    requires v.Map? && n <= |v.entries| && EntriesHaveType(v, key, val)
    decreases v, n
  {
    if n == 0 then acc else FoldEntries(acc, v, key, val, n - 1) + SizeOfPair(v.entries[n - 1], key, val)
  }

  function SizeOfPair(e: Pair, key: Ty, val: Ty): nat
    requires PairHasType(e, key, val)
    decreases e
  {
    SizeOf(e.key, key) + SizeOf(e.val, val)
  }

  // --- The reference: every heap block of a value, counted once ---

  ghost function Deep(v: Value): nat
    decreases v
  {
    match v
    case Reference => 0
    case Plain(bytes) => bytes
    case Boxed(shallow, content) => shallow + Deep(content)
    case Tuple(items) => DeepItems(v, |items|)
    case Nothing => 0
    case Just(content) => Deep(content)
    case Good(content) => Deep(content)
    case Bad(content) => Deep(content)
    case Held(content) => Deep(content)
    case List(shallow, items) => shallow + DeepItems(v, |items|)
    case Map(shallow, entries) => shallow + DeepEntries(v, |entries|)
  }

  ghost function DeepItems(v: Value, n: nat): nat
    requires (v.Tuple? || v.List?) && n <= |v.items|
    decreases v, n
  {
    if n == 0 then 0 else DeepItems(v, n - 1) + Deep(v.items[n - 1])
  }

  ghost function DeepEntries(v: Value, n: nat): nat
    requires v.Map? && n <= |v.entries|
    decreases v, n
  {
    if n == 0 then 0 else DeepEntries(v, n - 1) + DeepPair(v.entries[n - 1])
  }

  ghost function DeepPair(e: Pair): nat
    decreases e
  {
    Deep(e.key) + Deep(e.val)
  }

  /** A promised constant is the true size of every value of the type. */
  lemma {:induction false} ConstantSizeSound(v: Value, t: Ty)
    requires HasType(v, t) && ConstantSize(t).Some?
    ensures Deep(v) == ConstantSize(t).value
    decreases v
  {
    match t
    case TupleOf(parts) => ConstantPartsSound(v, t, |parts|);
    case OptionOf(inner) => if v.Just? { ConstantSizeSound(v.content, inner); }
    case ResultOf(good, bad) => ConstantSizeSound(v.content, if v.Good? then good else bad);
    case CellOf(inner) => ConstantSizeSound(v.content, inner);
    case _ =>
  }

  lemma {:induction false} ConstantPartsSound(v: Value, t: Ty, n: nat)
    requires t.TupleOf? && HasType(v, t) && n <= |t.parts| && ConstantParts(t, n).Some?
    ensures DeepItems(v, n) == ConstantParts(t, n).value
    decreases v, n
  {
    if n == 0 {
    } else {
      ConstantPartsSound(v, t, n - 1);
      ConstantSizeSound(v.items[n - 1], t.parts[n - 1]);
    }
  }

  /** `n` elements of constant size `k` take `n * k`. */
  lemma {:induction false} ConstantItems(v: Value, elem: Ty, n: nat)
    requires v.List? && n <= |v.items| && ItemsHaveType(v, elem)
    requires ConstantSize(elem).Some?
    ensures DeepItems(v, n) == n * ConstantSize(elem).value
    decreases n
  {
    if n == 0 {
    } else {
      ConstantItems(v, elem, n - 1);
      ConstantSizeSound(v.items[n - 1], elem);
    }
  }

  lemma {:induction false} ConstantEntries(v: Value, key: Ty, val: Ty, n: nat)
    requires v.Map? && n <= |v.entries| && EntriesHaveType(v, key, val)
    requires ConstantEntry(key, val).Some?
    ensures DeepEntries(v, n) == n * ConstantEntry(key, val).value
    decreases n
  {
    if n == 0 {
    } else {
      ConstantEntries(v, key, val, n - 1);
      ConstantPairSound(v.entries[n - 1], key, val);
      var k := ConstantEntry(key, val).value;
      assert n * k == (n - 1) * k + k;
    }
  }

  lemma ConstantPairSound(e: Pair, key: Ty, val: Ty)
    requires PairHasType(e, key, val) && ConstantEntry(key, val).Some?
    ensures DeepPair(e) == ConstantEntry(key, val).value
  {
    ConstantSizeSound(e.key, key);
    ConstantSizeSound(e.val, val);
  }

  // --- The index map counts its own storage twice when it visits its entries ---

  /** The storage of the index maps of a value that are measured entry by entry. */
  ghost function Doubled(v: Value, t: Ty): nat
    requires HasType(v, t)
    decreases v
  {
    match t
    case BoxOf(inner) => Doubled(v.content, inner)
    case TupleOf(parts) => DoubledParts(v, t, |parts|)
    case OptionOf(inner) => if v.Just? then Doubled(v.content, inner) else 0
    case ResultOf(good, bad) => if v.Good? then Doubled(v.content, good) else Doubled(v.content, bad)
    case CellOf(inner) => Doubled(v.content, inner)
    case LockOf(inner) => Doubled(v.content, inner)
    case CowOf(inner) => if v.Held? then Doubled(v.content, inner) else 0
    case SliceOf(elem) => DoubledItems(v, elem, |v.items|)
    case ListOf(elem) => DoubledItems(v, elem, |v.items|)
    case MapOf(key, val) => DoubledEntries(v, key, val, |v.entries|)
    case IndexMapOf(key, val) =>
      (if ConstantEntry(key, val).None? then v.shallow else 0) + DoubledEntries(v, key, val, |v.entries|)
    case _ => 0
  }

  ghost function DoubledParts(v: Value, t: Ty, n: nat): nat
    requires t.TupleOf? && HasType(v, t) && n <= |t.parts|
    decreases v, n
  {
    if n == 0 then 0 else DoubledParts(v, t, n - 1) + Doubled(v.items[n - 1], t.parts[n - 1])
  }

  ghost function DoubledItems(v: Value, elem: Ty, n: nat): nat
    requires v.List? && n <= |v.items| && ItemsHaveType(v, elem)
    decreases v, n
  {
    if n == 0 then 0 else DoubledItems(v, elem, n - 1) + Doubled(v.items[n - 1], elem)
  }

  ghost function DoubledEntries(v: Value, key: Ty, val: Ty, n: nat): nat
    requires v.Map? && n <= |v.entries| && EntriesHaveType(v, key, val)
    decreases v, n
  {
    if n == 0 then 0 else DoubledEntries(v, key, val, n - 1) + DoubledPair(v.entries[n - 1], key, val)
  }

  ghost function DoubledPair(e: Pair, key: Ty, val: Ty): nat
    requires PairHasType(e, key, val)
    decreases e
  {
    Doubled(e.key, key) + Doubled(e.val, val)
  }

  /** No type of constant size contains an index map. */
  lemma {:induction false} ConstantNotDoubled(v: Value, t: Ty)
    requires HasType(v, t) && ConstantSize(t).Some?
    ensures Doubled(v, t) == 0
    decreases v
  {
    match t
    case TupleOf(parts) => ConstantPartsNotDoubled(v, t, |parts|);
    case OptionOf(inner) => if v.Just? { ConstantNotDoubled(v.content, inner); }
    case ResultOf(good, bad) => ConstantNotDoubled(v.content, if v.Good? then good else bad);
    case CellOf(inner) => ConstantNotDoubled(v.content, inner);
    case _ =>
  }

  lemma {:induction false} ConstantPartsNotDoubled(v: Value, t: Ty, n: nat)
    requires t.TupleOf? && HasType(v, t) && n <= |t.parts| && ConstantParts(t, n).Some?
    ensures DoubledParts(v, t, n) == 0
    decreases v, n
  {
    if n == 0 {
    } else {
      ConstantPartsNotDoubled(v, t, n - 1);
      ConstantNotDoubled(v.items[n - 1], t.parts[n - 1]);
    }
  }

  lemma {:induction false} ConstantItemsNotDoubled(v: Value, elem: Ty, n: nat)
    requires v.List? && n <= |v.items| && ItemsHaveType(v, elem)
    requires ConstantSize(elem).Some?
    ensures DoubledItems(v, elem, n) == 0
    decreases n
  {
    if n == 0 {
    } else {
      ConstantItemsNotDoubled(v, elem, n - 1);
      ConstantNotDoubled(v.items[n - 1], elem);
    }
  }

  lemma {:induction false} ConstantEntriesNotDoubled(v: Value, key: Ty, val: Ty, n: nat)
    requires v.Map? && n <= |v.entries| && EntriesHaveType(v, key, val)
    requires ConstantEntry(key, val).Some?
    ensures DoubledEntries(v, key, val, n) == 0
    decreases n
  {
    if n == 0 {
    } else {
      ConstantEntriesNotDoubled(v, key, val, n - 1);
      ConstantPairNotDoubled(v.entries[n - 1], key, val);
    }
  }

  lemma ConstantPairNotDoubled(e: Pair, key: Ty, val: Ty)
    requires PairHasType(e, key, val) && ConstantEntry(key, val).Some?
    ensures DoubledPair(e, key, val) == 0
  {
    ConstantNotDoubled(e.key, key);
    ConstantNotDoubled(e.val, val);
  }

  // --- The measured size ---

  /**
   * For every value of every nested type, with all shortcuts taken, the measured size is the true one plus the
   * storage of the index maps measured entry by entry.
   */
  lemma {:induction false} SizeOfIsDeep(v: Value, t: Ty)
    requires HasType(v, t)
    ensures SizeOf(v, t) == Deep(v) + Doubled(v, t)
    decreases v
  {
    match t
    case RefTo =>
    case Leaf(_) =>
    case BoxOf(inner) => SizeOfIsDeep(v.content, inner);
    case TupleOf(parts) => SizeOfPartsIsDeep(v, t, |parts|);
    case OptionOf(inner) => if v.Just? { SizeOfIsDeep(v.content, inner); }
    case ResultOf(good, bad) => SizeOfIsDeep(v.content, if v.Good? then good else bad);
    case CellOf(inner) => SizeOfIsDeep(v.content, inner);
    case LockOf(inner) => SizeOfIsDeep(v.content, inner);
    case CowOf(inner) => if v.Held? { SizeOfIsDeep(v.content, inner); }
    case SliceOf(elem) => ListIsDeep(v, elem, 0);
    case ListOf(elem) => ListIsDeep(v, elem, v.shallow);
    case MapOf(key, val) => MapIsDeep(v, key, val);
    case IndexMapOf(key, val) => MapIsDeep(v, key, val);
  }

  lemma {:induction false} SizeOfPartsIsDeep(v: Value, t: Ty, n: nat)
    requires t.TupleOf? && HasType(v, t) && n <= |t.parts|
    ensures SizeOfParts(v, t, n) == DeepItems(v, n) + DoubledParts(v, t, n)
    decreases v, n
  {
    if n == 0 {
    } else {
      SizeOfPartsIsDeep(v, t, n - 1);
      SizeOfIsDeep(v.items[n - 1], t.parts[n - 1]);
    }
  }

  /** The multiplication of a list agrees with its fold. */
  lemma ListIsDeep(v: Value, elem: Ty, acc: nat)
    requires v.List? && ItemsHaveType(v, elem)
    ensures match ConstantSize(elem)
      case Some(k) => DeepItems(v, |v.items|) == |v.items| * k && DoubledItems(v, elem, |v.items|) == 0
      case None => FoldItems(acc, v, elem, |v.items|) == acc + DeepItems(v, |v.items|) + DoubledItems(v, elem, |v.items|)
    decreases v, |v.items| + 1
  {
    if ConstantSize(elem).Some? {
      ConstantItems(v, elem, |v.items|);
      ConstantItemsNotDoubled(v, elem, |v.items|);
    } else {
      FoldItemsIsDeep(acc, v, elem, |v.items|);
    }
  }

  lemma {:induction false} FoldItemsIsDeep(acc: nat, v: Value, elem: Ty, n: nat)
    requires v.List? && n <= |v.items| && ItemsHaveType(v, elem)
    ensures FoldItems(acc, v, elem, n) == acc + DeepItems(v, n) + DoubledItems(v, elem, n)
    decreases v, n
  {
    if n == 0 {
    } else {
      FoldItemsIsDeep(acc, v, elem, n - 1);
      SizeOfIsDeep(v.items[n - 1], elem);
    }
  }

  /** The multiplication of a map agrees with its fold. */
  lemma MapIsDeep(v: Value, key: Ty, val: Ty)
    requires v.Map? && EntriesHaveType(v, key, val)
    ensures match ConstantEntry(key, val)
      case Some(k) => DeepEntries(v, |v.entries|) == |v.entries| * k && DoubledEntries(v, key, val, |v.entries|) == 0
      case None => FoldEntries(v.shallow, v, key, val, |v.entries|) == Deep(v) + DoubledEntries(v, key, val, |v.entries|)
    decreases v, |v.entries| + 1
  {
    if ConstantEntry(key, val).Some? {
      ConstantEntries(v, key, val, |v.entries|);
      ConstantEntriesNotDoubled(v, key, val, |v.entries|);
    } else {
      FoldEntriesIsDeep(v.shallow, v, key, val, |v.entries|);
    }
  }

  lemma {:induction false} FoldEntriesIsDeep(acc: nat, v: Value, key: Ty, val: Ty, n: nat)
    requires v.Map? && n <= |v.entries| && EntriesHaveType(v, key, val)
    ensures FoldEntries(acc, v, key, val, n) == acc + DeepEntries(v, n) + DoubledEntries(v, key, val, n)
    decreases v, n
  {
    if n == 0 {
    } else {
      FoldEntriesIsDeep(acc, v, key, val, n - 1);
      SizeOfPairIsDeep(v.entries[n - 1], key, val);
    }
  }

  lemma {:induction false} SizeOfPairIsDeep(e: Pair, key: Ty, val: Ty)
    requires PairHasType(e, key, val)
    ensures SizeOfPair(e, key, val) == DeepPair(e) + DoubledPair(e, key, val)
    decreases e
  {
    SizeOfIsDeep(e.key, key);
    SizeOfIsDeep(e.val, val);
  }

  /** Whenever a type promises `k`, every value of it measures `k`. */
  lemma ConstantSizeMeasured(v: Value, t: Ty)
    requires HasType(v, t) && ConstantSize(t).Some?
    ensures SizeOf(v, t) == ConstantSize(t).value
  {
    ConstantSizeSound(v, t);
    ConstantNotDoubled(v, t);
    SizeOfIsDeep(v, t);
  }

  /**
   * An index map is measured truly exactly when its entries are of constant size or it owns no storage, and no index
   * map inside its entries is measured twice.
   */
  lemma IndexMapExactly(v: Value, key: Ty, val: Ty)
    requires HasType(v, IndexMapOf(key, val))
    ensures SizeOf(v, IndexMapOf(key, val)) == Deep(v) <==>
      (ConstantEntry(key, val).Some? || v.shallow == 0) && DoubledEntries(v, key, val, |v.entries|) == 0
  {
    SizeOfIsDeep(v, IndexMapOf(key, val));
  }

  // --- Which types promise a constant ---

  /** Locks, slices and borrowed-or-owned values never promise one, even where all their values measure the same. */
  predicate Free(t: Ty)
    decreases t
  {
    match t
    case TupleOf(parts) => forall i | 0 <= i < |parts| :: Free(parts[i])
    case OptionOf(inner) => Free(inner)
    case ResultOf(good, bad) => Free(good) && Free(bad)
    case CellOf(inner) => Free(inner)
    case LockOf(_) => false
    case CowOf(_) => false
    case SliceOf(_) => false
    case _ => true
  }

  /** A value of the type. */
  function Sample(t: Ty): Value
    decreases t
  {
    match t
    case RefTo => Reference
    case Leaf(claimed) => Plain(if claimed.Some? then claimed.value else 0)
    case BoxOf(inner) => Boxed(0, Sample(inner))
    case TupleOf(parts) => Tuple(seq(|parts|, i requires 0 <= i < |parts| => Sample(parts[i])))
    case OptionOf(_) => Nothing
    case ResultOf(good, _) => Good(Sample(good))
    case CellOf(inner) => Held(Sample(inner))
    case LockOf(inner) => Held(Sample(inner))
    case CowOf(_) => Reference
    case SliceOf(_) => List(0, [])
    case ListOf(_) => List(0, [])
    case MapOf(_, _) => Map(0, [])
    case IndexMapOf(_, _) => Map(0, [])
  }

  lemma {:induction false} SampleHasType(t: Ty)
    ensures HasType(Sample(t), t)
    decreases t
  {
    match t
    case BoxOf(inner) => SampleHasType(inner);
    case TupleOf(parts) => forall i | 0 <= i < |parts| ensures HasType(Sample(parts[i]), parts[i]) { SampleHasType(parts[i]); }
    case ResultOf(good, _) => SampleHasType(good);
    case CellOf(inner) => SampleHasType(inner);
    case LockOf(inner) => SampleHasType(inner);
    case _ =>
  }

  /** A tuple without a constant has a part without one. */
  lemma {:induction false} VaryingPart(t: Ty, n: nat) returns (i: nat)
    requires t.TupleOf? && n <= |t.parts| && ConstantParts(t, n).None?
    ensures i < n && ConstantSize(t.parts[i]).None?
  {
    if ConstantSize(t.parts[n - 1]).None? {
      i := n - 1;
    } else {
      i := VaryingPart(t, n - 1);
    }
  }

  /** Two tuples that differ in one item differ in size as those items do. */
  lemma {:induction false} OneItemDiffers(xs: seq<Value>, ys: seq<Value>, i: nat, n: nat)
    requires |xs| == |ys| && i < |xs| && n <= |xs| && (forall k | 0 <= k < |xs| && k != i :: xs[k] == ys[k])
    ensures DeepItems(Tuple(xs), n) + (if i < n then Deep(ys[i]) else 0) == DeepItems(Tuple(ys), n) + if i < n then Deep(xs[i]) else 0
  {
    if n == 0 {
    } else {
      OneItemDiffers(xs, ys, i, n - 1);
    }
  }

  lemma {:induction false} TupleVaries(t: Ty) returns (a: Value, b: Value)
    requires t.TupleOf? && Free(t) && ConstantSize(t).None?
    ensures HasType(a, t) && HasType(b, t) && Deep(a) != Deep(b)
    decreases t, 0
  {
    var i := VaryingPart(t, |t.parts|);
    var x, y := Varies(t.parts[i]);
    SampleHasType(t);
    var items := Sample(t).items;
    a, b := Tuple(items[i := x]), Tuple(items[i := y]);
    OneItemDiffers(items[i := x], items[i := y], i, |items|);
  }

  /** Two values of different sizes, of a type that promises no constant. */
  lemma {:induction false} Varies(t: Ty) returns (a: Value, b: Value)
    requires Free(t) && ConstantSize(t).None?
    ensures HasType(a, t) && HasType(b, t) && Deep(a) != Deep(b)
    decreases t, 1
  {
    match t
    case Leaf(_) => a, b := Plain(0), Plain(1);
    case BoxOf(inner) =>
      SampleHasType(inner);
      a, b := Boxed(0, Sample(inner)), Boxed(1, Sample(inner));
    case TupleOf(_) => a, b := TupleVaries(t);
    case OptionOf(inner) =>
      if ConstantSize(inner).None? {
        var x, y := Varies(inner);
        a, b := Just(x), Just(y);
      } else {
        SampleHasType(inner);
        ConstantSizeSound(Sample(inner), inner);
        a, b := Nothing, Just(Sample(inner));
      }
    case ResultOf(good, bad) =>
      if ConstantSize(good).None? {
        var x, y := Varies(good);
        a, b := Good(x), Good(y);
      } else if ConstantSize(bad).None? {
        var x, y := Varies(bad);
        a, b := Bad(x), Bad(y);
      } else {
        SampleHasType(good);
        SampleHasType(bad);
        ConstantSizeSound(Sample(good), good);
        ConstantSizeSound(Sample(bad), bad);
        a, b := Good(Sample(good)), Bad(Sample(bad));
      }
    case CellOf(inner) =>
      var x, y := Varies(inner);
      a, b := Held(x), Held(y);
    case ListOf(_) => a, b := List(0, []), List(1, []);
    case MapOf(_, _) => a, b := Map(0, []), Map(1, []);
    case IndexMapOf(_, _) => a, b := Map(0, []), Map(1, []);
  }

  /** Elsewhere a type promises a constant exactly when all its values have the same size. */
  lemma ConstantExactly(t: Ty)
    requires Free(t)
    ensures ConstantSize(t).Some? <==> forall a, b | HasType(a, t) && HasType(b, t) :: Deep(a) == Deep(b)
  {
    if ConstantSize(t).Some? {
      forall a, b | HasType(a, t) && HasType(b, t) ensures Deep(a) == Deep(b) {
        ConstantSizeSound(a, t);
        ConstantSizeSound(b, t);
      }
    } else {
      var a, b := Varies(t);
    }
  }
}
