/** pynfs/nfs4.1/block.py: trees of Simple, Slice, Concat and Stripe volumes, and the map from a logical
    byte offset to a disk and an offset on it. */
module BlockVolume {

  datatype Volume =
    | Simple(disk: nat, size: nat)
    | Slice(volume: Volume, start: nat, length: nat)
    | Concat(volumes: seq<Volume>)
    | Stripe(unit: nat, volumes: seq<Volume>)

  datatype Result<+T> = Ok(value: T) | ValueError | RuntimeError | ZeroDivisionError

  datatype Location = Location(disk: nat, offset: int)

  /** A location, and for how many bytes the mapping goes on from there. */
  datatype Stretch = Stretch(at: Location, length: int)

  function Size(v: Volume): nat
    decreases v, 1
  {
    match v
    case Simple(_, size) => size
    case Slice(_, _, length) => length
    case Concat(volumes) => TotalSize(volumes)
    case Stripe(_, volumes) => TotalSize(volumes)
  }

  function TotalSize(volumes: seq<Volume>): nat
    decreases volumes, 0
  {
    if volumes == [] then 0 else Size(volumes[0]) + TotalSize(volumes[1..])
  }

  function Min(a: int, b: int): int {
    if a <= b then a else b
  }

  // ----- resolve and extent, as the classes define them -----

  function StripeDisk(unit: nat, count: nat, i: int): int
    requires unit > 0 && count > 0
  {
    (i / unit) % count
  }

  function StripePosition(unit: nat, count: nat, i: int): int
    requires unit > 0 && count > 0
  {
    (i / unit) / count * unit + i % unit
  }

  function Resolve(v: Volume, i: int): Result<Location>
    decreases v, 1
  {
    if i < 0 || i >= Size(v) then ValueError
    else
      match v
      case Simple(disk, _) => Ok(Location(disk, i))
      case Slice(volume, start, _) => Resolve(volume, start + i)
      case Concat(volumes) => ResolveConcat(volumes, i)
      case Stripe(unit, volumes) =>
        if unit == 0 || volumes == [] then ZeroDivisionError
        else Resolve(volumes[StripeDisk(unit, |volumes|, i)], StripePosition(unit, |volumes|, i))
  }

  /** The loop over the parts of a Concat. */
  function ResolveConcat(volumes: seq<Volume>, i: int): Result<Location>
    decreases volumes, 0
  {
    if volumes == [] then RuntimeError
    else if i < Size(volumes[0]) then Resolve(volumes[0], i)
    else ResolveConcat(volumes[1..], i - Size(volumes[0]))
  }

  /** Unlike resolve, extent does not check its offset. */
  function Extent(v: Volume, i: int, limit: int): Result<Stretch>
    decreases v, 1
  {
    match v
    case Simple(disk, size) => Ok(Stretch(Location(disk, i), Min(limit, size - i)))
    case Slice(volume, start, length) => Extent(volume, start + i, Min(limit, length - i))
    case Concat(volumes) => ExtentConcat(volumes, i, limit)
    case Stripe(unit, volumes) =>
      if unit == 0 || volumes == [] then ZeroDivisionError
      else Extent(volumes[StripeDisk(unit, |volumes|, i)], StripePosition(unit, |volumes|, i), Min(limit, unit - i % unit))
  }

  function ExtentConcat(volumes: seq<Volume>, i: int, limit: int): Result<Stretch>
    decreases volumes, 0
  {
    if volumes == [] then RuntimeError
    else if i < Size(volumes[0]) then Extent(volumes[0], i, Min(limit, Size(volumes[0]) - i))
    else ExtentConcat(volumes[1..], i - Size(volumes[0]), limit)
  }

  // ----- well-formed trees -----

  /** Slices lie inside their volume; stripe members are equal and whole numbers of stripe units. */
  predicate WellFormed(v: Volume) {
    match v
    case Simple(_, _) => true
    case Slice(volume, start, length) => WellFormed(volume) && start + length <= Size(volume)
    case Concat(volumes) => forall w | w in volumes :: WellFormed(w)
    case Stripe(unit, volumes) =>
      && unit > 0 && volumes != []
      && forall w | w in volumes :: WellFormed(w) && Size(w) == Size(volumes[0]) && Size(w) % unit == 0
  }

  lemma {:induction false} EqualSizes(volumes: seq<Volume>, size: nat)
    requires forall w | w in volumes :: Size(w) == size
    ensures TotalSize(volumes) == |volumes| * size
  {
    if volumes != [] {
      EqualSizes(volumes[1..], size);
      assert (|volumes| - 1) * size + size == |volumes| * size;
    }
  }

  // ----- the arithmetic of striping -----

  /** The logical offset of byte `position` of member `disk`. */
  function StripeOffset(unit: nat, count: nat, disk: nat, position: nat): nat
    requires unit > 0 && count > 0
  {
    (position / unit * count + disk) * unit + position % unit
  }

  lemma MulMonotone(a: int, b: int, m: nat)
    requires a <= b
    ensures a * m <= b * m
  {
  }

  lemma DivMod(q: int, r: int, m: nat)
    requires 0 <= r < m
    ensures (q * m + r) / m == q && (q * m + r) % m == r
  {
    var x := q * m + r;
    assert x == (x / m) * m + x % m;
    if x / m > q {
      MulMonotone(q + 1, x / m, m);
    } else if x / m < q {
      MulMonotone(x / m, q - 1, m);
    }
  }

  lemma QuotientBelow(x: nat, m: nat, rows: nat)
    requires m > 0 && x < rows * m
    ensures x / m < rows
  {
    if x / m >= rows {
      MulMonotone(rows, x / m, m);
    }
  }

  /** Row by row and column by column: a place in a grid has a number below the product. */
  lemma PlaceBelow(row: nat, column: nat, rows: nat, columns: nat)
    requires row < rows && column < columns
    ensures row * columns + column < rows * columns
  {
    MulMonotone(row + 1, rows, columns);
  }

  lemma Units(unit: nat, count: nat, size: nat)
    requires unit > 0 && size % unit == 0
    ensures size == size / unit * unit
    ensures count * size == size / unit * count * unit
  {
    var rows := size / unit;
    assert count * (rows * unit) == rows * count * unit;
  }

  /** Striping sends an offset inside the volume to a place inside a member, and can be undone. */
  lemma StripeForward(unit: nat, count: nat, size: nat, i: nat)
    requires unit > 0 && count > 0 && size % unit == 0 && i < count * size
    ensures 0 <= StripeDisk(unit, count, i) < count
    ensures 0 <= StripePosition(unit, count, i) < size
    ensures StripeOffset(unit, count, StripeDisk(unit, count, i), StripePosition(unit, count, i)) == i
  {
    StripeUndone(unit, count, i);
    var g, rest, rows := i / unit, i % unit, size / unit;
    Units(unit, count, size);
    QuotientBelow(i, unit, rows * count);
    QuotientBelow(g, count, rows);
    PlaceBelow(g / count, rest, rows, unit);
  }

  lemma StripeUndone(unit: nat, count: nat, i: nat)
    requires unit > 0 && count > 0
    ensures StripePosition(unit, count, i) >= 0 && StripeDisk(unit, count, i) >= 0
    ensures StripeOffset(unit, count, StripeDisk(unit, count, i), StripePosition(unit, count, i)) == i
  {
    var g, rest := i / unit, i % unit;
    var row, disk := g / count, g % count;
    assert i == g * unit + rest && g == row * count + disk;
    MulMonotone(0, row, unit);
    DivMod(row, rest, unit);
  }

  /** Every place inside a member is reached from exactly the offset StripeOffset names. */
  lemma StripeBackward(unit: nat, count: nat, size: nat, disk: nat, position: nat)
    requires unit > 0 && count > 0 && size % unit == 0 && disk < count && position < size
    ensures StripeOffset(unit, count, disk, position) < count * size
    ensures StripeDisk(unit, count, StripeOffset(unit, count, disk, position)) == disk
    ensures StripePosition(unit, count, StripeOffset(unit, count, disk, position)) == position
  {
    var l, rest, rows := position / unit, position % unit, size / unit;
    var g := l * count + disk;
    Units(unit, count, size);
    QuotientBelow(position, unit, rows);
    PlaceBelow(l, disk, rows, count);
    PlaceBelow(g, rest, rows * count, unit);
    DivMod(g, rest, unit);
    DivMod(l, disk, count);
  }

  /** Inside one stripe unit, offsets and positions go up together on one member. */
  lemma StripeStep(unit: nat, count: nat, i: nat, k: nat)
    requires unit > 0 && count > 0 && k < unit - i % unit
    ensures StripeDisk(unit, count, i + k) == StripeDisk(unit, count, i)
    ensures StripePosition(unit, count, i + k) == StripePosition(unit, count, i) + k
  {
    DivMod(i / unit, i % unit + k, unit);
    assert i + k == (i / unit) * unit + (i % unit + k);
  }

  // ----- a Concat is its parts laid end to end -----

  lemma {:induction false} SplitTotal(volumes: seq<Volume>, k: nat)
    requires k < |volumes|
    ensures TotalSize(volumes[..k + 1]) == TotalSize(volumes[..k]) + Size(volumes[k])
    ensures TotalSize(volumes[..k + 1]) <= TotalSize(volumes)
  {
    if k > 0 {
      SplitTotal(volumes[1..], k - 1);
      assert volumes[..k][1..] == volumes[1..][..k - 1];
      assert volumes[..k + 1][1..] == volumes[1..][..k];
    } else {
      assert volumes[..1][1..] == [] && volumes[..0] == [];
    }
  }

  /** The part an offset falls in, and the offset inside it. */
  lemma {:induction false} PartOf(volumes: seq<Volume>, i: nat) returns (k: nat, rest: nat)
    requires i < TotalSize(volumes)
    ensures k < |volumes| && rest < Size(volumes[k]) && i == TotalSize(volumes[..k]) + rest
    ensures ResolveConcat(volumes, i) == Resolve(volumes[k], rest)
    ensures forall limit :: ExtentConcat(volumes, i, limit) == Extent(volumes[k], rest, Min(limit, Size(volumes[k]) - rest))
  {
    if i < Size(volumes[0]) {
      k, rest := 0, i;
      assert volumes[..0] == [];
    } else {
      k, rest := PartOf(volumes[1..], i - Size(volumes[0]));
      assert volumes[..k + 1][1..] == volumes[1..][..k];
      assert volumes[1..][k] == volumes[k + 1];
      k := k + 1;
    }
  }

  /** Offsets that fall in the same part are resolved there. */
  lemma {:induction false} InPart(volumes: seq<Volume>, k: nat, rest: nat)
    requires k < |volumes| && rest < Size(volumes[k])
    ensures TotalSize(volumes[..k]) + rest < TotalSize(volumes)
    ensures ResolveConcat(volumes, TotalSize(volumes[..k]) + rest) == Resolve(volumes[k], rest)
  {
    SplitTotal(volumes, k);
    if k > 0 {
      InPart(volumes[1..], k - 1, rest);
      assert volumes[..k][1..] == volumes[1..][..k - 1];
    }
  }

  // ----- resolve is total on well-formed volumes -----

  /** Every Simple volume of the tree is on a disk that is large enough; the disk may be larger. */
  predicate OnDisks(v: Volume, sizes: map<nat, nat>) {
    match v
    case Simple(disk, size) => disk in sizes && size <= sizes[disk]
    case Slice(volume, _, _) => OnDisks(volume, sizes)
    case Concat(volumes) => forall w | w in volumes :: OnDisks(w, sizes)
    case Stripe(_, volumes) => forall w | w in volumes :: OnDisks(w, sizes)
  }

  /** An offset inside a well-formed volume reaches a byte inside a disk; any other raises ValueError. */
  lemma {:induction false} ResolveReachesDisk(v: Volume, sizes: map<nat, nat>, i: int)
    requires WellFormed(v) && OnDisks(v, sizes)
    ensures Resolve(v, i).Ok? <==> 0 <= i < Size(v)
    ensures !Resolve(v, i).Ok? ==> Resolve(v, i).ValueError?
    ensures Resolve(v, i).Ok? ==> Resolve(v, i).value.disk in sizes
                                  && 0 <= Resolve(v, i).value.offset < sizes[Resolve(v, i).value.disk]
    decreases v
  {
    if 0 <= i < Size(v) {
      match v {
        case Simple(_, _) =>
        case Slice(volume, start, _) =>
          ResolveReachesDisk(volume, sizes, start + i);
        case Concat(volumes) =>
          var k, rest := PartOf(volumes, i);
          ResolveReachesDisk(volumes[k], sizes, rest);
        case Stripe(unit, volumes) =>
          EqualSizes(volumes, Size(volumes[0]));
          StripeForward(unit, |volumes|, Size(volumes[0]), i);
          ResolveReachesDisk(volumes[StripeDisk(unit, |volumes|, i)], sizes, StripePosition(unit, |volumes|, i));
      }
    }
  }

  // ----- extent agrees with resolve -----

  /** The byte k past offset i is k past the place `at`. */
  ghost predicate MapsTo(v: Volume, i: int, k: int, at: Location) {
    Resolve(v, i + k) == Ok(Location(at.disk, at.offset + k))
  }

  /** e describes v from i on: at least one byte, at most limit, one disk, consecutive offsets. */
  ghost predicate Describes(e: Result<Stretch>, v: Volume, i: int, limit: int) {
    && e.Ok? && 0 < e.value.length <= limit && i + e.value.length <= Size(v)
    && forall k | 0 <= k < e.value.length :: MapsTo(v, i, k, e.value.at)
  }

  /** If v resolves a run of offsets the way w does, a description of w there describes v. */
  lemma DescribesPart(e: Result<Stretch>, v: Volume, i: int, limit: int, w: Volume, j: int, limit': int)
    requires Describes(e, w, j, limit') && limit' <= limit && i + e.value.length <= Size(v)
    requires forall k | 0 <= k < e.value.length :: SamePlace(v, i, w, j, k)
    ensures Describes(e, v, i, limit)
  {
    forall k | 0 <= k < e.value.length ensures MapsTo(v, i, k, e.value.at) {
      assert SamePlace(v, i, w, j, k) && MapsTo(w, j, k, e.value.at);
    }
  }

  ghost predicate SamePlace(v: Volume, i: int, w: Volume, j: int, k: int) {
    Resolve(v, i + k) == Resolve(w, j + k)
  }

  lemma {:induction false} ExtentAgreesWithResolve(v: Volume, i: nat, limit: nat)
    requires WellFormed(v) && i < Size(v) && limit > 0
    ensures Describes(Extent(v, i, limit), v, i, limit)
    decreases v
  {
    hide Describes, SamePlace;
    match v {
      case Simple(_, _) =>
        SimpleExtent(v, i, limit);
      case Slice(volume, start, length) =>
        ExtentAgreesWithResolve(volume, start + i, Min(limit, length - i));
        SliceExtent(v, i, limit);
      case Concat(volumes) =>
        var part, rest := PartOf(volumes, i);
        ExtentAgreesWithResolve(volumes[part], rest, Min(limit, Size(volumes[part]) - rest));
        ConcatExtent(volumes, i, limit, part, rest);
      case Stripe(unit, volumes) =>
        EqualSizes(volumes, Size(volumes[0]));
        StripeForward(unit, |volumes|, Size(volumes[0]), i);
        var disk, position := StripeDisk(unit, |volumes|, i), StripePosition(unit, |volumes|, i);
        ExtentAgreesWithResolve(volumes[disk], position, Min(limit, unit - i % unit));
        StripeExtent(unit, volumes, i, limit, disk, position);
    }
  }

  lemma SimpleExtent(v: Volume, i: nat, limit: nat)
    requires v.Simple? && i < v.size && limit > 0
    ensures Describes(Extent(v, i, limit), v, i, limit)
  {
  }

  lemma SliceExtent(v: Volume, i: nat, limit: nat)
    requires v.Slice? && WellFormed(v) && i < v.length && limit > 0
    requires Describes(Extent(v, i, limit), v.volume, v.start + i, Min(limit, v.length - i))
    ensures Describes(Extent(v, i, limit), v, i, limit)
  {
    var j := v.start + i;
    forall k | 0 <= k < Extent(v, i, limit).value.length ensures SamePlace(v, i, v.volume, j, k) {
      assert v.start + (i + k) == j + k;
    }
    DescribesPart(Extent(v, i, limit), v, i, limit, v.volume, j, Min(limit, v.length - i));
  }

  lemma ConcatExtent(volumes: seq<Volume>, i: nat, limit: nat, part: nat, rest: nat)
    requires part < |volumes| && rest < Size(volumes[part]) && i == TotalSize(volumes[..part]) + rest
    requires ExtentConcat(volumes, i, limit) == Extent(volumes[part], rest, Min(limit, Size(volumes[part]) - rest))
    requires Describes(ExtentConcat(volumes, i, limit), volumes[part], rest, Min(limit, Size(volumes[part]) - rest))
    ensures Describes(Extent(Concat(volumes), i, limit), Concat(volumes), i, limit)
  {
    var e := ExtentConcat(volumes, i, limit);
    SplitTotal(volumes, part);
    forall k | 0 <= k < e.value.length ensures SamePlace(Concat(volumes), i, volumes[part], rest, k) {
      InPart(volumes, part, rest + k);
      assert TotalSize(volumes[..part]) + (rest + k) == i + k;
    }
    DescribesPart(e, Concat(volumes), i, limit, volumes[part], rest, Min(limit, Size(volumes[part]) - rest));
  }

  lemma StripeExtent(unit: nat, volumes: seq<Volume>, i: nat, limit: nat, disk: nat, position: nat)
    requires WellFormed(Stripe(unit, volumes)) && i < TotalSize(volumes)
    requires TotalSize(volumes) == |volumes| * Size(volumes[0]) && disk < |volumes|
    requires disk == StripeDisk(unit, |volumes|, i) && position == StripePosition(unit, |volumes|, i)
    requires Describes(Extent(volumes[disk], position, Min(limit, unit - i % unit)), volumes[disk], position,
                       Min(limit, unit - i % unit))
    ensures Describes(Extent(Stripe(unit, volumes), i, limit), Stripe(unit, volumes), i, limit)
  {
    var v := Stripe(unit, volumes);
    var e := Extent(v, i, limit);
    StripeRowEnds(unit, |volumes|, Size(volumes[0]), i);
    forall k | 0 <= k < e.value.length ensures SamePlace(v, i, volumes[disk], position, k) {
      StripeStep(unit, |volumes|, i, k);
    }
    DescribesPart(e, v, i, limit, volumes[disk], position, Min(limit, unit - i % unit));
  }

  /** A stripe unit that starts inside the volume ends inside it. */
  lemma StripeRowEnds(unit: nat, count: nat, size: nat, i: nat)
    requires unit > 0 && count > 0 && size % unit == 0 && i < count * size
    ensures i + (unit - i % unit) <= count * size
  {
    Units(unit, count, size);
    QuotientBelow(i, unit, size / unit * count);
    MulMonotone(i / unit + 1, size / unit * count, unit);
  }

  // ----- extent at the end of a volume -----

  /** Which volumes raise RuntimeError when they are asked for the extent at their very end. */
  predicate RaisesAtEnd(v: Volume) {
    match v
    case Simple(_, _) => false
    case Slice(volume, start, length) => start + length == Size(volume) && RaisesAtEnd(volume)
    case Concat(_) => true
    case Stripe(_, volumes) => volumes != [] && RaisesAtEnd(volumes[0])
  }

  /** At the end of a well-formed volume, or for a limit of 0 anywhere inside, there is no byte to map: extent
      returns an empty stretch or raises. */
  lemma {:induction false} NothingAtTheEnd(v: Volume, i: nat, limit: nat)
    requires WellFormed(v) && i <= Size(v) && (limit == 0 || i == Size(v))
    ensures if i == Size(v) && RaisesAtEnd(v) then Extent(v, i, limit) == RuntimeError
            else Extent(v, i, limit).Ok? && Extent(v, i, limit).value.length == 0
    decreases v
  {
    match v {
      case Simple(_, _) =>
      case Slice(volume, start, length) =>
        NothingAtTheEnd(volume, start + i, Min(limit, length - i));
      case Concat(volumes) =>
        if i < TotalSize(volumes) {
          var k, rest := PartOf(volumes, i);
          NothingAtTheEnd(volumes[k], rest, Min(limit, Size(volumes[k]) - rest));
        } else {
          ConcatRunsOut(volumes, i, limit);
        }
      case Stripe(unit, volumes) =>
        var size := Size(volumes[0]);
        EqualSizes(volumes, size);
        if i < TotalSize(volumes) {
          StripeForward(unit, |volumes|, size, i);
        } else {
          StripeEnd(unit, |volumes|, size);
        }
        var disk, position := StripeDisk(unit, |volumes|, i), StripePosition(unit, |volumes|, i);
        NothingAtTheEnd(volumes[disk], position, Min(limit, unit - i % unit));
    }
  }

  lemma {:induction false} ConcatRunsOut(volumes: seq<Volume>, i: nat, limit: nat)
    requires i >= TotalSize(volumes)
    ensures ExtentConcat(volumes, i, limit) == RuntimeError
    decreases |volumes|
  {
    if volumes != [] {
      ConcatRunsOut(volumes[1..], i - Size(volumes[0]), limit);
    }
  }

  /** The end of a stripe is the end of its first member. */
  lemma StripeEnd(unit: nat, count: nat, size: nat)
    requires unit > 0 && count > 0 && size % unit == 0
    ensures StripeDisk(unit, count, count * size) == 0 && StripePosition(unit, count, count * size) == size
  {
    var rows := size / unit;
    Units(unit, count, size);
    DivMod(rows * count, 0, unit);
    DivMod(rows, 0, count);
  }

  // ----- injectivity -----

  ghost predicate Reaches(v: Volume, at: Location) {
    exists i :: 0 <= i < Size(v) && Resolve(v, i) == Ok(at)
  }

  ghost predicate Disjoint(v: Volume, w: Volume) {
    forall at :: !(Reaches(v, at) && Reaches(w, at))
  }

  ghost predicate PairwiseDisjoint(volumes: seq<Volume>) {
    forall j, k | 0 <= j < k < |volumes| :: Disjoint(volumes[j], volumes[k])
  }

  /** No byte of a disk is used by two parts of the tree. */
  ghost predicate AliasFree(v: Volume) {
    match v
    case Simple(_, _) => true
    case Slice(volume, _, _) => AliasFree(volume)
    case Concat(volumes) => PairwiseDisjoint(volumes) && forall w | w in volumes :: AliasFree(w)
    case Stripe(_, volumes) => PairwiseDisjoint(volumes) && forall w | w in volumes :: AliasFree(w)
  }

  lemma ReachedFromBoth(volumes: seq<Volume>, j: nat, k: nat, a: nat, b: nat)
    requires PairwiseDisjoint(volumes) && j < |volumes| && k < |volumes| && j != k
    requires a < Size(volumes[j]) && b < Size(volumes[k]) && Resolve(volumes[j], a).Ok?
    ensures Resolve(volumes[j], a) != Resolve(volumes[k], b)
  {
    var at := Resolve(volumes[j], a).value;
    assert Disjoint(if j < k then volumes[j] else volumes[k], if j < k then volumes[k] else volumes[j]);
    assert Reaches(volumes[j], at);
    assert Resolve(volumes[k], b) == Ok(at) ==> Reaches(volumes[k], at);
  }

  /** Two offsets of an alias-free volume never reach the same byte of a disk. */
  lemma {:induction false} ResolveInjective(v: Volume, i: nat, j: nat)
    requires WellFormed(v) && AliasFree(v) && i < Size(v) && j < Size(v) && i != j
    ensures Resolve(v, i).Ok? && Resolve(v, i) != Resolve(v, j)
    decreases v
  {
    ResolvesInside(v, i);
    ResolvesInside(v, j);
    match v {
      case Simple(_, _) =>
      case Slice(volume, start, _) =>
        ResolveInjective(volume, start + i, start + j);
      case Concat(volumes) =>
        var a, x := PartOf(volumes, i);
        var b, y := PartOf(volumes, j);
        ResolvesInside(volumes[a], x);
        if a == b {
          ResolveInjective(volumes[a], x, y);
        } else {
          ReachedFromBoth(volumes, a, b, x, y);
        }
      case Stripe(unit, volumes) =>
        var count, size := |volumes|, Size(volumes[0]);
        EqualSizes(volumes, size);
        StripeForward(unit, count, size, i);
        StripeForward(unit, count, size, j);
        var a, x := StripeDisk(unit, count, i), StripePosition(unit, count, i);
        var b, y := StripeDisk(unit, count, j), StripePosition(unit, count, j);
        ResolvesInside(volumes[a], x);
        if a == b {
          ResolveInjective(volumes[a], x, y);
        } else {
          ReachedFromBoth(volumes, a, b, x, y);
        }
    }
  }

  lemma ResolvesInside(v: Volume, i: nat)
    requires WellFormed(v) && i < Size(v)
    ensures Resolve(v, i).Ok?
  {
    ExtentAgreesWithResolve(v, i, 1);
    assert MapsTo(v, i, 0, Extent(v, i, 1).value.at);
  }

  // ----- a check that makes a volume alias-free -----

  function Disks(v: Volume): set<nat> {
    match v
    case Simple(disk, _) => {disk}
    case Slice(volume, _, _) => Disks(volume)
    case Concat(volumes) => set w, d | w in volumes && d in Disks(w) :: d
    case Stripe(_, volumes) => set w, d | w in volumes && d in Disks(w) :: d
  }

  predicate SeparateDisks(v: Volume) {
    match v
    case Simple(_, _) => true
    case Slice(volume, _, _) => SeparateDisks(volume)
    case Concat(volumes) => Separate(volumes) && forall w | w in volumes :: SeparateDisks(w)
    case Stripe(_, volumes) => Separate(volumes) && forall w | w in volumes :: SeparateDisks(w)
  }

  predicate Separate(volumes: seq<Volume>) {
    forall j, k | 0 <= j < k < |volumes| :: Disks(volumes[j]) !! Disks(volumes[k])
  }

  lemma {:induction false} ReachesOwnDisk(v: Volume, i: nat)
    requires WellFormed(v) && i < Size(v)
    ensures Resolve(v, i).Ok? && Resolve(v, i).value.disk in Disks(v)
    decreases v
  {
    ResolvesInside(v, i);
    match v {
      case Simple(_, _) =>
      case Slice(volume, start, _) =>
        ReachesOwnDisk(volume, start + i);
      case Concat(volumes) =>
        var k, rest := PartOf(volumes, i);
        ReachesOwnDisk(volumes[k], rest);
      case Stripe(unit, volumes) =>
        EqualSizes(volumes, Size(volumes[0]));
        StripeForward(unit, |volumes|, Size(volumes[0]), i);
        ReachesOwnDisk(volumes[StripeDisk(unit, |volumes|, i)], StripePosition(unit, |volumes|, i));
    }
  }

  /** A volume whose parts are on different disks is alias-free. */
  lemma {:induction false} SeparateDisksAliasFree(v: Volume)
    requires WellFormed(v) && SeparateDisks(v)
    ensures AliasFree(v)
    decreases v
  {
    match v {
      case Simple(_, _) =>
      case Slice(volume, _, _) => SeparateDisksAliasFree(volume);
      case Concat(volumes) =>
        SeparateDisjoint(volumes);
        forall w | w in volumes ensures AliasFree(w) {
          SeparateDisksAliasFree(w);
        }
      case Stripe(_, volumes) =>
        SeparateDisjoint(volumes);
        forall w | w in volumes ensures AliasFree(w) {
          SeparateDisksAliasFree(w);
        }
    }
  }

  lemma SeparateDisjoint(volumes: seq<Volume>)
    requires Separate(volumes) && forall w | w in volumes :: WellFormed(w)
    ensures PairwiseDisjoint(volumes)
  {
    forall j, k, at | 0 <= j < k < |volumes| && Reaches(volumes[j], at) ensures !Reaches(volumes[k], at) {
      var i :| 0 <= i < Size(volumes[j]) && Resolve(volumes[j], i) == Ok(at);
      ReachesOwnDisk(volumes[j], i);
      if Reaches(volumes[k], at) {
        var i' :| 0 <= i' < Size(volumes[k]) && Resolve(volumes[k], i') == Ok(at);
        ReachesOwnDisk(volumes[k], i');
      }
    }
  }

  // ----- the loops of Concat -----

  method ResolveInConcat(volumes: seq<Volume>, i: nat) returns (r: Result<Location>)
    requires i < TotalSize(volumes)
    ensures r == ResolveConcat(volumes, i) && r == Resolve(Concat(volumes), i)
  {
    var sum := 0;
    for k := 0 to |volumes|
      invariant sum <= i && ResolveConcat(volumes, i) == ResolveConcat(volumes[k..], i - sum)
    {
      var next := sum + Size(volumes[k]);
      if i < next {
        return Resolve(volumes[k], i - sum);
      }
      sum := next;
    }
    return RuntimeError;
  }

  method ExtentInConcat(volumes: seq<Volume>, i: nat, limit: int) returns (r: Result<Stretch>)
    ensures r == Extent(Concat(volumes), i, limit)
    ensures r.RuntimeError? || i < TotalSize(volumes)
  {
    var sum := 0;
    for k := 0 to |volumes|
      invariant sum <= i && ExtentConcat(volumes, i, limit) == ExtentConcat(volumes[k..], i - sum, limit)
      invariant i - sum < TotalSize(volumes[k..]) ==> i < TotalSize(volumes)
    {
      var next := sum + Size(volumes[k]);
      if i < next {
        return Extent(volumes[k], i - sum, Min(limit, next - i));
      }
      sum := next;
    }
    return RuntimeError;
  }
}
