/** pynfs/nfs4.1/block.py: a volume is a list of places on disks. The list is built here without any offset
    arithmetic, and resolve is shown to find its entries and extent to go to the next seam. */
module VolumeBytes {
  import opened BlockVolume

  // ----- the list -----

  /** A disk from its start, a piece of a list, lists one after the other, lists unit by unit in turn. */
  function Listing(v: Volume): (places: seq<Location>)
    requires WellFormed(v)
    ensures |places| == Size(v)
    decreases v, 1
  {
    match v
    case Simple(disk, size) => seq(size, i => Location(disk, i))
    case Slice(volume, start, length) => Listing(volume)[start..][..length]
    case Concat(volumes) => Joined(Listings(volumes))
    case Stripe(unit, volumes) =>
      EqualSizes(volumes, Size(volumes[0]));
      Units(unit, |volumes|, Size(volumes[0]));
      InterleavedSize(unit, Size(volumes[0]) / unit, Size(volumes[0]), Listings(volumes));
      Interleaved(unit, Size(volumes[0]), Listings(volumes))
  }

  function Listings(volumes: seq<Volume>): (lists: seq<seq<Location>>)
    requires forall w | w in volumes :: WellFormed(w)
    ensures |lists| == |volumes| && forall k | 0 <= k < |lists| :: |lists[k]| == Size(volumes[k])
    ensures |Joined(lists)| == TotalSize(volumes)
    decreases volumes, 0
  {
    if volumes == [] then [] else [Listing(volumes[0])] + Listings(volumes[1..])
  }

  function Joined<T>(lists: seq<seq<T>>): seq<T> {
    if lists == [] then [] else lists[0] + Joined(lists[1..])
  }

  /** The first unit of every list, then the second of every list, and so on. */
  function Interleaved<T>(unit: nat, size: nat, lists: seq<seq<T>>): seq<T>
    requires unit > 0 && forall l | l in lists :: |l| == size
    decreases size
  {
    if size < unit then []
    else Joined(Heads(unit, lists)) + Interleaved(unit, size - unit, Tails(unit, lists))
  }

  function Heads<T>(unit: nat, lists: seq<seq<T>>): seq<seq<T>>
    requires forall l | l in lists :: |l| >= unit
  {
    seq(|lists|, k requires 0 <= k < |lists| => lists[k][..unit])
  }

  function Tails<T>(unit: nat, lists: seq<seq<T>>): (tails: seq<seq<T>>)
    requires forall l | l in lists :: |l| >= unit
    ensures |tails| == |lists| && forall k | 0 <= k < |lists| :: tails[k] == lists[k][unit..]
  {
    seq(|lists|, k requires 0 <= k < |lists| => lists[k][unit..])
  }

  // ----- what is where -----

  lemma Grid(rows: nat, count: nat, unit: nat)
    requires rows > 0
    ensures rows * count * unit == count * unit + (rows - 1) * count * unit
  {
    var once := count * unit;
    assert rows * count * unit == rows * once && (rows - 1) * count * unit == (rows - 1) * once;
  }

  lemma {:induction false} JoinedEqual<T>(unit: nat, lists: seq<seq<T>>)
    requires forall l | l in lists :: |l| == unit
    ensures |Joined(lists)| == |lists| * unit
  {
    if lists != [] {
      JoinedEqual(unit, lists[1..]);
      Shorter(|lists|, unit);
    }
  }

  lemma JoinedHeads<T>(unit: nat, lists: seq<seq<T>>)
    requires forall l | l in lists :: |l| >= unit
    ensures |Joined(Heads(unit, lists))| == |lists| * unit
  {
    JoinedEqual(unit, Heads(unit, lists));
  }

  /** Lists of one length end to end: entry k of list j. */
  lemma {:induction false} JoinedAt<T>(unit: nat, lists: seq<seq<T>>, j: nat, k: nat)
    requires (forall l | l in lists :: |l| == unit) && j < |lists| && k < unit
    ensures j * unit + k < |Joined(lists)| && Joined(lists)[j * unit + k] == lists[j][k]
  {
    if j > 0 {
      JoinedAt(unit, lists[1..], j - 1, k);
      Shorter(j, unit);
    }
  }

  lemma {:induction false} InterleavedSize<T>(unit: nat, rows: nat, size: nat, lists: seq<seq<T>>)
    requires unit > 0 && size == rows * unit && forall l | l in lists :: |l| == size
    ensures |Interleaved(unit, size, lists)| == rows * |lists| * unit
    decreases rows
  {
    hide Interleaved, Joined;
    if rows == 0 {
      assert size == 0;
      InterleavedNone(unit, size, lists);
    } else {
      Shorter(rows, unit);
      InterleavedStep(unit, size, lists);
      InterleavedSize(unit, rows - 1, size - unit, Tails(unit, lists));
      JoinedHeads(unit, lists);
      Grid(rows, |lists|, unit);
    }
  }

  lemma InterleavedNone<T>(unit: nat, size: nat, lists: seq<seq<T>>)
    requires size < unit && forall l | l in lists :: |l| == size
    ensures Interleaved(unit, size, lists) == []
  {
  }

  lemma Shorter(rows: nat, unit: nat)
    requires rows > 0
    ensures (rows - 1) * unit == rows * unit - unit && rows * unit >= unit
  {
    MulMonotone(1, rows, unit);
  }

  /** The entry `position` of list j is where StripeOffset says. */
  lemma {:induction false} InterleavedAt<T>(unit: nat, size: nat, lists: seq<seq<T>>, j: nat, position: nat)
    requires unit > 0 && (forall l | l in lists :: |l| == size) && size % unit == 0 && j < |lists| && position < size
    ensures StripeOffset(unit, |lists|, j, position) < |Interleaved(unit, size, lists)|
    ensures Interleaved(unit, size, lists)[StripeOffset(unit, |lists|, j, position)] == lists[j][position]
    decreases position
  {
    hide Interleaved, Joined, StripeOffset;
    WholeUnits(unit, size);
    InterleavedStep(unit, size, lists);
    JoinedHeads(unit, lists);
    if position < unit {
      JoinedAt(unit, Heads(unit, lists), j, position);
      OffsetInFirstRow(unit, |lists|, j, position);
    } else {
      InterleavedAt(unit, size - unit, Tails(unit, lists), j, position - unit);
      OffsetInLaterRow(unit, |lists|, j, position);
    }
  }

  lemma WholeUnits(unit: nat, size: nat)
    requires unit > 0 && size > 0 && size % unit == 0
    ensures size >= unit && (size - unit) % unit == 0
  {
    var rows := size / unit;
    Shorter(rows, unit);
    DivMod(rows - 1, 0, unit);
  }

  lemma OffsetInFirstRow(unit: nat, count: nat, j: nat, position: nat)
    requires position < unit && count > 0
    ensures StripeOffset(unit, count, j, position) == j * unit + position
  {
    DivMod(0, position, unit);
  }

  lemma OffsetInLaterRow(unit: nat, count: nat, j: nat, position: nat)
    requires 0 < unit <= position && count > 0
    ensures StripeOffset(unit, count, j, position) == count * unit + StripeOffset(unit, count, j, position - unit)
  {
    var row, rest := position / unit, position % unit;
    if row == 0 {
      assert false;
    }
    Shorter(row, unit);
    DivMod(row - 1, rest, unit);
    assert position - unit == (row - 1) * unit + rest;
    Earlier(row, count, j, unit);
  }

  lemma InterleavedStep<T>(unit: nat, size: nat, lists: seq<seq<T>>)
    requires 0 < unit <= size && forall l | l in lists :: |l| == size
    ensures Interleaved(unit, size, lists)
            == Joined(Heads(unit, lists)) + Interleaved(unit, size - unit, Tails(unit, lists))
  {
  }

  lemma Earlier(row: nat, count: nat, j: nat, unit: nat)
    requires row > 0
    ensures ((row - 1) * count + j) * unit + count * unit == (row * count + j) * unit
  {
    var before := (row - 1) * count + j;
    assert row * count + j == before + count;
    assert (before + count) * unit == before * unit + count * unit;
  }

  lemma {:induction false} ListingsAt(volumes: seq<Volume>, k: nat)
    requires (forall w | w in volumes :: WellFormed(w)) && k < |volumes|
    ensures Listings(volumes)[k] == Listing(volumes[k])
  {
    if k > 0 {
      ListingsAt(volumes[1..], k - 1);
    }
  }

  lemma {:induction false} JoinedPart(volumes: seq<Volume>, k: nat, rest: nat)
    requires (forall w | w in volumes :: WellFormed(w)) && k < |volumes| && rest < Size(volumes[k])
    ensures TotalSize(volumes[..k]) + rest < TotalSize(volumes)
    ensures Joined(Listings(volumes))[TotalSize(volumes[..k]) + rest] == Listing(volumes[k])[rest]
  {
    SplitTotal(volumes, k);
    if k > 0 {
      JoinedPart(volumes[1..], k - 1, rest);
      assert volumes[..k][1..] == volumes[1..][..k - 1];
      assert Listings(volumes)[1..] == Listings(volumes[1..]);
    } else {
      assert volumes[..0] == [];
    }
  }

  // ----- resolve finds the entry -----

  /** resolve tells the entry of the list at the offset. */
  lemma {:induction false} ResolveIsListed(v: Volume, i: nat)
    requires WellFormed(v) && i < Size(v)
    ensures Resolve(v, i) == Ok(Listing(v)[i])
    decreases v
  {
    match v {
      case Simple(_, _) =>
      case Slice(volume, start, _) =>
        ResolveIsListed(volume, start + i);
      case Concat(volumes) =>
        var k, rest := PartOf(volumes, i);
        ResolveIsListed(volumes[k], rest);
        JoinedPart(volumes, k, rest);
      case Stripe(unit, volumes) =>
        EqualSizes(volumes, Size(volumes[0]));
        StripeForward(unit, |volumes|, Size(volumes[0]), i);
        var disk, position := StripeDisk(unit, |volumes|, i), StripePosition(unit, |volumes|, i);
        ResolveIsListed(volumes[disk], position);
        StripeListed(unit, volumes, i, disk, position);
    }
  }

  lemma StripeListed(unit: nat, volumes: seq<Volume>, i: nat, disk: nat, position: nat)
    requires WellFormed(Stripe(unit, volumes)) && disk < |volumes| && position < Size(volumes[0])
    requires i == StripeOffset(unit, |volumes|, disk, position) && i < TotalSize(volumes)
    ensures Listing(Stripe(unit, volumes))[i] == Listing(volumes[disk])[position]
  {
    hide Interleaved, Listing, Listings, StripeOffset;
    ListingsAt(volumes, disk);
    StripeIsInterleaved(unit, volumes);
    InterleavedAt(unit, Size(volumes[0]), Listings(volumes), disk, position);
  }

  lemma StripeIsInterleaved(unit: nat, volumes: seq<Volume>)
    requires WellFormed(Stripe(unit, volumes))
    ensures Listing(Stripe(unit, volumes)) == Interleaved(unit, Size(volumes[0]), Listings(volumes))
  {
  }

  // ----- extent goes to the next seam -----

  /** Where one piece of the volume ends: the end of a disk, a slice, a part or a stripe unit. */
  predicate Seam(v: Volume, i: nat)
    requires WellFormed(v) && i <= Size(v)
    decreases v, 1
  {
    match v
    case Simple(_, size) => i == size
    case Slice(volume, start, length) => i == length || Seam(volume, start + i)
    case Concat(volumes) => SeamOfParts(volumes, i)
    case Stripe(unit, volumes) =>
      EqualSizes(volumes, Size(volumes[0]));
      if i < Size(v) then StripeForward(unit, |volumes|, Size(volumes[0]), i);
        i % unit == 0 || Seam(volumes[StripeDisk(unit, |volumes|, i)], StripePosition(unit, |volumes|, i))
      else true
  }

  predicate SeamOfParts(volumes: seq<Volume>, i: nat)
    requires (forall w | w in volumes :: WellFormed(w)) && i <= TotalSize(volumes)
    decreases volumes, 0
  {
    if volumes == [] then true
    else if i <= Size(volumes[0]) then i == Size(volumes[0]) || Seam(volumes[0], i)
    else SeamOfParts(volumes[1..], i - Size(volumes[0]))
  }

  /** From i the first seam is n further on, or none comes within n, which is the limit. */
  ghost predicate UpToSeam(v: Volume, i: nat, n: nat, limit: nat)
    requires WellFormed(v)
  {
    && 0 < n <= limit && i + n <= Size(v)
    && (n == limit || Seam(v, i + n))
    && forall k: nat | 0 < k < n :: !SeamAfter(v, i, k)
  }

  ghost predicate SeamAfter(v: Volume, i: nat, k: nat)
    requires WellFormed(v) && i + k <= Size(v)
  {
    Seam(v, i + k)
  }

  /** extent never stops before the limit but at a seam, and never crosses one. */
  lemma {:induction false} ExtentEndsAtSeam(v: Volume, i: nat, limit: nat)
    requires WellFormed(v) && i < Size(v) && limit > 0
    ensures Extent(v, i, limit).Ok? && Extent(v, i, limit).value.length > 0
    ensures UpToSeam(v, i, Extent(v, i, limit).value.length, limit)
    decreases v
  {
    ExtentAgreesWithResolve(v, i, limit);
    match v {
      case Simple(_, _) =>
      case Slice(volume, start, length) =>
        ExtentEndsAtSeam(volume, start + i, Min(limit, length - i));
        forall k: nat | 0 < k < Extent(v, i, limit).value.length ensures !SeamAfter(v, i, k) {
          assert !SeamAfter(volume, start + i, k);
        }
      case Concat(volumes) =>
        var k, rest := PartOf(volumes, i);
        ExtentEndsAtSeam(volumes[k], rest, Min(limit, Size(volumes[k]) - rest));
        SeamInPart(volumes, i, k, rest, Extent(v, i, limit).value.length, limit);
      case Stripe(unit, volumes) =>
        EqualSizes(volumes, Size(volumes[0]));
        StripeForward(unit, |volumes|, Size(volumes[0]), i);
        var disk, position := StripeDisk(unit, |volumes|, i), StripePosition(unit, |volumes|, i);
        ExtentEndsAtSeam(volumes[disk], position, Min(limit, unit - i % unit));
        SeamInUnit(unit, volumes, i, disk, position, Extent(v, i, limit).value.length, limit);
    }
  }

  lemma {:induction false} PartsSeam(volumes: seq<Volume>, k: nat, rest: nat)
    requires (forall w | w in volumes :: WellFormed(w)) && k < |volumes| && 0 < rest <= Size(volumes[k])
    ensures TotalSize(volumes[..k]) + rest <= TotalSize(volumes)
    ensures SeamOfParts(volumes, TotalSize(volumes[..k]) + rest)
            == (rest == Size(volumes[k]) || Seam(volumes[k], rest))
  {
    SplitTotal(volumes, k);
    if k > 0 {
      PartsSeam(volumes[1..], k - 1, rest);
      assert volumes[..k][1..] == volumes[1..][..k - 1];
    } else {
      assert volumes[..0] == [];
    }
  }

  lemma SeamInPart(volumes: seq<Volume>, i: nat, k: nat, rest: nat, n: nat, limit: nat)
    requires WellFormed(Concat(volumes)) && k < |volumes| && rest < Size(volumes[k])
    requires i == TotalSize(volumes[..k]) + rest
    requires UpToSeam(volumes[k], rest, n, Min(limit, Size(volumes[k]) - rest))
    ensures UpToSeam(Concat(volumes), i, n, limit)
  {
    PartsSeam(volumes, k, rest + n);
    forall j: nat | 0 < j < n ensures !SeamAfter(Concat(volumes), i, j) {
      PartsSeam(volumes, k, rest + j);
      assert !SeamAfter(volumes[k], rest, j);
    }
  }

  lemma SeamInUnit(unit: nat, volumes: seq<Volume>, i: nat, disk: nat, position: nat, n: nat, limit: nat)
    requires WellFormed(Stripe(unit, volumes)) && i < TotalSize(volumes)
    requires disk < |volumes| && position < Size(volumes[disk])
    requires disk == StripeDisk(unit, |volumes|, i) && position == StripePosition(unit, |volumes|, i)
    requires UpToSeam(volumes[disk], position, n, Min(limit, unit - i % unit))
    ensures UpToSeam(Stripe(unit, volumes), i, n, limit)
  {
    hide Seam, StripeDisk, StripePosition;
    var v, rest := Stripe(unit, volumes), unit - i % unit;
    UnitSeam(unit, volumes, i);
    if n < rest && n != limit {
      InsideUnit(unit, volumes, i, n);
    }
    forall k: nat | 0 < k < n ensures !SeamAfter(v, i, k) {
      InsideUnit(unit, volumes, i, k);
      assert !SeamAfter(volumes[disk], position, k);
    }
  }

  lemma UnitSeam(unit: nat, volumes: seq<Volume>, i: nat)
    requires WellFormed(Stripe(unit, volumes)) && i < TotalSize(volumes)
    ensures i + (unit - i % unit) <= TotalSize(volumes)
    ensures Seam(Stripe(unit, volumes), i + (unit - i % unit))
  {
    hide StripeDisk, StripePosition;
    EqualSizes(volumes, Size(volumes[0]));
    StripeRowEnds(unit, |volumes|, Size(volumes[0]), i);
    var row := i / unit;
    assert i + (unit - i % unit) == (row + 1) * unit + 0;
    DivMod(row + 1, 0, unit);
  }

  lemma InsideUnit(unit: nat, volumes: seq<Volume>, i: nat, k: nat)
    requires WellFormed(Stripe(unit, volumes)) && i < TotalSize(volumes) && 0 < k < unit - i % unit
    ensures i + k < TotalSize(volumes) && 0 <= StripeDisk(unit, |volumes|, i) < |volumes|
    ensures var disk, position := StripeDisk(unit, |volumes|, i), StripePosition(unit, |volumes|, i);
            && 0 <= position && position + k < Size(volumes[disk])
            && Seam(Stripe(unit, volumes), i + k) == Seam(volumes[disk], position + k)
  {
    hide StripeDisk, StripePosition;
    EqualSizes(volumes, Size(volumes[0]));
    StripeRowEnds(unit, |volumes|, Size(volumes[0]), i);
    StripeForward(unit, |volumes|, Size(volumes[0]), i);
    StripeForward(unit, |volumes|, Size(volumes[0]), i + k);
    StripeStep(unit, |volumes|, i, k);
    NotAtStart(unit, i, k);
  }

  lemma NotAtStart(unit: nat, i: nat, k: nat)
    requires unit > 0 && 0 < k < unit - i % unit
    ensures (i + k) % unit != 0
  {
    var row, rest := i / unit, i % unit;
    assert i + k == row * unit + (rest + k);
    DivMod(row, rest + k, unit);
  }
}
