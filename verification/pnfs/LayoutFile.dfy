/** pynfs/nfs4.1/fs_base.py over a block volume: seek, read and write through extents are those of one
    flat array of bytes. */
module LayoutFile {
  import opened BlockVolume
  import opened WriteLoop

  type Byte = bv8

  /** What is on each disk. */
  type Contents = map<nat, seq<Byte>>

  function Sizes(c: Contents): map<nat, nat> {
    map d | d in c :: |c[d]|
  }

  /** An alias-free volume whose disks are there and of the right sizes. */
  ghost predicate Backed(v: Volume, c: Contents) {
    WellFormed(v) && AliasFree(v) && OnDisks(v, Sizes(c))
  }

  lemma PlaceOnDisk(v: Volume, c: Contents, i: nat)
    requires Backed(v, c) && i < Size(v)
    ensures Resolve(v, i).Ok? && Resolve(v, i).value.disk in c
    ensures 0 <= Resolve(v, i).value.offset < |c[Resolve(v, i).value.disk]|
  {
    ResolveReachesDisk(v, Sizes(c), i);
  }

  ghost function ByteAt(v: Volume, c: Contents, i: nat): Byte
    requires Backed(v, c) && i < Size(v)
  {
    PlaceOnDisk(v, c, i);
    c[Resolve(v, i).value.disk][Resolve(v, i).value.offset]
  }

  /** The flat array the volume stands for. */
  ghost function Flat(v: Volume, c: Contents): (bytes: seq<Byte>)
    requires Backed(v, c)
    ensures |bytes| == Size(v)
  {
    seq(Size(v), i requires 0 <= i < Size(v) => ByteAt(v, c, i))
  }

  /** Put data at a place of one disk. */
  function Store(c: Contents, at: Location, data: seq<Byte>): Contents
    requires at.disk in c && 0 <= at.offset && at.offset + |data| <= |c[at.disk]|
  {
    c[at.disk := c[at.disk][..at.offset] + data + c[at.disk][at.offset + |data|..]]
  }

  /** A stretch that extent returns lies on its disk. */
  lemma StretchOnDisk(v: Volume, c: Contents, i: nat, limit: nat)
    requires Backed(v, c) && i < Size(v) && limit > 0
    ensures var e := Extent(v, i, limit);
            && Describes(e, v, i, limit)
            && e.value.at.disk in c && 0 <= e.value.at.offset
            && e.value.at.offset + e.value.length <= |c[e.value.at.disk]|
  {
    ExtentAgreesWithResolve(v, i, limit);
    var e := Extent(v, i, limit);
    assert MapsTo(v, i, 0, e.value.at) && MapsTo(v, i, e.value.length - 1, e.value.at);
    PlaceOnDisk(v, c, i);
    PlaceOnDisk(v, c, i + (e.value.length - 1));
  }

  /** The bytes of the stretch on the disk are the bytes of the flat array from i on. */
  lemma StretchIsFlat(v: Volume, c: Contents, i: nat, limit: nat, n: nat)
    requires Backed(v, c) && i < Size(v) && limit > 0
    requires Extent(v, i, limit).Ok? && n <= Extent(v, i, limit).value.length
    ensures var at := Extent(v, i, limit).value.at;
            && at.disk in c && 0 <= at.offset && at.offset + n <= |c[at.disk]| && i + n <= Size(v)
            && c[at.disk][at.offset..at.offset + n] == Flat(v, c)[i..i + n]
  {
    StretchOnDisk(v, c, i, limit);
    var at := Extent(v, i, limit).value.at;
    var onDisk, flat := c[at.disk][at.offset..at.offset + n], Flat(v, c)[i..i + n];
    forall k | 0 <= k < n ensures onDisk[k] == flat[k] {
      assert MapsTo(v, i, k, at);
    }
  }

  lemma StoreKeepsSizes(v: Volume, c: Contents, at: Location, data: seq<Byte>)
    requires Backed(v, c) && at.disk in c && 0 <= at.offset && at.offset + |data| <= |c[at.disk]|
    ensures Backed(v, Store(c, at, data))
  {
    assert Sizes(Store(c, at, data)) == Sizes(c);
  }

  /** Storing on the stretch at i changes the flat array there and nowhere else. */
  lemma StoreIsSplice(v: Volume, c: Contents, i: nat, limit: nat, data: seq<Byte>)
    requires Backed(v, c) && i < Size(v) && limit > 0
    requires Extent(v, i, limit).Ok? && |data| <= Extent(v, i, limit).value.length
    ensures var at := Extent(v, i, limit).value.at;
            && at.disk in c && 0 <= at.offset && at.offset + |data| <= |c[at.disk]| && i + |data| <= Size(v)
            && Backed(v, Store(c, at, data))
            && Flat(v, Store(c, at, data)) == Flat(v, c)[..i] + data + Flat(v, c)[i + |data|..]
  {
    StretchOnDisk(v, c, i, limit);
    var at := Extent(v, i, limit).value.at;
    var c' := Store(c, at, data);
    StoreKeepsSizes(v, c, at, data);
    var expected := Flat(v, c)[..i] + data + Flat(v, c)[i + |data|..];
    forall j | 0 <= j < Size(v) ensures Flat(v, c')[j] == expected[j] {
      StoredByte(v, c, i, limit, data, j);
    }
  }

  lemma StoredByte(v: Volume, c: Contents, i: nat, limit: nat, data: seq<Byte>, j: nat)
    requires Backed(v, c) && i < Size(v) && limit > 0 && j < Size(v)
    requires Describes(Extent(v, i, limit), v, i, limit) && |data| <= Extent(v, i, limit).value.length
    requires var at := Extent(v, i, limit).value.at;
             at.disk in c && 0 <= at.offset && at.offset + |data| <= |c[at.disk]|
    requires Backed(v, Store(c, Extent(v, i, limit).value.at, data))
    ensures ByteAt(v, Store(c, Extent(v, i, limit).value.at, data), j)
            == if i <= j < i + |data| then data[j - i] else ByteAt(v, c, j)
  {
    var at := Extent(v, i, limit).value.at;
    PlaceOnDisk(v, c, j);
    var place := Resolve(v, j).value;
    if i <= j < i + |data| {
      assert MapsTo(v, i, j - i, at);
    } else if place.disk == at.disk && at.offset <= place.offset < at.offset + |data| {
      var k := place.offset - at.offset;
      assert MapsTo(v, i, k, at);
      ResolveInjective(v, i + k, j);
    }
  }

  /** Two contents differ at most where the volume's offsets from i up to j lead. */
  ghost predicate DiffersOnlyAt(v: Volume, c: Contents, c': Contents, i: nat, j: nat) {
    && c'.Keys == c.Keys && (forall d | d in c :: |c'[d]| == |c[d]|)
    && forall d, o | d in c && 0 <= o < |c[d]| :: c'[d][o] == c[d][o] || Addressed(v, i, j, Location(d, o))
  }

  ghost predicate Addressed(v: Volume, i: nat, j: nat, at: Location) {
    exists k :: i <= k < j && Resolve(v, k) == Ok(at)
  }

  lemma StoreDiffers(v: Volume, c: Contents, i: nat, limit: nat, data: seq<Byte>)
    requires Backed(v, c) && i < Size(v) && limit > 0
    requires Describes(Extent(v, i, limit), v, i, limit) && |data| <= Extent(v, i, limit).value.length
    requires var at := Extent(v, i, limit).value.at;
             at.disk in c && 0 <= at.offset && at.offset + |data| <= |c[at.disk]|
    ensures DiffersOnlyAt(v, c, Store(c, Extent(v, i, limit).value.at, data), i, i + |data|)
  {
    var at := Extent(v, i, limit).value.at;
    var c' := Store(c, at, data);
    forall d, o | d in c && 0 <= o < |c[d]| && c'[d][o] != c[d][o]
      ensures Addressed(v, i, i + |data|, Location(d, o))
    {
      assert d == at.disk && at.offset <= o < at.offset + |data|;
      assert MapsTo(v, i, o - at.offset, at);
    }
  }

  lemma DiffersTwice(v: Volume, c: Contents, c1: Contents, c2: Contents, i: nat, m: nat, j: nat)
    requires DiffersOnlyAt(v, c, c1, i, m) && DiffersOnlyAt(v, c1, c2, m, j) && i <= m <= j
    ensures DiffersOnlyAt(v, c, c2, i, j)
  {
    forall d, o | d in c && 0 <= o < |c[d]|
      ensures c2[d][o] == c[d][o] || Addressed(v, i, j, Location(d, o))
    {
      assert c1[d][o] == c[d][o] || Addressed(v, i, m, Location(d, o));
    }
  }

  /** What a write of data at `start` has done to the disks when `done` bytes are written. */
  ghost predicate Written(v: Volume, was: Contents, c: Contents, start: nat, data: seq<Byte>, done: nat) {
    && Backed(v, was) && Backed(v, c) && done <= |data| && start + |data| <= Size(v)
    && Flat(v, c) == Flat(v, was)[..start] + data[..done] + Flat(v, was)[start + done..]
    && DiffersOnlyAt(v, was, c, start, start + done)
  }

  lemma NothingWritten(v: Volume, was: Contents, start: nat, data: seq<Byte>)
    requires Backed(v, was) && start + |data| <= Size(v)
    ensures Written(v, was, was, start, data, 0)
  {
    assert Flat(v, was) == Flat(v, was)[..start] + data[..0] + Flat(v, was)[start..];
  }

  lemma AllWritten(v: Volume, was: Contents, c: Contents, start: nat, data: seq<Byte>)
    requires Written(v, was, c, start, data, |data|)
    ensures Backed(v, was) && Backed(v, c) && start + |data| <= Size(v)
    ensures Flat(v, c) == Flat(v, was)[..start] + data + Flat(v, was)[start + |data|..]
    ensures DiffersOnlyAt(v, was, c, start, start + |data|)
  {
    assert data[..|data|] == data;
  }

  lemma WriteStep(v: Volume, was: Contents, c: Contents, start: nat, data: seq<Byte>, done: nat, limit: nat, n: nat)
    requires Written(v, was, c, start, data, done) && done < |data| && limit > 0
    requires Extent(v, start + done, limit).Ok? && n <= Extent(v, start + done, limit).value.length && done + n <= |data|
    ensures var at := Extent(v, start + done, limit).value.at;
            && at.disk in c && 0 <= at.offset && at.offset + n <= |c[at.disk]|
            && Written(v, was, Store(c, at, data[done..done + n]), start, data, done + n)
  {
    hide Backed, Flat, Extent, DiffersOnlyAt, Describes, Store;
    var at, segment := Extent(v, start + done, limit).value.at, data[done..done + n];
    StretchOnDisk(v, c, start + done, limit);
    StoreIsSplice(v, c, start + done, limit, segment);
    StoreDiffers(v, c, start + done, limit, segment);
    DiffersTwice(v, was, c, Store(c, at, segment), start, start + done, start + done + n);
    SpliceTwice(Flat(v, was), start, data, done, n);
  }

  /** Splicing a further piece in after a first one. */
  lemma SpliceTwice(flat: seq<Byte>, start: nat, data: seq<Byte>, done: nat, more: nat)
    requires done + more <= |data| && start + |data| <= |flat|
    ensures var s := flat[..start] + data[..done] + flat[start + done..];
            s[..start + done] + data[done..done + more] + s[start + done + more..]
            == flat[..start] + data[..done + more] + flat[start + done + more..]
  {
  }

  lemma SlicesMeet(bytes: seq<Byte>, i: nat, j: nat, k: nat)
    requires i <= j <= k <= |bytes|
    ensures bytes[i..j] + bytes[j..k] == bytes[i..k]
  {
  }

  // ----- the files -----

  /** An open backing device. */
  class Disk {
    var bytes: seq<Byte>
    var pos: nat

    constructor (bytes: seq<Byte>)
      ensures this.bytes == bytes && pos == 0
    {
      this.bytes := bytes;
      pos := 0;
    }

    method Seek(offset: nat)
      modifies this`pos
      ensures pos == offset
    {
      pos := offset;
    }

    method Read(count: nat) returns (data: seq<Byte>)
      requires pos + count <= |bytes|
      modifies this`pos
      ensures data == bytes[old(pos)..old(pos) + count] && pos == old(pos) + count
    {
      data := bytes[pos..pos + count];
      pos := pos + count;
    }

    method Write(data: seq<Byte>)
      requires pos + |data| <= |bytes|
      modifies this
      ensures bytes == old(bytes)[..old(pos)] + data + old(bytes)[old(pos) + |data|..]
      ensures pos == old(pos) + |data|
    {
      bytes := bytes[..pos] + data + bytes[pos + |data|..];
      pos := pos + |data|;
    }
  }

  datatype Whence = FromStart | FromPosition | FromEnd

  /** A block volume as a file of fixed size. */
  class VolumeFile {
    const volume: Volume
    const disks: map<nat, Disk>
    const size: nat
    var pos: nat

    ghost function OnDisk(): Contents
      reads disks.Values
    {
      map d | d in disks :: disks[d].bytes
    }

    ghost predicate Valid()
      reads this, disks.Values
    {
      && size == Size(volume) && pos <= size
      && (forall d, e | d in disks && e in disks && d != e :: disks[d] != disks[e])
      && Backed(volume, OnDisk())
    }

    /** The bytes of the file. */
    ghost function Bytes(): (bytes: seq<Byte>)
      requires Valid()
      reads this, disks.Values
      ensures |bytes| == size
    {
      Flat(volume, OnDisk())
    }

    constructor (volume: Volume, disks: map<nat, Disk>)
      requires forall d, e | d in disks && e in disks && d != e :: disks[d] != disks[e]
      requires Backed(volume, map d | d in disks :: disks[d].bytes)
      ensures Valid() && pos == 0 && this.volume == volume && this.disks == disks
    {
      this.volume := volume;
      this.disks := disks;
      size := Size(volume);
      pos := 0;
    }

    /** A position outside the file is refused with IOError and changes nothing. */
    method Seek(offset: int, whence: Whence) returns (ok: bool)
      requires Valid()
      modifies this`pos
      ensures Valid() && Bytes() == old(Bytes())
      ensures var target := match whence
                            case FromStart => offset
                            case FromPosition => old(pos) + offset
                            case FromEnd => size + offset;
              && ok == (0 <= target < size)
              && pos == if ok then target else old(pos)
    {
      var newpos := match whence
                    case FromStart => offset
                    case FromPosition => pos + offset
                    case FromEnd => size + offset;
      if 0 <= newpos < size {
        pos := newpos;
        ok := true;
      } else {
        ok := false;
      }
    }

    /** The extent at the position: where it is, and for how long it is on one disk. */
    method FindExtent() returns (e: Stretch)
      requires Valid() && pos < size
      ensures Extent(volume, pos, ALL) == Ok(e)
      ensures 0 < e.length && pos + e.length <= size
      ensures e.at.disk in disks && 0 <= e.at.offset && e.at.offset + e.length <= |disks[e.at.disk].bytes|
    {
      StretchOnDisk(volume, OnDisk(), pos, ALL);
      e := Extent(volume, pos, ALL).value;
    }

    /** A count that is missing or negative asks for everything up to the end. */
    method Read(count: int) returns (out: seq<Byte>)
      requires Valid()
      modifies this`pos, disks.Values
      ensures Valid() && OnDisk() == old(OnDisk())
      ensures pos == old(pos) + if 0 <= count < size - old(pos) then count else size - old(pos)
      ensures out == Bytes()[old(pos)..pos]
    {
      hide Backed, Extent, Flat, Sizes;
      out := [];
      var bytesToRead: nat := size - pos;
      if 0 <= count < bytesToRead {
        bytesToRead := count;
      }
      ghost var start, was, end := pos, OnDisk(), pos + bytesToRead;
      while bytesToRead > 0
        invariant Valid() && OnDisk() == was
        invariant start <= pos && pos + bytesToRead == end <= size
        invariant out == Bytes()[start..pos]
        decreases bytesToRead
      {
        ghost var here := pos;
        var segment := ReadSegment(bytesToRead);
        SlicesMeet(Bytes(), start, here, pos);
        out := out + segment;
        bytesToRead := bytesToRead - |segment|;
      }
    }

    /** One turn of the loop of read: as much as the extent at the position has. */
    method ReadSegment(count: nat) returns (segment: seq<Byte>)
      requires Valid() && 0 < count <= size - pos
      modifies this`pos, disks.Values
      ensures Valid() && OnDisk() == old(OnDisk())
      ensures 0 < |segment| <= count && pos == old(pos) + |segment|
      ensures segment == Bytes()[old(pos)..pos]
    {
      hide Backed, Extent, Flat, Sizes;
      var e := FindExtent();
      var limit := Min(e.length, count);
      StretchIsFlat(volume, OnDisk(), pos, ALL, limit);
      disks[e.at.disk].Seek(e.at.offset);
      segment := disks[e.at.disk].Read(limit);
      assert OnDisk() == old(OnDisk());
      pos := pos + |segment|;
    }

    /** Writes what fits in the file: exactly the addressed bytes change, and on the disks nothing else. If the
        data end inside the file that is all. If not, extent raises at the end of the file, or its stretch is
        empty there and every further turn of the source's loop is like that one: Going says so. */
    method Write(data: seq<Byte>) returns (end: Progress)
      requires Valid()
      modifies this`pos, disks.Values
      ensures Valid() && end == Fate(volume, old(pos), |data|)
      ensures pos == end.pos
      ensures var n := pos - old(pos);
              && 0 <= n <= |data|
              && Bytes() == old(Bytes())[..old(pos)] + data[..n] + old(Bytes())[pos..]
              && DiffersOnlyAt(volume, old(OnDisk()), OnDisk(), old(pos), pos)
    {
      hide Backed, Extent, Flat, Sizes, DiffersOnlyAt, Written, Describes;
      var rest := data;
      ghost var start, was := pos, OnDisk();
      ghost var fit := data[..PrefixLength(|data|, size - pos)];
      NothingWritten(volume, was, start, fit);
      while rest != []
        invariant Valid() && start <= pos <= start + |fit| && |rest| == |data| - (pos - start)
        invariant rest == data[pos - start..]
        invariant Written(volume, was, OnDisk(), start, fit, pos - start)
        decreases |rest|
      {
        EmptyOnlyAtTheEnd();
        var found := Extent(volume, pos, ALL);
        if !found.Ok? || found.value.length == 0 {
          AllWritten(volume, was, OnDisk(), start, fit);
          return if found.Ok? then Going(pos, |rest|) else Failed(pos);
        }
        var written := WriteSegment(rest, was, start, fit);
        rest := rest[written..];
      }
      AllWritten(volume, was, OnDisk(), start, fit);
      end := Ended(pos);
    }

    lemma EmptyOnlyAtTheEnd()
      requires Valid()
      ensures pos < size ==> Extent(volume, pos, ALL).Ok? && Extent(volume, pos, ALL).value.length > 0
      ensures pos == size ==> if RaisesAtEnd(volume) then !Extent(volume, pos, ALL).Ok?
                              else Extent(volume, pos, ALL).Ok? && Extent(volume, pos, ALL).value.length == 0
    {
      hide Extent, Flat, AliasFree, OnDisks;
      if pos < size {
        ExtentAgreesWithResolve(volume, pos, ALL);
      } else {
        NothingAtTheEnd(volume, pos, ALL);
      }
    }

    /** One turn of the loop of write: as much of the rest as fits in the extent at the position. */
    method WriteSegment(rest: seq<Byte>, ghost was: Contents, ghost start: nat, ghost fit: seq<Byte>) returns (n: nat)
      requires Valid() && rest != [] && pos < size && start <= pos <= start + |fit| <= size
      requires fit[pos - start..] <= rest && (start + |fit| == size || fit[pos - start..] == rest)
      requires Written(volume, was, OnDisk(), start, fit, pos - start)
      modifies this`pos, disks.Values
      ensures Valid() && 0 < n <= |rest| && pos == old(pos) + n && pos <= start + |fit|
      ensures Written(volume, was, OnDisk(), start, fit, pos - start)
    {
      hide Backed, Extent, Flat, Sizes, DiffersOnlyAt, Written, Describes;
      var e := FindExtent();
      var segment := if |rest| <= e.length then rest else rest[..e.length];
      n := |segment|;
      assert segment == fit[pos - start..][..n] == fit[pos - start..pos - start + n];
      WriteStep(volume, was, OnDisk(), start, fit, pos - start, ALL, n);
      WriteOut(e.at, segment);
      pos := pos + n;
    }

    method WriteOut(at: Location, segment: seq<Byte>)
      requires Valid() && at.disk in disks && 0 <= at.offset && at.offset + |segment| <= |disks[at.disk].bytes|
      modifies disks.Values
      ensures Valid() && OnDisk() == Store(old(OnDisk()), at, segment)
    {
      StoreKeepsSizes(volume, OnDisk(), at, segment);
      ghost var c := OnDisk();
      disks[at.disk].Seek(at.offset);
      disks[at.disk].Write(segment);
      assert OnDisk() == Store(c, at, segment);
    }
  }
}
