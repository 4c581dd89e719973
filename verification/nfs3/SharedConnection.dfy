/** Two threads that write on one connection (pynfs/nfs3/nfs3server.py, event_write_thread): the server's lock is
    taken only for a record of several fragments, so a record of one fragment may be sent at any moment. When do
    both records still arrive? */
module SharedConnection {
  import opened RecordMarking

  /** Both records arrive, in either order, and nothing else. */
  ghost predicate BothArrive(stream: Bytes, a: Bytes, b: Bytes) {
    || Absorb(START, stream) == Reader([], [], [Deliver(a), Deliver(b)])
    || Absorb(START, stream) == Reader([], [], [Deliver(b), Deliver(a)])
  }

  // ----- a record between the fragments of another -----

  function Fragments(record: Bytes, chunkSize: nat): (list: seq<Bytes>)
    requires ChunkSize(chunkSize)
    ensures list != []
  {
    if |record| > chunkSize then [Fragment(false, record[..chunkSize])] + Fragments(record[chunkSize..], chunkSize)
    else [Fragment(true, record)]
  }

  lemma {:induction false} FragmentsEncode(record: Bytes, chunkSize: nat)
    requires ChunkSize(chunkSize)
    ensures Join(Fragments(record, chunkSize)) == Encode(record, chunkSize)
    decreases |record|
  {
    hide Fragment;
    if |record| > chunkSize {
      FragmentsEncode(record[chunkSize..], chunkSize);
      var list := Fragments(record, chunkSize);
      assert list[1..] == Fragments(record[chunkSize..], chunkSize);
    } else {
      var list := Fragments(record, chunkSize);
      assert list[1..] == [];
    }
  }

  /** The stream when a record of one fragment is sent after the first k fragments of another record. */
  function SentAfter(a: Bytes, chunkSize: nat, k: nat, b: Bytes): Bytes
    requires ChunkSize(chunkSize) && k <= |Fragments(a, chunkSize)| && |b| <= chunkSize
  {
    Join(Fragments(a, chunkSize)[..k]) + (Fragment(true, b) + Join(Fragments(a, chunkSize)[k..]))
  }

  /** The first k fragments, of more, carry the first k chunks; the others encode what is left. */
  lemma {:induction false} AbsorbFirst(r: Reader, a: Bytes, chunkSize: nat, k: nat, rest: Bytes)
    requires ChunkSize(chunkSize) && r.buffer == [] && k < |Fragments(a, chunkSize)|
    ensures k * chunkSize <= |a| && (k > 0 ==> 0 < k * chunkSize < |a|)
    ensures Join(Fragments(a, chunkSize)[k..]) == Encode(a[k * chunkSize..], chunkSize)
    ensures Absorb(r, Join(Fragments(a, chunkSize)[..k]) + rest)
            == Absorb(Reader([], r.packet + a[..k * chunkSize], r.delivered), rest)
    decreases k
  {
    hide Fragment, Encode, Drain;
    var list := Fragments(a, chunkSize);
    if k == 0 {
      FragmentsEncode(a, chunkSize);
      assert list[0..] == list && list[..0] == [] && [] + rest == rest;
      assert r.packet + a[..0] == r.packet && a[0..] == a;
    } else {
      var chunk, tail := a[..chunkSize], a[chunkSize..];
      var first := Join(Fragments(tail, chunkSize)[..k - 1]);
      OneFragmentOn(a, chunkSize, k, rest);
      AbsorbFragment(r, false, chunk, first + rest);
      AbsorbFirst(Reader([], r.packet + chunk, r.delivered), tail, chunkSize, k - 1, rest);
      OneChunkOn(a, chunkSize, k);
      assert r.packet + chunk + tail[..(k - 1) * chunkSize] == r.packet + a[..k * chunkSize];
    }
  }

  lemma OneFragmentOn(a: Bytes, chunkSize: nat, k: nat, rest: Bytes)
    requires ChunkSize(chunkSize) && 0 < k < |Fragments(a, chunkSize)|
    ensures |a| > chunkSize && k - 1 < |Fragments(a[chunkSize..], chunkSize)|
    ensures Fragments(a, chunkSize)[k..] == Fragments(a[chunkSize..], chunkSize)[k - 1..]
    ensures Join(Fragments(a, chunkSize)[..k]) + rest
            == Fragment(false, a[..chunkSize]) + (Join(Fragments(a[chunkSize..], chunkSize)[..k - 1]) + rest)
  {
    hide Fragment, Join;
    var others := Fragments(a[chunkSize..], chunkSize);
    FirstOfList(Fragment(false, a[..chunkSize]), others, k);
    assert Fragment(false, a[..chunkSize]) + Join(others[..k - 1]) + rest
        == Fragment(false, a[..chunkSize]) + (Join(others[..k - 1]) + rest);
  }

  lemma FirstOfList(first: Bytes, others: seq<Bytes>, k: nat)
    requires 0 < k <= |others|
    ensures ([first] + others)[k..] == others[k - 1..]
    ensures Join(([first] + others)[..k]) == first + Join(others[..k - 1])
  {
    var begun := ([first] + others)[..k];
    assert begun[0] == first && begun[1..] == others[..k - 1];
  }

  lemma OneChunkOn(a: Bytes, chunkSize: nat, k: nat)
    requires k > 0 && chunkSize <= |a| && (k - 1) * chunkSize <= |a| - chunkSize
    ensures k * chunkSize == chunkSize + (k - 1) * chunkSize <= |a|
    ensures a[chunkSize..][(k - 1) * chunkSize..] == a[k * chunkSize..]
    ensures a[..chunkSize] + a[chunkSize..][..(k - 1) * chunkSize] == a[..k * chunkSize]
  {
    var n := (k - 1) * chunkSize;
    assert k * chunkSize == chunkSize + n;
  }

  /** What arrives when the record is sent in the middle: the chunks before it with it, and the rest. */
  lemma MiddleIsSwallowed(a: Bytes, chunkSize: nat, k: nat, b: Bytes)
    requires ChunkSize(chunkSize) && 0 < k < |Fragments(a, chunkSize)| && |b| <= chunkSize
    ensures 0 < k * chunkSize < |a|
    ensures Absorb(START, SentAfter(a, chunkSize, k, b))
            == Reader([], [], [Deliver(a[..k * chunkSize] + b), Deliver(a[k * chunkSize..])])
  {
    var rest := Join(Fragments(a, chunkSize)[k..]);
    AbsorbFirst(START, a, chunkSize, k, Fragment(true, b) + rest);
    var before, after := a[..k * chunkSize], a[k * chunkSize..];
    assert [] + before == before;
    AbsorbFragment(Reader([], before, []), true, b, rest);
    var r := Reader([], [], [] + [Deliver(before + b)]);
    assert Encode(after, chunkSize) + [] == Encode(after, chunkSize);
    AbsorbRecord(r, after, chunkSize, []);
    assert [] + after == after;
    assert [] + [Deliver(before + b)] + [Deliver(after)] == [Deliver(before + b), Deliver(after)];
  }

  /** Before the first fragment or after the last one both arrive. */
  lemma OutsideIsFine(a: Bytes, chunkSize: nat, k: nat, b: Bytes)
    requires ChunkSize(chunkSize) && (k == 0 || k == |Fragments(a, chunkSize)|) && |b| <= chunkSize
    ensures BothArrive(SentAfter(a, chunkSize, k, b), a, b)
  {
    var list := Fragments(a, chunkSize);
    FragmentsEncode(a, chunkSize);
    var records := if k == 0 then [b, a] else [a, b];
    assert list[..0] == [] && list[0..] == list && list[..|list|] == list && list[|list|..] == [];
    assert Encode(b, chunkSize) == Fragment(true, b);
    var others := records[1..];
    assert others == [records[1]] && others[1..] == [];
    assert EncodeAll(others, chunkSize) == Encode(records[1], chunkSize) + [] == Encode(records[1], chunkSize);
    assert EncodeAll(records, chunkSize) == Encode(records[0], chunkSize) + Encode(records[1], chunkSize);
    assert SentAfter(a, chunkSize, k, b) == EncodeAll(records, chunkSize);
    OnePiece(EncodeAll(records, chunkSize));
    RoundTrip(records, chunkSize, [EncodeAll(records, chunkSize)]);
    assert DeliverAll(records) == [Deliver(records[0]), Deliver(records[1])];
  }

  /** With sends that are whole, both records arrive exactly if the unlocked one is sent before the first or
      after the last fragment of the other, or happens to be what was left of it. */
  lemma BothArriveExactlyIf(a: Bytes, chunkSize: nat, k: nat, b: Bytes)
    requires ChunkSize(chunkSize) && k <= |Fragments(a, chunkSize)| && |b| <= chunkSize
    ensures BothArrive(SentAfter(a, chunkSize, k, b), a, b)
            <==> k == 0 || k == |Fragments(a, chunkSize)| || (k * chunkSize <= |a| && b == a[k * chunkSize..])
  {
    if k == 0 || k == |Fragments(a, chunkSize)| {
      OutsideIsFine(a, chunkSize, k, b);
    } else {
      MiddleIsSwallowed(a, chunkSize, k, b);
      SwallowedIsRightExactlyIf(a, k * chunkSize, b);
    }
  }

  lemma SwallowedIsRightExactlyIf(a: Bytes, cut: nat, b: Bytes)
    requires 0 < cut < |a|
    ensures [Deliver(a[..cut] + b), Deliver(a[cut..])] in [[Deliver(a), Deliver(b)], [Deliver(b), Deliver(a)]]
            <==> b == a[cut..]
  {
    var got := [Deliver(a[..cut] + b), Deliver(a[cut..])];
    assert a == a[..cut] + a[cut..];
    if got == [Deliver(a), Deliver(b)] {
      assert got[1] == Deliver(b);
      DeliverTellsApart(a[cut..], b);
    }
    if got == [Deliver(b), Deliver(a)] {
      assert got[1] == Deliver(a);
      DeliverTellsApart(a[cut..], a);
      assert false;
    }
  }

  /** For instance, the record 9 sent between the two fragments of 1 2. */
  lemma SwallowedExample()
    ensures Fragments([1, 2], 1) == [Fragment(false, [1]), Fragment(true, [2])]
    ensures Absorb(START, SentAfter([1, 2], 1, 1, [9])) == Reader([], [], [Call([1, 9]), Call([2])])
    ensures !BothArrive(SentAfter([1, 2], 1, 1, [9]), [1, 2], [9])
  {
    var a: Bytes := [1, 2];
    assert a[..1] == [1] && a[1..] == [2];
    MiddleIsSwallowed(a, 1, 1, [9]);
    assert a[..1] + [9] == [1, 9];
  }

  // ----- a record inside the fragment of another -----

  /** Bytes that may change places. */
  predicate Commute(s: Bytes, t: Bytes) {
    s + t == t + s
  }

  /** The stream when two records of one fragment are sent, neither under the lock, and a send takes only the
      first j bytes of one of them before the other is sent. */
  function SentInside(a: Bytes, j: nat, b: Bytes): Bytes
    requires |a| < LAST && |b| < LAST && j <= |a| + 4
  {
    Fragment(true, a)[..j] + Fragment(true, b) + Fragment(true, a)[j..]
  }

  function OneFragmentEach(records: seq<Bytes>): Bytes
    requires forall i | 0 <= i < |records| :: |records[i]| < LAST
  {
    if records == [] then [] else Fragment(true, records[0]) + OneFragmentEach(records[1..])
  }

  function Total(records: seq<Bytes>): nat {
    if records == [] then 0 else |records[0]| + 4 + Total(records[1..])
  }

  /** What is still to come when the first record has been begun. */
  ghost predicate IsRest(buffer: Bytes, packet: Bytes, records: seq<Bytes>) {
    && (forall i | 0 <= i < |records| :: |records[i]| < LAST)
    && if records == [] then buffer == []
       else packet <= records[0] && buffer == Fragment(true, records[0][|packet|..]) + OneFragmentEach(records[1..])
  }

  lemma FragmentFromParts(buffer: Bytes)
    requires HasFragment(buffer) && IsLast(buffer)
    ensures var end := 4 + Length(buffer); buffer == Fragment(true, buffer[4..end]) + buffer[end..]
  {
    var end := 4 + Length(buffer);
    UnpackPack(Length(buffer) + LAST);
    UnpackInjective(buffer[..4], Pack(Length(buffer) + LAST));
    assert buffer == buffer[..4] + buffer[4..end] + buffer[end..];
  }

  /** The writer's one fragment for each record is the only stream of so few bytes that delivers the records. */
  lemma {:induction false} ShortestStream(r: Reader, records: seq<Bytes>)
    requires forall i | 0 <= i < |records| :: |records[i]| < LAST
    requires Drain(r) == Reader([], [], r.delivered + DeliverAll(records))
    ensures |r.buffer| + |r.packet| >= Total(records)
    ensures |r.buffer| + |r.packet| == Total(records) ==> IsRest(r.buffer, r.packet, records)
    decreases |r.buffer|
  {
    hide Unpack, Fragment;
    if !HasFragment(r.buffer) {
      assert |r.delivered + DeliverAll(records)| == |r.delivered|;
    } else {
      var r1 := TakeFragment(r);
      if IsLast(r.buffer) {
        var record := r.packet + r.buffer[4..4 + Length(r.buffer)];
        DeliveriesGrow(r1);
        assert (r.delivered + DeliverAll(records))[|r.delivered|] == Deliver(record);
        assert DeliverAll(records)[0] == Deliver(record);
        DeliverTellsApart(records[0], record);
        assert DeliverAll(records) == [Deliver(record)] + DeliverAll(records[1..]);
        assert r.delivered + DeliverAll(records) == r1.delivered + DeliverAll(records[1..]);
        ShortestStream(r1, records[1..]);
        FragmentFromParts(r.buffer);
        if IsRest(r1.buffer, [], records[1..]) {
          RestOfNext(r1.buffer, records[1..]);
        }
        assert records[0][|r.packet|..] == r.buffer[4..4 + Length(r.buffer)];
      } else {
        ShortestStream(r1, records);
      }
    }
  }

  lemma RestOfNext(buffer: Bytes, records: seq<Bytes>)
    requires IsRest(buffer, [], records)
    ensures buffer == OneFragmentEach(records)
  {
    if records != [] {
      assert records[0][0..] == records[0];
    }
  }

  /** Two records of one fragment each, one cut by a partial send: both arrive exactly if the other one commutes
      with what was sent of it before, or with what was sent after. */
  lemma CutArrivesExactlyIf(a: Bytes, j: nat, b: Bytes)
    requires |a| < LAST && |b| < LAST && j <= |a| + 4
    ensures BothArrive(SentInside(a, j, b), a, b)
            <==> Commute(Fragment(true, a)[..j], Fragment(true, b)) || Commute(Fragment(true, b), Fragment(true, a)[j..])
  {
    hide Fragment, Commute, Drain;
    var whole, other := Fragment(true, a), Fragment(true, b);
    assert whole == whole[..j] + whole[j..];
    InFront(whole[..j], other, whole[j..]);
    Behind(whole[..j], other, whole[j..]);
    InOneFragmentEach(a, b);
    InOneFragmentEach(b, a);
    if BothArrive(SentInside(a, j, b), a, b) {
      ArrivedIsEncoded(SentInside(a, j, b), a, b);
    }
  }

  /** For instance, two bytes of the record 1, then all of the record 2. */
  lemma CutExample()
    ensures !BothArrive(SentInside([1], 2, [2]), [1], [2])
  {
    hide BothArrive;
    var whole, other := Fragment(true, [1]), Fragment(true, [2]);
    assert Pack(1 + LAST) == [0x80, 0, 0, 1];
    assert whole == [0x80, 0, 0, 1, 1] && other == [0x80, 0, 0, 1, 2];
    assert (whole[..2] + other)[2] == 0x80 && (other + whole[..2])[2] == 0;
    assert (other + whole[2..])[0] == 0x80 && (whole[2..] + other)[0] == 0;
    CutArrivesExactlyIf([1], 2, [2]);
  }

  lemma InFront(before: Bytes, other: Bytes, after: Bytes)
    ensures Commute(before, other) <==> before + other + after == other + (before + after)
  {
    var n := |before| + |other|;
    assert (before + other + after)[..n] == before + other;
    assert (other + (before + after))[..n] == other + before;
    assert other + before + after == other + (before + after);
  }

  lemma Behind(before: Bytes, other: Bytes, after: Bytes)
    ensures Commute(other, after) <==> before + other + after == before + after + other
  {
    assert before + other + after == before + (other + after);
    assert before + after + other == before + (after + other);
    assert (before + (other + after))[|before|..] == other + after;
    assert (before + (after + other))[|before|..] == after + other;
  }

  lemma InOneFragmentEach(a: Bytes, b: Bytes)
    requires |a| < LAST && |b| < LAST
    ensures Absorb(START, Fragment(true, a) + Fragment(true, b)) == Reader([], [], [Deliver(a), Deliver(b)])
  {
    hide Fragment;
    var second := Fragment(true, b);
    AbsorbFragment(START, true, a, second);
    assert [] + a == a && [] + b == b && second + [] == second;
    AbsorbFragment(Reader([], [], [] + [Deliver(a)]), true, b, []);
    assert [] + [Deliver(a)] + [Deliver(b)] == [Deliver(a), Deliver(b)];
  }

  lemma ArrivedIsEncoded(stream: Bytes, a: Bytes, b: Bytes)
    requires |a| < LAST && |b| < LAST && |stream| == |a| + |b| + 8 && BothArrive(stream, a, b)
    ensures stream == Fragment(true, a) + Fragment(true, b) || stream == Fragment(true, b) + Fragment(true, a)
  {
    hide Fragment, Drain;
    assert [] + stream == stream;
    if Absorb(START, stream) == Reader([], [], [Deliver(a), Deliver(b)]) {
      TwoRecords(stream, a, b);
    } else {
      TwoRecords(stream, b, a);
    }
  }

  lemma TwoRecords(stream: Bytes, a: Bytes, b: Bytes)
    requires |a| < LAST && |b| < LAST && |stream| == |a| + |b| + 8
    requires Absorb(START, stream) == Reader([], [], [Deliver(a), Deliver(b)])
    ensures stream == Fragment(true, a) + Fragment(true, b)
  {
    hide Fragment, Drain;
    var records := [a, b];
    var others := records[1..];
    assert others == [b] && others[1..] == [];
    assert [] + stream == stream && [] + DeliverAll(records) == [Deliver(a), Deliver(b)];
    ShortestStream(Reader(stream, [], []), records);
    assert a[0..] == a;
    assert OneFragmentEach([b]) == Fragment(true, b) + [];
  }
}
