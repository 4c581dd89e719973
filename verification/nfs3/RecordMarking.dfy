/** pynfs/nfs3/nfs3server.py: records written to a stream in marked fragments, and read back from
    whatever pieces of the stream arrive (section 11 of RFC 5531). */
module RecordMarking {

  type Byte = x: int | 0 <= x < 256

  type Bytes = seq<Byte>

  const LAST: int := 0x8000_0000
  const WORD: int := 0x1_0000_0000

  // ----- the four-byte mark -----

  /** The number that four bytes are, the most significant one first. */
  function BigEndian(b0: int, b1: int, b2: int, b3: int): int {
    ((b0 * 0x100 + b1) * 0x100 + b2) * 0x100 + b3
  }

  /** struct.pack('>L', n). */
  function Pack(n: nat): (b: Bytes)
    requires n < WORD
    ensures |b| == 4
  {
    [n / 0x100_0000, n / 0x1_0000 % 0x100, n / 0x100 % 0x100, n % 0x100]
  }

  /** struct.unpack('>L', b). */
  function Unpack(b: Bytes): (n: nat)
    requires |b| == 4
    ensures n < WORD
  {
    var b0: int, b1: int, b2: int, b3: int := b[0], b[1], b[2], b[3];
    b0 * 0x100_0000 + b1 * 0x1_0000 + b2 * 0x100 + b3
  }

  lemma UnpackPack(n: nat)
    requires n < WORD
    ensures Unpack(Pack(n)) == n
  {
    var q := n / 0x100;
    var p := q / 0x100;
    assert n / 0x1_0000 == p && n / 0x100_0000 == p / 0x100;
    assert n == 0x100 * q + n % 0x100 && q == 0x100 * p + q % 0x100 && p == 0x100 * (p / 0x100) + p % 0x100;
  }

  lemma UnpackInjective(a: Bytes, b: Bytes)
    requires |a| == 4 && |b| == 4 && Unpack(a) == Unpack(b)
    ensures a == b
  {
    assert a[0] == b[0] && a[1] == b[1] && a[2] == b[2] && a[3] == b[3];
  }

  // ----- writing -----

  /** A mark and its chunk. The length is below the top bit, so setting the bit adds it. */
  function Fragment(last: bool, chunk: Bytes): (fragment: Bytes)
    requires |chunk| < LAST
    ensures |fragment| == 4 + |chunk|
  {
    Pack(|chunk| + if last then LAST else 0) + chunk
  }

  /** What a fragment looks like on the wire: the top bit of its first byte tells whether it is the last of its
      record, the other 31 bits of its first four bytes are the length of the chunk, and the chunk follows. */
  lemma FragmentOnTheWire(last: bool, chunk: Bytes)
    requires |chunk| < LAST
    ensures var f := Fragment(last, chunk);
            && |f| == 4 + |chunk| && (f[0] >= 0x80 <==> last)
            && BigEndian(if last then f[0] - 0x80 else f[0], f[1], f[2], f[3]) == |chunk| && f[4..] == chunk
  {
    UnpackPack(|chunk| + if last then LAST else 0);
    TopBit(Pack(|chunk| + if last then LAST else 0));
  }

  lemma TopBit(b: Bytes)
    requires |b| == 4
    ensures b[0] >= 0x80 <==> Unpack(b) >= LAST
    ensures Unpack(b) == BigEndian(b[0], b[1], b[2], b[3])
    ensures b[0] >= 0x80 ==> BigEndian(b[0] - 0x80, b[1], b[2], b[3]) == Unpack(b) - LAST
  {
  }

  predicate ChunkSize(chunkSize: nat) {
    1 <= chunkSize < LAST
  }

  function Encode(record: Bytes, chunkSize: nat): Bytes
    requires ChunkSize(chunkSize)
  {
    if |record| > chunkSize then Fragment(false, record[..chunkSize]) + Encode(record[chunkSize..], chunkSize)
    else Fragment(true, record)
  }

  function EncodeAll(records: seq<Bytes>, chunkSize: nat): Bytes
    requires ChunkSize(chunkSize)
  {
    if records == [] then [] else Encode(records[0], chunkSize) + EncodeAll(records[1..], chunkSize)
  }

  // ----- reading -----

  /** A four-byte record is a command code, any other an RPC message. */
  datatype Delivery = Command(code: nat) | Call(message: Bytes)

  function Deliver(record: Bytes): Delivery {
    if |record| == 4 then Command(Unpack(record)) else Call(record)
  }

  function DeliverAll(records: seq<Bytes>): (d: seq<Delivery>)
    ensures |d| == |records|
  {
    seq(|records|, i requires 0 <= i < |records| => Deliver(records[i]))
  }

  /** Bytes not yet taken, the chunks of the record begun (joined), and what has been delivered. */
  datatype Reader = Reader(buffer: Bytes, packet: Bytes, delivered: seq<Delivery>)

  const START := Reader([], [], [])

  function Length(buffer: Bytes): nat
    requires |buffer| >= 4
  {
    Unpack(buffer[..4]) % LAST
  }

  predicate IsLast(buffer: Bytes)
    requires |buffer| >= 4
  {
    Unpack(buffer[..4]) >= LAST
  }

  predicate HasFragment(buffer: Bytes) {
    |buffer| >= 4 && |buffer| >= 4 + Length(buffer)
  }

  function TakeFragment(r: Reader): Reader
    requires HasFragment(r.buffer)
  {
    var end := 4 + Length(r.buffer);
    var packet := r.packet + r.buffer[4..end];
    if IsLast(r.buffer) then Reader(r.buffer[end..], [], r.delivered + [Deliver(packet)])
    else Reader(r.buffer[end..], packet, r.delivered)
  }

  function Drain(r: Reader): (r': Reader)
    ensures !HasFragment(r'.buffer)
    decreases |r.buffer|
  {
    if HasFragment(r.buffer) then Drain(TakeFragment(r)) else r
  }

  /** What event_read does with the bytes that have just arrived. */
  function Absorb(r: Reader, data: Bytes): Reader {
    Drain(r.(buffer := r.buffer + data))
  }

  function AbsorbAll(r: Reader, pieces: seq<Bytes>): Reader
    decreases |pieces|
  {
    if pieces == [] then r else AbsorbAll(Absorb(r, pieces[0]), pieces[1..])
  }

  function Join(pieces: seq<Bytes>): Bytes {
    if pieces == [] then [] else pieces[0] + Join(pieces[1..])
  }

  // ----- the split of the stream does not matter -----

  /** More bytes behind a complete fragment do not change it. */
  lemma TakeBefore(r: Reader, more: Bytes)
    requires HasFragment(r.buffer)
    ensures HasFragment(r.buffer + more)
    ensures TakeFragment(r.(buffer := r.buffer + more))
            == TakeFragment(r).(buffer := TakeFragment(r).buffer + more)
  {
    var all, end := r.buffer + more, 4 + Length(r.buffer);
    assert all[..4] == r.buffer[..4];
    assert all[4..end] == r.buffer[4..end];
    assert all[end..] == r.buffer[end..] + more;
  }

  lemma {:induction false} DrainTwice(r: Reader, more: Bytes)
    ensures Drain(r.(buffer := r.buffer + more)) == Absorb(Drain(r), more)
    decreases |r.buffer|
  {
    if HasFragment(r.buffer) {
      TakeBefore(r, more);
      DrainTwice(TakeFragment(r), more);
    }
  }

  /** Two reads are as good as one read of both pieces. */
  lemma AbsorbTwice(r: Reader, a: Bytes, b: Bytes)
    ensures Absorb(Absorb(r, a), b) == Absorb(r, a + b)
  {
    DrainTwice(r.(buffer := r.buffer + a), b);
    assert r.buffer + a + b == r.buffer + (a + b);
  }

  /** Whatever the bytes are, and however they are split, the reader ends in the same state. */
  lemma {:induction false} SplitDoesNotMatter(r: Reader, pieces: seq<Bytes>)
    requires !HasFragment(r.buffer)
    ensures AbsorbAll(r, pieces) == Absorb(r, Join(pieces))
    decreases |pieces|
  {
    if pieces == [] {
      assert r.buffer + [] == r.buffer;
    } else {
      SplitDoesNotMatter(Absorb(r, pieces[0]), pieces[1..]);
      AbsorbTwice(r, pieces[0], Join(pieces[1..]));
    }
  }

  // ----- the round trip -----

  lemma FragmentParts(last: bool, chunk: Bytes, rest: Bytes)
    requires |chunk| < LAST
    ensures var buffer := Fragment(last, chunk) + rest;
            && HasFragment(buffer) && IsLast(buffer) == last && Length(buffer) == |chunk|
            && buffer[4..4 + |chunk|] == chunk && buffer[4 + |chunk|..] == rest
  {
    hide Pack, Unpack;
    var mark := Pack(|chunk| + if last then LAST else 0);
    var buffer := Fragment(last, chunk) + rest;
    UnpackPack(|chunk| + if last then LAST else 0);
    assert buffer == mark + chunk + rest && buffer[..4] == mark;
  }

  lemma AbsorbFragment(r: Reader, last: bool, chunk: Bytes, rest: Bytes)
    requires r.buffer == [] && |chunk| < LAST
    ensures Absorb(r, Fragment(last, chunk) + rest)
            == Absorb(if last then Reader([], [], r.delivered + [Deliver(r.packet + chunk)])
                      else Reader([], r.packet + chunk, r.delivered), rest)
  {
    hide Pack, Unpack, Fragment, HasFragment, Length, IsLast;
    var buffer := Fragment(last, chunk) + rest;
    FragmentParts(last, chunk, rest);
    assert [] + buffer == buffer && [] + rest == rest;
    assert Absorb(r, buffer) == Drain(TakeFragment(r.(buffer := buffer)));
  }

  lemma {:induction false} AbsorbRecord(r: Reader, record: Bytes, chunkSize: nat, rest: Bytes)
    requires ChunkSize(chunkSize) && r.buffer == []
    ensures Absorb(r, Encode(record, chunkSize) + rest)
            == Absorb(Reader([], [], r.delivered + [Deliver(r.packet + record)]), rest)
    decreases |record|
  {
    if |record| > chunkSize {
      var chunk, others := record[..chunkSize], Encode(record[chunkSize..], chunkSize);
      assert Fragment(false, chunk) + others + rest == Fragment(false, chunk) + (others + rest);
      AbsorbFragment(r, false, chunk, others + rest);
      AbsorbRecord(Reader([], r.packet + chunk, r.delivered), record[chunkSize..], chunkSize, rest);
      assert r.packet + chunk + record[chunkSize..] == r.packet + record;
    } else {
      AbsorbFragment(r, true, record, rest);
    }
  }

  lemma {:induction false} AbsorbRecords(r: Reader, records: seq<Bytes>, chunkSize: nat, rest: Bytes)
    requires ChunkSize(chunkSize) && r.buffer == [] && r.packet == []
    ensures Absorb(r, EncodeAll(records, chunkSize) + rest)
            == Absorb(Reader([], [], r.delivered + DeliverAll(records)), rest)
    decreases |records|
  {
    if records == [] {
      assert [] + rest == rest && r.delivered + [] == r.delivered;
    } else {
      var others := EncodeAll(records[1..], chunkSize);
      assert Encode(records[0], chunkSize) + others + rest == Encode(records[0], chunkSize) + (others + rest);
      AbsorbRecord(r, records[0], chunkSize, others + rest);
      assert [] + records[0] == records[0];
      AbsorbRecords(Reader([], [], r.delivered + [Deliver(records[0])]), records[1..], chunkSize, rest);
      assert r.delivered + [Deliver(records[0])] + DeliverAll(records[1..]) == r.delivered + DeliverAll(records);
    }
  }

  /** What the server is to make of a record: four bytes are a command code, the most significant byte first;
      anything else is an RPC message. */
  predicate IsDeliveryOf(d: Delivery, record: Bytes) {
    if |record| == 4 then d == Command(BigEndian(record[0], record[1], record[2], record[3])) else d == Call(record)
  }

  lemma DeliverIsRight(record: Bytes)
    ensures forall d :: IsDeliveryOf(d, record) <==> d == Deliver(record)
  {
    if |record| == 4 {
      TopBit(record);
    }
  }

  /** Every record that is written is delivered once, in order, as what it is; nothing else is delivered and
      nothing kept back, however the stream was split. */
  lemma EveryRecordArrives(records: seq<Bytes>, chunkSize: nat, pieces: seq<Bytes>)
    requires ChunkSize(chunkSize) && Join(pieces) == EncodeAll(records, chunkSize)
    ensures var r := AbsorbAll(START, pieces);
            && r.buffer == [] && r.packet == [] && |r.delivered| == |records|
            && forall i | 0 <= i < |records| :: IsDeliveryOf(r.delivered[i], records[i])
  {
    hide IsDeliveryOf, Deliver;
    RoundTrip(records, chunkSize, pieces);
    forall i | 0 <= i < |records| ensures IsDeliveryOf(DeliverAll(records)[i], records[i]) {
      DeliverIsRight(records[i]);
    }
  }

  /** For instance, the four bytes 0 0 0 1 are the command 1. */
  lemma CommandExample()
    ensures var stream: Bytes := [0x80, 0, 0, 4, 0, 0, 0, 1]; Absorb(START, stream) == Reader([], [], [Command(1)])
  {
    var record, stream: Bytes := [0, 0, 0, 1], [0x80, 0, 0, 4, 0, 0, 0, 1];
    assert Pack(4 + LAST) == [0x80, 0, 0, 4];
    assert Fragment(true, record) == stream;
    assert stream + [] == stream && [] + record == record;
    AbsorbFragment(START, true, record, []);
    DeliverIsRight(record);
    assert Deliver(record) == Command(1);
  }

  /** The round trip: the reader delivers exactly the records the writer was given, in order, and keeps
      nothing back, however the stream was split on its way. */
  lemma RoundTrip(records: seq<Bytes>, chunkSize: nat, pieces: seq<Bytes>)
    requires ChunkSize(chunkSize) && Join(pieces) == EncodeAll(records, chunkSize)
    ensures AbsorbAll(START, pieces) == Reader([], [], DeliverAll(records))
  {
    SplitDoesNotMatter(START, pieces);
    var stream := EncodeAll(records, chunkSize);
    assert stream + [] == stream;
    AbsorbRecords(START, records, chunkSize, []);
    assert [] + DeliverAll(records) == DeliverAll(records);
  }

  /** Reading never takes a delivery back. */
  lemma {:induction false} DeliveriesGrow(r: Reader)
    ensures r.delivered <= Drain(r).delivered
    decreases |r.buffer|
  {
    if HasFragment(r.buffer) {
      DeliveriesGrow(TakeFragment(r));
    }
  }

  lemma OnePiece(stream: Bytes)
    ensures Join([stream]) == stream && AbsorbAll(START, [stream]) == Absorb(START, stream)
  {
    var pieces := [stream];
    assert pieces[1..] == [];
  }

  /** Before the whole stream is there, what has been delivered are the first of the records. */
  lemma PartOfTheStream(records: seq<Bytes>, chunkSize: nat, pieces: seq<Bytes>)
    requires ChunkSize(chunkSize) && Join(pieces) <= EncodeAll(records, chunkSize)
    ensures AbsorbAll(START, pieces).delivered <= DeliverAll(records)
  {
    var stream, got := EncodeAll(records, chunkSize), Join(pieces);
    var rest := stream[|got|..];
    assert got + rest == stream;
    SplitDoesNotMatter(START, pieces);
    AbsorbTwice(START, got, rest);
    OnePiece(stream);
    RoundTrip(records, chunkSize, [stream]);
    var half := Absorb(START, got);
    DeliveriesGrow(half.(buffer := half.buffer + rest));
  }

  /** Different records are delivered differently. */
  lemma DeliverTellsApart(a: Bytes, b: Bytes)
    requires Deliver(a) == Deliver(b)
    ensures a == b
  {
    if |a| == 4 {
      UnpackInjective(a, b);
    }
  }

  /** So no two lists of records have the same stream, even with different fragment sizes. */
  lemma EncodingInjective(records1: seq<Bytes>, size1: nat, records2: seq<Bytes>, size2: nat)
    requires ChunkSize(size1) && ChunkSize(size2) && EncodeAll(records1, size1) == EncodeAll(records2, size2)
    ensures records1 == records2
  {
    var stream := EncodeAll(records1, size1);
    OnePiece(stream);
    RoundTrip(records1, size1, [stream]);
    RoundTrip(records2, size2, [stream]);
    forall i | 0 <= i < |records1| ensures records1[i] == records2[i] {
      assert DeliverAll(records1)[i] == DeliverAll(records2)[i];
      DeliverTellsApart(records1[i], records2[i]);
    }
  }

  // ----- the loops of the source -----

  /** A connected socket: it takes some of what it is given, at least a byte. */
  class Connection {
    var sent: Bytes

    method Send(data: Bytes) returns (count: nat)
      requires data != []
      modifies this
      ensures 1 <= count <= |data| && sent == old(sent) + data[..count]
    {
      count :| 1 <= count <= |data|;
      sent := sent + data[..count];
    }
  }

  /** What is left to write, to see the loop end. */
  function Remaining(records: seq<Bytes>): nat {
    if records == [] then 0 else |records[0]| + 1 + Remaining(records[1..])
  }

  /** The first fragment to write, and the records that remain to be written after it. */
  lemma NextFragment(records: seq<Bytes>, chunkSize: nat)
    requires ChunkSize(chunkSize) && records != []
    ensures var data := records[0];
            EncodeAll(records, chunkSize)
            == if |data| > chunkSize
               then Fragment(false, data[..chunkSize]) + EncodeAll([data[chunkSize..]] + records[1..], chunkSize)
               else Fragment(true, data) + EncodeAll(records[1..], chunkSize)
  {
    hide Fragment;
    var data := records[0];
    if |data| > chunkSize {
      var after := [data[chunkSize..]] + records[1..];
      assert after[0] == data[chunkSize..] && after[1..] == records[1..];
    }
  }

  class WriterThread {
    var records: seq<Bytes>
    var buffer: Bytes
    var holdsLock: bool

    constructor ()
      ensures records == [] && buffer == [] && !holdsLock
    {
      records, buffer, holdsLock := [], [], false;
    }

    /** Marks and buffers the next fragment. */
    method NextBuffer(chunkSize: nat) returns (last: bool)
      requires ChunkSize(chunkSize) && buffer == [] && records != []
      modifies this
      ensures buffer != [] && buffer + EncodeAll(records, chunkSize) == EncodeAll(old(records), chunkSize)
      ensures !last ==> records != []
      ensures Remaining(records) < Remaining(old(records))
      ensures holdsLock == (old(holdsLock) || !last)
    {
      hide Encode, EncodeAll, Pack;
      NextFragment(records, chunkSize);
      var data := records[0];
      var chunk := data;
      if |data| > chunkSize {
        chunk := data[..chunkSize];
        last := false;
        records := [data[chunkSize..]] + records[1..];
        assert records[1..] == old(records)[1..];
        holdsLock := true;
      } else {
        last := true;
        records := records[1..];
      }
      buffer := Pack(|chunk| + if last then LAST else 0) + chunk;
    }

    /** event_write_thread: writes every record, and has given the lock back at the end. */
    method EventWrite(conn: Connection, chunkSize: nat)
      requires ChunkSize(chunkSize) && buffer == [] && !holdsLock
      modifies this, conn
      ensures conn.sent == old(conn.sent) + EncodeAll(old(records), chunkSize)
      ensures records == [] && buffer == [] && !holdsLock
    {
      hide Encode, EncodeAll, Remaining;
      var last := true;
      ghost var stream := conn.sent + EncodeAll(records, chunkSize);
      assert stream == conn.sent + (buffer + EncodeAll(records, chunkSize));
      while buffer != [] || records != []
        invariant conn.sent + (buffer + EncodeAll(records, chunkSize)) == stream
        invariant !last ==> records != []
        invariant holdsLock ==> buffer != [] || !last
        decreases Remaining(records), |buffer|
      {
        if buffer == [] {
          assert [] + EncodeAll(records, chunkSize) == EncodeAll(records, chunkSize);
          last := NextBuffer(chunkSize);
        }
        SendSome(conn.sent, buffer, EncodeAll(records, chunkSize));
        var count := conn.Send(buffer);
        buffer := buffer[count..];
        if last && buffer == [] && holdsLock {
          holdsLock := false;
        }
      }
      NothingToEncode(chunkSize);
    }
  }

  lemma SendSome(sent: Bytes, buffer: Bytes, rest: Bytes)
    ensures forall count | 0 <= count <= |buffer| ::
              sent + buffer[..count] + (buffer[count..] + rest) == sent + (buffer + rest)
  {
  }

  lemma NothingToEncode(chunkSize: nat)
    requires ChunkSize(chunkSize)
    ensures EncodeAll([], chunkSize) == []
  {
  }

  class ReaderState {
    var buffer: Bytes
    var packets: seq<Bytes>
    var delivered: seq<Delivery>

    ghost function Value(): Reader
      reads this
    {
      Reader(buffer, Join(packets), delivered)
    }

    constructor ()
      ensures Value() == START
    {
      buffer, packets, delivered := [], [], [];
    }

    /** Takes the fragment at the front, which is complete, and delivers the record it may end. */
    method TakeOne(last: bool, length: nat)
      requires HasFragment(buffer) && last == IsLast(buffer) && length == Length(buffer)
      modifies this
      ensures Value() == TakeFragment(old(Value()))
      ensures buffer == old(buffer)[4 + length..]
      ensures !last ==> delivered == old(delivered)
      ensures last ==> packets == [] && |delivered| == |old(delivered)| + 1 && old(delivered) <= delivered
                       && IsDeliveryOf(delivered[|old(delivered)|], Join(old(packets)) + old(buffer)[4..4 + length])
    {
      hide Unpack, Join, IsLast, Length, IsDeliveryOf, Deliver;
      DeliverIsRight(Join(packets) + buffer[4..4 + length]);
      JoinAppend(packets, buffer[4..4 + length]);
      packets := packets + [buffer[4..4 + length]];
      buffer := buffer[4 + length..];
      if last {
        var record := JoinAll(packets);
        packets := [];
        DeliverByLength(record);
        delivered := delivered + [if |record| == 4 then Command(Unpack(record)) else Call(record)];
        JoinOfNone();
      }
    }

    /** event_read. */
    method EventRead(data: Bytes)
      modifies this
      ensures Value() == Absorb(old(Value()), data)
    {
      hide Join, Unpack, TakeFragment;
      buffer := buffer + data;
      ghost var goal := Drain(Value());
      var loop := true;
      while loop
        invariant loop ==> Drain(Value()) == goal
        invariant !loop ==> Value() == goal
        decreases loop, |buffer|
      {
        loop := false;
        if |buffer| >= 4 {
          var word := Unpack(buffer[..4]);
          var last := word >= LAST;
          var length := word % LAST;
          if |buffer| >= 4 + length {
            TakesSome(Value());
            TakeOne(last, length);
            loop := buffer != [];
          }
        }
      }
    }
  }

  lemma DeliverByLength(record: Bytes)
    ensures Deliver(record) == if |record| == 4 then Command(Unpack(record)) else Call(record)
  {
  }

  lemma TakesSome(r: Reader)
    requires HasFragment(r.buffer)
    ensures |TakeFragment(r).buffer| < |r.buffer|
  {
  }

  lemma JoinOfNone()
    ensures Join([]) == []
  {
  }

  lemma {:induction false} JoinAppend(pieces: seq<Bytes>, piece: Bytes)
    ensures Join(pieces + [piece]) == Join(pieces) + piece
    decreases |pieces|
  {
    if pieces == [] {
      assert ([] + [piece])[1..] == [];
    } else {
      assert (pieces + [piece])[1..] == pieces[1..] + [piece];
      JoinAppend(pieces[1..], piece);
    }
  }

  method JoinAll(pieces: seq<Bytes>) returns (all: Bytes)
    ensures all == Join(pieces)
  {
    all := [];
    for i := 0 to |pieces|
      invariant all == Join(pieces[..i])
    {
      assert pieces[..i + 1] == pieces[..i] + [pieces[i]];
      JoinAppend(pieces[..i], pieces[i]);
      all := all + pieces[i];
    }
    assert pieces[..|pieces|] == pieces;
  }
}
