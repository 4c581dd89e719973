/** LAYOUTCOMMIT as a client sees it: what becomes of the blocks of a file, in terms of the byte offsets that
    the request and the layout name. */
module CommitBytes {
  import opened LayoutCommit

  // ----- requests, in bytes -----

  predicate GoodUpdate(u: Update, arg: CommitArgs, bs: nat)
    requires bs > 0
  {
    && u.state == ReadWrite && u.fileOffset % bs == 0 && u.storageOffset % bs == 0 && u.length % bs == 0
    && arg.offset <= u.fileOffset && u.fileOffset + u.length <= arg.offset + arg.length
  }

  /** The request is for the layout's type, whole blocks of it, and updates inside the range it names. */
  predicate GoodArgs(layout: Layout, arg: CommitArgs, bs: nat)
    requires bs > 0
  {
    && layout.kind == arg.kind && arg.offset % bs == 0 && arg.length % bs == 0
    && layout.start * bs <= arg.offset && arg.offset + arg.length <= (layout.start + layout.length) * bs
    && forall u | u in arg.updates :: GoodUpdate(u, arg, bs)
  }

  /** The extent holds the bytes of the update, where the update says, and has not been written. */
  predicate Holds(e: Extent, u: Update, bs: nat) {
    && e.state == Invalid && e.fOffset * bs <= u.fileOffset && u.fileOffset + u.length <= (e.fOffset + e.length) * bs
    && u.storageOffset - e.dOffset * bs == u.fileOffset - e.fOffset * bs
  }

  predicate InSome(raw: seq<Extent>, u: Update, bs: nat) {
    exists i :: 0 <= i < |raw| && Holds(raw[i], u, bs)
  }

  predicate NoOverlap(u: Update, w: Update) {
    u.fileOffset + u.length <= w.fileOffset || w.fileOffset + w.length <= u.fileOffset
  }

  predicate NoOverlaps(updates: seq<Update>) {
    forall i, j | 0 <= i < j < |updates| :: NoOverlap(updates[i], updates[j])
  }

  /** Some update covers the first byte, and so all, of a file block. */
  predicate Committed(file: nat, updates: seq<Update>, bs: nat) {
    exists u | u in updates :: u.fileOffset <= file * bs < u.fileOffset + u.length
  }

  // ----- bytes and blocks -----

  lemma Whole(x: nat, bs: nat)
    requires bs > 0 && x % bs == 0
    ensures x == x / bs * bs
  {
  }

  lemma Scaled(a: int, b: int, bs: nat)
    requires bs > 0
    ensures a <= b <==> a * bs <= b * bs
    ensures a == b <==> a * bs == b * bs
  {
    if a < b {
      Positive(b - a, bs);
    } else if b < a {
      Positive(a - b, bs);
    }
  }

  lemma Positive(n: int, bs: nat)
    requires n > 0 && bs > 0
    ensures n * bs > 0
  {
  }

  lemma WholeSum(x: nat, y: nat, bs: nat)
    requires bs > 0 && x % bs == 0 && y % bs == 0
    ensures (x / bs + y / bs) * bs == x + y && (x + y) / bs == x / bs + y / bs
  {
    Whole(x, bs);
    Whole(y, bs);
    var q := x / bs + y / bs;
    assert q * bs == x / bs * bs + y / bs * bs;
    Quotient(x + y, q, bs);
  }

  lemma Quotient(x: nat, q: nat, bs: nat)
    requires bs > 0 && x == q * bs
    ensures x / bs == q
  {
    assert x == x / bs * bs + x % bs;
    Scaled(x / bs, q, bs);
    if x / bs < q {
      Scaled(x / bs + 1, q, bs);
    }
  }

  lemma UpdateOkExactlyIf(u: Update, arg: CommitArgs, bs: nat)
    requires bs > 0 && arg.offset % bs == 0 && arg.length % bs == 0
    ensures GoodUpdate(u, arg, bs) <==> UpdateOk(u, arg.offset / bs, arg.length / bs, bs)
  {
    if u.fileOffset % bs == 0 && u.length % bs == 0 {
      WholeSum(u.fileOffset, u.length, bs);
      WholeSum(arg.offset, arg.length, bs);
      Whole(u.fileOffset, bs);
      Whole(arg.offset, bs);
      Scaled(arg.offset / bs, u.fileOffset / bs, bs);
      Scaled((u.fileOffset + u.length) / bs, arg.offset / bs + arg.length / bs, bs);
    }
  }

  /** The checks of the source, which are on blocks, are these on bytes. */
  lemma ArgsOkExactlyIf(layout: Layout, arg: CommitArgs, bs: nat)
    requires bs > 0
    ensures GoodArgs(layout, arg, bs) <==> ArgsOk(layout, arg, bs)
  {
    hide GoodUpdate, UpdateOk;
    if arg.offset % bs == 0 && arg.length % bs == 0 {
      WholeSum(arg.offset, arg.length, bs);
      Whole(arg.offset, bs);
      Scaled(layout.start, arg.offset / bs, bs);
      Scaled(arg.offset / bs + arg.length / bs, layout.start + layout.length, bs);
      forall u | u in arg.updates ensures GoodUpdate(u, arg, bs) <==> UpdateOk(u, arg.offset / bs, arg.length / bs, bs) {
        UpdateOkExactlyIf(u, arg, bs);
      }
    }
  }

  lemma MappingInBytes(e: Extent, u: Update, bs: nat)
    requires bs > 0 && u.fileOffset % bs == 0 && u.storageOffset % bs == 0
    ensures SameMapping(e, SpanOf(u, bs)) <==> u.storageOffset - e.dOffset * bs == u.fileOffset - e.fOffset * bs
  {
    Whole(u.fileOffset, bs);
    Whole(u.storageOffset, bs);
    var f, d := u.fileOffset / bs, u.storageOffset / bs;
    assert (f - e.fOffset) * bs == u.fileOffset - e.fOffset * bs;
    assert (d - e.dOffset) * bs == u.storageOffset - e.dOffset * bs;
    Scaled(f - e.fOffset, d - e.dOffset, bs);
  }

  lemma HoldsInBlocks(e: Extent, u: Update, bs: nat)
    requires bs > 0 && u.fileOffset % bs == 0 && u.storageOffset % bs == 0 && u.length % bs == 0 && Holds(e, u, bs)
    ensures e.state == Invalid && Inside(e, SpanOf(u, bs)) && SameMapping(e, SpanOf(u, bs))
  {
    MappingInBytes(e, u, bs);
    Whole(u.fileOffset, bs);
    WholeSum(u.fileOffset, u.length, bs);
    Scaled(e.fOffset, u.fileOffset / bs, bs);
    Scaled(u.fileOffset / bs + u.length / bs, e.fOffset + e.length, bs);
  }

  lemma NonEmpty(u: Update, bs: nat)
    requires bs > 0 && u.length % bs == 0 && u.length > 0
    ensures u.length / bs > 0
  {
    Whole(u.length, bs);
  }

  lemma ApartInBlocks(u: Update, w: Update, bs: nat)
    requires bs > 0 && u.fileOffset % bs == 0 && u.length % bs == 0 && w.fileOffset % bs == 0 && w.length % bs == 0
    requires NoOverlap(u, w)
    ensures Apart(SpanOf(u, bs), SpanOf(w, bs))
  {
    Whole(u.fileOffset, bs);
    Whole(w.fileOffset, bs);
    WholeSum(u.fileOffset, u.length, bs);
    WholeSum(w.fileOffset, w.length, bs);
    Scaled(u.fileOffset / bs + u.length / bs, w.fileOffset / bs, bs);
    Scaled(w.fileOffset / bs + w.length / bs, u.fileOffset / bs, bs);
  }

  lemma CoveredInBytes(file: nat, u: Update, bs: nat)
    requires bs > 0 && u.fileOffset % bs == 0 && u.length % bs == 0
    ensures var s := SpanOf(u, bs);
            s.start <= file < s.start + s.length <==> u.fileOffset <= file * bs < u.fileOffset + u.length
  {
    Whole(u.fileOffset, bs);
    WholeSum(u.fileOffset, u.length, bs);
    Scaled(u.fileOffset / bs, file, bs);
    Scaled(u.fileOffset / bs + u.length / bs, file, bs);
  }

  lemma CoveredExactlyIf(file: nat, updates: seq<Update>, bs: nat)
    requires bs > 0 && forall u | u in updates :: u.fileOffset % bs == 0 && u.length % bs == 0
    ensures Covered(file, Spans(updates, bs)) <==> Committed(file, updates, bs)
  {
    var spans := Spans(updates, bs);
    forall k | 0 <= k < |updates|
      ensures spans[k].start <= file < spans[k].start + spans[k].length
              <==> updates[k].fileOffset <= file * bs < updates[k].fileOffset + updates[k].length
    {
      CoveredInBytes(file, updates[k], bs);
    }
    if s :| s in spans && s.start <= file < s.start + s.length {
      var k :| 0 <= k < |spans| && spans[k] == s;
      assert updates[k] in updates;
    }
    if u :| u in updates && u.fileOffset <= file * bs < u.fileOffset + u.length {
      var k :| 0 <= k < |updates| && updates[k] == u;
      assert spans[k] in spans;
    }
  }

  // ----- a commit that goes through -----

  /** A good request whose updates are not empty, do not overlap and each lie in an extent that has not been
      written, at the disk offsets the extent gives: it is accepted; the extents still cover the same blocks of
      the file; every block of the file is where it was on the disk; and a block is read-write afterwards
      exactly if it was or some update covers its bytes. */
  lemma CommitsExactlyTheBytes(raw: seq<Extent>, layout: Layout, arg: CommitArgs, bs: nat)
    requires bs > 0 && raw != [] && Contiguous(raw) && GoodArgs(layout, arg, bs) && NoOverlaps(arg.updates)
    requires forall u | u in arg.updates :: u.length > 0 && InSome(raw, u, bs)
    ensures var (raw', status) := Commit(raw, layout, arg, bs);
            && status == Ok && Contiguous(raw') && SameRange(raw, raw') && |Blocks(raw')| == |Blocks(raw)|
            && forall k | 0 <= k < |Blocks(raw)| ::
                 var b, b' := Blocks(raw)[k], Blocks(raw')[k];
                 && b'.file == b.file && b'.disk == b.disk
                 && b'.state == if Committed(b.file, arg.updates, bs) then ReadWrite else b.state
  {
    hide GoodUpdate, Holds, Blocks, Contiguous, ApplyAll, Committed, Covered;
    ArgsOkExactlyIf(layout, arg, bs);
    var spans := Spans(arg.updates, bs);
    forall s | s in spans ensures Fits(raw, s) {
      var k :| 0 <= k < |spans| && spans[k] == s;
      FitsInBytes(raw, arg.updates[k], arg, bs);
    }
    forall i, j | 0 <= i < j < |spans| ensures Apart(spans[i], spans[j]) {
      GoodIsAligned(arg.updates[i], arg, bs);
      GoodIsAligned(arg.updates[j], arg, bs);
      ApartInBlocks(arg.updates[i], arg.updates[j], bs);
    }
    CommitConserves(raw, spans);
    forall k | 0 <= k < |Blocks(raw)|
      ensures var b, b' := Blocks(raw)[k], MarkAll(Blocks(raw), spans)[k];
              && b'.file == b.file && b'.disk == b.disk
              && b'.state == if Committed(b.file, arg.updates, bs) then ReadWrite else b.state
    {
      MarkedExactly(Blocks(raw), spans, k);
      AllAligned(arg, bs);
      CoveredExactlyIf(Blocks(raw)[k].file, arg.updates, bs);
    }
  }

  lemma GoodIsAligned(u: Update, arg: CommitArgs, bs: nat)
    requires bs > 0 && GoodUpdate(u, arg, bs)
    ensures u.fileOffset % bs == 0 && u.storageOffset % bs == 0 && u.length % bs == 0
  {
  }

  lemma AllAligned(arg: CommitArgs, bs: nat)
    requires bs > 0 && forall u | u in arg.updates :: GoodUpdate(u, arg, bs)
    ensures forall u | u in arg.updates :: u.fileOffset % bs == 0 && u.length % bs == 0
  {
  }

  lemma FitsInBytes(raw: seq<Extent>, u: Update, arg: CommitArgs, bs: nat)
    requires bs > 0 && GoodUpdate(u, arg, bs) && u.length > 0 && InSome(raw, u, bs)
    ensures Fits(raw, SpanOf(u, bs))
  {
    var i :| 0 <= i < |raw| && Holds(raw[i], u, bs);
    HoldsInBlocks(raw[i], u, bs);
    NonEmpty(u, bs);
  }

  // ----- a commit that is refused -----

  /** The extent an update is checked against: the last one that starts at or before it, else the first. */
  predicate IsFound(raw: seq<Extent>, u: Update, i: nat, bs: nat) {
    && i < |raw| && (i == 0 || raw[i].fOffset * bs <= u.fileOffset)
    && forall j | i < j < |raw| :: u.fileOffset < raw[j].fOffset * bs
  }

  /** Update k is the first to name another place on the disk than the extent it is checked against, in the list
      that the updates before it have left. */
  predicate RefusedAt(raw: seq<Extent>, layout: Layout, arg: CommitArgs, bs: nat, k: nat)
    requires bs > 0
  {
    && k < |arg.updates|
    && var (left, status) := Commit(raw, layout, arg.(updates := arg.updates[..k]), bs);
       && status == Ok
       && exists i :: 0 <= i < |left| && IsFound(left, arg.updates[k], i, bs)
            && arg.updates[k].storageOffset - left[i].dOffset * bs != arg.updates[k].fileOffset - left[i].fOffset * bs
  }

  lemma FoundIsFind(raw: seq<Extent>, u: Update, i: nat, bs: nat)
    requires bs > 0 && u.fileOffset % bs == 0 && raw != []
    ensures IsFound(raw, u, i, bs) <==> i == Find(raw, u.fileOffset / bs)
  {
    var f := Find(raw, u.fileOffset / bs);
    Whole(u.fileOffset, bs);
    forall j | 0 <= j < |raw| ensures raw[j].fOffset <= u.fileOffset / bs <==> raw[j].fOffset * bs <= u.fileOffset {
      Scaled(raw[j].fOffset, u.fileOffset / bs, bs);
    }
    assert IsFound(raw, u, f, bs);
  }

  lemma RefusesExactlyIf(raw: seq<Extent>, u: Update, bs: nat)
    requires bs > 0 && u.fileOffset % bs == 0 && u.storageOffset % bs == 0 && raw != []
    ensures Apply(raw, SpanOf(u, bs)).1 == BadLayout
            <==> exists i :: 0 <= i < |raw| && IsFound(raw, u, i, bs)
                   && u.storageOffset - raw[i].dOffset * bs != u.fileOffset - raw[i].fOffset * bs
    ensures Apply(raw, SpanOf(u, bs)).1 in {Ok, BadLayout}
    ensures Apply(raw, SpanOf(u, bs)).1 == Ok ==> Apply(raw, SpanOf(u, bs)).0 != []
  {
    hide IsFound, Find;
    var f := Find(raw, u.fileOffset / bs);
    FoundIsFind(raw, u, f, bs);
    MappingInBytes(raw[f], u, bs);
    if i :| 0 <= i < |raw| && IsFound(raw, u, i, bs)
            && u.storageOffset - raw[i].dOffset * bs != u.fileOffset - raw[i].fOffset * bs {
      FoundIsFind(raw, u, i, bs);
    }
  }

  /** One update more: the others have gone through first. */
  lemma {:induction false} ApplyOneMore(raw: seq<Extent>, spans: seq<Span>, s: Span)
    ensures ApplyAll(raw, spans + [s])
            == (var (left, status) := ApplyAll(raw, spans); if status == Ok then Apply(left, s) else (left, status))
    decreases |spans|
  {
    var all := spans + [s];
    if spans == [] {
      assert all[1..] == [];
    } else {
      assert all[1..] == spans[1..] + [s];
      ApplyOneMore(Apply(raw, spans[0]).0, spans[1..], s);
    }
  }

  lemma CommitOneMore(raw: seq<Extent>, layout: Layout, arg: CommitArgs, bs: nat, n: nat)
    requires bs > 0 && GoodArgs(layout, arg, bs) && n < |arg.updates|
    ensures Commit(raw, layout, arg.(updates := arg.updates[..n + 1]), bs)
            == (var (left, status) := Commit(raw, layout, arg.(updates := arg.updates[..n]), bs);
                if status == Ok then Apply(left, SpanOf(arg.updates[n], bs)) else (left, status))
  {
    hide GoodUpdate, ApplyAll, Apply;
    GoodPart(layout, arg, bs, n);
    GoodPart(layout, arg, bs, n + 1);
    assert Spans(arg.updates[..n + 1], bs) == Spans(arg.updates[..n], bs) + [SpanOf(arg.updates[n], bs)];
    ApplyOneMore(raw, Spans(arg.updates[..n], bs), SpanOf(arg.updates[n], bs));
  }

  lemma GoodPart(layout: Layout, arg: CommitArgs, bs: nat, n: nat)
    requires bs > 0 && GoodArgs(layout, arg, bs) && n <= |arg.updates|
    ensures ArgsOk(layout, arg.(updates := arg.updates[..n]), bs)
  {
    hide UpdateOk;
    var part := arg.(updates := arg.updates[..n]);
    forall u | u in part.updates ensures GoodUpdate(u, part, bs) {
      assert u in arg.updates;
    }
    ArgsOkExactlyIf(layout, part, bs);
  }

  lemma {:induction false} RefusedExactlyIfSome(raw: seq<Extent>, layout: Layout, arg: CommitArgs, bs: nat, n: nat)
    requires bs > 0 && raw != [] && GoodArgs(layout, arg, bs) && n <= |arg.updates|
    ensures var (left, status) := Commit(raw, layout, arg.(updates := arg.updates[..n]), bs);
            && status in {Ok, BadLayout} && (status == Ok ==> left != [])
            && (status == BadLayout <==> exists k :: 0 <= k < n && RefusedAt(raw, layout, arg, bs, k))
    decreases n
  {
    hide GoodUpdate, Apply, IsFound, RefusedAt;
    GoodPart(layout, arg, bs, n);
    if n == 0 {
      assert Spans(arg.updates[..0], bs) == [];
    } else {
      RefusedExactlyIfSome(raw, layout, arg, bs, n - 1);
      CommitOneMore(raw, layout, arg, bs, n - 1);
      RefusedNow(raw, layout, arg, bs, n - 1);
    }
  }

  lemma RefusedNow(raw: seq<Extent>, layout: Layout, arg: CommitArgs, bs: nat, k: nat)
    requires bs > 0 && GoodArgs(layout, arg, bs) && k < |arg.updates|
    requires var (left, status) := Commit(raw, layout, arg.(updates := arg.updates[..k]), bs); status == Ok ==> left != []
    ensures var (left, status) := Commit(raw, layout, arg.(updates := arg.updates[..k]), bs);
            && (status != Ok ==> !RefusedAt(raw, layout, arg, bs, k))
            && (status == Ok ==>
                  var after := Apply(left, SpanOf(arg.updates[k], bs));
                  && (after.1 == BadLayout <==> RefusedAt(raw, layout, arg, bs, k))
                  && after.1 in {Ok, BadLayout} && (after.1 == Ok ==> after.0 != []))
  {
    hide Apply, IsFound, Commit;
    var (left, status) := Commit(raw, layout, arg.(updates := arg.updates[..k]), bs);
    if status == Ok {
      assert GoodUpdate(arg.updates[k], arg, bs);
      RefusesExactlyIf(left, arg.updates[k], bs);
    }
  }

  /** NFS4ERR_BADLAYOUT is the answer exactly to a request that is not good, or one of whose updates names another
      place on the disk than the extent it is checked against. Without any extent, a good request with an update
      meets an error of the server itself. */
  lemma BadLayoutExactlyIf(raw: seq<Extent>, layout: Layout, arg: CommitArgs, bs: nat)
    requires bs > 0
    ensures Commit(raw, layout, arg, bs).1 == BadLayout
            <==> !GoodArgs(layout, arg, bs) || exists k :: 0 <= k < |arg.updates| && RefusedAt(raw, layout, arg, bs, k)
    ensures Commit(raw, layout, arg, bs).1 == ServerFault <==> GoodArgs(layout, arg, bs) && raw == [] && arg.updates != []
    ensures !GoodArgs(layout, arg, bs) ==> Commit(raw, layout, arg, bs).0 == raw
  {
    hide GoodArgs, ArgsOk, RefusedAt;
    ArgsOkExactlyIf(layout, arg, bs);
    if GoodArgs(layout, arg, bs) {
      assert arg.(updates := arg.updates[..|arg.updates|]) == arg;
      if raw != [] {
        RefusedExactlyIfSome(raw, layout, arg, bs, |arg.updates|);
      } else {
        NothingToRefuse(layout, arg, bs);
      }
    }
  }

  lemma NothingToRefuse(layout: Layout, arg: CommitArgs, bs: nat)
    requires bs > 0
    ensures forall k: nat :: !RefusedAt([], layout, arg, bs, k)
    ensures ArgsOk(layout, arg, bs) ==> Commit([], layout, arg, bs).1 == if arg.updates == [] then Ok else ServerFault
  {
    forall k: nat ensures !RefusedAt([], layout, arg, bs, k) {
      EmptyStaysEmpty(Spans(if k < |arg.updates| then arg.updates[..k] else [], bs));
    }
    EmptyStaysEmpty(Spans(arg.updates, bs));
  }

  lemma EmptyStaysEmpty(spans: seq<Span>)
    ensures ApplyAll([], spans).0 == [] && ApplyAll([], spans).1 == if spans == [] then Ok else ServerFault
  {
  }

  lemma ApplyAllOne(raw: seq<Extent>, s: Span)
    ensures ApplyAll(raw, [s]) == Apply(raw, s)
  {
    hide Apply;
    assert [s][1..] == [];
  }

  lemma ApplyOnly(le: Extent, s: Span)
    requires SameMapping(le, s)
    ensures Apply([le], s) == (Pieces(le, s), Ok)
  {
    hide Pieces;
    OnlyExtent(le, s);
  }

  lemma ExamplePieces()
    ensures SameMapping(Extent(0, 10, 4, Invalid), Span(0, 10, 1))
    ensures Pieces(Extent(0, 10, 4, Invalid), Span(0, 10, 1)) == [Extent(0, 10, 1, ReadWrite), Extent(1, 11, 3, Invalid)]
  {
  }

  lemma ExampleIsGood(layout: Layout, arg: CommitArgs)
    requires layout == Layout(3, 0, 4) && arg == CommitArgs(3, 0, 16384, 4095, [Update(0, 40960, 4096, ReadWrite)])
    ensures ArgsOk(layout, arg, 4096) && Spans(arg.updates, 4096) == [Span(0, 10, 1)]
  {
    ArgsOkExactlyIf(layout, arg, 4096);
  }

  /** For instance, the first of four uninitialised blocks. */
  lemma CommitExample()
    ensures Commit([Extent(0, 10, 4, Invalid)], Layout(3, 0, 4),
                   CommitArgs(3, 0, 16384, 4095, [Update(0, 40960, 4096, ReadWrite)]), 4096)
            == ([Extent(0, 10, 1, ReadWrite), Extent(1, 11, 3, Invalid)], Ok)
  {
    hide ArgsOk, Spans, Apply, ApplyAll, Pieces, SameMapping;
    var e, s := Extent(0, 10, 4, Invalid), Span(0, 10, 1);
    ExampleIsGood(Layout(3, 0, 4), CommitArgs(3, 0, 16384, 4095, [Update(0, 40960, 4096, ReadWrite)]));
    ExamplePieces();
    ApplyOnly(e, s);
    ApplyAllOne([e], s);
  }
}
