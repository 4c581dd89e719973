/** pynfs/nfs4.1/fs.py, `_commit_layout`: a LAYOUTCOMMIT marks blocks of a file as written by splitting
    the extents of its layout. */
module LayoutCommit {

  datatype State = ReadWrite | Invalid | Unmapped

  /** Lengths and offsets are in blocks. */
  datatype Extent = Extent(fOffset: nat, dOffset: nat, length: nat, state: State)

  /** An entry of the client's commit list, in bytes. */
  datatype Update = Update(fileOffset: nat, storageOffset: nat, length: nat, state: State)

  /** The same in blocks. */
  datatype Span = Span(start: nat, disk: nat, length: nat)

  datatype Layout = Layout(kind: nat, start: nat, length: nat)

  datatype CommitArgs = CommitArgs(kind: nat, offset: nat, length: nat, lastWriteOffset: nat, updates: seq<Update>)

  datatype Status = Ok | BadLayout | ServerFault

  function SpanOf(u: Update, bs: nat): Span
    requires bs > 0
  {
    Span(u.fileOffset / bs, u.storageOffset / bs, u.length / bs)
  }

  // ----- what the code computes -----

  /** The last extent that starts at or before the block, the first one if there is none. */
  function Find(raw: seq<Extent>, start: nat): (i: nat)
    requires raw != []
    ensures i < |raw| && (i == 0 || raw[i].fOffset <= start)
    ensures forall j | i < j < |raw| :: start < raw[j].fOffset
  {
    if |raw| == 1 || start >= raw[|raw| - 1].fOffset then |raw| - 1 else Find(raw[..|raw| - 1], start)
  }

  function Pieces(le: Extent, s: Span): seq<Extent> {
    (if s.start > le.fOffset then [Extent(le.fOffset, le.dOffset, s.start - le.fOffset, Invalid)] else [])
    + [Extent(s.start, s.disk, s.length, ReadWrite)]
    + if s.start + s.length < le.fOffset + le.length
      then [Extent(s.start + s.length, s.disk + s.length, le.fOffset + le.length - (s.start + s.length), Invalid)]
      else []
  }

  predicate SameMapping(le: Extent, s: Span) {
    s.start - le.fOffset == s.disk - le.dOffset
  }

  function Split(raw: seq<Extent>, i: nat, s: Span): seq<Extent>
    requires i < |raw|
  {
    raw[..i] + Pieces(raw[i], s) + raw[i + 1..]
  }

  /** One update: an empty list has no extent to look at, and a different mapping is refused. */
  function Apply(raw: seq<Extent>, s: Span): (seq<Extent>, Status) {
    if raw == [] then (raw, ServerFault)
    else
      var i := Find(raw, s.start);
      if SameMapping(raw[i], s) then (Split(raw, i, s), Ok) else (raw, BadLayout)
  }

  /** Updates are applied in turn; an error stops, and what is applied stays. */
  function ApplyAll(raw: seq<Extent>, spans: seq<Span>): (seq<Extent>, Status)
    decreases spans
  {
    if spans == [] then (raw, Ok)
    else
      var (raw', status) := Apply(raw, spans[0]);
      if status.Ok? then ApplyAll(raw', spans[1..]) else (raw', status)
  }

  predicate UpdateOk(u: Update, start: nat, length: nat, bs: nat)
    requires bs > 0
  {
    && u.state == ReadWrite
    && u.storageOffset % bs == 0 && u.length % bs == 0 && u.fileOffset % bs == 0
    && start <= u.fileOffset / bs && (u.fileOffset + u.length) / bs <= start + length
  }

  predicate ArgsOk(layout: Layout, arg: CommitArgs, bs: nat)
    requires bs > 0
  {
    && layout.kind == arg.kind && arg.offset % bs == 0 && arg.length % bs == 0
    && layout.start <= arg.offset / bs && arg.offset / bs + arg.length / bs <= layout.start + layout.length
    && forall u | u in arg.updates :: UpdateOk(u, arg.offset / bs, arg.length / bs, bs)
  }

  function Spans(updates: seq<Update>, bs: nat): (spans: seq<Span>)
    requires bs > 0
    ensures |spans| == |updates|
  {
    seq(|updates|, i requires 0 <= i < |updates| => SpanOf(updates[i], bs))
  }

  function Commit(raw: seq<Extent>, layout: Layout, arg: CommitArgs, bs: nat): (seq<Extent>, Status)
    requires bs > 0
  {
    if ArgsOk(layout, arg, bs) then ApplyAll(raw, Spans(arg.updates, bs)) else (raw, BadLayout)
  }

  // ----- the mapping a list of extents stands for -----

  datatype Block = Block(file: nat, disk: nat, state: State)

  function ExtentBlocks(e: Extent): (blocks: seq<Block>)
    ensures |blocks| == e.length
  {
    seq(e.length, k requires 0 <= k < e.length => Block(e.fOffset + k, e.dOffset + k, e.state))
  }

  function Blocks(raw: seq<Extent>): seq<Block> {
    if raw == [] then [] else Blocks(raw[..|raw| - 1]) + ExtentBlocks(raw[|raw| - 1])
  }

  /** Sorted, without gaps or overlaps or empty extents. */
  ghost predicate Contiguous(raw: seq<Extent>) {
    && (forall i | 0 <= i < |raw| :: raw[i].length > 0)
    && forall i | 0 <= i < |raw| - 1 :: raw[i + 1].fOffset == raw[i].fOffset + raw[i].length
  }

  /** The same blocks, those of the span read-write. */
  function Mark(blocks: seq<Block>, s: Span): (marked: seq<Block>)
    ensures |marked| == |blocks|
  {
    seq(|blocks|, k requires 0 <= k < |blocks| =>
      if s.start <= blocks[k].file < s.start + s.length then blocks[k].(state := ReadWrite) else blocks[k])
  }

  function MarkAll(blocks: seq<Block>, spans: seq<Span>): (marked: seq<Block>)
    ensures |marked| == |blocks|
    decreases spans
  {
    if spans == [] then blocks else MarkAll(Mark(blocks, spans[0]), spans[1..])
  }

  predicate Inside(e: Extent, s: Span) {
    e.fOffset <= s.start && s.start + s.length <= e.fOffset + e.length
  }

  // ----- lemmas on lists -----

  lemma {:induction false} BlocksConcat(a: seq<Extent>, b: seq<Extent>)
    ensures Blocks(a + b) == Blocks(a) + Blocks(b)
  {
    hide ExtentBlocks;
    if b == [] {
      assert a + b == a;
    } else {
      BlocksConcat(a, b[..|b| - 1]);
      assert (a + b)[..|a + b| - 1] == a + b[..|b| - 1];
    }
  }

  lemma BlocksOne(e: Extent)
    ensures Blocks([e]) == ExtentBlocks(e)
  {
    assert [e][..0] == [];
  }

  lemma MarkConcat(a: seq<Block>, b: seq<Block>, s: Span)
    ensures Mark(a + b, s) == Mark(a, s) + Mark(b, s)
  {
  }

  lemma {:induction false} Ascend(raw: seq<Extent>, i: nat, j: nat)
    requires Contiguous(raw) && i < j < |raw|
    ensures raw[i].fOffset + raw[i].length <= raw[j].fOffset
    decreases j
  {
    assert raw[(j - 1) + 1].fOffset == raw[j - 1].fOffset + raw[j - 1].length;
    if i < j - 1 {
      Ascend(raw, i, j - 1);
    }
  }

  /** In a contiguous list the search finds the extent a block is in. */
  lemma FindFinds(raw: seq<Extent>, i: nat, start: nat)
    requires Contiguous(raw) && i < |raw| && raw[i].fOffset <= start < raw[i].fOffset + raw[i].length
    ensures Find(raw, start) == i
  {
    var f := Find(raw, start);
    if f < i {
      assert false;
    } else if i < f {
      Ascend(raw, i, f);
    }
  }

  ghost predicate Outside(blocks: seq<Block>, s: Span) {
    forall k | 0 <= k < |blocks| :: !(s.start <= blocks[k].file < s.start + s.length)
  }

  lemma MarkOutside(blocks: seq<Block>, s: Span)
    requires Outside(blocks, s)
    ensures Mark(blocks, s) == blocks
  {
  }

  lemma {:induction false} BlocksBelow(raw: seq<Extent>, bound: nat)
    requires forall i | 0 <= i < |raw| :: raw[i].fOffset + raw[i].length <= bound
    ensures forall k | 0 <= k < |Blocks(raw)| :: Blocks(raw)[k].file < bound
  {
    if raw != [] {
      BlocksBelow(raw[..|raw| - 1], bound);
    }
  }

  lemma {:induction false} BlocksFrom(raw: seq<Extent>, bound: nat)
    requires forall i | 0 <= i < |raw| :: bound <= raw[i].fOffset
    ensures forall k | 0 <= k < |Blocks(raw)| :: bound <= Blocks(raw)[k].file
  {
    if raw != [] {
      BlocksFrom(raw[..|raw| - 1], bound);
    }
  }

  /** The blocks of an extent that may be empty, listed only if it is not. */
  function IfAny(e: Extent): seq<Extent> {
    if e.length > 0 then [e] else []
  }

  lemma IfAnyBlocks(e: Extent)
    ensures Blocks(IfAny(e)) == ExtentBlocks(e)
  {
    if e.length > 0 {
      BlocksOne(e);
    }
  }

  lemma ExtentBlocksSplit(e: Extent, n: nat)
    requires n <= e.length
    ensures ExtentBlocks(e) == ExtentBlocks(e.(length := n))
                               + ExtentBlocks(e.(fOffset := e.fOffset + n, dOffset := e.dOffset + n, length := e.length - n))
  {
  }

  lemma MarkWhole(e: Extent, s: Span)
    requires s.start <= e.fOffset && e.fOffset + e.length <= s.start + s.length
    ensures Mark(ExtentBlocks(e), s) == ExtentBlocks(e.(state := ReadWrite))
  {
  }

  lemma MarkApart(e: Extent, s: Span)
    requires e.fOffset + e.length <= s.start || s.start + s.length <= e.fOffset
    ensures Mark(ExtentBlocks(e), s) == ExtentBlocks(e)
  {
  }

  /** Splitting an extent round a span inside it keeps its blocks and marks the span. The rest of it
      becomes uninitialised, whatever it was. */
  lemma PiecesBlocks(le: Extent, s: Span)
    requires Inside(le, s) && SameMapping(le, s) && s.length > 0
    ensures Blocks(Pieces(le, s)) == Mark(ExtentBlocks(le.(state := Invalid)), s)
  {
    hide Blocks, Mark, ExtentBlocks, Contiguous;
    var a := s.start - le.fOffset;
    var e := le.(state := Invalid);
    var head := e.(length := a);
    var rest := e.(fOffset := s.start, dOffset := s.disk, length := le.length - a);
    var middle := rest.(length := s.length);
    var tail := rest.(fOffset := s.start + s.length, dOffset := s.disk + s.length, length := le.length - a - s.length);
    ExtentBlocksSplit(e, a);
    ExtentBlocksSplit(rest, s.length);
    MarkConcat(ExtentBlocks(head), ExtentBlocks(rest), s);
    MarkConcat(ExtentBlocks(middle), ExtentBlocks(tail), s);
    MarkApart(head, s);
    MarkApart(tail, s);
    MarkWhole(middle, s);
    IfAnyBlocks(head);
    IfAnyBlocks(tail);
    BlocksOne(middle.(state := ReadWrite));
    BlocksConcat(IfAny(head), [middle.(state := ReadWrite)]);
    BlocksConcat(IfAny(head) + [middle.(state := ReadWrite)], IfAny(tail));
    assert Pieces(le, s) == IfAny(head) + [middle.(state := ReadWrite)] + IfAny(tail);
  }

  lemma PiecesContiguous(le: Extent, s: Span)
    requires Inside(le, s) && SameMapping(le, s) && s.length > 0
    ensures Contiguous(Pieces(le, s)) && Pieces(le, s)[0].fOffset == le.fOffset
    ensures var last := Pieces(le, s)[|Pieces(le, s)| - 1]; last.fOffset + last.length == le.fOffset + le.length
  {
  }

  /** Cutting a contiguous list at an extent leaves its neighbours' blocks outside that extent. */
  lemma NeighboursOutside(raw: seq<Extent>, i: nat, s: Span)
    requires Contiguous(raw) && i < |raw| && Inside(raw[i], s)
    ensures Outside(Blocks(raw[..i]), s) && Outside(Blocks(raw[i + 1..]), s)
  {
    forall j | 0 <= j < i ensures raw[..i][j].fOffset + raw[..i][j].length <= raw[i].fOffset {
      Ascend(raw, j, i);
    }
    BlocksBelow(raw[..i], raw[i].fOffset);
    var after := raw[i + 1..];
    forall j | 0 <= j < |after| ensures raw[i].fOffset + raw[i].length <= after[j].fOffset {
      Ascend(raw, i, i + 1 + j);
    }
    BlocksFrom(after, raw[i].fOffset + raw[i].length);
  }

  lemma BlocksSplitAt(raw: seq<Extent>, i: nat, middle: seq<Extent>)
    requires i < |raw|
    ensures Blocks(raw[..i] + middle + raw[i + 1..]) == Blocks(raw[..i]) + Blocks(middle) + Blocks(raw[i + 1..])
  {
    BlocksConcat(raw[..i], middle);
    BlocksConcat(raw[..i] + middle, raw[i + 1..]);
  }

  // ----- one update -----

  lemma ContiguousSplice(raw: seq<Extent>, i: nat, middle: seq<Extent>)
    requires Contiguous(raw) && i < |raw| && Contiguous(middle) && middle != []
    requires middle[0].fOffset == raw[i].fOffset
    requires middle[|middle| - 1].fOffset + middle[|middle| - 1].length == raw[i].fOffset + raw[i].length
    ensures Contiguous(raw[..i] + middle + raw[i + 1..])
  {
    var l := raw[..i] + middle + raw[i + 1..];
    forall j | 0 <= j < |l| - 1 ensures l[j + 1].fOffset == l[j].fOffset + l[j].length {
      if j + 1 < i {
        assert l[j] == raw[j] && l[j + 1] == raw[j + 1];
      } else if j + 1 == i {
        assert l[j] == raw[j] && raw[j + 1].fOffset == raw[j].fOffset + raw[j].length;
      } else if j + 1 < i + |middle| {
        assert l[j] == middle[j - i] && l[j + 1] == middle[j - i + 1];
      } else if j + 1 == i + |middle| {
        assert l[j] == middle[|middle| - 1] && l[j + 1] == raw[i + 1];
      } else {
        var d := j - |middle| + 1;
        assert l[j] == raw[d] && l[j + 1] == raw[d + 1];
      }
    }
  }

  ghost predicate SameRange(raw: seq<Extent>, raw': seq<Extent>) {
    && raw != [] && raw' != [] && raw'[0].fOffset == raw[0].fOffset
    && raw'[|raw'| - 1].fOffset + raw'[|raw'| - 1].length == raw[|raw| - 1].fOffset + raw[|raw| - 1].length
  }

  /** What an update is for: the list stays contiguous over the same range, every block keeps its place
      on disk, and exactly the span becomes read-write. */
  ghost predicate Conserves(raw: seq<Extent>, raw': seq<Extent>, s: Span) {
    Contiguous(raw') && SameRange(raw, raw') && Blocks(raw') == Mark(Blocks(raw), s)
  }

  lemma SpliceRange(raw: seq<Extent>, i: nat, middle: seq<Extent>)
    requires i < |raw| && middle != [] && middle[0].fOffset == raw[i].fOffset
    requires middle[|middle| - 1].fOffset + middle[|middle| - 1].length == raw[i].fOffset + raw[i].length
    ensures SameRange(raw, raw[..i] + middle + raw[i + 1..])
  {
  }

  /** Splitting whatever extent the span lies inside keeps everything but the state of its remainder. */
  lemma SplitBlocks(raw: seq<Extent>, i: nat, s: Span)
    requires Contiguous(raw) && i < |raw| && Inside(raw[i], s) && SameMapping(raw[i], s) && s.length > 0
    ensures Contiguous(Split(raw, i, s)) && SameRange(raw, Split(raw, i, s))
    ensures Blocks(Split(raw, i, s))
            == Blocks(raw[..i]) + Mark(ExtentBlocks(raw[i].(state := Invalid)), s) + Blocks(raw[i + 1..])
    ensures Mark(Blocks(raw), s) == Blocks(raw[..i]) + Mark(ExtentBlocks(raw[i]), s) + Blocks(raw[i + 1..])
  {
    hide Blocks, Mark, ExtentBlocks, Outside, Contiguous;
    PiecesBlocks(raw[i], s);
    PiecesContiguous(raw[i], s);
    SpliceRange(raw, i, Pieces(raw[i], s));
    ContiguousSplice(raw, i, Pieces(raw[i], s));
    BlocksSplitAt(raw, i, Pieces(raw[i], s));
    MarksOneExtent(raw, i, s);
  }

  lemma MarksOneExtent(raw: seq<Extent>, i: nat, s: Span)
    requires Contiguous(raw) && i < |raw| && Inside(raw[i], s) && s.length > 0
    ensures Mark(Blocks(raw), s) == Blocks(raw[..i]) + Mark(ExtentBlocks(raw[i]), s) + Blocks(raw[i + 1..])
  {
    hide Blocks, Mark, ExtentBlocks, Outside, Contiguous;
    assert raw[..i] + [raw[i]] + raw[i + 1..] == raw;
    BlocksSplitAt(raw, i, [raw[i]]);
    BlocksOne(raw[i]);
    MarkConcat(Blocks(raw[..i]) + ExtentBlocks(raw[i]), Blocks(raw[i + 1..]), s);
    MarkConcat(Blocks(raw[..i]), ExtentBlocks(raw[i]), s);
    NeighboursOutside(raw, i, s);
    MarkOutside(Blocks(raw[..i]), s);
    MarkOutside(Blocks(raw[i + 1..]), s);
  }

  /** The remainder of an extent that was not uninitialised loses its state. */
  lemma RemainderLosesState(raw: seq<Extent>, i: nat, s: Span)
    requires Contiguous(raw) && i < |raw| && Inside(raw[i], s) && SameMapping(raw[i], s) && s.length > 0
    requires raw[i].state != Invalid && !(s.start == raw[i].fOffset && s.length == raw[i].length)
    ensures !Conserves(raw, Split(raw, i, s), s)
  {
    SplitBlocks(raw, i, s);
    var before, after := Blocks(raw[..i]), Blocks(raw[i + 1..]);
    var got, wanted := Mark(ExtentBlocks(raw[i].(state := Invalid)), s), Mark(ExtentBlocks(raw[i]), s);
    var k := if s.start > raw[i].fOffset then 0 else s.length;
    assert got[k] != wanted[k];
    assert (before + got + after)[|before| + k] == got[k] && (before + wanted + after)[|before| + k] == wanted[k];
  }

  /** A span that runs past the end of its extent overlaps the next one or lengthens the list. */
  lemma OverrunBreaksList(raw: seq<Extent>, i: nat, s: Span)
    requires Contiguous(raw) && i < |raw| && SameMapping(raw[i], s)
    requires raw[i].fOffset <= s.start && raw[i].fOffset + raw[i].length < s.start + s.length
    ensures !Conserves(raw, Split(raw, i, s), s)
  {
    hide Blocks, Mark;
    var l := Split(raw, i, s);
    var m := i + |Pieces(raw[i], s)| - 1;
    assert l[m].fOffset + l[m].length == s.start + s.length;
    if i + 1 < |raw| {
      assert l[m + 1] == raw[i + 1];
    }
  }

  /** An update of no blocks leaves an extent of length 0 in the list. */
  lemma EmptyUpdateBreaksList(raw: seq<Extent>, i: nat, s: Span)
    requires i < |raw| && s.length == 0
    ensures Extent(s.start, s.disk, 0, ReadWrite) in Split(raw, i, s) && !Contiguous(Split(raw, i, s))
  {
    assert Extent(s.start, s.disk, 0, ReadWrite) in Pieces(raw[i], s);
  }

  /** The code looks neither at the state of the extent it splits nor at where it ends, nor whether there is
      anything to commit. An update with the right mapping that starts in extent i does what it is for exactly
      if it is not empty, ends there too, and the extent is uninitialised or the update covers all of it. */
  lemma UpdateConservesExactlyIf(raw: seq<Extent>, i: nat, s: Span)
    requires Contiguous(raw) && i < |raw| && SameMapping(raw[i], s)
    requires raw[i].fOffset <= s.start < raw[i].fOffset + raw[i].length
    ensures Apply(raw, s) == (Split(raw, i, s), Ok)
    ensures Conserves(raw, Apply(raw, s).0, s)
            <==> s.length > 0 && Inside(raw[i], s)
                 && (raw[i].state == Invalid || (s.start == raw[i].fOffset && s.length == raw[i].length))
  {
    hide Conserves;
    FindFinds(raw, i, s.start);
    if s.length == 0 {
      EmptyUpdateBreaksList(raw, i, s);
      NotConserved(raw, Split(raw, i, s), s);
    } else if !Inside(raw[i], s) {
      OverrunBreaksList(raw, i, s);
    } else if raw[i].state != Invalid && !(s.start == raw[i].fOffset && s.length == raw[i].length) {
      RemainderLosesState(raw, i, s);
    } else {
      CoveredConserves(raw, i, s);
    }
  }

  lemma NotConserved(raw: seq<Extent>, raw': seq<Extent>, s: Span)
    requires !Contiguous(raw')
    ensures !Conserves(raw, raw', s)
  {
  }

  lemma CoveredConserves(raw: seq<Extent>, i: nat, s: Span)
    requires Contiguous(raw) && i < |raw| && Inside(raw[i], s) && SameMapping(raw[i], s) && s.length > 0
    requires raw[i].state == Invalid || (s.start == raw[i].fOffset && s.length == raw[i].length)
    ensures Conserves(raw, Split(raw, i, s), s)
  {
    SplitBlocks(raw, i, s);
    if raw[i].state == Invalid {
      assert raw[i].(state := Invalid) == raw[i];
    } else {
      MarkWhole(raw[i], s);
      MarkWhole(raw[i].(state := Invalid), s);
    }
  }

  lemma ExamplePieces()
    ensures Pieces(Extent(0, 10, 2, ReadWrite), Span(0, 10, 1)) == [Extent(0, 10, 1, ReadWrite), Extent(1, 11, 1, Invalid)]
  {
  }

  lemma OnlyExtent(le: Extent, s: Span)
    ensures Split([le], 0, s) == Pieces(le, s)
  {
  }

  /** An example: committing the first of two read-write blocks makes the second uninitialised. */
  lemma UpdateOfWrittenExtentLosesState()
    ensures var raw, s := [Extent(0, 10, 2, ReadWrite)], Span(0, 10, 1);
            && Apply(raw, s) == ([Extent(0, 10, 1, ReadWrite), Extent(1, 11, 1, Invalid)], Ok)
            && !Conserves(raw, Apply(raw, s).0, s)
  {
    hide Conserves, Apply, Split, Pieces, Blocks, Mark;
    var le, s := Extent(0, 10, 2, ReadWrite), Span(0, 10, 1);
    UpdateConservesExactlyIf([le], 0, s);
    OnlyExtent(le, s);
    ExamplePieces();
  }

  // ----- a whole commit -----

  /** Each span is non-empty and lies, with the extent's own mapping, inside an uninitialised extent. */
  ghost predicate Fits(raw: seq<Extent>, s: Span) {
    s.length > 0 && exists i :: 0 <= i < |raw| && raw[i].state == Invalid && Inside(raw[i], s) && SameMapping(raw[i], s)
  }

  predicate Apart(s: Span, t: Span) {
    s.start + s.length <= t.start || t.start + t.length <= s.start
  }

  ghost predicate AllApart(spans: seq<Span>) {
    forall i, j | 0 <= i < j < |spans| :: Apart(spans[i], spans[j])
  }

  /** Splitting for one span leaves room for any other that is apart from it. */
  lemma StillFits(raw: seq<Extent>, i: nat, s: Span, t: Span)
    requires Contiguous(raw) && i < |raw| && raw[i].state == Invalid && Inside(raw[i], s) && SameMapping(raw[i], s)
    requires s.length > 0 && Fits(raw, t) && Apart(s, t)
    ensures Fits(Split(raw, i, s), t)
  {
    var l, pieces := Split(raw, i, s), Pieces(raw[i], s);
    var j :| 0 <= j < |raw| && raw[j].state == Invalid && Inside(raw[j], t) && SameMapping(raw[j], t);
    if j < i {
      assert l[j] == raw[j];
    } else if j > i {
      assert l[j - 1 + |pieces|] == raw[j];
    } else if t.start < s.start {
      assert l[i] == pieces[0];
    } else {
      assert l[i + |pieces| - 1] == pieces[|pieces| - 1];
    }
  }

  /** Layout commit conserves the mapping: for updates that fit and are apart from each other no error
      arises, the list stays contiguous over the same range, every file block keeps its disk block, and
      exactly the committed blocks become read-write. */
  lemma {:induction false} CommitConserves(raw: seq<Extent>, spans: seq<Span>)
    requires Contiguous(raw) && raw != [] && AllApart(spans) && forall s | s in spans :: Fits(raw, s)
    ensures var (raw', status) := ApplyAll(raw, spans);
            status == Ok && Contiguous(raw') && SameRange(raw, raw') && Blocks(raw') == MarkAll(Blocks(raw), spans)
    decreases spans
  {
    if spans != [] {
      var s := spans[0];
      assert Fits(raw, s);
      var i :| 0 <= i < |raw| && raw[i].state == Invalid && Inside(raw[i], s) && SameMapping(raw[i], s);
      UpdateConservesExactlyIf(raw, i, s);
      forall t | t in spans[1..] ensures Fits(Split(raw, i, s), t) {
        var j :| 0 < j < |spans| && spans[j] == t;
        assert Apart(spans[0], spans[j]);
        StillFits(raw, i, s, t);
      }
      assert AllApart(spans[1..]);
      CommitConserves(Split(raw, i, s), spans[1..]);
    }
  }

  /** What MarkAll says block by block. */
  lemma {:induction false} MarkedExactly(blocks: seq<Block>, spans: seq<Span>, k: nat)
    requires k < |blocks|
    ensures var b, m := blocks[k], MarkAll(blocks, spans)[k];
            && m.file == b.file && m.disk == b.disk
            && m.state == if Covered(b.file, spans) then ReadWrite else b.state
    decreases spans
  {
    if spans != [] {
      MarkedExactly(Mark(blocks, spans[0]), spans[1..], k);
      assert Covered(blocks[k].file, spans) <==>
             (spans[0].start <= blocks[k].file < spans[0].start + spans[0].length) || Covered(blocks[k].file, spans[1..]);
    }
  }

  predicate Covered(file: nat, spans: seq<Span>) {
    exists s | s in spans :: s.start <= file < s.start + s.length
  }

  // ----- the loops, on the list in place -----

  class LayoutFSObj {
    var raw: seq<Extent>
    var size: nat

    constructor (raw: seq<Extent>, size: nat)
      ensures this.raw == raw && this.size == size
    {
      this.raw := raw;
      this.size := size;
    }

    method CommitLayout(layout: Layout, arg: CommitArgs, bs: nat) returns (status: Status, newSize: nat)
      requires bs > 0
      modifies this
      ensures (raw, status) == Commit(old(raw), layout, arg, bs)
      ensures status == Ok ==> size == if arg.lastWriteOffset + 1 > old(size) then arg.lastWriteOffset + 1 else old(size)
      ensures status == Ok ==> newSize == if size > old(size) then size else 0
      ensures status != Ok ==> size == old(size)
    {
      newSize := 0;
      if layout.kind != arg.kind || arg.offset % bs != 0 || arg.length % bs != 0 {
        return BadLayout, newSize;
      }
      var start, length := arg.offset / bs, arg.length / bs;
      if start < layout.start || layout.start + layout.length < start + length {
        return BadLayout, newSize;
      }
      for k := 0 to |arg.updates|
        invariant forall j | 0 <= j < k :: UpdateOk(arg.updates[j], start, length, bs)
      {
        var u := arg.updates[k];
        if !UpdateOk(u, start, length, bs) {
          return BadLayout, newSize;
        }
      }
      ghost var spans := Spans(arg.updates, bs);
      for k := 0 to |arg.updates|
        invariant size == old(size) && ApplyAll(old(raw), spans) == ApplyAll(raw, spans[k..])
      {
        var s := SpanOf(arg.updates[k], bs);
        assert spans[k..][0] == s && spans[k..][1..] == spans[k + 1..];
        status := ApplyOne(s);
        if status != Ok {
          return status, newSize;
        }
      }
      status := Ok;
      if arg.lastWriteOffset + 1 > size {
        size := arg.lastWriteOffset + 1;
        newSize := size;
      }
    }

    /** One turn of the loop that modifies the layout. */
    method ApplyOne(s: Span) returns (status: Status)
      modifies this`raw
      ensures (raw, status) == Apply(old(raw), s)
    {
      if raw == [] {
        return ServerFault;
      }
      var i := FindExtent(s.start);
      var le := raw[i];
      if !SameMapping(le, s) {
        return BadLayout;
      }
      var replace := [];
      if s.start > le.fOffset {
        replace := replace + [Extent(le.fOffset, le.dOffset, s.start - le.fOffset, Invalid)];
      }
      replace := replace + [Extent(s.start, s.disk, s.length, ReadWrite)];
      if s.start + s.length < le.fOffset + le.length {
        replace := replace + [Extent(s.start + s.length, s.disk + s.length,
                                     le.fOffset + le.length - (s.start + s.length), Invalid)];
      }
      assert replace == Pieces(le, s);
      raw := raw[..i] + replace + raw[i + 1..];
      status := Ok;
    }

    /** The search from the end of the list. */
    method FindExtent(start: nat) returns (i: nat)
      requires raw != []
      ensures i < |raw| && i == Find(raw, start)
    {
      i := |raw| - 1;
      while start < raw[i].fOffset && i > 0
        invariant i < |raw| && Find(raw, start) == Find(raw[..i + 1], start)
        decreases i
      {
        assert raw[..i + 1][..i] == raw[..i];
        i := i - 1;
      }
    }
  }
}
