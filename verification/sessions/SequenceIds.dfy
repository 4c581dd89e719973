/** The 32-bit sequence ids of pynfs/nfs4.1/nfs4lib.py and the check a slot makes of them
    (pynfs/nfs4.1/nfs4server.py, `Slot.check_seqid`). */
module SequenceIds {

  const WRAP: nat := 0x1_0000_0000

  function Inc(i: nat): nat {
    (i + 1) % WRAP
  }

  datatype Verdict = New | Replay | Misordered

  /** Slot.check_seqid of a slot whose id is slotSeqid. */
  function CheckSeqid(slotSeqid: nat, seqid: nat): Verdict {
    if seqid == Inc(slotSeqid) then New else if seqid == slotSeqid then Replay else Misordered
  }

  lemma IncMod(n: nat)
    ensures Inc(n % WRAP) == (n + 1) % WRAP
  {
  }

  /** Two positions have the same id exactly if a number of full wraps lies between them. */
  lemma SameIdExactlyIf(a: nat, b: nat)
    requires a <= b
    ensures a % WRAP == b % WRAP <==> (b - a) % WRAP == 0
  {
    var q, r, p, s := a / WRAP, a % WRAP, b / WRAP, b % WRAP;
    assert b - a == WRAP * (p - q) + (s - r);
  }

  /** A request for position k at a slot that has let m through: for the next position, or one that is a number
      of wraps back, it is new; that is what makes the bound on its delay necessary. */
  lemma TakenForNewExactlyIf(k: nat, m: nat)
    requires k <= m + 1
    ensures CheckSeqid(m % WRAP, k % WRAP) == New <==> (m + 1 - k) % WRAP == 0
    ensures CheckSeqid(m % WRAP, k % WRAP) == Replay <==> k <= m && (m - k) % WRAP == 0
  {
    IncMod(m);
    SameIdExactlyIf(k, m + 1);
    if k <= m {
      SameIdExactlyIf(k, m);
    }
  }

  /** In time, a request for the next position is new, one for the last is a retry, any other is out of order. */
  lemma VerdictInTime(k: nat, m: nat)
    requires k <= m + 1 && m - k < WRAP - 1
    ensures CheckSeqid(m % WRAP, k % WRAP) == if k == m + 1 then New else if k == m then Replay else Misordered
  {
    TakenForNewExactlyIf(k, m);
  }
}
