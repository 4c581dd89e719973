/** pynfs/nfs4.1/nfs4server.py, SessionRecord: a session id is the client id and a sequence id, both printed
    with "%08x". */
module SessionIds {
  import opened SequenceIds

  function Digit(d: nat): char
    requires d < 16
  {
    "0123456789abcdef"[d]
  }

  function DigitValue(c: char): nat {
    if '0' <= c <= '9' then (c - '0') as nat else if 'a' <= c <= 'f' then (c - 'a') as nat + 10 else 0
  }

  function Hex(n: nat): string {
    if n < 16 then [Digit(n)] else Hex(n / 16) + [Digit(n % 16)]
  }

  function Zeros(n: nat): string {
    seq(n, i requires 0 <= i < n => '0')
  }

  /** "%08x": at least eight digits, more if the number needs them. */
  function Hex8(n: nat): string {
    if |Hex(n)| < 8 then Zeros(8 - |Hex(n)|) + Hex(n) else Hex(n)
  }

  function SessionId(clientId: nat, seqid: nat): string {
    Hex8(clientId) + Hex8(seqid)
  }

  function Value(s: string): nat {
    if s == [] then 0 else 16 * Value(s[..|s| - 1]) + DigitValue(s[|s| - 1])
  }

  lemma {:induction false} ValueHex(n: nat)
    ensures Value(Hex(n)) == n
  {
    hide Digit, DigitValue;
    DigitKept(n % 16);
    if n < 16 {
      assert Hex(n)[..0] == [];
    } else {
      ValueHex(n / 16);
      ValueMore(Hex(n / 16), Digit(n % 16));
    }
  }

  lemma DigitKept(d: nat)
    requires d < 16
    ensures DigitValue(Digit(d)) == d
  {
  }

  lemma ValueMore(s: string, c: char)
    ensures Value(s + [c]) == 16 * Value(s) + DigitValue(c)
  {
    assert (s + [c])[..|s|] == s;
  }

  lemma {:induction false} LeadingZeros(n: nat, s: string)
    ensures Value(Zeros(n) + s) == Value(s)
    decreases n + |s|
  {
    if s == [] {
      if n > 0 {
        assert (Zeros(n) + s)[..n - 1] == Zeros(n - 1) + s;
        LeadingZeros(n - 1, s);
      }
    } else {
      assert (Zeros(n) + s)[..n + |s| - 1] == Zeros(n) + s[..|s| - 1];
      LeadingZeros(n, s[..|s| - 1]);
    }
  }

  lemma ValueHex8(n: nat)
    ensures Value(Hex8(n)) == n
  {
    ValueHex(n);
    if |Hex(n)| < 8 {
      LeadingZeros(8 - |Hex(n)|, Hex(n));
    }
  }

  function Power16(k: nat): nat {
    if k == 0 then 1 else 16 * Power16(k - 1)
  }

  lemma {:induction false} HexLength(n: nat, k: nat)
    requires k >= 1 && n < Power16(k)
    ensures |Hex(n)| <= k
  {
    if n >= 16 {
      HexLength(n / 16, k - 1);
    }
  }

  lemma EightDigits(n: nat)
    requires n < WRAP
    ensures |Hex8(n)| == 8
  {
    assert Power16(8) == WRAP by {
      assert Power16(2) == 0x100 && Power16(4) == 0x1_0000 && Power16(6) == 0x100_0000;
    }
    HexLength(n, 8);
  }

  /** Different clients and different sequence ids give different session ids, however large client ids get. */
  lemma SessionIdsDiffer(c1: nat, q1: nat, c2: nat, q2: nat)
    requires q1 < WRAP && q2 < WRAP && SessionId(c1, q1) == SessionId(c2, q2)
    ensures c1 == c2 && q1 == q2
  {
    EightDigits(q1);
    EightDigits(q2);
    var id := SessionId(c1, q1);
    var cut := |id| - 8;
    assert Hex8(c1) == id[..cut] && Hex8(q1) == id[cut..];
    assert Hex8(c2) == id[..cut] && Hex8(q2) == id[cut..];
    ValueHex8(c1);
    ValueHex8(c2);
    ValueHex8(q1);
    ValueHex8(q2);
  }
}
