/** The loop of write in pynfs/nfs4.1/fs_base.py, turn by turn, over a block volume: where it ends, where it
    raises and where it never ends. Only positions and lengths matter for that. */
module WriteLoop {
  import opened BlockVolume

  /** The limit FakeFs passes to extent: 1 << 64. */
  const ALL := 0x1_0000_0000_0000_0000

  /** Going: the next turn begins here with so much left to write. Ended: nothing was left. Failed: extent
      raised. */
  datatype Progress = Going(pos: int, left: nat) | Ended(pos: int) | Failed(pos: int)

  /** How long str[:n] is, for a string of this length and any n. */
  function PrefixLength(length: nat, n: int): nat {
    if n >= 0 then Min(length, n) else if length + n > 0 then length + n else 0
  }

  /** One test of the loop and, if something is left, one turn. */
  function Turn(v: Volume, pos: int, left: nat): Progress {
    if left == 0 then Ended(pos)
    else
      match Extent(v, pos, ALL)
      case Ok(e) =>
        var n := PrefixLength(left, e.length);
        Going(pos + n, left - n)
      case _ => Failed(pos)
  }

  /** Where the loop is after so many turns. */
  function After(v: Volume, pos: int, left: nat, turns: nat): Progress
    decreases turns
  {
    if turns == 0 then Going(pos, left)
    else
      match Turn(v, pos, left)
      case Going(pos', left') => After(v, pos', left', turns - 1)
      case other => other
  }

  ghost predicate EndsNormally(v: Volume, pos: int, left: nat) {
    exists turns: nat :: After(v, pos, left, turns).Ended?
  }

  ghost predicate Raises(v: Volume, pos: int, left: nat) {
    exists turns: nat :: After(v, pos, left, turns).Failed?
  }

  ghost predicate NeverEnds(v: Volume, pos: int, left: nat) {
    forall turns: nat :: After(v, pos, left, turns).Going?
  }

  /** What becomes of a write, as a closed form: it ends with all written, or what fits is written and the loop
      raises at the end of the volume or stays there. */
  function Fate(v: Volume, pos: nat, left: nat): Progress
    requires pos <= Size(v)
  {
    if pos + left <= Size(v) then Ended(pos + left)
    else if RaisesAtEnd(v) then Failed(Size(v))
    else Going(Size(v), pos + left - Size(v))
  }

  /** A turn inside the volume makes progress and does not leave it. */
  lemma TurnInside(v: Volume, pos: nat, left: nat) returns (n: nat)
    requires WellFormed(v) && pos < Size(v) && left > 0
    ensures 0 < n <= left && pos + n <= Size(v) && Turn(v, pos, left) == Going(pos + n, left - n)
  {
    ExtentAgreesWithResolve(v, pos, ALL);
    n := PrefixLength(left, Extent(v, pos, ALL).value.length);
  }

  /** At the end nothing moves. */
  lemma TurnAtTheEnd(v: Volume, left: nat)
    requires WellFormed(v) && left > 0
    ensures Turn(v, Size(v), left) == if RaisesAtEnd(v) then Failed(Size(v)) else Going(Size(v), left)
  {
    NothingAtTheEnd(v, Size(v), ALL);
  }

  lemma {:induction false} StaysAtTheEnd(v: Volume, left: nat, turns: nat)
    requires WellFormed(v) && left > 0 && !RaisesAtEnd(v)
    ensures After(v, Size(v), left, turns) == Going(Size(v), left)
  {
    if turns > 0 {
      TurnAtTheEnd(v, left);
      StaysAtTheEnd(v, left, turns - 1);
    }
  }

  /** From some turn on the loop is where Fate says, for ever. */
  lemma {:induction false} ReachesFate(v: Volume, pos: nat, left: nat) returns (enough: nat)
    requires WellFormed(v) && pos <= Size(v)
    ensures enough > 0 && forall turns: nat | turns >= enough :: After(v, pos, left, turns) == Fate(v, pos, left)
    decreases left, Size(v) - pos
  {
    if left == 0 {
      enough := 1;
    } else if pos < Size(v) {
      var n := TurnInside(v, pos, left);
      var rest := ReachesFate(v, pos + n, left - n);
      enough := rest + 1;
      forall turns: nat | turns >= enough ensures After(v, pos, left, turns) == Fate(v, pos, left) {
        assert After(v, pos, left, turns) == After(v, pos + n, left - n, turns - 1);
      }
    } else {
      enough := 1;
      TurnAtTheEnd(v, left);
      forall turns: nat | turns >= enough ensures After(v, pos, left, turns) == Fate(v, pos, left) {
        if !RaisesAtEnd(v) {
          StaysAtTheEnd(v, left, turns);
        }
      }
    }
  }

  /** Ended and failed loops stay so. */
  lemma {:induction false} OverIsOver(v: Volume, pos: int, left: nat, turns: nat, more: nat)
    requires turns <= more && !After(v, pos, left, turns).Going?
    ensures After(v, pos, left, more) == After(v, pos, left, turns)
    decreases turns
  {
    match Turn(v, pos, left)
    case Going(pos', left') => OverIsOver(v, pos', left', turns - 1, more - 1);
    case _ =>
  }

  /** A write ends normally exactly if the data end inside the volume. Past the end it raises if the volume
      raises at its end, as every Concat does, and otherwise the loop never ends. */
  lemma WriteEndsExactlyIf(v: Volume, pos: nat, left: nat)
    requires WellFormed(v) && pos <= Size(v)
    ensures EndsNormally(v, pos, left) <==> pos + left <= Size(v)
    ensures Raises(v, pos, left) <==> pos + left > Size(v) && RaisesAtEnd(v)
    ensures NeverEnds(v, pos, left) <==> pos + left > Size(v) && !RaisesAtEnd(v)
  {
    var enough := ReachesFate(v, pos, left);
    assert After(v, pos, left, enough) == Fate(v, pos, left);
    forall turns: nat ensures After(v, pos, left, turns).Going? || After(v, pos, left, turns) == Fate(v, pos, left) {
      if !After(v, pos, left, turns).Going? {
        OverIsOver(v, pos, left, turns, turns + enough);
      }
    }
    if Fate(v, pos, left).Going? {
      assert NeverEnds(v, pos, left);
    }
  }
}
