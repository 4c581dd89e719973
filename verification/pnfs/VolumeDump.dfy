/** pynfs/nfs4.1/block.py: the order in which `_dump` lists a volume graph for the device address. Volumes
    may be shared, so a graph of numbered volumes stands for them; a Simple volume has no parts. */
module VolumeDump {

  type Graph = map<nat, seq<nat>>

  /** getid numbers volumes as they are made, and a volume is made from ones that exist already. */
  ghost predicate WellNumbered(g: Graph) {
    forall v, c | v in g && c in g[v] :: c in g && c < v
  }

  // ----- what the code computes -----

  /** First occurrences only, in order. */
  function RemoveDups(l: seq<nat>): seq<nat> {
    if l == [] then []
    else
      var kept := RemoveDups(l[..|l| - 1]);
      if l[|l| - 1] in kept then kept else kept + [l[|l| - 1]]
  }

  function Dump(g: Graph, v: nat): seq<nat>
    requires WellNumbered(g) && v in g
    decreases v, 1, 0
  {
    RemoveDups(DumpAll(g, v, g[v])) + [v]
  }

  function DumpAll(g: Graph, v: nat, parts: seq<nat>): seq<nat>
    requires WellNumbered(g) && v in g && forall c | c in parts :: c in g[v]
    decreases v, 0, |parts|
  {
    if parts == [] then []
    else DumpAll(g, v, parts[..|parts| - 1]) + Dump(g, parts[|parts| - 1])
  }

  // ----- what it should be -----

  /** A walk from part to part. */
  ghost predicate IsPath(g: Graph, path: seq<nat>) {
    && path != [] && (forall v | v in path :: v in g)
    && forall i | 0 <= i < |path| - 1 :: path[i + 1] in g[path[i]]
  }

  ghost predicate Reachable(g: Graph, v: nat, w: nat) {
    exists path :: IsPath(g, path) && path[0] == v && path[|path| - 1] == w
  }

  ghost predicate NoDups(l: seq<nat>) {
    forall i, j | 0 <= i < j < |l| :: l[i] != l[j]
  }

  /** Every listed volume comes after all its parts. */
  ghost predicate PartsFirst(g: Graph, l: seq<nat>) {
    forall i, c | 0 <= i < |l| && l[i] in g && c in g[l[i]] :: c in l[..i]
  }

  // ----- lemmas -----

  lemma {:induction false} RemoveDupsKeeps(g: Graph, l: seq<nat>)
    ensures forall x :: x in RemoveDups(l) <==> x in l
    ensures NoDups(RemoveDups(l))
    ensures PartsFirst(g, l) ==> PartsFirst(g, RemoveDups(l))
  {
    if l != [] {
      var front, last := l[..|l| - 1], l[|l| - 1];
      RemoveDupsKeeps(g, front);
      assert l == front + [last];
      if PartsFirst(g, l) {
        PartsFirstPrefix(g, front, [last]);
        if last !in RemoveDups(front) {
          LastFits(g, RemoveDups(front), last, front);
        }
      }
    }
  }

  lemma PartsFirstPrefix(g: Graph, a: seq<nat>, b: seq<nat>)
    requires PartsFirst(g, a + b)
    ensures PartsFirst(g, a)
  {
    forall i, c | 0 <= i < |a| && a[i] in g && c in g[a[i]] ensures c in a[..i] {
      assert (a + b)[i] == a[i] && (a + b)[..i] == a[..i];
    }
  }

  lemma LastFits(g: Graph, kept: seq<nat>, last: nat, front: seq<nat>)
    requires PartsFirst(g, kept) && PartsFirst(g, front + [last])
    requires forall x :: x in kept <==> x in front
    ensures PartsFirst(g, kept + [last])
  {
    forall i, c | 0 <= i < |kept + [last]| && (kept + [last])[i] in g && c in g[(kept + [last])[i]]
      ensures c in (kept + [last])[..i]
    {
      assert (kept + [last])[..i] == kept[..i];
      if i == |kept| {
        assert (front + [last])[|front|] == last && (front + [last])[..|front|] == front;
      }
    }
  }

  lemma PartsFirstConcat(g: Graph, a: seq<nat>, b: seq<nat>)
    requires PartsFirst(g, a) && PartsFirst(g, b)
    ensures PartsFirst(g, a + b)
  {
    forall i, c | 0 <= i < |a + b| && (a + b)[i] in g && c in g[(a + b)[i]] ensures c in (a + b)[..i] {
      if i < |a| {
        assert (a + b)[..i] == a[..i];
      } else {
        assert (a + b)[..i] == a + b[..i - |a|];
      }
    }
  }

  lemma {:induction false} DumpIsOrdered(g: Graph, v: nat)
    requires WellNumbered(g) && v in g
    ensures PartsFirst(g, Dump(g, v)) && NoDups(Dump(g, v))
    ensures forall x | x in Dump(g, v) :: x <= v && x in g
    decreases v, 1, 0
  {
    var parts := DumpAll(g, v, g[v]);
    DumpAllIsOrdered(g, v, g[v]);
    RemoveDupsKeeps(g, parts);
    var kept := RemoveDups(parts);
    forall i, c | 0 <= i < |kept + [v]| && c in g[(kept + [v])[i]] ensures c in (kept + [v])[..i] {
      assert (kept + [v])[..i] == kept[..i];
    }
  }

  lemma {:induction false} DumpAllIsOrdered(g: Graph, v: nat, parts: seq<nat>)
    requires WellNumbered(g) && v in g && forall c | c in parts :: c in g[v]
    ensures PartsFirst(g, DumpAll(g, v, parts))
    ensures forall c | c in parts :: c in DumpAll(g, v, parts)
    ensures forall x | x in DumpAll(g, v, parts) :: x < v && x in g
    decreases v, 0, |parts|
  {
    if parts != [] {
      var front, last := parts[..|parts| - 1], parts[|parts| - 1];
      DumpAllIsOrdered(g, v, front);
      assert last in g[v] && last in g;
      DumpIsOrdered(g, last);
      assert Dump(g, last)[|Dump(g, last)| - 1] == last;
      PartsFirstConcat(g, DumpAll(g, v, front), Dump(g, last));
      forall c | c in parts ensures c in DumpAll(g, v, parts) {
        assert c in front || c == last;
      }
    }
  }

  lemma PathStep(g: Graph, v: nat, c: nat, w: nat)
    requires v in g && c in g[v] && Reachable(g, c, w)
    ensures Reachable(g, v, w)
  {
    var path :| IsPath(g, path) && path[0] == c && path[|path| - 1] == w;
    assert IsPath(g, [v] + path);
  }

  lemma {:induction false} DumpedIsReachable(g: Graph, v: nat, w: nat)
    requires WellNumbered(g) && v in g && w in Dump(g, v)
    ensures Reachable(g, v, w)
    decreases v, 1, 0
  {
    if w == v {
      assert IsPath(g, [v]);
    } else {
      RemoveDupsKeeps(g, DumpAll(g, v, g[v]));
      DumpedFromPart(g, v, g[v], w);
    }
  }

  lemma {:induction false} DumpedFromPart(g: Graph, v: nat, parts: seq<nat>, w: nat)
    requires WellNumbered(g) && v in g && (forall c | c in parts :: c in g[v]) && w in DumpAll(g, v, parts)
    ensures Reachable(g, v, w)
    decreases v, 0, |parts|
  {
    var front, last := parts[..|parts| - 1], parts[|parts| - 1];
    if w in DumpAll(g, v, front) {
      DumpedFromPart(g, v, front, w);
    } else {
      DumpedIsReachable(g, last, w);
      PathStep(g, v, last, w);
    }
  }

  /** A list that has v and, with each volume, its parts, has all that is reachable. */
  lemma {:induction false} ReachableIsListed(g: Graph, l: seq<nat>, path: seq<nat>)
    requires PartsFirst(g, l) && IsPath(g, path) && path[0] in l
    ensures path[|path| - 1] in l
    decreases |path|
  {
    if |path| > 1 {
      var i :| 0 <= i < |l| && l[i] == path[0];
      assert path[0 + 1] in g[path[0]];
      assert path[1] in l[..i];
      ReachableIsListed(g, l, path[1..]);
    }
  }

  /** `_dump` lists exactly the volumes reachable from the root, each once, each after its parts, and
      the root last. */
  lemma DumpListsTheGraph(g: Graph, v: nat)
    requires WellNumbered(g) && v in g
    ensures NoDups(Dump(g, v)) && PartsFirst(g, Dump(g, v))
    ensures Dump(g, v)[|Dump(g, v)| - 1] == v
    ensures forall w :: w in Dump(g, v) <==> Reachable(g, v, w)
  {
    DumpIsOrdered(g, v);
    forall w ensures w in Dump(g, v) <==> Reachable(g, v, w) {
      if w in Dump(g, v) {
        DumpedIsReachable(g, v, w);
      }
      if Reachable(g, v, w) {
        var path :| IsPath(g, path) && path[0] == v && path[|path| - 1] == w;
        ReachableIsListed(g, Dump(g, v), path);
      }
    }
  }

  /** The dictionary get_addr builds: each volume of the list to its place. */
  function Places(l: seq<nat>): map<nat, nat> {
    if l == [] then map[] else Places(l[..|l| - 1])[l[|l| - 1] := |l| - 1]
  }

  lemma {:induction false} PlacesFind(l: seq<nat>, i: nat)
    requires NoDups(l) && i < |l|
    ensures l[i] in Places(l) && Places(l)[l[i]] == i
  {
    if i < |l| - 1 {
      PlacesFind(l[..|l| - 1], i);
    }
  }

  /** The indices in a device address only point backwards. */
  lemma IndicesPointBackwards(g: Graph, root: nat, w: nat, c: nat)
    requires WellNumbered(g) && root in g && Reachable(g, root, w) && w in g && c in g[w]
    ensures var places := Places(Dump(g, root));
            w in places && c in places && places[c] < places[w]
  {
    hide Dump, Reachable;
    var l := Dump(g, root);
    DumpListsTheGraph(g, root);
    var i :| 0 <= i < |l| && l[i] == w;
    assert c in l[..i];
    var j :| 0 <= j < i && l[j] == c;
    PlacesFind(l, i);
    PlacesFind(l, j);
  }

  // ----- the loops -----

  method ComputeRemoveDups(l: seq<nat>) returns (out: seq<nat>)
    ensures out == RemoveDups(l)
  {
    out := [];
    var rest := l;
    while rest != []
      invariant |rest| <= |l| && rest == l[|l| - |rest|..]
      invariant out == RemoveDups(l[..|l| - |rest|])
    {
      var i := rest[0];
      assert l[..|l| - |rest| + 1][..|l| - |rest|] == l[..|l| - |rest|];
      rest := rest[1..];
      if i !in out {
        out := out + [i];
      }
    }
    assert l[..|l|] == l;
  }

  method ComputeDump(g: Graph, v: nat) returns (out: seq<nat>)
    requires WellNumbered(g) && v in g
    ensures out == Dump(g, v)
    decreases v
  {
    out := [];
    for k := 0 to |g[v]|
      invariant out == DumpAll(g, v, g[v][..k])
    {
      assert g[v][k] in g[v] && g[v][k] in g;
      var part := ComputeDump(g, g[v][k]);
      assert g[v][..k + 1][..k] == g[v][..k];
      out := out + part;
    }
    assert g[v][..|g[v]|] == g[v];
    out := ComputeRemoveDups(out);
    out := out + [v];
  }
}
