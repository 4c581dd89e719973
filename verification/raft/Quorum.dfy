/** raft/configuration.py: the two quorum questions a configuration answers,
    and the facts about majorities that elections and commits rest on. */
module Quorum {
  import opened RaftTypes

  // ----- counting -----

  function CountTrue(answers: seq<bool>): nat {
    if answers == [] then 0
    else CountTrue(answers[..|answers| - 1]) + if answers[|answers| - 1] then 1 else 0
  }

  function AtLeast(values: seq<nat>, x: nat): seq<bool> {
    seq(|values|, i requires 0 <= i < |values| => values[i] >= x)
  }

  /** More than half of a list of answers are yes; an empty list counts as agreed. */
  predicate Majority(answers: seq<bool>) {
    answers == [] || CountTrue(answers) >= |answers| / 2 + 1
  }

  function Answers(members: seq<ServerId>, yes: set<ServerId>): (answers: seq<bool>)
    ensures |answers| == |members|
  {
    seq(|members|, i requires 0 <= i < |members| => members[i] in yes)
  }

  function Members(members: seq<ServerId>): set<ServerId> {
    set m | m in members
  }

  ghost predicate Distinct(members: seq<ServerId>) {
    forall i, j | 0 <= i < j < |members| :: members[i] != members[j]
  }

  /** A set of servers that is more than half of the members. */
  ghost predicate IsQuorum(members: seq<ServerId>, q: set<ServerId>) {
    q <= Members(members) && |q| >= |members| / 2 + 1
  }

  lemma {:induction false} MemberCount(members: seq<ServerId>)
    requires Distinct(members)
    ensures |Members(members)| == |members|
  {
    if members != [] {
      var last := members[|members| - 1];
      var rest := members[..|members| - 1];
      MemberCount(rest);
      assert Members(members) == Members(rest) + {last};
      assert last !in Members(rest);
    }
  }

  /** Counting answers member by member is counting the set of those who say yes. */
  lemma {:induction false} CountIsCardinality(members: seq<ServerId>, yes: set<ServerId>)
    requires Distinct(members)
    ensures CountTrue(Answers(members, yes)) == |yes * Members(members)|
  {
    if members == [] {
      assert yes * Members(members) == {};
    } else {
      var last := members[|members| - 1];
      var rest := members[..|members| - 1];
      CountIsCardinality(rest, yes);
      assert Answers(members, yes)[..|members| - 1] == Answers(rest, yes);
      assert last !in Members(rest);
      if last in yes {
        assert yes * Members(members) == yes * Members(rest) + {last};
      } else {
        assert yes * Members(members) == yes * Members(rest);
      }
    }
  }

  /** quorumAll over distinct servers says exactly that the yes-sayers are a quorum. */
  lemma MajorityIsQuorum(members: seq<ServerId>, yes: set<ServerId>)
    requires Distinct(members) && members != []
    ensures Majority(Answers(members, yes)) <==> IsQuorum(members, yes * Members(members))
  {
    CountIsCardinality(members, yes);
  }

  /** Any two quorums of one configuration share a server. */
  lemma QuorumsIntersect(members: seq<ServerId>, q1: set<ServerId>, q2: set<ServerId>) returns (common: ServerId)
    requires Distinct(members) && IsQuorum(members, q1) && IsQuorum(members, q2)
    ensures common in q1 && common in q2 && common in members
  {
    MemberCount(members);
    if q1 * q2 == {} {
      assert |q1 + q2| == |q1| + |q2|;
      Subset(q1 + q2, Members(members));
      assert false;
    }
    common :| common in q1 * q2;
  }

  lemma {:induction false} Subset(a: set<ServerId>, b: set<ServerId>)
    requires a <= b
    ensures |a| <= |b|
    decreases b
  {
    if a != {} {
      var x :| x in a;
      Subset(a - {x}, b - {x});
    }
  }

  // ----- the order statistic behind quorumMin -----

  predicate Ascending(s: seq<nat>) {
    forall i, j | 0 <= i < j < |s| :: s[i] <= s[j]
  }

  function Insert(s: seq<nat>, x: nat): (r: seq<nat>)
    ensures |r| == |s| + 1
  {
    if s == [] || s[|s| - 1] <= x then s + [x]
    else Insert(s[..|s| - 1], x) + [s[|s| - 1]]
  }

  function Sort(s: seq<nat>): (r: seq<nat>)
    ensures |r| == |s|
  {
    if s == [] then [] else Insert(Sort(s[..|s| - 1]), s[|s| - 1])
  }

  /** configuration.py's quorumMin: the element in the lower middle of the sorted list. */
  function QuorumMin(values: seq<nat>): nat {
    if values == [] then 0 else Sort(values)[(|values| - 1) / 2]
  }

  lemma {:induction false} CountAppend(s: seq<nat>, y: nat, x: nat)
    ensures CountTrue(AtLeast(s + [y], x)) == CountTrue(AtLeast(s, x)) + if y >= x then 1 else 0
  {
    assert AtLeast(s + [y], x)[..|s|] == AtLeast(s, x);
  }

  lemma {:induction false} InsertAscending(s: seq<nat>, y: nat)
    requires Ascending(s)
    ensures Ascending(Insert(s, y))
    ensures Insert(s, y)[|s|] == if s == [] then y else Max(s[|s| - 1], y)
  {
    if s != [] && s[|s| - 1] > y {
      var rest := s[..|s| - 1];
      InsertAscending(rest, y);
      assert rest != [] ==> rest[|rest| - 1] == s[|s| - 2];
    }
  }

  lemma {:induction false} InsertCount(s: seq<nat>, y: nat, x: nat)
    ensures CountTrue(AtLeast(Insert(s, y), x)) == CountTrue(AtLeast(s, x)) + if y >= x then 1 else 0
  {
    if s == [] || s[|s| - 1] <= y {
      CountAppend(s, y, x);
    } else {
      var rest, last := s[..|s| - 1], s[|s| - 1];
      InsertCount(rest, y, x);
      CountAppend(Insert(rest, y), last, x);
      assert rest + [last] == s;
      CountAppend(rest, last, x);
    }
  }

  lemma {:induction false} SortKeeps(s: seq<nat>, x: nat)
    ensures Ascending(Sort(s))
    ensures CountTrue(AtLeast(Sort(s), x)) == CountTrue(AtLeast(s, x))
  {
    if s != [] {
      var rest, last := s[..|s| - 1], s[|s| - 1];
      SortKeeps(rest, x);
      InsertAscending(Sort(rest), last);
      InsertCount(Sort(rest), last, x);
      assert rest + [last] == s;
      CountAppend(rest, last, x);
    }
  }

  /** In an ascending list, m elements reach x exactly when the m-th from the end does. */
  lemma {:induction false} CountAscending(s: seq<nat>, x: nat, m: nat)
    requires Ascending(s) && 1 <= m <= |s|
    ensures CountTrue(AtLeast(s, x)) >= m <==> s[|s| - m] >= x
  {
    var rest, last := s[..|s| - 1], s[|s| - 1];
    assert rest + [last] == s;
    CountAppend(rest, last, x);
    if m == 1 {
      if last < x {
        NoneReach(rest, x);
      }
    } else {
      CountAscending(rest, x, m - 1);
      if last < x {
        NoneReach(rest, x);
      }
    }
  }

  lemma {:induction false} NoneReach(s: seq<nat>, x: nat)
    requires forall i | 0 <= i < |s| :: s[i] < x
    ensures CountTrue(AtLeast(s, x)) == 0
  {
    if s != [] {
      var rest, last := s[..|s| - 1], s[|s| - 1];
      assert rest + [last] == s;
      CountAppend(rest, last, x);
      NoneReach(rest, x);
    }
  }

  /** quorumMin is the greatest value that a majority reaches. */
  lemma QuorumMinIsGreatest(values: seq<nat>, x: nat)
    requires values != []
    ensures Majority(AtLeast(values, x)) <==> x <= QuorumMin(values)
  {
    var n := |values|;
    SortKeeps(values, x);
    CountAscending(Sort(values), x, n / 2 + 1);
    assert n - (n / 2 + 1) == (n - 1) / 2;
  }

  // ----- STABLE and TRANSITIONAL configurations -----

  datatype Phase = Blank | Stable | Staging | Transitional

  function ConfigurationQuorumMin(phase: Phase, oldValues: seq<nat>, newValues: seq<nat>): nat {
    if phase == Transitional then Min(QuorumMin(oldValues), QuorumMin(newValues)) else QuorumMin(oldValues)
  }

  predicate ConfigurationQuorumAll(phase: Phase, oldAnswers: seq<bool>, newAnswers: seq<bool>) {
    Majority(oldAnswers) && (phase == Transitional ==> Majority(newAnswers))
  }

  /** The joint minimum is the greatest value that a majority of both sets reach. */
  lemma JointMinIsGreatest(oldValues: seq<nat>, newValues: seq<nat>, x: nat)
    requires oldValues != [] && newValues != []
    ensures ConfigurationQuorumAll(Transitional, AtLeast(oldValues, x), AtLeast(newValues, x))
            <==> x <= ConfigurationQuorumMin(Transitional, oldValues, newValues)
  {
    QuorumMinIsGreatest(oldValues, x);
    QuorumMinIsGreatest(newValues, x);
  }

  /** A joint quorum meets every majority of the old servers and every majority of the new ones. */
  lemma JointQuorumIntersects(oldMembers: seq<ServerId>, newMembers: seq<ServerId>,
                              yes: set<ServerId>, q: set<ServerId>) returns (common: ServerId)
    requires Distinct(oldMembers) && Distinct(newMembers) && oldMembers != [] && newMembers != []
    requires ConfigurationQuorumAll(Transitional, Answers(oldMembers, yes), Answers(newMembers, yes))
    requires IsQuorum(oldMembers, q) || IsQuorum(newMembers, q)
    ensures common in yes && common in q
  {
    MajorityIsQuorum(oldMembers, yes);
    MajorityIsQuorum(newMembers, yes);
    if IsQuorum(oldMembers, q) {
      common := QuorumsIntersect(oldMembers, yes * Members(oldMembers), q);
    } else {
      common := QuorumsIntersect(newMembers, yes * Members(newMembers), q);
    }
  }

  // ----- the loops of the source -----

  method QuorumAll(answers: seq<bool>) returns (agreed: bool)
    ensures agreed == Majority(answers)
  {
    if |answers| == 0 {
      return true;
    }
    var count := 0;
    for i := 0 to |answers|
      invariant count == CountTrue(answers[..i])
    {
      assert answers[..i + 1][..i] == answers[..i];
      if answers[i] {
        count := count + 1;
      }
    }
    assert answers[..|answers|] == answers;
    return count >= |answers| / 2 + 1;
  }

  /** Stands for the library sort: a list is kept in order while values are put in. */
  method SortValues(values: seq<nat>) returns (sorted: seq<nat>)
    ensures sorted == Sort(values)
  {
    sorted := [];
    for i := 0 to |values|
      invariant sorted == Sort(values[..i])
    {
      assert values[..i + 1][..i] == values[..i];
      sorted := Insert(sorted, values[i]);
    }
    assert values[..|values|] == values;
  }

  method ComputeQuorumMin(agreeIndexes: seq<nat>) returns (min: nat)
    ensures agreeIndexes == [] ==> min == 0
    ensures agreeIndexes != [] ==> forall x: nat :: Majority(AtLeast(agreeIndexes, x)) <==> x <= min
    ensures min == QuorumMin(agreeIndexes)
  {
    if |agreeIndexes| == 0 {
      return 0;
    }
    var values := [];
    for i := 0 to |agreeIndexes|
      invariant values == agreeIndexes[..i]
    {
      values := values + [agreeIndexes[i]];
    }
    assert values == agreeIndexes;
    var sorted := SortValues(values);
    min := sorted[(|sorted| - 1) / 2];
    forall x: nat ensures Majority(AtLeast(agreeIndexes, x)) <==> x <= min {
      QuorumMinIsGreatest(agreeIndexes, x);
    }
  }
}
