/** pynfs/nfs3/fs.py, `DirList`: a directory as a list ordered by cookie, and what a client that reads it
    page by page gets to see while entries come and go (section 3.3.16 of RFC 1813). */
module DirList {
  import opened Optional

  type Handle = nat

  datatype DirEnt = DirEnt(name: string, fh: Handle, cookie: int)

  datatype Directory = Directory(list: seq<DirEnt>, lastCookie: int)

  const EMPTY := Directory([], 2)

  // ----- what is meant by each operation -----

  function Without(list: seq<DirEnt>, name: string): (r: seq<DirEnt>)
    ensures forall e :: e in r <==> e in list && e.name != name
  {
    if list == [] then []
    else if list[0].name == name then Without(list[1..], name)
    else [list[0]] + Without(list[1..], name)
  }

  function Above(list: seq<DirEnt>, cookie: int): (r: seq<DirEnt>)
    ensures forall e :: e in r <==> e in list && e.cookie > cookie
  {
    if list == [] then []
    else if list[0].cookie > cookie then [list[0]] + Above(list[1..], cookie)
    else Above(list[1..], cookie)
  }

  /** Entering a name again gives it a new cookie and moves it to the end. */
  function Enter(d: Directory, name: string, fh: Handle): Directory {
    Directory(Without(d.list, name) + [DirEnt(name, fh, d.lastCookie + 1)], d.lastCookie + 1)
  }

  function Remove(d: Directory, name: string): Directory {
    d.(list := Without(d.list, name))
  }

  // ----- the invariant -----

  ghost predicate UniqueNames(list: seq<DirEnt>) {
    forall i, j | 0 <= i < j < |list| :: list[i].name != list[j].name
  }

  ghost predicate Ascending(list: seq<DirEnt>) {
    forall i, j | 0 <= i < j < |list| :: list[i].cookie < list[j].cookie
  }

  /** Cookies 0, 1 and 2 are never given out. */
  ghost predicate Bounded(list: seq<DirEnt>, lastCookie: int) {
    forall e | e in list :: 2 < e.cookie <= lastCookie
  }

  ghost predicate Ordered(d: Directory) {
    UniqueNames(d.list) && Ascending(d.list) && Bounded(d.list, d.lastCookie) && d.lastCookie >= 2
  }

  lemma {:induction false} WithoutIsOrdered(list: seq<DirEnt>, name: string)
    requires UniqueNames(list) && Ascending(list)
    ensures UniqueNames(Without(list, name)) && Ascending(Without(list, name))
    decreases |list|
  {
    if list != [] {
      var rest := Without(list[1..], name);
      WithoutIsOrdered(list[1..], name);
      forall e | e in rest ensures list[0].name != e.name && list[0].cookie < e.cookie {
        var k :| 0 <= k < |list[1..]| && list[1..][k] == e;
        assert e == list[k + 1];
      }
      PutInFront(list[0], rest);
    }
  }

  lemma PutInFront(e: DirEnt, rest: seq<DirEnt>)
    requires UniqueNames(rest) && Ascending(rest)
    requires forall x | x in rest :: e.name != x.name && e.cookie < x.cookie
    ensures UniqueNames([e] + rest) && Ascending([e] + rest)
  {
  }

  lemma EnterKeepsOrder(d: Directory, name: string, fh: Handle)
    requires Ordered(d)
    ensures Ordered(Enter(d, name, fh))
  {
    var kept := Without(d.list, name);
    WithoutIsOrdered(d.list, name);
    assert forall i | 0 <= i < |kept| :: kept[i] in d.list && kept[i].name != name && kept[i].cookie <= d.lastCookie;
  }

  lemma RemoveKeepsOrder(d: Directory, name: string)
    requires Ordered(d)
    ensures Ordered(Remove(d, name))
  {
    WithoutIsOrdered(d.list, name);
  }

  /** The entries above a cookie are the end of the list. */
  lemma {:induction false} AboveIsSuffix(list: seq<DirEnt>, cookie: int, at: nat)
    requires Ascending(list) && at <= |list|
    requires forall i | 0 <= i < at :: list[i].cookie <= cookie
    requires at < |list| ==> list[at].cookie > cookie
    ensures Above(list, cookie) == list[at..]
    decreases |list|
  {
    if list != [] {
      AboveIsSuffix(list[1..], cookie, if at == 0 then 0 else at - 1);
      if at == 0 {
        assert [list[0]] + list[1..] == list[0..];
      } else {
        assert list[1..][at - 1..] == list[at..];
      }
    }
  }

  /** Where in the list the entries above a cookie begin. */
  function FirstAbove(list: seq<DirEnt>, cookie: int): (at: nat)
    ensures at <= |list|
    ensures forall i | 0 <= i < at :: list[i].cookie <= cookie
    ensures at < |list| ==> list[at].cookie > cookie
  {
    if list == [] || list[0].cookie > cookie then 0 else 1 + FirstAbove(list[1..], cookie)
  }

  /** A list without one entry, by its place. */
  lemma {:induction false} WithoutOne(list: seq<DirEnt>, at: nat)
    requires UniqueNames(list) && at < |list|
    ensures Without(list, list[at].name) == list[..at] + list[at + 1..]
    decreases |list|
  {
    if at == 0 {
      WithoutNone(list[1..], list[0].name);
      assert list[..0] + list[1..] == list[1..];
    } else {
      WithoutOne(list[1..], at - 1);
      assert list[1..][at - 1] == list[at];
      assert [list[0]] + (list[1..][..at - 1] + list[1..][at..]) == list[..at] + list[at + 1..];
    }
  }

  lemma {:induction false} WithoutNone(list: seq<DirEnt>, name: string)
    requires forall i | 0 <= i < |list| :: list[i].name != name
    ensures Without(list, name) == list
    decreases |list|
  {
    if list != [] {
      WithoutNone(list[1..], name);
    }
  }

  // ----- a client reading page by page -----

  /** The client goes on from the cookie of the last entry it was given; `finished` once a page came with
      the end-of-list flag. */
  datatype Reading = Reading(cookie: int, returned: seq<DirEnt>, finished: bool)

  datatype State = State(dir: Directory, client: Reading)

  /** How many entries fit in a page depends on their size and on the client's limit; a page with no room
      for the first entry is an error and changes nothing. */
  datatype Event = Set(name: string, fh: Handle) | Delete(name: string) | Page(count: nat)

  predicate ValidCookie(d: Directory, cookie: int) {
    0 <= cookie <= d.lastCookie
  }

  function ReadPage(d: Directory, client: Reading, count: nat): Reading {
    var entries := Above(d.list, client.cookie);
    if client.finished || !ValidCookie(d, client.cookie) || (count == 0 && entries != []) then client
    else
      var page := if count < |entries| then entries[..count] else entries;
      Reading(if page == [] then client.cookie else page[|page| - 1].cookie,
              client.returned + page, |page| == |entries|)
  }

  function Next(s: State, ev: Event): State {
    match ev
    case Set(name, fh) => s.(dir := Enter(s.dir, name, fh))
    case Delete(name) => s.(dir := Remove(s.dir, name))
    case Page(count) => s.(client := ReadPage(s.dir, s.client, count))
  }

  ghost predicate IsRun(states: seq<State>, events: seq<Event>) {
    && |states| == |events| + 1
    && Ordered(states[0].dir) && states[0].client == Reading(0, [], false)
    && forall i | 0 <= i < |events| :: states[i + 1] == Next(states[i], events[i])
  }

  /** What the client has been given goes up and stops at its cookie, which the server still accepts. */
  ghost predicate Inv(s: State) {
    && Ordered(s.dir) && Ascending(s.client.returned)
    && ValidCookie(s.dir, s.client.cookie)
    && forall e | e in s.client.returned :: e.cookie <= s.client.cookie
  }

  /** A stretch of an ascending list has everything between its ends, and nothing else. */
  lemma Stretch(list: seq<DirEnt>, from: nat, to: nat, e: DirEnt)
    requires Ascending(list) && from < to <= |list|
    ensures e in list[from..to] <==> e in list && list[from].cookie <= e.cookie <= list[to - 1].cookie
  {
    if e in list {
      var k :| 0 <= k < |list| && list[k] == e;
      if from <= k < to {
        assert list[from..to][k - from] == e;
      }
    }
  }

  /** A page of the entries above a cookie: it has all of them up to its last one. */
  lemma PageIsFirst(list: seq<DirEnt>, cookie: int, page: seq<DirEnt>)
    requires Ascending(list) && page != [] && page <= Above(list, cookie)
    ensures Ascending(page)
    ensures forall e :: e in page <==> e in list && cookie < e.cookie <= page[|page| - 1].cookie
  {
    hide Above, FirstAbove, Ascending;
    var at := FirstAbove(list, cookie);
    var to := at + |page|;
    PageIsStretch(list, cookie, page);
    StretchAscends(list, at, to);
    forall e ensures e in page <==> e in list && cookie < e.cookie <= page[|page| - 1].cookie {
      Stretch(list, at, to, e);
      if e in list && cookie < e.cookie {
        NotBelow(list, cookie, at, e);
      }
    }
  }

  lemma PageIsStretch(list: seq<DirEnt>, cookie: int, page: seq<DirEnt>)
    requires Ascending(list) && page != [] && page <= Above(list, cookie)
    ensures var at := FirstAbove(list, cookie);
            at + |page| <= |list| && page == list[at..at + |page|] && page[|page| - 1] == list[at + |page| - 1]
  {
    hide Ascending, Above, FirstAbove;
    var at := FirstAbove(list, cookie);
    AboveIsSuffix(list, cookie, at);
    assert page == list[at..][..|page|];
  }

  lemma StretchAscends(list: seq<DirEnt>, from: nat, to: nat)
    requires Ascending(list) && from <= to <= |list|
    ensures Ascending(list[from..to])
  {
  }

  lemma NotBelow(list: seq<DirEnt>, cookie: int, at: nat, e: DirEnt)
    requires Ascending(list) && at < |list| && e in list && e.cookie > cookie
    requires forall i | 0 <= i < at :: list[i].cookie <= cookie
    ensures list[at].cookie <= e.cookie
  {
  }

  lemma Appended(returned: seq<DirEnt>, page: seq<DirEnt>, cookie: int)
    requires Ascending(returned) && Ascending(page)
    requires (forall e | e in returned :: e.cookie <= cookie) && forall e | e in page :: cookie < e.cookie
    ensures Ascending(returned + page)
  {
    forall i, j | 0 <= i < j < |returned + page| ensures (returned + page)[i].cookie < (returned + page)[j].cookie {
      if i < |returned| <= j {
        assert returned[i] in returned && page[j - |returned|] in page;
      }
    }
  }

  /** What the client makes of a page, also of an empty or refused one. */
  lemma PageFacts(s: State, count: nat) returns (page: seq<DirEnt>)
    requires Inv(s)
    ensures var c, c' := s.client, ReadPage(s.dir, s.client, count);
            && c'.returned == c.returned + page && c.cookie <= c'.cookie <= s.dir.lastCookie
            && (forall e | e in page :: e in s.dir.list && c.cookie < e.cookie <= c'.cookie)
            && Ascending(c'.returned)
            && (forall e | e in s.dir.list && c.cookie < e.cookie <= c'.cookie :: e in page)
            && (c.finished ==> c' == c)
            && (c'.finished && !c.finished ==> forall e | e in s.dir.list && c.cookie < e.cookie :: e in page)
  {
    hide UniqueNames, Ascending, Above, Bounded;
    var c, entries := s.client, Above(s.dir.list, s.client.cookie);
    if c.finished || (count == 0 && entries != []) || entries == [] {
      page := [];
      assert c.returned + page == c.returned;
    } else {
      page := if count < |entries| then entries[..count] else entries;
      PageIsFirst(s.dir.list, c.cookie, page);
      Appended(c.returned, page, c.cookie);
      InsideBounds(s.dir, page[|page| - 1]);
    }
  }

  lemma InsideBounds(d: Directory, e: DirEnt)
    requires Ordered(d) && e in d.list
    ensures 2 < e.cookie <= d.lastCookie
  {
  }

  lemma StepKeepsInv(s: State, ev: Event)
    requires Inv(s)
    ensures Inv(Next(s, ev))
  {
    match ev
    case Set(name, fh) => EnterKeepsOrder(s.dir, name, fh);
    case Delete(name) => RemoveKeepsOrder(s.dir, name);
    case Page(count) => var page := PageFacts(s, count);
  }

  lemma {:induction false} RunKeepsInv(states: seq<State>, events: seq<Event>, i: nat)
    requires IsRun(states, events) && i < |states|
    ensures Inv(states[i])
  {
    if i > 0 {
      RunKeepsInv(states, events, i - 1);
      StepKeepsInv(states[i - 1], events[i - 1]);
    }
  }

  // ----- what the enumeration promises -----

  /** In every reachable state, readdir with a valid cookie returns the end of the list that begins with the
      first entry above it: exactly the entries above it. */
  lemma ReadsExactlyAbove(states: seq<State>, events: seq<Event>, i: nat, cookie: int)
    requires IsRun(states, events) && i < |states|
    ensures var list := states[i].dir.list;
            list[FirstAbove(list, cookie)..] == Above(list, cookie)
    ensures UniqueNames(states[i].dir.list)
  {
    RunKeepsInv(states, events, i);
    AboveIsSuffix(states[i].dir.list, cookie, FirstAbove(states[i].dir.list, cookie));
  }

  /** However many entries were entered and removed meanwhile, no cookie is returned twice. */
  lemma NoCookieTwice(states: seq<State>, events: seq<Event>, i: nat, j: nat, k: nat)
    requires IsRun(states, events) && i < |states| && j < k < |states[i].client.returned|
    ensures states[i].client.returned[j].cookie != states[i].client.returned[k].cookie
  {
    RunKeepsInv(states, events, i);
  }

  /** The server never refuses the cookie the client goes on with. */
  lemma CookieStaysValid(states: seq<State>, events: seq<Event>, i: nat)
    requires IsRun(states, events) && i < |states|
    ensures ValidCookie(states[i].dir, states[i].client.cookie)
  {
    RunKeepsInv(states, events, i);
  }

  ghost predicate PresentThroughout(states: seq<State>, e: DirEnt, i: nat)
    requires i < |states|
  {
    forall k | 0 <= k <= i :: e in states[k].dir.list
  }

  /** Of the entries that stay, the client has those up to its cookie, and all of them when finished. */
  lemma {:induction false} HasUpToCookie(states: seq<State>, events: seq<Event>, e: DirEnt, i: nat)
    requires IsRun(states, events) && i < |states| && PresentThroughout(states, e, i)
    ensures e in states[i].client.returned <==> e.cookie <= states[i].client.cookie || states[i].client.finished
    decreases i
  {
    assert e in states[i].dir.list;
    RunKeepsInv(states, events, 0);
    if i > 0 {
      var s := states[i - 1];
      HasUpToCookie(states, events, e, i - 1);
      RunKeepsInv(states, events, i - 1);
      assert e in s.dir.list;
      if events[i - 1].Page? {
        var page := PageFacts(s, events[i - 1].count);
      }
    }
  }

  function Occurrences(list: seq<DirEnt>, e: DirEnt): nat {
    multiset(list)[e]
  }

  /** An entry that is there throughout the enumeration is returned exactly once. */
  lemma ReturnedExactlyOnce(states: seq<State>, events: seq<Event>, e: DirEnt, i: nat)
    requires IsRun(states, events) && i < |states| && PresentThroughout(states, e, i)
    requires states[i].client.finished
    ensures Occurrences(states[i].client.returned, e) == 1
  {
    RunKeepsInv(states, events, i);
    HasUpToCookie(states, events, e, i);
    CountedOnce(states[i].client.returned, e);
  }

  lemma {:induction false} CountedOnce(list: seq<DirEnt>, e: DirEnt)
    requires Ascending(list) && e in list
    ensures Occurrences(list, e) == 1
    decreases |list|
  {
    assert list == [list[0]] + list[1..];
    if e != list[0] {
      CountedOnce(list[1..], e);
    } else {
      assert forall k | 0 <= k < |list[1..]| :: list[1..][k] == list[k + 1];
      assert e !in list[1..];
      assert multiset(list[1..])[e] == 0;
    }
  }

  /** Nothing is made up: what is returned was in the directory at some moment of the enumeration. */
  lemma {:induction false} ReturnedWasThere(states: seq<State>, events: seq<Event>, e: DirEnt, i: nat) returns (k: nat)
    requires IsRun(states, events) && i < |states| && e in states[i].client.returned
    ensures k < i && e in states[k].dir.list
    decreases i
  {
    assert i > 0;
    var s := states[i - 1];
    RunKeepsInv(states, events, i - 1);
    if e in s.client.returned {
      k := ReturnedWasThere(states, events, e, i - 1);
    } else {
      var page := PageFacts(s, events[i - 1].count);
      k := i - 1;
    }
  }

  /** What a page gives: from the first entry above the client's cookie on as many as it has room for; the client
      goes on after the last of them, and is finished exactly if that was the last of the list. */
  lemma PageGives(s: State, count: nat)
    requires Inv(s) && !s.client.finished
    ensures var list, c, c' := s.dir.list, s.client, ReadPage(s.dir, s.client, count);
            var at := FirstAbove(list, c.cookie);
            var n := if count < |list| - at then count else |list| - at;
            && (n > 0 ==> c'.returned == c.returned + list[at..at + n] && c'.cookie == list[at + n - 1].cookie)
            && (n == 0 ==> c'.returned == c.returned && c'.cookie == c.cookie)
            && (c'.finished <==> at + n == |list|)
  {
    hide Above, FirstAbove, Ascending, Ordered, ReadPage;
    var at := FirstAbove(s.dir.list, s.client.cookie);
    AscendingList(s);
    AboveIsSuffix(s.dir.list, s.client.cookie, at);
    SuffixPage(s.dir.list, at, count);
    PageOf(s.dir, s.client, count, s.dir.list[at..]);
  }

  lemma PageOf(d: Directory, c: Reading, count: nat, entries: seq<DirEnt>)
    requires !c.finished && ValidCookie(d, c.cookie) && entries == Above(d.list, c.cookie)
    ensures var c', n := ReadPage(d, c, count), if count < |entries| then count else |entries|;
            && (n > 0 ==> c'.returned == c.returned + entries[..n] && c'.cookie == entries[n - 1].cookie)
            && (n == 0 ==> c'.returned == c.returned && c'.cookie == c.cookie)
            && (c'.finished <==> n == |entries|)
  {
    hide Above;
    assert c.returned + [] == c.returned;
    assert entries[..|entries|] == entries;
  }

  lemma AscendingList(s: State)
    requires Inv(s)
    ensures Ascending(s.dir.list)
  {
  }

  lemma SuffixPage(list: seq<DirEnt>, at: nat, count: nat)
    requires at <= |list|
    ensures var n := if count < |list| - at then count else |list| - at;
            list[at..][..n] == list[at..at + n] && (n > 0 ==> list[at..][n - 1] == list[at + n - 1])
  {
  }

  ghost predicate NotEntered(events: seq<Event>, i: nat, j: nat, name: string)
    requires j <= |events|
  {
    forall k | i <= k < j && events[k].Set? :: events[k].name != name
  }

  /** What was removed stays away until the name is entered again. */
  lemma {:induction false} RemovedStaysAway(states: seq<State>, events: seq<Event>, i: nat, j: nat, name: string)
    requires IsRun(states, events) && i < j < |states| && events[i] == Delete(name) && NotEntered(events, i, j, name)
    ensures forall e | e in states[j].dir.list :: e.name != name
    decreases j
  {
    if j > i + 1 {
      RemovedStaysAway(states, events, i, j - 1, name);
    }
  }

  /** A name that was removed before a page, and not entered since, is not among what the page adds. */
  lemma RemovedIsNotReturned(states: seq<State>, events: seq<Event>, i: nat, j: nat, name: string, k: nat)
    requires IsRun(states, events) && i < j < |events| && events[i] == Delete(name) && NotEntered(events, i, j, name)
    requires events[j].Page? && |states[j].client.returned| <= k < |states[j + 1].client.returned|
    ensures states[j + 1].client.returned[k].name != name
  {
    RunKeepsInv(states, events, j);
    RemovedStaysAway(states, events, i, j, name);
    var page := PageFacts(states[j], events[j].count);
    assert states[j + 1].client.returned[k] in page;
  }

  /** What is entered is there, last and with a cookie that no entry had before. */
  lemma EnteredIsThere(states: seq<State>, events: seq<Event>, i: nat)
    requires IsRun(states, events) && i < |events| && events[i].Set?
    ensures var list, list' := states[i].dir.list, states[i + 1].dir.list;
            && list' != [] && list'[|list'| - 1] == DirEnt(events[i].name, events[i].fh, states[i].dir.lastCookie + 1)
            && (forall e | e in list :: e.cookie < list'[|list'| - 1].cookie)
            && forall e: DirEnt | e.name != events[i].name :: e in list <==> e in list'
  {
    RunKeepsInv(states, events, i);
  }

  // ----- the class, changed in place -----

  class DirectoryList {
    var list: seq<DirEnt>
    var lastCookie: int

    ghost function Value(): Directory
      reads this
    {
      Directory(list, lastCookie)
    }

    constructor ()
      ensures Value() == EMPTY && Ordered(Value())
    {
      list, lastCookie := [], 2;
    }

    method NextCookie() returns (cookie: int)
      modifies this`lastCookie
      ensures cookie == lastCookie == old(lastCookie) + 1
    {
      lastCookie := lastCookie + 1;
      cookie := lastCookie;
    }

    /** __setitem__: the list is cut while it is being walked, which skips one entry after the cut. */
    method Set(name: string, fh: Handle)
      requires Ordered(Value())
      modifies this
      ensures Value() == Enter(old(Value()), name, fh) && Ordered(Value())
      ensures lastCookie == old(lastCookie) + 1 && list != []
      ensures list[|list| - 1] == DirEnt(name, fh, lastCookie)
      ensures forall e :: e in list[..|list| - 1] <==> e in old(list) && e.name != name
    {
      hide UniqueNames, Ascending, Bounded;
      EnterKeepsOrder(Value(), name, fh);
      ghost var was := list;
      var i := 0;
      while i < |list|
        invariant i <= |was| && |list| <= |was|
        invariant list == was || list == Without(was, name)
        invariant list == was ==> forall k | 0 <= k < i :: list[k].name != name
        invariant lastCookie == old(lastCookie)
        decreases |was| - i
      {
        if list[i].name == name {
          assert list[i] in list;
          WithoutOne(was, i);
          list := list[..i] + list[i + 1..];
          assert |list| < |was|;
        }
        i := i + 1;
      }
      if list == was {
        WithoutNone(list, name);
      }
      var cookie := NextCookie();
      list := list + [DirEnt(name, fh, cookie)];
      assert list[..|list| - 1] == Without(was, name);
    }

    /** __delitem__; false is the KeyError. */
    method Delete(name: string) returns (found: bool)
      requires Ordered(Value())
      modifies this`list
      ensures Value() == Remove(old(Value()), name) && Ordered(Value())
      ensures lastCookie == old(lastCookie)
      ensures forall e :: e in list <==> e in old(list) && e.name != name
      ensures found <==> exists e :: e in old(list) && e.name == name
    {
      RemoveKeepsOrder(Value(), name);
      for i := 0 to |list|
        invariant list == old(list) && forall k | 0 <= k < i :: list[k].name != name
      {
        if list[i].name == name {
          assert list[i] in old(list);
          WithoutOne(list, i);
          list := list[..i] + list[i + 1..];
          return true;
        }
      }
      WithoutNone(list, name);
      found := false;
    }

    /** __getitem__ and getcookie; None is the KeyError. */
    method Find(name: string) returns (entry: Option<DirEnt>)
      requires Ordered(Value())
      ensures entry.Some? ==> entry.value in list && entry.value.name == name
                              && forall e | e in list && e.name == name :: e == entry.value
      ensures entry.None? ==> forall e | e in list :: e.name != name
    {
      for i := 0 to |list|
        invariant forall k | 0 <= k < i :: list[k].name != name
      {
        if list[i].name == name {
          return Some(list[i]);
        }
      }
      entry := None;
    }

    /** readdir; None is the IndexError. */
    method ReadDir(cookie: int) returns (entries: Option<seq<DirEnt>>)
      requires Ordered(Value())
      ensures entries == if ValidCookie(Value(), cookie) then Some(Above(list, cookie)) else None
    {
      if cookie < 0 || cookie > lastCookie {
        return None;
      }
      for i := 0 to |list|
        invariant forall k | 0 <= k < i :: list[k].cookie <= cookie
      {
        if list[i].cookie > cookie {
          AboveIsSuffix(list, cookie, i);
          return Some(list[i..]);
        }
      }
      AboveIsSuffix(list, cookie, |list|);
      entries := Some([]);
    }

    method Keys() returns (names: seq<string>)
      requires Ordered(Value())
      ensures |names| == |list| && forall i | 0 <= i < |list| :: names[i] == list[i].name
      ensures forall i, j | 0 <= i < j < |names| :: names[i] != names[j]
    {
      names := [];
      for i := 0 to |list|
        invariant |names| == i && forall k | 0 <= k < i :: names[k] == list[k].name
      {
        names := names + [list[i].name];
      }
    }
  }
}
