/**
 * getLeaderboardData, shared by both trackers: every roster member starts at
 * zero, each logged event whose actor is on the roster adds one, and the
 * entries are stably sorted by descending count, so ties keep roster order.
 */
module Leaderboard {
  import opened Common
  import opened StableSort

  datatype Entry = Entry(name: string, count: nat)

  /** Number of events credited to `member`. */
  function Count(actors: seq<string>, member: string): (n: nat)
    ensures n <= |actors|
  {
    if actors == [] then 0
    else (if actors[0] == member then 1 else 0) + Count(actors[1..], member)
  }

  lemma {:induction false} CountAppend(s: seq<string>, t: seq<string>, member: string)
    ensures Count(s + t, member) == Count(s, member) + Count(t, member)
  {
    if s == [] {
      assert s + t == t;
    } else {
      assert (s + t)[1..] == s[1..] + t;
      CountAppend(s[1..], t, member);
    }
  }

  /** Removing the event at index i takes exactly that event's actor down by one. */
  lemma CountRemoveAt(s: seq<string>, i: nat, member: string)
    requires i < |s|
    ensures Count(s[..i] + s[i + 1..], member) == Count(s, member) - (if s[i] == member then 1 else 0)
  {
    assert s == s[..i] + ([s[i]] + s[i + 1..]);
    CountAppend(s[..i], [s[i]] + s[i + 1..], member);
    CountAppend([s[i]], s[i + 1..], member);
    CountAppend(s[..i], s[i + 1..], member);
  }

  /** A member with no event in the log has count zero. */
  lemma {:induction false} CountAbsent(s: seq<string>, member: string)
    requires member !in s
    ensures Count(s, member) == 0
  {
    if s != [] {
      assert member !in s[1..];
      CountAbsent(s[1..], member);
    }
  }

  function Names(entries: seq<Entry>): (r: seq<string>)
    ensures |r| == |entries| && forall i :: 0 <= i < |r| ==> r[i] == entries[i].name
  {
    seq(|entries|, i requires 0 <= i < |entries| => entries[i].name)
  }

  /** Index of the first occurrence of `name` in the roster, or |roster| when absent. */
  function RosterIndex(roster: seq<string>, name: string): (i: nat)
    ensures i <= |roster|
    ensures i < |roster| ==> roster[i] == name
    ensures forall j :: 0 <= j < i ==> roster[j] != name
  {
    if roster == [] then 0
    else if roster[0] == name then 0
    else 1 + RosterIndex(roster[1..], name)
  }

  /** The initialised-then-incremented object, in roster (insertion) order. */
  function Tally(actors: seq<string>, roster: seq<string>): (r: seq<Entry>)
    ensures |r| == |roster|
    ensures forall i :: 0 <= i < |r| ==> r[i] == Entry(roster[i], Count(actors, roster[i]))
  {
    seq(|roster|, i requires 0 <= i < |roster| => Entry(roster[i], Count(actors, roster[i])))
  }

  /** The comparator b.count - a.count sorts ascending by the negated count. */
  function ByCount(e: Entry): int { -(e.count as int) }

  /**
   * The ranked leaderboard: each roster member exactly once, with the number
   * of events that name them; non-increasing by count; equal counts in
   * roster order.  Roster order is the insertion order in which the
   * tally object lists its entries; it holds because no family member's
   * name looks like an array index, which that object would list first.
   */
  function Rank(actors: seq<string>, roster: seq<string>): (r: seq<Entry>)
    requires Distinct(roster)
    ensures |r| == |roster|
    ensures multiset(Names(r)) == multiset(roster)
    ensures forall i :: 0 <= i < |r| ==> r[i].count == Count(actors, r[i].name)
    ensures forall i, j :: 0 <= i < j < |r| ==> r[i].count >= r[j].count
    ensures forall i, j :: 0 <= i < j < |r| && r[i].count == r[j].count ==>
              RosterIndex(roster, r[i].name) < RosterIndex(roster, r[j].name)
  {
    var tally := Tally(actors, roster);
    var r := SortBy(tally, ByCount);
    RankCorrect(actors, roster, tally, r);
    r
  }

  lemma RankCorrect(actors: seq<string>, roster: seq<string>, tally: seq<Entry>, r: seq<Entry>)
    requires Distinct(roster)
    requires tally == Tally(actors, roster) && r == SortBy(tally, ByCount)
    ensures |r| == |roster|
    ensures multiset(Names(r)) == multiset(roster)
    ensures forall i :: 0 <= i < |r| ==> r[i].count == Count(actors, r[i].name)
    ensures forall i, j :: 0 <= i < j < |r| ==> r[i].count >= r[j].count
    ensures forall i, j :: 0 <= i < j < |r| && r[i].count == r[j].count ==>
              RosterIndex(roster, r[i].name) < RosterIndex(roster, r[j].name)
  {
    SortByCorrect(tally, ByCount);
    assert Names(tally) == roster;
    NamesSort(tally);
    RankCounts(actors, roster, tally, r);
    RankDescending(r);
    RankTies(roster, tally, r);
  }

  lemma RankCounts(actors: seq<string>, roster: seq<string>, tally: seq<Entry>, r: seq<Entry>)
    requires tally == Tally(actors, roster) && multiset(r) == multiset(tally)
    ensures forall i :: 0 <= i < |r| ==> r[i].count == Count(actors, r[i].name)
  {
    forall i | 0 <= i < |r|
      ensures r[i].count == Count(actors, r[i].name)
    {
      assert r[i] in multiset(tally);
      var j :| 0 <= j < |tally| && tally[j] == r[i];
    }
  }

  lemma RankDescending(r: seq<Entry>)
    requires SortedBy(r, ByCount)
    ensures forall i, j :: 0 <= i < j < |r| ==> r[i].count >= r[j].count
  {
    forall i, j | 0 <= i < j < |r|
      ensures r[i].count >= r[j].count
    {
      assert ByCount(r[i]) <= ByCount(r[j]);
    }
  }

  lemma RankTies(roster: seq<string>, tally: seq<Entry>, r: seq<Entry>)
    requires Distinct(roster)
    requires |tally| == |roster| && forall i :: 0 <= i < |tally| ==> tally[i].name == roster[i]
    requires r == SortBy(tally, ByCount)
    ensures forall i, j :: 0 <= i < j < |r| && r[i].count == r[j].count ==>
              RosterIndex(roster, r[i].name) < RosterIndex(roster, r[j].name)
  {
    var pos := (e: Entry) => RosterIndex(roster, e.name);
    TallyInRosterOrder(roster, tally, pos);
    SortByTiesOrdered(tally, ByCount, pos);
    TiesByRosterIndex(roster, r, pos);
  }

  lemma TiesByRosterIndex(roster: seq<string>, r: seq<Entry>, pos: Entry -> int)
    requires forall e :: pos(e) == RosterIndex(roster, e.name)
    requires TiesOrdered(r, ByCount, pos)
    ensures forall i, j :: 0 <= i < j < |r| && r[i].count == r[j].count ==>
              RosterIndex(roster, r[i].name) < RosterIndex(roster, r[j].name)
  {
    forall i, j | 0 <= i < j < |r| && r[i].count == r[j].count
      ensures RosterIndex(roster, r[i].name) < RosterIndex(roster, r[j].name)
    {
      assert ByCount(r[i]) == ByCount(r[j]);
      assert pos(r[i]) < pos(r[j]);
    }
  }

  lemma TallyInRosterOrder(roster: seq<string>, tally: seq<Entry>, pos: Entry -> int)
    requires Distinct(roster)
    requires |tally| == |roster| && forall i :: 0 <= i < |tally| ==> tally[i].name == roster[i]
    requires forall e :: pos(e) == RosterIndex(roster, e.name)
    ensures StrictlyIncreasing(tally, pos)
  {
    forall i, j | 0 <= i < j < |tally|
      ensures pos(tally[i]) < pos(tally[j])
    {
      assert RosterIndex(roster, roster[i]) == i;
      assert RosterIndex(roster, roster[j]) == j;
    }
  }

  lemma {:induction false} NamesInsert(x: Entry, t: seq<Entry>)
    ensures multiset(Names(Insert(x, t, ByCount))) == multiset([x.name] + Names(t))
  {
    if t != [] && ByCount(x) > ByCount(t[0]) {
      var u := Insert(x, t[1..], ByCount);
      NamesInsert(x, t[1..]);
      assert Names([t[0]] + u) == [t[0].name] + Names(u);
      assert Names(t) == [t[0].name] + Names(t[1..]);
    } else {
      assert Names([x] + t) == [x.name] + Names(t);
    }
  }

  lemma {:induction false} NamesSort(s: seq<Entry>)
    ensures multiset(Names(SortBy(s, ByCount))) == multiset(Names(s))
  {
    if s != [] {
      NamesSort(s[1..]);
      NamesInsert(s[0], SortBy(s[1..], ByCount));
      assert Names(s) == [s[0].name] + Names(s[1..]);
    }
  }
}
