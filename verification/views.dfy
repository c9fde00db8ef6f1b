/** The views the tracker derives from its history on every render:
    `groupedHistory` (sort by time, then split by user), `chartData` (one
    row per entry position, one column per user) and
    `combinedHistoryForTable` (newest first). */
module Views {
  import opened Collections
  import opened StableSort
  import opened Decimal
  import opened History

  /** Sort key of `(a, b) => a.timestamp - b.timestamp`: oldest first. */
  function OldestFirst(e: Entry): int
  {
    e.timestamp
  }

  /** Sort key of `(a, b) => b.timestamp - a.timestamp`: newest first. */
  function NewestFirst(e: Entry): int
  {
    -e.timestamp
  }

  function ByUser(u: int): Entry -> bool
  {
    (e: Entry) => e.user == u
  }

  function AtTime(t: int): Entry -> bool
  {
    (e: Entry) => e.timestamp == t
  }

  /** The users that own at least one entry. */
  function Users(h: seq<Entry>): set<int>
  {
    set e | e in h :: e.user
  }

  /** The history sorted oldest first; entries recorded at the same time
      keep the order in which they were saved. */
  function SortedHistory(h: seq<Entry>): (r: seq<Entry>)
    ensures multiset(r) == multiset(h)
    ensures forall i, j :: 0 <= i < j < |r| ==> r[i].timestamp <= r[j].timestamp
  {
    Sort(h, OldestFirst)
  }

  /** `combinedHistoryForTable`: the history newest first; entries recorded
      at the same time keep the order in which they were saved. */
  function CombinedHistoryForTable(h: seq<Entry>): (r: seq<Entry>)
    ensures multiset(r) == multiset(h)
    ensures forall i, j :: 0 <= i < j < |r| ==> r[i].timestamp >= r[j].timestamp
  {
    var r := Sort(h, NewestFirst);
    assert forall i, j :: 0 <= i < j < |r| ==> NewestFirst(r[i]) <= NewestFirst(r[j]);
    r
  }

  /** Both sorts are stable: the entries with one timestamp appear in the
      order in which they were saved. */
  lemma SortsAreStable(h: seq<Entry>, t: int)
    ensures Filter(SortedHistory(h), AtTime(t)) == Filter(h, AtTime(t))
    ensures Filter(CombinedHistoryForTable(h), AtTime(t)) == Filter(h, AtTime(t))
  {
    SortStable(h, AtTime(t), OldestFirst);
    SortStable(h, AtTime(t), NewestFirst);
  }

  /** The `reduce` that builds `groupedHistory`: each entry of `s`, in
      order, is pushed onto the array of its user, which is created the
      first time that user is met. */
  function GroupInto(s: seq<Entry>, acc: map<int, seq<Entry>>): map<int, seq<Entry>>
    decreases |s|
  {
    if |s| == 0 then acc
    else GroupInto(s[1..], Push(acc, s[0]))
  }

  /** Pushing the first entry of `s` onto its user's array. */
  function Push(acc: map<int, seq<Entry>>, e: Entry): map<int, seq<Entry>>
  {
    acc[e.user := (if e.user in acc then acc[e.user] else []) + [e]]
  }

  lemma UsersCons(s: seq<Entry>)
    requires |s| > 0
    ensures Users(s) == {s[0].user} + Users(s[1..])
  {
    assert s == [s[0]] + s[1..];
    assert forall x :: x in s <==> x == s[0] || x in s[1..];
  }

  lemma PushThenRest(s: seq<Entry>, acc: map<int, seq<Entry>>, u: int)
    requires |s| > 0
    ensures (if u in Push(acc, s[0]) then Push(acc, s[0])[u] else []) + Filter(s[1..], ByUser(u))
         == (if u in acc then acc[u] else []) + Filter(s, ByUser(u))
  {
    if u == s[0].user {
      PushOwner(s, acc);
    } else {
      PushOther(s, acc, u);
    }
  }

  lemma PushOwner(s: seq<Entry>, acc: map<int, seq<Entry>>)
    requires |s| > 0
    ensures var u := s[0].user;
      Push(acc, s[0])[u] + Filter(s[1..], ByUser(u))
      == (if u in acc then acc[u] else []) + Filter(s, ByUser(u))
  {
    var u := s[0].user;
    FilterCons(s, ByUser(u));
    PushAppends(acc, s[0], Filter(s[1..], ByUser(u)));
  }

  /** The pushed entry followed by `tail` extends the user's old array by
      the entry and `tail`. */
  lemma PushAppends(acc: map<int, seq<Entry>>, e: Entry, tail: seq<Entry>)
    ensures Push(acc, e)[e.user] + tail
         == (if e.user in acc then acc[e.user] else []) + ([e] + tail)
  {
    var group := if e.user in acc then acc[e.user] else [];
    assert Push(acc, e)[e.user] == group + [e];
    assert group + [e] + tail == group + ([e] + tail);
  }

  lemma PushOther(s: seq<Entry>, acc: map<int, seq<Entry>>, u: int)
    requires |s| > 0 && u != s[0].user
    ensures (if u in Push(acc, s[0]) then Push(acc, s[0])[u] else []) + Filter(s[1..], ByUser(u))
         == (if u in acc then acc[u] else []) + Filter(s, ByUser(u))
  {
    assert Filter(s, ByUser(u)) == Filter(s[1..], ByUser(u));
  }

  /** Folding `s` into `acc` gives each user the entries it already had,
      followed by its entries in `s`. */
  lemma {:induction false} GroupIntoAppends(s: seq<Entry>, acc: map<int, seq<Entry>>)
    ensures GroupInto(s, acc).Keys == acc.Keys + Users(s)
    ensures forall u :: u in GroupInto(s, acc) ==>
      GroupInto(s, acc)[u] == (if u in acc then acc[u] else []) + Filter(s, ByUser(u))
    decreases |s|
  {
    if |s| == 0 {
      assert Users(s) == {};
    } else {
      var acc' := Push(acc, s[0]);
      assert GroupInto(s, acc) == GroupInto(s[1..], acc');
      GroupIntoAppends(s[1..], acc');
      UsersCons(s);
      forall u | u in GroupInto(s, acc)
        ensures GroupInto(s, acc)[u] == (if u in acc then acc[u] else []) + Filter(s, ByUser(u))
      {
        PushThenRest(s, acc, u);
      }
    }
  }

  /** Two sequences with the same elements have the same owners. */
  lemma SameUsers(a: seq<Entry>, b: seq<Entry>)
    requires multiset(a) == multiset(b)
    ensures Users(a) == Users(b)
  {
    forall u | u in Users(a)
      ensures u in Users(b)
    {
      var e :| e in a && e.user == u;
      assert e in multiset(a);
    }
    forall u | u in Users(b)
      ensures u in Users(a)
    {
      var e :| e in b && e.user == u;
      assert e in multiset(b);
    }
  }

  /** Folding into an empty object gives each user exactly its entries. */
  lemma GroupFromEmpty(s: seq<Entry>)
    ensures GroupInto(s, map[]).Keys == Users(s)
    ensures forall u :: u in GroupInto(s, map[]) ==> GroupInto(s, map[])[u] == Filter(s, ByUser(u))
  {
    GroupIntoAppends(s, map[]);
    forall u | u in GroupInto(s, map[])
      ensures GroupInto(s, map[])[u] == Filter(s, ByUser(u))
    {
      assert [] + Filter(s, ByUser(u)) == Filter(s, ByUser(u));
    }
  }

  lemma GroupedHistoryShape(h: seq<Entry>)
    ensures GroupInto(SortedHistory(h), map[]).Keys == Users(h)
    ensures forall u :: u in GroupInto(SortedHistory(h), map[]) ==>
      GroupInto(SortedHistory(h), map[])[u] == Sort(Filter(h, ByUser(u)), OldestFirst)
  {
    var sorted := SortedHistory(h);
    GroupFromEmpty(sorted);
    SameUsers(sorted, h);
    forall u
      ensures Filter(sorted, ByUser(u)) == Sort(Filter(h, ByUser(u)), OldestFirst)
    {
      SortFilter(h, ByUser(u), OldestFirst);
    }
  }

  /** `groupedHistory`: one group per user that has entries; a user's
      group is that user's entries, sorted oldest first, with entries
      recorded at the same time in the order they were saved. */
  function GroupedHistory(h: seq<Entry>): (g: map<int, seq<Entry>>)
    ensures g.Keys == Users(h)
    ensures forall u :: u in g ==> g[u] == Sort(Filter(h, ByUser(u)), OldestFirst)
  {
    GroupedHistoryShape(h);
    GroupInto(SortedHistory(h), map[])
  }

  /** A user has a group exactly when some entry belongs to that user,
      and then the group is not empty. */
  lemma GroupExists(h: seq<Entry>, u: int)
    ensures u in GroupedHistory(h) <==> exists i :: 0 <= i < |h| && h[i].user == u
    ensures u in GroupedHistory(h) ==> |GroupedHistory(h)[u]| > 0
  {
    if u in GroupedHistory(h) {
      var e :| e in h && e.user == u;
      FilterMembers(h, ByUser(u));
      assert e in Filter(h, ByUser(u));
    }
    if exists i :: 0 <= i < |h| && h[i].user == u {
      var i :| 0 <= i < |h| && h[i].user == u;
      assert h[i] in h;
    }
  }

  /** A group holds every copy of each of its user's entries and nothing else. */
  lemma GroupCounts(h: seq<Entry>, u: int)
    requires u in GroupedHistory(h)
    ensures forall e :: multiset(GroupedHistory(h)[u])[e] == if e.user == u then multiset(h)[e] else 0
    ensures forall i :: 0 <= i < |GroupedHistory(h)[u]| ==> GroupedHistory(h)[u][i].user == u
  {
    var grp := GroupedHistory(h)[u];
    FilterMultiset(h, ByUser(u));
    assert multiset(grp) == multiset(Filter(h, ByUser(u)));
    forall i | 0 <= i < |grp|
      ensures grp[i].user == u
    {
      assert grp[i] in multiset(grp);
    }
  }

  /** Within a group, the entries recorded at one time are in saving order. */
  lemma GroupStable(h: seq<Entry>, u: int, t: int)
    requires u in GroupedHistory(h)
    ensures Filter(GroupedHistory(h)[u], AtTime(t)) == Filter(Filter(h, ByUser(u)), AtTime(t))
  {
    SortStable(Filter(h, ByUser(u)), AtTime(t), OldestFirst);
  }

  /** What a single group holds: exactly the entries of its user, every
      copy of each, oldest first, and for each timestamp in saving order. */
  lemma GroupContents(h: seq<Entry>, u: int)
    ensures u in GroupedHistory(h) <==> exists i :: 0 <= i < |h| && h[i].user == u
    ensures u in GroupedHistory(h) ==>
      && |GroupedHistory(h)[u]| > 0
      && (forall i :: 0 <= i < |GroupedHistory(h)[u]| ==> GroupedHistory(h)[u][i].user == u)
      && (forall e :: multiset(GroupedHistory(h)[u])[e] == if e.user == u then multiset(h)[e] else 0)
      && (forall i, j :: 0 <= i < j < |GroupedHistory(h)[u]| ==>
            GroupedHistory(h)[u][i].timestamp <= GroupedHistory(h)[u][j].timestamp)
      && (forall t :: Filter(GroupedHistory(h)[u], AtTime(t)) == Filter(Filter(h, ByUser(u)), AtTime(t)))
  {
    GroupExists(h, u);
    if u in GroupedHistory(h) {
      GroupCounts(h, u);
      forall t
        ensures Filter(GroupedHistory(h)[u], AtTime(t)) == Filter(Filter(h, ByUser(u)), AtTime(t))
      {
        GroupStable(h, u, t);
      }
    }
  }

  /** The groups of users 1 to `n`, one after another. */
  function ConcatGroups(g: map<int, seq<Entry>>, n: nat): seq<Entry>
    decreases n
  {
    if n == 0 then []
    else ConcatGroups(g, n - 1) + GroupOf(g, n)
  }

  /** The group of user `k`, or nothing if `k` has no group. */
  function GroupOf(g: map<int, seq<Entry>>, k: int): seq<Entry>
  {
    if k in g then g[k] else []
  }

  lemma GroupOfCounts(h: seq<Entry>, k: int)
    ensures forall e :: multiset(GroupOf(GroupedHistory(h), k))[e]
                     == if e.user == k then multiset(h)[e] else 0
  {
    var g := GroupedHistory(h);
    if k in g {
      GroupCounts(h, k);
    } else {
      GroupExists(h, k);
      forall e: Entry | e.user == k
        ensures multiset(h)[e] == 0
      {
        assert forall i :: 0 <= i < |h| ==> h[i] != e;
      }
    }
  }

  /** Counts in the concatenation of groups that each hold exactly their
      user's entries of `h`. */
  lemma {:induction false} ConcatCounts(g: map<int, seq<Entry>>, h: seq<Entry>, k: nat)
    requires forall u, e :: 1 <= u <= k ==>
      multiset(GroupOf(g, u))[e] == if e.user == u then multiset(h)[e] else 0
    ensures forall e :: multiset(ConcatGroups(g, k))[e]
                     == if 1 <= e.user <= k then multiset(h)[e] else 0
    decreases k
  {
    if k > 0 {
      ConcatCounts(g, h, k - 1);
      assert multiset(ConcatGroups(g, k)) == multiset(ConcatGroups(g, k - 1)) + multiset(GroupOf(g, k));
    }
  }

  lemma ConcatGroupsCounts(h: seq<Entry>, k: nat)
    ensures forall e :: multiset(ConcatGroups(GroupedHistory(h), k))[e]
                     == if 1 <= e.user <= k then multiset(h)[e] else 0
  {
    forall u | 1 <= u <= k
      ensures forall e :: multiset(GroupOf(GroupedHistory(h), u))[e]
                       == if e.user == u then multiset(h)[e] else 0
    {
      GroupOfCounts(h, u);
    }
    ConcatCounts(GroupedHistory(h), h, k);
  }

  /** When every entry belongs to one of users 1 to `n`, the groups of
      those users together are a permutation of the history. */
  lemma GroupsPartitionHistory(h: seq<Entry>, n: nat)
    requires forall i :: 0 <= i < |h| ==> 1 <= h[i].user <= n
    ensures multiset(ConcatGroups(GroupedHistory(h), n)) == multiset(h)
  {
    ConcatGroupsCounts(h, n);
    forall e | e in multiset(h)
      ensures 1 <= e.user <= n
    {
      assert e in h;
    }
  }

  /** One row of the chart: its label and, for each user column that has
      a value in it, the stored BMI in tenths. */
  datatype ChartRow = ChartRow(name: string, values: map<int, int>)

  function Max(a: nat, b: nat): nat
  {
    if a < b then b else a
  }

  /** `Math.max(0, ...lengths)` over the groups of the users listed. */
  function MaxGroupLength(g: map<int, seq<Entry>>, users: seq<int>): (m: nat)
    requires forall i :: 0 <= i < |users| ==> users[i] in g
    ensures forall i :: 0 <= i < |users| ==> |g[users[i]]| <= m
    ensures m == 0 || exists i :: 0 <= i < |users| && |g[users[i]]| == m
    decreases |users|
  {
    if |users| == 0 then 0
    else
      var rest := MaxGroupLength(g, users[1..]);
      assert forall i :: 1 <= i < |users| ==> users[i] == users[1..][i - 1];
      Max(|g[users[0]]|, rest)
  }

  /** The owner of each entry, in history order: every key of
      `groupedHistory` occurs in it. */
  function Owners(h: seq<Entry>): (us: seq<int>)
    ensures |us| == |h|
    ensures forall i :: 0 <= i < |h| ==> us[i] == h[i].user
  {
    seq(|h|, i requires 0 <= i < |h| => h[i].user)
  }

  /** The values of row `i`: user `u` has one when `u` is among the users
      shown and its group has more than `i` entries. */
  function RowValues(g: map<int, seq<Entry>>, numUsers: int, i: nat): (values: map<int, int>)
    ensures forall u :: u in values <==> 1 <= u <= numUsers && u in g && i < |g[u]|
    ensures forall u :: u in values ==> values[u] == g[u][i].bmi
  {
    map u | 1 <= u <= numUsers && u in g && i < |g[u]| :: g[u][i].bmi
  }

  /** When `keys` lists every key of `g`, the maximum over `keys` is the
      length of the longest group. */
  lemma LongestGroup(g: map<int, seq<Entry>>, keys: seq<int>)
    requires forall i :: 0 <= i < |keys| ==> keys[i] in g
    requires forall u :: u in g ==> u in keys
    ensures forall u :: u in g ==> |g[u]| <= MaxGroupLength(g, keys)
    ensures MaxGroupLength(g, keys) > 0 ==>
      exists u :: u in g && |g[u]| == MaxGroupLength(g, keys)
  {
    var m := MaxGroupLength(g, keys);
    forall u | u in g
      ensures |g[u]| <= m
    {
      var k :| 0 <= k < |keys| && keys[k] == u;
    }
    if m > 0 {
      var k :| 0 <= k < |keys| && |g[keys[k]]| == m;
      var u := keys[k];
      assert u in g && |g[u]| == MaxGroupLength(g, keys);
    }
  }

  /** The `chartData` computation on a grouping `g` whose keys, in
      enumeration order and possibly repeated, are listed in `keys`: as
      many rows as the longest group has entries, row `i` labelled with
      position `i + 1` and holding the `i`-th values of the users shown. */
  function Pivot(g: map<int, seq<Entry>>, keys: seq<int>, numUsers: int): (rows: seq<ChartRow>)
    requires forall i :: 0 <= i < |keys| ==> keys[i] in g
    requires forall u :: u in g ==> u in keys
    ensures |rows| == 0 <==> forall u :: u in g ==> |g[u]| == 0
    ensures forall u :: u in g ==> |g[u]| <= |rows|
    ensures |rows| > 0 ==> exists u :: u in g && |g[u]| == |rows|
    ensures forall i :: 0 <= i < |rows| ==>
      rows[i].name == "Entry " + NatToString(i + 1) && rows[i].values == RowValues(g, numUsers, i)
  {
    if |g| == 0 then
      assert forall u :: u in g ==> u in g.Keys;
      []
    else
      var maxEntries := MaxGroupLength(g, keys);
      LongestGroup(g, keys);
      if maxEntries == 0 then []
      else BuildRows(g, numUsers, maxEntries)
  }

  /** The loop of `chartData`: rows `Entry 1` to `Entry count`. */
  function BuildRows(g: map<int, seq<Entry>>, numUsers: int, count: nat): (rows: seq<ChartRow>)
    ensures |rows| == count
    ensures forall i :: 0 <= i < |rows| ==>
      rows[i].name == "Entry " + NatToString(i + 1) && rows[i].values == RowValues(g, numUsers, i)
  {
    seq(count, i requires 0 <= i < count =>
      ChartRow("Entry " + NatToString(i + 1), RowValues(g, numUsers, i)))
  }

  /** Every user owning an entry has a group, and every group's user owns an entry. */
  lemma OwnersAreKeys(h: seq<Entry>)
    ensures forall i :: 0 <= i < |Owners(h)| ==> Owners(h)[i] in GroupedHistory(h)
    ensures forall u :: u in GroupedHistory(h) ==> u in Owners(h)
  {
    var g := GroupedHistory(h);
    var owners := Owners(h);
    forall i | 0 <= i < |h|
      ensures owners[i] in g
    {
      assert h[i] in h;
    }
    forall u | u in g
      ensures u in owners
    {
      var e :| e in h && e.user == u;
      var k :| 0 <= k < |h| && h[k] == e;
      assert owners[k] == u;
    }
  }

  /** `chartData`: the pivot of `groupedHistory`, whose keys are the
      owners of the entries. */
  function ChartData(h: seq<Entry>, numUsers: int): (rows: seq<ChartRow>)
    ensures forall u :: u in GroupedHistory(h) ==> |GroupedHistory(h)[u]| <= |rows|
    ensures |rows| > 0 ==> exists u :: u in GroupedHistory(h) && |GroupedHistory(h)[u]| == |rows|
    ensures forall i :: 0 <= i < |rows| ==>
      rows[i].name == "Entry " + NatToString(i + 1)
      && rows[i].values == RowValues(GroupedHistory(h), numUsers, i)
  {
    OwnersAreKeys(h);
    Pivot(GroupedHistory(h), Owners(h), numUsers)
  }

  /** A user's group is as long as that user's part of the history. */
  lemma GroupSize(h: seq<Entry>, u: int)
    ensures u in GroupedHistory(h) ==> |GroupedHistory(h)[u]| == |Filter(h, ByUser(u))|
    ensures u !in GroupedHistory(h) ==> |Filter(h, ByUser(u))| == 0
  {
    GroupExists(h, u);
    FilterMembers(h, ByUser(u));
    var mine := Filter(h, ByUser(u));
    if |mine| > 0 {
      assert mine[0] in mine;
      var i :| 0 <= i < |h| && h[i] == mine[0];
    }
  }

  /** The number of chart rows in terms of the history alone: none for an
      empty history, otherwise as many as the user with the most entries
      has, counting users outside 1 to `numUsers` too. */
  lemma ChartRowCount(h: seq<Entry>, numUsers: int)
    ensures |ChartData(h, numUsers)| == 0 <==> |h| == 0
    ensures forall u :: |Filter(h, ByUser(u))| <= |ChartData(h, numUsers)|
    ensures |h| > 0 ==> exists u :: |Filter(h, ByUser(u))| == |ChartData(h, numUsers)|
  {
    var rows := ChartData(h, numUsers);
    var g := GroupedHistory(h);
    OwnersAreKeys(h);
    assert rows == Pivot(g, Owners(h), numUsers);
    forall u
      ensures |Filter(h, ByUser(u))| <= |rows|
    {
      GroupSize(h, u);
    }
    if |h| > 0 {
      GroupExists(h, h[0].user);
      assert |rows| > 0;
      var u :| u in g && |g[u]| == |rows|;
      GroupSize(h, u);
    } else {
      assert forall u :: u !in g;
    }
  }

  /** The cells of the chart in terms of the history alone: row `i`
      exists and has a value for user `u` exactly when `u` is shown and has
      more than `i` entries, and that value is the BMI of the user's `i`-th
      oldest entry. */
  lemma ChartCells(h: seq<Entry>, numUsers: int, i: nat, u: int)
    ensures i < |ChartData(h, numUsers)| && u in ChartData(h, numUsers)[i].values
        <==> 1 <= u <= numUsers && i < |Filter(h, ByUser(u))|
    ensures i < |ChartData(h, numUsers)| && u in ChartData(h, numUsers)[i].values ==>
      ChartData(h, numUsers)[i].values[u] == Sort(Filter(h, ByUser(u)), OldestFirst)[i].bmi
  {
    OwnersAreKeys(h);
    GroupSize(h, u);
  }

  /** Every row's label names the position it stands for. */
  lemma RowNameDenotesPosition(h: seq<Entry>, numUsers: int, i: nat)
    ensures i < |ChartData(h, numUsers)| ==>
      && |ChartData(h, numUsers)[i].name| > 6
      && ChartData(h, numUsers)[i].name[..6] == "Entry "
      && DigitsValue(ChartData(h, numUsers)[i].name[6..]) == i + 1
  {
    if i < |ChartData(h, numUsers)| {
      var name := ChartData(h, numUsers)[i].name;
      assert name[6..] == NatToString(i + 1);
      NatToStringRoundTrip(i + 1);
    }
  }
}
