/** The tracker's state and the transitions that change it:
    `handleUserCountChange`, the user tabs, `calculateBmi`, `saveToHistory`
    and `deleteHistoryItem`. React state is a plain record here and every
    transition is a pure function from the old record to the new one. */
module History {
  import opened Collections
  import opened BmiCategory

  datatype Option<T> = None | Some(value: T)

  /** A JavaScript number as far as the validation checks can tell:
      `parseFloat` yields a finite value, NaN, or an infinity. */
  datatype Num = Finite(value: real) | NaN | Infinity | NegInfinity

  /** One recorded measurement. `bmi` is in tenths (the value after
      `toFixed(1)`), `category` is the label stored when it was recorded,
      and `timestamp` is a point in time in milliseconds since the epoch,
      the value `new Date(...)` compares by. */
  datatype Entry = Entry(id: string, user: int, bmi: int, category: Category, timestamp: int)

  /** The message shown under the form. */
  datatype Notice = NoNotice | InvalidInput | NotComputable

  datatype State = State(
    numUsers: int,
    activeUser: int,
    history: seq<Entry>,
    latest: Option<Entry>,
    notice: Notice)

  /** `isNaN(x) || x <= 0`: NaN compares false with everything, and
      negative infinity is below zero. */
  predicate Rejected(x: Num)
  {
    match x
    case Finite(v) => v <= 0.0
    case NaN => true
    case Infinity => false
    case NegInfinity => true
  }

  function LacksId(id: string): Entry -> bool
  {
    (e: Entry) => e.id != id
  }

  function DistinctIds(a: Entry, b: Entry): bool
  {
    a.id != b.id
  }

  /** No entry of `h` carries `id`: what a freshly generated id guarantees. */
  predicate FreshId(h: seq<Entry>, id: string)
  {
    forall i :: 0 <= i < |h| ==> h[i].id != id
  }

  /** What every reachable state satisfies: the active user is one of the
      tracked users, every entry belongs to a tracked user, and no two
      entries share an id. */
  predicate Valid(s: State)
  {
    && 1 <= s.activeUser <= s.numUsers
    && (forall i :: 0 <= i < |s.history| ==> 1 <= s.history[i].user <= s.numUsers)
    && Pairwise(s.history, DistinctIds)
  }

  /** `saveToHistory`: the new entry goes at the end. */
  function SaveToHistory(h: seq<Entry>, e: Entry): (r: seq<Entry>)
    ensures |r| == |h| + 1
    ensures r[..|h|] == h
    ensures r[|h|] == e
  {
    h + [e]
  }

  /** `deleteHistoryItem`: drops every entry carrying the item's id and
      keeps the rest in their order. */
  function DeleteHistoryItem(h: seq<Entry>, item: Entry): (r: seq<Entry>)
    ensures forall i :: 0 <= i < |r| ==> r[i].id != item.id
    ensures forall e :: e in r <==> e in h && e.id != item.id
    ensures forall e :: multiset(r)[e] == if e.id == item.id then 0 else multiset(h)[e]
    ensures IsSubsequence(r, h)
  {
    FilterMembers(h, LacksId(item.id));
    FilterMultiset(h, LacksId(item.id));
    FilterSubsequence(h, LacksId(item.id));
    var r := Filter(h, LacksId(item.id));
    assert forall i :: 0 <= i < |r| ==> r[i] in r;
    r
  }

  /** `handleUserCountChange`: sets the number of users, makes user 1
      active, and clears the history and the last result. The message
      under the form is left as it was. */
  function ChangeUserCount(s: State, count: int): (t: State)
    ensures t.numUsers == count && t.activeUser == 1
    ensures t.history == [] && t.latest == None
    ensures t.notice == s.notice
  {
    State(count, 1, [], None, s.notice)
  }

  /** A user tab: its button exists only for users 1 to `numUsers`. */
  function SelectUser(s: State, user: int): (t: State)
    requires 1 <= user <= s.numUsers
    ensures t.activeUser == user
    ensures t.numUsers == s.numUsers && t.history == s.history
    ensures t.latest == s.latest && t.notice == s.notice
  {
    s.(activeUser := user)
  }

  /** `calculateBmi`. `weight` and `height` are the parsed form fields and
      `bmi` is the value the formula produced for them; `id` and `now` are
      what `crypto.randomUUID()` and `new Date()` returned, the latter in
      milliseconds since the epoch. */
  function CalculateBmi(s: State, weight: Num, height: Num, bmi: Num, id: string, now: int): (t: State)
    ensures t.numUsers == s.numUsers && t.activeUser == s.activeUser
    ensures Rejected(weight) || Rejected(height) ==>
      t == s.(notice := InvalidInput)
    ensures !Rejected(weight) && !Rejected(height) && !bmi.Finite? ==>
      t == s.(notice := NotComputable)
    ensures !Rejected(weight) && !Rejected(height) && bmi.Finite? ==>
      && t.notice == NoNotice
      && |t.history| == |s.history| + 1
      && t.history[..|s.history|] == s.history
      && t.latest == Some(t.history[|s.history|])
      && t.history[|s.history|]
         == Entry(id, s.activeUser, Round1(bmi.value), Classify(bmi.value), now)
  {
    if Rejected(weight) || Rejected(height) then
      s.(notice := InvalidInput)
    else if !bmi.Finite? then
      s.(notice := NotComputable)
    else
      var category := Classify(bmi.value);
      var result := Entry(id, s.activeUser, Round1(bmi.value), category, now);
      s.(history := SaveToHistory(s.history, result), latest := Some(result), notice := NoNotice)
  }

  /** The table colours a row by the category of its stored, rounded BMI,
      while the row's label is the category stored with it. For a freshly
      recorded entry the two differ exactly when the raw BMI lies just below
      a threshold, and the colour is then one category heavier. */
  lemma RecordedColour(s: State, weight: Num, height: Num, bmi: Num, id: string, now: int)
    requires !Rejected(weight) && !Rejected(height) && bmi.Finite?
    ensures var e := CalculateBmi(s, weight, height, bmi, id, now).history[|s.history|];
      && (e.category != ClassifyTenths(e.bmi)
          <==> (18.45 <= bmi.value < 18.5 || 24.95 <= bmi.value < 25.0 || 29.95 <= bmi.value < 30.0))
      && (e.category != ClassifyTenths(e.bmi) ==> Rank(ClassifyTenths(e.bmi)) == Rank(e.category) + 1)
  {
    StoredAndDisplayedCategory(bmi.value);
  }

  /** Saving an entry under a fresh id and then deleting it restores the
      history exactly. */
  lemma {:induction false} SaveThenDelete(h: seq<Entry>, e: Entry)
    requires FreshId(h, e.id)
    ensures DeleteHistoryItem(SaveToHistory(h, e), e) == h
  {
    FilterConcat(h, [e], LacksId(e.id));
    FilterKeepsAll(h, LacksId(e.id));
    assert Filter([e], LacksId(e.id)) == [];
    assert h + [] == h;
  }

  /** Deleting twice is the same as deleting once. */
  lemma {:induction false} DeleteIdempotent(h: seq<Entry>, item: Entry)
    ensures DeleteHistoryItem(DeleteHistoryItem(h, item), item) == DeleteHistoryItem(h, item)
  {
    var r := DeleteHistoryItem(h, item);
    FilterKeepsAll(r, LacksId(item.id));
  }

  /** Deleting an id that no entry carries changes nothing. */
  lemma {:induction false} DeleteAbsent(h: seq<Entry>, item: Entry)
    requires FreshId(h, item.id)
    ensures DeleteHistoryItem(h, item) == h
  {
    FilterKeepsAll(h, LacksId(item.id));
  }

  lemma ChangeUserCountValid(s: State, count: int)
    requires 1 <= count
    ensures Valid(ChangeUserCount(s, count))
  {
  }

  lemma SelectUserValid(s: State, user: int)
    requires Valid(s) && 1 <= user <= s.numUsers
    ensures Valid(SelectUser(s, user))
  {
  }

  /** Recording a measurement under a fresh id keeps the state valid. */
  lemma CalculateValid(s: State, weight: Num, height: Num, bmi: Num, id: string, now: int)
    requires Valid(s) && FreshId(s.history, id)
    ensures Valid(CalculateBmi(s, weight, height, bmi, id, now))
  {
    var t := CalculateBmi(s, weight, height, bmi, id, now);
    if t.history != s.history {
      var h := t.history;
      forall i, j | 0 <= i < j < |h|
        ensures DistinctIds(h[i], h[j])
      {
        if j < |s.history| {
          assert h[i] == s.history[i] && h[j] == s.history[j];
        } else {
          assert h[i] == s.history[i];
        }
      }
    }
  }

  /** Deleting keeps the state valid. */
  lemma DeleteValid(s: State, item: Entry)
    requires Valid(s)
    ensures Valid(s.(history := DeleteHistoryItem(s.history, item)))
  {
    FilterPairwise(s.history, LacksId(item.id), DistinctIds);
    FilterMembers(s.history, LacksId(item.id));
    var r := DeleteHistoryItem(s.history, item);
    forall i | 0 <= i < |r|
      ensures 1 <= r[i].user <= s.numUsers
    {
      assert r[i] in s.history;
    }
  }
}
