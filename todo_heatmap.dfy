/**
 * The completed-todo heatmap (`buildHeatmapDays`): completed todos are
 * bucketed by UTC calendar day into a map from day key to count,
 * priority-weighted score and task titles, and a window of `days`
 * consecutive days ending on today's UTC day is then read out of that map,
 * oldest first, with zeroes for days that have no bucket.
 *
 * A completion time is an already parsed time value in milliseconds; `None`
 * stands for a `Date` whose time is NaN.
 */
module TodoHeatmap {
  import opened Wrappers
  import opened CivilCalendar

  datatype Todo = Todo(title: string, priority: string, completedAt: Option<int>)

  datatype Bucket = Bucket(count: nat, score: nat, tasks: seq<string>)

  datatype HeatmapDay = HeatmapDay(date: string, count: nat, score: nat, tasks: seq<string>)

  const UntitledTask := "Untitled task"

  /** `priorityWeights[priority] ?? 1`. */
  function Weight(priority: string): (w: nat)
    ensures 1 <= w <= 5
    ensures priority == "low" ==> w == 1
    ensures priority == "medium" ==> w == 3
    ensures priority == "high" ==> w == 5
    ensures priority !in {"low", "medium", "high"} ==> w == 1
  {
    if priority == "medium" then 3 else if priority == "high" then 5 else 1
  }

  /** `todo.title || 'Untitled task'`. */
  function TaskLabel(title: string): (shown: string)
    ensures shown != ""
    ensures title != "" ==> shown == title
    ensures title == "" ==> shown == UntitledTask
  {
    if title == "" then UntitledTask else title
  }

  /** The UTC day a todo was completed on, or `None` when its `Date` is NaN. */
  function CompletedDay(t: Todo): (d: Option<int>)
    ensures d.Some? ==> ValidDay(d.value)
    ensures d.Some? <==> t.completedAt.Some? && ValidTime(t.completedAt.value)
  {
    match t.completedAt
    case Some(ms) => if ValidTime(ms) then Some(DayOf(ms)) else None
    case None => None
  }

  /** The todo is bucketed under `key`. */
  predicate LandsOn(t: Todo, key: string)
  {
    var d := CompletedDay(t);
    d.Some? && DayKey(d.value) == key
  }

  /** The labels bucketed under `key`, in input order. */
  function TasksOn(todos: seq<Todo>, key: string): seq<string>
  {
    if todos == [] then []
    else
      var last := todos[|todos| - 1];
      TasksOn(todos[..|todos| - 1], key) + (if LandsOn(last, key) then [TaskLabel(last.title)] else [])
  }

  /** The sum of the weights of the todos bucketed under `key`. */
  function ScoreOn(todos: seq<Todo>, key: string): nat
  {
    if todos == [] then 0
    else
      var last := todos[|todos| - 1];
      ScoreOn(todos[..|todos| - 1], key) + (if LandsOn(last, key) then Weight(last.priority) else 0)
  }

  /** The entry the heatmap shows for the day whose key is `key`. */
  function DayEntry(todos: seq<Todo>, key: string): HeatmapDay
  {
    HeatmapDay(key, |TasksOn(todos, key)|, ScoreOn(todos, key), TasksOn(todos, key))
  }

  /** `Math.max(0, days)`. */
  function WindowLength(days: int): nat
  {
    if days > 0 then days else 0
  }

  /** What the source demands of its arguments: a valid `today` and a window that stays within the `Date` range. */
  predicate WindowInRange(days: int, today: int)
  {
    ValidTime(today) && MinDay <= DayOf(today) - WindowLength(days) + 1
  }

  /** The keys of the `n` consecutive days starting at day `first`, in order. */
  function WindowKeys(first: int, n: nat): (keys: seq<string>)
    requires n > 0 ==> ValidDay(first) && ValidDay(first + n - 1)
    ensures |keys| == n
  {
    if n == 0 then [] else WindowKeys(first, n - 1) + [DayKey(first + n - 1)]
  }

  /** Key `j` of a window is the key of its `j`-th day. */
  lemma {:induction false} WindowKeysAt(first: int, n: nat, j: int)
    requires n > 0 ==> ValidDay(first) && ValidDay(first + n - 1)
    requires 0 <= j < n
    ensures WindowKeys(first, n)[j] == DayKey(first + j)
  {
    hide DayKey;
    if j < n - 1 {
      WindowKeysAt(first, n - 1, j);
    }
  }

  /** The entries for a series of keys, in the same order. */
  function Entries(todos: seq<Todo>, keys: seq<string>): seq<HeatmapDay>
  {
    seq(|keys|, j requires 0 <= j < |keys| => DayEntry(todos, keys[j]))
  }

  /** The heatmap as a function of its inputs: one entry per day of the window, oldest first. */
  function Heatmap(todos: seq<Todo>, days: int, today: int): seq<HeatmapDay>
    requires WindowInRange(days, today)
  {
    var n := WindowLength(days);
    Entries(todos, WindowKeys(DayOf(today) - n + 1, n))
  }

  lemma TasksOnSnoc(todos: seq<Todo>, t: Todo, key: string)
    ensures TasksOn(todos + [t], key) == TasksOn(todos, key) + (if LandsOn(t, key) then [TaskLabel(t.title)] else [])
    ensures ScoreOn(todos + [t], key) == ScoreOn(todos, key) + (if LandsOn(t, key) then Weight(t.priority) else 0)
  {
    assert (todos + [t])[..|todos|] == todos;
  }

  /** A key with no tasks has no score. */
  lemma {:induction false} NoTasksNoScore(todos: seq<Todo>, key: string)
    requires TasksOn(todos, key) == []
    ensures ScoreOn(todos, key) == 0
  {
    if todos != [] {
      NoTasksNoScore(todos[..|todos| - 1], key);
    }
  }

  /** The day map holds, for every key some todo lands on, exactly that key's count, score and labels. */
  ghost predicate Tallies(totals: map<string, Bucket>, todos: seq<Todo>)
  {
    && (forall k :: k in totals <==> TasksOn(todos, k) != [])
    && (forall k :: k in totals ==>
          totals[k] == Bucket(|TasksOn(todos, k)|, ScoreOn(todos, k), TasksOn(todos, k)))
  }

  /** Entry `j` of the heatmap is the entry of day `j` of the window. */
  lemma HeatmapAt(todos: seq<Todo>, days: int, today: int, j: int)
    requires WindowInRange(days, today)
    requires 0 <= j < WindowLength(days)
    ensures |Heatmap(todos, days, today)| == WindowLength(days)
    ensures Heatmap(todos, days, today)[j] == DayEntry(todos, DayKey(DayOf(today) - WindowLength(days) + 1 + j))
  {
    hide DayKey;
    WindowKeysAt(DayOf(today) - WindowLength(days) + 1, WindowLength(days), j);
  }

  /** Adding a todo that lands on `dayKey` to its bucket keeps the day map tallying the todos seen so far. */
  lemma TallyLanded(totals: map<string, Bucket>, seen: seq<Todo>, todo: Todo, dayKey: string)
    requires Tallies(totals, seen)
    requires forall k :: LandsOn(todo, k) <==> k == dayKey
    ensures var entry := if dayKey in totals then totals[dayKey] else Bucket(0, 0, []);
      Tallies(totals[dayKey := Bucket(entry.count + 1, entry.score + Weight(todo.priority),
                                      entry.tasks + [TaskLabel(todo.title)])], seen + [todo])
  {
    forall k {
      TasksOnSnoc(seen, todo, k);
    }
    if dayKey !in totals {
      NoTasksNoScore(seen, dayKey);
    }
  }

  /** Skipping a todo that lands nowhere keeps the day map tallying the todos seen so far. */
  lemma TallySkipped(totals: map<string, Bucket>, seen: seq<Todo>, todo: Todo)
    requires Tallies(totals, seen)
    requires forall k :: !LandsOn(todo, k)
    ensures Tallies(totals, seen + [todo])
  {
    forall k {
      TasksOnSnoc(seen, todo, k);
    }
  }

  /** The bucketing pass of `buildHeatmapDays` (the `for (const todo of todos)` loop). */
  method BucketByDay(todos: seq<Todo>) returns (totals: map<string, Bucket>)
    ensures Tallies(totals, todos)
  {
    hide DayKey;
    totals := map[];
    var i := 0;
    while i < |todos|
      invariant 0 <= i <= |todos|
      invariant Tallies(totals, todos[..i])
    {
      var todo := todos[i];
      assert todos[..i + 1] == todos[..i] + [todo];
      var completed := CompletedDay(todo);
      if completed.Some? {
        var dayKey := DayKey(completed.value);
        TallyLanded(totals, todos[..i], todo, dayKey);
        var entry := if dayKey in totals then totals[dayKey] else Bucket(0, 0, []);
        entry := entry.(count := entry.count + 1, score := entry.score + Weight(todo.priority),
                        tasks := entry.tasks + [TaskLabel(todo.title)]);
        totals := totals[dayKey := entry];
      } else {
        TallySkipped(totals, todos[..i], todo);
      }
      i := i + 1;
    }
    assert todos[..i] == todos;
  }

  /** Reading a key out of a day map that tallies `todos` gives that day's entry, zero-filled when absent. */
  lemma ReadDay(totals: map<string, Bucket>, todos: seq<Todo>, key: string)
    requires Tallies(totals, todos)
    ensures DayEntry(todos, key) == if key in totals then HeatmapDay(key, totals[key].count, totals[key].score, totals[key].tasks)
                                    else HeatmapDay(key, 0, 0, [])
  {
    if key !in totals {
      NoTasksNoScore(todos, key);
    }
  }

  /** The windowing pass of `buildHeatmapDays` (the count-down `for` loop over offsets). */
  method ReadWindow(totals: map<string, Bucket>, ghost todos: seq<Todo>, days: int, today: int)
    returns (results: seq<HeatmapDay>)
    requires WindowInRange(days, today)
    requires Tallies(totals, todos)
    ensures results == Heatmap(todos, days, today)
  {
    hide DayKey;
    results := [];
    ghost var expected := Heatmap(todos, days, today);
    var endDay := DayOf(DayStart(today));
    var dayCount := WindowLength(days);
    var offset: int := dayCount - 1;
    while offset >= 0
      invariant -1 <= offset < dayCount
      invariant results == expected[..dayCount - 1 - offset]
    {
      var dayKey := DayKey(endDay - offset);
      ReadDay(totals, todos, dayKey);
      HeatmapAt(todos, days, today, dayCount - 1 - offset);
      var entry := if dayKey in totals then Some(totals[dayKey]) else None;
      results := results + [HeatmapDay(
        dayKey,
        if entry.Some? then entry.value.count else 0,
        if entry.Some? then entry.value.score else 0,
        if entry.Some? then entry.value.tasks else [])];
      assert expected[..dayCount - offset] == expected[..dayCount - 1 - offset] + [expected[dayCount - 1 - offset]];
      offset := offset - 1;
    }
    assert expected[..dayCount] == expected;
  }

  /** `buildHeatmapDays(todos, days, today)`: the two passes in turn. */
  method BuildHeatmapDays(todos: seq<Todo>, days: int, today: int) returns (results: seq<HeatmapDay>)
    requires WindowInRange(days, today)
    ensures results == Heatmap(todos, days, today)
  {
    var totals := BucketByDay(todos);
    results := ReadWindow(totals, todos, days, today);
  }

  // Properties of the heatmap

  /** A todo lands on the key of day `z` exactly when it was completed on day `z`. */
  lemma LandsOnDay(t: Todo, z: int)
    requires ValidDay(z)
    ensures LandsOn(t, DayKey(z)) <==> CompletedDay(t) == Some(z)
  {
    var d := CompletedDay(t);
    if d.Some? && d.value != z {
      DayKeyInjective(d.value, z);
    }
  }

  /**
   * The window has `max(0, days)` entries, the last one for today, with
   * pairwise distinct dates, and each entry's count is the number of its
   * tasks; `HeatmapAt` gives the day of every entry.
   */
  lemma HeatmapShape(todos: seq<Todo>, days: int, today: int)
    requires WindowInRange(days, today)
    ensures var h := Heatmap(todos, days, today);
      var n := WindowLength(days);
      && |h| == n
      && (days <= 0 ==> h == [])
      && (n > 0 ==> h[n - 1].date == DayKey(DayOf(today)))
      && (forall i, j :: 0 <= i < j < n ==> h[i].date != h[j].date)
      && (forall j :: 0 <= j < n ==> h[j].count == |h[j].tasks|)
  {
    hide DayKey;
    var n := WindowLength(days);
    var first := DayOf(today) - n + 1;
    var h := Heatmap(todos, days, today);
    if n > 0 {
      HeatmapAt(todos, days, today, n - 1);
    }
    forall i, j | 0 <= i < j < n ensures h[i].date != h[j].date {
      HeatmapAt(todos, days, today, i);
      HeatmapAt(todos, days, today, j);
      DayKeyInjective(first + i, first + j);
    }
  }

  /** A day on which no todo was completed shows count 0, score 0 and no tasks. */
  lemma {:induction false} ZeroFilled(todos: seq<Todo>, z: int)
    requires ValidDay(z)
    requires forall t :: t in todos ==> CompletedDay(t) != Some(z)
    ensures DayEntry(todos, DayKey(z)) == HeatmapDay(DayKey(z), 0, 0, [])
  {
    hide DayKey;
    if todos != [] {
      var last := todos[|todos| - 1];
      LandsOnDay(last, z);
      ZeroFilled(todos[..|todos| - 1], z);
    }
  }

  /** Every todo on a day adds between 1 and 5 to its score. */
  lemma {:induction false} ScoreBounds(todos: seq<Todo>, key: string)
    ensures |TasksOn(todos, key)| <= ScoreOn(todos, key) <= 5 * |TasksOn(todos, key)|
  {
    if todos != [] {
      ScoreBounds(todos[..|todos| - 1], key);
    }
  }

  /** Bucketing keeps input order: the tasks of a concatenation are the tasks of each part in turn. */
  lemma {:induction false} TasksOnAppend(a: seq<Todo>, b: seq<Todo>, key: string)
    ensures TasksOn(a + b, key) == TasksOn(a, key) + TasksOn(b, key)
    ensures ScoreOn(a + b, key) == ScoreOn(a, key) + ScoreOn(b, key)
  {
    if b != [] {
      var b' := b[..|b| - 1];
      var last := b[|b| - 1];
      assert a + b == (a + b') + [last];
      assert b == b' + [last];
      TasksOnAppend(a, b', key);
      TasksOnSnoc(a + b', last, key);
      TasksOnSnoc(b', last, key);
    } else {
      assert a + b == a;
    }
  }

  /** A todo whose completion time does not parse changes no entry, wherever it stands in the input. */
  lemma UnparsedTodoIgnored(a: seq<Todo>, t: Todo, b: seq<Todo>, days: int, today: int)
    requires CompletedDay(t).None?
    requires WindowInRange(days, today)
    ensures Heatmap(a + [t] + b, days, today) == Heatmap(a + b, days, today)
  {
    hide DayKey;
    forall key: string
      ensures TasksOn(a + [t] + b, key) == TasksOn(a + b, key)
      ensures ScoreOn(a + [t] + b, key) == ScoreOn(a + b, key)
    {
      TasksOnAppend(a + [t], b, key);
      TasksOnAppend(a, [t], key);
      TasksOnAppend(a, b, key);
      TasksOnSnoc([], t, key);
      assert [] + [t] == [t];
    }
  }

  /** A single todo completed on a day is shown there with its weight and its label. */
  lemma SingleTodo(t: Todo, z: int)
    requires CompletedDay(t) == Some(z)
    ensures DayEntry([t], DayKey(z)) == HeatmapDay(DayKey(z), 1, Weight(t.priority), [TaskLabel(t.title)])
  {
    hide DayKey;
    TasksOnSnoc([], t, DayKey(z));
    assert [] + [t] == [t];
  }

  /** Low, medium and high todos completed on the same day give count 3 and score 1 + 3 + 5 = 9. */
  lemma SameDayAccumulates(a: Todo, b: Todo, c: Todo, z: int)
    requires CompletedDay(a) == CompletedDay(b) == CompletedDay(c) == Some(z)
    requires a.priority == "low" && b.priority == "medium" && c.priority == "high"
    ensures DayEntry([a, b, c], DayKey(z)).count == 3
    ensures DayEntry([a, b, c], DayKey(z)).score == 9
    ensures DayEntry([a, b, c], DayKey(z)).tasks == [TaskLabel(a.title), TaskLabel(b.title), TaskLabel(c.title)]
  {
    hide DayKey;
    var key := DayKey(z);
    TasksOnSnoc([], a, key);
    assert [] + [a] == [a];
    TasksOnSnoc([a], b, key);
    assert [a] + [b] == [a, b];
    TasksOnSnoc([a, b], c, key);
    assert [a, b] + [c] == [a, b, c];
  }

  // Counting: the window shows every parsed todo dated inside it, once

  /** The number of todos completed on a day from `lo` to `hi`. */
  function CountInWindow(todos: seq<Todo>, lo: int, hi: int): nat
  {
    if todos == [] then 0
    else
      var d := CompletedDay(todos[|todos| - 1]);
      CountInWindow(todos[..|todos| - 1], lo, hi) + (if d.Some? && lo <= d.value <= hi then 1 else 0)
  }

  /** The sum of the counts of a series of entries. */
  function TotalCount(h: seq<HeatmapDay>): nat
  {
    if h == [] then 0 else TotalCount(h[..|h| - 1]) + h[|h| - 1].count
  }

  /** The number of tasks under a series of keys. */
  function KeyTasks(todos: seq<Todo>, keys: seq<string>): nat
  {
    if keys == [] then 0 else KeyTasks(todos, keys[..|keys| - 1]) + |TasksOn(todos, keys[|keys| - 1])|
  }

  /** The number of keys of a series that a todo lands on. */
  function Hits(t: Todo, keys: seq<string>): nat
  {
    if keys == [] then 0 else Hits(t, keys[..|keys| - 1]) + (if LandsOn(t, keys[|keys| - 1]) then 1 else 0)
  }

  lemma {:induction false} TotalCountEntries(todos: seq<Todo>, keys: seq<string>)
    ensures TotalCount(Entries(todos, keys)) == KeyTasks(todos, keys)
  {
    if keys != [] {
      var keys' := keys[..|keys| - 1];
      assert Entries(todos, keys)[..|keys| - 1] == Entries(todos, keys');
      TotalCountEntries(todos, keys');
    }
  }

  lemma {:induction false} KeyTasksSnoc(todos: seq<Todo>, t: Todo, keys: seq<string>)
    ensures KeyTasks(todos + [t], keys) == KeyTasks(todos, keys) + Hits(t, keys)
  {
    if keys != [] {
      KeyTasksSnoc(todos, t, keys[..|keys| - 1]);
      TasksOnSnoc(todos, t, keys[|keys| - 1]);
    }
  }

  /** A todo lands on one day of a window when it was completed inside it, and on none otherwise. */
  lemma {:induction false} WindowHits(t: Todo, first: int, n: nat)
    requires n > 0 ==> ValidDay(first) && ValidDay(first + n - 1)
    ensures var d := CompletedDay(t);
      Hits(t, WindowKeys(first, n)) == if d.Some? && first <= d.value < first + n then 1 else 0
  {
    hide DayKey;
    if n > 0 {
      var keys := WindowKeys(first, n);
      assert keys[..n - 1] == WindowKeys(first, n - 1);
      WindowHits(t, first, n - 1);
      LandsOnDay(t, first + n - 1);
    }
  }

  lemma {:induction false} WindowTasksCount(todos: seq<Todo>, first: int, n: nat)
    requires n > 0 ==> ValidDay(first) && ValidDay(first + n - 1)
    ensures KeyTasks(todos, WindowKeys(first, n)) == CountInWindow(todos, first, first + n - 1)
  {
    hide DayKey;
    var keys := WindowKeys(first, n);
    if todos == [] {
      KeyTasksEmpty(keys);
    } else {
      var p := todos[..|todos| - 1];
      var t := todos[|todos| - 1];
      assert todos == p + [t];
      WindowTasksCount(p, first, n);
      KeyTasksSnoc(p, t, keys);
      WindowHits(t, first, n);
    }
  }

  lemma {:induction false} KeyTasksEmpty(keys: seq<string>)
    ensures KeyTasks([], keys) == 0
  {
    if keys != [] {
      KeyTasksEmpty(keys[..|keys| - 1]);
    }
  }

  /**
   * The counts of the window add up to the number of todos whose completion
   * time parses and falls on a day of the window; todos dated outside it
   * show nowhere.
   */
  lemma CountsSumToTodosInWindow(todos: seq<Todo>, days: int, today: int)
    requires WindowInRange(days, today)
    ensures TotalCount(Heatmap(todos, days, today))
              == CountInWindow(todos, DayOf(today) - WindowLength(days) + 1, DayOf(today))
  {
    hide DayKey;
    var n := WindowLength(days);
    var first := DayOf(today) - n + 1;
    TotalCountEntries(todos, WindowKeys(first, n));
    WindowTasksCount(todos, first, n);
  }
}
