/**
 * The mock activity widget: 140 days of random activity levels with sample
 * task names, coloured by level and grouped into weeks of seven days.
 *
 * `Math.random()` is not modelled: each call is a real in `[0, 1)` given as
 * input, and the random-comparator sort of the sample-task pool is given as the
 * permutation it produced. Dates are day numbers; `setDate(getDate() - i)`
 * is taken to move exactly `i` calendar days back.
 */
module ActivityHeatmap {

  // getColor and the legend

  /** `getColor(count)`: the tile colour class of an activity level. */
  function GetColor(count: int): (color: string)
    ensures count == 0 ==> color == "bg-gray-800"
    ensures count == 1 ==> color == "bg-blue-900"
    ensures count == 2 ==> color == "bg-blue-700"
    ensures count == 3 ==> color == "bg-blue-500"
    ensures count !in {0, 1, 2, 3} ==> color == "bg-blue-400"
  {
    if count == 0 then "bg-gray-800"
    else if count == 1 then "bg-blue-900"
    else if count == 2 then "bg-blue-700"
    else if count == 3 then "bg-blue-500"
    else "bg-blue-400"
  }

  /** The legend's levels. */
  const LegendLevels: seq<int> := [0, 1, 2, 3, 4]

  /** The five legend levels show five different colours, and every level a day can have is one of them. */
  lemma LegendColorsDistinct()
    ensures forall i, j :: 0 <= i < j < |LegendLevels| ==> GetColor(LegendLevels[i]) != GetColor(LegendLevels[j])
    ensures forall c :: 0 <= c <= 4 ==> c in LegendLevels
  {
    var colors := seq(5, i requires 0 <= i < 5 => GetColor(LegendLevels[i]));
    assert colors == ["bg-gray-800", "bg-blue-900", "bg-blue-700", "bg-blue-500", "bg-blue-400"];
    forall i, j | 0 <= i < j < 5 ensures colors[i] != colors[j] {
      assert colors[i][|colors[i]| - 3] != colors[j][|colors[j]| - 3] || colors[i][3] != colors[j][3];
    }
  }

  // getTasksForCount

  /** The twelve sample task names. */
  const TaskPool: seq<string> := [
    "Pushed 3 commits to main",
    "Merged PR #42",
    "Fixed critical bug",
    "Reviewed team PRs",
    "Updated documentation",
    "Deployed to production",
    "Optimized API performance",
    "Added new feature",
    "Refactored authentication",
    "Wrote unit tests",
    "Updated dependencies",
    "Fixed TypeScript errors"
  ]

  /** An order of the pool's twelve positions: what the random-comparator sort produced. */
  predicate IsShuffle(order: seq<int>)
  {
    && |order| == |TaskPool|
    && (forall i :: 0 <= i < |order| ==> 0 <= order[i] < |TaskPool|)
    && (forall i, j :: 0 <= i < j < |order| ==> order[i] != order[j])
  }

  /** `array.slice(0, count)` on an array of `length` elements: where the slice ends. */
  function SliceEnd(count: int, length: nat): (end: nat)
    ensures end <= length
    ensures 0 <= count ==> end == if count < length then count else length
  {
    if count < 0 then (if length + count > 0 then length + count else 0)
    else if count < length then count
    else length
  }

  /** `getTasksForCount(count)`, with the shuffle given as `order`. */
  function TasksForCount(count: int, order: seq<int>): (tasks: seq<string>)
    requires IsShuffle(order)
    ensures count == 0 ==> tasks == []
    ensures 0 <= count ==> |tasks| == if count < |TaskPool| then count else |TaskPool|
    ensures |tasks| <= |TaskPool|
    ensures forall i :: 0 <= i < |tasks| ==> tasks[i] == TaskPool[order[i]]
  {
    if count == 0 then []
    else
      var shuffled := seq(|TaskPool|, i requires 0 <= i < |TaskPool| => TaskPool[order[i]]);
      shuffled[..SliceEnd(count, |TaskPool|)]
  }

  /** The twelve sample names are pairwise different. */
  lemma TaskPoolDistinct()
    ensures forall i, j :: 0 <= i < j < |TaskPool| ==> TaskPool[i] != TaskPool[j]
  {
    forall i, j | 0 <= i < j < |TaskPool| ensures TaskPool[i] != TaskPool[j] {
      PoolNamesDiffer(i, j);
    }
  }

  lemma PoolNamesDiffer(i: int, j: int)
    requires 0 <= i < j < |TaskPool|
    ensures TaskPool[i] != TaskPool[j]
  {
    var a, b := TaskPool[i], TaskPool[j];
    if |a| == |b| {
      assert a[0] != b[0];
    }
  }

  /** The tasks shown for a level are pairwise different names from the pool. */
  lemma TasksDistinct(count: int, order: seq<int>)
    requires IsShuffle(order)
    ensures var tasks := TasksForCount(count, order);
      && (forall i :: 0 <= i < |tasks| ==> tasks[i] in TaskPool)
      && (forall i, j :: 0 <= i < j < |tasks| ==> tasks[i] != tasks[j])
  {
    var tasks := TasksForCount(count, order);
    TaskPoolDistinct();
    forall i, j | 0 <= i < j < |tasks| ensures tasks[i] != tasks[j] {
      assert order[i] != order[j];
    }
  }

  // generateHeatmapData

  datatype MockDay = MockDay(date: int, count: int, tasks: seq<string>)

  /** `Math.floor(random * 5)` for a random number in `[0, 1)`. */
  function Level(random: real): (count: int)
    requires 0.0 <= random < 1.0
    ensures 0 <= count <= 4
  {
    (random * 5.0).Floor
  }

  const MockDays := 140

  /** The inputs that stand for `Math.random()`: one level draw and one shuffle per day. */
  predicate RandomInputs(randoms: seq<real>, shuffles: seq<seq<int>>)
  {
    && |randoms| == MockDays && |shuffles| == MockDays
    && (forall j :: 0 <= j < MockDays ==> 0.0 <= randoms[j] < 1.0)
    && (forall j :: 0 <= j < MockDays ==> IsShuffle(shuffles[j]))
  }

  /** The generated day `j` of the series, counting from the oldest. */
  function MockDayAt(today: int, randoms: seq<real>, shuffles: seq<seq<int>>, j: int): MockDay
    requires RandomInputs(randoms, shuffles) && 0 <= j < MockDays
  {
    var count := Level(randoms[j]);
    MockDay(today - (MockDays - 1) + j, count, TasksForCount(count, shuffles[j]))
  }

  /** The series as a function of its inputs. */
  function MockData(today: int, randoms: seq<real>, shuffles: seq<seq<int>>): seq<MockDay>
    requires RandomInputs(randoms, shuffles)
  {
    seq(MockDays, j requires 0 <= j < MockDays => MockDayAt(today, randoms, shuffles, j))
  }

  /** `generateHeatmapData()`: 140 days, oldest first, the last one today. */
  method GenerateHeatmapData(today: int, randoms: seq<real>, shuffles: seq<seq<int>>) returns (data: seq<MockDay>)
    requires RandomInputs(randoms, shuffles)
    ensures data == MockData(today, randoms, shuffles)
    ensures |data| == 140 && data[139].date == today
    ensures forall j :: 0 <= j < |data| ==> data[j].date == today - 139 + j && 0 <= data[j].count <= 4
  {
    data := [];
    var i := MockDays - 1;
    while i >= 0
      invariant -1 <= i < MockDays
      invariant |data| == MockDays - 1 - i
      invariant forall j :: 0 <= j < |data| ==> data[j] == MockDayAt(today, randoms, shuffles, j)
    {
      var date := today - i;
      var k := |data|;
      var count := Level(randoms[k]);
      var tasks := TasksForCount(count, shuffles[k]);
      data := data + [MockDay(date, count, tasks)];
      i := i - 1;
    }
  }

  // Grouping into weeks

  function Min(a: int, b: int): int { if a < b then a else b }

  /** The days cut into consecutive weeks of seven, the last one possibly shorter. */
  function Weeks<T>(days: seq<T>): seq<seq<T>>
    decreases |days|
  {
    if days == [] then [] else [days[..Min(7, |days|)]] + Weeks(days[Min(7, |days|)..])
  }

  function Flatten<T>(weeks: seq<seq<T>>): seq<T>
  {
    if weeks == [] then [] else weeks[0] + Flatten(weeks[1..])
  }

  /** The week-grouping loop: `weeks.push(heatmapData.slice(i, i + 7))` for `i` in steps of 7. */
  method GroupWeeks<T>(days: seq<T>) returns (weeks: seq<seq<T>>)
    ensures weeks == Weeks(days)
  {
    weeks := [];
    var i := 0;
    while i < |days|
      invariant 0 <= i && i % 7 == 0
      invariant i < |days| ==> weeks + Weeks(days[i..]) == Weeks(days)
      invariant i >= |days| ==> weeks == Weeks(days)
    {
      var end := Min(i + 7, |days|);
      var week := days[i..end];
      assert Weeks(days[i..]) == [week] + Weeks(days[end..]) by {
        assert days[i..][..Min(7, |days| - i)] == week;
        assert days[i..][Min(7, |days| - i)..] == days[end..];
      }
      weeks := weeks + [week];
      if end == |days| {
        assert days[end..] == [];
      }
      i := i + 7;
    }
    if |days| == 0 {
      assert weeks == [] == Weeks(days);
    }
  }

  /** Putting the weeks back together gives the days, in order. */
  lemma {:induction false} WeeksFlatten<T>(days: seq<T>)
    ensures Flatten(Weeks(days)) == days
    decreases |days|
  {
    if days != [] {
      var k := Min(7, |days|);
      WeeksFlatten(days[k..]);
      assert days[..k] + days[k..] == days;
    }
  }

  /** There are ceil(n / 7) weeks; all but the last have seven days, and the last has one to seven. */
  lemma {:induction false} WeeksSizes<T>(days: seq<T>)
    ensures |Weeks(days)| == (|days| + 6) / 7
    ensures forall w :: 0 <= w < |Weeks(days)| ==> 1 <= |Weeks(days)[w]| <= 7
    ensures forall w :: 0 <= w < |Weeks(days)| - 1 ==> |Weeks(days)[w]| == 7
    decreases |days|
  {
    if days != [] {
      var k := Min(7, |days|);
      WeeksSizes(days[k..]);
      var ws := Weeks(days);
      assert ws == [days[..k]] + Weeks(days[k..]);
      assert forall w :: 1 <= w < |ws| ==> ws[w] == Weeks(days[k..])[w - 1];
      if |days| > 7 {
        assert Weeks(days[k..]) != [];
      }
    }
  }

  /** The 140 generated days make 20 full weeks. */
  lemma TwentyWeeks<T>(days: seq<T>)
    requires |days| == 140
    ensures |Weeks(days)| == 20
    ensures forall w :: 0 <= w < 20 ==> |Weeks(days)[w]| == 7
  {
    WeeksSizes(days);
    var ws := Weeks(days);
    assert |Flatten(ws)| == 140 by {
      WeeksFlatten(days);
    }
    FlattenLength(ws);
  }

  lemma {:induction false} FlattenLength<T>(weeks: seq<seq<T>>)
    requires forall w :: 0 <= w < |weeks| - 1 ==> |weeks[w]| == 7
    requires weeks != [] ==> |weeks[|weeks| - 1]| <= 7
    ensures |Flatten(weeks)| <= 7 * |weeks|
    ensures weeks != [] && |Flatten(weeks)| == 7 * |weeks| ==> |weeks[|weeks| - 1]| == 7
  {
    if weeks != [] {
      FlattenLength(weeks[1..]);
      if |weeks| > 1 {
        assert weeks[1..][|weeks| - 2] == weeks[|weeks| - 1];
      }
    }
  }
}
