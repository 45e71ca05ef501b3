/** The accounting of measured frames: which row of a frame is kept, that intervals are neither lost
    nor clipped, and how refreshes are counted. Times are whole nanoseconds. */
module FrameStats {
  import opened Options

  const SENTINEL: int := 0x7fff_ffff_ffff_ffff

  // ---- rows of one frame ----------------------------------------------------------------------

  /** A parsed row; present is 0 where the column is missing. */
  datatype Row = Row(window: string, intended: int, completed: int, present: int)

  predicate InOrder(r: Row) { 0 < r.intended < SENTINEL && r.intended <= r.completed < SENTINEL }

  predicate InRange(r: Row, start: int, end: int) { InOrder(r) && start <= r.intended <= end }

  predicate PresentValid(r: Row, end: int) {
    0 < r.present < SENTINEL && r.intended <= r.present <= end
  }

  function KeyOf(r: Row): (string, int) { (r.window, r.intended) }

  /** A row with a valid presentation time beats one without, then the later completion wins. */
  predicate AtLeast(a: Row, b: Row, end: int) {
    if PresentValid(a, end) == PresentValid(b, end) then a.completed >= b.completed else PresentValid(a, end)
  }

  /** Row i is in range and the last of the best rows of its frame. */
  predicate IsBest(rows: seq<Row>, i: nat, start: int, end: int) {
    && i < |rows| && InRange(rows[i], start, end)
    && forall j :: 0 <= j < |rows| && InRange(rows[j], start, end) && KeyOf(rows[j]) == KeyOf(rows[i]) ==>
         AtLeast(rows[i], rows[j], end) && (AtLeast(rows[j], rows[i], end) ==> j <= i)
  }

  /** Exactly the frames with an in-range row, each by its best row. */
  ghost predicate Deduplicated(rows: seq<Row>, start: int, end: int, kept: map<(string, int), Row>) {
    && (forall j :: 0 <= j < |rows| && InRange(rows[j], start, end) ==> KeyOf(rows[j]) in kept)
    && forall k :: k in kept ==>
         exists i: nat :: IsBest(rows, i, start, end) && KeyOf(rows[i]) == k && kept[k] == rows[i]
  }

  lemma AtLeastOrder(a: Row, b: Row, c: Row, end: int)
    ensures AtLeast(a, b, end) && AtLeast(b, c, end) ==> AtLeast(a, c, end)
    ensures AtLeast(a, b, end) || AtLeast(b, a, end)
  {}

  /** The best row of a prefix stays best if the next row is of another frame, out of range or worse. */
  lemma BestStays(rows: seq<Row>, n: nat, i: nat, start: int, end: int)
    requires n < |rows| && IsBest(rows[..n], i, start, end)
    requires InRange(rows[n], start, end) && KeyOf(rows[n]) == KeyOf(rows[i]) ==> !AtLeast(rows[n], rows[i], end)
    ensures IsBest(rows[..n + 1], i, start, end)
  {}

  lemma BestReplaced(rows: seq<Row>, n: nat, i: nat, start: int, end: int)
    requires n < |rows| && IsBest(rows[..n], i, start, end)
    requires InRange(rows[n], start, end) && KeyOf(rows[n]) == KeyOf(rows[i]) && AtLeast(rows[n], rows[i], end)
    ensures IsBest(rows[..n + 1], n, start, end)
  {
    forall j | 0 <= j < n && InRange(rows[j], start, end) && KeyOf(rows[j]) == KeyOf(rows[i])
      ensures AtLeast(rows[n], rows[j], end)
    {
      assert rows[j] == rows[..n][j];
      AtLeastOrder(rows[n], rows[i], rows[j], end);
    }
  }

  /** The by_frame loop: one kept row per frame. `invalid` counts the rows with impossible times. */
  method Deduplicate(rows: seq<Row>, start: int, end: int) returns (kept: map<(string, int), Row>, invalid: nat)
    ensures Deduplicated(rows, start, end, kept)
    ensures invalid == |(set i | 0 <= i < |rows| && !InOrder(rows[i]))|
  {
    kept, invalid := map[], 0;
    ghost var bad: set<int> := {};
    for n := 0 to |rows|
      invariant Deduplicated(rows[..n], start, end, kept)
      invariant bad == (set i | 0 <= i < n && !InOrder(rows[i])) && invalid == |bad|
    {
      var r := rows[n];
      if !InOrder(r) {
        invalid := invalid + 1;
        bad := bad + {n};
        KeptSame(rows, n, start, end, kept);
        continue;
      }
      if !(start <= r.intended <= end) {
        KeptSame(rows, n, start, end, kept);
        continue;
      }
      if KeyOf(r) !in kept || AtLeast(r, kept[KeyOf(r)], end) {
        KeptNew(rows, n, start, end, kept);
        kept := kept[KeyOf(r) := r];
      } else {
        KeptSame(rows, n, start, end, kept);
      }
    }
    assert rows[..|rows|] == rows;
  }

  lemma KeptSame(rows: seq<Row>, n: nat, start: int, end: int, kept: map<(string, int), Row>)
    requires n < |rows| && Deduplicated(rows[..n], start, end, kept)
    requires InRange(rows[n], start, end) ==>
      KeyOf(rows[n]) in kept && !AtLeast(rows[n], kept[KeyOf(rows[n])], end)
    ensures Deduplicated(rows[..n + 1], start, end, kept)
  {
    var more := rows[..n + 1];
    forall j | 0 <= j < |more| && InRange(more[j], start, end) ensures KeyOf(more[j]) in kept {
      if j < n { assert more[j] == rows[..n][j]; }
    }
    forall k | k in kept
      ensures exists i: nat :: IsBest(more, i, start, end) && KeyOf(more[i]) == k && kept[k] == more[i]
    {
      var i: nat :| IsBest(rows[..n], i, start, end) && KeyOf(rows[..n][i]) == k && kept[k] == rows[..n][i];
      BestStays(rows, n, i, start, end);
      assert more[i] == rows[..n][i];
    }
  }

  lemma KeptNew(rows: seq<Row>, n: nat, start: int, end: int, kept: map<(string, int), Row>)
    requires n < |rows| && Deduplicated(rows[..n], start, end, kept) && InRange(rows[n], start, end)
    requires KeyOf(rows[n]) in kept ==> AtLeast(rows[n], kept[KeyOf(rows[n])], end)
    ensures Deduplicated(rows[..n + 1], start, end, kept[KeyOf(rows[n]) := rows[n]])
  {
    var more, key := rows[..n + 1], KeyOf(rows[n]);
    var kept' := kept[key := rows[n]];
    forall j | 0 <= j < |more| && InRange(more[j], start, end) ensures KeyOf(more[j]) in kept' {
      if j < n { assert more[j] == rows[..n][j]; }
    }
    forall k | k in kept'
      ensures exists i: nat :: IsBest(more, i, start, end) && KeyOf(more[i]) == k && kept'[k] == more[i]
    {
      if k == key {
        NewIsBest(rows, n, start, end, kept);
        assert more[n] == rows[n];
      } else {
        var i: nat :| IsBest(rows[..n], i, start, end) && KeyOf(rows[..n][i]) == k && kept[k] == rows[..n][i];
        BestStays(rows, n, i, start, end);
        assert more[i] == rows[..n][i];
      }
    }
  }

  lemma NewIsBest(rows: seq<Row>, n: nat, start: int, end: int, kept: map<(string, int), Row>)
    requires n < |rows| && Deduplicated(rows[..n], start, end, kept) && InRange(rows[n], start, end)
    requires KeyOf(rows[n]) in kept ==> AtLeast(rows[n], kept[KeyOf(rows[n])], end)
    ensures IsBest(rows[..n + 1], n, start, end)
  {
    var key := KeyOf(rows[n]);
    if key in kept {
      var i: nat :| IsBest(rows[..n], i, start, end) && KeyOf(rows[..n][i]) == key && kept[key] == rows[..n][i];
      BestReplaced(rows, n, i, start, end);
    } else {
      forall j | 0 <= j < n && InRange(rows[j], start, end) ensures KeyOf(rows[j]) != key {
        assert rows[j] == rows[..n][j];
      }
    }
  }

  /** The valid presentation times of one window. */
  function TimesOf(records: seq<Row>, end: int, window: string): set<int> {
    set i | 0 <= i < |records| && records[i].window == window && PresentValid(records[i], end) :: records[i].present
  }

  lemma TimesOneMore(records: seq<Row>, n: nat, end: int, window: string)
    requires n < |records|
    ensures TimesOf(records[..n + 1], end, window) == TimesOf(records[..n], end, window)
      + if records[n].window == window && PresentValid(records[n], end) then {records[n].present} else {}
  {
    var more, less := records[..n + 1], records[..n];
    forall t | t in TimesOf(more, end, window)
      ensures t in TimesOf(less, end, window)
        || (records[n].window == window && PresentValid(records[n], end) && t == records[n].present)
    {
      var i :| 0 <= i < |more| && more[i].window == window && PresentValid(more[i], end) && more[i].present == t;
      if i < n { assert less[i] == more[i]; }
    }
    forall t | t in TimesOf(less, end, window) ensures t in TimesOf(more, end, window) {
      var i :| 0 <= i < |less| && less[i].window == window && PresentValid(less[i], end) && less[i].present == t;
      assert more[i] == less[i];
    }
    assert more[n] == records[n];
  }

  method CollectStreams(records: seq<Row>, end: int) returns (streams: map<string, set<int>>)
    ensures forall w :: w in streams <==> TimesOf(records, end, w) != {}
    ensures forall w :: w in streams ==> streams[w] == TimesOf(records, end, w)
  {
    streams := map[];
    for n := 0 to |records|
      invariant forall w :: w in streams <==> TimesOf(records[..n], end, w) != {}
      invariant forall w :: w in streams ==> streams[w] == TimesOf(records[..n], end, w)
    {
      forall w ensures TimesOf(records[..n + 1], end, w) == TimesOf(records[..n], end, w)
        + if records[n].window == w && PresentValid(records[n], end) then {records[n].present} else {}
      {
        TimesOneMore(records, n, end, w);
      }
      var r := records[n];
      if PresentValid(r, end) {
        streams := streams[r.window := (if r.window in streams then streams[r.window] else {}) + {r.present}];
      }
    }
    assert records[..|records|] == records;
  }

  // ---- intervals between presentations --------------------------------------------------------

  function Sum(xs: seq<int>): int {
    if xs == [] then 0 else Sum(xs[..|xs| - 1]) + xs[|xs| - 1]
  }

  lemma SumOneMore(xs: seq<int>, x: int)
    ensures Sum(xs + [x]) == Sum(xs) + x
  {
    assert (xs + [x])[..|xs|] == xs;
  }

  predicate Increasing(xs: seq<int>) {
    forall i, j :: 0 <= i < j < |xs| ==> xs[i] < xs[j]
  }

  /** An interval is scored unless active ranges are given and none holds all of it. */
  predicate Scored(a: int, b: int, active: Option<seq<(int, int)>>) {
    active.Some? ==> exists i :: 0 <= i < |active.value| && active.value[i].0 <= a < b <= active.value[i].1
  }

  /** The gaps between neighbours that satisfy a condition. */
  function Gaps(xs: seq<int>, active: Option<seq<(int, int)>>, scored: bool): seq<int> {
    if |xs| <= 1 then []
    else
      var n := |xs| - 1;
      Gaps(xs[..n], active, scored) + if Scored(xs[n - 1], xs[n], active) == scored then [xs[n] - xs[n - 1]] else []
  }

  /** Nothing is lost or clipped: every gap is scored or excluded, and together they span the stream. */
  lemma {:induction false} GapsConserved(xs: seq<int>, active: Option<seq<(int, int)>>)
    requires xs != []
    ensures |Gaps(xs, active, true)| + |Gaps(xs, active, false)| == |xs| - 1
    ensures Sum(Gaps(xs, active, true)) + Sum(Gaps(xs, active, false)) == xs[|xs| - 1] - xs[0]
  {
    if |xs| > 1 {
      var n := |xs| - 1;
      GapsConserved(xs[..n], active);
      var gap, scored := xs[n] - xs[n - 1], Scored(xs[n - 1], xs[n], active);
      assert xs[..n][n - 1] == xs[n - 1] && xs[..n][0] == xs[0];
      SumOneMore(Gaps(xs[..n], active, scored), gap);
      assert Gaps(xs, active, scored) == Gaps(xs[..n], active, scored) + [gap];
      assert Gaps(xs, active, !scored) == Gaps(xs[..n], active, !scored) + [];
      assert Gaps(xs[..n], active, !scored) + [] == Gaps(xs[..n], active, !scored);
    }
  }

  lemma GapsStep(xs: seq<int>, active: Option<seq<(int, int)>>, i: nat, scored: bool)
    requires 1 <= i < |xs|
    ensures Gaps(xs[..i + 1], active, scored) ==
      Gaps(xs[..i], active, scored) + if Scored(xs[i - 1], xs[i], active) == scored then [xs[i] - xs[i - 1]] else []
  {
    assert xs[..i + 1][..i] == xs[..i];
  }

  /** One window's presentation times, sorted and without repetition. */
  method ScoreStream(ordered: seq<int>, active: Option<seq<(int, int)>>) returns (intervals: seq<int>, excluded: nat)
    requires ordered != [] && Increasing(ordered)
    ensures intervals == Gaps(ordered, active, true) && excluded == |Gaps(ordered, active, false)|
    ensures |intervals| + excluded == |ordered| - 1
    ensures forall i :: 0 <= i < |intervals| ==> intervals[i] > 0
  {
    intervals, excluded := [], 0;
    var i := 1;
    while i < |ordered|
      invariant 1 <= i <= |ordered|
      invariant intervals == Gaps(ordered[..i], active, true) && excluded == |Gaps(ordered[..i], active, false)|
      invariant forall k :: 0 <= k < |intervals| ==> intervals[k] > 0
    {
      GapsStep(ordered, active, i, true);
      GapsStep(ordered, active, i, false);
      if Scored(ordered[i - 1], ordered[i], active) {
        intervals := intervals + [ordered[i] - ordered[i - 1]];
      } else {
        excluded := excluded + 1;
      }
      i := i + 1;
    }
    assert ordered[..|ordered|] == ordered;
    GapsConserved(ordered, active);
  }

  /** Neighbouring times of a stream. */
  ghost predicate Neighbours(times: set<int>, a: int, b: int) {
    a in times && b in times && a < b && forall t :: t in times ==> t <= a || b <= t
  }

  /** All of the interval lies in one active range, or there are none to lie in. */
  ghost predicate Active(a: int, b: int, active: Option<seq<(int, int)>>) {
    active == None || exists lo, hi :: (lo, hi) in active.value && lo <= a && a < b && b <= hi
  }

  lemma ScoredIsActive(a: int, b: int, active: Option<seq<(int, int)>>)
    ensures Scored(a, b, active) <==> Active(a, b, active)
  {
    if Scored(a, b, active) && active.Some? {
      var i :| 0 <= i < |active.value| && active.value[i].0 <= a < b <= active.value[i].1;
      assert (active.value[i].0, active.value[i].1) in active.value;
    }
  }

  /** The neighbours themselves, those in active ranges or the others. */
  function Pairs(xs: seq<int>, active: Option<seq<(int, int)>>, scored: bool): seq<(int, int)> {
    if |xs| <= 1 then []
    else
      var n := |xs| - 1;
      Pairs(xs[..n], active, scored) + if Scored(xs[n - 1], xs[n], active) == scored then [(xs[n - 1], xs[n])] else []
  }

  lemma {:induction false} GapsAreOfPairs(xs: seq<int>, active: Option<seq<(int, int)>>, scored: bool)
    ensures var ps := Pairs(xs, active, scored);
      |ps| == |Gaps(xs, active, scored)|
      && forall i :: 0 <= i < |ps| ==> Gaps(xs, active, scored)[i] == ps[i].1 - ps[i].0
  {
    if |xs| > 1 { GapsAreOfPairs(xs[..|xs| - 1], active, scored); }
  }

  /** Each pair is of two elements that follow each other, and all of those are there. */
  lemma {:induction false} PairsFollow(xs: seq<int>, active: Option<seq<(int, int)>>, scored: bool, a: int, b: int)
    ensures (a, b) in Pairs(xs, active, scored) <==>
      exists i :: 0 < i < |xs| && xs[i - 1] == a && xs[i] == b && Scored(a, b, active) == scored
  {
    if |xs| > 1 {
      var n := |xs| - 1;
      PairsFollow(xs[..n], active, scored, a, b);
      if (a, b) in Pairs(xs[..n], active, scored) {
        var i :| 0 < i < n && xs[..n][i - 1] == a && xs[..n][i] == b;
        assert xs[i - 1] == a && xs[i] == b;
      }
      forall i | 0 < i < n && xs[i - 1] == a && xs[i] == b ensures xs[..n][i - 1] == a && xs[..n][i] == b {}
    }
  }

  lemma FollowIsNeighbours(xs: seq<int>, times: set<int>, a: int, b: int)
    requires Increasing(xs) && forall x :: x in xs <==> x in times
    ensures (exists i :: 0 < i < |xs| && xs[i - 1] == a && xs[i] == b) <==> Neighbours(times, a, b)
  {
    if i :| 0 < i < |xs| && xs[i - 1] == a && xs[i] == b {
      forall t | t in times ensures t <= a || b <= t { NothingBetween(xs, i, t); }
    }
    if Neighbours(times, a, b) {
      var i :| 0 <= i < |xs| && xs[i] == b;
      var j :| 0 <= j < |xs| && xs[j] == a;
      assert j < i;
      assert xs[i - 1] in xs;
    }
  }

  lemma NothingBetween(xs: seq<int>, i: nat, t: int)
    requires Increasing(xs) && 0 < i < |xs| && t in xs
    ensures t <= xs[i - 1] || xs[i] <= t
  {
    var j :| 0 <= j < |xs| && xs[j] == t;
  }

  lemma {:induction false} PairsUpTo(xs: seq<int>, active: Option<seq<(int, int)>>, scored: bool, p: (int, int))
    requires Increasing(xs) && p in Pairs(xs, active, scored)
    ensures xs != [] && p.1 <= xs[|xs| - 1]
  {
    var n := |xs| - 1;
    if p in Pairs(xs[..n], active, scored) { PairsUpTo(xs[..n], active, scored, p); }
  }

  predicate Once<T(==)>(list: seq<T>) {
    forall i, j :: 0 <= i < j < |list| ==> list[i] != list[j]
  }

  lemma {:induction false} PairsOnce(xs: seq<int>, active: Option<seq<(int, int)>>, scored: bool)
    requires Increasing(xs)
    ensures Once(Pairs(xs, active, scored))
  {
    if |xs| > 1 {
      var n := |xs| - 1;
      var before, p := Pairs(xs[..n], active, scored), (xs[n - 1], xs[n]);
      PairsOnce(xs[..n], active, scored);
      if p in before { PairsUpTo(xs[..n], active, scored, p); }
      assert Pairs(xs, active, scored) == if Scored(p.0, p.1, active) == scored then before + [p] else before;
    }
  }

  /** What a stream's pairs are, in terms of its times. */
  lemma PairsOfTimes(xs: seq<int>, times: set<int>, active: Option<seq<(int, int)>>, scored: bool)
    requires Increasing(xs) && forall x :: x in xs <==> x in times
    ensures forall a, b :: (a, b) in Pairs(xs, active, scored) <==>
      Neighbours(times, a, b) && Active(a, b, active) == scored
  {
    forall a, b
      ensures (a, b) in Pairs(xs, active, scored) <==> Neighbours(times, a, b) && Active(a, b, active) == scored
    {
      PairsFollow(xs, active, scored, a, b);
      FollowIsNeighbours(xs, times, a, b);
      ScoredIsActive(a, b, active);
    }
  }

  lemma {:induction false} NoneExcluded(xs: seq<int>, active: Option<seq<(int, int)>>)
    requires active.None?
    ensures Gaps(xs, active, false) == []
  {
    if |xs| > 1 { NoneExcluded(xs[..|xs| - 1], active); }
  }

  // ---- framestats as a whole --------------------------------------------------------------------

  lemma InsertedIncreasing(xs: seq<int>, x: int, i: nat)
    requires Increasing(xs) && i <= |xs| && (i > 0 ==> xs[i - 1] < x) && (i < |xs| ==> x < xs[i])
    ensures Increasing(xs[..i] + [x] + xs[i..])
  {
    var r := xs[..i] + [x] + xs[i..];
    forall j, k | 0 <= j < k < |r| ensures r[j] < r[k] {
      assert j < i ==> r[j] == xs[j];
      assert j > i ==> r[j] == xs[j - 1];
      assert k < i ==> r[k] == xs[k];
      assert k > i ==> r[k] == xs[k - 1];
    }
  }

  lemma InsertedElements(xs: seq<int>, x: int, i: nat, y: int)
    requires i <= |xs|
    ensures y in xs[..i] + [x] + xs[i..] <==> y in xs || y == x
  {
    assert xs == xs[..i] + xs[i..];
  }

  method Insert(xs: seq<int>, x: int) returns (r: seq<int>)
    requires Increasing(xs) && x !in xs
    ensures Increasing(r) && |r| == |xs| + 1 && forall y :: y in r <==> y in xs || y == x
  {
    var i := |xs|;
    while i > 0 && xs[i - 1] > x
      invariant 0 <= i <= |xs| && (i < |xs| ==> x < xs[i])
    {
      i := i - 1;
    }
    r := xs[..i] + [x] + xs[i..];
    InsertedIncreasing(xs, x, i);
    forall y ensures y in r <==> y in xs || y == x { InsertedElements(xs, x, i, y); }
  }

  lemma NoTimes(times: set<int>)
    ensures (forall x :: x !in times) ==> |times| == 0
  {
    if forall x :: x !in times { assert times == {}; }
  }

  method Sorted(times: set<int>) returns (xs: seq<int>)
    ensures Increasing(xs) && |xs| == |times| && forall x :: x in xs <==> x in times
  {
    xs := [];
    var rest := times;
    while |rest| > 0
      invariant rest <= times && Increasing(xs) && |xs| + |rest| == |times|
      invariant forall x :: x in xs <==> x in times && x !in rest
      decreases |rest|
    {
      NoTimes(rest);
      var x: int :| x in rest;
      xs := Insert(xs, x);
      rest := rest - {x};
    }
  }

  ghost predicate AreValues(kept: map<(string, int), Row>, records: seq<Row>) {
    |records| == |kept| && forall r :: r in records <==> exists k :: k in kept && kept[k] == r
  }

  /** The rows of a dictionary, each once. */
  method ValuesOf(kept: map<(string, int), Row>) returns (records: seq<Row>)
    ensures AreValues(kept, records)
  {
    records := [];
    var keys := kept.Keys;
    while |keys| > 0
      invariant keys <= kept.Keys && |records| + |keys| == |kept|
      invariant forall r :: r in records <==> exists k :: k in kept && k !in keys && kept[k] == r
      decreases |keys|
    {
      var k: (string, int) :| k in keys;
      records := records + [kept[k]];
      keys := keys - {k};
    }
  }

  /** The neighbouring pairs of the streams of these windows. */
  function PairsOf(records: seq<Row>, end: int, windows: seq<string>): int {
    if windows == [] then 0
    else PairsOf(records, end, windows[..|windows| - 1]) + |TimesOf(records, end, windows[|windows| - 1])| - 1
  }

  /** Every window with a valid presentation time, once. */
  ghost predicate AllWindows(records: seq<Row>, end: int, windows: seq<string>) {
    && (forall i, j :: 0 <= i < j < |windows| ==> windows[i] != windows[j])
    && forall w :: w in windows <==> TimesOf(records, end, w) != {}
  }

  /** An interval of a window's stream. */
  datatype Interval = Interval(window: string, from: int, to: int)

  /** These are, each once, the intervals between neighbouring times of these windows that lie in an active range, or
      those that do not. */
  ghost predicate AreIntervals(records: seq<Row>, end: int, active: Option<seq<(int, int)>>, windows: seq<string>,
                               scored: bool, list: seq<Interval>) {
    && Once(list)
    && forall w, a, b :: Interval(w, a, b) in list <==>
         w in windows && Neighbours(TimesOf(records, end, w), a, b) && Active(a, b, active) == scored
  }

  function Named(w: string, ps: seq<(int, int)>): (list: seq<Interval>)
    ensures |list| == |ps| && forall i :: 0 <= i < |ps| ==> list[i] == Interval(w, ps[i].0, ps[i].1)
  {
    seq(|ps|, i requires 0 <= i < |ps| => Interval(w, ps[i].0, ps[i].1))
  }

  lemma NamedMember(w: string, ps: seq<(int, int)>, v: string, a: int, b: int)
    ensures Interval(v, a, b) in Named(w, ps) <==> v == w && (a, b) in ps
  {
    if v == w && (a, b) in ps {
      var i :| 0 <= i < |ps| && ps[i] == (a, b);
      assert Named(w, ps)[i] == Interval(v, a, b);
    }
  }

  lemma NamedOnce(w: string, ps: seq<(int, int)>)
    requires Once(ps)
    ensures Once(Named(w, ps))
  {
    forall i, j | 0 <= i < j < |ps| ensures Named(w, ps)[i] != Named(w, ps)[j] { assert ps[i] != ps[j]; }
  }

  lemma IntervalsOneMore(records: seq<Row>, end: int, active: Option<seq<(int, int)>>, windows: seq<string>,
                         scored: bool, list: seq<Interval>, w: string, xs: seq<int>)
    requires AreIntervals(records, end, active, windows, scored, list) && w !in windows
    requires Increasing(xs) && forall x :: x in xs <==> x in TimesOf(records, end, w)
    ensures AreIntervals(records, end, active, windows + [w], scored, list + Named(w, Pairs(xs, active, scored)))
  {
    var ps := Pairs(xs, active, scored);
    var more := Named(w, ps);
    PairsOfTimes(xs, TimesOf(records, end, w), active, scored);
    PairsOnce(xs, active, scored);
    forall v, a, b ensures Interval(v, a, b) in list + more <==>
      v in windows + [w] && Neighbours(TimesOf(records, end, v), a, b) && Active(a, b, active) == scored
    {
      NamedMember(w, ps, v, a, b);
    }
    NamedOnce(w, ps);
    ApartFrom(list, more, w, windows);
  }

  lemma ApartFrom(list: seq<Interval>, more: seq<Interval>, w: string, windows: seq<string>)
    requires w !in windows && (forall i :: 0 <= i < |list| ==> list[i].window in windows)
    requires forall i :: 0 <= i < |more| ==> more[i].window == w
    requires Once(list) && Once(more)
    ensures Once(list + more)
  {}

  /** The kept intervals are the lengths of these. */
  predicate Measure(list: seq<Interval>, intervals: seq<int>) {
    |intervals| == |list| && forall i :: 0 <= i < |list| ==> intervals[i] == list[i].to - list[i].from
  }

  /** The outcome for these windows: what was measured and what was left out. */
  ghost predicate Measured(records: seq<Row>, end: int, active: Option<seq<(int, int)>>, windows: seq<string>,
                         intervals: seq<int>, excluded: nat, scored: seq<Interval>, out: seq<Interval>) {
    && |intervals| + excluded == PairsOf(records, end, windows) && (active.None? ==> excluded == 0)
    && AreIntervals(records, end, active, windows, true, scored) && Measure(scored, intervals)
    && AreIntervals(records, end, active, windows, false, out) && excluded == |out|
  }

  lemma WindowScored(records: seq<Row>, end: int, active: Option<seq<(int, int)>>, windows: seq<string>,
                     intervals: seq<int>, excluded: nat, scored: seq<Interval>, out: seq<Interval>, w: string,
                     xs: seq<int>)
    requires Measured(records, end, active, windows, intervals, excluded, scored, out) && w !in windows && xs != []
    requires Increasing(xs) && |xs| == |TimesOf(records, end, w)|
    requires forall x :: x in xs <==> x in TimesOf(records, end, w)
    ensures Measured(records, end, active, windows + [w], intervals + Gaps(xs, active, true),
                   excluded + |Gaps(xs, active, false)|, scored + Named(w, Pairs(xs, active, true)),
                   out + Named(w, Pairs(xs, active, false)))
  {
    PairsOneMore(records, end, windows, w);
    if active.None? { NoneExcluded(xs, active); }
    GapsConserved(xs, active);
    IntervalsOneMore(records, end, active, windows, true, scored, w, xs);
    IntervalsOneMore(records, end, active, windows, false, out, w, xs);
    MeasureOneMore(scored, intervals, w, xs, active);
    GapsAreOfPairs(xs, active, false);
  }

  lemma PairsOneMore(records: seq<Row>, end: int, windows: seq<string>, w: string)
    ensures PairsOf(records, end, windows + [w]) == PairsOf(records, end, windows) + |TimesOf(records, end, w)| - 1
  {
    assert (windows + [w])[..|windows|] == windows;
  }

  lemma MeasureOneMore(list: seq<Interval>, intervals: seq<int>, w: string, xs: seq<int>,
                       active: Option<seq<(int, int)>>)
    requires Measure(list, intervals)
    ensures Measure(list + Named(w, Pairs(xs, active, true)), intervals + Gaps(xs, active, true))
  {
    GapsAreOfPairs(xs, active, true);
  }

  /** The interval loop over all streams: every interval between neighbouring presentations of a window is measured,
      or left out because it is in no active range. */
  method ScoreStreams(records: seq<Row>, end: int, active: Option<seq<(int, int)>>)
    returns (intervals: seq<int>, excluded: nat, windows: seq<string>, ghost scored: seq<Interval>,
             ghost out: seq<Interval>)
    ensures AllWindows(records, end, windows)
    ensures |intervals| + excluded == PairsOf(records, end, windows)
    ensures active.None? ==> excluded == 0
    ensures AreIntervals(records, end, active, windows, true, scored) && Measure(scored, intervals)
    ensures AreIntervals(records, end, active, windows, false, out) && excluded == |out|
  {
    var streams := CollectStreams(records, end);
    intervals, excluded, windows, scored, out := [], 0, [], [], [];
    var rest := streams.Keys;
    while |rest| > 0
      invariant rest <= streams.Keys && forall w :: w in windows <==> w in streams && w !in rest
      invariant forall i, j :: 0 <= i < j < |windows| ==> windows[i] != windows[j]
      invariant Measured(records, end, active, windows, intervals, excluded, scored, out)
      decreases |rest|
    {
      var w: string :| w in rest;
      var ordered := Sorted(streams[w]);
      var more, left := ScoreStream(ordered, active);
      WindowScored(records, end, active, windows, intervals, excluded, scored, out, w, ordered);
      scored, out := scored + Named(w, Pairs(ordered, active, true)), out + Named(w, Pairs(ordered, active, false));
      intervals, excluded, windows, rest := intervals + more, excluded + left, windows + [w], rest - {w};
    }
  }

  /** A frame that counts: its times are in order, real, and in the measured span. */
  predicate Counts(r: Row, start: int, end: int) {
    0 < r.intended && r.intended <= r.completed && r.completed < 9223372036854775807 && start <= r.intended <= end
  }

  predicate WasShown(r: Row, end: int) {
    0 < r.present < 9223372036854775807 && r.intended <= r.present <= end
  }

  /** Row r is no worse than q: shown if q was, and where both or neither was, completed no earlier. */
  predicate NoWorse(r: Row, q: Row, end: int) {
    && (WasShown(q, end) ==> WasShown(r, end))
    && (WasShown(r, end) == WasShown(q, end) ==> q.completed <= r.completed)
  }

  /** The kept rows: one for every window and intended time of a row that counts, no worse than any such row, and better
      than any behind it. */
  ghost predicate AreFrames(rows: seq<Row>, start: int, end: int, kept: map<(string, int), Row>) {
    && (forall j :: 0 <= j < |rows| && Counts(rows[j], start, end) ==>
          (rows[j].window, rows[j].intended) in kept && NoWorse(kept[(rows[j].window, rows[j].intended)], rows[j], end))
    && forall k :: k in kept ==>
         && (kept[k].window, kept[k].intended) == k && Counts(kept[k], start, end)
         && exists i :: 0 <= i < |rows| && rows[i] == kept[k] && LastOfItsKind(rows, i, start, end)
  }

  predicate SameFrame(r: Row, q: Row) { r.window == q.window && r.intended == q.intended }

  ghost predicate LastOfItsKind(rows: seq<Row>, i: nat, start: int, end: int)
    requires i < |rows|
  {
    forall j :: i < j < |rows| && Counts(rows[j], start, end) && SameFrame(rows[i], rows[j]) ==>
      !NoWorse(rows[j], rows[i], end)
  }

  lemma DeduplicatedAreFrames(rows: seq<Row>, start: int, end: int, kept: map<(string, int), Row>)
    requires Deduplicated(rows, start, end, kept)
    ensures AreFrames(rows, start, end, kept)
  {
    forall k | k in kept
      ensures (kept[k].window, kept[k].intended) == k && Counts(kept[k], start, end)
      ensures exists i :: 0 <= i < |rows| && rows[i] == kept[k] && LastOfItsKind(rows, i, start, end)
      ensures forall j :: 0 <= j < |rows| && Counts(rows[j], start, end) && (rows[j].window, rows[j].intended) == k ==>
        NoWorse(kept[k], rows[j], end)
    {
      var i: nat :| IsBest(rows, i, start, end) && KeyOf(rows[i]) == k && kept[k] == rows[i];
      BestIsFrame(rows, i, start, end);
    }
  }

  lemma BestIsFrame(rows: seq<Row>, i: nat, start: int, end: int)
    requires IsBest(rows, i, start, end)
    ensures Counts(rows[i], start, end) && LastOfItsKind(rows, i, start, end)
    ensures forall j :: 0 <= j < |rows| && Counts(rows[j], start, end) && SameFrame(rows[i], rows[j]) ==>
      NoWorse(rows[i], rows[j], end)
  {}

  lemma TimesAre(records: seq<Row>, end: int)
    ensures forall w, t :: t in TimesOf(records, end, w) <==>
      exists r :: r in records && r.window == w && WasShown(r, end) && r.present == t
  {
    forall w, t | exists r :: r in records && r.window == w && WasShown(r, end) && r.present == t
      ensures t in TimesOf(records, end, w)
    {
      var r :| r in records && r.window == w && WasShown(r, end) && r.present == t;
      var i :| 0 <= i < |records| && records[i] == r;
    }
  }

  /** From the parsed rows to the counts: one row per frame is kept, and kept plus excluded intervals are the
      sum, over the windows that presented anything, of their presentation times less one. */
  method Framestats(rows: seq<Row>, start: int, end: int, active: Option<seq<(int, int)>>)
    returns (kept: map<(string, int), Row>, records: seq<Row>, intervals: seq<int>, excluded: nat, windows: seq<string>,
             invalid: nat, ghost scored: seq<Interval>, ghost out: seq<Interval>)
    ensures invalid ==
      |(set i | 0 <= i < |rows| && !(0 < rows[i].intended <= rows[i].completed < 9223372036854775807))|
    ensures forall w, t :: t in TimesOf(records, end, w) <==>
      exists r :: r in records && r.window == w && WasShown(r, end) && r.present == t
    ensures Deduplicated(rows, start, end, kept) && AreFrames(rows, start, end, kept) && AreValues(kept, records)
    ensures AllWindows(records, end, windows) && |intervals| + excluded == PairsOf(records, end, windows)
    ensures active.None? ==> excluded == 0
    ensures AreIntervals(records, end, active, windows, true, scored) && Measure(scored, intervals)
    ensures AreIntervals(records, end, active, windows, false, out) && excluded == |out|
  {
    kept, invalid := Deduplicate(rows, start, end);
    assert (set i | 0 <= i < |rows| && !InOrder(rows[i]))
        == (set i | 0 <= i < |rows| && !(0 < rows[i].intended <= rows[i].completed < 9223372036854775807));
    DeduplicatedAreFrames(rows, start, end, kept);
    records := ValuesOf(kept);
    intervals, excluded, windows, scored, out := ScoreStreams(records, end, active);
    TimesAre(records, end);
  }

  // ---- refreshes ------------------------------------------------------------------------------

  /** A presented frame as the compositor reports it. */
  datatype Shown = Shown(present: int, refresh: int, sequence: int, output: int)

  datatype Tally = Tally(intervals: seq<int>, missed: int, expected: int, invalid: nat, estimated: bool)

  predicate OneOutput(rs: seq<Shown>) {
    forall i, j :: 0 <= i < j < |rs| ==> rs[i].output == rs[j].output
  }

  /** The refreshes from frame a to frame b: none across outputs or back in time; by the counter, or where neither frame
      has one at least one by the estimate; and none if the counter did not move on. */
  function CountOf(a: Shown, b: Shown, estimate: (int, int) -> int): nat {
    if a.output != b.output || b.present <= a.present then 0
    else if a.sequence == 0 && b.sequence == 0 then
      var e := estimate(b.present - a.present, b.refresh);
      if e >= 1 then e else 1
    else if b.sequence <= a.sequence then 0
    else b.sequence - a.sequence
  }

  predicate Guessed(a: Shown, b: Shown) {
    a.output == b.output && a.sequence == 0 && b.sequence == 0 && a.present < b.present
  }

  predicate GuessedAt(rs: seq<Shown>, i: nat)
    requires i + 1 < |rs|
  { Guessed(rs[i], rs[i + 1]) }

  function CountAt(rs: seq<Shown>, estimate: (int, int) -> int, i: nat): int
    requires i + 1 < |rs|
  { CountOf(rs[i], rs[i + 1], estimate) }

  /** 1 for a pair of one output without a refresh. */
  function RefusalAt(rs: seq<Shown>, estimate: (int, int) -> int, i: nat): int
    requires i + 1 < |rs|
  { if CountAt(rs, estimate, i) == 0 && rs[i].output == rs[i + 1].output then 1 else 0 }

  /** The time between the frames of a pair with a refresh. */
  function DeltaAt(rs: seq<Shown>, estimate: (int, int) -> int, i: nat): seq<int>
    requires i + 1 < |rs|
  { if CountAt(rs, estimate, i) > 0 then [rs[i + 1].present - rs[i].present] else [] }

  /** These, over the pairs of neighbours among the first n + 1 frames. */
  function TotalCount(rs: seq<Shown>, estimate: (int, int) -> int, n: nat): int
    requires n < |rs|
  { if n == 0 then 0 else TotalCount(rs, estimate, n - 1) + CountAt(rs, estimate, n - 1) }

  function TotalRefused(rs: seq<Shown>, estimate: (int, int) -> int, n: nat): int
    requires n < |rs|
  { if n == 0 then 0 else TotalRefused(rs, estimate, n - 1) + RefusalAt(rs, estimate, n - 1) }

  function AllDeltas(rs: seq<Shown>, estimate: (int, int) -> int, n: nat): seq<int>
    requires n < |rs|
  { if n == 0 then [] else AllDeltas(rs, estimate, n - 1) + DeltaAt(rs, estimate, n - 1) }

  ghost predicate SomeGuessed(rs: seq<Shown>, n: nat)
    requires n < |rs|
  {
    exists i :: 0 <= i < n && GuessedAt(rs, i)
  }

  /** What the pairs among the first n + 1 frames add up to. */
  ghost predicate Adds(rs: seq<Shown>, estimate: (int, int) -> int, t: Tally, badRows: nat, n: nat)
    requires n < |rs|
  {
    && t.intervals == AllDeltas(rs, estimate, n) && t.expected == TotalCount(rs, estimate, n)
    && t.invalid == badRows + TotalRefused(rs, estimate, n) && (t.estimated <==> SomeGuessed(rs, n))
  }

  lemma GuessedOneMore(rs: seq<Shown>, n: nat)
    requires n + 1 < |rs|
    ensures SomeGuessed(rs, n + 1) <==> SomeGuessed(rs, n) || GuessedAt(rs, n)
  {}

  method CountPair(t: Tally, a: Shown, b: Shown, estimate: (int, int) -> int) returns (r: Tally)
    ensures var n := CountOf(a, b, estimate);
      && r.intervals == t.intervals + (if n > 0 then [b.present - a.present] else [])
      && r.missed == t.missed + (if n > 0 then n - 1 else 0) && r.expected == t.expected + n
      && r.invalid == t.invalid + (if n == 0 && a.output == b.output then 1 else 0)
      && (r.estimated <==> t.estimated || Guessed(a, b))
  {
    r := t;
    if a.output != b.output { return; }
    var delta := b.present - a.present;
    var sequence := b.sequence - a.sequence;
    if a.sequence == 0 && b.sequence == 0 && delta > 0 {
      sequence := estimate(delta, b.refresh);
      if sequence < 1 { sequence := 1; }
      r := r.(estimated := true);
    }
    if delta <= 0 || sequence <= 0 {
      r := r.(invalid := r.invalid + 1);
      return;
    }
    r := r.(intervals := r.intervals + [delta], missed := r.missed + (if sequence - 1 > 0 then sequence - 1 else 0),
            expected := r.expected + sequence);
  }

  lemma {:induction false} RefusedCounts(rs: seq<Shown>, estimate: (int, int) -> int, n: nat)
    requires n < |rs|
    ensures TotalRefused(rs, estimate, n) >= 0
  {
    if n > 0 { RefusedCounts(rs, estimate, n - 1); }
  }

  /** With one output, nothing refused and nothing estimated, the counter and the clock say it all. */
  lemma {:induction false} WholeCounts(rs: seq<Shown>, estimate: (int, int) -> int, n: nat)
    requires n < |rs| && OneOutput(rs) && TotalRefused(rs, estimate, n) == 0 && !SomeGuessed(rs, n)
    ensures |AllDeltas(rs, estimate, n)| == n && TotalCount(rs, estimate, n) == rs[n].sequence - rs[0].sequence
    ensures Sum(AllDeltas(rs, estimate, n)) == rs[n].present - rs[0].present
  {
    if n > 0 {
      RefusedCounts(rs, estimate, n - 1);
      GuessedOneMore(rs, n - 1);
      assert rs[n - 1].output == rs[n].output;
      WholePair(rs, estimate, n - 1);
      WholeCounts(rs, estimate, n - 1);
      SumOneMore(AllDeltas(rs, estimate, n - 1), rs[n].present - rs[n - 1].present);
    }
  }

  lemma WholePair(rs: seq<Shown>, estimate: (int, int) -> int, i: nat)
    requires i + 1 < |rs| && rs[i].output == rs[i + 1].output && !GuessedAt(rs, i)
    ensures RefusalAt(rs, estimate, i) >= 0
    ensures RefusalAt(rs, estimate, i) == 0 ==>
      && CountAt(rs, estimate, i) == rs[i + 1].sequence - rs[i].sequence
      && DeltaAt(rs, estimate, i) == [rs[i + 1].present - rs[i].present]
  {}

  /** No pair was refused or estimated and there is one output: the whole capture was counted. */
  predicate WholeCapture(rs: seq<Shown>, t: Tally, badRows: nat) {
    t.invalid == badRows && !t.estimated && rs != [] && OneOutput(rs)
  }

  /** The accounting loop: every pair of neighbours adds what it is to add, missed plus shown refreshes are the expected
      ones, and over a whole capture they are what the counter and the clock say from its first frame to its last. */
  method CountRefreshes(rs: seq<Shown>, badRows: nat, estimate: (int, int) -> int) returns (t: Tally)
    ensures t.missed + |t.intervals| == t.expected && t.missed >= 0
    ensures rs == [] ==> t == Tally([], 0, 0, badRows, false)
    ensures rs != [] ==> Adds(rs, estimate, t, badRows, |rs| - 1)
    ensures WholeCapture(rs, t, badRows) ==>
      && |t.intervals| == |rs| - 1
      && t.expected == rs[|rs| - 1].sequence - rs[0].sequence
      && Sum(t.intervals) == rs[|rs| - 1].present - rs[0].present
  {
    t := Tally([], 0, 0, badRows, false);
    if rs == [] { return; }
    var i := 0;
    while i + 1 < |rs|
      invariant i < |rs| && Adds(rs, estimate, t, badRows, i)
      invariant t.missed + |t.intervals| == t.expected && t.missed >= 0
    {
      t := CountPair(t, rs[i], rs[i + 1], estimate);
      GuessedOneMore(rs, i);
      i := i + 1;
    }
    if WholeCapture(rs, t, badRows) { WholeCounts(rs, estimate, |rs| - 1); }
  }
}
