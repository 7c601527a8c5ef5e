/** Settlement prices: a daily mean without the extremes, and its weekly average, over real numbers. */
module TrimmedMean {

  function Total(s: seq<real>): real {
    if s == [] then 0.0 else Total(s[..|s| - 1]) + s[|s| - 1]
  }

  function Average(s: seq<real>): real {
    if s == [] then 0.0 else Total(s) / |s| as real
  }

  predicate Ascending(s: seq<real>) {
    forall i, j :: 0 <= i < j < |s| ==> s[i] <= s[j]
  }

  function Insert(s: seq<real>, x: real): seq<real> {
    if s == [] || x <= s[0] then [x] + s else [s[0]] + Insert(s[1..], x)
  }

  /** The sorted copy; how the library sorts does not matter, by `AscendingIsUnique`. */
  function Sort(s: seq<real>): seq<real> {
    if s == [] then [] else Insert(Sort(s[..|s| - 1]), s[|s| - 1])
  }

  /** How many samples are cut at each end. */
  function Drop(n: nat, trimPercent: real): int {
    (n as real * trimPercent / 100.0).Floor
  }

  predicate Trims(trimPercent: real) {
    0.0 < trimPercent < 50.0
  }

  function Kept(prices: seq<real>, trimPercent: real): seq<real>
    requires prices != [] && Trims(trimPercent)
  {
    DropIsSmall(|prices|, trimPercent);
    SortFacts(prices);
    Sort(prices)[Drop(|prices|, trimPercent)..|prices| - Drop(|prices|, trimPercent)]
  }

  function Daily(prices: seq<real>, trimPercent: real): real {
    if prices == [] || !Trims(trimPercent) then Average(prices) else Average(Kept(prices, trimPercent))
  }

  /** The daily values of the days that have samples. */
  function DailyValues(days: seq<seq<real>>, trimPercent: real): seq<real> {
    if days == [] then []
    else
      var init, last := DailyValues(days[..|days| - 1], trimPercent), days[|days| - 1];
      if last == [] then init else init + [Daily(last, trimPercent)]
  }

  // ----- the code -----

  method Mean(x: seq<real>) returns (m: real)
    ensures m == Average(x)
  {
    if |x| == 0 {
      return 0.0;
    }
    var s := 0.0;
    for i := 0 to |x|
      invariant s == Total(x[..i])
    {
      assert x[..i + 1][..i] == x[..i];
      s := s + x[i];
    }
    assert x[..|x|] == x;
    return s / |x| as real;
  }

  method DailyTrimmedMean(prices: seq<real>, trimPercent: real) returns (v: real)
    ensures v == Daily(prices, trimPercent)
  {
    if |prices| == 0 {
      return 0.0;
    }
    if trimPercent <= 0.0 || trimPercent >= 50.0 {
      v := Mean(prices);
      return;
    }
    var sorted := Sort(prices);
    SortFacts(prices);
    var n := |prices|;
    DropIsSmall(n, trimPercent);
    var drop := Drop(n, trimPercent);
    if drop * 2 >= n {
      v := Mean(prices);
      return;
    }
    v := Mean(sorted[drop..n - drop]);
  }

  method WeeklyAveragePrice(dailyPrices: seq<seq<real>>, trimPercent: real) returns (v: real)
    ensures v == Average(DailyValues(dailyPrices, trimPercent))
  {
    if |dailyPrices| == 0 {
      return 0.0;
    }
    var sum, count := 0.0, 0;
    for i := 0 to |dailyPrices|
      invariant sum == Total(DailyValues(dailyPrices[..i], trimPercent))
      invariant count == |DailyValues(dailyPrices[..i], trimPercent)|
    {
      assert dailyPrices[..i + 1][..i] == dailyPrices[..i];
      if |dailyPrices[i]| == 0 {
        continue;
      }
      var day := DailyTrimmedMean(dailyPrices[i], trimPercent);
      TotalSnoc(DailyValues(dailyPrices[..i], trimPercent), day);
      sum := sum + day;
      count := count + 1;
    }
    assert dailyPrices[..|dailyPrices|] == dailyPrices;
    if count == 0 {
      return 0.0;
    }
    return sum / count as real;
  }

  // ----- sorting and summing -----

  lemma TotalSnoc(s: seq<real>, x: real)
    ensures Total(s + [x]) == Total(s) + x
  {
    assert (s + [x])[..|s|] == s;
  }

  lemma {:induction false} InsertAtLeast(s: seq<real>, x: real, low: real)
    requires low <= x && forall i :: 0 <= i < |s| ==> low <= s[i]
    ensures forall i :: 0 <= i < |Insert(s, x)| ==> low <= Insert(s, x)[i]
  {
    if s != [] && x > s[0] {
      InsertAtLeast(s[1..], x, low);
    }
  }

  lemma {:induction false} InsertAscends(s: seq<real>, x: real)
    requires Ascending(s)
    ensures Ascending(Insert(s, x))
  {
    if s != [] && x > s[0] {
      InsertAscends(s[1..], x);
      InsertAtLeast(s[1..], x, s[0]);
    }
  }

  lemma {:induction false} InsertAdds(s: seq<real>, x: real)
    ensures multiset(Insert(s, x)) == multiset(s) + multiset{x}
  {
    if s != [] && x > s[0] {
      InsertAdds(s[1..], x);
      assert s == [s[0]] + s[1..];
    }
  }

  lemma {:induction false} SortFacts(s: seq<real>)
    ensures Ascending(Sort(s)) && multiset(Sort(s)) == multiset(s) && |Sort(s)| == |s|
  {
    if s != [] {
      SortFacts(s[..|s| - 1]);
      InsertAscends(Sort(s[..|s| - 1]), s[|s| - 1]);
      InsertAdds(Sort(s[..|s| - 1]), s[|s| - 1]);
      assert s == s[..|s| - 1] + [s[|s| - 1]];
    }
    SameSize(Sort(s), s);
  }

  lemma SameSize(s: seq<real>, t: seq<real>)
    requires multiset(s) == multiset(t)
    ensures |s| == |t|
  {
    assert |s| == |multiset(s)| == |multiset(t)| == |t|;
  }

  /** Two ascending sequences of the same values are equal. */
  lemma {:induction false} AscendingIsUnique(s: seq<real>, t: seq<real>)
    requires Ascending(s) && Ascending(t) && multiset(s) == multiset(t)
    ensures s == t
  {
    SameSize(s, t);
    if s != [] {
      FirstIsLeast(s, t);
      FirstIsLeast(t, s);
      assert s == [s[0]] + s[1..] && t == [t[0]] + t[1..];
      RestOfSame(s);
      RestOfSame(t);
      AscendingIsUnique(s[1..], t[1..]);
    }
  }

  lemma FirstIsLeast(s: seq<real>, t: seq<real>)
    requires Ascending(s) && s != [] && t != [] && multiset(s) == multiset(t)
    ensures s[0] <= t[0]
  {
    assert t[0] in multiset(s);
    var i :| 0 <= i < |s| && s[i] == t[0];
  }

  lemma RestOfSame(s: seq<real>)
    requires s != []
    ensures multiset(s[1..]) == multiset(s) - multiset{s[0]}
  {
    assert s == [s[0]] + s[1..];
  }

  lemma {:induction false} TotalFront(x: real, s: seq<real>)
    ensures Total([x] + s) == x + Total(s)
  {
    if s == [] {
      assert [x] + s == [] + [x];
      TotalSnoc([], x);
    } else {
      TotalFront(x, s[..|s| - 1]);
      assert [x] + s == [x] + s[..|s| - 1] + [s[|s| - 1]];
      TotalSnoc([x] + s[..|s| - 1], s[|s| - 1]);
    }
  }

  lemma {:induction false} TotalInsert(s: seq<real>, x: real)
    ensures Total(Insert(s, x)) == Total(s) + x
  {
    if s == [] || x <= s[0] {
      TotalFront(x, s);
    } else {
      TotalInsert(s[1..], x);
      TotalFront(s[0], Insert(s[1..], x));
      TotalFront(s[0], s[1..]);
      assert s == [s[0]] + s[1..];
    }
  }

  lemma {:induction false} TotalSort(s: seq<real>)
    ensures Total(Sort(s)) == Total(s)
  {
    if s != [] {
      TotalSort(s[..|s| - 1]);
      TotalInsert(Sort(s[..|s| - 1]), s[|s| - 1]);
    }
  }

  // ----- what the values mean -----

  /** Trimming always leaves samples, so its own fallback to the plain mean is never reached. */
  lemma DropIsSmall(n: nat, trimPercent: real)
    requires n > 0 && Trims(trimPercent)
    ensures 0 <= Drop(n, trimPercent) && Drop(n, trimPercent) * 2 < n
  {
    var share := n as real * trimPercent;
    assert 0.0 <= share < n as real * 50.0;
  }

  /** Neither the order of the samples nor how ties are sorted matters. */
  lemma OrderDoesNotMatter(prices: seq<real>, others: seq<real>, trimPercent: real)
    requires multiset(prices) == multiset(others)
    ensures Daily(prices, trimPercent) == Daily(others, trimPercent)
  {
    SameSize(prices, others);
    SortFacts(prices);
    SortFacts(others);
    AscendingIsUnique(Sort(prices), Sort(others));
    TotalSort(prices);
    TotalSort(others);
  }

  /** Nor does it for the weekly price. */
  lemma {:induction false} WeeklyOrderDoesNotMatter(days: seq<seq<real>>, others: seq<seq<real>>, trimPercent: real)
    requires |days| == |others| && forall i :: 0 <= i < |days| ==> multiset(days[i]) == multiset(others[i])
    ensures Average(DailyValues(days, trimPercent)) == Average(DailyValues(others, trimPercent))
    ensures DailyValues(days, trimPercent) == DailyValues(others, trimPercent)
  {
    if days != [] {
      var last := |days| - 1;
      WeeklyOrderDoesNotMatter(days[..last], others[..last], trimPercent);
      SameSize(days[last], others[last]);
      OrderDoesNotMatter(days[last], others[last], trimPercent);
    }
  }

  lemma {:induction false} TotalBounds(s: seq<real>, lo: real, hi: real)
    requires forall i :: 0 <= i < |s| ==> lo <= s[i] <= hi
    ensures |s| as real * lo <= Total(s) <= |s| as real * hi
  {
    if s != [] {
      TotalBounds(s[..|s| - 1], lo, hi);
      assert |s| as real * lo == (|s| - 1) as real * lo + lo;
      assert |s| as real * hi == (|s| - 1) as real * hi + hi;
    }
  }

  lemma AverageBounds(s: seq<real>, lo: real, hi: real)
    requires s != [] && forall i :: 0 <= i < |s| ==> lo <= s[i] <= hi
    ensures lo <= Average(s) <= hi
  {
    TotalBounds(s, lo, hi);
    QuotientBounds(Total(s), |s| as real, lo, hi);
  }

  lemma QuotientBounds(x: real, n: real, lo: real, hi: real)
    requires n > 0.0 && n * lo <= x <= n * hi
    ensures lo <= x / n <= hi
  {
    ScaleLess(lo, x / n, n);
    ScaleLess(x / n, hi, n);
  }

  lemma ScaleLess(a: real, b: real, c: real)
    requires c > 0.0
    ensures a * c <= b * c <==> a <= b
  {
  }

  // ----- robustness -----

  function Count(p: real -> bool, s: seq<real>): nat {
    if s == [] then 0 else (if p(s[0]) then 1 else 0) + Count(p, s[1..])
  }

  function Below(lo: real): real -> bool {
    x => x < lo
  }

  function Above(hi: real): real -> bool {
    x => x > hi
  }

  lemma {:induction false} CountSnoc(p: real -> bool, s: seq<real>, x: real)
    ensures Count(p, s + [x]) == Count(p, s) + if p(x) then 1 else 0
  {
    if s != [] {
      CountSnoc(p, s[1..], x);
      assert (s + [x])[1..] == s[1..] + [x];
    } else {
      assert s + [x] == [x];
    }
  }

  lemma {:induction false} CountInsert(p: real -> bool, s: seq<real>, x: real)
    ensures Count(p, Insert(s, x)) == Count(p, s) + if p(x) then 1 else 0
  {
    if s == [] || x <= s[0] {
      assert ([x] + s)[1..] == s;
    } else {
      CountInsert(p, s[1..], x);
    }
  }

  lemma {:induction false} CountSort(p: real -> bool, s: seq<real>)
    ensures Count(p, Sort(s)) == Count(p, s)
  {
    if s != [] {
      CountSort(p, s[..|s| - 1]);
      CountInsert(p, Sort(s[..|s| - 1]), s[|s| - 1]);
      CountSnoc(p, s[..|s| - 1], s[|s| - 1]);
      assert s == s[..|s| - 1] + [s[|s| - 1]];
    }
  }

  lemma {:induction false} CountPrefix(p: real -> bool, s: seq<real>, k: nat)
    requires k <= |s| && forall i :: 0 <= i < k ==> p(s[i])
    ensures Count(p, s) >= k
  {
    if k > 0 {
      CountPrefix(p, s[1..], k - 1);
    }
  }

  lemma {:induction false} CountSuffix(p: real -> bool, s: seq<real>, k: nat)
    requires k <= |s| && forall i :: k <= i < |s| ==> p(s[i])
    ensures Count(p, s) >= |s| - k
  {
    if k < |s| {
      CountSuffix(p, s[1..], if k == 0 then 0 else k - 1);
    }
  }

  /** Few enough samples lie outside the bounds for trimming to remove them all. */
  ghost predicate FewOutliers(prices: seq<real>, trimPercent: real, lo: real, hi: real) {
    Count(Below(lo), prices) <= Drop(|prices|, trimPercent) && Count(Above(hi), prices) <= Drop(|prices|, trimPercent)
  }

  lemma KeptWithinBounds(s: seq<real>, drop: nat, lo: real, hi: real)
    requires Ascending(s) && 2 * drop < |s| && Count(Below(lo), s) <= drop && Count(Above(hi), s) <= drop
    ensures forall i :: drop <= i < |s| - drop ==> lo <= s[i] <= hi
  {
    if s[drop] < lo {
      CountPrefix(Below(lo), s, drop + 1);
      assert false;
    }
    if s[|s| - 1 - drop] > hi {
      CountSuffix(Above(hi), s, |s| - 1 - drop);
      assert false;
    }
  }

  lemma KeptAverage(s: seq<real>, drop: nat, lo: real, hi: real)
    requires Ascending(s) && 2 * drop < |s| && Count(Below(lo), s) <= drop && Count(Above(hi), s) <= drop
    ensures lo <= Average(s[drop..|s| - drop]) <= hi
  {
    KeptWithinBounds(s, drop, lo, hi);
    var kept := s[drop..|s| - drop];
    forall i | 0 <= i < |kept|
      ensures lo <= kept[i] <= hi
    {
      assert kept[i] == s[drop + i];
    }
    AverageBounds(kept, lo, hi);
  }

  /** However wild the outliers, the daily value stays within the bounds. */
  lemma DailyIsRobust(prices: seq<real>, trimPercent: real, lo: real, hi: real)
    requires prices != [] && Trims(trimPercent) && FewOutliers(prices, trimPercent, lo, hi)
    ensures lo <= Daily(prices, trimPercent) <= hi
  {
    DropIsSmall(|prices|, trimPercent);
    SortFacts(prices);
    CountSort(Below(lo), prices);
    CountSort(Above(hi), prices);
    KeptAverage(Sort(prices), Drop(|prices|, trimPercent), lo, hi);
  }

  lemma {:induction false} DailyValuesWithin(days: seq<seq<real>>, trimPercent: real, lo: real, hi: real)
    requires Trims(trimPercent)
    requires forall d :: d in days && d != [] ==> FewOutliers(d, trimPercent, lo, hi)
    ensures forall i :: 0 <= i < |DailyValues(days, trimPercent)| ==> lo <= DailyValues(days, trimPercent)[i] <= hi
    ensures (exists d :: d in days && d != []) ==> DailyValues(days, trimPercent) != []
  {
    if days != [] {
      var init, last := days[..|days| - 1], days[|days| - 1];
      DailyValuesWithin(init, trimPercent, lo, hi);
      assert days == init + [last];
      if last != [] {
        DailyIsRobust(last, trimPercent, lo, hi);
      }
    }
  }

  /** When every day with samples has few outliers the weekly price is within the bounds too. */
  lemma WeeklyIsRobust(days: seq<seq<real>>, trimPercent: real, lo: real, hi: real)
    requires Trims(trimPercent)
    requires forall d :: d in days && d != [] ==> FewOutliers(d, trimPercent, lo, hi)
    requires exists d :: d in days && d != []
    ensures lo <= Average(DailyValues(days, trimPercent)) <= hi
  {
    DailyValuesWithin(days, trimPercent, lo, hi);
    AverageBounds(DailyValues(days, trimPercent), lo, hi);
  }

  // ----- and no more than that -----

  function Repeat(n: nat, x: real): seq<real> {
    seq(n, _ => x)
  }

  lemma {:induction false} TotalRepeat(n: nat, x: real)
    ensures Total(Repeat(n, x)) == n as real * x
  {
    if n > 0 {
      TotalRepeat(n - 1, x);
      assert Repeat(n, x)[..n - 1] == Repeat(n - 1, x);
      assert n as real * x == (n - 1) as real * x + x;
    }
  }

  lemma {:induction false} CountRepeat(p: real -> bool, n: nat, x: real)
    ensures Count(p, Repeat(n, x)) == if p(x) then n else 0
  {
    if n > 0 {
      CountRepeat(p, n - 1, x);
      assert Repeat(n, x)[1..] == Repeat(n - 1, x);
    }
  }

  lemma {:induction false} CountJoin(p: real -> bool, s: seq<real>, t: seq<real>)
    ensures Count(p, s + t) == Count(p, s) + Count(p, t)
  {
    if s == [] {
      assert s + t == t;
    } else {
      CountJoin(p, s[1..], t);
      assert (s + t)[1..] == s[1..] + t;
    }
  }

  /** `a` samples at `x` and then `b` samples at `y`. */
  function Spread(a: nat, x: real, b: nat, y: real): seq<real> {
    Repeat(a, x) + Repeat(b, y)
  }

  lemma SpreadCount(p: real -> bool, a: nat, x: real, b: nat, y: real)
    ensures Count(p, Spread(a, x, b, y)) == (if p(x) then a else 0) + if p(y) then b else 0
  {
    CountJoin(p, Repeat(a, x), Repeat(b, y));
    CountRepeat(p, a, x);
    CountRepeat(p, b, y);
  }

  lemma SpreadAscends(a: nat, x: real, b: nat, y: real)
    requires x <= y
    ensures Ascending(Spread(a, x, b, y))
  {
  }

  /** The outlier that moves the mean of m samples, the others at `base`, to `target`. */
  function Outlier(base: real, m: int, target: real): real {
    base + m as real * (target - base)
  }

  lemma OutlierSide(base: real, m: nat, target: real)
    requires m > 0
    ensures target > base ==> Outlier(base, m, target) > base
    ensures target < base ==> Outlier(base, m, target) < base
  {
    ScaleLess(0.0, target - base, m as real);
    ScaleLess(target - base, 0.0, m as real);
    assert m as real * (target - base) == (target - base) * m as real;
  }

  lemma OutlierSum(base: real, m: nat, target: real)
    ensures (m - 1) as real * base + Outlier(base, m, target) == m as real * target
  {
    assert (m - 1) as real * base == m as real * base - base;
    assert m as real * (target - base) == m as real * target - m as real * base;
  }

  lemma OutlierAverages(base: real, m: nat, out: real, target: real)
    requires m > 0 && (m - 1) as real * base + out == m as real * target
    ensures Average([out] + Repeat(m - 1, base)) == target && Average(Repeat(m - 1, base) + [out]) == target
  {
    TotalRepeat(m - 1, base);
    TotalSnoc(Repeat(m - 1, base), out);
    TotalFront(out, Repeat(m - 1, base));
    AverageIs([out] + Repeat(m - 1, base), m, m as real * target, target);
    AverageIs(Repeat(m - 1, base) + [out], m, m as real * target, target);
  }

  lemma AverageIs(s: seq<real>, m: nat, sum: real, target: real)
    requires |s| == m > 0 && Total(s) == sum == m as real * target
    ensures Average(s) == target
  {
    Quotient(target, m as real);
  }

  /** There is such an outlier, first or last. */
  lemma FindOutlier(base: real, m: nat, target: real) returns (out: real)
    requires m > 0
    ensures target > base ==> out > base
    ensures target < base ==> out < base
    ensures Average([out] + Repeat(m - 1, base)) == target && Average(Repeat(m - 1, base) + [out]) == target
  {
    out := Outlier(base, m, target);
    OutlierSide(base, m, target);
    OutlierSum(base, m, target);
    OutlierAverages(base, m, out, target);
  }

  lemma DailyIsKept(s: seq<real>, trimPercent: real, drop: nat)
    requires s != [] && Trims(trimPercent) && Ascending(s) && drop == Drop(|s|, trimPercent) && 2 * drop < |s|
    ensures Daily(s, trimPercent) == Average(s[drop..|s| - drop])
  {
    SortFacts(s);
    AscendingIsUnique(Sort(s), s);
  }

  lemma Quotient(a: real, b: real)
    requires b > 0.0
    ensures b * a / b == a
  {
  }

  lemma HighMiddle(n: nat, drop: nat, base: real, out: real)
    requires 2 * drop < n
    ensures Spread(n - drop - 1, base, drop + 1, out)[drop..n - drop] == Repeat(n - 2 * drop - 1, base) + [out]
  {
  }

  lemma LowMiddle(n: nat, drop: nat, base: real, out: real)
    requires 2 * drop < n
    ensures Spread(drop + 1, out, n - drop - 1, base)[drop..n - drop] == [out] + Repeat(n - 2 * drop - 1, base)
  {
  }

  lemma HighCounts(n: nat, highs: nat, base: real, out: real)
    requires highs <= n && base < out
    ensures var s := Spread(n - highs, base, highs, out);
            |s| == n && Ascending(s) && Count(Below(base), s) == 0 && Count(Above(base), s) == highs
  {
    SpreadCount(Below(base), n - highs, base, highs, out);
    SpreadCount(Above(base), n - highs, base, highs, out);
    SpreadAscends(n - highs, base, highs, out);
  }

  lemma LowCounts(n: nat, lows: nat, base: real, out: real)
    requires lows <= n && out < base
    ensures var s := Spread(lows, out, n - lows, base);
            |s| == n && Ascending(s) && Count(Above(base), s) == 0 && Count(Below(base), s) == lows
  {
    SpreadCount(Below(base), lows, out, n - lows, base);
    SpreadCount(Above(base), lows, out, n - lows, base);
    SpreadAscends(lows, out, n - lows, base);
  }

  /** drop + 1 high samples that leave the kept ones with mean `target`. */
  lemma HighSpread(n: nat, drop: nat, base: real, target: real) returns (s: seq<real>)
    requires 2 * drop < n && base < target
    ensures |s| == n && Ascending(s) && Count(Below(base), s) == 0 && Count(Above(base), s) == drop + 1
    ensures Average(s[drop..n - drop]) == target
  {
    var out := FindOutlier(base, n - 2 * drop, target);
    s := Spread(n - drop - 1, base, drop + 1, out);
    HighCounts(n, drop + 1, base, out);
    HighMiddle(n, drop, base, out);
  }

  /** drop + 1 low samples that leave the kept ones with mean `target`. */
  lemma LowSpread(n: nat, drop: nat, base: real, target: real) returns (s: seq<real>)
    requires 2 * drop < n && target < base
    ensures |s| == n && Ascending(s) && Count(Above(base), s) == 0 && Count(Below(base), s) == drop + 1
    ensures Average(s[drop..n - drop]) == target
  {
    var out := FindOutlier(base, n - 2 * drop, target);
    s := Spread(drop + 1, out, n - drop - 1, base);
    LowCounts(n, drop + 1, base, out);
    LowMiddle(n, drop, base, out);
  }

  /** One high sample more than trimming removes takes the value anywhere above. */
  lemma OneHighTooMany(n: nat, trimPercent: real, base: real, target: real) returns (prices: seq<real>)
    requires n > 0 && Trims(trimPercent) && base < target
    ensures |prices| == n && Count(Below(base), prices) == 0
    ensures Count(Above(base), prices) == Drop(n, trimPercent) + 1
    ensures Daily(prices, trimPercent) == target
  {
    DropIsSmall(n, trimPercent);
    prices := HighSpread(n, Drop(n, trimPercent), base, target);
    DailyIsKept(prices, trimPercent, Drop(n, trimPercent));
  }

  /** One low sample more than trimming removes takes it anywhere below. */
  lemma OneLowTooMany(n: nat, trimPercent: real, base: real, target: real) returns (prices: seq<real>)
    requires n > 0 && Trims(trimPercent) && target < base
    ensures |prices| == n && Count(Above(base), prices) == 0
    ensures Count(Below(base), prices) == Drop(n, trimPercent) + 1
    ensures Daily(prices, trimPercent) == target
  {
    DropIsSmall(n, trimPercent);
    prices := LowSpread(n, Drop(n, trimPercent), base, target);
    DailyIsKept(prices, trimPercent, Drop(n, trimPercent));
  }

  lemma {:induction false} CountWider(p: real -> bool, q: real -> bool, s: seq<real>)
    requires forall x :: p(x) ==> q(x)
    ensures Count(p, s) <= Count(q, s)
  {
    if s != [] {
      CountWider(p, q, s[1..]);
    }
  }

  /** Days of n samples of which at most j are too low and at most k too high. */
  ghost predicate AlwaysWithin(n: nat, trimPercent: real, lo: real, hi: real, j: nat, k: nat) {
    forall prices ::
      |prices| == n && Count(Below(lo), prices) <= j && Count(Above(hi), prices) <= k ==>
        lo <= Daily(prices, trimPercent) <= hi
  }

  /**
   The daily value of n samples is sure to lie within the bounds when up to j samples are below and
   up to k above them if and only if neither is more than trimming removes at each end.
   */
  lemma RobustIff(n: nat, trimPercent: real, lo: real, hi: real, j: nat, k: nat)
    requires n > 0 && Trims(trimPercent) && lo <= hi
    ensures AlwaysWithin(n, trimPercent, lo, hi, j, k) <==> j <= Drop(n, trimPercent) && k <= Drop(n, trimPercent)
  {
    if j <= Drop(n, trimPercent) && k <= Drop(n, trimPercent) {
      forall prices | |prices| == n && Count(Below(lo), prices) <= j && Count(Above(hi), prices) <= k
        ensures lo <= Daily(prices, trimPercent) <= hi
      {
        DailyIsRobust(prices, trimPercent, lo, hi);
      }
    } else if j > Drop(n, trimPercent) {
      var prices := OneLowTooMany(n, trimPercent, lo, lo - 1.0);
      CountWider(Above(hi), Above(lo), prices);
      assert Daily(prices, trimPercent) < lo;
    } else {
      var prices := OneHighTooMany(n, trimPercent, hi, hi + 1.0);
      CountWider(Below(lo), Below(hi), prices);
      assert Daily(prices, trimPercent) > hi;
    }
  }

  // ----- what the values are -----

  /** The whole number of samples in `trimPercent` percent of n. */
  predicate IsTrim(n: nat, trimPercent: real, k: int) {
    k as real * 100.0 <= n as real * trimPercent < (k + 1) as real * 100.0
  }

  lemma DropIsTrim(n: nat, trimPercent: real, k: int)
    ensures IsTrim(n, trimPercent, k) <==> k == Drop(n, trimPercent)
  {
    var share := n as real * trimPercent;
    assert share / 100.0 * 100.0 == share;
  }

  /** Samples in ascending order. */
  ghost predicate InOrder(prices: seq<real>, s: seq<real>) {
    Ascending(s) && multiset(s) == multiset(prices)
  }

  /** The daily value is the mean of the samples in order without the trimmed ones at either end. */
  lemma TrimmedValueIs(prices: seq<real>, trimPercent: real, k: int) returns (s: seq<real>)
    requires prices != [] && 0.0 < trimPercent < 50.0 && IsTrim(|prices|, trimPercent, k)
    ensures InOrder(prices, s) && |s| == |prices| && 0 <= k && 2 * k < |s|
    ensures Daily(prices, trimPercent) == Total(s[k..|s| - k]) / (|s| - 2 * k) as real
  {
    s := Sort(prices);
    SortFacts(prices);
    DropIsTrim(|prices|, trimPercent, k);
    DropIsSmall(|prices|, trimPercent);
  }

  /** With a percentage that makes no sense it is the mean of them all. */
  lemma UntrimmedValueIs(prices: seq<real>, trimPercent: real)
    requires prices != [] && !(0.0 < trimPercent < 50.0)
    ensures Daily(prices, trimPercent) == Total(prices) / |prices| as real
  {
  }

  function DaysWithSamples(days: seq<seq<real>>, n: nat): nat
    requires n <= |days|
  {
    if n == 0 then 0 else DaysWithSamples(days, n - 1) + if days[n - 1] == [] then 0 else 1
  }

  function SumOfDays(days: seq<seq<real>>, trimPercent: real, n: nat): real
    requires n <= |days|
  {
    if n == 0 then 0.0
    else SumOfDays(days, trimPercent, n - 1) + if days[n - 1] == [] then 0.0 else Daily(days[n - 1], trimPercent)
  }

  lemma OneMoreDay(days: seq<seq<real>>, trimPercent: real, n: nat)
    requires 0 < n <= |days|
    ensures DailyValues(days[..n], trimPercent)
            == var before := DailyValues(days[..n - 1], trimPercent);
               if days[n - 1] == [] then before else before + [Daily(days[n - 1], trimPercent)]
  {
    assert days[..n][..n - 1] == days[..n - 1];
  }

  lemma {:induction false} DailyValuesAddUp(days: seq<seq<real>>, trimPercent: real, n: nat)
    requires n <= |days|
    ensures |DailyValues(days[..n], trimPercent)| == DaysWithSamples(days, n)
    ensures Total(DailyValues(days[..n], trimPercent)) == SumOfDays(days, trimPercent, n)
  {
    if n > 0 {
      DailyValuesAddUp(days, trimPercent, n - 1);
      OneMoreDay(days, trimPercent, n);
      if days[n - 1] != [] {
        TotalSnoc(DailyValues(days[..n - 1], trimPercent), Daily(days[n - 1], trimPercent));
      }
    }
  }

  /** The weekly price is the mean of the values of the days that have samples; zero without any. */
  lemma WeeklyPriceIs(days: seq<seq<real>>, trimPercent: real)
    ensures var price, count := Average(DailyValues(days, trimPercent)), DaysWithSamples(days, |days|);
            price == if count == 0 then 0.0 else SumOfDays(days, trimPercent, |days|) / count as real
  {
    DailyValuesAddUp(days, trimPercent, |days|);
    assert days[..|days|] == days;
  }
}
