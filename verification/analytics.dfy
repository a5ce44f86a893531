/** The monthly summary (`api_summary`): the month's date window, per-kind totals, the
    per-category expense breakdown and the six-point expense trend, computed over a
    sequence of transactions in place of the SQL queries. */
module Analytics {
  import opened Wrappers
  import opened Calendar
  import opened Classify
  import opened Ledger
  import opened Grouping

  /** `date >= lo AND date <= hi`. */
  predicate InWindow(d: Date, lo: Date, hi: Date) {
    AtOrBefore(lo, d) && AtOrBefore(d, hi)
  }

  /** A date among the days month `m` of year `y` really has. */
  predicate InMonth(d: Date, y: int, m: int)
    requires 1 <= m <= 12
  {
    d.year == y && d.month == m && 1 <= d.day <= DaysInMonth(y, m)
  }

  /** The month December 9999, after which Python has no dates. */
  predicate InLastMonth(d: Date) {
    d.year == MaxYear && d.month == 12
  }

  /** The rows of `w` dated inside [lo, hi], in their order. */
  function Window(w: seq<Transaction>, lo: Date, hi: Date): (r: seq<Transaction>)
    ensures |r| <= |w|
    ensures forall t :: t in r <==> t in w && InWindow(t.date, lo, hi)
  {
    if |w| == 0 then []
    else
      var init, last := w[..|w| - 1], w[|w| - 1];
      assert w == init + [last];
      Window(init, lo, hi) + (if InWindow(last.date, lo, hi) then [last] else [])
  }

  /** The rows of `w` dated in month `m` of year `y`, as a calendar reads it, in their
      order. */
  function MonthRows(w: seq<Transaction>, y: int, m: int): (r: seq<Transaction>)
    requires 1 <= m <= 12
    ensures forall t :: t in r <==> t in w && InMonth(t.date, y, m)
  {
    if |w| == 0 then []
    else
      var init, last := w[..|w| - 1], w[|w| - 1];
      assert w == init + [last];
      MonthRows(init, y, m) + (if InMonth(last.date, y, m) then [last] else [])
  }

  /** Every row in the window appears there as often as in `w`, and no other row does:
      a transaction entered twice is counted twice. */
  lemma {:induction false} WindowCounts(w: seq<Transaction>, lo: Date, hi: Date)
    ensures forall t :: multiset(Window(w, lo, hi))[t] == if InWindow(t.date, lo, hi) then multiset(w)[t] else 0
  {
    if |w| > 0 {
      var init, last := w[..|w| - 1], w[|w| - 1];
      assert w == init + [last];
      WindowCounts(init, lo, hi);
    }
  }

  /** The same for a calendar month's rows. */
  lemma {:induction false} MonthRowsCounts(w: seq<Transaction>, y: int, m: int)
    requires 1 <= m <= 12
    ensures forall t :: multiset(MonthRows(w, y, m))[t] == if InMonth(t.date, y, m) then multiset(w)[t] else 0
  {
    if |w| > 0 {
      var init, last := w[..|w| - 1], w[|w| - 1];
      assert w == init + [last];
      MonthRowsCounts(init, y, m);
    }
  }

  /** Filtering keeps the order: the window of two stretches of rows is the window of
      the first followed by the window of the second. */
  lemma {:induction false} WindowAppend(a: seq<Transaction>, b: seq<Transaction>, lo: Date, hi: Date)
    ensures Window(a + b, lo, hi) == Window(a, lo, hi) + Window(b, lo, hi)
    decreases |b|
  {
    if |b| > 0 {
      var init, last := b[..|b| - 1], b[|b| - 1];
      assert b == init + [last];
      assert a + b == (a + init) + [last];
      WindowSnoc(a + init, last, lo, hi);
      WindowSnoc(init, last, lo, hi);
      WindowAppend(a, init, lo, hi);
    } else {
      assert a + b == a;
    }
  }

  /** One more row at the end is kept at the end exactly when it lies in the window. */
  lemma WindowSnoc(w: seq<Transaction>, x: Transaction, lo: Date, hi: Date)
    ensures Window(w + [x], lo, hi) == Window(w, lo, hi) + (if InWindow(x.date, lo, hi) then [x] else [])
  {
    var wx := w + [x];
    assert wx[..|wx| - 1] == w && wx[|wx| - 1] == x;
  }

  /** The same for a calendar month's rows. */
  lemma {:induction false} MonthRowsAppend(a: seq<Transaction>, b: seq<Transaction>, y: int, m: int)
    requires 1 <= m <= 12
    ensures MonthRows(a + b, y, m) == MonthRows(a, y, m) + MonthRows(b, y, m)
    decreases |b|
  {
    if |b| > 0 {
      var init, last := b[..|b| - 1], b[|b| - 1];
      assert b == init + [last];
      assert a + b == (a + init) + [last];
      MonthRowsSnoc(a + init, last, y, m);
      MonthRowsSnoc(init, last, y, m);
      MonthRowsAppend(a, init, y, m);
    } else {
      assert a + b == a;
    }
  }

  lemma MonthRowsSnoc(w: seq<Transaction>, x: Transaction, y: int, m: int)
    requires 1 <= m <= 12
    ensures MonthRows(w + [x], y, m) == MonthRows(w, y, m) + (if InMonth(x.date, y, m) then [x] else [])
  {
    var wx := w + [x];
    assert wx[..|wx| - 1] == w && wx[|wx| - 1] == x;
  }

  /** `d + timedelta(days = n)` lands on `e` when `e` is a valid date `n` days on. */
  lemma ShiftTo(d: Date, n: int, e: Date)
    requires WellFormed(d) && IsValid(e) && Ordinal(e) == Ordinal(d) + n
    ensures Shift(d, n) == Some(e)
  {
    InRangeByOrdinal(e);
    OrdinalOrder(Shift(d, n).value, e);
  }

  /** The two steps of the last-day computation for a month other than December 9999:
      day 28 plus four days is day 32 - (days in the month) of the next month, and
      going back that many days lands on the month's last day. */
  lemma MonthEndSteps(y: int, m: int)
    requires IsValid(Date(y, m, 1)) && !(y == MaxYear && m == 12)
    ensures var nm := FirstOfNextMonth(Date(y, m, DaysInMonth(y, m)));
            var c := Date(nm.year, nm.month, 32 - DaysInMonth(y, m));
            Shift(Date(y, m, 28), 4) == Some(c) && Shift(c, -c.day) == Some(Date(y, m, DaysInMonth(y, m)))
  {
    var last := Date(y, m, DaysInMonth(y, m));
    var nm := FirstOfNextMonth(last);
    var c := Date(nm.year, nm.month, 32 - DaysInMonth(y, m));
    assert Ordinal(c) == Ordinal(nm) + c.day - 1;
    assert Ordinal(last) == Ordinal(Date(y, m, 28)) + DaysInMonth(y, m) - 28;
    ShiftTo(Date(y, m, 28), 4, c);
    ShiftTo(c, -c.day, last);
  }

  /** The last day of month `m` of year `y` as the code finds it: day 28 plus four days
      (always in the next month) minus that date's day number. None where the step
      forward leaves the calendar, which happens for December 9999 only; otherwise the
      window ends on the month's true last day, 28 or 29 for February by leap year. */
  function MonthEnd(y: int, m: int): (r: Option<Date>)
    requires IsValid(Date(y, m, 1))
    ensures r.Some? <==> !(y == MaxYear && m == 12)
    ensures r.Some? ==> r.value == Date(y, m, DaysInMonth(y, m))
  {
    if y == MaxYear && m == 12 then
      LastMonthOverflows();
      None
    else
      MonthEndSteps(y, m);
      var next := FirstOfNextMonth(Date(y, m, DaysInMonth(y, m)));
      var c := Date(next.year, next.month, 32 - DaysInMonth(y, m));
      match Shift(Date(y, m, 28), 4)
      case None => None
      case Some(nm) =>
        assert nm == c;
        Shift(nm, -nm.day)
  }

  /** Four days after 9999-12-28 lie past the end of the calendar. */
  lemma LastMonthOverflows()
    ensures Shift(Date(MaxYear, 12, 28), 4).None?
  {
    assert Ordinal(Date(MaxYear, 12, 28)) + 4 > MaxOrdinal;
  }

  /** The month's window, first to last day, holds exactly the dates of that month. */
  lemma WindowIsMonth(d: Date, y: int, m: int)
    requires 1 <= m <= 12
    ensures InWindow(d, Date(y, m, 1), Date(y, m, DaysInMonth(y, m))) <==> InMonth(d, y, m)
  {
  }

  lemma {:induction false} WindowIsMonthRows(w: seq<Transaction>, y: int, m: int)
    requires 1 <= m <= 12
    ensures Window(w, Date(y, m, 1), Date(y, m, DaysInMonth(y, m))) == MonthRows(w, y, m)
  {
    if |w| > 0 {
      WindowIsMonth(w[|w| - 1].date, y, m);
      WindowIsMonthRows(w[..|w| - 1], y, m);
    }
  }

  /** The sum of the amounts of the rows of kind `k`, read straight off the rows. */
  function KindTotal(w: seq<Transaction>, k: Kind): real {
    if |w| == 0 then 0.0
    else KindTotal(w[..|w| - 1], k) + (if w[|w| - 1].kind == k then w[|w| - 1].amount else 0.0)
  }

  /** The sum of the expense amounts of the rows with category `c`. */
  function CategoryTotal(w: seq<Transaction>, c: Option<string>): real {
    if |w| == 0 then 0.0
    else
      var t := w[|w| - 1];
      CategoryTotal(w[..|w| - 1], c) + (if t.kind == Expense && t.category == c then t.amount else 0.0)
  }

  /** The expenses dated in month `m` of year `y`: the trend's reference value. */
  function MonthExpenses(w: seq<Transaction>, y: int, m: int): real
    requires 1 <= m <= 12
  {
    if |w| == 0 then 0.0
    else
      var t := w[|w| - 1];
      MonthExpenses(w[..|w| - 1], y, m) + (if t.kind == Expense && InMonth(t.date, y, m) then t.amount else 0.0)
  }

  function KindsOf(w: seq<Transaction>): set<Kind> {
    set t | t in w :: t.kind
  }

  /** The categories of the expense rows (None for a NULL category). */
  function CategoriesOf(w: seq<Transaction>): set<Option<string>> {
    set t | t in w && t.kind == Expense :: t.category
  }

  /** The (kind, amount) rows the totals query groups. */
  function KindPairs(w: seq<Transaction>): seq<(Kind, real)> {
    if |w| == 0 then [] else KindPairs(w[..|w| - 1]) + [(w[|w| - 1].kind, w[|w| - 1].amount)]
  }

  /** The (category, amount) rows of the expenses, which the breakdown query groups. */
  function CategoryPairs(w: seq<Transaction>): seq<(Option<string>, real)> {
    if |w| == 0 then []
    else
      var t := w[|w| - 1];
      CategoryPairs(w[..|w| - 1]) + (if t.kind == Expense then [(t.category, t.amount)] else [])
  }

  lemma {:induction false} KindPairsAgree(w: seq<Transaction>)
    ensures (set p | p in KindPairs(w) :: p.0) == KindsOf(w)
    ensures forall k :: SumWhere(KindPairs(w), k) == KindTotal(w, k)
  {
    if |w| > 0 {
      var init, last := w[..|w| - 1], w[|w| - 1];
      var ps := KindPairs(w);
      KindPairsAgree(init);
      assert w == init + [last];
      assert ps[..|ps| - 1] == KindPairs(init);
      assert KindsOf(w) == KindsOf(init) + {last.kind};
      assert (set p | p in ps :: p.0) == (set p | p in KindPairs(init) :: p.0) + {last.kind};
    }
  }

  lemma {:induction false} CategoryPairsAgree(w: seq<Transaction>)
    ensures (set p | p in CategoryPairs(w) :: p.0) == CategoriesOf(w)
    ensures forall c :: SumWhere(CategoryPairs(w), c) == CategoryTotal(w, c)
    ensures SumAll(CategoryPairs(w)) == KindTotal(w, Expense)
  {
    if |w| > 0 {
      var init, t := w[..|w| - 1], w[|w| - 1];
      var ps, ps0 := CategoryPairs(w), CategoryPairs(init);
      CategoryPairsAgree(init);
      assert w == init + [t];
      if t.kind == Expense {
        assert ps[..|ps| - 1] == ps0;
        assert CategoriesOf(w) == CategoriesOf(init) + {t.category};
        assert (set p | p in ps :: p.0) == (set p | p in ps0 :: p.0) + {t.category};
      } else {
        assert ps == ps0;
        assert CategoriesOf(w) == CategoriesOf(init);
      }
    }
  }

  /** The loop `for r in rows: totals[r['kind']] = r['sum']`, one assignment per group. */
  function ApplyTotals(m: map<Kind, real>, gs: seq<Group<Kind>>): (r: map<Kind, real>)
    ensures r.Keys == m.Keys + Keys(gs)
    ensures forall k :: k in r && k !in Keys(gs) ==> r[k] == m[k]
    ensures Distinct(gs) ==> forall k :: k in r && k in Keys(gs) ==> r[k] == AmountOf(gs, k)
    decreases |gs|
  {
    if |gs| == 0 then m
    else
      var g, tail := gs[0], gs[1..];
      assert gs == [g] + tail;
      KeysCons(g, tail);
      DistinctCons(g, tail);
      assert g.key !in Keys(tail) ==> AmountOf(tail, g.key) == 0.0 by {
        if g.key !in Keys(tail) {
          AmountOfAbsent(tail, g.key);
        }
      }
      ApplyTotals(m[g.key := g.amount], tail)
  }

  /** `totals`: both "expense" and "income" are always present, every other kind present
      in the window appears too, and each holds the sum of its kind's amounts (0.0 for
      "expense" or "income" when the window has none). */
  function Totals(win: seq<Transaction>): (r: map<Kind, real>)
    ensures Expense in r && Income in r
    ensures r.Keys == {Expense, Income} + KindsOf(win)
    ensures forall k :: k in r ==> r[k] == KindTotal(win, k)
  {
    var gs := GroupSums(KindPairs(win));
    KindPairsAgree(win);
    var r := ApplyTotals(map[Expense := 0.0, Income := 0.0], gs);
    assert forall k :: k in r && k !in Keys(gs) ==> r[k] == KindTotal(win, k) by {
      forall k | k in r && k !in Keys(gs) ensures r[k] == KindTotal(win, k) {
        AmountOfAbsent(gs, k);
      }
    }
    r
  }

  /** A row of `cat_break`. */
  datatype CategoryEntry = CategoryEntry(name: string, amount: real)

  /** `r['category'] or 'Other'`: a NULL or empty category reads as "Other". */
  function Label(c: Option<string>): (s: string)
    ensures s != ""
    ensures c.None? || c.value == "" ==> s == DefaultCategory
    ensures c.Some? && c.value != "" ==> s == c.value
  {
    if c.None? || c.value == "" then DefaultCategory else c.value
  }

  function EntriesTotal(es: seq<CategoryEntry>): real {
    if |es| == 0 then 0.0 else es[0].amount + EntriesTotal(es[1..])
  }

  /** One entry per group, named by its label, in the groups' order. */
  function Entries(gs: seq<Group<Option<string>>>): (r: seq<CategoryEntry>)
    ensures |r| == |gs|
    ensures forall i :: 0 <= i < |gs| ==> r[i].name == Label(gs[i].key) && r[i].amount == gs[i].amount
    ensures EntriesTotal(r) == Total(gs)
  {
    if |gs| == 0 then []
    else
      var r := [CategoryEntry(Label(gs[0].key), gs[0].amount)] + Entries(gs[1..]);
      assert r[1..] == Entries(gs[1..]);
      r
  }

  /** Distinct keys: as many groups as keys. */
  lemma {:induction false} DistinctCount<K(!new)>(gs: seq<Group<K>>)
    requires Distinct(gs)
    ensures |Keys(gs)| == |gs|
  {
    if |gs| > 0 {
      assert gs == [gs[0]] + gs[1..];
      KeysCons(gs[0], gs[1..]);
      DistinctCons(gs[0], gs[1..]);
      DistinctCount(gs[1..]);
    }
  }

  /** `cat_break`: one entry per distinct category among the window's expenses, and
      the entries add up to the expense total of the window. Entry names need not be
      distinct: a NULL, an empty and an explicit "Other" category each give an entry
      named "Other". */
  function Breakdown(win: seq<Transaction>): (r: seq<CategoryEntry>)
    ensures |r| == |CategoriesOf(win)|
    ensures EntriesTotal(r) == KindTotal(win, Expense)
  {
    var gs := GroupSums(CategoryPairs(win));
    CategoryPairsAgree(win);
    DistinctCount(gs);
    Entries(gs)
  }

  /** Every entry of the breakdown is a category of the window's expenses with that
      category's expense total. */
  lemma BreakdownSound(win: seq<Transaction>)
    ensures forall i :: 0 <= i < |Breakdown(win)| ==>
              exists c :: c in CategoriesOf(win) && Breakdown(win)[i] == CategoryEntry(Label(c), CategoryTotal(win, c))
  {
    var gs := GroupSums(CategoryPairs(win));
    var r := Breakdown(win);
    CategoryPairsAgree(win);
    forall i | 0 <= i < |r|
      ensures exists c :: c in CategoriesOf(win) && r[i] == CategoryEntry(Label(c), CategoryTotal(win, c))
    {
      GroupEntry(win, gs, i);
    }
  }

  /** Every category of the window's expenses has its entry in the breakdown. */
  lemma BreakdownComplete(win: seq<Transaction>)
    ensures forall c :: c in CategoriesOf(win) ==>
              exists i :: 0 <= i < |Breakdown(win)| && Breakdown(win)[i] == CategoryEntry(Label(c), CategoryTotal(win, c))
  {
    var gs := GroupSums(CategoryPairs(win));
    var r := Breakdown(win);
    CategoryPairsAgree(win);
    forall c | c in CategoriesOf(win)
      ensures exists i :: 0 <= i < |r| && r[i] == CategoryEntry(Label(c), CategoryTotal(win, c))
    {
      var g :| g in gs && g.key == c;
      var i :| 0 <= i < |gs| && gs[i] == g;
      GroupEntry(win, gs, i);
    }
  }

  /** The breakdown's entry `i` is the label and expense total of the category of group `i`. */
  lemma GroupEntry(win: seq<Transaction>, gs: seq<Group<Option<string>>>, i: int)
    requires gs == GroupSums(CategoryPairs(win)) && 0 <= i < |gs|
    ensures gs[i].key in CategoriesOf(win)
    ensures Breakdown(win)[i] == CategoryEntry(Label(gs[i].key), CategoryTotal(win, gs[i].key))
  {
    CategoryPairsAgree(win);
    assert gs[i] in gs;
    AmountOfDistinct(gs, i);
  }

  /** A point of the trend: the month a date fell in and the expenses of that month. */
  datatype TrendEntry = TrendEntry(year: int, month: int, amount: real)

  /** `e` is the point the code computes for the day `n` days before `start`: that day's
      year and month, with the expenses dated from the first to the true last day of
      that month. */
  predicate PointFor(start: Date, w: seq<Transaction>, n: int, e: TrendEntry)
    requires WellFormed(start)
  {
    var d := Shift(start, -n);
    d.Some? && e.year == d.value.year && e.month == d.value.month
    && e.amount == MonthExpenses(w, e.year, e.month)
  }

  /** The expenses of a month summed over its window, as the trend's query does. */
  lemma {:induction false} MonthWindowTotal(w: seq<Transaction>, y: int, m: int)
    requires 1 <= m <= 12
    ensures KindTotal(Window(w, Date(y, m, 1), Date(y, m, DaysInMonth(y, m))), Expense) == MonthExpenses(w, y, m)
  {
    if |w| > 0 {
      var init, t := w[..|w| - 1], w[|w| - 1];
      var lo, hi := Date(y, m, 1), Date(y, m, DaysInMonth(y, m));
      var a := Window(init, lo, hi);
      MonthWindowTotal(init, y, m);
      WindowIsMonth(t.date, y, m);
      if InWindow(t.date, lo, hi) {
        assert (a + [t])[..|a|] == a;
      } else {
        assert a + [] == a;
      }
    }
  }

  /** One trend step: the month of the day `n` days before `start` and its expenses.
      None where Python raises: the step back leaves the calendar, or the month is
      December 9999, whose last day cannot be computed. */
  function TrendPoint(start: Date, w: seq<Transaction>, n: int): (r: Option<TrendEntry>)
    requires IsValid(start)
    ensures r.Some? <==> Shift(start, -n).Some? && !InLastMonth(Shift(start, -n).value)
    ensures r.Some? ==> PointFor(start, w, n, r.value)
  {
    match Shift(start, -n)
    case None => None
    case Some(d) =>
      match MonthEnd(d.year, d.month)
      case None => None
      case Some(e) =>
        MonthWindowTotal(w, d.year, d.month);
        Some(TrendEntry(d.year, d.month, KindTotal(Window(w, Date(d.year, d.month, 1), e), Expense)))
  }

  /** The point for the first of the month itself exists unless the month is December 9999. */
  lemma PointAtStart(start: Date, w: seq<Transaction>)
    requires IsValid(start)
    ensures TrendPoint(start, w, 0).Some? <==> !InLastMonth(start)
  {
    InRangeByOrdinal(start);
    OrdinalOrder(Shift(start, 0).value, start);
  }

  /** Away from December 9999, a point `n >= 0` days back exists exactly when the step
      back stays in the calendar. */
  lemma PointBefore(start: Date, w: seq<Transaction>, n: int)
    requires IsValid(start) && !InLastMonth(start) && n >= 0
    ensures TrendPoint(start, w, n).Some? <==> Ordinal(start) - n >= 1
  {
    InRangeByOrdinal(start);
    if n > 0 && Shift(start, -n).Some? {
      assert Before(Shift(start, -n).value, start);
    } else if n == 0 {
      PointAtStart(start, w);
    }
  }

  /** The trend points for `i` = k, k-1, ..., 0, the point for `i` taken `30 * i` days
      before `start`. */
  function TrendFrom(start: Date, w: seq<Transaction>, k: nat): (r: Option<seq<TrendEntry>>)
    requires IsValid(start)
    ensures r.Some? <==> Ordinal(start) - 30 * k >= 1 && !InLastMonth(start)
    ensures r.Some? ==> |r.value| == k + 1
    ensures r.Some? ==> forall j :: 0 <= j <= k ==> PointFor(start, w, 30 * (k - j), r.value[j])
  {
    var p := TrendPoint(start, w, 30 * k);
    if k == 0 then
      PointAtStart(start, w);
      if p.None? then None else Some([p.value])
    else
      var rest := TrendFrom(start, w, k - 1);
      PrependPoint(start, w, k, p, rest);
      Prepend(p, rest)
  }

  /** A point in front of the points after it; None when either is missing. */
  function Prepend(p: Option<TrendEntry>, rest: Option<seq<TrendEntry>>): Option<seq<TrendEntry>> {
    if p.None? || rest.None? then None else Some([p.value] + rest.value)
  }

  /** The point for `30 * k` days back in front of the points for `k - 1` down to 0
      gives the points for `k` down to 0. */
  lemma PrependPoint(start: Date, w: seq<Transaction>, k: nat, p: Option<TrendEntry>, rest: Option<seq<TrendEntry>>)
    requires IsValid(start) && k >= 1 && p == TrendPoint(start, w, 30 * k)
    requires rest.Some? <==> Ordinal(start) - 30 * (k - 1) >= 1 && !InLastMonth(start)
    requires rest.Some? ==> |rest.value| == k
    requires rest.Some? ==> forall j :: 0 <= j <= k - 1 ==> PointFor(start, w, 30 * (k - 1 - j), rest.value[j])
    ensures Prepend(p, rest).Some? <==> Ordinal(start) - 30 * k >= 1 && !InLastMonth(start)
    ensures Prepend(p, rest).Some? ==> |Prepend(p, rest).value| == k + 1
    ensures Prepend(p, rest).Some? ==>
              forall j :: 0 <= j <= k ==> PointFor(start, w, 30 * (k - j), Prepend(p, rest).value[j])
  {
    if !InLastMonth(start) {
      PointBefore(start, w, 30 * k);
    }
    if p.Some? && rest.Some? {
      PrependPoints(start, w, k, p.value, rest.value);
    }
  }

  lemma PrependPoints(start: Date, w: seq<Transaction>, k: nat, p: TrendEntry, rest: seq<TrendEntry>)
    requires IsValid(start) && PointFor(start, w, 30 * k, p) && |rest| == k
    requires forall j :: 0 <= j < k ==> PointFor(start, w, 30 * (k - 1 - j), rest[j])
    ensures forall j :: 0 <= j <= k ==> PointFor(start, w, 30 * (k - j), ([p] + rest)[j])
  {
    var r := [p] + rest;
    forall j | 0 <= j <= k ensures PointFor(start, w, 30 * (k - j), r[j]) {
      if j > 0 {
        var i := j - 1;
        assert r[j] == rest[i];
        assert PointFor(start, w, 30 * (k - 1 - i), rest[i]);
        assert 30 * (k - j) == 30 * (k - 1 - i);
      }
    }
  }

  /** Which month a trend point falls in. */
  predicate MonthAtOrBefore(a: TrendEntry, b: TrendEntry) {
    a.year < b.year || (a.year == b.year && a.month <= b.month)
  }

  /** `trend`, as the code computes it: `start - timedelta(days = 30 * i)` for i = 5 down
      to 0. Six points, the last the requested month, each holding the expenses of its
      own calendar month, months never going backwards. None where the code raises:
      the first step back leaves the calendar (the first 150 days of year 1) or the
      month is December 9999. */
  function Trend(start: Date, w: seq<Transaction>): (r: Option<seq<TrendEntry>>)
    requires IsValid(start)
    ensures r.Some? <==> Ordinal(start) > 150 && !InLastMonth(start)
    ensures r.Some? ==> |r.value| == 6
    ensures r.Some? ==> r.value[5].year == start.year && r.value[5].month == start.month
    ensures r.Some? ==> forall j :: 0 <= j < 6 ==> PointFor(start, w, 30 * (5 - j), r.value[j])
    ensures r.Some? ==> forall j :: 0 <= j < 5 ==> MonthAtOrBefore(r.value[j], r.value[j + 1])
  {
    var r := TrendFrom(start, w, 5);
    assert r.Some? ==> forall j :: 0 <= j < 5 ==> MonthAtOrBefore(r.value[j], r.value[j + 1]) by {
      if r.Some? {
        TrendMonthsOrdered(start, w, r.value);
      }
    }
    OrdinalOrder(Shift(start, 0).value, start);
    r
  }

  lemma TrendMonthsOrdered(start: Date, w: seq<Transaction>, t: seq<TrendEntry>)
    requires IsValid(start) && |t| == 6
    requires forall j :: 0 <= j < 6 ==> PointFor(start, w, 30 * (5 - j), t[j])
    ensures forall j :: 0 <= j < 5 ==> MonthAtOrBefore(t[j], t[j + 1])
  {
    forall j | 0 <= j < 5 ensures MonthAtOrBefore(t[j], t[j + 1]) {
      PointsOrdered(start, w, 30 * (5 - j), 30 * (5 - (j + 1)), t[j], t[j + 1]);
    }
  }

  /** A point taken further back lies in the same month or an earlier one. */
  lemma PointsOrdered(start: Date, w: seq<Transaction>, n: int, n': int, a: TrendEntry, b: TrendEntry)
    requires IsValid(start) && n >= n'
    requires PointFor(start, w, n, a) && PointFor(start, w, n', b)
    ensures MonthAtOrBefore(a, b)
  {
    OrdinalOrder(Shift(start, -n).value, Shift(start, -n').value);
  }

  /** The days 150, 120, 90, 60 and 30 days before 2023-03-01. */
  lemma StepsBackFromMarch2023(start: Date)
    requires start == Date(2023, 3, 1)
    ensures Shift(start, -150) == Some(Date(2022, 10, 2))
    ensures Shift(start, -120) == Some(Date(2022, 11, 1))
    ensures Shift(start, -90) == Some(Date(2022, 12, 1))
    ensures Shift(start, -60) == Some(Date(2022, 12, 31))
    ensures Shift(start, -30) == Some(Date(2023, 1, 30))
  {
    YearStep(2022);
    var base := DaysBeforeYear(2022);
    assert Ordinal(start) == base + 365 + 60;
    ShiftFromMarch2023(start, base, -150, Date(2022, 10, 2));
    ShiftFromMarch2023(start, base, -120, Date(2022, 11, 1));
    ShiftFromMarch2023(start, base, -90, Date(2022, 12, 1));
    ShiftFromMarch2023(start, base, -60, Date(2022, 12, 31));
    ShiftFromMarch2023(start, base, -30, Date(2023, 1, 30));
  }

  /** A shift back from 2023-03-01 that lands on `e`, a date of 2022 or early 2023,
      counting days from the start of 2022. */
  lemma ShiftFromMarch2023(start: Date, base: int, n: int, e: Date)
    requires WellFormed(start) && base == DaysBeforeYear(2022) && Ordinal(start) == base + 365 + 60
    requires DaysBeforeYear(2023) == base + 365
    requires (e.year == 2022 || e.year == 2023) && 1 <= e.month <= 12 && 1 <= e.day <= DaysInMonth(e.year, e.month)
    requires (if e.year == 2022 then 0 else 365) + DaysBeforeMonth(e.year, e.month) + e.day == 365 + 60 + n
    ensures Shift(start, n) == Some(e)
  {
    ShiftTo(start, n, e);
  }

  /** The code's trend for March 2023: October, November, December, December again,
      January, March. February 2023 never appears, although its expenses belong to the
      last six months. */
  lemma TrendSkipsFebruary2023(start: Date, w: seq<Transaction>)
    requires start == Date(2023, 3, 1)
    ensures Trend(start, w).Some?
    ensures var t := Trend(start, w).value;
            (t[0].year, t[0].month) == (2022, 10) && (t[1].year, t[1].month) == (2022, 11)
            && (t[2].year, t[2].month) == (2022, 12) && (t[3].year, t[3].month) == (2022, 12)
            && (t[4].year, t[4].month) == (2023, 1) && (t[5].year, t[5].month) == (2023, 3)
  {
    StepsBackFromMarch2023(start);
    var t := Trend(start, w).value;
    PointMonth(start, w, 150, t[0], Date(2022, 10, 2));
    PointMonth(start, w, 120, t[1], Date(2022, 11, 1));
    PointMonth(start, w, 90, t[2], Date(2022, 12, 1));
    PointMonth(start, w, 60, t[3], Date(2022, 12, 31));
    PointMonth(start, w, 30, t[4], Date(2023, 1, 30));
  }

  /** A point taken `n` days back lies in the month of the day `n` days back. */
  lemma PointMonth(start: Date, w: seq<Transaction>, n: int, e: TrendEntry, d: Date)
    requires WellFormed(start) && PointFor(start, w, n, e) && Shift(start, -n) == Some(d)
    ensures e.year == d.year && e.month == d.month
  {
  }

  /** The calendar month before (year, month). */
  function PrevMonth(ym: (int, int)): (int, int) {
    if ym.1 == 1 then (ym.0 - 1, 12) else (ym.0, ym.1 - 1)
  }

  /** The month `k` months before month `m` of year `y`, as (year, month). */
  function MonthsBack(y: int, m: int, k: nat): (r: (int, int))
    requires 1 <= m <= 12
    ensures 1 <= r.1 <= 12
    ensures r.0 * 12 + r.1 == y * 12 + m - k
  {
    if k == 0 then (y, m) else PrevMonth(MonthsBack(y, m, k - 1))
  }

  /** `b` is the calendar month right after `a`. */
  predicate Follows(a: TrendEntry, b: TrendEntry) {
    (a.month < 12 && b.year == a.year && b.month == a.month + 1)
    || (a.month == 12 && b.year == a.year + 1 && b.month == 1)
  }

  /** The point for a calendar month: its expenses. */
  function MonthPoint(w: seq<Transaction>, ym: (int, int)): (e: TrendEntry)
    requires 1 <= ym.1 <= 12
    ensures e.year == ym.0 && e.month == ym.1 && e.amount == MonthExpenses(w, ym.0, ym.1)
  {
    TrendEntry(ym.0, ym.1, MonthExpenses(w, ym.0, ym.1))
  }

  /** The six calendar months ending with month `m` of year `y`, oldest first. */
  function LastSixMonths(y: int, m: int): (r: seq<(int, int)>)
    requires 1 <= m <= 12
    ensures |r| == 6 && r[5] == (y, m)
    ensures forall j :: 0 <= j < 6 ==> r[j] == MonthsBack(y, m, 5 - j) && 1 <= r[j].1 <= 12
    ensures forall j :: 0 <= j < 5 ==> r[j] == PrevMonth(r[j + 1])
  {
    seq(6, j requires 0 <= j < 6 => MonthsBack(y, m, 5 - j))
  }

  /** The trend the code evidently intends: the six calendar months ending with the
      requested one, consecutive and each with its own expenses. None only where those
      months reach before year 1, the same requests the code's trend refuses there. */
  function CalendarTrend(y: int, m: int, w: seq<Transaction>): (r: Option<seq<TrendEntry>>)
    requires IsValid(Date(y, m, 1))
    ensures r.Some? <==> !(y == MinYear && m <= 5)
    ensures r.Some? ==> |r.value| == 6 && r.value[5].year == y && r.value[5].month == m
    ensures r.Some? ==> forall j :: 0 <= j < 5 ==> Follows(r.value[j], r.value[j + 1])
    ensures r.Some? ==> forall j :: 0 <= j < 6 ==> MinYear <= r.value[j].year
  {
    if y == MinYear && m <= 5 then None
    else
      var ms := LastSixMonths(y, m);
      assert forall j :: 0 <= j < 6 ==> MinYear <= ms[j].0 by {
        forall j | 0 <= j < 6 ensures MinYear <= ms[j].0 {
          MonthsBackInRange(y, m, 5 - j);
        }
      }
      Some(seq(6, j requires 0 <= j < 6 => MonthPoint(w, ms[j])))
  }

  /** Each point of the intended trend is its own month's, `5 - j` months back, with
      that month's expenses. */
  lemma CalendarTrendAmounts(y: int, m: int, w: seq<Transaction>, j: int)
    requires IsValid(Date(y, m, 1)) && CalendarTrend(y, m, w).Some? && 0 <= j < 6
    ensures var e := CalendarTrend(y, m, w).value[j];
            (e.year, e.month) == MonthsBack(y, m, 5 - j)
            && 1 <= e.month <= 12 && e.amount == MonthExpenses(w, e.year, e.month)
  {
    assert CalendarTrend(y, m, w).value[j] == MonthPoint(w, LastSixMonths(y, m)[j]);
  }

  /** Up to five months back from June of year 1 or later stays in year 1 or later. */
  lemma MonthsBackInRange(y: int, m: int, k: nat)
    requires 1 <= m <= 12 && MinYear <= y && !(y == MinYear && m <= 5) && k <= 5
    ensures MinYear <= MonthsBack(y, m, k).0
  {
  }

  /** For March 2023 the intended trend runs October 2022 to March 2023, February included. */
  lemma CalendarTrendMarch2023(w: seq<Transaction>)
    ensures CalendarTrend(2023, 3, w).Some?
    ensures var t := CalendarTrend(2023, 3, w).value;
            [(t[0].year, t[0].month), (t[1].year, t[1].month), (t[2].year, t[2].month),
             (t[3].year, t[3].month), (t[4].year, t[4].month), (t[5].year, t[5].month)]
            == [(2022, 10), (2022, 11), (2022, 12), (2023, 1), (2023, 2), (2023, 3)]
  {
    var t := CalendarTrend(2023, 3, w).value;
    assert Follows(t[4], t[5]) && Follows(t[3], t[4]) && Follows(t[2], t[3]);
    assert Follows(t[1], t[2]) && Follows(t[0], t[1]);
  }

  datatype SummaryError = InvalidMonth | DateOverflow

  /** The JSON `api_summary` returns: the month, the totals by kind, the category
      breakdown, the trend and the budget. */
  datatype Summary = Summary(
    year: int,
    month: int,
    totals: map<Kind, real>,
    categories: seq<CategoryEntry>,
    trend: seq<TrendEntry>,
    budget: real)

  /** What a summary of month `s.month` of year `s.year` over `txs` holds: the totals of
      that month's rows by kind (expense and income always present), the breakdown of
      that month's rows (one entry per expense category, each with its label and sum, see
      `BreakdownSound` and `BreakdownComplete`, adding up to the expense total), and the
      code's six trend points ending with that month. */
  predicate SummaryOf(s: Summary, txs: seq<Transaction>)
    requires IsValid(Date(s.year, s.month, 1))
  {
    var rows := MonthRows(txs, s.year, s.month);
    s.totals.Keys == {Expense, Income} + KindsOf(rows)
    && (forall k :: k in s.totals ==> s.totals[k] == KindTotal(rows, k))
    && s.categories == Breakdown(rows)
    && |s.categories| == |CategoriesOf(rows)|
    && EntriesTotal(s.categories) == s.totals[Expense]
    && |s.trend| == 6 && s.trend[5].year == s.year && s.trend[5].month == s.month
    && (forall j :: 0 <= j < 6 ==> PointFor(Date(s.year, s.month, 1), txs, 30 * (5 - j), s.trend[j]))
  }

  /** Day 1 of a month lies more than 150 days into the calendar except in January to
      May of year 1. */
  lemma EarlyMonths(y: int, m: int)
    requires IsValid(Date(y, m, 1))
    ensures Ordinal(Date(y, m, 1)) > 150 <==> !(y == MinYear && m <= 5)
  {
    if y > MinYear {
      DaysBeforeYearMonotone(2, y);
    }
  }

  /** `api_summary` for month `m` of year `y`, with the stored monthly budget (None when
      the setting is absent). It fails exactly where Python raises: `date(y, m, 1)` of a
      month that does not exist, the month end of December 9999, and the trend's step
      back before 0001-01-01 for January to May of year 1. */
  function Summarize(y: int, m: int, txs: seq<Transaction>, budget: Option<real>): (r: Result<Summary, SummaryError>)
    ensures r.Err? <==> !IsValid(Date(y, m, 1)) || (y == MaxYear && m == 12) || (y == MinYear && m <= 5)
    ensures r.Err? ==> (r.error == InvalidMonth <==> !IsValid(Date(y, m, 1)))
    ensures r.Ok? ==> r.value.year == y && r.value.month == m && r.value.budget == budget.GetOr(0.0)
    ensures r.Ok? ==> SummaryOf(r.value, txs)
  {
    match MakeDate(y, m, 1)
    case None => Err(InvalidMonth)
    case Some(start) =>
      match MonthEnd(y, m)
      case None => Err(DateOverflow)
      case Some(end) =>
        var win := Window(txs, start, end);
        WindowIsMonthRows(txs, y, m);
        EarlyMonths(y, m);
        match Trend(start, txs)
        case None => Err(DateOverflow)
        case Some(trend) => Ok(Summary(y, m, Totals(win), Breakdown(win), trend, budget.GetOr(0.0)))
  }

  /** The first day of a month lies as many days after the first day of the month before
      as that earlier month has. */
  lemma MonthFirstStep(ym: (int, int))
    requires 1 <= ym.1 <= 12
    ensures var p := PrevMonth(ym);
            Ordinal(Date(ym.0, ym.1, 1)) == Ordinal(Date(p.0, p.1, 1)) + DaysInMonth(p.0, p.1)
  {
    var p := PrevMonth(ym);
    assert FirstOfNextMonth(Date(p.0, p.1, 1)) == Date(ym.0, ym.1, 1);
  }

  /** Any five consecutive months have at least 150 days between them (February to June
      of a common year has exactly 150). */
  lemma FiveMonthsLong(y: int, m: int)
    requires 1 <= m <= 12
    ensures var q1, q2, q3 := MonthsBack(y, m, 1), MonthsBack(y, m, 2), MonthsBack(y, m, 3);
            var q4, q5 := MonthsBack(y, m, 4), MonthsBack(y, m, 5);
            DaysInMonth(q1.0, q1.1) + DaysInMonth(q2.0, q2.1) + DaysInMonth(q3.0, q3.1)
            + DaysInMonth(q4.0, q4.1) + DaysInMonth(q5.0, q5.1) >= 150
  {
    var q1 := MonthsBack(y, m, 1);
    var q2 := MonthsBack(y, m, 2);
    var q3 := MonthsBack(y, m, 3);
    var q4 := MonthsBack(y, m, 4);
    var q5 := MonthsBack(y, m, 5);
    assert q1 == PrevMonth((y, m)) && q2 == PrevMonth(q1) && q3 == PrevMonth(q2);
    assert q4 == PrevMonth(q3) && q5 == PrevMonth(q4);
  }

  /** Day 1 of a month is at least 150 days after day 1 of the month five months back. */
  lemma FiveMonthsBackSpan(y: int, m: int)
    requires 1 <= m <= 12
    ensures var q5 := MonthsBack(y, m, 5);
            Ordinal(Date(y, m, 1)) - Ordinal(Date(q5.0, q5.1, 1)) >= 150
  {
    var q0, q1, q2 := MonthsBack(y, m, 0), MonthsBack(y, m, 1), MonthsBack(y, m, 2);
    var q3, q4, q5 := MonthsBack(y, m, 3), MonthsBack(y, m, 4), MonthsBack(y, m, 5);
    assert q0 == (y, m);
    MonthFirstStep(q0);
    MonthFirstStep(q1);
    MonthFirstStep(q2);
    MonthFirstStep(q3);
    MonthFirstStep(q4);
    FiveMonthsLong(y, m);
  }

  /** Two (year, month) pairs with the same month count are the same month. */
  lemma SameMonthIndex(a: (int, int), b: (int, int))
    requires 1 <= a.1 <= 12 && 1 <= b.1 <= 12 && a.0 * 12 + a.1 == b.0 * 12 + b.1
    ensures a == b
  {
  }

  /** A point of the code's trend taken at most 150 days back falls in one of the six
      calendar months ending with the requested one. */
  lemma PointInLastSixMonths(y: int, m: int, w: seq<Transaction>, n: int, e: TrendEntry)
    requires IsValid(Date(y, m, 1)) && 0 <= n <= 150 && PointFor(Date(y, m, 1), w, n, e)
    ensures exists k :: 0 <= k <= 5 && (e.year, e.month) == MonthsBack(y, m, k)
  {
    var start := Date(y, m, 1);
    var d := Shift(start, -n).value;
    var q5 := MonthsBack(y, m, 5);
    var f := Date(q5.0, q5.1, 1);
    FiveMonthsBackSpan(y, m);
    OrdinalOrder(f, d);
    OrdinalOrder(d, start);
    assert AtOrBefore(f, d) && AtOrBefore(d, start);
    var k := y * 12 + m - (d.year * 12 + d.month);
    assert 0 <= k <= 5 by {
      if d.year < y {
        assert d.year * 12 + 12 <= y * 12;
      }
      if q5.0 < d.year {
        assert q5.0 * 12 + 12 <= d.year * 12;
      }
    }
    SameMonthIndex((e.year, e.month), MonthsBack(y, m, k));
  }

  /** The code's trend never leaves the last six calendar months: each of its points is
      a point of the intended trend, with the same expenses. Only which months appear,
      and how often, differs. */
  lemma TrendWithinCalendarMonths(y: int, m: int, w: seq<Transaction>)
    requires IsValid(Date(y, m, 1)) && !(y == MinYear && m <= 5) && !(y == MaxYear && m == 12)
    ensures Trend(Date(y, m, 1), w).Some? && CalendarTrend(y, m, w).Some?
    ensures forall j :: 0 <= j < 6 ==> Trend(Date(y, m, 1), w).value[j] in CalendarTrend(y, m, w).value
  {
    var start := Date(y, m, 1);
    var t := Trend(start, w).value;
    EarlyMonths(y, m);
    var c := CalendarTrend(y, m, w).value;
    forall j | 0 <= j < 6 ensures t[j] in c {
      PointInLastSixMonths(y, m, w, 30 * (5 - j), t[j]);
      var k :| 0 <= k <= 5 && (t[j].year, t[j].month) == MonthsBack(y, m, k);
      CalendarTrendAmounts(y, m, w, 5 - k);
      assert c[5 - k] == t[j];
    }
  }

  /** February 2024 has 29 days: a summary of that month counts an expense on the 29th
      and leaves out one on 1 March, and shows no income. */
  lemma LeapFebruarySummary()
    ensures var txs := [Transaction(Expense, "Rent", 10.0, None, Date(2024, 2, 1), ""),
                        Transaction(Expense, "Cab", 5.0, Some("Transport"), Date(2024, 2, 29), ""),
                        Transaction(Expense, "Bus", 7.0, Some("Transport"), Date(2024, 3, 1), "")];
            var r := Summarize(2024, 2, txs, None);
            r.Ok? && r.value.totals[Expense] == 15.0 && r.value.totals[Income] == 0.0 && r.value.budget == 0.0
  {
    var a := Transaction(Expense, "Rent", 10.0, None, Date(2024, 2, 1), "");
    var b := Transaction(Expense, "Cab", 5.0, Some("Transport"), Date(2024, 2, 29), "");
    var c := Transaction(Expense, "Bus", 7.0, Some("Transport"), Date(2024, 3, 1), "");
    EarlyMonths(2024, 2);
    LeapFebruaryRows(a, b, c);
    LeapFebruaryTotals(a, b);
  }

  lemma LeapFebruaryRows(a: Transaction, b: Transaction, c: Transaction)
    requires a.date == Date(2024, 2, 1) && b.date == Date(2024, 2, 29) && c.date == Date(2024, 3, 1)
    ensures MonthRows([a, b, c], 2024, 2) == [a, b]
  {
    assert DaysInMonth(2024, 2) == 29;
    assert InMonth(a.date, 2024, 2) && InMonth(b.date, 2024, 2) && !InMonth(c.date, 2024, 2);
    assert [a, b, c][..2] == [a, b] && [a, b][..1] == [a] && [a][..0] == [];
    assert MonthRows([], 2024, 2) == [];
    assert MonthRows([a], 2024, 2) == [a];
    assert MonthRows([a, b], 2024, 2) == [a, b];
  }

  lemma LeapFebruaryTotals(a: Transaction, b: Transaction)
    requires a.kind == Expense && a.amount == 10.0 && b.kind == Expense && b.amount == 5.0
    ensures KindTotal([a, b], Expense) == 15.0 && KindTotal([a, b], Income) == 0.0
  {
    assert [a, b][..1] == [a] && [a][..0] == [];
    assert KindTotal([a], Expense) == 10.0 && KindTotal([a], Income) == 0.0;
  }

  /** A month's expenses are the expense total of that month's rows. */
  lemma {:induction false} MonthExpensesOfRows(w: seq<Transaction>, y: int, m: int)
    requires 1 <= m <= 12
    ensures MonthExpenses(w, y, m) == KindTotal(MonthRows(w, y, m), Expense)
  {
    if |w| > 0 {
      var init, t := w[..|w| - 1], w[|w| - 1];
      var a := MonthRows(init, y, m);
      MonthExpensesOfRows(init, y, m);
      if InMonth(t.date, y, m) {
        assert (a + [t])[..|a|] == a;
      } else {
        assert a + [] == a;
      }
    }
  }

  /** Each trend point holds what a summary of its own month reports as that month's
      expense total. */
  lemma TrendAgreesWithMonthSummaries(y: int, m: int, txs: seq<Transaction>, budget: Option<real>, j: int)
    requires IsValid(Date(y, m, 1)) && !(y == MaxYear && m == 12) && !(y == MinYear && m <= 5)
    requires 0 <= j < 6
    ensures Summarize(y, m, txs, budget).Ok?
    ensures var e := Summarize(y, m, txs, budget).value.trend[j];
            Summarize(e.year, e.month, txs, budget).Ok? ==>
              Summarize(e.year, e.month, txs, budget).value.totals[Expense] == e.amount
  {
    var e := Summarize(y, m, txs, budget).value.trend[j];
    MonthExpensesOfRows(txs, e.year, e.month);
  }
}
