/** The recurrence catch-up engine (`api_run_recurring`): every active template
    materialises one transaction per due date up to the reference date ("today"), then
    its next date is written back, one cadence step past the last one created. */
module Recurrence {
  import opened Wrappers
  import opened Calendar
  import opened Ledger

  /** The `notes` text of every materialised transaction. */
  const RecurringNote: string := "recurring"
  /** A monthly step never lands on a day later than this. */
  const MonthlyDayCap: int := 28

  /** Why a run is abandoned (Python raises, and nothing of the run is committed):
      a stored next date that does not parse, or a step past year 9999. */
  datatype RunError = InvalidNextDate(templateId: int) | DateOverflow(templateId: int)

  /** The due dates of one template and the next date written back for it. */
  datatype Schedule = Schedule(dates: seq<Date>, next: Date)

  /** The updated templates of a run and the transactions it creates, in order. */
  datatype RunOutput = RunOutput(created: seq<Transaction>, templates: seq<Template>)

  /** One cadence step. Weekly adds seven days; monthly moves to the next month (December
      to January of the next year) on day `min(day, 28)`. None where Python raises
      because the result would lie after 9999-12-31. */
  function Advance(c: Cadence, d: Date): (r: Option<Date>)
    requires IsValid(d)
    ensures r.Some? ==> IsValid(r.value) && Before(d, r.value)
    ensures c == Weekly ==> (r.Some? <==> Ordinal(d) + 7 <= MaxOrdinal)
    ensures c == Weekly && r.Some? ==> Ordinal(r.value) == Ordinal(d) + 7
    ensures c == Monthly ==> (r.Some? <==> d.month < 12 || d.year < MaxYear)
    ensures c == Monthly && r.Some? ==>
              r.value.day == (if d.day < MonthlyDayCap then d.day else MonthlyDayCap)
              && (d.month < 12 ==> r.value.year == d.year && r.value.month == d.month + 1)
              && (d.month == 12 ==> r.value.year == d.year + 1 && r.value.month == 1)
  {
    match c
    case Weekly =>
      InRangeByOrdinal(d);
      Shift(d, 7)
    case Monthly =>
      var m := d.month + 1;
      var y := d.year + (m - 1) / 12;
      MakeDate(y, (m - 1) % 12 + 1, if d.day < MonthlyDayCap then d.day else MonthlyDayCap)
  }

  /** `dates` followed by `next` is a run of consecutive cadence steps: each date is
      valid and one step takes it to the following one. */
  predicate StepsTo(c: Cadence, dates: seq<Date>, next: Date)
    decreases |dates|
  {
    |dates| == 0
    || (IsValid(dates[0]) && Advance(c, dates[0]) == Some(if |dates| > 1 then dates[1] else next)
        && StepsTo(c, dates[1..], next))
  }

  /** The inner `while next_d <= today` loop for one template, starting at `d`: the due
      dates are the steps from `d` that are not after `ref`, and the next date is the
      first step after `ref`. None where a step overflows. */
  function CatchUp(c: Cadence, d: Date, ref: Date): (r: Option<Schedule>)
    requires IsValid(d) && IsValid(ref)
    ensures r.Some? ==> IsValid(r.value.next) && Before(ref, r.value.next) && AtOrBefore(d, r.value.next)
    ensures r.Some? ==> (r.value.dates == [] <==> Before(ref, d))
    ensures r.Some? && r.value.dates == [] ==> r.value.next == d
    ensures r.Some? && r.value.dates != [] ==> r.value.dates[0] == d
    ensures r.Some? && r.value.dates != [] ==> AtOrBefore(r.value.dates[|r.value.dates| - 1], ref)
    ensures r.Some? ==> StepsTo(c, r.value.dates, r.value.next)
    decreases ref.year - d.year, 12 - d.month, 31 - d.day
  {
    if Before(ref, d) then Some(Schedule([], d))
    else
      match Advance(c, d)
      case None => None
      case Some(n) =>
        match CatchUp(c, n, ref)
        case None => None
        case Some(s) =>
          StepsPrepend(c, d, n, s.dates, s.next);
          Some(Schedule([d] + s.dates, s.next))
  }

  /** A step from `d` to the start of a run of steps extends the run back to `d`. */
  lemma StepsPrepend(c: Cadence, d: Date, n: Date, dates: seq<Date>, next: Date)
    requires IsValid(d) && Advance(c, d) == Some(n) && StepsTo(c, dates, next)
    requires dates == [] ==> next == n
    requires dates != [] ==> dates[0] == n
    ensures StepsTo(c, [d] + dates, next)
  {
    var ds := [d] + dates;
    assert ds[0] == d && ds[1..] == dates;
  }

  /** Each date of a run is valid and steps to the date after it, or to `next` for the last. */
  lemma StepAt(c: Cadence, dates: seq<Date>, next: Date, j: int)
    requires StepsTo(c, dates, next) && 0 <= j < |dates|
    ensures IsValid(dates[j]) && Advance(c, dates[j]) == Some(if j + 1 < |dates| then dates[j + 1] else next)
  {
    StepsSuffix(c, dates, next, j);
    var xs := dates[j..];
    assert xs[0] == dates[j];
    assert j + 1 < |dates| ==> |xs| > 1 && xs[1] == dates[j + 1];
  }

  /** What is left of a run after its first `j` dates is still a run. */
  lemma {:induction false} StepsSuffix(c: Cadence, dates: seq<Date>, next: Date, j: int)
    requires StepsTo(c, dates, next) && 0 <= j <= |dates|
    ensures StepsTo(c, dates[j..], next)
    decreases j
  {
    if j > 0 {
      StepsSuffix(c, dates[1..], next, j - 1);
      assert dates[1..][j - 1..] == dates[j..];
    }
  }

  /** Along a run of cadence steps the dates strictly increase, and every one of them is
      before the date the run ends on. */
  lemma {:induction false} StepsIncrease(c: Cadence, dates: seq<Date>, next: Date, i: int)
    requires StepsTo(c, dates, next) && 0 <= i < |dates|
    ensures forall j :: i < j < |dates| ==> Before(dates[i], dates[j])
    ensures Before(dates[i], next)
    decreases |dates| - i
  {
    StepBefore(c, dates, next, i);
    if i + 1 < |dates| {
      StepsIncrease(c, dates, next, i + 1);
      forall j | i + 1 < j < |dates| ensures Before(dates[i], dates[j]) {
        BeforeTransitive(dates[i], dates[i + 1], dates[j]);
      }
      BeforeTransitive(dates[i], dates[i + 1], next);
    }
  }

  /** Each date of a run is before the one it steps to. */
  lemma StepBefore(c: Cadence, dates: seq<Date>, next: Date, i: int)
    requires StepsTo(c, dates, next) && 0 <= i < |dates|
    ensures Before(dates[i], if i + 1 < |dates| then dates[i + 1] else next)
  {
    StepAt(c, dates, next, i);
  }

  /** The dates created for one template strictly increase and each lies in
      [original next date, reference date]; the written-back date is after all of them. */
  lemma CatchUpOrdered(c: Cadence, d: Date, ref: Date)
    requires IsValid(d) && IsValid(ref) && CatchUp(c, d, ref).Some?
    ensures var s := CatchUp(c, d, ref).value;
            forall i, j :: 0 <= i < j < |s.dates| ==> Before(s.dates[i], s.dates[j])
    ensures var s := CatchUp(c, d, ref).value;
            forall i :: 0 <= i < |s.dates| ==>
              AtOrBefore(d, s.dates[i]) && AtOrBefore(s.dates[i], ref) && Before(s.dates[i], s.next)
  {
    var s := CatchUp(c, d, ref).value;
    forall i | 0 <= i < |s.dates|
      ensures (forall j :: i < j < |s.dates| ==> Before(s.dates[i], s.dates[j]))
              && AtOrBefore(d, s.dates[i]) && AtOrBefore(s.dates[i], ref) && Before(s.dates[i], s.next)
    {
      StepsIncrease(c, s.dates, s.next, i);
      if i > 0 {
        StepsIncrease(c, s.dates, s.next, 0);
      }
      if i < |s.dates| - 1 {
        StepsIncrease(c, s.dates, s.next, i);
      }
    }
  }

  /** The transaction created for template `t` on date `d`: kind, title, amount and
      category copied, the date set, and the notes marking it as recurring. */
  function Instance(t: Template, d: Date): Transaction {
    Transaction(t.kind, t.title, t.amount, t.category, d, RecurringNote)
  }

  function Materialize(t: Template, dates: seq<Date>): (r: seq<Transaction>)
    ensures |r| == |dates|
    ensures forall i :: 0 <= i < |r| ==> r[i] == Instance(t, dates[i])
  {
    seq(|dates|, i requires 0 <= i < |dates| => Instance(t, dates[i]))
  }

  /** One iteration of the outer loop, for an active template: it fails exactly when the
      stored date does not parse or a step overflows; otherwise it makes one transaction
      per due date, in order, and the template comes back with only its next date
      changed, to the catch-up's next date, which lies after the reference date. */
  function ProcessTemplate(t: Template, ref: Date): (r: Result<(seq<Transaction>, Template), RunError>)
    requires IsValid(ref)
    ensures r.Ok? <==> IsValid(t.nextDate) && CatchUp(t.cadence, t.nextDate, ref).Some?
    ensures r.Err? ==> r.error == (if IsValid(t.nextDate) then DateOverflow(t.id) else InvalidNextDate(t.id))
    ensures r.Ok? ==> var s := CatchUp(t.cadence, t.nextDate, ref).value;
            r.value.0 == Materialize(t, s.dates) && |r.value.0| == |s.dates|
            && r.value.1 == t.(nextDate := s.next) && Before(ref, r.value.1.nextDate)
  {
    if !IsValid(t.nextDate) then Err(InvalidNextDate(t.id))
    else
      match CatchUp(t.cadence, t.nextDate, ref)
      case None => Err(DateOverflow(t.id))
      case Some(s) => Ok((Materialize(t, s.dates), t.(nextDate := s.next)))
  }

  /** What a run does to one template: an inactive one is left exactly as it was; an
      active one changes only its next date, which moves forward to a valid date after
      the reference date, and stays put when it was already after it. */
  predicate Advanced(before: Template, after: Template, ref: Date) {
    if !before.active then after == before
    else
      after == before.(nextDate := after.nextDate)
      && IsValid(after.nextDate) && Before(ref, after.nextDate)
      && AtOrBefore(before.nextDate, after.nextDate)
      && (Before(ref, before.nextDate) ==> after.nextDate == before.nextDate)
  }

  /** Transaction `x` was materialised from the active template at index `i`: a copy of
      it dated in [its old next date, the reference date], before its new next date. */
  predicate MaterializedFrom(x: Transaction, ts: seq<Template>, us: seq<Template>, ref: Date, i: int) {
    0 <= i < |ts| && i < |us| && ts[i].active
    && x == Instance(ts[i], x.date)
    && AtOrBefore(ts[i].nextDate, x.date) && AtOrBefore(x.date, ref)
    && Before(x.date, us[i].nextDate)
  }

  /** Transaction `x` was materialised from one of the active templates `ts`. */
  predicate FromSomeTemplate(x: Transaction, ts: seq<Template>, us: seq<Template>, ref: Date) {
    exists i :: 0 <= i < |ts| && MaterializedFrom(x, ts, us, ref, i)
  }

  /** `api_run_recurring` with "today" as `ref`. It fails, writing nothing, exactly when
      some active template fails; otherwise every template is advanced as `Advanced`
      says and every created transaction comes from an active template. */
  function Run(ref: Date, ts: seq<Template>): (r: Result<RunOutput, RunError>)
    requires IsValid(ref)
    ensures r.Err? <==> exists i :: 0 <= i < |ts| && ts[i].active && ProcessTemplate(ts[i], ref).Err?
    ensures r.Ok? ==> |r.value.templates| == |ts|
    ensures r.Ok? ==> forall i :: 0 <= i < |ts| ==> Advanced(ts[i], r.value.templates[i], ref)
    ensures r.Ok? ==> forall k :: 0 <= k < |r.value.created| ==>
              FromSomeTemplate(r.value.created[k], ts, r.value.templates, ref)
  {
    if |ts| == 0 then Ok(RunOutput([], []))
    else
      var t := ts[0];
      var first := ProcessTemplate(t, ref);
      if t.active && first.Err? then Err(first.error)
      else
        match Run(ref, ts[1..])
        case Err(e) =>
          Err(e)
        case Ok(o) =>
          var (made, u) := if t.active then first.value else ([], t);
          RunStep(ref, ts, made, u, o.created, o.templates);
          Ok(RunOutput(made + o.created, [u] + o.templates))
  }

  /** One step of `Run`: the first template's outcome put in front of the rest's. */
  lemma RunStep(ref: Date, ts: seq<Template>, made: seq<Transaction>, u: Template,
                rest: seq<Transaction>, us: seq<Template>)
    requires IsValid(ref) && |ts| > 0 && |us| == |ts| - 1
    requires !ts[0].active ==> u == ts[0] && made == []
    requires ts[0].active ==> ProcessTemplate(ts[0], ref) == Ok((made, u))
    requires forall i :: 0 <= i < |ts| - 1 ==> Advanced(ts[1..][i], us[i], ref)
    requires forall k :: 0 <= k < |rest| ==> FromSomeTemplate(rest[k], ts[1..], us, ref)
    ensures forall i :: 0 <= i < |ts| ==> Advanced(ts[i], ([u] + us)[i], ref)
    ensures forall k :: 0 <= k < |made + rest| ==> FromSomeTemplate((made + rest)[k], ts, [u] + us, ref)
  {
    if ts[0].active {
      FirstTemplateCreated(ref, ts, u, us);
    }
    PrependCreated(ref, ts, u, us, made, rest);
    PrependAdvanced(ref, ts, u, us);
  }

  /** The first template is advanced as `Advanced` says. */
  lemma PrependAdvanced(ref: Date, ts: seq<Template>, u: Template, us: seq<Template>)
    requires IsValid(ref) && |ts| > 0 && |us| == |ts| - 1
    requires !ts[0].active ==> u == ts[0]
    requires ts[0].active ==> ProcessTemplate(ts[0], ref).Ok? && u == ProcessTemplate(ts[0], ref).value.1
    requires forall i :: 0 <= i < |ts| - 1 ==> Advanced(ts[1..][i], us[i], ref)
    ensures forall i :: 0 <= i < |ts| ==> Advanced(ts[i], ([u] + us)[i], ref)
  {
    forall i | 0 <= i < |ts|
      ensures Advanced(ts[i], ([u] + us)[i], ref)
    {
      if i > 0 {
        assert ts[i] == ts[1..][i - 1];
      }
    }
  }

  /** The transactions made for the first template come from it. */
  lemma FirstTemplateCreated(ref: Date, ts: seq<Template>, u: Template, us: seq<Template>)
    requires IsValid(ref) && |ts| > 0 && ts[0].active
    requires ProcessTemplate(ts[0], ref).Ok?
    requires u == ProcessTemplate(ts[0], ref).value.1
    ensures var made := ProcessTemplate(ts[0], ref).value.0;
            forall k :: 0 <= k < |made| ==> MaterializedFrom(made[k], ts, [u] + us, ref, 0)
  {
    var t := ts[0];
    var s := CatchUp(t.cadence, t.nextDate, ref).value;
    CatchUpOrdered(t.cadence, t.nextDate, ref);
    var made := ProcessTemplate(t, ref).value.0;
    forall k | 0 <= k < |made|
      ensures MaterializedFrom(made[k], ts, [u] + us, ref, 0)
    {
      assert made[k] == Instance(t, s.dates[k]);
      assert ([u] + us)[0] == u;
    }
  }

  /** Witnesses for the rest of the templates shift by one past the first. */
  lemma PrependCreated(ref: Date, ts: seq<Template>, u: Template, us: seq<Template>,
                       made: seq<Transaction>, rest: seq<Transaction>)
    requires |ts| > 0 && |us| == |ts| - 1
    requires forall k :: 0 <= k < |made| ==> MaterializedFrom(made[k], ts, [u] + us, ref, 0)
    requires forall k :: 0 <= k < |rest| ==> FromSomeTemplate(rest[k], ts[1..], us, ref)
    ensures forall k :: 0 <= k < |made + rest| ==> FromSomeTemplate((made + rest)[k], ts, [u] + us, ref)
  {
    var all := made + rest;
    forall k | 0 <= k < |all|
      ensures FromSomeTemplate(all[k], ts, [u] + us, ref)
    {
      if k < |made| {
        assert all[k] == made[k];
        assert MaterializedFrom(all[k], ts, [u] + us, ref, 0);
      } else {
        assert all[k] == rest[k - |made|];
        assert FromSomeTemplate(rest[k - |made|], ts[1..], us, ref);
        var i :| 0 <= i < |ts[1..]| && MaterializedFrom(rest[k - |made|], ts[1..], us, ref, i);
        assert ts[1..][i] == ts[i + 1] && ([u] + us)[i + 1] == us[i];
        assert MaterializedFrom(all[k], ts, [u] + us, ref, i + 1);
      }
    }
  }

  /** Before the last representable year no step overflows, so a template with a valid
      next date always catches up. */
  lemma {:induction false} CatchUpSucceedsBeforeLastYear(c: Cadence, d: Date, ref: Date)
    requires IsValid(d) && IsValid(ref) && ref.year < MaxYear
    ensures CatchUp(c, d, ref).Some?
    decreases ref.year - d.year, 12 - d.month, 31 - d.day
  {
    if !Before(ref, d) {
      OrdinalWithinYear(d);
      DaysBeforeYearMonotone(d.year + 1, MaxYear);
      assert DaysBeforeYear(MaxYear) + 365 == MaxOrdinal;
      var n := Advance(c, d).value;
      CatchUpSucceedsBeforeLastYear(c, n, ref);
    }
  }

  /** A second run with the same reference date creates nothing and changes nothing. */
  lemma {:induction false} RunIdempotent(ref: Date, ts: seq<Template>)
    requires IsValid(ref) && Run(ref, ts).Ok?
    ensures Run(ref, Run(ref, ts).value.templates) == Ok(RunOutput([], Run(ref, ts).value.templates))
  {
    if |ts| > 0 {
      var us := Run(ref, ts).value.templates;
      var rest := Run(ref, ts[1..]).value.templates;
      RunIdempotent(ref, ts[1..]);
      assert us[1..] == rest;
      assert Advanced(ts[0], us[0], ref);
      if us[0].active {
        assert CatchUp(us[0].cadence, us[0].nextDate, ref) == Some(Schedule([], us[0].nextDate));
        assert ProcessTemplate(us[0], ref) == Ok(([], us[0]));
      }
      assert [us[0]] + us[1..] == us;
      var none: seq<Transaction> := [];
      assert none + none == none;
    }
  }

  /** Every due date of every active template is materialised: nothing the catch-up loop
      reaches is dropped from the run's output. */
  lemma RunCreatesEveryDueDate(ref: Date, ts: seq<Template>, i: int, j: int)
    requires IsValid(ref) && Run(ref, ts).Ok?
    requires 0 <= i < |ts| && ts[i].active
    requires IsValid(ts[i].nextDate) && CatchUp(ts[i].cadence, ts[i].nextDate, ref).Some?
    requires 0 <= j < |CatchUp(ts[i].cadence, ts[i].nextDate, ref).value.dates|
    ensures Instance(ts[i], CatchUp(ts[i].cadence, ts[i].nextDate, ref).value.dates[j]) in Run(ref, ts).value.created
  {
    var made := TemplateMakes(ts[i], ref);
    assert made[j] in made;
    RunIncludes(ref, ts, i, made[j]);
  }

  /** An active template whose next date is valid and whose catch-up succeeds makes one
      transaction per due date. */
  lemma TemplateMakes(t: Template, ref: Date) returns (made: seq<Transaction>)
    requires IsValid(ref) && IsValid(t.nextDate) && CatchUp(t.cadence, t.nextDate, ref).Some?
    ensures ProcessTemplate(t, ref).Ok? && ProcessTemplate(t, ref).value.0 == made
    ensures made == Materialize(t, CatchUp(t.cadence, t.nextDate, ref).value.dates)
  {
    made := Materialize(t, CatchUp(t.cadence, t.nextDate, ref).value.dates);
  }

  /** What an active template makes is part of the run's output. */
  lemma {:induction false} RunIncludes(ref: Date, ts: seq<Template>, i: int, x: Transaction)
    requires IsValid(ref) && Run(ref, ts).Ok? && 0 <= i < |ts| && ts[i].active
    requires ProcessTemplate(ts[i], ref).Ok? && x in ProcessTemplate(ts[i], ref).value.0
    ensures x in Run(ref, ts).value.created
  {
    var made := RunCreatedSplit(ref, ts);
    var rest := Run(ref, ts[1..]).value.created;
    if i == 0 {
      assert x in made;
    } else {
      assert ts[1..][i - 1] == ts[i];
      RunIncludes(ref, ts[1..], i - 1, x);
      assert x in rest;
    }
    assert x in made + rest;
  }

  /** The transactions of a run: the first template's, then those of the rest. */
  lemma RunCreatedSplit(ref: Date, ts: seq<Template>) returns (made: seq<Transaction>)
    requires IsValid(ref) && Run(ref, ts).Ok? && |ts| > 0
    ensures Run(ref, ts[1..]).Ok?
    ensures Run(ref, ts).value.created == made + Run(ref, ts[1..]).value.created
    ensures !ts[0].active ==> made == []
    ensures ts[0].active ==> ProcessTemplate(ts[0], ref).Ok? && made == ProcessTemplate(ts[0], ref).value.0
  {
    made := if ts[0].active then ProcessTemplate(ts[0], ref).value.0 else [];
  }

  /** The due dates of one template, as its catch-up loop finds them: none for an inactive
      template, or for one whose catch-up fails. */
  function DueDatesOf(t: Template, ref: Date): seq<Date>
    requires IsValid(ref)
  {
    if t.active && IsValid(t.nextDate) && CatchUp(t.cadence, t.nextDate, ref).Some?
    then CatchUp(t.cadence, t.nextDate, ref).value.dates
    else []
  }

  /** Every template's due dates, template after template. */
  function DueDates(ref: Date, ts: seq<Template>): seq<Date>
    requires IsValid(ref)
  {
    if |ts| == 0 then [] else DueDatesOf(ts[0], ref) + DueDates(ref, ts[1..])
  }

  /** Every template's transactions, one per due date, template after template. */
  function DueTransactions(ref: Date, ts: seq<Template>): seq<Transaction>
    requires IsValid(ref)
  {
    if |ts| == 0 then [] else Materialize(ts[0], DueDatesOf(ts[0], ref)) + DueTransactions(ref, ts[1..])
  }

  /** A successful run creates exactly the due transactions: each active template's
      transactions, one per due date in date order, template after template, and
      nothing else. */
  lemma {:induction false} RunCreatesDue(ref: Date, ts: seq<Template>)
    requires IsValid(ref) && Run(ref, ts).Ok?
    ensures Run(ref, ts).value.created == DueTransactions(ref, ts)
  {
    if |ts| > 0 {
      var made := RunCreatedSplit(ref, ts);
      RunCreatesDue(ref, ts[1..]);
      assert made == Materialize(ts[0], DueDatesOf(ts[0], ref));
    }
  }

  /** What a successful run writes back for template `i`: an inactive template is
      unchanged; an active one gets the catch-up's next date, one cadence step past its
      last due date, and nothing else changes. */
  lemma {:induction false} RunWritesBack(ref: Date, ts: seq<Template>, i: int)
    requires IsValid(ref) && Run(ref, ts).Ok? && 0 <= i < |ts|
    ensures !ts[i].active ==> Run(ref, ts).value.templates[i] == ts[i]
    ensures ts[i].active ==> IsValid(ts[i].nextDate) && CatchUp(ts[i].cadence, ts[i].nextDate, ref).Some?
    ensures ts[i].active ==>
              Run(ref, ts).value.templates[i] == ts[i].(nextDate := CatchUp(ts[i].cadence, ts[i].nextDate, ref).value.next)
    decreases i
  {
    var u := RunTemplatesSplit(ref, ts);
    if i > 0 {
      RunWritesBack(ref, ts[1..], i - 1);
      assert ts[1..][i - 1] == ts[i];
    }
  }

  /** The templates of a run: the first template's outcome, then those of the rest. */
  lemma RunTemplatesSplit(ref: Date, ts: seq<Template>) returns (u: Template)
    requires IsValid(ref) && Run(ref, ts).Ok? && |ts| > 0
    ensures Run(ref, ts[1..]).Ok?
    ensures Run(ref, ts).value.templates == [u] + Run(ref, ts[1..]).value.templates
    ensures !ts[0].active ==> u == ts[0]
    ensures ts[0].active ==> ProcessTemplate(ts[0], ref).Ok? && u == ProcessTemplate(ts[0], ref).value.1
  {
    u := if ts[0].active then ProcessTemplate(ts[0], ref).value.1 else ts[0];
  }

  /** The dates of a sequence of transactions, in order. */
  function DatesOf(xs: seq<Transaction>): (r: seq<Date>)
    ensures |r| == |xs|
    ensures forall k :: 0 <= k < |r| ==> r[k] == xs[k].date
  {
    seq(|xs|, k requires 0 <= k < |xs| => xs[k].date)
  }

  /** The dates reported back to the caller (`created_dates`), in creation order. */
  function CreatedDates(o: RunOutput): (r: seq<Date>)
    ensures |r| == |o.created|
    ensures forall k :: 0 <= k < |r| ==> r[k] == o.created[k].date
  {
    DatesOf(o.created)
  }

  /** The created transactions carry their due dates. */
  lemma {:induction false} DueTransactionDates(ref: Date, ts: seq<Template>)
    requires IsValid(ref)
    ensures DatesOf(DueTransactions(ref, ts)) == DueDates(ref, ts)
  {
    if |ts| > 0 {
      var ds := DueDatesOf(ts[0], ref);
      DueTransactionDates(ref, ts[1..]);
      DatesOfMaterialize(ts[0], ds);
      DatesOfAppend(Materialize(ts[0], ds), DueTransactions(ref, ts[1..]));
    }
  }

  lemma DatesOfMaterialize(t: Template, ds: seq<Date>)
    ensures DatesOf(Materialize(t, ds)) == ds
  {
  }

  lemma DatesOfAppend(a: seq<Transaction>, b: seq<Transaction>)
    ensures DatesOf(a + b) == DatesOf(a) + DatesOf(b)
  {
  }

  /** `created_dates` lists every due date of every active template, template after
      template, each once: as many dates as the catch-up loops took steps. */
  lemma RunCreatedDates(ref: Date, ts: seq<Template>)
    requires IsValid(ref) && Run(ref, ts).Ok?
    ensures CreatedDates(Run(ref, ts).value) == DueDates(ref, ts)
  {
    RunCreatesDue(ref, ts);
    DueTransactionDates(ref, ts);
  }

  /** A monthly template due 2024-01-15, caught up on 2024-04-01, yields the 15th of
      January, February and March, and next falls due on 2024-04-15. */
  lemma MonthlyCatchUpExample()
    ensures CatchUp(Monthly, Date(2024, 1, 15), Date(2024, 4, 1))
            == Some(Schedule([Date(2024, 1, 15), Date(2024, 2, 15), Date(2024, 3, 15)], Date(2024, 4, 15)))
  {
    var ref := Date(2024, 4, 1);
    var d1, d2, d3, d4 := Date(2024, 1, 15), Date(2024, 2, 15), Date(2024, 3, 15), Date(2024, 4, 15);
    assert Advance(Monthly, d1) == Some(d2);
    assert Advance(Monthly, d2) == Some(d3);
    assert Advance(Monthly, d3) == Some(d4);
    assert CatchUp(Monthly, d4, ref) == Some(Schedule([], d4));
    assert [d3] + [] == [d3];
    assert CatchUp(Monthly, d3, ref) == Some(Schedule([d3], d4));
    assert [d2] + [d3] == [d2, d3];
    assert CatchUp(Monthly, d2, ref) == Some(Schedule([d2, d3], d4));
    assert [d1] + [d2, d3] == [d1, d2, d3];
  }

  /** The day clamp: a template due on the 31st next falls due on the 28th, also across
      the year end. */
  lemma MonthlyClampExample()
    ensures Advance(Monthly, Date(2024, 1, 31)) == Some(Date(2024, 2, 28))
    ensures Advance(Monthly, Date(2024, 12, 31)) == Some(Date(2025, 1, 28))
  {
  }

  /** A weekly step across the end of a leap-year February. */
  lemma WeeklyExample()
    ensures Advance(Weekly, Date(2024, 2, 26)) == Some(Date(2024, 3, 4))
  {
  }
}
