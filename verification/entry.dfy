/** Building a transaction from an add-expense request body (`api_add_expense`):
    defaults for the missing fields, auto-categorisation, and the one validation rule. */
module Entry {
  import opened Wrappers
  import opened Calendar
  import opened Classify
  import opened Ledger

  /** The JSON body, one Option per key (None when the key is absent or falsy where the
      code uses `or`). The amount is already a number and the date already a date. */
  datatype Payload = Payload(
    title: Option<string>,
    amount: Option<real>,
    kind: Option<string>,
    category: Option<string>,
    date: Option<Date>,
    notes: Option<string>)

  datatype EntryError = TitleAndAmountRequired

  /** The characters Python's `str.strip()` removes (`str.isspace`). */
  predicate IsSpace(c: char) {
    var n := c as int;
    (0x09 <= n <= 0x0D) || (0x1C <= n <= 0x20) || n == 0x85 || n == 0xA0 || n == 0x1680
    || (0x2000 <= n <= 0x200A) || n == 0x2028 || n == 0x2029 || n == 0x202F || n == 0x205F
    || n == 0x3000
  }

  /** The number of whitespace characters `s` starts with. */
  function LeadingSpaces(s: string): (n: nat)
    ensures n <= |s|
    ensures forall k :: 0 <= k < n ==> IsSpace(s[k])
    ensures n < |s| ==> !IsSpace(s[n])
  {
    if |s| == 0 || !IsSpace(s[0]) then 0 else 1 + LeadingSpaces(s[1..])
  }

  /** The end of `s` once its trailing whitespace is dropped, never below `lo`. */
  function TrailingStart(s: string, lo: nat): (n: nat)
    requires lo <= |s|
    ensures lo <= n <= |s|
    ensures forall k :: n <= k < |s| ==> IsSpace(s[k])
    ensures n > lo ==> !IsSpace(s[n - 1])
    decreases |s|
  {
    if |s| == lo || !IsSpace(s[|s| - 1]) then |s| else TrailingStart(s[..|s| - 1], lo)
  }

  /** `str.strip()`: the middle of `s` between leading and trailing whitespace. */
  function Strip(s: string): (r: string)
    ensures |r| <= |s|
    ensures var lo := LeadingSpaces(s);
            lo + |r| <= |s| && r == s[lo..lo + |r|]
            && (forall k :: 0 <= k < lo ==> IsSpace(s[k]))
            && (forall k :: lo + |r| <= k < |s| ==> IsSpace(s[k]))
    ensures |r| > 0 ==> !IsSpace(r[0]) && !IsSpace(r[|r| - 1])
  {
    var lo := LeadingSpaces(s);
    s[lo..TrailingStart(s, lo)]
  }

  /** A title made only of whitespace strips to nothing, and only such a title does. */
  lemma StripEmpty(s: string)
    ensures Strip(s) == "" <==> forall k :: 0 <= k < |s| ==> IsSpace(s[k])
  {
    if Strip(s) != "" {
      var lo := LeadingSpaces(s);
      assert s[lo] == Strip(s)[0];
    }
  }

  /** The category a new transaction gets: the one supplied unless it is missing or
      empty, else the auto-categorisation of the stripped title. */
  function ChosenCategory(given: Option<string>, title: string): (c: string)
    ensures c != ""
    ensures given.Some? && given.value != "" ==> c == given.value
    ensures (given.None? || given.value == "") ==> c == AutoCategory(title)
  {
    AutoCategoryNonEmpty(title);
    if given.Some? && given.value != "" then given.value else AutoCategory(title)
  }

  /** `api_add_expense` up to the insert: the request is refused exactly when the
      stripped title is empty or the amount is zero; otherwise the transaction carries
      the stripped title, a non-empty category, and today's date when none is given. */
  function NewTransaction(p: Payload, today: Date): (r: Result<Transaction, EntryError>)
    ensures r.Err? <==> Strip(p.title.GetOr("")) == "" || p.amount.GetOr(0.0) == 0.0
    ensures r.Ok? ==> r.value.title == Strip(p.title.GetOr("")) && r.value.title != ""
    ensures r.Ok? ==> r.value.amount == p.amount.value && r.value.amount != 0.0
    ensures r.Ok? ==> r.value.category.Some? && r.value.category.value != ""
    ensures r.Ok? ==> r.value.category == Some(ChosenCategory(p.category, r.value.title))
    ensures r.Ok? ==> r.value.date == (if p.date.Some? then p.date.value else today)
    ensures r.Ok? ==> r.value.kind == ParseKind(p.kind.GetOr("expense"))
    ensures r.Ok? ==> KindText(r.value.kind) == p.kind.GetOr("expense")
    ensures r.Ok? ==> r.value.notes == p.notes.GetOr("")
  {
    var title := Strip(p.title.GetOr(""));
    var amount := p.amount.GetOr(0.0);
    var kind := ParseKind(p.kind.GetOr("expense"));
    var category := ChosenCategory(p.category, title);
    var date := p.date.GetOr(today);
    var notes := p.notes.GetOr("");
    if title == "" || amount == 0.0 then Err(TitleAndAmountRequired)
    else Ok(Transaction(kind, title, amount, Some(category), date, notes))
  }
}
