/** The records of the ledger store: transactions (the `expenses` table) and recurring
    templates (the `recurring` table), with the text columns the code branches on. */
module Ledger {
  import opened Wrappers
  import opened Calendar

  /** The `kind` column. The code accepts any text there; "expense" and "income" are the
      two values it knows, anything else is kept as it was given. */
  datatype Kind = Expense | Income | Custom(name: string)

  /** The `cadence` column of a template. */
  datatype Cadence = Weekly | Monthly

  /** A row of `expenses`. `category` is None for SQL NULL. The store-assigned id, the
      receipt file name and the `created_at` clock reading are not modelled. */
  datatype Transaction = Transaction(
    kind: Kind,
    title: string,
    amount: real,
    category: Option<string>,
    date: Date,
    notes: string)

  /** A row of `recurring`; `active` is the `active = 1` flag. */
  datatype Template = Template(
    id: int,
    title: string,
    amount: real,
    category: Option<string>,
    kind: Kind,
    cadence: Cadence,
    nextDate: Date,
    active: bool)

  /** A kind as the code can store it: a custom label is never one of the two known
      words, which always read as `Expense` or `Income`. */
  predicate Canonical(k: Kind) {
    k.Custom? ==> k.name != "expense" && k.name != "income"
  }

  /** The text stored in the `kind` column. */
  function KindText(k: Kind): string {
    match k
    case Expense => "expense"
    case Income => "income"
    case Custom(name) => name
  }

  /** How the stored kind text reads: the two known words, or a custom label. Reading
      keeps the text exactly, and always gives a canonical kind. */
  function ParseKind(s: string): (k: Kind)
    ensures k == Expense <==> s == "expense"
    ensures k == Income <==> s == "income"
    ensures k.Custom? ==> k.name == s
    ensures Canonical(k) && KindText(k) == s
  {
    if s == "expense" then Expense
    else if s == "income" then Income
    else Custom(s)
  }

  /** Reading back the stored text of a canonical kind gives the kind again. */
  lemma ParseKindText(k: Kind)
    requires Canonical(k)
    ensures ParseKind(KindText(k)) == k
  {
  }

  /** Canonical kinds with the same text are the same kind: grouping by kind is grouping
      by the `kind` column's text. */
  lemma KindTextInjective(a: Kind, b: Kind)
    requires Canonical(a) && Canonical(b) && KindText(a) == KindText(b)
    ensures a == b
  {
  }

  /** The recurrence loop tests only for "weekly": every other cadence text, "monthly"
      or not, advances by a month. */
  function ParseCadence(s: string): (c: Cadence)
    ensures c == Weekly <==> s == "weekly"
    ensures c == Monthly <==> s != "weekly"
  {
    if s == "weekly" then Weekly else Monthly
  }

  /** A row of `recurring` as the run reads it: the kind and cadence columns are text,
      read by `ParseKind` and by the loop's test for "weekly"; everything else is kept. */
  function TemplateOfRow(id: int, title: string, amount: real, category: Option<string>,
                         kind: string, cadence: string, nextDate: Date, active: bool): (t: Template)
    ensures t.id == id && t.title == title && t.amount == amount && t.category == category
    ensures t.nextDate == nextDate && t.active == active
    ensures Canonical(t.kind) && KindText(t.kind) == kind
    ensures t.cadence == Weekly <==> cadence == "weekly"
  {
    Template(id, title, amount, category, ParseKind(kind), ParseCadence(cadence), nextDate, active)
  }
}
