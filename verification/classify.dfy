/** Keyword-based auto-categorisation of a transaction title (`CATEGORY_MAP` and
    `auto_category`): the first keyword, in the map's insertion order, that occurs in
    the lower-cased title decides the category; otherwise the category is "Other". */
module Classify {

  const DefaultCategory: string := "Other"

  /** The keyword table, in insertion order: (keyword, category). */
  const CategoryMap: seq<(string, string)> := [
    ("pizza", "Food"), ("burger", "Food"), ("cafe", "Food"), ("lunch", "Food"), ("dinner", "Food"),
    ("uber", "Transport"), ("bus", "Transport"), ("cab", "Transport"), ("train", "Transport"),
    ("grocery", "Groceries"), ("supermarket", "Groceries"), ("flipkart", "Shopping"), ("amazon", "Shopping"),
    ("rent", "Rent"), ("salary", "Income"), ("stipend", "Income"), ("subscription", "Bills"),
    ("netflix", "Entertainment")
  ]

  function LowerChar(c: char): char {
    if 'A' <= c <= 'Z' then (c as int - 'A' as int + 'a' as int) as char else c
  }

  /** `str.lower()`, on the ASCII letters. */
  function Lower(s: string): (r: string)
    ensures |r| == |s|
    ensures forall i :: 0 <= i < |s| ==> r[i] == LowerChar(s[i])
  {
    if |s| == 0 then "" else [LowerChar(s[0])] + Lower(s[1..])
  }

  /** `needle` occurs in `haystack` starting at position `i`. */
  predicate OccursAt(haystack: string, needle: string, i: int) {
    0 <= i && i + |needle| <= |haystack| && haystack[i..i + |needle|] == needle
  }

  /** Python's `needle in haystack` on strings. */
  predicate Contains(haystack: string, needle: string) {
    exists i :: 0 <= i <= |haystack| && OccursAt(haystack, needle, i)
  }

  /** Keyword `i` of the table occurs in the lower-cased title `lt`. */
  predicate KeywordMatches(lt: string, i: int)
    requires 0 <= i < |CategoryMap|
  {
    Contains(lt, CategoryMap[i].0)
  }

  /** The category of the first keyword at index `i` or later that occurs in `lt`. */
  function FirstMatch(lt: string, i: nat): (r: string)
    requires i <= |CategoryMap|
    ensures (forall j :: i <= j < |CategoryMap| ==> !KeywordMatches(lt, j)) ==> r == DefaultCategory
    ensures forall j :: (i <= j < |CategoryMap| && KeywordMatches(lt, j)
                         && (forall k :: i <= k < j ==> !KeywordMatches(lt, k)))
                         ==> r == CategoryMap[j].1
    decreases |CategoryMap| - i
  {
    if i == |CategoryMap| then DefaultCategory
    else if KeywordMatches(lt, i) then CategoryMap[i].1
    else FirstMatch(lt, i + 1)
  }

  /** `auto_category(title)`. */
  function AutoCategory(title: string): (r: string)
    ensures (forall j :: 0 <= j < |CategoryMap| ==> !KeywordMatches(Lower(title), j)) ==> r == DefaultCategory
    ensures forall j :: (0 <= j < |CategoryMap| && KeywordMatches(Lower(title), j)
                         && (forall k :: 0 <= k < j ==> !KeywordMatches(Lower(title), k)))
                         ==> r == CategoryMap[j].1
  {
    FirstMatch(Lower(title), 0)
  }

  /** The category is never empty: every table entry names one, and so does the default. */
  lemma AutoCategoryNonEmpty(title: string)
    ensures AutoCategory(title) != ""
  {
    var lt := Lower(title);
    if j :| 0 <= j < |CategoryMap| && KeywordMatches(lt, j) {
      var first := FirstIndex(lt, j);
      assert AutoCategory(title) == CategoryMap[first].1;
      EntryNamesCategory(first);
    }
  }

  /** Every entry of the table names a category. */
  lemma EntryNamesCategory(j: int)
    requires 0 <= j < |CategoryMap|
    ensures CategoryMap[j].1 != ""
  {
    EntriesNameCategories(0);
    EntriesNameCategories(3);
    EntriesNameCategories(6);
    EntriesNameCategories(9);
    EntriesNameCategories(12);
    EntriesNameCategories(15);
  }

  lemma EntriesNameCategories(lo: int)
    requires 0 <= lo && lo + 3 <= |CategoryMap|
    ensures forall j :: lo <= j < lo + 3 ==> CategoryMap[j].1 != ""
  {
    assert CategoryMap[lo].1 != "" && CategoryMap[lo + 1].1 != "" && CategoryMap[lo + 2].1 != "";
  }

  /** The first matching index at or below a known match. */
  lemma {:induction false} FirstIndex(lt: string, j: int) returns (first: int)
    requires 0 <= j < |CategoryMap| && KeywordMatches(lt, j)
    ensures 0 <= first <= j && KeywordMatches(lt, first)
    ensures forall k :: 0 <= k < first ==> !KeywordMatches(lt, k)
    decreases j
  {
    if k :| 0 <= k < j && KeywordMatches(lt, k) {
      first := FirstIndex(lt, k);
    } else {
      first := j;
    }
  }

  lemma {:induction false} LowerIdempotent(s: string)
    ensures Lower(Lower(s)) == Lower(s)
  {
    var l := Lower(s);
    var ll := Lower(l);
    assert forall i :: 0 <= i < |s| ==> ll[i] == LowerChar(LowerChar(s[i])) == l[i];
  }

  /** Two titles that differ only in letter case. */
  predicate SameIgnoringCase(a: string, b: string) {
    |a| == |b| && forall i :: 0 <= i < |a| ==> LowerChar(a[i]) == LowerChar(b[i])
  }

  /** Classification is case-insensitive: titles that differ only in letter case get the
      same category, and lower-casing a title first does not change its category. */
  lemma {:induction false} AutoCategoryIgnoresCase(a: string, b: string)
    requires SameIgnoringCase(a, b)
    ensures AutoCategory(a) == AutoCategory(b)
    ensures AutoCategory(Lower(a)) == AutoCategory(a)
  {
    var la, lb := Lower(a), Lower(b);
    assert la == lb by {
      assert forall i :: 0 <= i < |a| ==> la[i] == lb[i];
    }
    LowerIdempotent(a);
  }

  /** "Pizza night" is classified as Food. */
  lemma PizzaIsFood()
    ensures AutoCategory("Pizza night") == "Food"
  {
    var s := "Pizza night";
    assert s[0] == 'P' && s[1] == 'i' && s[2] == 'z' && s[3] == 'z' && s[4] == 'a';
    PizzaPrefix(s);
    assert OccursAt(Lower(s), CategoryMap[0].0, 0);
    assert KeywordMatches(Lower(s), 0);
  }

  /** A title starting "Pizza" starts "pizza" once lower-cased. */
  lemma PizzaPrefix(s: string)
    requires |s| >= 5 && s[0] == 'P' && s[1] == 'i' && s[2] == 'z' && s[3] == 'z' && s[4] == 'a'
    ensures Lower(s)[..5] == "pizza"
  {
    var lt := Lower(s);
    assert lt[0] == 'p' && lt[1] == 'i' && lt[2] == 'z' && lt[3] == 'z' && lt[4] == 'a';
  }

  /** A title without upper-case letters is its own lower-case form. */
  lemma LowerKeepsLowercase(s: string)
    requires forall i :: 0 <= i < |s| ==> !('A' <= s[i] <= 'Z')
    ensures Lower(s) == s
  {
    assert forall i :: 0 <= i < |s| ==> Lower(s)[i] == s[i];
  }

  const Gibberish: string := "random gibberish"

  /** The pairs of adjacent letters of "random gibberish". */
  const GibberishPairs: set<(char, char)> :=
    {('r', 'a'), ('a', 'n'), ('n', 'd'), ('d', 'o'), ('o', 'm'), ('m', ' '), (' ', 'g'), ('g', 'i'),
     ('i', 'b'), ('b', 'b'), ('b', 'e'), ('e', 'r'), ('r', 'i'), ('i', 's'), ('s', 'h')}

  /** "random gibberish" matches no keyword and is classified as Other. */
  lemma GibberishIsOther()
    ensures AutoCategory(Gibberish) == DefaultCategory
  {
    GibberishIsLower();
    GibberishMisses(0);
    GibberishMisses(3);
    GibberishMisses(6);
    GibberishMisses(9);
    GibberishMisses(12);
    GibberishMisses(15);
  }

  /** Keywords `lo` to `lo + 2` of the table do not occur in "random gibberish". */
  lemma GibberishMisses(lo: int)
    requires 0 <= lo && lo + 3 <= |CategoryMap|
    ensures forall j :: lo <= j < lo + 3 ==> !KeywordMatches(Gibberish, j)
  {
    NotInGibberish(CategoryMap[lo].0);
    NotInGibberish(CategoryMap[lo + 1].0);
    NotInGibberish(CategoryMap[lo + 2].0);
  }

  lemma GibberishIsLower()
    ensures Lower(Gibberish) == Gibberish
  {
    assert forall i :: 0 <= i < |Gibberish| ==> 'a' <= Gibberish[i] <= 'z' || Gibberish[i] == ' ';
    LowerKeepsLowercase(Gibberish);
  }

  lemma AdjacentInGibberish()
    ensures forall i :: 0 <= i < |Gibberish| - 1 ==> (Gibberish[i], Gibberish[i + 1]) in GibberishPairs
  {
  }

  /** A word whose first two letters are never adjacent in "random gibberish" does not
      occur in it. */
  lemma NotInGibberish(n: string)
    requires 2 <= |n| && (n[0], n[1]) !in GibberishPairs
    ensures !Contains(Gibberish, n)
  {
    AdjacentInGibberish();
    forall i | 0 <= i <= |Gibberish|
      ensures !OccursAt(Gibberish, n, i)
    {
      if i + |n| <= |Gibberish| {
        var w := Gibberish[i..i + |n|];
        assert w[0] == Gibberish[i] && w[1] == Gibberish[i + 1];
      }
    }
  }
}
