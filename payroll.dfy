/** The payroll table's search box (static/js/main2.js): on every key
    stroke each row is shown exactly when the lower-cased text of its first
    cell contains the lower-cased search text. Neither side is trimmed. */
module Payroll {
  import opened Text

  /** A row is shown only for a search no longer than its name. */
  predicate RowShown(search: string, name: string)
    ensures RowShown(search, name) ==> |search| <= |name|
  {
    Contains(Lower(name), Lower(search))
  }

  /** Lower-casing distributes over concatenation. */
  lemma LowerAppend(a: string, b: string)
    ensures Lower(a + b) == Lower(a) + Lower(b)
  {
    assert forall i :: 0 <= i < |a + b| ==> Lower(a + b)[i] == (Lower(a) + Lower(b))[i];
  }

  /** An empty search shows every row. */
  lemma EmptySearchShowsAll(name: string)
    ensures RowShown([], name)
  {
    ContainsEmpty(Lower(name));
  }

  /** Every row shows for a search taken from its own name. */
  lemma OwnNameShowsRow(name: string)
    ensures RowShown(name, name)
  {
    ContainsSelf(Lower(name));
  }

  /** Typing further only hides rows: a row shown for `search + more` is
      shown for `search`. */
  lemma TypingMoreHidesRows(search: string, more: string, name: string)
    requires RowShown(search + more, name)
    ensures RowShown(search, name)
  {
    LowerAppend(search, more);
    ContainsPrefix(Lower(search + more), Lower(search));
    ContainsTransitive(Lower(name), Lower(search + more), Lower(search));
  }

  /** The search ignores case. */
  lemma SearchIgnoresCase(search: string, name: string)
    ensures RowShown(Lower(search), name) == RowShown(search, name)
  {
    LowerIdempotent(search);
  }

  /** Because the search text is not trimmed, a search beginning with a
      blank hides every name that has no blank in it. */
  lemma LeadingBlankHidesUnspacedNames(search: string, name: string)
    requires |search| > 0 && IsWhitespace(search[0])
    requires forall i :: 0 <= i < |name| ==> !IsWhitespace(name[i])
    ensures !RowShown(search, name)
  {
    var l, q := Lower(name), Lower(search);
    forall i | 0 <= i <= |l| - |q| ensures !OccursAt(l, q, i) {
      assert IsWhitespace(q[0]) && !IsWhitespace(l[i]);
    }
  }
}
