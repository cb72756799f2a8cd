/** The category filter of the home screen: the chip bar selects a category,
    and the list shows either every entry ("Todos") or the entries of the
    selected category, in store order. */
module HomeScreen {
  import opened Wrappers
  import Sequences
  import Text
  import WikiContext

  /** The chip that shows every entry. */
  const AllChip: string := "Todos"

  /** `filteredEntries`: the whole list for "Todos", otherwise the entries
      whose category is present and equal to the selection, as a subsequence
      of the store's list. */
  function FilteredEntries(entries: seq<WikiContext.Entry>, selected: string): (r: seq<WikiContext.Entry>)
    ensures selected == AllChip ==> r == entries
    ensures selected != AllChip ==>
      forall e :: e in r <==> e in entries && e.category == Some(selected)
    ensures Sequences.IsSubsequence(r, entries) && |r| <= |entries|
  {
    if selected == AllChip then
      Sequences.SubsequenceOfItself(entries);
      entries
    else Sequences.Filter((e: WikiContext.Entry) => e.category == Some(selected), entries)
  }

  /** Under a specific chip, every shown entry has exactly that category and
      none without a category is shown. */
  lemma FilterSound(entries: seq<WikiContext.Entry>, selected: string)
    requires selected != AllChip
    ensures var r := FilteredEntries(entries, selected);
      forall i :: 0 <= i < |r| ==> r[i].category.Some? && r[i].category.value == selected
  {
  }

  /** Under a specific chip, every entry of that category is shown, as often
      as it occurs in the store. */
  lemma FilterComplete(entries: seq<WikiContext.Entry>, selected: string)
    requires selected != AllChip
    ensures var r := FilteredEntries(entries, selected);
      forall i :: 0 <= i < |entries| && entries[i].category == Some(selected) ==>
        entries[i] in r && multiset(r)[entries[i]] == multiset(entries)[entries[i]]
  {
  }

  /** An entry without a category is shown only under "Todos". */
  lemma FilterMissingCategory(entries: seq<WikiContext.Entry>, selected: string, e: WikiContext.Entry)
    requires e.category.None?
    ensures e in FilteredEntries(entries, selected) <==> selected == AllChip && e in entries
  {
  }

  /** An entry just created is shown at the top under "Todos", and under the
      chip of its category, "Outros" when it was created without one. */
  lemma NewEntryShownFirst(entries: seq<WikiContext.Entry>, input: WikiContext.AddEntryInput,
                           id: string, createdAt: string, selected: string)
    requires !Text.AllWhitespace(input.title)
    requires selected == AllChip || selected == input.category.GetOr(WikiContext.DefaultCategory)
    ensures var r := FilteredEntries(WikiContext.Added(entries, input, id, createdAt), selected);
      r != [] && r[0] == WikiContext.NewEntry(input, id, createdAt)
  {
  }
}
