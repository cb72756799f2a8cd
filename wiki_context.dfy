/** The entry store behind `WikiProvider`: an ordered list of wiki entries,
    newest first, replaced as a whole by `addEntry`, `updateEntry` and
    `deleteEntry`. */
module WikiContext {
  import opened Wrappers
  import opened Text
  import Sequences

  /** The category an entry gets when it is created without one. */
  const DefaultCategory: string := "Outros"

  /** A stored card. A missing or `null` media URI and a missing category are
      all `None`. */
  datatype Entry = Entry(
    id: string,
    title: string,
    description: string,
    audioUri: Option<string>,
    imageUri: Option<string>,
    category: Option<string>,
    createdAt: string)

  /** What the creation screen hands to `addEntry`. */
  datatype AddEntryInput = AddEntryInput(
    title: string,
    description: string,
    audioUri: Option<string>,
    imageUri: Option<string>,
    category: Option<string>)

  /** A partial record without `id` and `createdAt`: `None` is a key absent from
      the patch; for the media URIs `Some(None)` is an explicit `null`. */
  datatype UpdateEntryInput = UpdateEntryInput(
    title: Option<string>,
    description: Option<string>,
    audioUri: Option<Option<string>>,
    imageUri: Option<Option<string>>,
    category: Option<string>)

  const EmptyPatch := UpdateEntryInput(None, None, None, None, None)

  // ---------------------------------------------------------------- addEntry

  /** The normalised record `addEntry` builds: the given id and timestamp, the
      trimmed title (empty only for an all-whitespace title) and description,
      both without whitespace at either end, the input's media URIs (`null`
      when absent), and the input's category when present, even an empty one,
      or "Outros" when absent. */
  function NewEntry(input: AddEntryInput, id: string, createdAt: string): (e: Entry)
    ensures e.id == id && e.createdAt == createdAt
    ensures e.title == Trim(input.title) && Trim(e.title) == e.title
    ensures e.title == [] <==> AllWhitespace(input.title)
    ensures e.title != [] ==> !IsWhitespace(e.title[0]) && !IsWhitespace(e.title[|e.title| - 1])
    ensures e.description == Trim(input.description) && Trim(e.description) == e.description
    ensures e.audioUri == input.audioUri && e.imageUri == input.imageUri
    ensures input.category.None? ==> e.category == Some(DefaultCategory)
    ensures input.category.Some? ==> e.category == input.category
  {
    TrimIdempotent(input.title);
    TrimIdempotent(input.description);
    Entry(id, Trim(input.title), Trim(input.description), input.audioUri, input.imageUri,
          Some(input.category.GetOr(DefaultCategory)), createdAt)
  }

  /** The list after `addEntry`: left as it was exactly when the title is all
      whitespace; otherwise one longer, with the new record in front and the
      old list, untouched, behind it. */
  function Added(entries: seq<Entry>, input: AddEntryInput, id: string, createdAt: string): (r: seq<Entry>)
    ensures r == entries <==> AllWhitespace(input.title)
    ensures !AllWhitespace(input.title) ==>
      |r| == |entries| + 1 && r[0] == NewEntry(input, id, createdAt) && r[1..] == entries
  {
    if Trim(input.title) == [] then entries
    else
      var r := [NewEntry(input, id, createdAt)] + entries;
      assert |r| != |entries|;
      r
  }

  /** Two accepted additions leave the second in front of the first. */
  lemma AddTwiceNewestFirst(entries: seq<Entry>, first: AddEntryInput, id1: string, t1: string,
                            second: AddEntryInput, id2: string, t2: string)
    requires !AllWhitespace(first.title) && !AllWhitespace(second.title)
    ensures Added(Added(entries, first, id1, t1), second, id2, t2)
            == [NewEntry(second, id2, t2), NewEntry(first, id1, t1)] + entries
  {
    assert Trim(first.title) != [] && Trim(second.title) != [];
  }

  // ------------------------------------------------------------- updateEntry

  /** `{ ...entry, ...data }`: every key present in the patch takes the patch
      value, every absent key keeps the entry's; `id` and `createdAt` cannot be
      patched. */
  function Merge(e: Entry, p: UpdateEntryInput): (r: Entry)
    ensures r.id == e.id && r.createdAt == e.createdAt
    ensures r.title == (if p.title.Some? then p.title.value else e.title)
    ensures r.description == (if p.description.Some? then p.description.value else e.description)
    ensures r.audioUri == (if p.audioUri.Some? then p.audioUri.value else e.audioUri)
    ensures r.imageUri == (if p.imageUri.Some? then p.imageUri.value else e.imageUri)
    ensures r.category == (if p.category.Some? then p.category else e.category)
  {
    e.(title := p.title.GetOr(e.title),
       description := p.description.GetOr(e.description),
       audioUri := p.audioUri.GetOr(e.audioUri),
       imageUri := p.imageUri.GetOr(e.imageUri),
       category := if p.category.Some? then p.category else e.category)
  }

  /** `{ ...p, ...q }`: one patch with the keys of both, `q` winning. */
  function Combine(p: UpdateEntryInput, q: UpdateEntryInput): UpdateEntryInput {
    UpdateEntryInput(
      if q.title.Some? then q.title else p.title,
      if q.description.Some? then q.description else p.description,
      if q.audioUri.Some? then q.audioUri else p.audioUri,
      if q.imageUri.Some? then q.imageUri else p.imageUri,
      if q.category.Some? then q.category else p.category)
  }

  /** The list after `updateEntry(id, p)`: the patch merged into every entry
      whose id is `id` (not only the first), every other entry left alone, the
      length and order kept. */
  function Updated(entries: seq<Entry>, id: string, p: UpdateEntryInput): (r: seq<Entry>)
    ensures |r| == |entries|
    ensures forall i :: 0 <= i < |entries| ==>
      r[i] == if entries[i].id == id then Merge(entries[i], p) else entries[i]
  {
    if entries == [] then []
    else
      var head := if entries[0].id == id then Merge(entries[0], p) else entries[0];
      [head] + Updated(entries[1..], id, p)
  }

  /** An id no entry carries leaves the list as it was. */
  lemma UpdateUnknownId(entries: seq<Entry>, id: string, p: UpdateEntryInput)
    requires forall i :: 0 <= i < |entries| ==> entries[i].id != id
    ensures Updated(entries, id, p) == entries
  {
  }

  /** An update never changes the ids nor the timestamps, position by position. */
  lemma UpdateKeepsIdsAndTimestamps(entries: seq<Entry>, id: string, p: UpdateEntryInput)
    ensures var r := Updated(entries, id, p);
      forall i :: 0 <= i < |r| ==> r[i].id == entries[i].id && r[i].createdAt == entries[i].createdAt
  {
  }

  /** Patching only the title changes only the title of the matching entries. */
  lemma UpdateTitleOnly(entries: seq<Entry>, id: string, title: string)
    ensures var r := Updated(entries, id, EmptyPatch.(title := Some(title)));
      forall i :: 0 <= i < |r| ==>
        r[i] == if entries[i].id == id then entries[i].(title := title) else entries[i]
  {
  }

  /** The empty patch changes nothing. */
  lemma UpdateEmptyPatch(entries: seq<Entry>, id: string)
    ensures Updated(entries, id, EmptyPatch) == entries
  {
  }

  /** Two updates of the same id are one update with the combined patch. */
  lemma {:induction false} UpdateCompose(entries: seq<Entry>, id: string, p: UpdateEntryInput, q: UpdateEntryInput)
    ensures Updated(Updated(entries, id, p), id, q) == Updated(entries, id, Combine(p, q))
  {
    var a := Updated(Updated(entries, id, p), id, q);
    var b := Updated(entries, id, Combine(p, q));
    forall i | 0 <= i < |entries| ensures a[i] == b[i] {
      if entries[i].id == id {
        var e := entries[i];
        assert a[i] == Merge(Merge(e, p), q);
        assert b[i] == Merge(e, Combine(p, q));
      }
    }
  }

  /** Applying the same update twice is applying it once. */
  lemma UpdateIdempotent(entries: seq<Entry>, id: string, p: UpdateEntryInput)
    ensures Updated(Updated(entries, id, p), id, p) == Updated(entries, id, p)
  {
    UpdateCompose(entries, id, p, p);
    assert Combine(p, p) == p;
  }

  // ------------------------------------------------------------- deleteEntry

  /** The list after `deleteEntry(id)`: no entry with `id` is left; all the
      others are kept, as often as before and in their original relative
      order. */
  function Deleted(entries: seq<Entry>, id: string): (r: seq<Entry>)
    ensures forall i :: 0 <= i < |r| ==> r[i].id != id
    ensures Sequences.IsSubsequence(r, entries) && |r| <= |entries|
    ensures forall e: Entry :: e.id != id ==> multiset(r)[e] == multiset(entries)[e]
  {
    var r := Sequences.Filter((e: Entry) => e.id != id, entries);
    assert forall i :: 0 <= i < |r| ==> r[i] in r;
    r
  }

  /** Deleting twice is deleting once. */
  lemma DeleteIdempotent(entries: seq<Entry>, id: string)
    ensures Deleted(Deleted(entries, id), id) == Deleted(entries, id)
  {
    Sequences.FilterIdempotent((e: Entry) => e.id != id, entries);
  }

  /** An id no entry carries leaves the list as it was. */
  lemma DeleteUnknownId(entries: seq<Entry>, id: string)
    requires forall i :: 0 <= i < |entries| ==> entries[i].id != id
    ensures Deleted(entries, id) == entries
  {
    Sequences.FilterKeepsAll((e: Entry) => e.id != id, entries);
  }

  /** Deleting the id just handed to `addEntry` removes the new entry and,
      since ids come from the clock and may collide, every older entry that
      carries the same id. */
  lemma DeleteAfterAdd(entries: seq<Entry>, input: AddEntryInput, id: string, createdAt: string)
    ensures Deleted(Added(entries, input, id, createdAt), id) == Deleted(entries, id)
  {
    if Trim(input.title) != [] {
      var e := NewEntry(input, id, createdAt);
      assert ([e] + entries)[1..] == entries;
    }
  }

  /** Deleting an id after patching it is just deleting it. */
  lemma {:induction false} DeleteAfterUpdate(entries: seq<Entry>, id: string, p: UpdateEntryInput)
    ensures Deleted(Updated(entries, id, p), id) == Deleted(entries, id)
    decreases |entries|
  {
    if entries != [] {
      var u := Updated(entries, id, p);
      assert u[1..] == Updated(entries[1..], id, p);
      DeleteAfterUpdate(entries[1..], id, p);
    }
  }

  // ----------------------------------------------------------------- ids

  /** No two entries share an id. */
  ghost predicate IdsUnique(entries: seq<Entry>) {
    forall i, j :: 0 <= i < j < |entries| ==> entries[i].id != entries[j].id
  }

  /** Putting in front an entry whose id is not yet in use keeps ids unique. */
  lemma PrependKeepsIdsUnique(e: Entry, entries: seq<Entry>)
    requires IdsUnique(entries)
    requires forall i :: 0 <= i < |entries| ==> entries[i].id != e.id
    ensures IdsUnique([e] + entries)
  {
    var r := [e] + entries;
    forall i, j | 0 <= i < j < |r| ensures r[i].id != r[j].id {
      assert r[j] == entries[j - 1];
      if i > 0 { assert r[i] == entries[i - 1]; }
    }
  }

  /** An addition under an id not yet in use keeps ids unique. */
  lemma AddKeepsIdsUnique(entries: seq<Entry>, input: AddEntryInput, id: string, createdAt: string)
    requires IdsUnique(entries)
    requires forall i :: 0 <= i < |entries| ==> entries[i].id != id
    ensures IdsUnique(Added(entries, input, id, createdAt))
  {
    if Trim(input.title) != [] {
      PrependKeepsIdsUnique(NewEntry(input, id, createdAt), entries);
    }
  }

  /** Updates keep ids unique. */
  lemma UpdateKeepsIdsUnique(entries: seq<Entry>, id: string, p: UpdateEntryInput)
    requires IdsUnique(entries)
    ensures IdsUnique(Updated(entries, id, p))
  {
  }

  /** The tail of a list with unique ids has unique ids, none of them the head's. */
  lemma IdsUniqueTail(entries: seq<Entry>)
    requires entries != [] && IdsUnique(entries)
    ensures IdsUnique(entries[1..])
    ensures forall x :: x in entries[1..] ==> x.id != entries[0].id
  {
    var tail := entries[1..];
    forall i, j | 0 <= i < j < |tail| ensures tail[i].id != tail[j].id {
      assert tail[i] == entries[i + 1] && tail[j] == entries[j + 1];
    }
    forall x | x in tail ensures x.id != entries[0].id {
      var k :| 0 <= k < |tail| && tail[k] == x;
      assert entries[k + 1] == x;
    }
  }

  /** Dropping entries without reordering keeps ids unique. */
  lemma {:induction false} SubsequenceKeepsIdsUnique(a: seq<Entry>, b: seq<Entry>)
    requires Sequences.IsSubsequence(a, b) && IdsUnique(b)
    ensures IdsUnique(a)
    decreases |b|
  {
    if a != [] {
      IdsUniqueTail(b);
      if a[0] == b[0] && Sequences.IsSubsequence(a[1..], b[1..]) {
        SubsequenceKeepsIdsUnique(a[1..], b[1..]);
        Sequences.SubsequenceMultiset(a[1..], b[1..]);
        forall i, j | 0 <= i < j < |a| ensures a[i].id != a[j].id {
          assert a[j] == a[1..][j - 1] && a[j] in multiset(a[1..]);
          if i > 0 { assert a[i] == a[1..][i - 1]; }
        }
      } else {
        SubsequenceKeepsIdsUnique(a, b[1..]);
      }
    }
  }

  /** Deletions keep ids unique. */
  lemma DeleteKeepsIdsUnique(entries: seq<Entry>, id: string)
    requires IdsUnique(entries)
    ensures IdsUnique(Deleted(entries, id))
  {
    SubsequenceKeepsIdsUnique(Deleted(entries, id), entries);
  }

  // ------------------------------------------------------------ the provider

  /** The provider's `entries` state; each operation replaces the whole list. */
  class WikiStore {
    var entries: seq<Entry>

    /** The provider starts from an empty list. */
    constructor ()
      ensures entries == []
    {
      entries := [];
    }

    /** `addEntry`: reports a blank title (the alert) and leaves the list;
        otherwise prepends the normalised record. The id and the timestamp,
        taken from the clock in the provider, are parameters. */
    method AddEntry(input: AddEntryInput, id: string, createdAt: string) returns (accepted: bool)
      modifies this
      ensures accepted <==> !AllWhitespace(input.title)
      ensures entries == Added(old(entries), input, id, createdAt)
      ensures accepted ==> entries == [NewEntry(input, id, createdAt)] + old(entries)
      ensures !accepted ==> entries == old(entries)
    {
      if Trim(input.title) == [] {
        return false;
      }
      var newEntry := NewEntry(input, id, createdAt);
      entries := [newEntry] + entries;
      return true;
    }

    /** `updateEntry`: merges the patch into every entry with the id. */
    method UpdateEntry(id: string, data: UpdateEntryInput)
      modifies this
      ensures entries == Updated(old(entries), id, data)
      ensures |entries| == |old(entries)|
      ensures forall i :: 0 <= i < |entries| && old(entries)[i].id != id ==> entries[i] == old(entries)[i]
    {
      entries := Updated(entries, id, data);
    }

    /** `deleteEntry`: drops every entry with the id. */
    method DeleteEntry(id: string)
      modifies this
      ensures entries == Deleted(old(entries), id)
      ensures forall i :: 0 <= i < |entries| ==> entries[i].id != id
    {
      entries := Deleted(entries, id);
    }
  }
}
