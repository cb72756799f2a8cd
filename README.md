# Wiki Oficinas entry store

A Dafny model of the entry store of the "Wiki Oficinas" app, a React Native
note-taking app for workshop procedures. Each card (a `WikiEntry`) has an id,
a title, a description, an optional photo, an optional voice recording, a
category and a creation timestamp. The `WikiProvider` context holds the list
of cards, newest first. It offers three operations, and each one replaces the
whole list:

- `addEntry` rejects a title that trims to nothing. Otherwise it puts a
  normalised record in front of the list.
- `updateEntry` merges a partial record into every entry with the given id.
- `deleteEntry` drops every entry with the given id.

The home screen shows either the whole list (the "Todos" chip) or only the
entries of the selected category.

Modules:

- `Wrappers`: `Option`. It stands for optional keys, `undefined` and `null`.
- `Sequences`: `Array.prototype.filter` as `Filter`. Its contract says the
  result is an order-preserving subsequence with exact multiplicities, and
  `FilterUnique` proves that this contract determines the result.
- `Text`: `String.prototype.trim` over the ECMAScript WhiteSpace and
  LineTerminator code points.
- `WikiContext`: the `Entry`, `AddEntryInput` and `UpdateEntryInput` records.
  `Added`, `Updated` and `Deleted` are the list transforms. Class `WikiStore`
  holds the provider's `entries` state, and its methods reassign it. The
  lemmas cover each transform and how the transforms combine.
- `HomeScreen`: `FilteredEntries` and its lemmas.

Modelling choices:

- `Date.now()` and `new Date().toISOString()` are the `id` and `createdAt`
  parameters of `WikiStore.AddEntry`.
- Ids are not assumed unique, because two additions in the same millisecond
  get the same id. `Updated` and `Deleted` therefore act on every matching
  entry. `DeleteAfterAdd` shows that deleting a new entry's id also removes
  older entries that share it. The `*KeepsIdsUnique` lemmas show that ids stay
  unique as long as each new id is fresh.
- In the code, `category` is free text, and entries loaded from storage may
  have no category at all. The code enforces neither a fixed label set nor
  unique ids, so the model assumes neither.

## Model

| member | source | states |
|---|---|---|
| `Sequences.Filter` | context/wiki-context.tsx:112 | the result keeps exactly the elements that pass the test, each as often as in the input, in input order, and is no longer than the input |
| `Sequences.FilterUnique` | context/wiki-context.tsx:112 | any order-preserving selection with those multiplicities equals `Filter`, so `Filter`'s contract fully specifies it |
| `Sequences.FilterIdempotent` | context/wiki-context.tsx:112 | filtering twice with the same test equals filtering once |
| `Sequences.FilterKeepsAll` | context/wiki-context.tsx:112 | a filter whose test every element passes returns its input |
| `Sequences.SubsequenceOfItself` | app/index.tsx:22 | every list is an order-preserving selection of itself |
| `Sequences.SubsequenceMultiset` | app/index.tsx:23 | an order-preserving selection never holds a value more often than its source |
| `Text.SkipLeading` | context/wiki-context.tsx:92 | the result is the first index at or after the start that holds no whitespace (or the length); everything skipped is whitespace |
| `Text.SkipTrailing` | context/wiki-context.tsx:92 | the result is the index just past the last non-whitespace character of the range (or its start); everything skipped is whitespace |
| `Text.Trim` | context/wiki-context.tsx:85 | `title.trim()` is empty exactly when the title is all whitespace; otherwise it starts and ends with a non-whitespace character |
| `Text.TrimCutsWhitespace` | context/wiki-context.tsx:92-93 | the trimmed string is the contiguous slice that starts where the leading whitespace ends, and everything cut off before and after it is whitespace |
| `Text.TrimIdempotent` | context/wiki-context.tsx:92-93 | trimming an already trimmed string changes nothing |
| `WikiContext.NewEntry` | context/wiki-context.tsx:90-98 | the record has the given id and timestamp. Its title is the trimmed input, empty only for an all-whitespace title, with no whitespace at either end. Its description is the trimmed input. Absent media URIs become `null`. The category is the input's when present (even an empty string) and "Outros" only when absent |
| `WikiContext.Added` | context/wiki-context.tsx:85-100 | the list is left unchanged exactly when the title is all whitespace (both directions); otherwise it is one longer, with the new record at the head and the old list, unchanged, as the tail |
| `WikiContext.AddTwiceNewestFirst` | context/wiki-context.tsx:100 | two accepted additions give `[second, first] + old list` |
| `WikiContext.Merge` | context/wiki-context.tsx:106 | each key present in the patch takes the patch value, each absent key keeps the entry's value, and id and createdAt never change |
| `WikiContext.Updated` | context/wiki-context.tsx:104-108 | same length, and position by position an entry with the id is merged with the patch while every other entry is unchanged |
| `WikiContext.UpdateUnknownId` | context/wiki-context.tsx:104-108 | with no entry carrying the id, the list is unchanged |
| `WikiContext.UpdateKeepsIdsAndTimestamps` | context/wiki-context.tsx:30-32 | no update changes any entry's id or createdAt |
| `WikiContext.UpdateTitleOnly` | context/wiki-context.tsx:106 | a title-only patch changes only the title of the matching entries |
| `WikiContext.UpdateEmptyPatch` | context/wiki-context.tsx:106 | an empty patch changes nothing |
| `WikiContext.UpdateCompose` | context/wiki-context.tsx:103-109 | two updates of one id equal a single update with the combined patch, the later patch winning |
| `WikiContext.UpdateIdempotent` | context/wiki-context.tsx:103-109 | applying the same update twice equals applying it once |
| `WikiContext.Deleted` | context/wiki-context.tsx:112 | no entry with the id remains; every other entry is kept as often as before and in its original relative order; the list does not grow |
| `WikiContext.DeleteIdempotent` | context/wiki-context.tsx:111-113 | deleting twice equals deleting once |
| `WikiContext.DeleteUnknownId` | context/wiki-context.tsx:112 | deleting an id no entry carries leaves the list unchanged |
| `WikiContext.DeleteAfterAdd` | context/wiki-context.tsx:91 | deleting a new entry's id gives what deleting that id from the old list gives, so clock-id collisions take older entries along |
| `WikiContext.DeleteAfterUpdate` | context/wiki-context.tsx:103-113 | updating an id and then deleting it equals deleting it |
| `WikiContext.PrependKeepsIdsUnique` | context/wiki-context.tsx:100 | putting in front an entry whose id is not yet in use keeps ids unique |
| `WikiContext.AddKeepsIdsUnique` | context/wiki-context.tsx:91 | adding under an id not already in use keeps ids unique |
| `WikiContext.UpdateKeepsIdsUnique` | context/wiki-context.tsx:104-108 | updates keep ids unique |
| `WikiContext.IdsUniqueTail` | context/wiki-context.tsx:112 | the tail of a list with unique ids has unique ids, none equal to the head's |
| `WikiContext.SubsequenceKeepsIdsUnique` | context/wiki-context.tsx:112 | dropping entries without reordering keeps ids unique |
| `WikiContext.DeleteKeepsIdsUnique` | context/wiki-context.tsx:112 | deletions keep ids unique |
| `WikiContext.WikiStore.constructor` | context/wiki-context.tsx:50 | the provider starts with an empty list |
| `WikiContext.WikiStore.AddEntry` | context/wiki-context.tsx:78-101 | reports rejection exactly for an all-whitespace title and then leaves the list unchanged; otherwise the new list is the normalised record followed by the old list |
| `WikiContext.WikiStore.UpdateEntry` | context/wiki-context.tsx:103-109 | the new list is `Updated` of the old one: same length, and entries with another id unchanged |
| `WikiContext.WikiStore.DeleteEntry` | context/wiki-context.tsx:111-113 | the new list is `Deleted` of the old one and holds no entry with the id |
| `HomeScreen.FilteredEntries` | app/index.tsx:21-24 | "Todos" returns the list unchanged. Any other selection returns exactly the entries whose category is present and equal to it. The result is always an order-preserving subsequence and no longer than the list |
| `HomeScreen.FilterSound` | app/index.tsx:23 | under a specific chip, every shown entry has a category equal to the selection |
| `HomeScreen.FilterComplete` | app/index.tsx:23 | under a specific chip, every entry of that category is shown, as often as it occurs in the list |
| `HomeScreen.FilterMissingCategory` | app/index.tsx:23 | an entry without a category is shown only under "Todos" |
| `HomeScreen.NewEntryShownFirst` | app/index.tsx:22-23 | a new entry is at the top under "Todos" and under its category's chip ("Outros" when it had none) |

## Left out

- Persistence. This covers the AsyncStorage load at mount, the save on every
  change, `JSON.parse`/`JSON.stringify`, their error logging, and the race
  between the initial save of `[]` and the load. These are asynchronous
  foreign I/O and a library serialiser. The serialisation round trip is
  therefore not modelled.
- `Alert.alert` is a UI side effect. `WikiStore.AddEntry` models the rejection
  as the `accepted = false` result with the list unchanged.
- `useWiki` throwing outside the provider is React context plumbing.
- React re-rendering, object identity and the new-array reference that `map`
  and `filter` make are not modelled. Only list values are compared, so an
  update of an unknown id is "unchanged" as a value even though the source
  stores a fresh array, which triggers a save.
- `undefined` and `null` are not told apart. A missing or `null` media URI and
  a missing category are all `None`. An explicitly present `undefined` in an
  update patch is out of scope; an absent key is `None`.
- JavaScript strings are UTF-16 code units, while Dafny `char` is a Unicode
  scalar value. Every whitespace code point that `trim` removes lies in the
  Basic Multilingual Plane, so trimming agrees on every string the model can
  hold. A JavaScript string with a lone surrogate has no counterpart here.
- Screens are not part of this model: the creation screen (recording, image
  picking and its own title check), the detail and edit screens, the
  navigation layout, and the rendering, chips and styles of the home screen.
