# MetaManager: status, storage mirror and social-preview meta tags

A Dafny model of the `MetaManager` class of a personal profile page
(`meta.js`). The manager holds a presence status, which is one of `online`,
`idle`, `dnd` and `offline`. It also holds an optional game label and an
optional music label. It mirrors these fields into the browser's
`localStorage` and builds a one-line description from them. It writes that
description into three `<meta>` slots of the page head. A small widget moves
the status on to the next value each time it is clicked.

The model is functional: a page state is an immutable record
`Manager.Page(presence, storage, head)`, and every operation of the class is a
pure transition on it.

- `localStorage` is a `map<string, string>`.
- The page head is the sequence of `<meta>` elements in document order. Each
  element carries one identifying attribute pair and a content string.
  `document.querySelector` becomes "first element with that pair", and
  `createElement` + `appendChild` becomes "append at the end". The view a
  reader of the page gets of a slot, `MetaTags.Content`, plays the role of a
  map from attribute pairs to content.
- A label is an `Option<string>`, where `None` stands for `null`/`undefined`.
  JavaScript truthiness is `Describe.Truthy`: `None` and `""` both count as
  absent.
- The emojis are the four single code points U+1F7E2 (online), U+23FE (idle),
  U+1F534 (dnd) and U+26AB (offline).

Modules, in dependency order:

- `Options`: the `Option` type.
- `StatusTable`: the emoji table, its key order, and the widget's next-status
  rule.
- `Text`: upper-casing the first character, and joining with a separator.
- `Describe`: `buildDescription`, plus a second construction of the
  description as a list of segments joined with " - ".
- `MetaTags`: `setMetaTag` and `updateMetaTags` on the head.
- `Manager`: the constructor, the three setters, the click, and the
  invariant they keep.
- `AsWritten`: the `setStatus` guard exactly as the source writes it (see
  Findings).

The load-time quirk is kept. The status read at construction is not checked
against the enumeration. An unknown status is shown with the idle emoji but
under its own capitalised name (`Describe.StatusShownRoundTrip`,
`Describe.UnknownStatusExample`). One click moves it to `online`.

One might expect the in-memory fields and the stored entries to be equal
after every setter returns. The code differs in two ways:

- It keeps an empty label in memory while it removes the stored entry.
- It does not store the default `idle` status at load.

The model follows the code. Its invariant `Manager.Mirrored` says that reading
storage back gives the presence with empty labels read as absent. Every
operation keeps this invariant. Running the constructor again on a consistent
page changes nothing (`Manager.ReconstructChangesNothing`). After a reload, the
head comes back as served, which may lack the tags written earlier, and only
storage survives. A new manager then reads back the same presence, with empty
labels read as absent, and every meta slot shows what it showed before (`Manager.ReloadRestoresPage`).

## Model

| member | source | states |
|---|---|---|
| StatusTable.EmojiFor | meta.js:35 | a status in the table gets its own emoji; any other status gets the idle emoji; the result is always one of the four emojis |
| StatusTable.IndexOf | meta.js:136 | `indexOf` gives -1 exactly when the value is absent; otherwise it gives the first position that holds the value |
| StatusTable.OrderListsTheTable | meta.js:135 | `Object.keys` of the emoji table lists exactly the four statuses, each once |
| StatusTable.StatusCases | meta.js:6-11 | the statuses `setStatus` accepts are exactly online, idle, dnd and offline, and none of them is empty |
| StatusTable.NextStatus | meta.js:135-137 | the next status is a key of the table; an unknown status (index -1) moves to online |
| StatusTable.NextStatusInEnumeration | meta.js:135-137 | the next status is always in the enumeration; it differs from a valid current status; an unrecognised status (index -1) moves to online |
| StatusTable.NextStatusCycle | meta.js:135-137 | clicks go online → idle → dnd → offline → online |
| StatusTable.FourClicksReturn | meta.js:135-137 | from a valid status, one, two or three clicks never return to it, and four always do |
| StatusTable.NextOfOrder | meta.js:135-137 | the key at each position moves to the key at the next position, and the last key moves to the first |
| StatusTable.NextStatusInjective | meta.js:135-137 | two different valid statuses never move to the same status |
| StatusTable.NextStatusSurjective | meta.js:135-137 | every valid status is reached by one click from some valid status, so on the enumeration the click rule is a permutation |
| Text.UpperChar | meta.js:36 | `toUpperCase` maps an ASCII lower-case letter to its upper-case partner and leaves every other character unchanged |
| Text.Capitalize | meta.js:36 | the result has the same length; its first character is upper-cased; every later character is unchanged |
| Text.CapitalizeIdempotent | meta.js:36 | capitalising an already capitalised status changes nothing |
| Describe.BuildDescription | meta.js:34-50 | the description starts with the header (emoji, space, capitalised status); with no truthy label it is the header followed by " - Speedrunner \| Gamer" |
| Describe.DescriptionIsJoinedSegments | meta.js:34-50 | the description is the header, the Playing and Listening segments (or the fallback when neither label is truthy), joined with " - " |
| Describe.SegmentRules | meta.js:38-47 | a Playing segment appears iff the game is truthy, and a Listening segment iff the music is truthy; Playing comes right after the header and Listening comes last; the fallback appears iff both labels are absent, so it never appears together with an activity |
| Describe.DescriptionShowsActivities | meta.js:38-43 | a truthy game appears as " - Playing: game" right after the header; truthy music ends the description as " - Listening: music"; when both are truthy, Playing ends before Listening starts |
| Describe.HeaderIsNoActivity | meta.js:35-36 | the header, which starts with an emoji, can never be mistaken for a Playing, Listening or fallback segment |
| Describe.StatusShownRoundTrip | meta.js:35-36 | the leading emoji reads back as the status when the status is valid; an unrecognised status reads back as idle, although its own name is printed after the emoji |
| Describe.DndHeaderExample | meta.js:35-36 | with status dnd the description starts with the dnd emoji followed by " Dnd" |
| Describe.GameOnlyExample | meta.js:34-50 | dnd with game "Celeste" and no music gives the dnd emoji, " Dnd", " - ", "Playing: " and "Celeste", with no Listening segment |
| Describe.EmptyLabelsExample | meta.js:38-47 | empty game and music labels count as absent and produce the header followed by the fallback |
| Describe.UnknownStatusExample | meta.js:35-36 | an unrecognised status "away" is shown as the idle emoji, " Away", then the fallback |
| MetaTags.QuerySelector | meta.js:53 | it finds the first element that carries the attribute pair; it finds nothing exactly when no element carries the pair |
| MetaTags.SameShapeSameQuery | meta.js:53 | a query depends only on the attribute pairs of the elements, never on their content |
| MetaTags.AppendQuery | meta.js:54-57 | appending a new element does not change which element answers a pair the head already held; the new element answers its own pair when nothing else did |
| MetaTags.SetMetaTag | meta.js:52-60 | after the upsert the slot shows the new content and every other slot shows what it showed before; an absent slot is appended at the end; a present slot is overwritten in place and no other element changes |
| MetaTags.SetShownContentIsIdentity | meta.js:52-60 | writing a slot with the content it already shows leaves the head unchanged |
| MetaTags.UpdateMetaTags | meta.js:21-32 | og:description and twitter:description show the description; description shows "HatsuneHiku's profile - " followed by it; every other slot is unchanged |
| MetaTags.UpdateShownIsIdentity | meta.js:21-32 | recomputing tags that already show the description changes nothing and adds no element |
| MetaTags.UpdateIdempotent | meta.js:21-32 | writing the tags twice is the same as writing them once |
| Manager.StoredActivity | meta.js:14-15 | a label is read from storage only when the entry is present and non-empty; otherwise it reads as null |
| Manager.StoredStatus | meta.js:13 | the stored status is used when it is present and non-empty, without any check against the enumeration; otherwise the status is idle |
| Manager.Refresh | meta.js:17 | refreshing the tags changes neither the presence nor the storage; the tags then show the current description and the other slots are unchanged |
| Manager.New | meta.js:5-19 | the constructor reads the presence from storage, writes nothing to storage, and leaves the tags showing the description |
| Manager.ApplyStatus | meta.js:64-66 | once the guard has passed, the value becomes the status and the stored userStatus, no other storage key changes, and the tags show the new description |
| Manager.SetStatus | meta.js:62-68 | a value outside the enumeration changes nothing at all; a valid value becomes the status and the stored userStatus, no other storage key changes, and the tags show the new description |
| Manager.StoreActivity | meta.js:72-76 | the key is present iff the label is truthy, and then it holds the label; every other key is unchanged |
| Manager.SetCurrentGame | meta.js:70-78 | the game field equals the argument; currentGame is stored iff the argument is truthy, with that value, and removed otherwise; other keys are unchanged; the tags show the new description |
| Manager.SetCurrentMusic | meta.js:80-88 | the same as SetCurrentGame, for the music field and the currentMusic entry |
| Manager.Click | meta.js:133-138 | a click leaves a valid status stored and shown; a valid status always changes and an unknown one becomes online; the labels and the other storage keys are unchanged |
| Manager.NormalizeKeepsDescription | meta.js:38-47 | an empty label and an absent label give the same description |
| Manager.NewIsConsistent | meta.js:13-17 | right after construction, storage mirrors the presence and the tags show it |
| Manager.ReadsOtherKey | meta.js:65 | helper for the consistency proofs, a fact about maps rather than about the page: when two storages differ at most at one key, every other key reads the same in both |
| Manager.SetStatusKeepsConsistency | meta.js:62-68 | setStatus keeps storage mirroring the presence and keeps the tags current |
| Manager.SetCurrentGameKeepsConsistency | meta.js:70-78 | setCurrentGame keeps storage mirroring the presence and keeps the tags current |
| Manager.SetCurrentMusicKeepsConsistency | meta.js:80-88 | setCurrentMusic keeps storage mirroring the presence and keeps the tags current |
| Manager.ClickKeepsConsistency | meta.js:133-138 | a widget click keeps storage mirroring the presence and keeps the tags current |
| Manager.ReconstructChangesNothing | meta.js:13-17 | running the constructor again on a consistent page's storage and live head gives back the same page, with empty labels read as absent and the head unchanged |
| Manager.ReloadRestoresPage | meta.js:13-17 | after a reload, where only storage survives and the head comes back as served (alike outside the three description slots), the new manager holds the same presence with empty labels read as absent, and every meta slot shows what it showed before |
| Manager.SetStatusIdempotent | meta.js:62-68 | setting the same status twice is the same as setting it once |
| Manager.WrittenAtKey | meta.js:65 | helper for the four-click proof, a fact about maps rather than about the page: a storage that differs only at one key, and holds a value there, is the old storage with that key set |
| Manager.FourClicksRestorePage | meta.js:133-138 | four clicks from a consistent page with a valid status restore the presence and every meta slot; storage gains only the current status under userStatus |
| AsWritten.SetStatusAsWritten | meta.js:62-68 | with the guard as written, any name the lookup finds (own or inherited from Object.prototype) becomes the status and is stored; any other name changes nothing |
| AsWritten.InheritedNamePassesGuard | meta.js:63 | "toString" is not a status, yet the guard as written stores it; the corrected SetStatus ignores it |
| AsWritten.AsWrittenAgreesOnOtherNames | meta.js:63 | apart from the inherited names, the guard as written and the corrected guard behave alike |

## Left out

- The theme controller in `index.js` (a stored `theme` preference and a stylesheet link), together with its hover and animation styling. It is page glue with no state machine.
- The widget's construction and styling (`meta.js:90-133`, `139-146`): the existing-widget check, the button and label elements, their CSS, and the button text updated on a click. Only the next-status rule and the `setStatus` call it makes are modelled.
- Page-load bootstrapping and the `window.metaManager` global (`meta.js:149-156`). These are event-loop plumbing.
- The animated particle background is not part of this model. Its source is not among the modelled files, and it is floating-point numerics on a render loop.
- Other writers to storage. `localStorage` is shared by every tab of the same origin, and the manager has no `storage` event listener. Another tab's `setStatus` or `setCurrentGame` rewrites `userStatus` or `currentGame` without touching this page's fields. `Manager.Mirrored`, `Manager.Consistent`, `Manager.FourClicksRestorePage` and `Manager.ReloadRestoresPage` therefore hold only while this manager is the only writer.
- Meta elements outside the head. `document.querySelector` (`meta.js:53`) searches the whole document, but a new element is appended to `document.head` (`meta.js:57`). The head is modelled as the only place meta elements live. So `MetaTags.SetMetaTag`'s "append at the end" gives document order exactly only when no `<meta>` sits in the body.
- Failures of the browser's storage (a full quota, or storage that is disabled) and any exception a DOM call may raise. The model treats storage and the head as total maps and sequences.
- Text.UpperChar: upper-cases ASCII letters only. JavaScript's full Unicode case mapping (`'é'` to `'É'`, `'ß'` to `"SS"`) is not modelled. The four statuses are ASCII.
- Text.Capitalize: works on Unicode code points, whereas JavaScript's `charAt` works on UTF-16 code units. The two agree whenever the first character is a letter below U+10000.
- Manager.SetCurrentGame: takes a string or null. Non-string arguments (numbers, objects), which JavaScript would store through string conversion, are not modelled. The same holds for Manager.SetCurrentMusic.
- MetaTags.SetMetaTag: each element carries a single identifying attribute pair. Elements that carry both a `name` and a `property`, and attribute values whose quotes would break the selector text, are not modelled.
- StatusTable.EmojiFor: uses only the table's own keys. In the source, a stored status equal to an inherited name such as `constructor` would print that inherited value's text instead of the idle emoji (see Findings).
- AsWritten.SetStatusAsWritten: covers only the status and storage it leaves behind. The description it then writes would start with the inherited value's text, and that text is not modelled.

## Findings

| source | as written | input that shows it | evidently intended | confidence | as-written member | corrected member |
|---|---|---|---|---|---|---|
| meta.js:63 | the guard `if (this.statusEmojis[newStatus])` tests the truthiness of a property read on a plain object, so the names inherited from `Object.prototype` pass it | `setStatus('toString')` (also `'constructor'`, `'valueOf'`, `'__proto__'`, …): the status and the stored `userStatus` become `"toString"` (AsWritten.InheritedNamePassesGuard) | only online, idle, dnd and offline are accepted, and every other value is a no-op | high; not executed | AsWritten.SetStatusAsWritten | Manager.SetStatus |
