# App view state of the item catalog client, in Dafny

The client is a single React component, `App` (`src/App.jsx`), over a REST
API of items (`{ _id, name, description }`). This project models the part of
it that has logic of its own:

- **The local search** (`handleSearch`): the query is lower-cased. If it is
  blank once trimmed, the results are cleared. Otherwise the results are the
  items of the cached list whose lower-cased `_id`, `name` or non-empty
  `description` contains the lower-cased query, in list order.
- **The state record and its transitions.** The eight `useState` fields are
  `items`, `search`, `searchResults`, `newItem`, `updateData`,
  `showAddModal`, `showUpdateModal` and `successMessage`. Each event handler
  overwrites some of them:
  - opening and closing the two forms;
  - editing the search box and the drafts;
  - the effects of an add, update or delete and of the first load, given
    what the server replied;
  - the rule that shows the "no matches" notice.

Layout, one module per file:

- `text.dfy`, module `Text`: stand-ins for `toLowerCase`, `trim` and
  `includes` on `seq<char>`. `IsSpace` is the white-space set of
  ECMAScript (sections 12.2 and 12.3 of ECMA-262), which is what `trim`
  removes.
- `search.dfy`, module `Search`: `Item` (an item as the server returns it, with an optional description), the filter predicate `Matches`,
  `Filter` (as `Array.prototype.filter`) and `SearchResults`. It proves that
  the result is exactly the matching items in their original order (`Selection`
  gives the increasing positions they come from), and that this result is unique.
- `view.dfy`, module `View`: the state as a record (`ViewState`, the eight `useState` variables of src/App.jsx:14-25, whose initial values `View.Initial` gives), one
  transition function per event, the notice predicate, and lemmas about the
  whole machine (`Step`, `Run`). `AgreeExcept(s, t, fields)` states which fields
  a transition may change.
- `app.dfy`, module `Component`: class `App` with the eight fields. Each
  handler assigns the fields in the order of the setter calls, and is
  specified by the transition of `View` on `State()`.

The server's replies are inputs. `Outcome` is `MutationFailed`,
`RefreshFailed` or `Refreshed(items)`: the awaited mutation threw; it
succeeded but the following `getAllItems` threw; or both succeeded. The
initial load gets an `Option` of the list. The model keeps what the code does
on a refresh failure. An add or update has already set its message and reset
its draft before the refresh, so these stay, and the list stays as it was.

One behaviour is worth knowing: the notice tests the search text as it is now,
not the text that was searched (`View.NoticeFollowsTypedText`). While there
are no results, typing a non-blank text shows "No items match your search
criteria." before any search has run.

## Model

| member | source | states |
|---|---|---|
| `Text.Lower` | src/App.jsx:43 | `toLowerCase` keeps the length and lowers each character on its own |
| `Text.LowerIdempotent` | src/App.jsx:43 | lowering an already lowered query changes nothing |
| `Text.BlankIffAllSpace` | src/App.jsx:44 | `!s.trim()` holds exactly when every character of `s` is white space |
| `Text.BlankLowerIffBlank` | src/App.jsx:43-44 | the query is blank after `toLowerCase` exactly when it is blank before, so the blank test on `searchTerm` agrees with the notice's test on `search` |
| `Text.TrimStart` | src/App.jsx:44 | the leading part `trim` removes: the result is a suffix of the string that does not start with white space, and all that was dropped is white space |
| `Text.TrimEnd` | src/App.jsx:44 | the trailing part `trim` removes: the result is a prefix of the string that does not end with white space, and all that was dropped is white space |
| `Text.Trim` | src/App.jsx:44 | `s.trim()` is a stretch of `s` that neither starts nor ends with white space, with only white space cut off on either side |
| `Text.IsBlank` | src/App.jsx:44 | `!s.trim()`; it has no contract of its own. `Text.BlankIffAllSpace` states its meaning (all white space) and `Text.BlankLowerIffBlank` shows that it agrees before and after lower-casing |
| `Text.Includes` | src/App.jsx:52-55 | `s.includes(sub)` is true exactly when `sub` occurs at some position of `s`; always for an empty `sub`, never for a longer one |
| `Search.HasDescription` | src/App.jsx:54 | `item.description && …`: a null or empty description is false. It has no contract of its own; `Search.MissingDescriptionIgnored` states its effect on the filter |
| `Search.Matches` | src/App.jsx:51-55 | the filter callback: the empty term matches every item, and a match needs the term to fit in the id, the name or a present description |
| `Search.Filter` | src/App.jsx:50-56 | the filtered list is no longer than the list; every kept item is in the list and is accepted; every accepted item of the list is kept |
| `Search.SearchResults` | src/App.jsx:43-57 | the list `handleSearch` stores. It has no contract of its own; `Search.BlankQueryClears`, `Search.NonBlankQueryMembers` and `Search.NonBlankQuerySelects` carry it |
| `Search.FilterIsOrderedSelection` | src/App.jsx:50-57 | the filter's result is the subsequence of exactly the accepted positions, in increasing order |
| `Search.SelectionIsUnique` | src/App.jsx:50-57 | only one sequence is such a selection, so the results are determined by which items match and their order in `items` |
| `Search.BlankQueryClears` | src/App.jsx:43-47 | a query that is blank once trimmed gives empty results, whatever `items` holds |
| `Search.NonBlankQueryMembers` | src/App.jsx:50-57 | for a non-blank query an item is a result exactly when it is in `items` and matches the lower-cased query (soundness and completeness) |
| `Search.NonBlankQuerySelects` | src/App.jsx:50-57 | for a non-blank query the results keep the list order and are at most as many as the items |
| `Search.CaseInsensitive` | src/App.jsx:43 | searching `q` and `q` lower-cased give the same results |
| `Search.MissingDescriptionIgnored` | src/App.jsx:54-55 | an item whose description is null or empty matches only through `_id` or `name`, as one without a description does |
| `Search.OneItemResults` | src/App.jsx:50-57 | a non-blank search of a one-item list returns that item if it matches the lower-cased query, and nothing otherwise |
| `Search.TrailingSpaceKept` | src/App.jsx:43-55 | only the blank test trims: "pen " does not find the item named "Pen" |
| `Search.PenFound` | src/App.jsx:42-58 | "pen" finds `{_id:"1", name:"Pen", description:"Blue"}` |
| `Search.XyzNotFound` | src/App.jsx:42-58 | "xyz" finds nothing in that list |
| `View.Initial` | src/App.jsx:14-25 | the initial state: empty list, text, results and message, empty drafts, both forms hidden |
| `View.SetSearch` | src/App.jsx:128 | editing the search box sets `search` and nothing else |
| `View.ApplySearch` | src/App.jsx:42-58 | a search clears the results for a blank text. Otherwise it sets them to exactly the matching items, in the order of the list (an ordered selection of the matching positions). It changes only `searchResults` |
| `View.OpenAddModal` | src/App.jsx:101-105 | opening the add form shows it, clears the message, empties the draft, and changes nothing else |
| `View.CloseAddModal` | src/App.jsx:214 | closing the add form hides it and changes nothing else |
| `View.SetNewItemName` | src/App.jsx:227-229 | editing the add form's name replaces the draft's name, keeping its description |
| `View.SetNewItemDescription` | src/App.jsx:238-240 | editing the add form's description replaces the draft's description, keeping its name |
| `View.AfterAdd` | src/App.jsx:61-71 | a failed add changes nothing. After a successful add, the message is "Item added successfully!" and the draft is empty. The list becomes the refreshed list, or stays as it was if the refresh failed. No other field changes |
| `View.OpenUpdateModal` | src/App.jsx:108-116 | opening the update form sets the draft to exactly the item's id, name and description, shows the form and clears the message; the list, results and add draft are untouched |
| `View.CloseUpdateModal` | src/App.jsx:256 | closing the update form hides it and changes nothing else |
| `View.SetUpdateName` | src/App.jsx:269-271 | editing the update form's name keeps the draft's id and description |
| `View.SetUpdateDescription` | src/App.jsx:280-282 | editing the update form's description keeps the draft's id and name |
| `View.AfterUpdate` | src/App.jsx:74-87 | a failed update changes nothing. After a successful update, the message is "Item updated successfully!" and the update draft is reset. The list becomes the refreshed list, or stays as it was if the refresh failed. No other field changes |
| `View.AfterDelete` | src/App.jsx:90-98 | a delete changes only the list, and only when the refresh returned one; the message and the results are left as they were |
| `View.AfterLoad` | src/App.jsx:28-39 | the first load sets the list to the reply, or leaves it if the call failed |
| `View.ShowsNoMatchesNotice` | src/App.jsx:136-164 | the notice condition: no results and a search text that is not blank once trimmed. It has no contract of its own; `View.NoticeAfterSearch`, `View.NoticeFollowsTypedText` and `Component.App.NoMatchesNoticeShown` state it |
| `View.NoticeAfterSearch` | src/App.jsx:136-164 | right after a search, the notice is shown exactly when the text is not blank and no item matches; a blank search never shows it |
| `View.NoticeFollowsTypedText` | src/App.jsx:159 | with no results, the notice follows the typed text: it shows as soon as a non-blank text is typed, before any search is run |
| `View.OpenAddModalIdempotent` | src/App.jsx:101-105 | opening the add form twice leaves the same state as opening it once |
| `View.OpenUpdateModalOverwrites` | src/App.jsx:108-116 | the state after opening the update form does not depend on any earlier update draft |
| `View.Step` | src/App.jsx:28-288 | dispatches each event to its handler's transition. It has no contract of its own; `View.MessageClearedOnlyOnOpen`, `View.ResultsChangeOnlyOnSearch`, `View.ItemsOnlyFromServer` and `View.RunKeepsKnownMessage` state what every step keeps |
| `View.MessageClearedOnlyOnOpen` | src/App.jsx:61-116 | only opening a form clears the success message. Events other than opening a form, an add or an update leave it as it is |
| `View.ResultsChangeOnlyOnSearch` | src/App.jsx:42-116 | the results change only when a search is run, so a refreshed list leaves them stale |
| `View.ItemsOnlyFromServer` | src/App.jsx:28-98 | the list changes only to a list the server returned |
| `View.RunKeepsKnownMessage` | src/App.jsx:61-116 | after any sequence of events, the message is empty or one of the two success messages |
| `Component.App.constructor` | src/App.jsx:14-25 | the object starts in the initial state |
| `Component.App.FetchData` | src/App.jsx:28-39 | the load handler makes the change `View.AfterLoad` describes |
| `Component.App.SetSearch` | src/App.jsx:128 | the search box handler makes the change `View.SetSearch` describes |
| `Component.App.HandleSearch` | src/App.jsx:42-58 | `handleSearch` makes the change `View.ApplySearch` describes |
| `Component.App.HandleOpenAddModal` | src/App.jsx:101-105 | `handleOpenAddModal` makes the change `View.OpenAddModal` describes |
| `Component.App.CloseAddModal` | src/App.jsx:246 | Cancel on the add form makes the change `View.CloseAddModal` describes |
| `Component.App.SetNewItemName` | src/App.jsx:227-229 | the add form's name handler makes the change `View.SetNewItemName` describes |
| `Component.App.SetNewItemDescription` | src/App.jsx:238-240 | the add form's description handler makes the change `View.SetNewItemDescription` describes |
| `Component.App.HandleAddItem` | src/App.jsx:61-71 | `handleAddItem` sends the current draft and makes the change `View.AfterAdd` describes |
| `Component.App.HandleOpenUpdateModal` | src/App.jsx:108-116 | `handleOpenUpdateModal` makes the change `View.OpenUpdateModal` describes |
| `Component.App.CloseUpdateModal` | src/App.jsx:288 | Cancel on the update form makes the change `View.CloseUpdateModal` describes |
| `Component.App.SetUpdateName` | src/App.jsx:269-271 | the update form's name handler makes the change `View.SetUpdateName` describes |
| `Component.App.SetUpdateDescription` | src/App.jsx:280-282 | the update form's description handler makes the change `View.SetUpdateDescription` describes |
| `Component.App.HandleUpdateItem` | src/App.jsx:74-87 | `handleUpdateItem` sends the draft's id, name and description and makes the change `View.AfterUpdate` describes |
| `Component.App.HandleDeleteItem` | src/App.jsx:90-98 | `handleDeleteItem` sends the given id to `deleteItem` and makes the change `View.AfterDelete` describes |
| `Component.App.NoMatchesNoticeShown` | src/App.jsx:136-164 | the notice is rendered exactly when there are no results and the search text is not all white space |
| `Component.OpenAddTwice` | src/App.jsx:101-105 | calling `handleOpenAddModal` twice leaves the state one call leaves, with an empty draft |

## Left out

- `src/services/api.js` (the five HTTP wrappers over a fixed base URL) is not modelled. Its replies and failures are the `Outcome` and `Option` inputs of the handlers. `searchItemById` is never called by the component.
- Asynchrony is not modelled: the awaits, React's batching of setter calls, and the renders between the setter calls of one handler. Each handler runs as one atomic step, so races between overlapping requests are out of scope, such as a stale `getAllItems` reply overwriting a newer one.
- The `console.error` logging on each failure path is not modelled. Only its effect on state is kept, which is no further change.
- Rendering is not modelled, beyond the notice condition: tables, forms, icons, the "N/A" placeholder for a missing description, and the CSS.
- Text.Lower: lowers only the ASCII letters A–Z. JavaScript's `toLowerCase` also maps other scripts, by full Unicode case mapping, which can change the length.
- Text.Lower, Text.Includes, Text.Trim: strings are sequences of Unicode scalar values, not of UTF-16 code units as in JavaScript. A surrogate pair is one character here, so `includes` cannot match half of one.
- What the server does with a request is not modelled. The catalog's promises about the refreshed list are server properties: after a create it holds the new item, after an update the item carries the new name and description, after a delete the item is gone. The model only says that the list becomes exactly the list the refresh returned.
- An item whose `_id` or `name` is not a string, which would make the filter throw, is not modelled: both are strings in `Item`.
