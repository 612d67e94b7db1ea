/** The state of the `App` component as a record, and the rule each event
    handler applies to it. Server replies enter as values: the model says what
    the component does with a reply, not how the reply is obtained. */
module View {
  import opened Text
  import opened Search

  /** The add form's draft, `newItem`. */
  datatype NewDraft = NewDraft(name: string, description: string)

  /** The update form's draft, `updateData`; its description is copied from
      the item as it is and may therefore be null. */
  datatype UpdateDraft = UpdateDraft(id: string, name: string, description: Option<string>)

  const EmptyNewDraft := NewDraft("", "")
  const EmptyUpdateDraft := UpdateDraft("", "", Some(""))
  const AddedMessage := "Item added successfully!"
  const UpdatedMessage := "Item updated successfully!"

  /** The eight `useState` fields of the component. */
  datatype ViewState = ViewState(
    items: seq<Item>,
    search: string,
    searchResults: seq<Item>,
    newItem: NewDraft,
    updateData: UpdateDraft,
    showAddModal: bool,
    showUpdateModal: bool,
    successMessage: string)

  /** The initial values given to `useState`. */
  function Initial(): (s: ViewState)
    ensures s.items == [] && s.search == [] && s.searchResults == []
    ensures s.newItem == EmptyNewDraft && s.updateData == EmptyUpdateDraft
    ensures !s.showAddModal && !s.showUpdateModal && s.successMessage == []
  {
    ViewState([], "", [], EmptyNewDraft, EmptyUpdateDraft, false, false, "")
  }

  /** Names of the fields, for stating which ones a transition may change. */
  datatype Field =
    | ItemsField | SearchField | SearchResultsField | NewItemField | UpdateDataField
    | ShowAddModalField | ShowUpdateModalField | SuccessMessageField

  /** `s` and `t` agree on every field outside `changed`. */
  predicate AgreeExcept(s: ViewState, t: ViewState, changed: set<Field>) {
    && (ItemsField !in changed ==> t.items == s.items)
    && (SearchField !in changed ==> t.search == s.search)
    && (SearchResultsField !in changed ==> t.searchResults == s.searchResults)
    && (NewItemField !in changed ==> t.newItem == s.newItem)
    && (UpdateDataField !in changed ==> t.updateData == s.updateData)
    && (ShowAddModalField !in changed ==> t.showAddModal == s.showAddModal)
    && (ShowUpdateModalField !in changed ==> t.showUpdateModal == s.showUpdateModal)
    && (SuccessMessageField !in changed ==> t.successMessage == s.successMessage)
  }

  /** What the two awaited calls of a mutation handler came back with: the
      mutation itself failed, it succeeded but the `getAllItems` refresh
      failed, or both succeeded and the refresh returned `items`. */
  datatype Outcome = MutationFailed | RefreshFailed | Refreshed(items: seq<Item>)

  /** `setSearch(e.target.value)`: the search box was edited. */
  function SetSearch(s: ViewState, text: string): (t: ViewState)
    ensures t.search == text && AgreeExcept(s, t, {SearchField})
  {
    s.(search := text)
  }

  /** `handleSearch`: the results become the search of the current list for
      the current text (the matching items, in list order); nothing else
      changes. */
  function ApplySearch(s: ViewState): (t: ViewState)
    ensures IsBlank(s.search) ==> t.searchResults == []
    ensures !IsBlank(s.search) ==> forall x :: x in t.searchResults <==> x in s.items && Matches(x, Lower(s.search))
    ensures !IsBlank(s.search) ==> exists idx :: Selection(s.items, t.searchResults, idx, MatcherFor(Lower(s.search)))
    ensures AgreeExcept(s, t, {SearchResultsField})
  {
    assert IsBlank(s.search) ==> SearchResults(s.items, s.search) == [] by {
      if IsBlank(s.search) { BlankQueryClears(s.items, s.search); }
    }
    assert !IsBlank(s.search) ==> forall x :: x in SearchResults(s.items, s.search) <==> x in s.items && Matches(x, Lower(s.search)) by {
      if !IsBlank(s.search) { NonBlankQueryMembers(s.items, s.search); }
    }
    assert !IsBlank(s.search) ==> exists idx :: Selection(s.items, SearchResults(s.items, s.search), idx, MatcherFor(Lower(s.search))) by {
      if !IsBlank(s.search) { NonBlankQuerySelects(s.items, s.search); }
    }
    s.(searchResults := SearchResults(s.items, s.search))
  }

  /** The value a search stores: the search of the current list for the
      current text. */
  lemma ApplySearchStores(s: ViewState)
    ensures ApplySearch(s) == s.(searchResults := SearchResults(s.items, s.search))
  {
  }

  /** `handleOpenAddModal`: shows the add form with an empty draft and no
      success message. */
  function OpenAddModal(s: ViewState): (t: ViewState)
    ensures t.showAddModal && t.successMessage == [] && t.newItem == EmptyNewDraft
    ensures AgreeExcept(s, t, {ShowAddModalField, SuccessMessageField, NewItemField})
  {
    s.(showAddModal := true, successMessage := "", newItem := EmptyNewDraft)
  }

  /** `setShowAddModal(false)`, by the close button or Cancel. */
  function CloseAddModal(s: ViewState): (t: ViewState)
    ensures !t.showAddModal && AgreeExcept(s, t, {ShowAddModalField})
  {
    s.(showAddModal := false)
  }

  /** The add form's name field was edited. */
  function SetNewItemName(s: ViewState, name: string): (t: ViewState)
    ensures t.newItem == NewDraft(name, s.newItem.description)
    ensures AgreeExcept(s, t, {NewItemField})
  {
    s.(newItem := s.newItem.(name := name))
  }

  /** The add form's description field was edited. */
  function SetNewItemDescription(s: ViewState, description: string): (t: ViewState)
    ensures t.newItem == NewDraft(s.newItem.name, description)
    ensures AgreeExcept(s, t, {NewItemField})
  {
    s.(newItem := s.newItem.(description := description))
  }

  /** `handleAddItem` after `addItem(newItem)`: on success the message is set
      and the draft reset before the refresh, so a failing refresh keeps
      them; only a successful refresh replaces the list, wholesale. */
  function AfterAdd(s: ViewState, outcome: Outcome): (t: ViewState)
    ensures outcome == MutationFailed ==> t == s
    ensures outcome != MutationFailed ==>
      && t.successMessage == AddedMessage && t.newItem == EmptyNewDraft
      && t.items == (if outcome.Refreshed? then outcome.items else s.items)
      && AgreeExcept(s, t, {SuccessMessageField, NewItemField, ItemsField})
  {
    match outcome
    case MutationFailed => s
    case RefreshFailed => s.(successMessage := AddedMessage, newItem := EmptyNewDraft)
    case Refreshed(data) =>
      s.(successMessage := AddedMessage, newItem := EmptyNewDraft).(items := data)
  }

  /** `handleOpenUpdateModal(item)`: shows the update form pre-filled with
      exactly the item's id, name and description. */
  function OpenUpdateModal(s: ViewState, item: Item): (t: ViewState)
    ensures t.updateData == UpdateDraft(item.id, item.name, item.description)
    ensures t.showUpdateModal && t.successMessage == []
    ensures AgreeExcept(s, t, {ShowUpdateModalField, SuccessMessageField, UpdateDataField})
  {
    s.(showUpdateModal := true, successMessage := "",
       updateData := UpdateDraft(item.id, item.name, item.description))
  }

  /** `setShowUpdateModal(false)`, by the close button or Cancel. */
  function CloseUpdateModal(s: ViewState): (t: ViewState)
    ensures !t.showUpdateModal && AgreeExcept(s, t, {ShowUpdateModalField})
  {
    s.(showUpdateModal := false)
  }

  /** The update form's name field was edited; the id is never editable. */
  function SetUpdateName(s: ViewState, name: string): (t: ViewState)
    ensures t.updateData == UpdateDraft(s.updateData.id, name, s.updateData.description)
    ensures AgreeExcept(s, t, {UpdateDataField})
  {
    s.(updateData := s.updateData.(name := name))
  }

  /** The update form's description field was edited. */
  function SetUpdateDescription(s: ViewState, description: string): (t: ViewState)
    ensures t.updateData == UpdateDraft(s.updateData.id, s.updateData.name, Some(description))
    ensures AgreeExcept(s, t, {UpdateDataField})
  {
    s.(updateData := s.updateData.(description := Some(description)))
  }

  /** `handleUpdateItem` after `updateItem(id, {name, description})`: as for
      an add, with its own message, and the update draft is reset. */
  function AfterUpdate(s: ViewState, outcome: Outcome): (t: ViewState)
    ensures outcome == MutationFailed ==> t == s
    ensures outcome != MutationFailed ==>
      && t.successMessage == UpdatedMessage && t.updateData == EmptyUpdateDraft
      && t.items == (if outcome.Refreshed? then outcome.items else s.items)
      && AgreeExcept(s, t, {SuccessMessageField, UpdateDataField, ItemsField})
  {
    match outcome
    case MutationFailed => s
    case RefreshFailed => s.(successMessage := UpdatedMessage, updateData := EmptyUpdateDraft)
    case Refreshed(data) =>
      s.(successMessage := UpdatedMessage, updateData := EmptyUpdateDraft).(items := data)
  }

  /** `handleDeleteItem(id)` after `deleteItem(id)`: only a successful
      refresh changes anything, and then only the list; no message is shown
      and the search results are not recomputed. */
  function AfterDelete(s: ViewState, outcome: Outcome): (t: ViewState)
    ensures outcome.Refreshed? ==> t.items == outcome.items
    ensures !outcome.Refreshed? ==> t == s
    ensures AgreeExcept(s, t, {ItemsField})
  {
    if outcome.Refreshed? then s.(items := outcome.items) else s
  }

  /** The first `getAllItems` when the page loads: a reply replaces the list;
      a failure leaves it as it is. */
  function AfterLoad(s: ViewState, reply: Option<seq<Item>>): (t: ViewState)
    ensures t.items == (if reply.Some? then reply.value else s.items)
    ensures AgreeExcept(s, t, {ItemsField})
  {
    if reply.Some? then s.(items := reply.value) else s
  }

  /** The "No items match your search criteria." notice: rendered when there
      are no results and the current search text, trimmed, is not empty. */
  predicate ShowsNoMatchesNotice(s: ViewState) {
    |s.searchResults| == 0 && !IsBlank(s.search)
  }

  /** Right after a search, the notice is shown exactly when the text is not
      blank and no item of the list matches it; a blank search never shows
      it. */
  lemma NoticeAfterSearch(s: ViewState)
    ensures ShowsNoMatchesNotice(ApplySearch(s)) <==>
      !IsBlank(s.search) && forall x :: x in s.items ==> !Matches(x, Lower(s.search))
  {
    var t := ApplySearch(s);
    if !IsBlank(s.search) && |t.searchResults| == 0 {
      forall x | x in s.items ensures !Matches(x, Lower(s.search)) {
        assert x !in t.searchResults;
      }
    }
    if !IsBlank(s.search) && |t.searchResults| != 0 {
      assert t.searchResults[0] in t.searchResults;
    }
  }

  /** The notice reads the search text as it is now, not as it was searched:
      while there are no results, typing a non-blank text shows the notice
      before any search is run (from the initial state, for one). */
  lemma NoticeFollowsTypedText(s: ViewState, text: string)
    requires s.searchResults == []
    ensures ShowsNoMatchesNotice(SetSearch(s, text)) <==> !IsBlank(text)
    ensures ShowsNoMatchesNotice(SetSearch(Initial(), text)) <==> !IsBlank(text)
  {
  }

  /** Opening the add form twice is opening it once. */
  lemma OpenAddModalIdempotent(s: ViewState)
    ensures OpenAddModal(OpenAddModal(s)) == OpenAddModal(s)
  {
  }

  /** The draft and flags after opening the update form depend only on the
      chosen item, not on any earlier draft. */
  lemma OpenUpdateModalOverwrites(s1: ViewState, s2: ViewState, item: Item)
    requires AgreeExcept(s1, s2, {UpdateDataField, ShowUpdateModalField, SuccessMessageField})
    ensures OpenUpdateModal(s1, item) == OpenUpdateModal(s2, item)
  {
  }

  /** Every event the component reacts to. `Delete` carries the id of the
      row whose button was pressed; the state it leaves does not depend on
      that id, since the list comes from the refresh. */
  datatype Action =
    | EditSearch(text: string)
    | RunSearch
    | OpenAdd
    | CloseAdd
    | EditNewName(name: string)
    | EditNewDescription(description: string)
    | Add(outcome: Outcome)
    | OpenUpdate(item: Item)
    | CloseUpdate
    | EditUpdateName(name: string)
    | EditUpdateDescription(description: string)
    | Update(outcome: Outcome)
    | Delete(id: string, outcome: Outcome)
    | Load(reply: Option<seq<Item>>)

  function Step(s: ViewState, a: Action): ViewState {
    match a
    case EditSearch(text) => SetSearch(s, text)
    case RunSearch => ApplySearch(s)
    case OpenAdd => OpenAddModal(s)
    case CloseAdd => CloseAddModal(s)
    case EditNewName(name) => SetNewItemName(s, name)
    case EditNewDescription(description) => SetNewItemDescription(s, description)
    case Add(outcome) => AfterAdd(s, outcome)
    case OpenUpdate(item) => OpenUpdateModal(s, item)
    case CloseUpdate => CloseUpdateModal(s)
    case EditUpdateName(name) => SetUpdateName(s, name)
    case EditUpdateDescription(description) => SetUpdateDescription(s, description)
    case Update(outcome) => AfterUpdate(s, outcome)
    case Delete(_, outcome) => AfterDelete(s, outcome)
    case Load(reply) => AfterLoad(s, reply)
  }

  /** The state after the events `actions`, in order. */
  function Run(s: ViewState, actions: seq<Action>): ViewState
    decreases |actions|
  {
    if actions == [] then s else Run(Step(s, actions[0]), actions[1..])
  }

  /** The only messages the component ever shows. */
  predicate KnownMessage(m: string) {
    m == "" || m == AddedMessage || m == UpdatedMessage
  }

  /** A success message is cleared only by opening a form, and is otherwise
      either kept or set by a successful add or update. */
  lemma MessageClearedOnlyOnOpen(s: ViewState, a: Action)
    requires s.successMessage != []
    ensures Step(s, a).successMessage == [] ==> a.OpenAdd? || a.OpenUpdate?
    ensures !(a.OpenAdd? || a.OpenUpdate? || a.Add? || a.Update?) ==>
      Step(s, a).successMessage == s.successMessage
  {
  }

  /** The search results change only when a search is run, so refreshing the
      list after a mutation leaves them stale. */
  lemma ResultsChangeOnlyOnSearch(s: ViewState, a: Action)
    requires !a.RunSearch?
    ensures Step(s, a).searchResults == s.searchResults
  {
  }

  /** The list is only ever replaced by a reply from the server. */
  lemma ItemsOnlyFromServer(s: ViewState, a: Action)
    ensures || Step(s, a).items == s.items
            || ((a.Add? || a.Update? || a.Delete?) && a.outcome.Refreshed? && Step(s, a).items == a.outcome.items)
            || (a.Load? && a.reply.Some? && Step(s, a).items == a.reply.value)
  {
  }

  /** Whatever happens, the success message is empty or one of the two
      messages of add and update. */
  lemma {:induction false} RunKeepsKnownMessage(s: ViewState, actions: seq<Action>)
    requires KnownMessage(s.successMessage)
    ensures KnownMessage(Run(s, actions).successMessage)
    decreases |actions|
  {
    if actions != [] {
      var t := Step(s, actions[0]);
      assert KnownMessage(t.successMessage);
      RunKeepsKnownMessage(t, actions[1..]);
    }
  }
}
