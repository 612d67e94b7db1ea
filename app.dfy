/** The `App` component as an object: its eight state variables are fields,
    and each handler overwrites some of them, one setter call after another.
    Each handler is specified by the transition of the same event on the
    record of the fields, `State()`. */
module Component {
  import opened Text
  import opened Search
  import opened View

  class App {
    var items: seq<Item>
    var search: string
    var searchResults: seq<Item>
    var newItem: NewDraft
    var updateData: UpdateDraft
    var showAddModal: bool
    var showUpdateModal: bool
    var successMessage: string

    /** The fields as one record. */
    function State(): ViewState
      reads this
    {
      ViewState(items, search, searchResults, newItem, updateData,
                showAddModal, showUpdateModal, successMessage)
    }

    /** The `useState` initial values. */
    constructor ()
      ensures State() == Initial()
    {
      items := [];
      search := "";
      searchResults := [];
      newItem := NewDraft("", "");
      updateData := UpdateDraft("", "", Some(""));
      showAddModal := false;
      showUpdateModal := false;
      successMessage := "";
    }

    /** `fetchData` on page load, given what `getAllItems` replied (None when
        it threw). */
    method FetchData(reply: Option<seq<Item>>)
      modifies this
      ensures State() == AfterLoad(old(State()), reply)
    {
      if reply.Some? {
        items := reply.value;
      }
    }

    /** The search box's `onChange`. */
    method SetSearch(text: string)
      modifies this
      ensures State() == View.SetSearch(old(State()), text)
    {
      search := text;
    }

    /** `handleSearch`: a blank term stores no results, any other term the
        filtered list. */
    method HandleSearch()
      modifies this
      ensures State() == ApplySearch(old(State()))
    {
      ApplySearchStores(State());
      var searchTerm := Lower(search);
      var results: seq<Item>;
      if IsBlank(searchTerm) {
        results := [];
      } else {
        results := Filter(items, MatcherFor(searchTerm));
      }
      assert results == SearchResults(items, search);
      searchResults := results;
    }

    /** `handleOpenAddModal`. */
    method HandleOpenAddModal()
      modifies this
      ensures State() == OpenAddModal(old(State()))
    {
      showAddModal := true;
      successMessage := "";
      newItem := NewDraft("", "");
    }

    /** The add form's close button and Cancel. */
    method CloseAddModal()
      modifies this
      ensures State() == View.CloseAddModal(old(State()))
    {
      showAddModal := false;
    }

    /** The add form's name field `onChange`. */
    method SetNewItemName(name: string)
      modifies this
      ensures State() == View.SetNewItemName(old(State()), name)
    {
      newItem := newItem.(name := name);
    }

    /** The add form's description field `onChange`. */
    method SetNewItemDescription(description: string)
      modifies this
      ensures State() == View.SetNewItemDescription(old(State()), description)
    {
      newItem := newItem.(description := description);
    }

    /** `handleAddItem`: `request` is the body sent to `addItem`, the current
        draft; `outcome` is how that call and the refresh went. */
    method HandleAddItem(outcome: Outcome) returns (request: NewDraft)
      modifies this
      ensures request == old(newItem)
      ensures State() == AfterAdd(old(State()), outcome)
    {
      request := newItem;
      if outcome == MutationFailed {
        return;
      }
      successMessage := AddedMessage;
      newItem := NewDraft("", "");
      if outcome.Refreshed? {
        items := outcome.items;
      }
    }

    /** `handleOpenUpdateModal(item)`. */
    method HandleOpenUpdateModal(item: Item)
      modifies this
      ensures State() == OpenUpdateModal(old(State()), item)
    {
      showUpdateModal := true;
      successMessage := "";
      updateData := UpdateDraft(item.id, item.name, item.description);
    }

    /** The update form's close button and Cancel. */
    method CloseUpdateModal()
      modifies this
      ensures State() == View.CloseUpdateModal(old(State()))
    {
      showUpdateModal := false;
    }

    /** The update form's name field `onChange`. */
    method SetUpdateName(name: string)
      modifies this
      ensures State() == View.SetUpdateName(old(State()), name)
    {
      updateData := updateData.(name := name);
    }

    /** The update form's description field `onChange`. */
    method SetUpdateDescription(description: string)
      modifies this
      ensures State() == View.SetUpdateDescription(old(State()), description)
    {
      updateData := updateData.(description := Some(description));
    }

    /** `handleUpdateItem`: `updateItem` is called with the draft's id and a
        body of its name and description, as they are at the click. */
    method HandleUpdateItem(outcome: Outcome) returns (id: string, name: string, description: Option<string>)
      modifies this
      ensures id == old(updateData.id) && name == old(updateData.name)
      ensures description == old(updateData.description)
      ensures State() == AfterUpdate(old(State()), outcome)
    {
      id, name, description := updateData.id, updateData.name, updateData.description;
      if outcome == MutationFailed {
        return;
      }
      successMessage := UpdatedMessage;
      updateData := UpdateDraft("", "", Some(""));
      if outcome.Refreshed? {
        items := outcome.items;
      }
    }

    /** `handleDeleteItem(id)`: `sent` is the id passed to `deleteItem`; only
        the refreshed list is stored. */
    method HandleDeleteItem(id: string, outcome: Outcome) returns (sent: string)
      modifies this
      ensures sent == id
      ensures State() == AfterDelete(old(State()), outcome)
    {
      sent := id;
      if outcome.Refreshed? {
        items := outcome.items;
      }
    }

    /** Whether the rendering shows the "no matches" notice: not when there
        are results to list, otherwise when `search.trim()` is not empty. */
    method NoMatchesNoticeShown() returns (shown: bool)
      ensures shown <==> ShowsNoMatchesNotice(State())
      ensures shown <==> searchResults == [] && !AllSpace(search)
    {
      if |searchResults| > 0 {
        shown := false;
      } else {
        shown := Trim(search) != [];
      }
      BlankIffAllSpace(search);
    }
  }

  /** Opening the add form twice in a row leaves the same state as opening it
      once, whatever the draft held before. */
  method OpenAddTwice(app: App)
    modifies app
    ensures app.State() == OpenAddModal(old(app.State()))
    ensures app.newItem == EmptyNewDraft
  {
    app.HandleOpenAddModal();
    app.HandleOpenAddModal();
    OpenAddModalIdempotent(old(app.State()));
  }
}
