/** The TodoMVC example's handlers (examples/todomvc/app.js) as methods of
    an object holding the module-level id counter and the MiniFrame store
    they update. Each handler reads the store, computes the new list with
    the functions of TodoList, and writes it back with `setState`; the
    notifications that `setState` makes are returned. */
module TodoApp {
  import opened StateStore
  import opened TodoList
  import Router

  /** The values the example keeps in the store. `IdV` is the `editingId`
      that starting an edit writes; that handler belongs to the item view,
      which is not part of this model, so only `NullV` is written here. */
  datatype AppValue = TodosV(todos: seq<Todo>) | StrV(s: string) | IdV(id: int) | NullV

  /** The first `setState` of the example. */
  function InitialState(): (r: map<string, AppValue>)
    ensures r.Keys == {"todos", "filter", "newTodo", "editingId", "editingText"}
    ensures Consistent(r, 1)
    ensures r["todos"] == TodosV([]) && r["filter"] == StrV("all")
  {
    map["todos" := TodosV([]), "filter" := StrV("all"), "newTodo" := StrV(""),
        "editingId" := NullV, "editingText" := StrV("")]
  }

  /** The keys every handler reads have the shape the example gives them. */
  predicate WellFormed(state: map<string, AppValue>)
  {
    "todos" in state && state["todos"].TodosV? && "filter" in state && state["filter"].StrV?
  }

  /** The class invariant on the store's state and the id counter. */
  ghost predicate Consistent(state: map<string, AppValue>, todoId: int)
  {
    && WellFormed(state)
    && todoId >= 1
    && IdsIncreasing(state["todos"].todos)
    && forall i :: 0 <= i < |state["todos"].todos| ==> state["todos"].todos[i].id < todoId
  }

  /** Appending an item with the counter's id and advancing the counter keeps
      the invariant. */
  lemma AddKeepsConsistent(state: map<string, AppValue>, todoId: int, text: string)
    requires Consistent(state, todoId)
    ensures Consistent(
      Merge(state, map["todos" := TodosV(state["todos"].todos + [Todo(todoId, text, false)]),
                       "newTodo" := StrV("")]),
      todoId + 1)
  {
    AppendKeepsIdsIncreasing(state["todos"].todos, Todo(todoId, text, false));
  }

  /** Renaming an item and ending the edit keeps the invariant. */
  lemma RenameKeepsConsistent(state: map<string, AppValue>, todoId: int, id: int, text: string)
    requires Consistent(state, todoId)
    ensures Consistent(
      Merge(state, map["todos" := TodosV(RenameTodo(state["todos"].todos, id, text)),
                       "editingId" := NullV, "editingText" := StrV("")]),
      todoId)
  {
    var todos := state["todos"].todos;
    var renamed := RenameTodo(todos, id, text);
    assert forall i :: 0 <= i < |todos| ==> renamed[i].id == todos[i].id;
  }

  class TodoMvc {
    const store: Store<AppValue>
    /** `let todoId = 1`: the id the next added item gets. */
    var todoId: int

    /** The store holds a list and a filter; ids strictly increase along the
        list and all lie below the counter, so they are unique and a new id
        never collides with an old one. */
    ghost predicate Valid()
      reads this, store
    {
      Consistent(store.state, todoId)
    }

    /** `state.getState().todos`. */
    function Todos(): seq<Todo>
      reads store
      requires WellFormed(store.state)
    {
      store.state["todos"].todos
    }

    function CurrentFilter(): string
      reads store
      requires WellFormed(store.state)
    {
      store.state["filter"].s
    }

    /** The initial `setState` and the counter's start value. */
    constructor (store: Store<AppValue>)
      modifies store
      ensures this.store == store && todoId == 1
      ensures store.state == Merge(old(store.state), InitialState())
      ensures store.subscribers == old(store.subscribers)
      ensures Valid()
    {
      var _ := store.SetState(InitialState());
      this.store := store;
      todoId := 1;
    }

    /** `addTodo(text)`: nothing for a blank text; otherwise one new item with
        the next id, the trimmed text and `completed: false` at the end, the
        counter advanced and the input text reset. */
    method AddTodo(text: string) returns (notified: seq<Notification<AppValue>>)
      requires Valid()
      modifies this, store
      ensures Valid()
      ensures store.subscribers == old(store.subscribers)
      ensures Trim(text) == "" ==>
        store.state == old(store.state) && todoId == old(todoId) && notified == []
      ensures Trim(text) != "" ==>
        && todoId == old(todoId) + 1
        && store.state == Merge(old(store.state),
             map["todos" := TodosV(old(Todos()) + [Todo(old(todoId), Trim(text), false)]),
                 "newTodo" := StrV("")])
        && notified == Broadcast(store.subscribers, store.state)
    {
      notified := [];
      var trimmed := Trim(text);
      if trimmed != "" {
        var current := store.GetState();
        var todos := current["todos"].todos;
        AddKeepsConsistent(current, todoId, trimmed);
        todos := todos + [Todo(todoId, trimmed, false)];
        todoId := todoId + 1;
        notified := store.SetState(map["todos" := TodosV(todos), "newTodo" := StrV("")]);
      }
    }

    /** `toggleTodo(id)`. */
    method ToggleTodo(id: int) returns (notified: seq<Notification<AppValue>>)
      requires Valid()
      modifies store
      ensures Valid()
      ensures store.subscribers == old(store.subscribers)
      ensures store.state == Merge(old(store.state), map["todos" := TodosV(TodoList.ToggleTodo(old(Todos()), id))])
      ensures notified == Broadcast(store.subscribers, store.state)
    {
      var current := store.GetState();
      var todos := TodoList.ToggleTodo(current["todos"].todos, id);
      notified := store.SetState(map["todos" := TodosV(todos)]);
    }

    /** `deleteTodo(id)`. */
    method DeleteTodo(id: int) returns (notified: seq<Notification<AppValue>>)
      requires Valid()
      modifies store
      ensures Valid()
      ensures store.subscribers == old(store.subscribers)
      ensures store.state == Merge(old(store.state), map["todos" := TodosV(TodoList.DeleteTodo(old(Todos()), id))])
      ensures notified == Broadcast(store.subscribers, store.state)
    {
      var current := store.GetState();
      var todos := TodoList.DeleteTodo(current["todos"].todos, id);
      FilterKeepsIdsIncreasing(current["todos"].todos, (t: Todo) => t.id != id);
      notified := store.SetState(map["todos" := TodosV(todos)]);
    }

    /** `editTodo(id, newText)`: a blank text deletes the item (and leaves
        the editing state as it is); otherwise the item gets the trimmed
        text and editing ends. */
    method EditTodo(id: int, newText: string) returns (notified: seq<Notification<AppValue>>)
      requires Valid()
      modifies store
      ensures Valid()
      ensures store.subscribers == old(store.subscribers)
      ensures Trim(newText) == "" ==>
        store.state == Merge(old(store.state), map["todos" := TodosV(TodoList.DeleteTodo(old(Todos()), id))])
      ensures Trim(newText) != "" ==>
        store.state == Merge(old(store.state),
          map["todos" := TodosV(RenameTodo(old(Todos()), id, Trim(newText))),
              "editingId" := NullV, "editingText" := StrV("")])
      ensures notified == Broadcast(store.subscribers, store.state)
    {
      var trimmed := Trim(newText);
      if trimmed != "" {
        var current := store.GetState();
        var todos := RenameTodo(current["todos"].todos, id, trimmed);
        RenameKeepsConsistent(current, todoId, id, trimmed);
        notified := store.SetState(map["todos" := TodosV(todos), "editingId" := NullV, "editingText" := StrV("")]);
      } else {
        notified := DeleteTodo(id);
      }
    }

    /** `toggleAll()`. */
    method ToggleAll() returns (notified: seq<Notification<AppValue>>)
      requires Valid()
      modifies store
      ensures Valid()
      ensures store.subscribers == old(store.subscribers)
      ensures store.state == Merge(old(store.state), map["todos" := TodosV(TodoList.ToggleAll(old(Todos())))])
      ensures notified == Broadcast(store.subscribers, store.state)
    {
      var current := store.GetState();
      var todos := TodoList.ToggleAll(current["todos"].todos);
      notified := store.SetState(map["todos" := TodosV(todos)]);
    }

    /** `clearCompleted()`. */
    method ClearCompleted() returns (notified: seq<Notification<AppValue>>)
      requires Valid()
      modifies store
      ensures Valid()
      ensures store.subscribers == old(store.subscribers)
      ensures store.state == Merge(old(store.state), map["todos" := TodosV(TodoList.ClearCompleted(old(Todos())))])
      ensures notified == Broadcast(store.subscribers, store.state)
    {
      var current := store.GetState();
      var todos := TodoList.ClearCompleted(current["todos"].todos);
      FilterKeepsIdsIncreasing(current["todos"].todos, IsActive);
      notified := store.SetState(map["todos" := TodosV(todos)]);
    }

    /** `setFilter(newFilter)`: the store is written, and its subscribers
        notified, only when the filter changes. */
    method SetFilter(newFilter: string) returns (notified: seq<Notification<AppValue>>)
      requires Valid()
      modifies store
      ensures Valid()
      ensures store.subscribers == old(store.subscribers)
      ensures old(CurrentFilter()) == newFilter ==> store.state == old(store.state) && notified == []
      ensures old(CurrentFilter()) != newFilter ==>
        store.state == Merge(old(store.state), map["filter" := StrV(newFilter)]) &&
        notified == Broadcast(store.subscribers, store.state)
    {
      notified := [];
      var current := store.GetState();
      if current["filter"] != StrV(newFilter) {
        notified := store.SetState(map["filter" := StrV(newFilter)]);
      }
    }

    /** `handleRouteChange()`: the filter named by the hash's path. */
    method HandleRouteChange(hash: string) returns (notified: seq<Notification<AppValue>>)
      requires Valid()
      modifies store
      ensures Valid()
      ensures store.subscribers == old(store.subscribers)
      ensures var f := FilterForPath(Router.PathOf(hash));
        (old(CurrentFilter()) == f ==> store.state == old(store.state) && notified == []) &&
        (old(CurrentFilter()) != f ==>
          store.state == Merge(old(store.state), map["filter" := StrV(f)]) &&
          notified == Broadcast(store.subscribers, store.state))
    {
      var path := Router.PathOf(hash);
      var newFilter := FilterForPath(path);
      notified := SetFilter(newFilter);
    }

    /** The data `TodoApp()` renders: the filtered list, the two counts and
        the state of the toggle-all checkbox. */
    method View() returns (visible: seq<Todo>, active: nat, completed: nat, allChecked: bool)
      requires Valid()
      ensures visible == FilterView(Todos(), CurrentFilter())
      ensures active == |FilterView(Todos(), "active")|
      ensures completed == |FilterView(Todos(), "completed")|
      ensures active + completed == |Todos()|
      ensures allChecked <==> |Todos()| > 0 && forall i :: 0 <= i < |Todos()| ==> Todos()[i].completed
    {
      var current := store.GetState();
      var todos := current["todos"].todos;
      var filter := current["filter"].s;
      visible := FilterView(todos, filter);
      CountsMatchViews(todos);
      active := ActiveCount(todos);
      completed := CompletedCount(todos);
      allChecked := |todos| > 0 && AllCompleted(todos);
    }
  }
}
