/** The list logic of the TodoMVC example (examples/todomvc/app.js): the
    transformations its handlers apply to the list of to-dos, the filtered
    view, the counts and the mapping from a route path to a filter. */
module TodoList {
  import opened Seqs

  datatype Todo = Todo(id: int, text: string, completed: bool)

  // ---- String.prototype.trim ----

  /** The characters `trim` removes: ECMAScript WhiteSpace and LineTerminator. */
  predicate IsWhitespace(c: char)
  {
    c == ' ' || c == '\t' || c == '\n' || c == '\r' || c == '\U{000B}' || c == '\U{000C}' ||
    c == '\U{00A0}' || c == '\U{FEFF}' || c == '\U{1680}' || '\U{2000}' <= c <= '\U{200A}' ||
    c == '\U{2028}' || c == '\U{2029}' || c == '\U{202F}' || c == '\U{205F}' || c == '\U{3000}'
  }

  function TrimStart(s: string): (r: string)
    ensures |r| <= |s| && r == s[|s| - |r|..]
    ensures forall i :: 0 <= i < |s| - |r| ==> IsWhitespace(s[i])
    ensures r != "" ==> !IsWhitespace(r[0])
  {
    if s != "" && IsWhitespace(s[0]) then TrimStart(s[1..]) else s
  }

  function TrimEnd(s: string): (r: string)
    ensures |r| <= |s| && r == s[..|r|]
    ensures forall i :: |r| <= i < |s| ==> IsWhitespace(s[i])
    ensures r != "" ==> !IsWhitespace(r[|r| - 1])
  {
    if s != "" && IsWhitespace(s[|s| - 1]) then TrimEnd(s[..|s| - 1]) else s
  }

  /** `s.trim()`: `s` without its leading and trailing white space. It is
      empty exactly when `s` is all white space, and otherwise starts and
      ends with a character that is not white space. */
  function Trim(s: string): (r: string)
    ensures |r| <= |s|
    ensures r == "" <==> forall i :: 0 <= i < |s| ==> IsWhitespace(s[i])
    ensures r != "" ==> !IsWhitespace(r[0]) && !IsWhitespace(r[|r| - 1])
  {
    var t := TrimStart(s);
    var r := TrimEnd(t);
    TrimEnds(s, t, r);
    r
  }

  /** The facts about `Trim` follow from those of its two halves, `t` the
      text without its leading white space and `r` that without its trailing
      white space. */
  lemma TrimEnds(s: string, t: string, r: string)
    requires |t| <= |s| && t == s[|s| - |t|..]
    requires forall i :: 0 <= i < |s| - |t| ==> IsWhitespace(s[i])
    requires t != "" ==> !IsWhitespace(t[0])
    requires |r| <= |t| && r == t[..|r|]
    requires forall i :: |r| <= i < |t| ==> IsWhitespace(t[i])
    requires r != "" ==> !IsWhitespace(r[|r| - 1])
    ensures r == "" <==> forall i :: 0 <= i < |s| ==> IsWhitespace(s[i])
    ensures r != "" ==> !IsWhitespace(r[0])
  {
    var k := |s| - |t|;
    if r == "" {
      SuffixAllWhitespace(s, k);
    } else {
      assert r[0] == t[0] == s[k];
    }
  }

  lemma SuffixAllWhitespace(s: string, k: nat)
    requires k <= |s|
    requires forall i :: 0 <= i < |s| - k ==> IsWhitespace(s[k..][i])
    ensures forall i :: k <= i < |s| ==> IsWhitespace(s[i])
  {
    forall i | k <= i < |s| ensures IsWhitespace(s[i]) {
      assert s[i] == s[k..][i - k];
    }
  }

  /** The trimmed text is the slice of `s` left after cutting a white-space
      prefix of length `k` and a white-space suffix. */
  lemma TrimIsMiddle(s: string) returns (k: nat)
    ensures k + |Trim(s)| <= |s| && Trim(s) == s[k..k + |Trim(s)|]
    ensures forall i :: 0 <= i < k ==> IsWhitespace(s[i])
    ensures forall i :: k + |Trim(s)| <= i < |s| ==> IsWhitespace(s[i])
  {
    var t := TrimStart(s);
    var r := TrimEnd(t);
    k := |s| - |t|;
    assert r == s[k..][..|r|];
    forall i | k + |r| <= i < |s| ensures IsWhitespace(s[i]) {
      assert s[i] == t[i - k];
    }
  }

  /** Trimming an already trimmed text changes nothing. */
  lemma TrimIdempotent(s: string)
    ensures Trim(Trim(s)) == Trim(s)
  {
    var r := Trim(s);
    if r != "" {
      assert TrimStart(r) == r;
      assert TrimEnd(r) == r;
    }
  }

  // ---- The handlers' list transformations ----

  /** `todos.map(t => t.id === id ? {...t, completed: !t.completed} : t)`:
      only the items with that id change, and only their `completed` flag. */
  function ToggleTodo(todos: seq<Todo>, id: int): (r: seq<Todo>)
    ensures |r| == |todos|
    ensures forall i :: 0 <= i < |r| && todos[i].id != id ==> r[i] == todos[i]
    ensures forall i :: 0 <= i < |r| && todos[i].id == id ==>
      r[i].id == id && r[i].text == todos[i].text && r[i].completed == !todos[i].completed
  {
    seq(|todos|, i requires 0 <= i < |todos| =>
      if todos[i].id == id then todos[i].(completed := !todos[i].completed) else todos[i])
  }

  /** Toggling the same id twice restores the list. */
  lemma ToggleTodoTwice(todos: seq<Todo>, id: int)
    ensures ToggleTodo(ToggleTodo(todos, id), id) == todos
  {
    var r := ToggleTodo(ToggleTodo(todos, id), id);
    assert forall i :: 0 <= i < |todos| ==> r[i] == todos[i];
  }

  /** `todos.filter(t => t.id !== id)`. */
  function DeleteTodo(todos: seq<Todo>, id: int): (r: seq<Todo>)
    ensures forall t :: t in r <==> t in todos && t.id != id
    ensures forall t :: multiset(r)[t] == if t.id != id then multiset(todos)[t] else 0
  {
    var p := (t: Todo) => t.id != id;
    FilterMembers(todos, p);
    FilterCounts(todos, p);
    Filter(todos, p)
  }

  /** Deleting keeps the other items in their order, and deleting twice is
      deleting once. */
  lemma DeleteTodoKeepsOrder(todos: seq<Todo>, id: int)
    ensures Subsequence(DeleteTodo(todos, id), todos)
    ensures DeleteTodo(DeleteTodo(todos, id), id) == DeleteTodo(todos, id)
  {
    FilterIsSubsequence(todos, (t: Todo) => t.id != id);
    FilterIdempotent(todos, (t: Todo) => t.id != id);
  }

  /** The `map` in `editTodo`: the items with that id get the new text. */
  function RenameTodo(todos: seq<Todo>, id: int, text: string): (r: seq<Todo>)
    ensures |r| == |todos|
    ensures forall i :: 0 <= i < |r| && todos[i].id != id ==> r[i] == todos[i]
    ensures forall i :: 0 <= i < |r| && todos[i].id == id ==>
      r[i].id == id && r[i].text == text && r[i].completed == todos[i].completed
  {
    seq(|todos|, i requires 0 <= i < |todos| =>
      if todos[i].id == id then todos[i].(text := text) else todos[i])
  }

  /** `todos.every(t => t.completed)`. */
  predicate AllCompleted(todos: seq<Todo>)
  {
    forall i :: 0 <= i < |todos| ==> todos[i].completed
  }

  /** `toggleAll`: every item gets `completed = !allCompleted`. */
  function ToggleAll(todos: seq<Todo>): (r: seq<Todo>)
    ensures |r| == |todos|
    ensures forall i :: 0 <= i < |r| ==>
      r[i].id == todos[i].id && r[i].text == todos[i].text && r[i].completed == !AllCompleted(todos)
  {
    var all := AllCompleted(todos);
    seq(|todos|, i requires 0 <= i < |todos| => todos[i].(completed := !all))
  }

  /** On a non-empty list, toggle-all flips the "all completed" state that
      the toggle-all checkbox shows; on an empty list it changes nothing. */
  lemma ToggleAllFlipsCheckbox(todos: seq<Todo>)
    ensures todos == [] ==> ToggleAll(todos) == []
    ensures todos != [] ==> AllCompleted(ToggleAll(todos)) == !AllCompleted(todos)
  {
    if todos != [] {
      assert ToggleAll(todos)[0].completed == !AllCompleted(todos);
    }
  }

  predicate IsActive(t: Todo)
  {
    !t.completed
  }

  /** `todos.filter(t => !t.completed)`. */
  function ClearCompleted(todos: seq<Todo>): (r: seq<Todo>)
    ensures forall t :: t in r <==> t in todos && !t.completed
    ensures forall t :: multiset(r)[t] == if !t.completed then multiset(todos)[t] else 0
  {
    FilterMembers(todos, IsActive);
    FilterCounts(todos, IsActive);
    Filter(todos, IsActive)
  }

  /** Clearing keeps the uncompleted items in their order and is idempotent. */
  lemma ClearCompletedKeepsOrder(todos: seq<Todo>)
    ensures Subsequence(ClearCompleted(todos), todos)
    ensures ClearCompleted(ClearCompleted(todos)) == ClearCompleted(todos)
  {
    FilterIsSubsequence(todos, IsActive);
    FilterIdempotent(todos, IsActive);
  }

  // ---- The view computed by TodoApp ----

  /** Whether an item shows under `filter`. */
  predicate Shows(filter: string, t: Todo)
  {
    if filter == "active" then !t.completed
    else if filter == "completed" then t.completed
    else true
  }

  /** `filteredTodos`. */
  function FilterView(todos: seq<Todo>, filter: string): (r: seq<Todo>)
    ensures forall t :: t in r <==> t in todos && Shows(filter, t)
    ensures forall t :: multiset(r)[t] == if Shows(filter, t) then multiset(todos)[t] else 0
  {
    var p := (t: Todo) => Shows(filter, t);
    FilterMembers(todos, p);
    FilterCounts(todos, p);
    Filter(todos, p)
  }

  /** The view keeps the original order; under `active` it is exactly what
      clearing the completed items leaves; under any other name than
      `active` and `completed` it is the whole list. */
  lemma FilterViewSpec(todos: seq<Todo>, filter: string)
    ensures Subsequence(FilterView(todos, filter), todos)
    ensures filter == "active" ==> FilterView(todos, filter) == ClearCompleted(todos)
    ensures filter != "active" && filter != "completed" ==> FilterView(todos, filter) == todos
  {
    FilterIsSubsequence(todos, t => Shows(filter, t));
    if filter == "active" {
      FilterAgree(todos, t => Shows(filter, t), IsActive);
    } else if filter != "completed" {
      FilterAll(todos, t => Shows(filter, t));
    }
  }

  /** `activeTodosCount`: all items when none is completed, none when all are. */
  function ActiveCount(todos: seq<Todo>): (r: nat)
    ensures r <= |todos|
    ensures (forall i :: 0 <= i < |todos| ==> !todos[i].completed) ==> r == |todos|
    ensures (forall i :: 0 <= i < |todos| ==> todos[i].completed) ==> r == 0
  {
    FilterMembers(todos, IsActive);
    if forall i :: 0 <= i < |todos| ==> IsActive(todos[i]) then
      FilterAll(todos, IsActive);
      |Filter(todos, IsActive)|
    else
      var active := Filter(todos, IsActive);
      assert active != [] ==> active[0] in todos && IsActive(active[0]);
      |active|
  }

  /** `completedTodosCount = todos.length - activeTodosCount`: never negative,
      all items when all are completed, none when none is. */
  function CompletedCount(todos: seq<Todo>): (r: int)
    ensures 0 <= r <= |todos|
    ensures (forall i :: 0 <= i < |todos| ==> todos[i].completed) ==> r == |todos|
    ensures (forall i :: 0 <= i < |todos| ==> !todos[i].completed) ==> r == 0
  {
    |todos| - ActiveCount(todos)
  }

  /** The counts are the sizes of the `active` and `completed` views, so they
      add up to the length and neither is negative. */
  lemma CountsMatchViews(todos: seq<Todo>)
    ensures ActiveCount(todos) == |FilterView(todos, "active")|
    ensures CompletedCount(todos) == |FilterView(todos, "completed")|
    ensures CompletedCount(todos) >= 0
    ensures ActiveCount(todos) + CompletedCount(todos) == |todos|
  {
    FilterViewSpec(todos, "active");
    FilterComplementLength(todos, IsActive, t => Shows("completed", t));
  }

  /** After clearing, nothing completed is left to count. */
  lemma ClearCompletedCounts(todos: seq<Todo>)
    ensures CompletedCount(ClearCompleted(todos)) == 0
    ensures ActiveCount(ClearCompleted(todos)) == ActiveCount(todos)
  {
    var r := ClearCompleted(todos);
    FilterAll(r, IsActive);
  }

  // ---- handleRouteChange ----

  /** The filter a route path selects. */
  function FilterForPath(path: string): (filter: string)
    ensures filter == "active" <==> path == "/active"
    ensures filter == "completed" <==> path == "/completed"
    ensures filter == "all" <==> path != "/active" && path != "/completed"
  {
    if path == "/active" then "active"
    else if path == "/completed" then "completed"
    else "all"
  }

  // ---- The id invariant ----

  /** Ids strictly increase along the list (so they are unique). */
  predicate IdsIncreasing(todos: seq<Todo>)
  {
    forall i, j :: 0 <= i < j < |todos| ==> todos[i].id < todos[j].id
  }

  /** Filtering keeps the ids strictly increasing. */
  lemma {:induction false} FilterKeepsIdsIncreasing(todos: seq<Todo>, p: Todo -> bool)
    requires IdsIncreasing(todos)
    ensures IdsIncreasing(Filter(todos, p))
  {
    if todos != [] {
      var rest := todos[1..];
      FilterKeepsIdsIncreasing(rest, p);
      var f := Filter(rest, p);
      if p(todos[0]) {
        FilterIdsAbove(rest, p, todos[0].id);
        PrependKeepsIdsIncreasing(todos[0], f);
        assert Filter(todos, p) == [todos[0]] + f;
      } else {
        assert Filter(todos, p) == f;
      }
    }
  }

  lemma FilterIdsAbove(s: seq<Todo>, p: Todo -> bool, bound: int)
    requires forall i :: 0 <= i < |s| ==> bound < s[i].id
    ensures forall k :: 0 <= k < |Filter(s, p)| ==> bound < Filter(s, p)[k].id
  {
    var f := Filter(s, p);
    FilterMembers(s, p);
    forall k | 0 <= k < |f| ensures bound < f[k].id {
      assert f[k] in s;
    }
  }

  lemma PrependKeepsIdsIncreasing(t: Todo, f: seq<Todo>)
    requires IdsIncreasing(f)
    requires forall k :: 0 <= k < |f| ==> t.id < f[k].id
    ensures IdsIncreasing([t] + f)
  {
    var g := [t] + f;
    forall i, j | 0 <= i < j < |g| ensures g[i].id < g[j].id {
      assert g[j] == f[j - 1];
      if i > 0 {
        assert g[i] == f[i - 1];
      }
    }
  }

  /** Appending an item whose id exceeds every id keeps them increasing. */
  lemma AppendKeepsIdsIncreasing(todos: seq<Todo>, t: Todo)
    requires IdsIncreasing(todos)
    requires forall i :: 0 <= i < |todos| ==> todos[i].id < t.id
    ensures IdsIncreasing(todos + [t])
  {
  }
}
