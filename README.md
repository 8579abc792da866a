# MiniFrame core in Dafny

This project models the runtime of MiniFrame, a small client-side UI
framework, and the list logic of its TodoMVC example. The model covers:

- **State store** (`StateStore`, store.dfy). One shared mapping is replaced
  by a shallow merge on every `setState`. After each merge, the subscribers
  are notified in subscription order. `getState` hands out a copy.
  `subscribe` returns an unsubscribe closure that removes the first entry
  equal to its callback. `Store` is a class: `state` is a map and
  `subscribers` is a sequence of callback ids. `SetState` returns the calls
  it makes, as a list of (subscriber, state) notifications.
- **Element builder** (`Elements`, element.dfy). `createElement` is a
  method with one loop over the properties; the walk over a children array
  is the loop of `AppendChildNodes`. It is proved equal to the specification function `Build`. The DOM element is a
  record that holds the tag, attributes, listeners, class name, style,
  `checked`, `value`, `autofocus` and children. JavaScript values are the
  datatype `JsValue`.
- **Router and render pass** (`Router`, router.dfy):
  - Route resolution picks the first exact match, else the first `*`, else
    the first route.
  - The component is unwrapped in at most two steps: a call, an await when
    the result is a thenable, and a second call when the result is a
    function.
  - The root is cleared, and at most one node is appended.
  - When the first call throws, the thenable it returned rejects, or the
    second call throws, the root holds the error fallback.
  - `init` fails when the root element is missing. Otherwise it subscribes
    the render pass and runs it once.
- **TodoMVC list logic** (`TodoList`, todo_list.dfy). These are pure
  functions for toggle, delete, edit, toggle-all and clear-completed, plus
  the filtered view, the counts and the mapping from path to filter.
- **TodoMVC handlers** (`TodoApp`, todo_app.dfy). Class `TodoMvc` holds the
  id counter and the store. Each handler is a method whose new store state
  is stated in terms of the old one and the `TodoList` functions. The class
  invariant says that ids strictly increase along the list and all lie
  below the counter. So ids are unique, and a new item never reuses one.

`Seqs` (seqs.dfy) holds `Filter` (JavaScript's `Array.prototype.filter`),
the `Subsequence` relation used to state that order is kept, and their
lemmas.

Three behaviours of the code a reader might not expect:

- Only the first call's result is awaited. A thenable returned by the
  second call is neither awaited nor appended. A rejection at that level is
  not caught, so the root stays empty.
- Some function-valued properties are not ignored. Under `class`,
  `className` or `value`, a function is stored as is. Under `autofocus`, a
  function is truthy, so it sets the flag.
- The error content is the markup `<div>Error loading component</div>`:
  a `div` element holding one text node, not a bare text node.

## Model

| member | source | states |
|---|---|---|
| StateStore.Merge | bin/miniframe.js:12 | the merged state has the union of the keys; a key of the update takes the update's value, every other key keeps its old value |
| StateStore.MergeAllLastWins | bin/miniframe.js:11-14 | after any sequence of updates a key is present exactly when some update set it, with the value of the last update that set it |
| StateStore.StateAfterUpdates | bin/miniframe.js:11-18 | `getState()` after a sequence of `setState` calls on a new store equals the iterated merge of the updates starting from the empty state |
| StateStore.Notify | bin/miniframe.js:13 | the notification loop calls each subscriber exactly once, in list order, passing the new state |
| StateStore.Store.constructor | bin/miniframe.js:7-9 | a new store has an empty state and no subscribers |
| StateStore.Store.SetState | bin/miniframe.js:11-14 | the state becomes the merge of the old state and the update, subscribers are unchanged, and the calls made are one per subscriber in order with the new state |
| StateStore.Store.GetState | bin/miniframe.js:16-18 | returns a value equal to the state; as a map value it shares nothing with the store |
| StateStore.Store.Subscribe | bin/miniframe.js:20-22 | appends the callback at the end and returns a closure bound to that callback; the state is untouched |
| StateStore.Store.Unsubscribe | bin/miniframe.js:22-27 | the subscriber list loses the first entry equal to the callback, if there is one |
| StateStore.IndexOf | bin/miniframe.js:23 | returns the first position holding the callback, or -1 exactly when it is absent |
| StateStore.RemoveFirstRemovesOne | bin/miniframe.js:23-26 | unsubscribing removes one occurrence of the callback (as a multiset difference), changes nothing when it is absent, and keeps the order of the rest |
| StateStore.UnsubscribedIsNotNotified | bin/miniframe.js:13-27 | a callback subscribed once is absent after its closure runs, so no later notification goes to it |
| StateStore.UnsubscribeTwiceIsHarmless | bin/miniframe.js:20-27 | subscribe then unsubscribe restores the list, and running the closure a second time changes nothing |
| Elements.Interpret | bin/miniframe.js:37-56 | a key gets a listener exactly when it starts with `on` and its value is a function, named by the lower-cased rest of the key; otherwise `className`/`class` set the class name, an object `style` is assigned field by field, a boolean `checked` sets `checked`, `value` sets the value and a truthy `autofocus` sets the flag; every other non-function value (a non-boolean `checked`, a falsy `autofocus`, a non-object `style`, any other key) becomes the attribute named by the lower-cased key; a function value is dropped exactly when its key is not `on…`, `class`, `className`, `value` or `autofocus` |
| Elements.Perform | bin/miniframe.js:41-54 | one property's action keeps the tag and the children; a listener it adds is present afterwards, and a list of listeners without repeats stays so; only `setAttribute` changes the attributes, adding exactly its name |
| Elements.ApplyProps | bin/miniframe.js:36-57 | handling the properties keeps the tag and the children |
| Elements.LastWhere | bin/miniframe.js:36-57 | the last property satisfying a condition, or -1 exactly when none does |
| Elements.ApplyPropsClassName | bin/miniframe.js:42-43 | on a new element the class name is the value of the last `class` or `className` property, or the empty string when there is none |
| Elements.ApplyPropsStyle | bin/miniframe.js:44-45 | the style is the key-order merge of the entries of the object-valued `style` properties |
| Elements.ApplyPropsChecked | bin/miniframe.js:46-47 | `checked` is the last boolean `checked` property, or false |
| Elements.ApplyPropsValue | bin/miniframe.js:48-49 | the value is that of the last `value` property, or the empty string |
| Elements.ApplyPropsAutofocus | bin/miniframe.js:50-51 | `autofocus` is set exactly when some `autofocus` property is truthy |
| Elements.BuildFields | bin/miniframe.js:32-57 | the element `createElement` returns has the class name of the last `class`/`className` property (or empty), the last boolean `checked` (or false), the last `value` (or empty), `autofocus` exactly when some `autofocus` property is truthy, and as style the key-order merge of the style objects, so by `StateStore.MergeAllLastWins` each style entry holds its value from the last object that has it |
| Elements.AppendChildren | bin/miniframe.js:62-73 | walking a children array changes only the children, keeps the ones already there as a prefix, and adds at most one node per entry |
| Elements.AppendChildNodes | bin/miniframe.js:62-73 | the loop over the children array builds exactly `AppendChildren` of the element |
| Elements.SetChildren | bin/miniframe.js:59-74 | handling the children changes only the children, and nothing for a value that is neither a string, a number nor an array |
| Elements.Build | bin/miniframe.js:32-76 | the element has the requested tag; a string or number gives at most one child; any other non-array children value gives none |
| Elements.CreateElement | bin/miniframe.js:32-76 | the loop over the properties, then the children handling (with `AppendChildNodes` for an array), build exactly the element `Build` describes |
| Elements.BuildListeners | bin/miniframe.js:37-41 | the element's listeners are those of the `on…` function properties, in key order, with a repeated (event, handler) pair registered once as `addEventListener` does; no pair appears twice, every requested pair is present and no other |
| Elements.LastWriter | bin/miniframe.js:37-56 | the last property that writes a given attribute, or -1 exactly when none does |
| Elements.ApplyPropsAttributeValue | bin/miniframe.js:37-56 | after the properties are handled, an attribute written by some property holds the value of the last one that wrote it; one that none wrote is as before |
| Elements.BuildAttributes | bin/miniframe.js:37-56 | the attribute names set are exactly the (lower-cased) keys of the properties that reach the generic case, so a handler never also sets an attribute; each attribute holds the value of the last property that wrote it |
| Elements.BuildChildrenFromArray | bin/miniframe.js:62-73 | for an array of children the element holds, in order, a text node per string or number and each node, skipping everything else; their number is the count of such entries |
| Elements.BuildTextContent | bin/miniframe.js:60-61 | a string or number child becomes the text content; an empty string leaves no text node |
| Router.PathOf | bin/miniframe.js:101 | the path is the hash without its first character, or `/` when that is empty |
| Router.FindIndex | bin/miniframe.js:102 | finds the first route with the given path, or none exactly when no route has it |
| Router.ResolveRoute | bin/miniframe.js:102-112 | no route exactly for an empty table; else the first exact match, else the first `*`, else the first route |
| Router.ExampleRouteTable | bin/miniframe.js:101-112 | with routes `/` and `*`, `#/missing` picks the wildcard, `#/` and the empty hash pick `/` |
| Router.Await | bin/miniframe.js:129-134 | awaiting gives back a non-thenable unchanged, a rejected thenable rejects, a thenable fulfilled with a non-thenable gives that value, and any result is a rejection or a non-thenable |
| Router.Unwrap | bin/miniframe.js:122-145 | a value that is not a function is appended when it is a node and otherwise renders nothing; a throwing first call fails; only a function can fail |
| Router.ErrorFallback | bin/miniframe.js:148 | the fallback is a `div` with no attributes or listeners holding the one text node `Error loading component` |
| Router.RenderedRoot | bin/miniframe.js:114-149 | an empty table leaves the root as it was; otherwise the root ends with at most one child: the fallback on failure, the node when one is appended, nothing otherwise |
| Router.RenderIgnoresPreviousContent | bin/miniframe.js:119-120 | with a non-empty table the result does not depend on the previous content of the root |
| Router.UnwrapStopsAfterTwoCalls | bin/miniframe.js:126-145 | a third-level function is never called and a second-level thenable is never awaited; neither renders anything |
| Router.UnwrapAppends | bin/miniframe.js:126-145 | a node is appended exactly for a node, or a function whose (awaited) result is a node or a function returning a node |
| Router.UnwrapFails | bin/miniframe.js:122-149 | the pass fails exactly when the first call throws, its thenable rejects, or the second call throws |
| Router.Renderer.Render | bin/miniframe.js:100-150 | one render pass leaves the root as `RenderedRoot` of its old content, the routes and the hash |
| Router.Init | bin/miniframe.js:94-160 | a missing root element fails with the selector and changes nothing; otherwise the render pass is subscribed at the end of the list and the root holds the first render's result |
| TodoList.Trim | examples/todomvc/app.js:17 | a trimmed text is no longer than the text, empty exactly when the text is all white space, and otherwise neither starts nor ends with white space |
| TodoList.TrimIsMiddle | examples/todomvc/app.js:17 | the trimmed text is the slice of the text that remains after cutting a white-space prefix and a white-space suffix |
| TodoList.TrimIdempotent | examples/todomvc/app.js:17-21 | trimming a trimmed text changes nothing |
| TodoList.ToggleTodo | examples/todomvc/app.js:28-33 | same length; items with another id are unchanged; items with that id keep id and text and flip `completed` |
| TodoList.ToggleTodoTwice | examples/todomvc/app.js:28-33 | toggling the same id twice restores the list |
| TodoList.DeleteTodo | examples/todomvc/app.js:35-38 | the result holds exactly the items whose id differs |
| TodoList.DeleteTodoKeepsOrder | examples/todomvc/app.js:35-38 | deleting keeps the relative order of the rest and is idempotent |
| TodoList.RenameTodo | examples/todomvc/app.js:42-44 | same length; items with that id get the new text and keep id and `completed`; others are unchanged |
| TodoList.ToggleAll | examples/todomvc/app.js:52-57 | same length, ids and texts; every item's `completed` becomes the negation of "all were completed" |
| TodoList.ToggleAllFlipsCheckbox | examples/todomvc/app.js:52-57 | on an empty list nothing changes; otherwise "all completed" is flipped |
| TodoList.ClearCompleted | examples/todomvc/app.js:59-62 | the result holds exactly the uncompleted items |
| TodoList.ClearCompletedKeepsOrder | examples/todomvc/app.js:59-62 | clearing keeps the order of the kept items and is idempotent |
| TodoList.ClearCompletedCounts | examples/todomvc/app.js:59-62 | after clearing nothing completed remains and the active count is unchanged |
| TodoList.FilterView | examples/todomvc/app.js:167-171 | the view holds exactly the items the filter shows |
| TodoList.FilterViewSpec | examples/todomvc/app.js:167-171 | the view keeps the original order; under `active` it equals clearing the completed items; under any other name than `active` and `completed` it is the whole list |
| TodoList.ActiveCount | examples/todomvc/app.js:173 | at most the length; the whole length when nothing is completed, zero when everything is |
| TodoList.CompletedCount | examples/todomvc/app.js:174 | between zero and the length; the whole length when everything is completed, zero when nothing is |
| TodoList.CountsMatchViews | examples/todomvc/app.js:173-174 | the active count is the size of the `active` view, the completed count the size of the `completed` view, and they add up to the length |
| TodoList.FilterForPath | examples/todomvc/app.js:252-260 | `/active` gives `active`, `/completed` gives `completed`, every other path gives `all` |
| TodoList.FilterKeepsIdsIncreasing | examples/todomvc/app.js:35-38 | deleting or clearing keeps ids strictly increasing |
| TodoApp.AddKeepsConsistent | examples/todomvc/app.js:16-26 | appending an item with the counter's id and advancing the counter keeps ids strictly increasing and below the counter |
| TodoApp.RenameKeepsConsistent | examples/todomvc/app.js:40-45 | renaming an item and ending the edit keeps every id, so the id invariant holds |
| TodoApp.InitialState | examples/todomvc/app.js:5-11 | the initial state has exactly the five keys, an empty list and the `all` filter, and satisfies the id invariant with the counter at 1 |
| TodoApp.TodoMvc.constructor | examples/todomvc/app.js:5-13 | the store is merged with the initial keys, the counter starts at 1, and the id invariant holds |
| TodoApp.TodoMvc.AddTodo | examples/todomvc/app.js:16-26 | a blank text changes nothing and notifies nobody; otherwise exactly one item with the counter's id, the trimmed text and `completed: false` is appended, the counter advances, `newTodo` is reset, and the id invariant is kept |
| TodoApp.TodoMvc.ToggleTodo | examples/todomvc/app.js:28-33 | the store's list becomes `TodoList.ToggleTodo` of the old one; the rest of the state is kept |
| TodoApp.TodoMvc.DeleteTodo | examples/todomvc/app.js:35-38 | the store's list becomes `TodoList.DeleteTodo` of the old one; ids stay increasing |
| TodoApp.TodoMvc.EditTodo | examples/todomvc/app.js:40-50 | a blank text behaves as deleting; otherwise the item gets the trimmed text and `editingId`/`editingText` are reset |
| TodoApp.TodoMvc.ToggleAll | examples/todomvc/app.js:52-57 | the store's list becomes `TodoList.ToggleAll` of the old one |
| TodoApp.TodoMvc.ClearCompleted | examples/todomvc/app.js:59-62 | the store's list becomes `TodoList.ClearCompleted` of the old one |
| TodoApp.TodoMvc.SetFilter | examples/todomvc/app.js:64-69 | the store is written and subscribers notified only when the filter changes |
| TodoApp.TodoMvc.HandleRouteChange | examples/todomvc/app.js:252-264 | the filter becomes the one the hash's path names, with the same write-only-on-change rule |
| TodoApp.TodoMvc.View | examples/todomvc/app.js:164-204 | the rendered list is the filtered view, the counts are the sizes of the `active` and `completed` views and add up to the length, and the toggle-all box is checked exactly when the list is non-empty and all completed |

## Left out

- Subscribers are ids and are not executed. So re-entrant `setState` from
  inside a subscriber is not modelled, and neither is the chain from a
  notification to a render pass.
- Promises are treated as already settled, so a render pass completes at
  once. Overlapping render passes, and the race between them, are not
  modelled. That race is a concurrency matter.
- The `events` helper, `hashchange` listener registration, the module
  export shims, `console.error` reporting and all real DOM behaviour are
  left out. `querySelector` becomes an optional root content given to
  `Init`, and the hash becomes a parameter.
- Nodes are values. Appending a node that is already in the tree does not
  move it, and appending the same node twice yields two children.
- `Elements.CreateElement`: `props` is given as the sequence of its own
  enumerable entries in `Object.keys` order, and `null` or absent props are
  the empty sequence. Integer-like keys that JavaScript enumerates first are
  taken in the given order.
- `Elements.CreateElement`: DOM string conversion of attribute, class name
  and value is not modelled; the raw value is stored. Attribute names are
  lower-cased as `setAttribute` does in HTML documents. Invalid tag or
  attribute names, which make the DOM throw, are not modelled.
- `Elements.CreateElement`: `Object.assign` onto the style copies only the
  fields of a plain object. A `null`, node or empty-array style value adds
  no entries. A non-empty array would make the DOM throw a `TypeError`,
  since a style declaration has no indexed setter; the model adds no
  entries for it instead of failing.
- Numbers are integers. `NaN`, fractions and `-0` are not modelled.
- Elements.NumberToString: JavaScript numbers are doubles, and `String(n)`
  switches to exponent form (`1e+21`) from 10^21 on; the model always
  writes the plain decimal digits.
- TodoApp.TodoMvc.AddTodo: the counter is an unbounded integer. As a
  double, `todoId++` stops increasing at 2^53, after which new items would
  share an id; the id invariant holds only below that bound.
- `Elements.CreateElement`: `toLowerCase` of event and attribute names is
  modelled on ASCII letters only.
- `Elements.CreateElement`: the model keeps attributes apart from the DOM
  properties they reflect. The class name, style, `checked`, `value` and
  `autofocus` fields hold only what the dedicated cases write, and the
  attribute map holds what `setAttribute` writes. So the model does not
  capture that a `class` or `autofocus` attribute and the property are one
  and the same, that a string `style` (such as `'color: red'`) set as an
  attribute becomes the inline style, or that a non-boolean `checked` set
  as an attribute checks an unmodified `<input>`.
- `TodoApp.TodoMvc.AddTodo`: in the source, the item is pushed in place
  into the array object the store already holds, and then written back.
  The model appends to a list value. The final state is the same, but the
  sharing with earlier `getState()` copies is not modelled.
- The TodoMVC input debounce and focus handling, the replacement of the
  first subscriber to preserve focus, and the DOM tree built by `TodoItem`
  and `TodoApp` are left out. Only the filtered list, the counts and the
  toggle-all state are modelled.
- The scaffolding CLI (bin/create-miniframe.js) and the route table in
  src/app.js hold no logic of the core and are not part of this model.
