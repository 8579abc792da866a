/** The hash router and render pass of MiniFrame (`init` and its inner
    `render` in bin/miniframe.js): route lookup, the clearing of the root,
    the bounded unwrapping of the component and the error fallback. */
module Router {
  import opened Elements
  import opened StateStore

  /** A component as the render pass sees it. A function is described by what
      calling it does; a promise (any thenable) is already settled. */
  datatype Component =
    | NodeC(node: DomNode)
    | FnC(call: Completion)
    | PromiseC(settled: Completion)
    | OtherC

  /** How a call or a promise ends: with a value, or by throwing / rejecting. */
  datatype Completion = Returns(value: Component) | Throws

  datatype Route = Route(path: string, component: Component)

  /** What the render pass does to the cleared root. */
  datatype Mounting = Append(node: DomNode) | NothingToAppend | Failed

  /** `window.location.hash.slice(1) || '/'`. */
  function PathOf(hash: string): (path: string)
    ensures path != ""
    ensures |hash| >= 2 ==> path == hash[1..]
    ensures |hash| <= 1 ==> path == "/"
  {
    if |hash| <= 1 then "/" else hash[1..]
  }

  /** `routes.find(r => r.path === path)`, as an index. */
  function FindIndex(routes: seq<Route>, path: string): (r: Option<nat>)
    ensures r.Some? ==> r.value < |routes| && routes[r.value].path == path
    ensures r.Some? ==> forall j :: 0 <= j < r.value ==> routes[j].path != path
    ensures r.None? <==> forall j :: 0 <= j < |routes| ==> routes[j].path != path
  {
    if routes == [] then None
    else if routes[0].path == path then Some(0)
    else
      match FindIndex(routes[1..], path)
      case None => None
      case Some(i) => Some(i + 1)
  }

  /** The route `render` picks: the first exact match, else the first `*`
      entry, else the first entry; none only for an empty table. */
  function ResolveRoute(routes: seq<Route>, path: string): (r: Option<nat>)
    ensures r.None? <==> routes == []
    ensures r.Some? ==> r.value < |routes|
    ensures (exists j :: 0 <= j < |routes| && routes[j].path == path) ==>
      r.Some? && routes[r.value].path == path &&
      forall j :: 0 <= j < r.value ==> routes[j].path != path
    ensures (forall j :: 0 <= j < |routes| ==> routes[j].path != path) &&
            (exists j :: 0 <= j < |routes| && routes[j].path == "*") ==>
      r.Some? && routes[r.value].path == "*" &&
      forall j :: 0 <= j < r.value ==> routes[j].path != "*"
    ensures (forall j :: 0 <= j < |routes| ==> routes[j].path != path && routes[j].path != "*") &&
            routes != [] ==>
      r == Some(0)
  {
    match FindIndex(routes, path)
    case Some(i) => Some(i)
    case None =>
      match FindIndex(routes, "*")
      case Some(i) => Some(i)
      case None => if |routes| > 0 then Some(0) else None
  }

  /** `await v`: a non-thenable is its own value; a thenable is followed
      until it settles with a non-thenable or rejects. */
  function Await(c: Component): (r: Completion)
    ensures r.Returns? ==> !r.value.PromiseC?
    ensures !c.PromiseC? ==> r == Returns(c)
    ensures c == PromiseC(Throws) ==> r == Throws
    ensures c.PromiseC? && c.settled.Returns? && !c.settled.value.PromiseC? ==> r == c.settled
  {
    match c
    case PromiseC(Returns(v)) => Await(v)
    case PromiseC(Throws) => Throws
    case _ => Returns(c)
  }

  /** The `try` block of `render`: call a function component once, await the
      result if it is a thenable, call the result once more if it is a
      function, and append only a node. */
  function Unwrap(c: Component): (r: Mounting)
    ensures !c.FnC? ==> r == if c.NodeC? then Append(c.node) else NothingToAppend
    ensures r.Failed? ==> c.FnC?
    ensures c.FnC? && c.call.Throws? ==> r == Failed
  {
    var first :=
      match c
      case FnC(Throws) => Throws
      case FnC(Returns(result)) => Await(result)
      case _ => Returns(c);
    match first
    case Throws => Failed
    case Returns(FnC(Throws)) => Failed
    case Returns(FnC(Returns(NodeC(node)))) => Append(node)
    case Returns(FnC(Returns(_))) => NothingToAppend
    case Returns(NodeC(node)) => Append(node)
    case Returns(_) => NothingToAppend
  }

  /** `<div>Error loading component</div>`, the content a failed pass leaves. */
  function ErrorFallback(): (r: DomNode)
    ensures r.ElementNode? && r.element.tag == "div"
    ensures r.element.children == [TextNode("Error loading component")]
    ensures r.element.attributes == map[] && r.element.listeners == []
  {
    ElementNode(NewElement("div").(children := [TextNode("Error loading component")]))
  }

  /** The root's children after one render pass for `hash`. */
  function RenderedRoot(root: seq<DomNode>, routes: seq<Route>, hash: string): (r: seq<DomNode>)
    ensures routes == [] ==> r == root
    ensures routes != [] ==> |r| <= 1
    ensures routes != [] ==>
      var m := Unwrap(routes[ResolveRoute(routes, PathOf(hash)).value].component);
      (m.Failed? ==> r == [ErrorFallback()]) &&
      (m.Append? ==> r == [m.node]) &&
      (m.NothingToAppend? ==> r == [])
  {
    match ResolveRoute(routes, PathOf(hash))
    case None => root
    case Some(i) =>
      match Unwrap(routes[i].component)
      case Failed => [ErrorFallback()]
      case Append(node) => [node]
      case NothingToAppend => []
  }

  /** With a non-empty table the previous content never shows through: the
      root is cleared before anything is appended. */
  lemma RenderIgnoresPreviousContent(a: seq<DomNode>, b: seq<DomNode>, routes: seq<Route>, hash: string)
    requires routes != []
    ensures RenderedRoot(a, routes, hash) == RenderedRoot(b, routes, hash)
  {
  }

  /** Exactly two levels are unwrapped: a function returning a function
      returning a function renders nothing, and so does a second-level
      promise, which is not awaited. */
  lemma UnwrapStopsAfterTwoCalls(inner: Completion, settled: Completion)
    ensures Unwrap(FnC(Returns(FnC(Returns(FnC(inner)))))) == NothingToAppend
    ensures Unwrap(FnC(Returns(FnC(Returns(PromiseC(settled)))))) == NothingToAppend
  {
  }

  /** A pass appends a node exactly in the shapes the code accepts: the node
      itself, a function returning it, or a function whose result (awaited
      when it is a thenable) is the node or a function returning it. */
  lemma UnwrapAppends(c: Component, node: DomNode)
    ensures Unwrap(c) == Append(node) <==>
      c == NodeC(node) ||
      (c.FnC? && c.call.Returns? &&
        (Await(c.call.value) == Returns(NodeC(node)) ||
         Await(c.call.value) == Returns(FnC(Returns(NodeC(node))))))
  {
  }

  /** A pass fails exactly when the first call throws, its thenable rejects,
      or the second call throws. */
  lemma UnwrapFails(c: Component)
    ensures Unwrap(c).Failed? <==>
      c.FnC? &&
      (c.call.Throws? ||
       Await(c.call.value).Throws? ||
       Await(c.call.value) == Returns(FnC(Throws)))
  {
  }

  /** The example tables: `[{path: '/'}, {path: '*'}]` sends `#/missing` to
      the wildcard and `#/` or an empty hash to `/`. */
  lemma ExampleRouteTable(home: Component, fallback: Component)
    ensures ResolveRoute([Route("/", home), Route("*", fallback)], PathOf("#/missing")) == Some(1)
    ensures ResolveRoute([Route("/", home), Route("*", fallback)], PathOf("#/")) == Some(0)
    ensures ResolveRoute([Route("/", home), Route("*", fallback)], PathOf("")) == Some(0)
  {
    var routes := [Route("/", home), Route("*", fallback)];
    assert PathOf("#/missing") == "/missing";
    assert routes[0].path != "/missing" && routes[1].path != "/missing";
    assert PathOf("#/") == "/";
  }

  /** The root element and the route table of an initialised router. */
  class Renderer {
    const routes: seq<Route>
    var root: seq<DomNode>

    constructor (routes: seq<Route>, root: seq<DomNode>)
      ensures this.routes == routes && this.root == root
    {
      this.routes := routes;
      this.root := root;
    }

    /** One render pass for the current `hash`. An empty table returns before
        the root is cleared; otherwise the root is cleared, the component is
        unwrapped, and a failure replaces the content by the fallback. */
    method Render(hash: string)
      modifies this
      ensures root == RenderedRoot(old(root), routes, hash)
    {
      var path := PathOf(hash);
      var route := ResolveRoute(routes, path);
      if route.None? {
        return;
      }
      root := [];
      var mounting := Unwrap(routes[route.value].component);
      match mounting {
        case Failed =>
          root := [ErrorFallback()];
        case Append(node) =>
          root := root + [node];
        case NothingToAppend =>
      }
    }
  }

  datatype InitOutcome = RootNotFound(selector: string) | Mounted(renderer: Renderer)

  /** `init({root, routes})`. `rootContent` is what `querySelector(selector)`
      finds (`None` when it matches nothing). On success the render pass is
      subscribed to the store under the id `render` and run once. */
  method Init<V>(store: Store<V>, selector: string, rootContent: Option<seq<DomNode>>,
                 routes: seq<Route>, hash: string, render: SubscriberId)
    returns (outcome: InitOutcome)
    modifies store
    ensures rootContent.None? ==>
      outcome == RootNotFound(selector) &&
      store.subscribers == old(store.subscribers) && store.state == old(store.state)
    ensures rootContent.Some? ==>
      outcome.Mounted? && fresh(outcome.renderer) &&
      outcome.renderer.routes == routes &&
      outcome.renderer.root == RenderedRoot(rootContent.value, routes, hash) &&
      store.subscribers == old(store.subscribers) + [render] && store.state == old(store.state)
  {
    if rootContent.None? {
      return RootNotFound(selector);
    }
    var renderer := new Renderer(routes, rootContent.value);
    var _ := store.Subscribe(render);
    renderer.Render(hash);
    outcome := Mounted(renderer);
  }
}
