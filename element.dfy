/** The element builder of MiniFrame (`createElement` in bin/miniframe.js):
    JavaScript values, the DOM node it builds as a record, the per-key
    dispatch over properties and the walk over children. */
module Elements {
  import opened Seqs
  import StateStore

  /** A function value; listeners and components are compared by identity. */
  type FnId = nat

  /** The JavaScript values a property or a child can hold. */
  datatype JsValue =
    | Undefined
    | Null
    | Bool(b: bool)
    | Num(n: int)
    | Str(s: string)
    | Fn(fn: FnId)
    | Obj(fields: map<string, JsValue>)
    | Arr(items: seq<JsValue>)
    | NodeV(node: DomNode)

  /** `el.addEventListener(event, handler)`. */
  datatype Listener = Listener(event: string, handler: FnId)

  /** The parts of a DOM element that `createElement` writes. */
  datatype Element = Element(
    tag: string,
    attributes: map<string, JsValue>,
    listeners: seq<Listener>,
    className: JsValue,
    style: map<string, JsValue>,
    checked: bool,
    value: JsValue,
    autofocus: bool,
    children: seq<DomNode>)

  datatype DomNode = TextNode(text: string) | ElementNode(element: Element)

  /** One own enumerable property of the `props` object, in `Object.keys` order. */
  type Prop = (string, JsValue)

  /** `document.createElement(tag)`: nothing set yet. */
  function NewElement(tag: string): Element
  {
    Element(tag, map[], [], Str(""), map[], false, Str(""), false, [])
  }

  /** JavaScript truthiness. */
  predicate Truthy(v: JsValue)
  {
    match v
    case Undefined => false
    case Null => false
    case Bool(b) => b
    case Num(n) => n != 0
    case Str(s) => s != ""
    case _ => true
  }

  /** `typeof v === 'object'` (which includes `null`). */
  predicate IsObject(v: JsValue)
  {
    v.Null? || v.Obj? || v.Arr? || v.NodeV?
  }

  /** `key.startsWith('on')`. */
  predicate IsEventKey(key: string)
  {
    |key| >= 2 && key[..2] == "on"
  }

  function LowerChar(c: char): char
  {
    if 'A' <= c <= 'Z' then (c as int + 32) as char else c
  }

  /** `toLowerCase()` on ASCII letters. */
  function Lower(s: string): (r: string)
    ensures |r| == |s|
    ensures forall i :: 0 <= i < |s| ==> r[i] == LowerChar(s[i])
  {
    seq(|s|, i requires 0 <= i < |s| => LowerChar(s[i]))
  }

  function DigitChar(d: nat): char
    requires d < 10
  {
    "0123456789"[d]
  }

  function Digits(n: nat): (s: string)
    ensures s != []
    decreases n
  {
    if n < 10 then [DigitChar(n)] else Digits(n / 10) + [DigitChar(n % 10)]
  }

  /** `String(n)` for an integral number. */
  function NumberToString(n: int): (s: string)
    ensures s != []
  {
    if n < 0 then "-" + Digits(-n) else Digits(n)
  }

  /** What one property does to the element, with what it writes. */
  datatype Action =
    | AddListener(event: string, handler: FnId)
    | SetClassName(className: JsValue)
    | AssignStyle(entries: map<string, JsValue>)
    | SetChecked(checked: bool)
    | SetValue(value: JsValue)
    | SetAutofocus
    | SetAttribute(name: string, value: JsValue)
    | Ignore

  /** The key and value pairs that have a case of their own before the
      generic attribute: any class name or value, an object style, a boolean
      `checked` and a truthy `autofocus`. */
  predicate HasOwnCase(key: string, v: JsValue)
  {
    key == "className" || key == "class" || (key == "style" && IsObject(v)) ||
    (key == "checked" && v.Bool?) || key == "value" || (key == "autofocus" && Truthy(v))
  }

  /** The properties each element field is written by (`el.className`,
      `Object.assign(el.style, …)`, `el.checked`, `el.value`, `el.autofocus`). */
  predicate SetsClassName(p: Prop)
  {
    p.0 == "className" || p.0 == "class"
  }

  predicate SetsStyle(p: Prop)
  {
    p.0 == "style" && IsObject(p.1)
  }

  predicate SetsChecked(p: Prop)
  {
    p.0 == "checked" && p.1.Bool?
  }

  predicate SetsValue(p: Prop)
  {
    p.0 == "value"
  }

  predicate SetsAutofocus(p: Prop)
  {
    p.0 == "autofocus" && Truthy(p.1)
  }

  /** The entries `Object.assign(el.style, v)` copies. */
  function StyleEntries(v: JsValue): map<string, JsValue>
  {
    if v.Obj? then v.fields else map[]
  }

  /** The priority dispatch of one property: exactly one action per key. */
  function Interpret(key: string, v: JsValue): (a: Action)
    ensures a.AddListener? <==> IsEventKey(key) && v.Fn?
    ensures a.AddListener? ==> a == AddListener(Lower(key[2..]), v.fn)
    ensures key == "className" || key == "class" ==> a == SetClassName(v)
    ensures key == "style" && IsObject(v) ==> a == AssignStyle(StyleEntries(v))
    ensures key == "checked" && v.Bool? ==> a == SetChecked(v.b)
    ensures key == "value" ==> a == SetValue(v)
    ensures key == "autofocus" && Truthy(v) ==> a == SetAutofocus
    ensures a.SetAttribute? <==> !v.Fn? && !HasOwnCase(key, v)
    ensures a.SetAttribute? ==> a == SetAttribute(Lower(key), v)
    ensures a.Ignore? <==>
      v.Fn? && !IsEventKey(key) && key != "className" && key != "class" && key != "value" && key != "autofocus"
    ensures a.SetClassName? <==> SetsClassName((key, v))
    ensures a.AssignStyle? <==> SetsStyle((key, v))
    ensures a.SetChecked? <==> SetsChecked((key, v))
    ensures a.SetValue? <==> SetsValue((key, v))
    ensures a.SetAutofocus? <==> SetsAutofocus((key, v))
  {
    assert "className"[0] != 'o' && "class"[0] != 'o' && "style"[0] != 'o';
    assert "checked"[0] != 'o' && "value"[0] != 'o' && "autofocus"[0] != 'o';
    if IsEventKey(key) && v.Fn? then AddListener(Lower(key[2..]), v.fn)
    else if key == "className" || key == "class" then SetClassName(v)
    else if key == "style" && IsObject(v) then AssignStyle(StyleEntries(v))
    else if key == "checked" && v.Bool? then SetChecked(v.b)
    else if key == "value" then SetValue(v)
    else if key == "autofocus" && Truthy(v) then SetAutofocus
    else if !v.Fn? then SetAttribute(Lower(key), v)
    else Ignore
  }

  /** The element after one action. `addEventListener` discards a listener
      that is already registered with the same type and callback. */
  function Perform(el: Element, a: Action): (r: Element)
    ensures r.tag == el.tag && r.children == el.children
    ensures a.AddListener? ==> Listener(a.event, a.handler) in r.listeners
    ensures NoDuplicates(el.listeners) ==> NoDuplicates(r.listeners)
    ensures !a.SetAttribute? ==> r.attributes == el.attributes
    ensures a.SetAttribute? ==> r.attributes.Keys == el.attributes.Keys + {a.name}
  {
    match a
    case AddListener(event, handler) =>
      if Listener(event, handler) in el.listeners then el
      else el.(listeners := el.listeners + [Listener(event, handler)])
    case SetClassName(c) => el.(className := c)
    case AssignStyle(entries) => el.(style := el.style + entries)
    case SetChecked(b) => el.(checked := b)
    case SetValue(v) => el.(value := v)
    case SetAutofocus => el.(autofocus := true)
    case SetAttribute(name, v) => el.(attributes := el.attributes[name := v])
    case Ignore => el
  }

  /** The loop over `Object.keys(props)`, as a left fold; properties never
      touch the tag or the children. */
  function ApplyProps(el: Element, props: seq<Prop>): (r: Element)
    ensures r.tag == el.tag && r.children == el.children
    decreases |props|
  {
    if props == [] then el
    else
      var last := props[|props| - 1];
      Perform(ApplyProps(el, props[..|props| - 1]), Interpret(last.0, last.1))
  }

  /** The node an entry of a children array contributes, if any. */
  function ChildNode(item: JsValue): (r: Option<DomNode>)
  {
    match item
    case Str(s) => Some(TextNode(s))
    case Num(n) => Some(TextNode(NumberToString(n)))
    case NodeV(node) => Some(node)
    case _ => None
  }

  datatype Option<T> = None | Some(value: T)

  function AppendChildren(el: Element, items: seq<JsValue>): (r: Element)
    ensures r == el.(children := r.children)
    ensures |el.children| <= |r.children| <= |el.children| + |items|
    ensures r.children[..|el.children|] == el.children
    decreases |items|
  {
    if items == [] then el
    else
      var prev := AppendChildren(el, items[..|items| - 1]);
      match ChildNode(items[|items| - 1])
      case Some(node) => prev.(children := prev.children + [node])
      case None => prev
  }

  /** The children argument: a string or number becomes the text content, an
      array is walked, anything else adds nothing. */
  function SetChildren(el: Element, children: JsValue): (r: Element)
    ensures r == el.(children := r.children)
    ensures !(children.Str? || children.Num? || children.Arr?) ==> r == el
  {
    match children
    case Str(s) => el.(children := if s == "" then [] else [TextNode(s)])
    case Num(n) => el.(children := [TextNode(NumberToString(n))])
    case Arr(items) => AppendChildren(el, items)
    case _ => el
  }

  /** The element `createElement(tag, props, children)` returns. */
  function Build(tag: string, props: seq<Prop>, children: JsValue): (r: Element)
    ensures r.tag == tag
    ensures children.Str? || children.Num? ==> |r.children| <= 1
    ensures !(children.Str? || children.Num? || children.Arr?) ==> r.children == []
  {
    SetChildren(ApplyProps(NewElement(tag), props), children)
  }

  /** `createElement`: one pass over the properties, then one over the children. */
  method CreateElement(tag: string, props: seq<Prop>, children: JsValue) returns (el: Element)
    ensures el == Build(tag, props, children)
  {
    el := NewElement(tag);
    var i := 0;
    while i < |props|
      invariant 0 <= i <= |props|
      invariant el == ApplyProps(NewElement(tag), props[..i])
    {
      assert props[..i + 1][..i] == props[..i];
      var (key, v) := props[i];
      el := Perform(el, Interpret(key, v));
      i := i + 1;
    }
    assert props[..|props|] == props;
    match children {
      case Str(s) =>
        el := el.(children := if s == "" then [] else [TextNode(s)]);
      case Num(n) =>
        el := el.(children := [TextNode(NumberToString(n))]);
      case Arr(items) =>
        el := AppendChildNodes(el, items);
      case _ =>
    }
  }

  /** `children.forEach(...)`: appends a text node per string or number and
      each node, skipping `null`, `undefined` and everything else. */
  method AppendChildNodes(el: Element, items: seq<JsValue>) returns (r: Element)
    ensures r == AppendChildren(el, items)
  {
    r := el;
    var j := 0;
    while j < |items|
      invariant 0 <= j <= |items|
      invariant r == AppendChildren(el, items[..j])
    {
      assert items[..j + 1][..j] == items[..j];
      var child := items[j];
      if child.Null? || child.Undefined? {
      } else if child.Str? {
        r := r.(children := r.children + [TextNode(child.s)]);
      } else if child.Num? {
        r := r.(children := r.children + [TextNode(NumberToString(child.n))]);
      } else if child.NodeV? {
        r := r.(children := r.children + [child.node]);
      }
      j := j + 1;
    }
    assert items[..|items|] == items;
  }

  // ---- Reference definitions and what the builder promises about them ----

  /** The listeners the properties register, in key order. */
  function EventListeners(props: seq<Prop>): seq<Listener>
  {
    if props == [] then []
    else
      var p := props[0];
      (if IsEventKey(p.0) && p.1.Fn? then [Listener(Lower(p.0[2..]), p.1.fn)] else [])
        + EventListeners(props[1..])
  }

  /** The attribute names the properties set (names are lower-cased by `setAttribute`). */
  function AttributeNames(props: seq<Prop>): set<string>
  {
    set i | 0 <= i < |props| && Interpret(props[i].0, props[i].1).SetAttribute? :: Lower(props[i].0)
  }

  lemma {:induction false} EventListenersAppend(a: seq<Prop>, p: Prop)
    ensures IsEventKey(p.0) && p.1.Fn? ==>
      EventListeners(a + [p]) == EventListeners(a) + [Listener(Lower(p.0[2..]), p.1.fn)]
    ensures !(IsEventKey(p.0) && p.1.Fn?) ==> EventListeners(a + [p]) == EventListeners(a)
  {
    if a == [] {
      assert [] + [p] == [p];
    } else {
      var b := a + [p];
      assert b[0] == a[0] && b[1..] == a[1..] + [p];
      EventListenersAppend(a[1..], p);
      var q := a[0];
      var h := if IsEventKey(q.0) && q.1.Fn? then [Listener(Lower(q.0[2..]), q.1.fn)] else [];
      assert EventListeners(b) == h + EventListeners(a[1..] + [p]);
      assert EventListeners(a) == h + EventListeners(a[1..]);
      if IsEventKey(p.0) && p.1.Fn? {
        var l := Listener(Lower(p.0[2..]), p.1.fn);
        assert h + (EventListeners(a[1..]) + [l]) == (h + EventListeners(a[1..])) + [l];
      }
    }
  }

  lemma {:induction false} ApplyPropsListeners(el: Element, props: seq<Prop>)
    requires el.listeners == []
    ensures ApplyProps(el, props).listeners == Distinct(EventListeners(props))
    decreases |props|
  {
    if props != [] {
      var init := props[..|props| - 1];
      var last := props[|props| - 1];
      assert props == init + [last];
      ApplyPropsListeners(el, init);
      var a := Interpret(last.0, last.1);
      PerformListeners(ApplyProps(el, init), a);
      EventListenersAppend(init, last);
      if a.AddListener? {
        DistinctSpec(EventListeners(init));
        DistinctAppend(EventListeners(init), Listener(a.event, a.handler));
      }
    }
  }

  lemma PerformListeners(el: Element, a: Action)
    ensures !a.AddListener? ==> Perform(el, a).listeners == el.listeners
    ensures a.AddListener? && Listener(a.event, a.handler) in el.listeners ==>
      Perform(el, a).listeners == el.listeners
    ensures a.AddListener? && Listener(a.event, a.handler) !in el.listeners ==>
      Perform(el, a).listeners == el.listeners + [Listener(a.event, a.handler)]
  {
  }

  /** Every `on…` property whose value is a function registers its listener,
      named by the lower-cased rest of the key, in key order of first
      request; a repeated event name and handler is registered once; nothing
      else registers a listener. */
  lemma BuildListeners(tag: string, props: seq<Prop>, children: JsValue)
    ensures Build(tag, props, children).listeners == Distinct(EventListeners(props))
    ensures NoDuplicates(Build(tag, props, children).listeners)
    ensures forall i :: 0 <= i < |EventListeners(props)| ==>
      EventListeners(props)[i] in Build(tag, props, children).listeners
    ensures forall i :: 0 <= i < |Build(tag, props, children).listeners| ==>
      Build(tag, props, children).listeners[i] in EventListeners(props)
  {
    ApplyPropsListeners(NewElement(tag), props);
    DistinctSpec(EventListeners(props));
  }

  lemma {:induction false} ApplyPropsAttributes(el: Element, props: seq<Prop>)
    ensures ApplyProps(el, props).attributes.Keys == el.attributes.Keys + AttributeNames(props)
    decreases |props|
  {
    if props != [] {
      var init := props[..|props| - 1];
      var last := props[|props| - 1];
      ApplyPropsAttributes(el, init);
      PerformAttributes(ApplyProps(el, init), Interpret(last.0, last.1));
      AttributeNamesAppend(props);
    }
  }

  lemma PerformAttributes(el: Element, a: Action)
    ensures Perform(el, a).attributes ==
      if a.SetAttribute? then el.attributes[a.name := a.value] else el.attributes
  {
  }

  lemma AttributeNamesAppend(props: seq<Prop>)
    requires props != []
    ensures var last := props[|props| - 1];
      AttributeNames(props) ==
        AttributeNames(props[..|props| - 1]) +
        (if Interpret(last.0, last.1).SetAttribute? then {Lower(last.0)} else {})
  {
    var init := props[..|props| - 1];
    assert forall i :: 0 <= i < |init| ==> props[i] == init[i];
  }

  /** Attributes are set exactly for the properties that fall through to the
      generic case; so an `on…` handler, a class name, a style, a boolean
      `checked`, a `value` and a truthy `autofocus` never add one. */
  lemma BuildAttributes(tag: string, props: seq<Prop>, children: JsValue)
    ensures Build(tag, props, children).attributes.Keys == AttributeNames(props)
    ensures forall name :: LastWriter(props, name) >= 0 ==>
      name in Build(tag, props, children).attributes &&
      Build(tag, props, children).attributes[name] == props[LastWriter(props, name)].1
  {
    ApplyPropsAttributes(NewElement(tag), props);
    forall name | LastWriter(props, name) >= 0
      ensures name in Build(tag, props, children).attributes &&
        Build(tag, props, children).attributes[name] == props[LastWriter(props, name)].1
    {
      ApplyPropsAttributeValue(NewElement(tag), props, name);
    }
  }

  /** Whether a property reaches `setAttribute` under `name`. */
  predicate WritesAttribute(p: Prop, name: string)
  {
    Interpret(p.0, p.1).SetAttribute? && Lower(p.0) == name
  }

  /** The index of the last property that sets attribute `name`, or -1. */
  function LastWriter(props: seq<Prop>, name: string): (i: int)
    ensures -1 <= i < |props|
    ensures i == -1 <==> forall j :: 0 <= j < |props| ==> !WritesAttribute(props[j], name)
    ensures 0 <= i ==>
      (WritesAttribute(props[i], name) && forall j :: i < j < |props| ==> !WritesAttribute(props[j], name))
    decreases |props|
  {
    if props == [] then -1
    else if WritesAttribute(props[|props| - 1], name) then |props| - 1
    else LastWriter(props[..|props| - 1], name)
  }

  /** An attribute holds the value of the last property that set it; one no
      property sets keeps what it had. */
  lemma {:induction false} ApplyPropsAttributeValue(el: Element, props: seq<Prop>, name: string)
    ensures LastWriter(props, name) >= 0 ==>
      name in ApplyProps(el, props).attributes &&
      ApplyProps(el, props).attributes[name] == props[LastWriter(props, name)].1
    ensures LastWriter(props, name) == -1 ==>
      (name in ApplyProps(el, props).attributes <==> name in el.attributes) &&
      (name in el.attributes ==> ApplyProps(el, props).attributes[name] == el.attributes[name])
    decreases |props|
  {
    if props != [] {
      var init := props[..|props| - 1];
      var last := props[|props| - 1];
      ApplyPropsAttributeValue(el, init, name);
      var a := Interpret(last.0, last.1);
      PerformAttributes(ApplyProps(el, init), a);
      if !WritesAttribute(last, name) {
        assert LastWriter(props, name) == LastWriter(init, name);
        if LastWriter(init, name) >= 0 {
          assert props[LastWriter(init, name)] == init[LastWriter(init, name)];
        }
      }
    }
  }

  /** The index of the last property satisfying `q`, or -1 when none does. */
  function LastWhere(props: seq<Prop>, q: Prop -> bool): (i: int)
    ensures -1 <= i < |props|
    ensures i == -1 <==> forall j :: 0 <= j < |props| ==> !q(props[j])
    ensures 0 <= i ==> q(props[i]) && forall j :: i < j < |props| ==> !q(props[j])
    decreases |props|
  {
    if props == [] then -1
    else if q(props[|props| - 1]) then |props| - 1
    else LastWhere(props[..|props| - 1], q)
  }

  /** The style objects the properties assign, in key order. */
  function StyleUpdates(props: seq<Prop>): seq<map<string, JsValue>>
    decreases |props|
  {
    if props == [] then []
    else
      var last := props[|props| - 1];
      StyleUpdates(props[..|props| - 1]) + (if SetsStyle(last) then [StyleEntries(last.1)] else [])
  }

  /** On a new element the class name is that of the last `class` or
      `className` property, or the initial empty string. */
  lemma {:induction false} ApplyPropsClassName(tag: string, props: seq<Prop>)
    ensures var i := LastWhere(props, SetsClassName);
      (i >= 0 ==> ApplyProps(NewElement(tag), props).className == props[i].1) &&
      (i == -1 ==> ApplyProps(NewElement(tag), props).className == Str(""))
    decreases |props|
  {
    if props != [] {
      var init := props[..|props| - 1];
      var last := props[|props| - 1];
      ApplyPropsClassName(tag, init);
      LastWhereStep(props, SetsClassName);
      assert ApplyProps(NewElement(tag), props) ==
        Perform(ApplyProps(NewElement(tag), init), Interpret(last.0, last.1));
    }
  }

  /** `checked` is that of the last boolean `checked` property, or false. */
  lemma {:induction false} ApplyPropsChecked(tag: string, props: seq<Prop>)
    ensures var i := LastWhere(props, SetsChecked);
      (i >= 0 ==> ApplyProps(NewElement(tag), props).checked == props[i].1.b) &&
      (i == -1 ==> !ApplyProps(NewElement(tag), props).checked)
    decreases |props|
  {
    if props != [] {
      var init := props[..|props| - 1];
      var last := props[|props| - 1];
      ApplyPropsChecked(tag, init);
      LastWhereStep(props, SetsChecked);
      assert ApplyProps(NewElement(tag), props) ==
        Perform(ApplyProps(NewElement(tag), init), Interpret(last.0, last.1));
    }
  }

  /** `value` is that of the last `value` property, or the empty string. */
  lemma {:induction false} ApplyPropsValue(tag: string, props: seq<Prop>)
    ensures var i := LastWhere(props, SetsValue);
      (i >= 0 ==> ApplyProps(NewElement(tag), props).value == props[i].1) &&
      (i == -1 ==> ApplyProps(NewElement(tag), props).value == Str(""))
    decreases |props|
  {
    if props != [] {
      var init := props[..|props| - 1];
      var last := props[|props| - 1];
      ApplyPropsValue(tag, init);
      LastWhereStep(props, SetsValue);
      assert ApplyProps(NewElement(tag), props) ==
        Perform(ApplyProps(NewElement(tag), init), Interpret(last.0, last.1));
    }
  }

  /** `autofocus` is set exactly when some `autofocus` property is truthy. */
  lemma {:induction false} ApplyPropsAutofocus(tag: string, props: seq<Prop>)
    ensures ApplyProps(NewElement(tag), props).autofocus <==> LastWhere(props, SetsAutofocus) >= 0
    decreases |props|
  {
    if props != [] {
      var init := props[..|props| - 1];
      var last := props[|props| - 1];
      ApplyPropsAutofocus(tag, init);
      LastWhereStep(props, SetsAutofocus);
      assert ApplyProps(NewElement(tag), props) ==
        Perform(ApplyProps(NewElement(tag), init), Interpret(last.0, last.1));
    }
  }

  /** The style is the merge, in key order, of the assigned style objects. */
  lemma {:induction false} ApplyPropsStyle(tag: string, props: seq<Prop>)
    ensures ApplyProps(NewElement(tag), props).style == StateStore.MergeAll(StyleUpdates(props))
    decreases |props|
  {
    if props != [] {
      var init := props[..|props| - 1];
      var last := props[|props| - 1];
      ApplyPropsStyle(tag, init);
      assert ApplyProps(NewElement(tag), props) ==
        Perform(ApplyProps(NewElement(tag), init), Interpret(last.0, last.1));
      var us := StyleUpdates(init);
      if SetsStyle(last) {
        var vs := us + [StyleEntries(last.1)];
        assert StyleUpdates(props) == vs;
        assert vs[..|vs| - 1] == us;
      } else {
        assert StyleUpdates(props) == us + [];
        assert us + [] == us;
      }
    }
  }

  /** Peeling the last property off: it is the last match when it matches,
      otherwise the last match is that of the rest. */
  lemma LastWhereStep(props: seq<Prop>, q: Prop -> bool)
    requires props != []
    ensures q(props[|props| - 1]) ==> LastWhere(props, q) == |props| - 1
    ensures !q(props[|props| - 1]) ==> LastWhere(props, q) == LastWhere(props[..|props| - 1], q)
    ensures 0 <= LastWhere(props[..|props| - 1], q) ==>
      props[LastWhere(props[..|props| - 1], q)] == props[..|props| - 1][LastWhere(props[..|props| - 1], q)]
  {
  }

  /** What `createElement` leaves in the class name, style, `checked`,
      `value` and `autofocus`: the last property that writes each, or the
      initial value; the style is the key-order merge of the style objects,
      so a style entry holds its value from the last object that has it. */
  lemma BuildFields(tag: string, props: seq<Prop>, children: JsValue)
    ensures var i := LastWhere(props, SetsClassName);
      (i >= 0 ==> Build(tag, props, children).className == props[i].1) &&
      (i == -1 ==> Build(tag, props, children).className == Str(""))
    ensures var i := LastWhere(props, SetsChecked);
      (i >= 0 ==> Build(tag, props, children).checked == props[i].1.b) &&
      (i == -1 ==> !Build(tag, props, children).checked)
    ensures var i := LastWhere(props, SetsValue);
      (i >= 0 ==> Build(tag, props, children).value == props[i].1) &&
      (i == -1 ==> Build(tag, props, children).value == Str(""))
    ensures Build(tag, props, children).autofocus <==> exists j :: 0 <= j < |props| && SetsAutofocus(props[j])
    ensures Build(tag, props, children).style == StateStore.MergeAll(StyleUpdates(props))
  {
    ApplyPropsClassName(tag, props);
    ApplyPropsChecked(tag, props);
    ApplyPropsValue(tag, props);
    ApplyPropsAutofocus(tag, props);
    ApplyPropsStyle(tag, props);
    if LastWhere(props, SetsAutofocus) >= 0 {
      assert SetsAutofocus(props[LastWhere(props, SetsAutofocus)]);
    }
  }

  /** The children an array contributes: strings and numbers as text nodes,
      nodes as they are, everything else skipped. */
  function ChildNodes(items: seq<JsValue>): seq<DomNode>
  {
    if items == [] then [] else NodesOf(items[0]) + ChildNodes(items[1..])
  }

  /** The node one entry contributes, as a sequence of zero or one node. */
  function NodesOf(item: JsValue): seq<DomNode>
  {
    match ChildNode(item) case Some(node) => [node] case None => []
  }

  /** The number of string, number and node entries. */
  function CountRenderable(items: seq<JsValue>): nat
  {
    if items == [] then 0
    else (if items[0].Str? || items[0].Num? || items[0].NodeV? then 1 else 0) + CountRenderable(items[1..])
  }

  lemma {:induction false} ChildNodesAppend(a: seq<JsValue>, x: JsValue)
    ensures ChildNodes(a + [x]) == ChildNodes(a) + NodesOf(x)
  {
    if a == [] {
      assert [] + [x] == [x];
      assert ChildNodes([x]) == NodesOf(x) + ChildNodes([]);
    } else {
      var t := a + [x];
      assert t[0] == a[0] && t[1..] == a[1..] + [x];
      ChildNodesAppend(a[1..], x);
      assert ChildNodes(t) == NodesOf(a[0]) + (ChildNodes(a[1..]) + NodesOf(x));
      assert NodesOf(a[0]) + (ChildNodes(a[1..]) + NodesOf(x))
          == (NodesOf(a[0]) + ChildNodes(a[1..])) + NodesOf(x);
    }
  }

  lemma {:induction false} AppendChildrenSpec(el: Element, items: seq<JsValue>)
    ensures AppendChildren(el, items) == el.(children := el.children + ChildNodes(items))
    decreases |items|
  {
    if items != [] {
      var init := items[..|items| - 1];
      var last := items[|items| - 1];
      assert items == init + [last];
      AppendChildrenSpec(el, init);
      ChildNodesAppend(init, last);
    }
  }

  lemma {:induction false} ChildNodesCount(items: seq<JsValue>)
    ensures |ChildNodes(items)| == CountRenderable(items)
  {
    if items != [] {
      ChildNodesCount(items[1..]);
    }
  }

  /** For an array of children the element holds the contributed nodes in
      array order, one per string, number and node entry, and the properties
      leave the children alone. */
  lemma BuildChildrenFromArray(tag: string, props: seq<Prop>, items: seq<JsValue>)
    ensures Build(tag, props, Arr(items)).children == ChildNodes(items)
    ensures |Build(tag, props, Arr(items)).children| == CountRenderable(items)
  {
    AppendChildrenSpec(ApplyProps(NewElement(tag), props), items);
    ChildNodesCount(items);
  }

  /** A string or number child becomes the text content (an empty string
      leaves no text node). */
  lemma BuildTextContent(tag: string, props: seq<Prop>, text: JsValue)
    requires text.Str? || text.Num?
    ensures Build(tag, props, text).children ==
      if text.Str? then (if text.s == "" then [] else [TextNode(text.s)])
      else [TextNode(NumberToString(text.n))]
    ensures Build(tag, props, text).tag == tag
  {
  }
}
