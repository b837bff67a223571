/** The slice of the browser that WindBox reads and writes: JavaScript values as the
    constructor checks them, and elements as records of their attributes, class list and
    inline `display` style. */
module Dom {

  /** A JavaScript value, as finely as `typeof` and truthiness tell values apart.
      Numbers are integers here (see README, "Left out"). */
  datatype JsValue = Undefined | Null | Bool(b: bool) | Number(n: int) | Str(s: string) | Object

  /** JavaScript truthiness (the value of `!!v`). */
  predicate Truthy(v: JsValue) {
    match v
    case Undefined => false
    case Null => false
    case Bool(b) => b
    case Number(n) => n != 0
    case Str(s) => s != ""
    case Object => true
  }

  /** The attributes WindBox writes (`target`, `role`, `aria-expanded`, `aria-controls`,
      `id`, `aria-hidden`, `disabled`); OtherAttr stands for any attribute it never writes. */
  datatype AttrName =
    | Target | Role | AriaExpanded | AriaControls | Id | AriaHidden | Disabled
    | OtherAttr(name: string)

  /** setAttribute stores a string; a boolean written by WindBox is kept as Flag. */
  datatype AttrValue = Flag(b: bool) | Text(s: string)

  /** `windbox-header`, `windbox-content`, `open`, and any other class. */
  datatype ClassName = HeaderMarker | ContentMarker | Open | OtherClass(name: string)

  /** The inline `style.display` of an element: unset, 'none', 'block' or something else. */
  datatype Display = Unset | DisplayNone | DisplayBlock | OtherDisplay

  /** One element. `hasSetAttribute` is false for a node that has no `setAttribute`. */
  datatype Element = Element(
    attributes: map<AttrName, AttrValue>,
    classes: set<ClassName>,
    display: Display,
    hasSetAttribute: bool)

  predicate HasAttr(e: Element, name: AttrName, v: AttrValue) {
    name in e.attributes && e.attributes[name] == v
  }

  /** The element after `attrs(e, updates)`: every listed attribute takes its listed value,
      nothing else changes, and a node without setAttribute is left as it is. */
  function WithAttributes(e: Element, updates: map<AttrName, AttrValue>): (r: Element)
    ensures r.classes == e.classes && r.display == e.display
    ensures r.hasSetAttribute == e.hasSetAttribute
    ensures e.hasSetAttribute ==> forall k :: k in updates ==> HasAttr(r, k, updates[k])
    ensures forall k :: k !in updates ==>
      (k in r.attributes <==> k in e.attributes) &&
      (k in e.attributes ==> r.attributes[k] == e.attributes[k])
    ensures !e.hasSetAttribute ==> r == e
  {
    if e.hasSetAttribute then e.(attributes := e.attributes + updates) else e
  }

  /** `attrs`: a loop over the keys of the update object, one setAttribute per key
      (the keys of an object are distinct, so their order does not matter). */
  method Attrs(e: Element, updates: map<AttrName, AttrValue>) returns (r: Element)
    ensures r == WithAttributes(e, updates)
  {
    r := e;
    if e.hasSetAttribute {
      var pending := updates.Keys;
      while pending != {}
        invariant pending <= updates.Keys
        invariant r.classes == e.classes && r.display == e.display
        invariant r.hasSetAttribute == e.hasSetAttribute
        invariant r.attributes.Keys == e.attributes.Keys + (updates.Keys - pending)
        invariant forall k :: k in updates && k !in pending ==> r.attributes[k] == updates[k]
        invariant forall k :: k in e.attributes && (k !in updates || k in pending) ==>
          r.attributes[k] == e.attributes[k]
        decreases pending
      {
        var k :| k in pending;
        r := r.(attributes := r.attributes[k := updates[k]]);
        pending := pending - {k};
      }
      assert r.attributes == e.attributes + updates;
    }
  }
}
