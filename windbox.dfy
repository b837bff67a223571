/** The WindBox accordion: one group of header/content items, indexed once at construction
    and then driven by header clicks. Each click closes every item and re-opens the clicked
    one unless it was already open; the "was open" flag is read back from the content itself. */
module WindBox {
  import opened Dom
  import Decimal

  datatype Option<T> = None | Some(value: T)

  /** What `new WindBox(selector, customTransitions)` ends in: a group, or a thrown string. */
  datatype Construction = Created(group: Group) | Thrown(message: string)

  /** The result of the constructor's two argument checks. */
  datatype Check = Accepted | Rejected(message: string)

  const NoSelector: string := "WindBox: no selector"
  const NotBoolean: string := "WindBox: customTransitions must be a boolean."

  // ---------------------------------------------------------------------------------------
  // Construction checks

  /** The constructor's checks: a missing selector (undefined falls back to the default
      null) is refused first; then a truthy customTransitions that is not a boolean. */
  function CheckOptions(selector: JsValue, customTransitions: JsValue): (r: Check)
    ensures r == Rejected(NoSelector) <==> selector == Undefined || selector == Null
    ensures r == Rejected(NotBoolean) <==>
      selector != Undefined && selector != Null &&
      Truthy(customTransitions) && !customTransitions.Bool?
    ensures r.Rejected? ==> r.message == NoSelector || r.message == NotBoolean
    // an accepted value switches custom transitions on exactly when it is the boolean true
    ensures r.Accepted? ==> (Truthy(customTransitions) <==> customTransitions == Bool(true))
  {
    if selector == Undefined || selector == Null then Rejected(NoSelector)
    else if Truthy(customTransitions) && !customTransitions.Bool? then Rejected(NotBoolean)
    else Accepted
  }

  // ---------------------------------------------------------------------------------------
  // Items and their observable state

  /** One child of the container: its `button` (header) and its `div` (content). */
  datatype Item = Item(header: Element, content: Element)

  /** The id given to the item at position index: 'item-' + (index + 1). */
  function ItemId(index: nat): string {
    "item-" + Decimal.Digits(index + 1)
  }

  /** Different positions get different ids. */
  lemma ItemIdInjective(a: nat, b: nat)
    ensures ItemId(a) == ItemId(b) ==> a == b
  {
    if ItemId(a) == ItemId(b) {
      assert ItemId(a)[5..] == Decimal.Digits(a + 1);
      assert ItemId(b)[5..] == Decimal.Digits(b + 1);
      Decimal.DigitsInjective(a + 1, b + 1);
    }
  }

  /** Both parts of every item are elements (have setAttribute). */
  predicate WellFormed(s: seq<Item>) {
    forall i :: 0 <= i < |s| ==> s[i].header.hasSetAttribute && s[i].content.hasSetAttribute
  }

  /** What indexing gave the item at position i and nothing later overwrites: the header
      points at the content through `target` and `aria-controls`, both carry their roles
      and marker classes. */
  predicate IndexedAt(it: Item, i: nat) {
    var id := Text(ItemId(i));
    it.header.hasSetAttribute && it.content.hasSetAttribute &&
    HasAttr(it.header, Target, id) && HasAttr(it.header, AriaControls, id) &&
    HasAttr(it.header, Role, Text("heading")) && HeaderMarker in it.header.classes &&
    HasAttr(it.content, Id, id) && HasAttr(it.content, Role, Text("region")) &&
    ContentMarker in it.content.classes
  }

  predicate Indexed(s: seq<Item>) {
    forall i :: 0 <= i < |s| ==> IndexedAt(s[i], i)
  }

  /** The click handler's reading of "was open": the `open` class under custom
      transitions, an inline display of 'block' otherwise. */
  predicate WasOpen(content: Element, customTransitions: bool) {
    if customTransitions then Open in content.classes else content.display == DisplayBlock
  }

  /** The content is exposed to assistive technology (aria-hidden is false). */
  predicate Exposed(it: Item) {
    HasAttr(it.content, AriaHidden, Flag(false))
  }

  /** The item is shown: exposed, and visible by the policy's own test. */
  predicate Shown(it: Item, customTransitions: bool) {
    Exposed(it) && WasOpen(it.content, customTransitions)
  }

  /** Mutual exclusion: at most one content of the group is exposed. */
  predicate AtMostOneExposed(s: seq<Item>) {
    forall a, b :: 0 <= a < |s| && 0 <= b < |s| && Exposed(s[a]) && Exposed(s[b]) ==> a == b
  }

  /** What the click handler reads as open agrees with aria-hidden on every item. */
  predicate Synced(s: seq<Item>, customTransitions: bool) {
    forall i :: 0 <= i < |s| ==> (WasOpen(s[i].content, customTransitions) <==> Exposed(s[i]))
  }

  // ---------------------------------------------------------------------------------------
  // indexItems

  /** The positions 0, 1, ..., n - 1 in order. */
  function Positions(n: nat): (r: seq<nat>)
    ensures |r| == n && forall k :: 0 <= k < n ==> r[k] == k
  {
    if n == 0 then [] else Positions(n - 1) + [n - 1]
  }

  /** One step of indexItems: the item at position index after its marker classes and
      attributes are written. */
  function IndexItem(it: Item, index: nat): (r: Item)
    requires it.header.hasSetAttribute && it.content.hasSetAttribute
    ensures IndexedAt(r, index)
    ensures HasAttr(r.header, AriaExpanded, Flag(false)) &&
      HasAttr(r.content, AriaHidden, Flag(true)) && HasAttr(r.content, Disabled, Flag(true))
    ensures r.content.display == it.content.display && r.header.display == it.header.display
    ensures r.content.classes == it.content.classes + {ContentMarker}
    ensures r.header.classes == it.header.classes + {HeaderMarker}
  {
    var id := Text(ItemId(index));
    var head := it.header.(classes := it.header.classes + {HeaderMarker});
    var content := it.content.(classes := it.content.classes + {ContentMarker});
    Item(
      WithAttributes(head, map[Target := id, Role := Text("heading"),
                               AriaExpanded := Flag(false), AriaControls := id]),
      WithAttributes(content, map[Id := id, AriaHidden := Flag(true),
                                  Disabled := Flag(true), Role := Text("region")]))
  }

  /** The children after indexItems: ids and links in child order, every item closed by
      default (aria-hidden, disabled, not expanded); the inline display and the other
      classes are those the page gave. */
  function AfterIndex(s: seq<Item>): (r: seq<Item>)
    requires WellFormed(s)
    ensures |r| == |s| && Indexed(r)
    ensures forall i :: 0 <= i < |r| ==>
      HasAttr(r[i].header, AriaExpanded, Flag(false)) &&
      HasAttr(r[i].content, AriaHidden, Flag(true)) &&
      HasAttr(r[i].content, Disabled, Flag(true))
    ensures forall i :: 0 <= i < |r| ==>
      r[i].content.display == s[i].content.display &&
      r[i].header.display == s[i].header.display &&
      r[i].content.classes == s[i].content.classes + {ContentMarker} &&
      r[i].header.classes == s[i].header.classes + {HeaderMarker}
    ensures forall i :: 0 <= i < |r| ==> !Exposed(r[i])
  {
    seq(|s|, i requires 0 <= i < |s| => IndexItem(s[i], i))
  }

  /** Within an indexed group no two contents share an id and no two headers a target. */
  lemma IndexedIdsDistinct(s: seq<Item>, a: nat, b: nat)
    requires Indexed(s) && a < |s| && b < |s| && a != b
    ensures s[a].content.attributes[Id] != s[b].content.attributes[Id]
    ensures s[a].header.attributes[Target] != s[b].header.attributes[Target]
  {
    ItemIdInjective(a, b);
  }

  // ---------------------------------------------------------------------------------------
  // closeAll

  function CloseContent(c: Element, customTransitions: bool): Element {
    var styled :=
      if customTransitions then c.(display := DisplayBlock, classes := c.classes - {Open})
      else c.(display := DisplayNone);
    WithAttributes(styled, map[AriaHidden := Flag(true), Disabled := Flag(false)])
  }

  function CloseHeader(h: Element): Element {
    WithAttributes(h, map[AriaExpanded := Flag(false)])
  }

  /** One item as closeAll leaves it. */
  function CloseItem(it: Item, customTransitions: bool): (r: Item)
    ensures r.header.hasSetAttribute == it.header.hasSetAttribute
    ensures r.content.hasSetAttribute == it.content.hasSetAttribute
    ensures it.content.hasSetAttribute ==>
      HasAttr(r.content, AriaHidden, Flag(true)) && HasAttr(r.content, Disabled, Flag(false))
    ensures it.header.hasSetAttribute ==> HasAttr(r.header, AriaExpanded, Flag(false))
    ensures r.content.display == (if customTransitions then DisplayBlock else DisplayNone)
    ensures r.content.classes ==
      (if customTransitions then it.content.classes - {Open} else it.content.classes)
    ensures r.header.classes == it.header.classes && r.header.display == it.header.display
    ensures forall i: nat :: IndexedAt(it, i) ==> IndexedAt(r, i)
    ensures !WasOpen(r.content, customTransitions)
  {
    Item(CloseHeader(it.header), CloseContent(it.content, customTransitions))
  }

  /** The group after closeAll: every content hidden from assistive technology and not
      disabled, every header collapsed. Under the default policy the inline display is
      'none' and the class list is untouched (a stale `open` class stays); under custom
      transitions the display is 'block' and `open` is gone. */
  function AfterCloseAll(s: seq<Item>, customTransitions: bool): (r: seq<Item>)
    ensures |r| == |s|
    ensures WellFormed(s) ==> WellFormed(r) && forall i :: 0 <= i < |r| ==>
      HasAttr(r[i].content, AriaHidden, Flag(true)) &&
      HasAttr(r[i].content, Disabled, Flag(false)) &&
      HasAttr(r[i].header, AriaExpanded, Flag(false))
    ensures forall i :: 0 <= i < |r| ==>
      r[i].content.display == (if customTransitions then DisplayBlock else DisplayNone) &&
      r[i].content.classes ==
        (if customTransitions then s[i].content.classes - {Open} else s[i].content.classes)
    ensures forall i :: 0 <= i < |r| ==> r[i].header.classes == s[i].header.classes
    ensures Indexed(s) ==> Indexed(r)
    ensures forall i :: 0 <= i < |r| ==> !WasOpen(r[i].content, customTransitions)
  {
    seq(|s|, i requires 0 <= i < |s| => CloseItem(s[i], customTransitions))
  }

  // ---------------------------------------------------------------------------------------
  // setState

  /** The item setState rewrites, after closeAll has run. */
  function ReopenItem(it: Item, customTransitions: bool, wasOpen: bool): (r: Item)
    requires it.header.hasSetAttribute && it.content.hasSetAttribute
    ensures r.header.hasSetAttribute && r.content.hasSetAttribute
    ensures HasAttr(r.content, AriaHidden, Flag(wasOpen))
    ensures HasAttr(r.content, Disabled, Flag(wasOpen))
    ensures HasAttr(r.header, AriaExpanded, Flag(!wasOpen))
    ensures Open in r.content.classes <==> !wasOpen
    ensures r.content.display ==
      (if customTransitions then it.content.display
       else if wasOpen then DisplayNone else DisplayBlock)
    ensures forall i: nat :: IndexedAt(it, i) ==> IndexedAt(r, i)
  {
    var c := it.content;
    var toggled := c.(classes := if wasOpen then c.classes - {Open} else c.classes + {Open});
    var marked := WithAttributes(toggled, map[AriaHidden := Flag(wasOpen), Disabled := Flag(wasOpen)]);
    Item(WithAttributes(it.header, map[AriaExpanded := Flag(!wasOpen)]),
         if customTransitions then marked
         else marked.(display := if wasOpen then DisplayNone else DisplayBlock))
  }

  /** The group after setState(i, wasOpen). Every other item is exactly as closeAll left it.
      If the item was closed it is now the one shown item: `open` class, aria-hidden and
      disabled false, header expanded, display 'block'. If it was open the whole group is
      closed, the item itself with disabled true (closeAll writes false). */
  function AfterSetState(s: seq<Item>, customTransitions: bool, i: nat, wasOpen: bool): (r: seq<Item>)
    requires WellFormed(s) && i < |s|
    ensures |r| == |s|
    ensures forall j :: 0 <= j < |s| && j != i ==> r[j] == AfterCloseAll(s, customTransitions)[j]
    ensures WellFormed(r) && AtMostOneExposed(r)
    ensures !wasOpen ==>
      HasAttr(r[i].content, AriaHidden, Flag(false)) &&
      HasAttr(r[i].content, Disabled, Flag(false)) &&
      HasAttr(r[i].header, AriaExpanded, Flag(true)) &&
      Open in r[i].content.classes && r[i].content.display == DisplayBlock
    ensures wasOpen ==>
      HasAttr(r[i].content, AriaHidden, Flag(true)) &&
      HasAttr(r[i].content, Disabled, Flag(true)) &&
      HasAttr(r[i].header, AriaExpanded, Flag(false)) &&
      Open !in r[i].content.classes &&
      r[i].content.display == (if customTransitions then DisplayBlock else DisplayNone)
    ensures Indexed(s) ==> Indexed(r)
  {
    var closed := AfterCloseAll(s, customTransitions);
    closed[i := ReopenItem(closed[i], customTransitions, wasOpen)]
  }

  // ---------------------------------------------------------------------------------------
  // The click handler

  /** `document.querySelector('#' + id)` over the group: the first content, in child
      order, whose id attribute is the given value. */
  method FindById(s: seq<Item>, id: AttrValue) returns (r: Option<nat>)
    ensures r.Some? ==> r.value < |s| && HasAttr(s[r.value].content, Id, id)
    ensures r.Some? ==> forall j :: 0 <= j < r.value ==> !HasAttr(s[j].content, Id, id)
    ensures r.None? ==> forall j :: 0 <= j < |s| ==> !HasAttr(s[j].content, Id, id)
  {
    var j := 0;
    while j < |s|
      invariant 0 <= j <= |s|
      invariant forall m :: 0 <= m < j ==> !HasAttr(s[m].content, Id, id)
    {
      if HasAttr(s[j].content, Id, id) {
        return Some(j);
      }
      j := j + 1;
    }
    return None;
  }

  /** In an indexed group the header's target resolves to the item's own content. */
  lemma TargetResolvesToOwnContent(s: seq<Item>, i: nat)
    requires Indexed(s) && i < |s|
    ensures HasAttr(s[i].content, Id, s[i].header.attributes[Target])
    ensures forall j :: 0 <= j < |s| && HasAttr(s[j].content, Id, s[i].header.attributes[Target]) ==> j == i
  {
    forall j | 0 <= j < |s| && HasAttr(s[j].content, Id, s[i].header.attributes[Target])
      ensures j == i
    {
      ItemIdInjective(i, j);
    }
  }

  /** The group after a click on item i: clicking an item the handler reads as open closes
      the whole group, clicking any other item shows exactly that one; either way what the
      next click will read as open agrees with aria-hidden. */
  function AfterClick(s: seq<Item>, customTransitions: bool, i: nat): (r: seq<Item>)
    requires WellFormed(s) && i < |s|
    ensures |r| == |s| && WellFormed(r) && AtMostOneExposed(r) && Synced(r, customTransitions)
    ensures WasOpen(s[i].content, customTransitions) ==>
      forall j :: 0 <= j < |r| ==> !Exposed(r[j]) && !WasOpen(r[j].content, customTransitions)
    ensures !WasOpen(s[i].content, customTransitions) ==>
      forall j :: 0 <= j < |r| ==> (Shown(r[j], customTransitions) <==> j == i)
    ensures Indexed(s) ==> Indexed(r)
  {
    AfterSetState(s, customTransitions, i, WasOpen(s[i].content, customTransitions))
  }

  /** Clicking the same header twice is not idempotent: the second click undoes the first. */
  lemma ClickTwice(s: seq<Item>, customTransitions: bool, i: nat)
    requires WellFormed(s) && i < |s|
    ensures var twice := AfterClick(AfterClick(s, customTransitions, i), customTransitions, i);
      (WasOpen(s[i].content, customTransitions) ==>
        forall j :: 0 <= j < |twice| ==> (Shown(twice[j], customTransitions) <==> j == i)) &&
      (!WasOpen(s[i].content, customTransitions) ==>
        forall j :: 0 <= j < |twice| ==> !Exposed(twice[j]))
  {
    // follows from the two toggle clauses of AfterClick, applied to each click
  }

  // ---------------------------------------------------------------------------------------
  // The forEach callbacks, one element or item at a time

  /** The callback indexItems runs on one child (the push onto `headers` is the caller's):
      marker classes first, then the header's and the content's attributes. */
  method IndexChild(value: Item, index: nat) returns (r: Item)
    requires value.header.hasSetAttribute && value.content.hasSetAttribute
    ensures r == IndexItem(value, index)
  {
    var id := Text(ItemId(index));
    var head := value.header.(classes := value.header.classes + {HeaderMarker});
    var content := value.content.(classes := value.content.classes + {ContentMarker});
    head := Attrs(head, map[Target := id, Role := Text("heading"),
                            AriaExpanded := Flag(false), AriaControls := id]);
    content := Attrs(content, map[Id := id, AriaHidden := Flag(true),
                                  Disabled := Flag(true), Role := Text("region")]);
    r := Item(head, content);
  }

  /** The callback closeAll runs on one content area: the policy's visual close, then
      aria-hidden and disabled. */
  method CloseContentArea(c: Element, customTransitions: bool) returns (r: Element)
    ensures r == CloseContent(c, customTransitions)
  {
    r := c;
    if customTransitions {
      r := r.(display := DisplayBlock, classes := r.classes - {Open});
    } else {
      r := r.(display := DisplayNone);
    }
    r := Attrs(r, map[AriaHidden := Flag(true), Disabled := Flag(false)]);
  }

  // ---------------------------------------------------------------------------------------
  // The component

  class Group {
    /** How visibility is rendered: the `open` class (true) or inline display (false). */
    const customTransitions: bool
    /** The container's children, in child order. */
    const items: array<Item>
    /** `this.headers`: the position of each registered header, in registration order. */
    var headers: seq<nat>

    /** Indexed once, one registered header per item in child order, and at most one
        content exposed. */
    ghost predicate Valid()
      reads this, items
    {
      headers == Positions(items.Length) &&
      Indexed(items[..]) && AtMostOneExposed(items[..])
    }

    /** The part of the constructor after its checks: take the children and index them. */
    constructor (children: seq<Item>, customTransitions: bool)
      requires WellFormed(children)
      ensures Valid() && fresh(items)
      ensures this.customTransitions == customTransitions
      ensures items[..] == AfterIndex(children)
    {
      this.customTransitions := customTransitions;
      items := new Item[|children|](k requires 0 <= k < |children| => children[k]);
      headers := [];
      new;
      assert items[..] == children;
      IndexItems();
    }

    /** indexItems: give each item its id, links, roles and closed attributes, and append
        its header to `headers`. */
    method IndexItems()
      requires WellFormed(items[..])
      modifies this, items
      ensures items[..] == AfterIndex(old(items[..]))
      ensures headers == old(headers) + Positions(items.Length)
    {
      ghost var children := items[..];
      var i := 0;
      while i < items.Length
        invariant 0 <= i <= items.Length
        invariant headers == old(headers) + Positions(i)
        invariant forall k :: 0 <= k < i ==> items[k] == IndexItem(children[k], k)
        invariant forall k :: i <= k < items.Length ==> items[k] == children[k]
      {
        var item := IndexChild(items[i], i);
        ghost var previous := items[..];
        items[i] := item;
        assert forall k :: 0 <= k < items.Length && k != i ==> items[k] == previous[k];
        headers := headers + [i];
        i := i + 1;
      }
      assert items[..] == AfterIndex(children);
    }

    /** closeAll: first a pass over the contents, then one over the headers. */
    method CloseAll()
      requires Valid()
      modifies items
      ensures Valid()
      ensures items[..] == AfterCloseAll(old(items[..]), customTransitions)
    {
      ghost var before := items[..];
      CloseContents();
      CloseHeaders();
      assert forall k :: 0 <= k < items.Length ==> items[k] == CloseItem(before[k], customTransitions);
      assert items[..] == AfterCloseAll(before, customTransitions);
    }

    /** The first pass of closeAll: every content area closed, the headers untouched. */
    method CloseContents()
      modifies items
      ensures forall k :: 0 <= k < items.Length ==>
        items[k] == Item(old(items[k]).header, CloseContent(old(items[k]).content, customTransitions))
    {
      var i := 0;
      while i < items.Length
        invariant 0 <= i <= items.Length
        invariant forall k :: 0 <= k < i ==>
          items[k] == Item(old(items[k]).header, CloseContent(old(items[k]).content, customTransitions))
        invariant forall k :: i <= k < items.Length ==> items[k] == old(items[k])
      {
        var content := CloseContentArea(items[i].content, customTransitions);
        items[i] := items[i].(content := content);
        i := i + 1;
      }
    }

    /** The second pass of closeAll: every header collapsed, the contents untouched. */
    method CloseHeaders()
      modifies items
      ensures forall k :: 0 <= k < items.Length ==>
        items[k] == Item(CloseHeader(old(items[k]).header), old(items[k]).content)
    {
      var i := 0;
      while i < items.Length
        invariant 0 <= i <= items.Length
        invariant forall k :: 0 <= k < i ==>
          items[k] == Item(CloseHeader(old(items[k]).header), old(items[k]).content)
        invariant forall k :: i <= k < items.Length ==> items[k] == old(items[k])
      {
        var header := Attrs(items[i].header, map[AriaExpanded := Flag(false)]);
        items[i] := items[i].(header := header);
        i := i + 1;
      }
    }

    /** setState(head, content, wasOpen) for the item at position i. */
    method SetState(i: nat, wasOpen: bool)
      requires Valid() && i < items.Length
      modifies items
      ensures Valid()
      ensures items[..] == AfterSetState(old(items[..]), customTransitions, i, wasOpen)
    {
      CloseAll();
      ghost var closed := items[..];
      assert closed == AfterCloseAll(old(items[..]), customTransitions);
      var content := items[i].content;
      if wasOpen {
        content := content.(classes := content.classes - {Open});
      } else {
        content := content.(classes := content.classes + {Open});
      }
      content := Attrs(content, map[AriaHidden := Flag(wasOpen), Disabled := Flag(wasOpen)]);
      var head := Attrs(items[i].header, map[AriaExpanded := Flag(!wasOpen)]);
      if !customTransitions {
        content := content.(display := if wasOpen then DisplayNone else DisplayBlock);
      }
      assert Item(head, content) == ReopenItem(closed[i], customTransitions, wasOpen);
      items[i] := Item(head, content);
      assert items[..] == closed[i := ReopenItem(closed[i], customTransitions, wasOpen)];
    }

    /** The click listener of the k-th registered header: resolve its target to a content,
        read whether that content was open, and set the state. */
    method Click(k: nat)
      requires Valid() && k < |headers|
      modifies items
      ensures Valid() && Synced(items[..], customTransitions)
      ensures items[..] == AfterClick(old(items[..]), customTransitions, headers[k])
    {
      var i := headers[k];
      var target := items[i].header.attributes[Target];
      TargetResolvesToOwnContent(items[..], i);
      var found := FindById(items[..], target);
      assert found == Some(i);
      var wasOpen := WasOpen(items[found.value].content, customTransitions);
      SetState(i, wasOpen);
    }
  }

  /** `new WindBox(selector, customTransitions)` over a container whose children are given:
      either one of the two messages is thrown and nothing is touched, or a group is built
      whose policy is the truthiness of customTransitions. */
  method Create(selector: JsValue, customTransitions: JsValue, children: seq<Item>)
    returns (r: Construction)
    requires CheckOptions(selector, customTransitions).Accepted? ==> WellFormed(children)
    ensures r.Thrown? <==> CheckOptions(selector, customTransitions).Rejected?
    ensures r.Thrown? ==> r.message == CheckOptions(selector, customTransitions).message
    ensures r.Created? ==>
      fresh(r.group) && fresh(r.group.items) && r.group.Valid() &&
      r.group.customTransitions == Truthy(customTransitions) &&
      r.group.items[..] == AfterIndex(children)
  {
    var check := CheckOptions(selector, customTransitions);
    if check.Rejected? {
      return Thrown(check.message);
    }
    var g := new Group(children, Truthy(customTransitions));
    return Created(g);
  }
}
