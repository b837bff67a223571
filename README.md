# WindBox accordion, modelled in Dafny

WindBox turns the children of one container into an accordion. Each child is an item: a
`button` header and a `div` content. At construction the component checks its two
arguments, then indexes the items. Each item gets the id `item-<n>` (n counts from 1). The
header points at its content through `target` and `aria-controls`. Both parts get their
roles and marker classes, and every item starts closed (`aria-hidden`, `disabled`, not
`aria-expanded`). A click on a header reads back from the content whether it was open. That
is the `open` class under custom transitions, or an inline display of `block` under the
default policy. The click then closes every item (`closeAll`) and re-opens the clicked one
unless it was already open (`setState`).

The model has three modules:

- `Decimal` (decimal.dfy): the decimal notation of the item numbers, with its inverse.
- `Dom` (dom.dfy): JavaScript values and their truthiness, and an element as a record of
  attributes, class list and inline `display`. It also holds the `attrs` helper, as a loop
  method `Attrs` and the function `WithAttributes` that specifies it.
- `WindBox` (windbox.dfy): the class `Group` and its methods. `IndexItems`, `CloseAll`,
  `SetState` and `Click` update the group's `items` array in place, each step as the
  source takes it. Each is proved against a function of the old items: `AfterIndex`,
  `AfterCloseAll`, `AfterSetState` or `AfterClick`. The contracts of those functions state
  the observable behaviour. `Group.Valid()` says that the group is indexed, that one header
  is registered per item in child order, and that at most one content is exposed. The
  constructor establishes it, and `CloseAll`, `SetState` and `Click` keep it.

Mutual exclusion is stated on `aria-hidden` (`Exposed`) and on `Shown`, which is exposed
AND read as open by the click handler. It is not stated on the `open` class. Under the
default policy `closeAll` never removes that class, so it can linger on several panels.
After any click, `Synced` holds: on every item, what the next click reads as open agrees
with `aria-hidden`. This does not hold right after indexing. Indexing does not touch the
inline display or the `open` class, so a panel the page styled `display: block` is read as
open on its first click.

How the code sets `disabled` and the ids:

- `setState` writes `disabled` equal to the was-open flag (index.js:117-120). So an opened
  panel gets `false`, and a panel closed by toggling gets `true`.
- `closeAll` writes `disabled=false` on every panel (index.js:83-86). After `closeAll`,
  closed panels are therefore not disabled. Indexing and a toggle-close both write `true`.
- Items are numbered `item-1`, `item-2`, … in every group (index.js:40).

## Model

| member | source | states |
|---|---|---|
| `Decimal.Digits` | index.js:40 | the text of a positive item number is a non-empty string of decimal digits with no leading zero |
| `Decimal.ValueOfDigits` | index.js:40 | reading the decimal text of n back gives n (the round trip that makes ids unambiguous) |
| `Decimal.DigitsInjective` | index.js:40 | two different numbers never have the same text |
| `Dom.WithAttributes` | index.js:160-166 | every listed attribute takes its listed value; unlisted attributes, classes and display are unchanged; a node without setAttribute is returned unchanged |
| `Dom.Attrs` | index.js:160-166 | the loop of one setAttribute per key of the update object ends in exactly the element `WithAttributes` describes |
| `WindBox.CheckOptions` | index.js:15-21 | throws 'WindBox: no selector' exactly when the selector is null or undefined; otherwise throws the boolean message exactly when customTransitions is truthy and not a boolean; an accepted value turns custom transitions on only if it is the boolean true (falsy non-booleans are accepted) |
| `WindBox.Create` | index.js:15-28 | a rejected argument throws that message and builds nothing; otherwise a fresh, valid group is built over the indexed children, with the truthiness of customTransitions as its policy |
| `WindBox.ItemIdInjective` | index.js:40 | 'item-' + (i + 1) differs for different positions |
| `WindBox.IndexItem` | index.js:38-57 | one indexed item: target, aria-controls and content id all equal its item id; roles 'heading' and 'region'; marker classes added; aria-expanded false, aria-hidden true, disabled true; display and other classes untouched |
| `WindBox.IndexChild` | index.js:37-57 | the forEach callback's writes on one child (marker classes, then the header's and the content's attributes) end in exactly the item `IndexItem` describes for that position |
| `WindBox.AfterIndex` | index.js:36-60 | after indexing, every item is indexed at its own position and closed by default, and none is exposed |
| `WindBox.IndexedIdsDistinct` | index.js:40-57 | in an indexed group no two contents share an id and no two headers share a target |
| `WindBox.Group.IndexItems` | index.js:36-63 | the loop leaves the items as `AfterIndex` of the old ones and appends one header position per item, in child order |
| `WindBox.Group.constructor` | index.js:23-28 | the group holds the given children, indexed, with the given policy, and satisfies `Valid()` (one header per item, at most one exposed) |
| `WindBox.CloseItem` | index.js:76-95 | one closed item: aria-hidden true, disabled false, aria-expanded false; display 'block' with `open` removed under custom transitions, display 'none' with the classes untouched otherwise; indexing kept; not read as open |
| `WindBox.AfterCloseAll` | index.js:71-97 | after closeAll, all of the above holds for every item of the group |
| `WindBox.CloseContentArea` | index.js:76-87 | the callback on one content area (display and `open` class by the policy, then aria-hidden and disabled) ends in exactly `CloseContent` of it |
| `WindBox.Group.CloseContents` | index.js:75-88 | the first pass closes every content area and leaves every header as it was |
| `WindBox.Group.CloseHeaders` | index.js:90-96 | the second pass collapses every header (aria-expanded false) and leaves every content as it was |
| `WindBox.Group.CloseAll` | index.js:71-97 | the content pass and then the header pass leave the items as `AfterCloseAll` of the old ones; `Valid()` is kept |
| `WindBox.ReopenItem` | index.js:111-128 | the item rewritten by setState: `open` class present, and aria-hidden and disabled false, exactly when it was not open; aria-expanded is the negation; display is set only under the default policy |
| `WindBox.AfterSetState` | index.js:108-129 | every other item is exactly as closeAll left it; a closed item is shown (aria-hidden false, disabled false, `open`, expanded, display 'block'); an open item ends closed with disabled true; at most one content is exposed |
| `WindBox.Group.SetState` | index.js:108-129 | closeAll followed by the rewrite of item i leaves the items as `AfterSetState`; `Valid()` is kept |
| `WindBox.FindById` | index.js:139-141 | the id lookup returns the first content in child order whose id matches, or nothing when none does |
| `WindBox.TargetResolvesToOwnContent` | index.js:139-141 | in an indexed group a header's target is the id of its own content and of no other |
| `WindBox.AfterClick` | index.js:143-149 | clicking an item read as open closes the whole group; clicking any other item leaves exactly that item shown; afterwards at most one content is exposed and the open-reading agrees with aria-hidden everywhere |
| `WindBox.ClickTwice` | index.js:143-149 | a second click on the same header undoes the first: a closed item ends with the whole group closed, an open one ends as the only shown item |
| `WindBox.Group.Click` | index.js:137-150 | the listener resolves its header's target to the item's own content, reads the state and calls setState; the items become `AfterClick` of the old ones, and `Valid()` and `Synced` hold |

## Left out

- DOM querying is not modelled. `document.querySelector(selector)` and `children` (index.js:23-25) become the `children` argument of `Create`. Each child's `div` and `button` (index.js:38-39) become the two fields of `Item`. A selector that matches nothing, and a child without a `div` or `button`, make the source throw a TypeError; the model takes a container and well-formed children as given.
- Listener registration (`addEventListener`, index.js:137-138) is not modelled. The listener of the k-th registered header is the method `Group.Click(k)`. Events are delivered one at a time.
- Only one group is modelled. The source's `closeAll` queries the whole document (index.js:72-73), and ids restart at `item-1` in every instance (index.js:40). With two groups on a page, a click closes the other group's panels too, and the id lookup can land in the wrong group. `FindById` searches only the clicked group's contents.
- Elements are values stored in the group's array, not shared nodes. Two items that share one DOM node cannot be represented.
- The `contentAreas !== null` and `headers !== null` guards (index.js:75, 90) are always true, because `querySelectorAll` never returns null. They are not modelled.
- Attribute values are not turned into strings. `setAttribute` stores 'true' or 'false'; the model keeps a boolean (`Flag`).
- CSS transitions and animation are not modelled. Only the inline `display` value and the class list are.
- `Dom.JsValue`: numbers are integers. NaN and fractional numbers are not modelled; they matter only as possible values of customTransitions.
- `Decimal.Digits`: item numbers from 10^21 upward are written in exponent notation by JavaScript. The model writes plain digits for every number.
- `WindBox.Group.IndexItems`: a second call appends a second copy of the header list, as the source's `push` does. `Valid()` is stated only for the single call the constructor makes.
