/** The gallery lightbox as a state machine over values: every handler of
    `GalleryLightbox` (assets/js/main.js:34-152) is a function from the state
    before an event to the state after it. The class in lightbox.dfy is
    proved to follow these functions. */
module LightboxState {
  import opened Wrappers
  import opened Gallery

  /** An element that can hold keyboard focus: the viewer's close button, or
      an element of the page, which may or may not have a `focus` method. */
  datatype Element = CloseButton | PageElement(id: nat, focusable: bool)

  /** `this.lastActive && this.lastActive.focus`, for a present element. */
  predicate CanFocus(e: Element) {
    e.CloseButton? || e.focusable
  }

  /** What the controller reads and writes. `isOpen` is the backdrop's
      `data-open` attribute, `ariaHidden` its `aria-hidden` attribute,
      `keyListening` whether the keydown listener is registered on the
      document, `shown` the item the viewer's image displays (None before
      the first `show`), `focus` the document's active element. */
  datatype State = State(
    items: seq<GalleryItem>,
    currentIndex: int,
    isOpen: bool,
    ariaHidden: bool,
    keyListening: bool,
    shown: Option<GalleryItem>,
    lastActive: Option<Element>,
    focus: Option<Element>)

  /** The attributes and the listener agree with the open flag, and a
      non-empty item list has a valid current index whose item is displayed. */
  predicate Inv(s: State) {
    s.keyListening == s.isOpen &&
    s.ariaHidden == !s.isOpen &&
    (|s.items| > 0 ==> 0 <= s.currentIndex < |s.items| && s.shown == Some(s.items[s.currentIndex]))
  }

  /** The state after the constructor and `makeUi`: no items, index 0, the
      backdrop hidden, focus wherever the page had it. */
  function Initial(focus: Option<Element>): (s: State)
    ensures Inv(s) && !s.isOpen && s.items == [] && s.currentIndex == 0
    ensures s.lastActive == None && s.focus == focus
  {
    State([], 0, false, true, false, None, None, focus)
  }

  /** `show(idx)`. With no items main.js assigns the adjusted index and then
      fails on `items[idx].src`; the displayed image is then left as it was
      (see ShowFails). Everything but the index and the image is unchanged. */
  function Show(s: State, idx: int): (r: State)
    ensures idx < 0 ==> r.currentIndex == |s.items| - 1
    ensures 0 <= idx < |s.items| ==> r.currentIndex == idx
    ensures idx >= |s.items| ==> r.currentIndex == 0
    ensures |s.items| > 0 ==> 0 <= r.currentIndex < |s.items| && r.shown == Some(s.items[r.currentIndex])
    ensures |s.items| == 0 ==> r.shown == s.shown
    ensures r == s.(currentIndex := r.currentIndex, shown := r.shown)
  {
    var i := WrapIndex(idx, |s.items|);
    if |s.items| == 0 then s.(currentIndex := i)
    else s.(currentIndex := i, shown := Some(s.items[i]))
  }

  /** `show` raises a TypeError exactly when there are no items. */
  predicate ShowFails(s: State) {
    |s.items| == 0
  }

  /** The Next button: `show(currentIndex + 1)`. From the last item it goes to
      the first; otherwise one forward. */
  function Next(s: State): (r: State)
    ensures Inv(s) && |s.items| > 0 ==>
      Inv(r) && r.currentIndex == (if s.currentIndex == |s.items| - 1 then 0 else s.currentIndex + 1)
    ensures r.items == s.items && r.isOpen == s.isOpen && r.lastActive == s.lastActive && r.focus == s.focus
  {
    Show(s, s.currentIndex + 1)
  }

  /** The Prev button: `show(currentIndex - 1)`. From the first item it goes to
      the last; otherwise one back. */
  function Prev(s: State): (r: State)
    ensures Inv(s) && |s.items| > 0 ==>
      Inv(r) && r.currentIndex == (if s.currentIndex == 0 then |s.items| - 1 else s.currentIndex - 1)
    ensures r.items == s.items && r.isOpen == s.isOpen && r.lastActive == s.lastActive && r.focus == s.focus
  {
    Show(s, s.currentIndex - 1)
  }

  /** `open(index)`, given the document's active element at that moment. With
      no items nothing changes; otherwise the active element is recorded, the
      index adjusted and displayed, the backdrop opened, the key listener
      registered and focus moved to the close button. */
  function Open(s: State, idx: int, active: Option<Element>): (r: State)
    ensures |s.items| == 0 ==> r == s
    ensures |s.items| > 0 ==>
      r.isOpen && !r.ariaHidden && r.keyListening &&
      r.lastActive == active && r.focus == Some(CloseButton) &&
      r.items == s.items && r.currentIndex == WrapIndex(idx, |s.items|) &&
      0 <= r.currentIndex < |s.items| && r.shown == Some(s.items[r.currentIndex])
  {
    if |s.items| == 0 then s
    else
      Show(s.(lastActive := active), idx)
        .(isOpen := true, ariaHidden := false, keyListening := true, focus := Some(CloseButton))
  }

  /** `close()`: the backdrop hidden, the listener removed, and focus returned
      to the recorded element when there is one that can take it. The items,
      the index and the recorded element stay. */
  function Close(s: State): (r: State)
    ensures !r.isOpen && r.ariaHidden && !r.keyListening
    ensures r.items == s.items && r.currentIndex == s.currentIndex && r.shown == s.shown
    ensures r.lastActive == s.lastActive
    ensures s.lastActive.Some? && CanFocus(s.lastActive.value) ==> r.focus == s.lastActive
    ensures !(s.lastActive.Some? && CanFocus(s.lastActive.value)) ==> r.focus == s.focus
  {
    var restore := s.lastActive.Some? && CanFocus(s.lastActive.value);
    s.(ariaHidden := true, isOpen := false, keyListening := false,
       focus := if restore then s.lastActive else s.focus)
  }

  /** `onKeyDown`, as main.js writes it: three independent tests in turn. */
  function OnKeyDown(s: State, key: string): State {
    var s1 := if key == "Escape" then Close(s) else s;
    var s2 := if key == "ArrowRight" then Next(s1) else s1;
    if key == "ArrowLeft" then Prev(s2) else s2
  }

  /** A key press on the document; the handler runs only while it is registered. */
  function KeyPress(s: State, key: string): State {
    if s.keyListening then OnKeyDown(s, key) else s
  }

  /** A click on a trigger of `page` (all `[data-lightbox]` elements, in
      document order): the item list is rebuilt from the clicked trigger's
      group, then `open` is called with its position there. */
  function TriggerClick(s: State, page: seq<Trigger>, clicked: Trigger, active: Option<Element>): State {
    var members := GroupMembers(page, GroupOf(clicked));
    Open(s.(items := ItemsOf(members)), IndexOf(members, clicked), active)
  }

  /** A click on the backdrop closes only when the backdrop itself is the
      target, not the dialog inside it. */
  function BackdropClick(s: State, onBackdrop: bool): State {
    if onBackdrop then Close(s) else s
  }

  /** The events the controller reacts to. */
  datatype Event =
    | TriggerClicked(page: seq<Trigger>, clicked: Trigger, active: Option<Element>)
    | CloseClicked
    | BackdropClicked(onBackdrop: bool)
    | PrevClicked
    | NextClicked
    | KeyPressed(key: string)

  function Step(s: State, e: Event): State {
    match e
    case TriggerClicked(page, clicked, active) => TriggerClick(s, page, clicked, active)
    case CloseClicked => Close(s)
    case BackdropClicked(onBackdrop) => BackdropClick(s, onBackdrop)
    case PrevClicked => Prev(s)
    case NextClicked => Next(s)
    case KeyPressed(key) => KeyPress(s, key)
  }

  /** The handler for `e` ends in a TypeError from `show`. */
  predicate StepFails(s: State, e: Event) {
    match e
    case PrevClicked => ShowFails(s)
    case NextClicked => ShowFails(s)
    case KeyPressed(key) => s.keyListening && (key == "ArrowRight" || key == "ArrowLeft") && ShowFails(s)
    case _ => false
  }

  /** The state after a sequence of events, oldest first. */
  function Run(s: State, events: seq<Event>): State
    decreases |events|
  {
    if events == [] then s else Run(Step(s, events[0]), events[1..])
  }

  /** ArrowRight and ArrowLeft act exactly as Next and Prev, Escape as close,
      and any other key changes nothing. */
  lemma OnKeyDownDispatch(s: State, key: string)
    ensures key == "Escape" ==> OnKeyDown(s, key) == Close(s)
    ensures key == "ArrowRight" ==> OnKeyDown(s, key) == Next(s)
    ensures key == "ArrowLeft" ==> OnKeyDown(s, key) == Prev(s)
    ensures key != "Escape" && key != "ArrowRight" && key != "ArrowLeft" ==> OnKeyDown(s, key) == s
  {
  }

  /** A closed lightbox ignores the keyboard. */
  lemma ClosedIgnoresKeys(s: State, key: string)
    requires Inv(s) && !s.isOpen
    ensures KeyPress(s, key) == s
  {
  }

  /** With one item both buttons stay on it. */
  lemma SingleItemStays(s: State)
    requires Inv(s) && |s.items| == 1
    ensures Next(s).currentIndex == 0 && Prev(s).currentIndex == 0
  {
  }

  /** Next and Prev undo each other on a valid state. */
  lemma NextPrevInverse(s: State)
    requires Inv(s) && |s.items| > 0
    ensures Prev(Next(s)) == s
    ensures Next(Prev(s)) == s
  {
  }

  /** `n` presses of Next. */
  function NextN(s: State, n: nat): State {
    if n == 0 then s else Next(NextN(s, n - 1))
  }

  /** `n` presses of Prev. */
  function PrevN(s: State, n: nat): State {
    if n == 0 then s else Prev(PrevN(s, n - 1))
  }

  /** Repeated single steps do wrap modulo the number of items. */
  lemma {:induction false} NextNIsModulo(s: State, n: nat)
    requires Inv(s) && |s.items| > 0
    ensures Inv(NextN(s, n)) && NextN(s, n).items == s.items
    ensures NextN(s, n).currentIndex == (s.currentIndex + n) % |s.items|
  {
    if n == 0 {
      ModUnique(s.currentIndex, |s.items|, 0, s.currentIndex);
    } else {
      NextNIsModulo(s, n - 1);
      ModStep(s.currentIndex + n - 1, |s.items|);
    }
  }

  lemma {:induction false} PrevNIsModulo(s: State, n: nat)
    requires Inv(s) && |s.items| > 0
    ensures Inv(PrevN(s, n)) && PrevN(s, n).items == s.items
    ensures PrevN(s, n).currentIndex == (s.currentIndex - n) % |s.items|
  {
    if n == 0 {
      ModUnique(s.currentIndex, |s.items|, 0, s.currentIndex);
    } else {
      PrevNIsModulo(s, n - 1);
      ModStepDown(s.currentIndex - n + 1, |s.items|);
    }
  }

  /** Closing twice is closing once. */
  lemma CloseIdempotent(s: State)
    ensures Close(Close(s)) == Close(s)
  {
  }

  /** Opening and then closing returns focus to the element that had it
      before opening. */
  lemma OpenCloseRestoresFocus(s: State, idx: int, e: Element)
    requires |s.items| > 0 && CanFocus(e)
    ensures Close(Open(s, idx, Some(e))).focus == Some(e)
    ensures !Close(Open(s, idx, Some(e))).isOpen
  {
  }

  /** A click on a trigger with a non-empty group attribute opens the lightbox
      on that trigger's own item, with one item per group member in document
      order. */
  lemma TriggerClickOpensClicked(s: State, page: seq<Trigger>, clicked: Trigger, active: Option<Element>)
    requires clicked in page && clicked.group != ""
    ensures var members := GroupMembers(page, clicked.group);
            var r := TriggerClick(s, page, clicked, active);
            r.isOpen && r.keyListening && r.lastActive == active &&
            r.items == ItemsOf(members) &&
            0 <= r.currentIndex < |members| && members[r.currentIndex] == clicked &&
            r.shown == Some(ItemOf(clicked))
  {
    ClickedTriggerInGroup(page, clicked);
  }

  /** A trigger whose group attribute is empty is looked up in the "gallery"
      group, which does not contain it; when that group has members the
      lightbox opens on its last one. */
  lemma EmptyGroupOpensLast(s: State, page: seq<Trigger>, clicked: Trigger, active: Option<Element>)
    requires clicked.group == "" && GroupMembers(page, DefaultGroup) != []
    ensures var members := GroupMembers(page, DefaultGroup);
            var r := TriggerClick(s, page, clicked, active);
            r.isOpen && r.items == ItemsOf(members) && r.currentIndex == |members| - 1
  {
    EmptyGroupTriggerNotFound(page, clicked);
  }

  /** When that "gallery" group is empty, the click is not a no-op: the item
      list has already been replaced by the empty one when `open` returns
      early. On an open lightbox it stays open, and the next arrow key then
      fails in `show`. */
  lemma EmptyGroupClearsItems(s: State, page: seq<Trigger>, clicked: Trigger, active: Option<Element>)
    requires clicked.group == "" && GroupMembers(page, DefaultGroup) == []
    ensures TriggerClick(s, page, clicked, active) == s.(items := [])
    ensures Inv(s) && s.isOpen ==>
      var r := TriggerClick(s, page, clicked, active);
      Inv(r) && r.isOpen && StepFails(r, KeyPressed("ArrowRight"))
  {
  }

  /** Every event keeps the invariant. */
  lemma StepPreservesInv(s: State, e: Event)
    requires Inv(s)
    ensures Inv(Step(s, e))
  {
    match e
    case TriggerClicked(page, clicked, active) =>
      var members := GroupMembers(page, GroupOf(clicked));
      var s1 := s.(items := ItemsOf(members));
      assert Inv(Open(s1, IndexOf(members, clicked), active));
    case KeyPressed(key) =>
      OnKeyDownDispatch(s, key);
    case _ =>
  }

  /** Every sequence of events keeps the invariant. */
  lemma {:induction false} RunPreservesInv(s: State, events: seq<Event>)
    requires Inv(s)
    ensures Inv(Run(s, events))
    decreases |events|
  {
    if events != [] {
      StepPreservesInv(s, events[0]);
      RunPreservesInv(Step(s, events[0]), events[1..]);
    }
  }
}
