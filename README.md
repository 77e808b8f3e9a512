# Studio site interactions, modelled in Dafny

This project models the logic in `assets/js/main.js`, the client-side script of a small studio website. It covers three components and leaves out the DOM:

- **Navigation toggle** (`nav_toggle.dfy`, module `NavToggle`). A click on the toggle button flips the links container's `data-open` attribute. The new value is copied into the button's `aria-expanded`. Attributes are `Option<string>`, where `None` means absent. Any prior value other than exactly `"true"` opens the menu.
- **Gallery lightbox**, in three modules:
  - `gallery.dfy` (`Gallery`) covers what a trigger click reads from the page: the group name, the group's triggers in document order, the item each trigger contributes (with an alt-text fallback), the clicked trigger's `indexOf`, and the index adjustment at the top of `show`.
  - `lightbox_state.dfy` (`LightboxState`) is the controller as a state machine over values. Each handler is a function from state to state. The invariant and the browsing, focus and trigger lemmas are proved there.
  - `lightbox.dfy` (`Lightbox`) is the `GalleryLightbox` class itself. Its fields are updated in place, and each method is proved to perform the function of the same name from `LightboxState`.
- **Timetable** (`schedule.dfy`, module `Schedule`). This covers:
  - the payload parse with its fallback to an empty schedule;
  - the conjunctive filter on type, instructor and UTC calendar date, where an empty criterion means "any";
  - the renderer, which puts either one "no match" message or one row per entry (carrying the entry's id) into the results container;
  - the `Timetable` object that holds the fixed schedule and the container.

`wrappers.dfy` defines `Option`. `sequences.dfy` defines `SubsequenceAt`, which says that one sequence is another taken at strictly increasing positions. Both the group lookup and the filter are characterised with it.

Calls into the host are parameters and are not modelled further:
- `JSON.parse` is `parse: string -> Option<seq<Entry>>`, where `None` stands for a thrown SyntaxError.
- `new Date(d).toISOString().slice(0, 10)` is `dateKey`.
- `new Date(d).toLocaleString(...)` is `formatTime`.
- `document.activeElement` at the moment `open` runs is the `active` argument of a trigger click.

Several helpers have no contract of their own. Their meaning is stated by the contracts that use them:
- `Gallery.ItemOf`, `LightboxState.CanFocus`, `OnKeyDown`, `KeyPress`, `TriggerClick`, `BackdropClick`, `Step`, `Run`, `NextN`, `PrevN`, `NavToggle.AfterClicks`;
- `LightboxState.Inv` (the controller's invariant), `ShowFails` and `StepFails` (the TypeError raised in `show`);
- `Schedule.ReadCriteria`, `Matches`, `RowOf`, `Sequences.SubsequenceAt`.

The arithmetic lemmas `Gallery.ModUnique`, `ModStep`, `ModStepDown` and `MulAtLeast` are helpers.

In these places the model follows what main.js actually does:
- `show` does not reduce an index modulo the number of items. Any index below zero becomes the last index, and any index at or past the end becomes 0. This agrees with the remainder only for steps of one (`WrapIndexStepIsModulo`, `WrapIndexIsNotModulo`). Repeated single steps do wrap modulo the length (`NextNIsModulo`, `PrevNIsModulo`).
- Activating a group with no triggers is not a no-op. The click handler replaces `items` before `open` checks for an empty list. A trigger whose `data-lightbox` is empty is looked up in the `"gallery"` group, and it is never a member of that group. So when that group is empty, the click clears the items, and an open lightbox stays open with nothing to show. The next arrow key then raises a TypeError in `show` (`EmptyGroupClearsItems`). When the `"gallery"` group is not empty, such a click opens on its last item (`EmptyGroupOpensLast`).
- The date criterion is compared with the UTC calendar date, because `toISOString` is used, not the viewer's local date.
- `show` on an empty item list assigns the adjusted index (-1 or 0) and then fails on `items[idx].src`. The model returns that failure as `failed` and leaves the displayed image unchanged.

## Model

| member | source | states |
|---|---|---|
| NavToggle.Toggle | assets/js/main.js:11-13 | the value written is `"true"` or `"false"`, and is `"true"` exactly when the prior `data-open` is anything but `"true"`, absent included |
| NavToggle.AfterClicksParity | assets/js/main.js:10-14 | after n >= 1 clicks the attribute is `"true"` exactly when the parity of n differs from whether the menu started open |
| NavToggle.ToggleTwice | assets/js/main.js:11-12 | on `"true"`/`"false"` two clicks restore the value |
| NavToggle.NavToggle.Click | assets/js/main.js:10-14 | `data-open` becomes the toggled value and `aria-expanded` equals it afterwards |
| NavToggle.NavToggle.constructor | assets/js/main.js:7-9 | the attributes start as the markup gives them, not necessarily agreeing |
| Gallery.GroupOf | assets/js/main.js:55 | the group is the trigger's attribute, or `"gallery"` when that attribute is empty; never empty |
| Gallery.GroupMembers | assets/js/main.js:56 | the group holds every page trigger whose attribute equals the group exactly, and only those |
| Gallery.GroupPositions | assets/js/main.js:56 | ascending positions containing exactly the page positions whose trigger is in the group |
| Gallery.GroupMembersInOrder | assets/js/main.js:56 | the group is the page taken at exactly those positions, so it is in document order and takes no page position twice |
| Gallery.AltOf | assets/js/main.js:59 | the item's alt is the nested image's non-empty alt, otherwise `"Gallery image"` (no image, no alt, or empty alt) |
| Gallery.ItemsOf | assets/js/main.js:57-60 | one item per group member, same length and order, each built from that member's href and alt |
| Gallery.IndexOf | assets/js/main.js:61 | -1 exactly when the trigger is absent; otherwise its first position |
| Gallery.WrapIndex | assets/js/main.js:139-140 | below zero gives the last index, at or past the end gives 0, an in-range index is kept; with items the result is in range |
| Gallery.WrapIndexStepIsModulo | assets/js/main.js:139-140 | for a step of +1 or -1 from a valid index the adjustment equals the Euclidean remainder |
| Gallery.WrapIndexIsNotModulo | assets/js/main.js:139-140 | for larger jumps it differs from the remainder (-2 and 5 on three items) |
| Gallery.ClickedTriggerInGroup | assets/js/main.js:55-61 | a trigger with a non-empty attribute is found in its own group, at a position holding that trigger |
| Gallery.EmptyGroupTriggerNotFound | assets/js/main.js:55-61 | a trigger with an empty attribute is not in the `"gallery"` group, so its position is -1 |
| LightboxState.Initial | assets/js/main.js:35-47 | no items, index 0, closed and hidden, no recorded element, the invariant holds |
| LightboxState.Show | assets/js/main.js:138-145 | the index is adjusted as `WrapIndex` states and, with items, is in range and its item is displayed; only index and image change |
| LightboxState.Next | assets/js/main.js:107 | from the last item to the first, otherwise one forward; the invariant is kept; items, open flag and focus unchanged |
| LightboxState.Prev | assets/js/main.js:103 | from the first item to the last, otherwise one back; the invariant is kept; items, open flag and focus unchanged |
| LightboxState.Open | assets/js/main.js:119-128 | with no items nothing changes; otherwise the active element is recorded, the lightbox opens with the listener on, focus goes to the close button and the index is in range |
| LightboxState.Close | assets/js/main.js:130-135 | closed, hidden, listener off; items, index, image and recorded element unchanged; focus moves to the recorded element when it can take focus, else stays |
| LightboxState.OnKeyDownDispatch | assets/js/main.js:147-151 | Escape is close, ArrowRight is Next, ArrowLeft is Prev, any other key changes nothing |
| LightboxState.ClosedIgnoresKeys | assets/js/main.js:125-133 | while closed no key changes the state, since the listener is registered only while open |
| LightboxState.SingleItemStays | assets/js/main.js:138-145 | with one item both Next and Prev stay on index 0 |
| LightboxState.NextPrevInverse | assets/js/main.js:103-107 | Next then Prev, and Prev then Next, return to the same state |
| LightboxState.NextNIsModulo | assets/js/main.js:107 | n presses of Next land on (index + n) mod length and keep the invariant |
| LightboxState.PrevNIsModulo | assets/js/main.js:103 | n presses of Prev land on (index - n) mod length and keep the invariant |
| LightboxState.CloseIdempotent | assets/js/main.js:130-135 | a second close changes nothing |
| LightboxState.OpenCloseRestoresFocus | assets/js/main.js:119-135 | open then close returns focus to the element focused before opening |
| LightboxState.TriggerClickOpensClicked | assets/js/main.js:53-61 | a trigger with a non-empty group opens on its own item, with the group's items in order and the active element recorded |
| LightboxState.EmptyGroupOpensLast | assets/js/main.js:55-61 | a trigger with an empty attribute opens on the last `"gallery"` item when that group is non-empty |
| LightboxState.EmptyGroupClearsItems | assets/js/main.js:57-61 | with no `"gallery"` triggers such a click only empties the items; an open lightbox stays open and the next arrow key fails |
| LightboxState.StepPreservesInv | assets/js/main.js:119-151 | every event keeps listener, attributes and open flag in agreement and the index in range with its item displayed |
| LightboxState.RunPreservesInv | assets/js/main.js:119-151 | every sequence of events keeps the invariant |
| Lightbox.GalleryLightbox.constructor | assets/js/main.js:35-47 | the object starts in the initial state |
| Lightbox.GalleryLightbox.Show | assets/js/main.js:138-145 | performs `Show`; fails exactly when there are no items |
| Lightbox.GalleryLightbox.Open | assets/js/main.js:119-128 | performs `Open` |
| Lightbox.GalleryLightbox.Close | assets/js/main.js:130-135 | performs `Close` and keeps the invariant |
| Lightbox.GalleryLightbox.Next | assets/js/main.js:107 | performs `Next` and keeps the invariant |
| Lightbox.GalleryLightbox.Prev | assets/js/main.js:103 | performs `Prev` and keeps the invariant |
| Lightbox.GalleryLightbox.OnKeyDown | assets/js/main.js:147-151 | performs `OnKeyDown`; fails exactly for an arrow key with no items |
| Lightbox.GalleryLightbox.KeyPress | assets/js/main.js:125-133 | the handler runs only while the listener is registered |
| Lightbox.GalleryLightbox.TriggerClick | assets/js/main.js:53-62 | rebuilds the items from the group and opens at the clicked trigger's position, keeping the invariant |
| Lightbox.GalleryLightbox.BackdropClick | assets/js/main.js:114-116 | closes only when the backdrop itself is the target |
| Schedule.Filtered | assets/js/main.js:201-206 | every entry kept is a schedule entry matching every non-empty criterion, every matching entry is kept, and the result is no longer than the schedule |
| Schedule.MatchPositions | assets/js/main.js:201-206 | ascending positions containing exactly the positions of the matching entries |
| Schedule.FilteredIsMatchingSubsequence | assets/js/main.js:201-206 | the filter result is the schedule taken at exactly those positions, in order |
| Schedule.UnsetCriteriaKeepAll | assets/js/main.js:198-205 | with all criteria empty the result is the whole schedule |
| Schedule.ParseSchedule | assets/js/main.js:162-165 | a payload that parses gives its entries, one that fails gives the empty schedule, and a missing or empty payload is parsed as `[]` |
| Schedule.MissingPayloadIsEmpty | assets/js/main.js:164 | a missing or empty payload yields no entries |
| Schedule.RenderedView | assets/js/main.js:167-194 | the message appears exactly when the list is empty, and is then the only child; otherwise one row per entry, in order, carrying that entry's id and fields |
| Schedule.RenderedCountsMatches | assets/js/main.js:197-207 | the message appears exactly when no entry matches; otherwise the number of rows equals the number of matching entries |
| Schedule.MalformedPayloadShowsMessage | assets/js/main.js:162-173 | an unparsable payload renders only the message, whatever the criteria |
| Schedule.BuildFragment | assets/js/main.js:174-193 | the loop appends exactly one row per entry, in order |
| Schedule.Timetable.constructor | assets/js/main.js:161-211 | the schedule is the parsed payload, and the container, if present, shows its initial rendering |
| Schedule.Timetable.Render | assets/js/main.js:167-195 | without a container nothing happens; otherwise the children become the rendered view of the list, whatever they were before |
| Schedule.Timetable.ApplyFilters | assets/js/main.js:197-208 | the container shows the rendered view of the filtered schedule; the schedule itself is a constant and never changes |

## Left out

- `makeUi` builds the dialog's DOM subtree, and the CSS classes, ARIA labels and `document.body.style.overflow` are set around it. This is host DOM plumbing. Only the backdrop's `data-open` and `aria-hidden` attributes are modelled, with a flag for "keydown listener registered".
- `init`'s early return when the page has no triggers is not modelled, and neither are the presence checks for the nav elements, `#timetable-app`, `#timetable-results` (modelled as an optional container) and the filter form. These checks only install or skip the behaviour.
- `e.preventDefault()` on trigger clicks is not modelled. It only stops the browser from following the link.
- GroupMembers: compares attributes by exact equality. That matches the `[data-lightbox="..."]` selector of main.js:56 only for group names without `"`, `\` or a newline. A quote or a raw newline makes the selector invalid, so `querySelectorAll` throws. A backslash starts a CSS escape, so the selector matches a different attribute value (`C:\photos` selects `C:photos`), not the clicked trigger. The clicked trigger is then not found (position -1). For such names, `ClickedTriggerInGroup` and `TriggerClickOpensClicked` do not describe main.js.
- Focus changes made by the user between events are not tracked. The element focused when `open` runs is passed in as `active`.
- The reveal-on-scroll observer (lines 18-31) is host-callback driven, and its only logic is "set `data-visible`, never unset".
- The booking embed (lines 214-230) is a single conditional on a configured URL string. It sits inside the `#timetable-app` block, so it never runs without that element.
- `assets/js/structured-data.js` is not part of this model. It serialises a constant record with `JSON.stringify`.
- `JSON.parse`, `Date`, `toISOString` (including the RangeError it raises on an invalid date) and `toLocaleString` are parameters. Payloads that parse to a non-array are not modelled. Neither are entries whose fields are missing or not strings.
- The row markup (the HTML template and `innerHTML`, with no escaping) is not modelled. A row is a record of the fields the markup shows.
