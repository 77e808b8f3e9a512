/** The `GalleryLightbox` controller (assets/js/main.js:34-152) as an object
    whose handlers update its fields in place. Each method is proved to
    perform the transition of the same name in LightboxState, so the lemmas
    proved there hold of the object. */
module Lightbox {
  import opened Wrappers
  import opened Gallery
  import LS = LightboxState

  class GalleryLightbox {
    var items: seq<GalleryItem>
    var currentIndex: int
    /** `data-open="true"` on the backdrop. */
    var isOpen: bool
    /** `aria-hidden="true"` on the backdrop. */
    var ariaHidden: bool
    /** The keydown listener is registered on the document. */
    var keyListening: bool
    /** The item whose `src` and `alt` the viewer's image carries. */
    var shown: Option<GalleryItem>
    var lastActive: Option<LS.Element>
    /** The document's active element. */
    var focus: Option<LS.Element>

    function Abs(): LS.State
      reads this
    {
      LS.State(items, currentIndex, isOpen, ariaHidden, keyListening, shown, lastActive, focus)
    }

    predicate Valid()
      reads this
    {
      LS.Inv(Abs())
    }

    /** The constructor followed by `makeUi`, with focus where the page had it. */
    constructor (focus: Option<LS.Element>)
      ensures Valid() && Abs() == LS.Initial(focus)
    {
      items := [];
      currentIndex := 0;
      isOpen := false;
      ariaHidden := true;
      keyListening := false;
      shown := None;
      lastActive := None;
      this.focus := focus;
    }

    /** `show(idx)`; `failed` is the TypeError raised when there is no item
        at the adjusted index. */
    method Show(idx: int) returns (failed: bool)
      modifies this
      ensures old(Valid()) ==> Valid()
      ensures Abs() == LS.Show(old(Abs()), idx)
      ensures failed == LS.ShowFails(old(Abs()))
    {
      var i := idx;
      if i < 0 { i := |items| - 1; }
      if i >= |items| { i := 0; }
      currentIndex := i;
      if |items| == 0 {
        return true;
      }
      shown := Some(items[i]);
      failed := false;
    }

    method Open(idx: int, active: Option<LS.Element>)
      modifies this
      ensures old(Valid()) ==> Valid()
      ensures Abs() == LS.Open(old(Abs()), idx, active)
    {
      if |items| == 0 {
        return;
      }
      lastActive := active;
      var _ := Show(idx);
      isOpen := true;
      ariaHidden := false;
      keyListening := true;
      focus := Some(LS.CloseButton);
    }

    /** `close()`, run by the close button, the backdrop and Escape. */
    method Close()
      requires Valid()
      modifies this
      ensures Valid() && Abs() == LS.Close(old(Abs()))
    {
      ariaHidden := true;
      isOpen := false;
      keyListening := false;
      if lastActive.Some? && LS.CanFocus(lastActive.value) {
        focus := lastActive;
      }
    }

    /** The Next button. */
    method Next() returns (failed: bool)
      requires Valid()
      modifies this
      ensures Valid() && Abs() == LS.Next(old(Abs()))
      ensures failed == LS.ShowFails(old(Abs()))
    {
      failed := Show(currentIndex + 1);
    }

    /** The Prev button. */
    method Prev() returns (failed: bool)
      requires Valid()
      modifies this
      ensures Valid() && Abs() == LS.Prev(old(Abs()))
      ensures failed == LS.ShowFails(old(Abs()))
    {
      failed := Show(currentIndex - 1);
    }

    /** `onKeyDown`; an exception from `show` ends the handler. */
    method OnKeyDown(key: string) returns (failed: bool)
      requires Valid()
      modifies this
      ensures Valid() && Abs() == LS.OnKeyDown(old(Abs()), key)
      ensures failed == ((key == "ArrowRight" || key == "ArrowLeft") && LS.ShowFails(old(Abs())))
    {
      failed := false;
      if key == "Escape" {
        Close();
      }
      if key == "ArrowRight" {
        failed := Show(currentIndex + 1);
        if failed {
          return;
        }
      }
      if key == "ArrowLeft" {
        failed := Show(currentIndex - 1);
      }
    }

    /** A key press on the document, which reaches `onKeyDown` only while the
        listener is registered. */
    method KeyPress(key: string) returns (failed: bool)
      requires Valid()
      modifies this
      ensures Valid() && Abs() == LS.KeyPress(old(Abs()), key)
      ensures failed == LS.StepFails(old(Abs()), LS.KeyPressed(key))
    {
      failed := false;
      if keyListening {
        failed := OnKeyDown(key);
      }
    }

    /** The click handler installed on every trigger by `init`. */
    method TriggerClick(page: seq<Trigger>, clicked: Trigger, active: Option<LS.Element>)
      requires Valid()
      modifies this
      ensures Valid() && Abs() == LS.TriggerClick(old(Abs()), page, clicked, active)
    {
      var group := GroupOf(clicked);
      var groupItems := GroupMembers(page, group);
      items := ItemsOf(groupItems);
      Open(IndexOf(groupItems, clicked), active);
    }

    /** The backdrop's click handler; `onBackdrop` is `e.target === this.backdrop`. */
    method BackdropClick(onBackdrop: bool)
      requires Valid()
      modifies this
      ensures Valid() && Abs() == LS.BackdropClick(old(Abs()), onBackdrop)
    {
      if onBackdrop {
        Close();
      }
    }
  }
}
