/** What a click on a gallery trigger reads from the page: the triggers of
    its group, the item each contributes, the clicked trigger's position
    (assets/js/main.js:52-61), and the index adjustment of `show`
    (assets/js/main.js:138-141). */
module Gallery {
  import opened Wrappers
  import opened Sequences

  /** The `<img>` nested in a trigger, with its `alt` attribute if it has one. */
  datatype Image = Image(alt: Option<string>)

  /** A `[data-lightbox]` element of the page. `id` stands for the element's
      identity, which `indexOf` compares; `group` is the value of its
      `data-lightbox` attribute, `href` its link target. */
  datatype Trigger = Trigger(id: nat, group: string, href: Option<string>, image: Option<Image>)

  /** One image of the lightbox. */
  datatype GalleryItem = GalleryItem(src: Option<string>, alt: string)

  const DefaultGroup := "gallery"
  const DefaultAlt := "Gallery image"

  /** `el.getAttribute('data-lightbox') || 'gallery'`. */
  function GroupOf(t: Trigger): (g: string)
    ensures g != ""
    ensures t.group != "" ==> g == t.group
    ensures t.group == "" ==> g == DefaultGroup
  {
    if t.group == "" then DefaultGroup else t.group
  }

  /** `[data-lightbox="g"]`: the triggers whose attribute is exactly `g`, in
      document order (GroupMembersInOrder). */
  function GroupMembers(page: seq<Trigger>, g: string): (r: seq<Trigger>)
    ensures |r| <= |page|
    ensures forall t :: t in r ==> t in page && t.group == g
    ensures forall t :: t in page && t.group == g ==> t in r
    decreases |page|
  {
    if page == [] then []
    else
      var init := GroupMembers(page[..|page| - 1], g);
      var last := page[|page| - 1];
      if last.group == g then init + [last] else init
  }

  /** The positions of `page` whose trigger is in group `g`, ascending. */
  function GroupPositions(page: seq<Trigger>, g: string): (p: seq<nat>)
    ensures forall j :: 0 <= j < |p| ==> p[j] < |page|
    ensures forall j, k :: 0 <= j < k < |p| ==> p[j] < p[k]
    ensures forall i :: 0 <= i < |page| ==> (i in p <==> page[i].group == g)
    decreases |page|
  {
    if page == [] then []
    else
      var n := |page| - 1;
      var init := GroupPositions(page[..n], g);
      assert forall i :: 0 <= i < n ==> page[..n][i] == page[i];
      if page[n].group == g then init + [n] else init
  }

  /** The group is the page taken at exactly the positions of its members, in
      document order, each page position taken at most once. */
  lemma {:induction false} GroupMembersInOrder(page: seq<Trigger>, g: string)
    ensures SubsequenceAt(GroupMembers(page, g), page, GroupPositions(page, g))
    decreases |page|
  {
    if page != [] {
      var n := |page| - 1;
      var init := page[..n];
      GroupMembersInOrder(init, g);
      var r0, p0 := GroupMembers(init, g), GroupPositions(init, g);
      var r, p := GroupMembers(page, g), GroupPositions(page, g);
      assert SubsequenceAt(r0, init, p0);
      if page[n].group == g {
        assert r == r0 + [page[n]] && p == p0 + [n];
        forall j | 0 <= j < |p| ensures p[j] < |page| && r[j] == page[p[j]] {
          if j < |p0| {
            assert r[j] == r0[j] == init[p0[j]];
          }
        }
      } else {
        assert r == r0 && p == p0;
        forall j | 0 <= j < |p| ensures p[j] < |page| && r[j] == page[p[j]] {
          assert r[j] == init[p0[j]];
        }
      }
    }
  }

  /** The alt text the item takes: the image's `alt` when it is present and
      non-empty, otherwise the generic label. */
  function AltOf(t: Trigger): (alt: string)
    ensures alt != ""
    ensures t.image.Some? && t.image.value.alt.Some? && t.image.value.alt.value != "" ==>
              alt == t.image.value.alt.value
    ensures t.image.None? || t.image.value.alt.None? || t.image.value.alt.value == "" ==>
              alt == DefaultAlt
  {
    match t.image
    case None => DefaultAlt
    case Some(img) =>
      match img.alt
      case None => DefaultAlt
      case Some(a) => if a == "" then DefaultAlt else a
  }

  /** The item a trigger contributes. */
  function ItemOf(t: Trigger): GalleryItem {
    GalleryItem(t.href, AltOf(t))
  }

  /** `groupItems.map(...)`. */
  function ItemsOf(members: seq<Trigger>): (items: seq<GalleryItem>)
    ensures |items| == |members|
    ensures forall j :: 0 <= j < |members| ==> items[j] == ItemOf(members[j])
  {
    if members == [] then [] else [ItemOf(members[0])] + ItemsOf(members[1..])
  }

  /** `Array.prototype.indexOf`: the first position of `x`, or -1. */
  function IndexOf(s: seq<Trigger>, x: Trigger): (r: int)
    ensures -1 <= r < |s|
    ensures r == -1 <==> x !in s
    ensures r >= 0 ==> s[r] == x && forall j :: 0 <= j < r ==> s[j] != x
  {
    if s == [] then -1
    else if s[0] == x then 0
    else
      var k := IndexOf(s[1..], x);
      if k == -1 then -1 else k + 1
  }

  /** The two adjustments at the top of `show`: an index below zero becomes the
      last index, then one at or past the end becomes zero. With no items the
      first rule yields -1 and the second leaves it. */
  function WrapIndex(idx: int, len: nat): (r: int)
    ensures len > 0 ==> 0 <= r < len
    ensures idx < 0 ==> r == len - 1
    ensures 0 <= idx < len ==> r == idx
    ensures idx >= len ==> r == 0
  {
    var i := if idx < 0 then len - 1 else idx;
    if i >= len then 0 else i
  }

  /** For a step of one from a valid index the adjustment agrees with
      Euclidean remainder. */
  lemma WrapIndexStepIsModulo(i: int, len: nat)
    requires 0 <= i < len
    ensures WrapIndex(i + 1, len) == (i + 1) % len
    ensures WrapIndex(i - 1, len) == (i - 1) % len
  {
    if i + 1 < len {
      ModUnique(i + 1, len, 0, i + 1);
    } else {
      ModUnique(i + 1, len, 1, 0);
    }
    if i > 0 {
      ModUnique(i - 1, len, 0, i - 1);
    } else {
      ModUnique(i - 1, len, -1, len - 1);
    }
  }

  /** For larger jumps it does not: it clamps to an end instead. */
  lemma WrapIndexIsNotModulo()
    ensures WrapIndex(-2, 3) == 2 && (-2) % 3 == 1
    ensures WrapIndex(5, 3) == 0 && 5 % 3 == 2
  {
  }

  lemma MulAtLeast(d: int, len: int)
    requires d >= 1 && len > 0
    ensures d * len >= len
  {
  }

  /** Euclidean remainder is determined by any quotient-remainder split. */
  lemma ModUnique(a: int, len: int, q: int, r: int)
    requires 0 < len && 0 <= r < len && a == q * len + r
    ensures a % len == r
  {
    var q', r' := a / len, a % len;
    assert (q - q') * len == r' - r;
    if q > q' {
      MulAtLeast(q - q', len);
      assert false;
    } else if q < q' {
      MulAtLeast(q' - q, len);
      assert false;
    }
  }

  lemma ModStep(a: int, len: int)
    requires 0 < len
    ensures (a + 1) % len == if a % len == len - 1 then 0 else a % len + 1
  {
    if a % len == len - 1 {
      ModUnique(a + 1, len, a / len + 1, 0);
    } else {
      ModUnique(a + 1, len, a / len, a % len + 1);
    }
  }

  lemma ModStepDown(a: int, len: int)
    requires 0 < len
    ensures (a - 1) % len == if a % len == 0 then len - 1 else a % len - 1
  {
    if a % len == 0 {
      ModUnique(a - 1, len, a / len - 1, len - 1);
    } else {
      ModUnique(a - 1, len, a / len, a % len - 1);
    }
  }

  /** The clicked trigger belongs to its own group when its attribute is
      non-empty, so the lightbox opens at its position, the first and only
      place it occurs in the group. */
  lemma ClickedTriggerInGroup(page: seq<Trigger>, clicked: Trigger)
    requires clicked in page && clicked.group != ""
    ensures var members := GroupMembers(page, GroupOf(clicked));
            var k := IndexOf(members, clicked);
            0 <= k < |members| && members[k] == clicked
  {
  }

  /** A trigger whose attribute is empty is looked up in the `"gallery"`
      group, which never contains it: its position there is -1. */
  lemma EmptyGroupTriggerNotFound(page: seq<Trigger>, clicked: Trigger)
    requires clicked.group == ""
    ensures IndexOf(GroupMembers(page, GroupOf(clicked)), clicked) == -1
  {
  }
}
