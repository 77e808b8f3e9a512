/** The mobile navigation toggle: a click on the toggle button flips the
    `data-open` attribute of the links container and mirrors the new value
    into the button's `aria-expanded` attribute (assets/js/main.js:9-15). */
module NavToggle {
  import opened Wrappers

  /** JavaScript's `String(b)` for a boolean. */
  function BoolString(b: bool): string {
    if b then "true" else "false"
  }

  /** The value both attributes hold after one click, given the prior
      `data-open` value: anything but exactly `"true"` (absent included)
      opens the menu. */
  function Toggle(prior: Option<string>): (r: string)
    ensures r == "true" || r == "false"
    ensures r == "true" <==> prior != Some("true")
  {
    BoolString(prior != Some("true"))
  }

  /** The `data-open` value after `n` clicks starting from `prior`. */
  function AfterClicks(prior: Option<string>, n: nat): Option<string> {
    if n == 0 then prior else Some(Toggle(AfterClicks(prior, n - 1)))
  }

  /** Once the menu has been clicked, the attribute only ever holds `"true"`
      or `"false"`, and it alternates: the parity of the number of clicks and
      whether the menu started open decide the value. */
  lemma {:induction false} AfterClicksParity(prior: Option<string>, n: nat)
    requires n >= 1
    ensures AfterClicks(prior, n) ==
      Some(if (n % 2 == 1) == (prior != Some("true")) then "true" else "false")
  {
    if n > 1 {
      AfterClicksParity(prior, n - 1);
    }
  }

  /** On the two values a click produces, a second click restores the first. */
  lemma ToggleTwice(prior: Option<string>)
    requires prior == Some("true") || prior == Some("false")
    ensures Toggle(Some(Toggle(prior))) == prior.value
  {
  }

  /** The two attributes the handler writes. */
  class NavToggle {
    /** `data-open` on the `[data-navlinks]` container. */
    var linksOpen: Option<string>
    /** `aria-expanded` on the `[data-nav-toggle]` button. */
    var expanded: Option<string>

    /** The attributes agree, as they do after every click. */
    predicate Agree()
      reads this
    {
      linksOpen == expanded
    }

    /** The page's markup supplies the initial attributes, which need not agree. */
    constructor (linksOpen: Option<string>, expanded: Option<string>)
      ensures this.linksOpen == linksOpen && this.expanded == expanded
    {
      this.linksOpen := linksOpen;
      this.expanded := expanded;
    }

    /** The click handler. */
    method Click()
      modifies this
      ensures linksOpen == Some(Toggle(old(linksOpen)))
      ensures Agree()
    {
      var next := linksOpen != Some("true");
      linksOpen := Some(BoolString(next));
      expanded := Some(BoolString(next));
    }
  }
}
