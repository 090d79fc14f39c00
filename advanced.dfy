/** The collapsible panel of advanced settings: its visibility, the text
    of the button that toggles it, and the window's minimum size. */
module Advanced {

  datatype Size = Size(width: nat, height: nat)

  const ExpandedCaption: string := "▲ 詳細"
  const CollapsedCaption: string := "▼ 詳細"

  datatype Chrome = Chrome(panelVisible: bool, toggleText: string, minimumSize: Size)

  /** The button text and minimum size that go with a visibility. */
  function ChromeFor(visible: bool): Chrome
  {
    if visible then Chrome(true, ExpandedCaption, Size(300, 180))
    else Chrome(false, CollapsedCaption, Size(300, 120))
  }

  /** The button text and the minimum size follow the visibility. */
  predicate Consistent(c: Chrome)
  {
    c == ChromeFor(c.panelVisible)
  }

  /** The minimum size follows the visibility, whatever the caption. */
  predicate SizeFollows(c: Chrome)
  {
    c.minimumSize == ChromeFor(c.panelVisible).minimumSize
  }

  /** One click on the toggle button. */
  function Toggled(c: Chrome): (r: Chrome)
    ensures r.panelVisible == !c.panelVisible && Consistent(r)
    ensures r.toggleText == ExpandedCaption <==> r.panelVisible
    ensures r.minimumSize == (if r.panelVisible then Size(300, 180) else Size(300, 120))
  {
    ChromeFor(!c.panelVisible)
  }

  /** From a consistent state, two clicks restore it. */
  lemma ToggleTwiceRestores(c: Chrome)
    requires Consistent(c)
    ensures Toggled(Toggled(c)) == c
  {
  }

  /** The state the form is constructed in, as written: the panel visible,
      the minimum size that goes with it, but the caption of a hidden panel. */
  function InitialChromeAsWritten(): Chrome
  {
    Chrome(true, CollapsedCaption, Size(300, 180))
  }

  /** As written, only the caption is off at the start: the first click
      hides the panel without changing the caption, after which the state
      is consistent, and two clicks do not restore the starting state. */
  lemma InitialCaptionMismatch()
    ensures SizeFollows(InitialChromeAsWritten()) && !Consistent(InitialChromeAsWritten())
    ensures Consistent(Toggled(InitialChromeAsWritten()))
    ensures Toggled(InitialChromeAsWritten()).toggleText == InitialChromeAsWritten().toggleText
    ensures Toggled(Toggled(InitialChromeAsWritten())) != InitialChromeAsWritten()
  {
  }

  /** The corrected starting state: a visible panel with the caption and
      minimum size that go with it, so every click flips all three. */
  function InitialChrome(): (c: Chrome)
    ensures c.panelVisible && c.minimumSize == Size(300, 180)
    ensures Consistent(c) && Toggled(Toggled(c)) == c
    ensures Toggled(c).toggleText != c.toggleText
  {
    ChromeFor(true)
  }
}
