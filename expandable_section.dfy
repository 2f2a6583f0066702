/**
 * The `ExpandableSection` component: a titled section whose content is shown
 * or hidden by clicking its header. Its whole state is one `open` flag.
 */
module ExpandableSectionComponent {
  import opened Wrappers

  /** The `open` prop after defaults: closed unless told otherwise. */
  function DefaultOpen(open: Option<bool>): (o: bool)
    ensures open.None? ==> !o
    ensures open.Some? ==> o == open.value
  {
    open.GetOr(false)
  }

  class ExpandableSection {
    /** `this.state.open` */
    var open: bool

    /** The constructor: the state starts from the `open` prop. */
    constructor (openProp: Option<bool>)
      ensures open == DefaultOpen(openProp)
    {
      open := DefaultOpen(openProp);
    }

    /** `toggle`, the header's click handler: flips `open` and nothing else. */
    method Toggle()
      modifies this
      ensures open == !old(open)
    {
      open := !open;
    }

    /** The section's children are rendered exactly while it is open. */
    function RenderedContent<C>(children: C): (r: Option<C>)
      reads this
      ensures r.Some? <==> open
      ensures r.Some? ==> r.value == children
    {
      if open then Some(children) else None
    }

    /** Two clicks on the header leave the section as it was. */
    method ToggleTwice()
      modifies this
      ensures open == old(open)
    {
      Toggle();
      Toggle();
    }
  }
}
