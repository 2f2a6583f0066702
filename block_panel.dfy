/**
 * The open/closed state of the `BlockPanel` component.
 *
 * The panel keeps two booleans. `open` says whether the panel should be
 * expanded; `closed` says whether the collapse animation has finished hiding
 * the body. Opening clears `closed` at once. Closing leaves it alone until the
 * collapse reports that it has exited (`onClosed`). The toggle, the exit
 * callback and a change of the `open` prop are the three transitions; the
 * render reads two display predicates off the state.
 */
module BlockPanelComponent {
  import opened Wrappers

  /** The `open` prop after defaults: open unless told otherwise. */
  function DefaultOpen(open: Option<bool>): (o: bool)
    ensures open.None? ==> o
    ensures open.Some? ==> o == open.value
  {
    open.GetOr(true)
  }

  /** The collapse is open: there are children, and the panel is not expandable or is open. */
  function CollapseOpen(hasChildren: bool, expandable: bool, open: bool): (r: bool)
    ensures !hasChildren ==> !r
    ensures hasChildren && !expandable ==> r
    ensures hasChildren && expandable ==> r == open
  {
    hasChildren && (!expandable || open)
  }

  /** The body is rendered unless the panel is expandable, does not keep its body on toggle, and is closed. */
  function BodyRendered(expandable: bool, hideOnToggle: bool, closed: bool): (r: bool)
    ensures !r <==> expandable && !hideOnToggle && closed
  {
    !expandable || hideOnToggle || !closed
  }

  /** An open panel is never marked closed. */
  predicate Consistent(open: bool, closed: bool) {
    open ==> !closed
  }

  /** In a consistent state, whenever the collapse is open its body is rendered. */
  lemma OpenCollapseShowsBody(hasChildren: bool, expandable: bool, hideOnToggle: bool, open: bool, closed: bool)
    requires Consistent(open, closed)
    ensures CollapseOpen(hasChildren, expandable, open) ==> BodyRendered(expandable, hideOnToggle, closed)
  {
  }

  class BlockPanel {
    /** `this.props.open`, after defaults. */
    var propOpen: bool
    /** `this.state.open` */
    var open: bool
    /** `this.state.closed` */
    var closed: bool

    /** The constructor: open as the prop says, closed exactly when not open. */
    constructor (openProp: Option<bool>)
      ensures propOpen == DefaultOpen(openProp)
      ensures open == propOpen && closed == !propOpen
      ensures Consistent(open, closed)
    {
      propOpen := DefaultOpen(openProp);
      open := DefaultOpen(openProp);
      closed := !DefaultOpen(openProp);
    }

    /**
     * `toggle`: flips `open`; opening also clears `closed`, closing leaves it
     * for the collapse to set. Returns the value `onToggle` is called with.
     */
    method Toggle() returns (toggledTo: bool)
      modifies this`open, this`closed
      ensures open == !old(open)
      ensures open ==> !closed
      ensures !open ==> closed == old(closed)
      ensures toggledTo == open
      ensures Consistent(open, closed)
    {
      var next := !open;
      if next {
        open, closed := next, false;
      } else {
        open := next;
      }
      toggledTo := next;
    }

    /** `onClosed`, the collapse's exit callback: marks the panel closed and leaves `open` alone. */
    method OnClosed()
      modifies this`closed
      ensures closed && open == old(open)
      ensures !open ==> Consistent(open, closed)
    {
      closed := true;
    }

    /**
     * `componentWillReceiveProps`: only a change of the `open` prop moves the
     * state. A change to true opens the panel and clears `closed`; a change to
     * false only clears `open`.
     */
    method ReceiveProps(nextOpen: Option<bool>)
      modifies this
      ensures propOpen == DefaultOpen(nextOpen)
      ensures DefaultOpen(nextOpen) == old(propOpen) ==> open == old(open) && closed == old(closed)
      ensures DefaultOpen(nextOpen) != old(propOpen) && DefaultOpen(nextOpen) ==> open && !closed
      ensures DefaultOpen(nextOpen) != old(propOpen) && !DefaultOpen(nextOpen) ==> !open && closed == old(closed)
      ensures old(Consistent(open, closed)) ==> Consistent(open, closed)
    {
      var next := DefaultOpen(nextOpen);
      if next != propOpen {
        if next {
          open, closed := true, false;
        } else {
          open := false;
        }
      }
      propOpen := next;
    }
  }
}
