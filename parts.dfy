/**
 * A view container part: the chrome (header, body) around one wrapped widget, with its
 * collapse state, its hidden flag and its drag-and-drop eligibility.
 */
module Parts {

  import opened Wrappers
  import opened Identifiers

  /** The wrapped widget, reduced to what the container reads of it: its id and its title label (`title.label`). */
  datatype Widget = Widget(id: string, title: string)

  /** Per-widget options fixed at creation; only `collapsed` and `minHeight` are consulted. */
  datatype WidgetOptions = WidgetOptions(
    order: Option<int>,
    weight: Option<int>,
    minHeight: Option<int>,
    collapsed: Option<bool>,
    canToggleVisibility: Option<bool>,
    hideByDefault: Option<bool>)

  /** One persisted record: which part, and whether it was hidden. */
  datatype PartState = PartState(partId: string, hidden: bool)

  datatype Orientation = Horizontal | Vertical

  /**
   * The split orientation: horizontal when the container's node sits inside the main or the
   * bottom content panel, vertical otherwise.
   */
  function OrientationOf(nestedInMainOrBottom: bool): (o: Orientation)
    ensures o == Horizontal <==> nestedInMainOrBottom
  {
    if nestedInMainOrBottom then Horizontal else Vertical
  }

  class ViewContainerPart {

    const wrapped: Widget
    /** Key of the part in persisted state (a serialised widget description, or the widget id). */
    const partId: string
    /** The part's own widget id, `<container id>--<wrapped id>`. */
    const id: string
    const options: WidgetOptions

    var collapsed: bool
    /** False while this part's own header is being dragged: a part is no drop target for itself. */
    var canBeDropTarget: bool
    /** The widget's hidden flag, set by the container. */
    var hidden: bool

    /**
     * A new part starts expanded unless the options say `collapsed: true`, is visible and may
     * be a drop target. The `collapsed` event it fires when created collapsed has no listener
     * yet, so it is not modelled.
     */
    constructor (wrapped: Widget, partId: string, viewContainerId: string, options: WidgetOptions)
      ensures this.wrapped == wrapped && this.partId == partId && this.options == options
      ensures id == PartWidgetId(viewContainerId, wrapped.id)
      ensures collapsed <==> options.collapsed == Some(true)
      ensures canBeDropTarget && !hidden
    {
      this.wrapped := wrapped;
      this.partId := partId;
      this.options := options;
      id := PartWidgetId(viewContainerId, wrapped.id);
      collapsed := options.collapsed == Some(true);
      canBeDropTarget := true;
      hidden := false;
    }

    /** `setHidden` */
    method SetHidden(h: bool)
      modifies this`hidden
      ensures hidden == h
    {
      hidden := h;
    }

    /**
     * A click on the header. In a horizontal container it does nothing; otherwise it flips
     * `collapsed` and fires the `collapsed` event with the new value (returned here).
     */
    method HeaderClick(nestedInMainOrBottom: bool) returns (fired: Option<bool>)
      modifies this`collapsed
      ensures OrientationOf(nestedInMainOrBottom) == Horizontal ==> collapsed == old(collapsed) && fired == None
      ensures OrientationOf(nestedInMainOrBottom) == Vertical ==> collapsed == !old(collapsed) && fired == Some(collapsed)
    {
      if nestedInMainOrBottom {
        return None;
      }
      collapsed := !collapsed;
      fired := Some(collapsed);
    }

    /**
     * `dragstart` on the header. With a data transfer present the part stops being a drop
     * target and puts its own id in the payload; without one nothing happens.
     */
    method DragStart(hasDataTransfer: bool) returns (payload: Option<string>)
      modifies this`canBeDropTarget
      ensures hasDataTransfer ==> !canBeDropTarget && payload == Some(id)
      ensures !hasDataTransfer ==> canBeDropTarget == old(canBeDropTarget) && payload == None
    {
      if hasDataTransfer {
        canBeDropTarget := false;
        payload := Some(id);
      } else {
        payload := None;
      }
    }

    /** `dragend`: the part is a drop target again. */
    method DragEnd()
      modifies this`canBeDropTarget
      ensures canBeDropTarget
    {
      canBeDropTarget := true;
    }

    /**
     * `drop` on this part: `data` is the drag payload (`None` when the event has no data transfer,
     * `Some("")` when the payload is missing). The part asks to have the dragged part moved before
     * itself only for a non-empty id other than its own.
     */
    function MoveBeforeRequest(data: Option<string>): (toMove: Option<string>)
      ensures toMove.Some? <==> data.Some? && data.value != "" && data.value != id
      ensures toMove.Some? ==> toMove == data
    {
      match data
      case Some(moveId) => if moveId != "" && moveId != id then Some(moveId) else None
      case None => None
    }
  }

  /** Dragging a part and dropping it onto itself never asks for a move. */
  lemma DropOnSelfRequestsNothing(p: ViewContainerPart, hasDataTransfer: bool)
    ensures p.MoveBeforeRequest(if hasDataTransfer then Some(p.id) else None) == None
  {
  }
}
