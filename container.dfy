/**
 * The view container: an ordered collection of parts (the order of its split layout), the
 * toggle-visibility commands and context-menu entries it registers for them, and the operations
 * that add, remove, reorder, hide and persist parts.
 */
module Containers {

  import opened Wrappers
  import opened Identifiers
  import opened Parts
  import opened Layout
  import opened Restore

  /** A registered context-menu entry: where it sits, which command it runs, its label. */
  datatype MenuAction = MenuAction(path: seq<string>, commandId: string, text: string)

  /** What `storeState` returns; `parts` may be absent in a state read back from storage. */
  datatype State = State(parts: Option<seq<PartState>>)

  /** One widget handed to the constructor, with its serialised description if it has one. */
  datatype WidgetInput = WidgetInput(widget: Widget, description: Option<string>, options: WidgetOptions)

  /** The partId of a new part: the serialised description, or else the widget id. */
  function PartIdOf(widget: Widget, description: Option<string>): (r: string)
    ensures description.Some? ==> r == description.value
    ensures description.None? ==> r == widget.id
  {
    match description
    case Some(d) => d
    case None => widget.id
  }

  /**
   * Both kinds of context-menu entry sit under the container's context menu, in different groups;
   * a part's entry runs the part's command and carries the widget's title, and is never the
   * global entry, which runs the global hide command.
   */
  lemma MenuActionsOfContainer(containerId: string, p: ViewContainerPart)
    ensures var e, g := PartMenuAction(containerId, p), GlobalMenuAction(containerId);
            |e.path| == |g.path| == 2 && e.path[..1] == g.path[..1] == ContextMenuPath(containerId)
            && e.commandId == PartCommand(containerId, p) && e.text == p.wrapped.title
            && g.commandId == GlobalHideCommandId(containerId) && e != g
  {
    ToggleVisibilityCommandIdExtendsGlobal(containerId, p.id);
  }

  /** The id of the command that toggles `p`, in the container `containerId`. */
  function PartCommand(containerId: string, p: ViewContainerPart): string
  {
    ToggleVisibilityCommandId(containerId, p.id)
  }

  /** The `1_widgets` entry of the container's context menu that runs `p`'s command, labelled with its title. */
  function PartMenuAction(containerId: string, p: ViewContainerPart): MenuAction
  {
    MenuAction(ContextMenuPath(containerId) + ["1_widgets"], PartCommand(containerId, p), p.wrapped.title)
  }

  /** The `0_global` entry of the container's context menu, labelled "Hide", that runs the global hide command. */
  function GlobalMenuAction(containerId: string): MenuAction
  {
    MenuAction(ContextMenuPath(containerId) + ["0_global"], GlobalHideCommandId(containerId), "Hide")
  }

  function PartCommands(containerId: string, ps: seq<ViewContainerPart>): set<string>
  {
    set p | p in ps :: PartCommand(containerId, p)
  }

  function PartMenuActions(containerId: string, ps: seq<ViewContainerPart>): set<MenuAction>
  {
    set p | p in ps :: PartMenuAction(containerId, p)
  }

  /** The menu entries left after `unregisterMenuAction(commandId)`. */
  function WithoutCommand(actions: set<MenuAction>, commandId: string): (r: set<MenuAction>)
    ensures forall a :: a in r <==> a in actions && a.commandId != commandId
  {
    set a | a in actions && a.commandId != commandId
  }

  /** No two parts wrap the same widget, and every part's id derives from the container id. */
  predicate WellFormed(containerId: string, ps: seq<ViewContainerPart>)
  {
    DistinctKeys(ps, ByWrappedId)
    && forall p :: p in ps ==> p.id == PartWidgetId(containerId, p.wrapped.id)
  }

  /** Two parts of a well-formed container have the same command exactly when they wrap the same widget. */
  lemma SameCommandSameWidget(containerId: string, p: ViewContainerPart, q: ViewContainerPart)
    requires p.id == PartWidgetId(containerId, p.wrapped.id) && q.id == PartWidgetId(containerId, q.wrapped.id)
    ensures (PartCommand(containerId, p) == PartCommand(containerId, q)) <==> p.wrapped.id == q.wrapped.id
    ensures PartCommand(containerId, p) != GlobalHideCommandId(containerId)
  {
    ToggleVisibilityCommandIdsDistinct(containerId, p.wrapped.id, q.wrapped.id);
  }

  /** The registrations depend only on which parts there are, not on their order. */
  lemma SameElementsSameRegistrations(containerId: string, a: seq<ViewContainerPart>, b: seq<ViewContainerPart>)
    requires forall x :: x in a <==> x in b
    ensures PartCommands(containerId, a) == PartCommands(containerId, b)
    ensures PartMenuActions(containerId, a) == PartMenuActions(containerId, b)
  {
  }

  /**
   * The container's invariant over its parts and registries: the parts are well formed, and the
   * registered commands and menu entries are the global ones plus exactly one per part.
   */
  ghost predicate Registered(containerId: string, ps: seq<ViewContainerPart>, commands: set<string>, menuActions: set<MenuAction>)
  {
    WellFormed(containerId, ps)
    && commands == PartCommands(containerId, ps) + {GlobalHideCommandId(containerId)}
    && menuActions == PartMenuActions(containerId, ps) + {GlobalMenuAction(containerId)}
  }

  /**
   * The per-part half of `Registered`: the parts are well formed and each one's command and
   * menu entry are still registered. Disposing the container keeps this and drops the rest.
   */
  ghost predicate PartsRegistered(containerId: string, ps: seq<ViewContainerPart>, commands: set<string>, menuActions: set<MenuAction>)
  {
    WellFormed(containerId, ps)
    && PartCommands(containerId, ps) <= commands
    && PartMenuActions(containerId, ps) <= menuActions
  }

  /** Rearranging well-formed parts without adding or losing any keeps the registries right. */
  lemma RearrangedStaysRegistered(
    containerId: string, a: seq<ViewContainerPart>, b: seq<ViewContainerPart>, commands: set<string>, menuActions: set<MenuAction>)
    requires Registered(containerId, a, commands, menuActions)
    requires WellFormed(containerId, b) && forall x :: x in b <==> x in a
    ensures Registered(containerId, b, commands, menuActions)
  {
    SameElementsSameRegistrations(containerId, a, b);
  }

  /** Removing part `i` of a registered container, with its command and menu entry, keeps it registered. */
  lemma RemovedStaysRegistered(
    containerId: string, ps: seq<ViewContainerPart>, i: nat, commands: set<string>, menuActions: set<MenuAction>)
    requires Registered(containerId, ps, commands, menuActions) && i < |ps|
    ensures PartCommand(containerId, ps[i]) in commands
    ensures Registered(containerId, RemoveAt(ps, i), commands - {PartCommand(containerId, ps[i])},
                       WithoutCommand(menuActions, PartCommand(containerId, ps[i])))
  {
    RegistrationsAfterRemove(containerId, ps, i);
    SameCommandSameWidget(containerId, ps[i], ps[i]);
  }

  /** Appending a part for a new widget, with its command and menu entry, keeps a container registered. */
  lemma AppendedStaysRegistered(
    containerId: string, ps: seq<ViewContainerPart>, p: ViewContainerPart, commands: set<string>, menuActions: set<MenuAction>)
    requires Registered(containerId, ps, commands, menuActions) && IndexOf(ps, ByWrappedId, p.wrapped.id) < 0
    requires p.id == PartWidgetId(containerId, p.wrapped.id)
    ensures PartCommand(containerId, p) !in commands
    ensures Registered(containerId, ps + [p], commands + {PartCommand(containerId, p)},
                       menuActions + {PartMenuAction(containerId, p)})
  {
    RegistrationsAfterAppend(containerId, ps, p);
  }

  /**
   * A well-formed container has exactly one toggle-visibility command per part, and none of
   * them is the global hide command.
   */
  lemma {:induction false} OneCommandPerPart(containerId: string, ps: seq<ViewContainerPart>)
    requires WellFormed(containerId, ps)
    ensures |PartCommands(containerId, ps)| == |ps|
    ensures GlobalHideCommandId(containerId) !in PartCommands(containerId, ps)
  {
    if ps != [] {
      var n := |ps| - 1;
      var prefix := ps[..n];
      WellFormedPrefix(containerId, ps, n);
      OneCommandPerPart(containerId, prefix);
      assert PartCommands(containerId, ps) == PartCommands(containerId, prefix) + {PartCommand(containerId, ps[n])} by {
        assert ps == prefix + [ps[n]];
        PartCommandsSnoc(containerId, prefix, ps[n]);
      }
      LastCommandIsNew(containerId, ps);
      SameCommandSameWidget(containerId, ps[n], ps[n]);
    }
  }

  /** A prefix of well-formed parts is well formed. */
  lemma WellFormedPrefix(containerId: string, ps: seq<ViewContainerPart>, n: nat)
    requires WellFormed(containerId, ps) && n <= |ps|
    ensures WellFormed(containerId, ps[..n])
  {
    assert forall i :: 0 <= i < n ==> ps[..n][i] == ps[i];
    assert forall p :: p in ps[..n] ==> p in ps;
  }

  /** Appending a part adds its command and its menu entry to the ones of the parts before it. */
  lemma PartCommandsSnoc(containerId: string, ps: seq<ViewContainerPart>, p: ViewContainerPart)
    ensures PartCommands(containerId, ps + [p]) == PartCommands(containerId, ps) + {PartCommand(containerId, p)}
    ensures PartMenuActions(containerId, ps + [p]) == PartMenuActions(containerId, ps) + {PartMenuAction(containerId, p)}
  {
    assert forall x :: x in ps + [p] <==> x in ps || x == p;
  }

  /** In well-formed parts, the last part's command is not the command of any part before it. */
  lemma LastCommandIsNew(containerId: string, ps: seq<ViewContainerPart>)
    requires WellFormed(containerId, ps) && ps != []
    ensures PartCommand(containerId, ps[|ps| - 1]) !in PartCommands(containerId, ps[..|ps| - 1])
  {
    var n := |ps| - 1;
    forall q | q in ps[..n] ensures PartCommand(containerId, q) != PartCommand(containerId, ps[n]) {
      var k :| 0 <= k < n && ps[..n][k] == q;
      assert KeyOf(ps[k], ByWrappedId) != KeyOf(ps[n], ByWrappedId);
      SameCommandSameWidget(containerId, q, ps[n]);
    }
  }

  /** Removing part `i` takes exactly its command and its menu entry out of the registrations. */
  lemma RegistrationsAfterRemove(containerId: string, ps: seq<ViewContainerPart>, i: nat)
    requires WellFormed(containerId, ps) && i < |ps|
    ensures WellFormed(containerId, RemoveAt(ps, i))
    ensures PartCommands(containerId, RemoveAt(ps, i)) == PartCommands(containerId, ps) - {PartCommand(containerId, ps[i])}
    ensures PartMenuActions(containerId, RemoveAt(ps, i)) == WithoutCommand(PartMenuActions(containerId, ps), PartCommand(containerId, ps[i]))
  {
    var r := RemoveAt(ps, i);
    var cmd := PartCommand(containerId, ps[i]);
    RemoveAtMembers(ps, i);
    assert forall q :: q in ps ==> (PartCommand(containerId, q) == cmd <==> q == ps[i]) by {
      forall q | q in ps ensures PartCommand(containerId, q) == cmd <==> q == ps[i] {
        var k :| 0 <= k < |ps| && ps[k] == q;
        if k != i {
          assert KeyOf(ps[k], ByWrappedId) != KeyOf(ps[i], ByWrappedId);
        }
        SameCommandSameWidget(containerId, q, ps[i]);
      }
    }
  }

  /**
   * The parts left after removing part `i` of a sequence with distinct wrapped ids are the
   * others, still with distinct wrapped ids.
   */
  lemma RemoveAtMembers(ps: seq<ViewContainerPart>, i: nat)
    requires DistinctKeys(ps, ByWrappedId) && i < |ps|
    ensures forall x :: x in RemoveAt(ps, i) <==> x in ps && x != ps[i]
    ensures DistinctKeys(RemoveAt(ps, i), ByWrappedId)
  {
    var r := RemoveAt(ps, i);
    forall x ensures x in r <==> x in ps && x != ps[i] {
      if x in r {
        var k :| 0 <= k < |r| && r[k] == x;
        var k' := if k < i then k else k + 1;
        assert ps[k'] == x && k' != i;
        assert KeyOf(ps[k'], ByWrappedId) != KeyOf(ps[i], ByWrappedId);
      }
      if x in ps && x != ps[i] {
        var k :| 0 <= k < |ps| && ps[k] == x;
        assert r[if k < i then k else k - 1] == x;
      }
    }
    forall a, b | 0 <= a < b < |r| ensures KeyOf(r[a], ByWrappedId) != KeyOf(r[b], ByWrappedId) {
      var a' := if a < i then a else a + 1;
      var b' := if b < i then b else b + 1;
      assert r[a] == ps[a'] && r[b] == ps[b'] && a' < b';
    }
  }

  /** Appending a part for a widget no part wraps adds exactly its command and its menu entry. */
  lemma RegistrationsAfterAppend(containerId: string, ps: seq<ViewContainerPart>, p: ViewContainerPart)
    requires WellFormed(containerId, ps) && IndexOf(ps, ByWrappedId, p.wrapped.id) < 0
    requires p.id == PartWidgetId(containerId, p.wrapped.id)
    ensures WellFormed(containerId, ps + [p])
    ensures PartCommand(containerId, p) !in PartCommands(containerId, ps) + {GlobalHideCommandId(containerId)}
    ensures PartCommands(containerId, ps + [p]) == PartCommands(containerId, ps) + {PartCommand(containerId, p)}
    ensures PartMenuActions(containerId, ps + [p]) == PartMenuActions(containerId, ps) + {PartMenuAction(containerId, p)}
  {
    assert forall q :: q in ps ==> PartCommand(containerId, q) != PartCommand(containerId, p) by {
      forall q | q in ps ensures PartCommand(containerId, q) != PartCommand(containerId, p) {
        var k :| 0 <= k < |ps| && ps[k] == q;
        SameCommandSameWidget(containerId, q, p);
      }
    }
    SameCommandSameWidget(containerId, p, p);
    var r := ps + [p];
    assert forall x :: x in r <==> x in ps || x == p;
    assert DistinctKeys(r, ByWrappedId) by {
      forall a, b | 0 <= a < b < |r| ensures KeyOf(r[a], ByWrappedId) != KeyOf(r[b], ByWrappedId) {
        if b == |ps| {
          assert r[a] == ps[a];
        } else {
          assert r[a] == ps[a] && r[b] == ps[b];
        }
      }
    }
  }

  /** One step of the reorder pass keeps the same parts. */
  lemma ReorderStepKeepsWellFormed(containerId: string, order: seq<ViewContainerPart>, index: nat, pid: string)
    requires WellFormed(containerId, order)
    ensures WellFormed(containerId, ReorderStep(order, index, pid).0)
    ensures forall x :: x in ReorderStep(order, index, pid).0 <==> x in order
  {
    var c := IndexOf(order, ByPartId, pid);
    if c > index {
      MoveKeepsWellFormed(containerId, order, c, index);
    }
  }

  /** Moving a part keeps the same parts, so a well-formed container stays well-formed. */
  lemma MoveKeepsWellFormed(containerId: string, ps: seq<ViewContainerPart>, from: nat, to: nat)
    requires WellFormed(containerId, ps) && from < |ps| && to < |ps|
    ensures WellFormed(containerId, Move(ps, from, to))
    ensures forall x :: x in Move(ps, from, to) <==> x in ps
  {
    MoveKeepsElements(ps, from, to, ByWrappedId);
  }

  /** `moveBefore` keeps the same parts, so a well-formed container stays well-formed. */
  lemma MoveBeforeKeepsWellFormed(containerId: string, ps: seq<ViewContainerPart>, toMovedId: string, moveBeforeThisId: string)
    requires WellFormed(containerId, ps)
    ensures WellFormed(containerId, MoveBeforeOrder(ps, toMovedId, moveBeforeThisId))
    ensures forall x :: x in MoveBeforeOrder(ps, toMovedId, moveBeforeThisId) <==> x in ps
  {
    var from := IndexOf(ps, ById, toMovedId);
    var to := IndexOf(ps, ById, moveBeforeThisId);
    var r := MoveBeforeOrder(ps, toMovedId, moveBeforeThisId);
    if from >= 0 && to >= 0 {
      assert r == Move(ps, from, to);
      MoveKeepsWellFormed(containerId, ps, from, to);
    } else {
      assert r == ps;
    }
  }

  /** The reorder pass keeps the same parts, so a well-formed container stays well-formed. */
  lemma {:induction false} ReorderKeepsWellFormed(containerId: string, order: seq<ViewContainerPart>, stored: seq<PartState>)
    requires WellFormed(containerId, order)
    ensures WellFormed(containerId, Reorder(order, stored).0)
    ensures forall x :: x in Reorder(order, stored).0 <==> x in order
  {
    if stored != [] {
      var s := stored[..|stored| - 1];
      ReorderKeepsWellFormed(containerId, order, s);
      var t := Reorder(order, s);
      ReorderStepKeepsWellFormed(containerId, t.0, t.1, stored[|stored| - 1].partId);
    }
  }

  /** Parts with distinct wrapped ids are distinct objects. */
  lemma OtherPartsDiffer(ps: seq<ViewContainerPart>, j: nat)
    requires DistinctKeys(ps, ByWrappedId) && j < |ps|
    ensures forall i :: 0 <= i < |ps| && i != j ==> ps[i] != ps[j]
  {
    forall i | 0 <= i < |ps| && i != j ensures ps[i] != ps[j] {
      assert KeyOf(ps[i], ByWrappedId) != KeyOf(ps[j], ByWrappedId);
    }
  }

  /**
   * The visibility loop of `restoreState`: each record sets the hidden flag of the part with its
   * partId, if there is one, so a later record for the same position overrides an earlier one.
   */
  method ApplyVisibility(ps: seq<ViewContainerPart>, stored: seq<PartState>)
    requires DistinctKeys(ps, ByWrappedId)
    modifies ps`hidden
    ensures forall i :: 0 <= i < |ps| ==> ps[i].hidden == HiddenAfter(ps, stored, i, old(ps[i].hidden))
  {
    ghost var before := seq(|ps|, i requires 0 <= i < |ps| reads ps => ps[i].hidden);
    for k := 0 to |stored|
      invariant forall i :: 0 <= i < |ps| ==> ps[i].hidden == HiddenAfter(ps, stored[..k], i, before[i])
    {
      VisibilityUnfold(ps, stored, k);
      var j := IndexOf(ps, ByPartId, stored[k].partId);
      if j >= 0 {
        OtherPartsDiffer(ps, j);
        ps[j].SetHidden(stored[k].hidden);
      }
    }
    assert stored[..|stored|] == stored;
  }

  /** The records `storeState` writes: one per part, in display order. */
  function Snapshot(ps: seq<ViewContainerPart>): (r: seq<PartState>)
    reads ps
    ensures |r| == |ps|
    ensures forall i :: 0 <= i < |ps| ==> r[i].partId == ps[i].partId && r[i].hidden == ps[i].hidden
  {
    if ps == [] then []
    else Snapshot(ps[..|ps| - 1]) + [PartState(ps[|ps| - 1].partId, ps[|ps| - 1].hidden)]
  }

  /**
   * Restoring the snapshot of the current parts keeps their order; with distinct partIds it also
   * writes back into every part the hidden flag it already has.
   */
  lemma StoreThenRestore(ps: seq<ViewContainerPart>)
    ensures Reorder(ps, Snapshot(ps)) == (ps, |ps|)
    ensures DistinctKeys(ps, ByPartId) ==> forall i :: 0 <= i < |ps| ==> VisibilityWrite(ps, Snapshot(ps), i) == Some(ps[i].hidden)
  {
    var s := Snapshot(ps);
    ReorderOfSnapshotKeepsOrder(ps, s);
    if DistinctKeys(ps, ByPartId) {
      forall i | 0 <= i < |ps| ensures VisibilityWrite(ps, s, i) == Some(ps[i].hidden) {
        VisibilityOfSnapshot(ps, s, i);
      }
    }
  }

  /** Whether at least one of the parts is not hidden. */
  function AnyVisible(ps: seq<ViewContainerPart>): (r: bool)
    reads ps
    ensures r <==> exists i :: 0 <= i < |ps| && !ps[i].hidden
  {
    if ps == [] then false
    else
      assert forall i :: 0 < i < |ps| ==> ps[1..][i - 1] == ps[i];
      !ps[0].hidden || AnyVisible(ps[1..])
  }

  /** Part `p` is as `addWidget` leaves a new part: visible, a drop target, collapsed as its options say. */
  predicate Pristine(p: ViewContainerPart)
    reads p
  {
    !p.hidden && p.canBeDropTarget && (p.collapsed <==> p.options.collapsed == Some(true))
  }

  /** Part `p` was made by `addWidget` from `input`: it wraps its widget, with its partId and options. */
  predicate BuiltFrom(p: ViewContainerPart, input: WidgetInput)
  {
    p.wrapped == input.widget && p.partId == PartIdOf(input.widget, input.description) && p.options == input.options
  }

  /**
   * Bookkeeping for the constructor's loop over its first `k` inputs: `position[t]` is a part
   * wrapping a widget with the id of input `t`, and `origin[j]` is the input whose widget part
   * `j` wraps.
   */
  ghost predicate Covers(ps: seq<ViewContainerPart>, inputs: seq<WidgetInput>, k: nat, position: seq<int>, origin: seq<int>)
  {
    k <= |inputs| && |position| == k && |origin| == |ps|
    && (forall j {:trigger origin[j]} :: 0 <= j < |ps| ==> 0 <= origin[j] < k && BuiltFrom(ps[j], inputs[origin[j]]))
    && (forall t {:trigger position[t]} :: 0 <= t < k ==> 0 <= position[t] < |ps| && ps[position[t]].wrapped.id == inputs[t].widget.id)
  }

  /** An input whose widget id some part already wraps is covered by that part. */
  lemma CoversFound(ps: seq<ViewContainerPart>, inputs: seq<WidgetInput>, k: nat, position: seq<int>, origin: seq<int>, found: nat)
    requires Covers(ps, inputs, k, position, origin) && k < |inputs|
    requires found < |ps| && ps[found].wrapped.id == inputs[k].widget.id
    ensures Covers(ps, inputs, k + 1, position + [found], origin)
  {
    var position' := position + [found];
    forall t | 0 <= t < k + 1
      ensures 0 <= position'[t] < |ps| && ps[position'[t]].wrapped.id == inputs[t].widget.id
    {
      if t < k {
        assert position'[t] == position[t];
      }
    }
  }

  /** An input whose widget no part wraps is covered by the part appended for it. */
  lemma CoversAppend(ps: seq<ViewContainerPart>, inputs: seq<WidgetInput>, k: nat, position: seq<int>, origin: seq<int>, p: ViewContainerPart)
    requires Covers(ps, inputs, k, position, origin) && k < |inputs| && BuiltFrom(p, inputs[k])
    ensures Covers(ps + [p], inputs, k + 1, position + [|ps|], origin + [k])
  {
    var ps', position', origin' := ps + [p], position + [|ps|], origin + [k];
    forall t | 0 <= t < k + 1
      ensures 0 <= position'[t] < |ps'| && ps'[position'[t]].wrapped.id == inputs[t].widget.id
    {
      if t < k {
        assert position'[t] == position[t] && ps'[position[t]] == ps[position[t]];
      }
    }
    forall j | 0 <= j < |ps'|
      ensures 0 <= origin'[j] < k + 1 && BuiltFrom(ps'[j], inputs[origin'[j]])
    {
      if j < |ps| {
        assert origin'[j] == origin[j] && ps'[j] == ps[j];
      }
    }
  }

  /** Once every input is covered, each input's widget id is found and each part was built from an input. */
  lemma CoversAll(ps: seq<ViewContainerPart>, inputs: seq<WidgetInput>, position: seq<int>, origin: seq<int>)
    requires Covers(ps, inputs, |inputs|, position, origin)
    ensures forall k :: 0 <= k < |inputs| ==> IndexOf(ps, ByWrappedId, inputs[k].widget.id) >= 0
    ensures forall p :: p in ps ==> exists k :: 0 <= k < |inputs| && BuiltFrom(p, inputs[k])
  {
    forall k | 0 <= k < |inputs| ensures IndexOf(ps, ByWrappedId, inputs[k].widget.id) >= 0 {
      assert KeyOf(ps[position[k]], ByWrappedId) == inputs[k].widget.id;
    }
    forall p | p in ps ensures exists k :: 0 <= k < |inputs| && BuiltFrom(p, inputs[k]) {
      var j :| 0 <= j < |ps| && ps[j] == p;
      assert BuiltFrom(p, inputs[origin[j]]);
    }
  }

  /** What `addWidget` hands back: removes the widget when disposed; `widget` is `None` for the no-op handle. */
  class Registration {
    const widget: Option<Widget>
    var disposed: bool

    constructor (widget: Option<Widget>)
      ensures this.widget == widget && !disposed
    {
      this.widget := widget;
      disposed := false;
    }
  }

  class ViewContainer {

    const id: string
    /** The parts, in the order of the split layout. */
    var parts: seq<ViewContainerPart>
    /** The command ids this container has registered and not yet unregistered. */
    var commands: set<string>
    /** The context-menu entries this container has registered and not yet unregistered. */
    var menuActions: set<MenuAction>
    var layoutOrientation: Orientation

    /**
     * No two parts wrap the same widget; the registered commands are the global hide command and
     * one toggle-visibility command per part; the menu entries likewise.
     */
    ghost predicate Valid()
      reads this
    {
      Registered(id, parts, commands, menuActions)
    }

    /**
     * A container with id `view-container-widget-<token>` holding one part per distinct input
     * widget (a repeated widget id is skipped), with the global hide command and its menu entry.
     * Each part is built by `addWidget` from one of the inputs, so it starts visible, a drop
     * target, and collapsed exactly when its options say so.
     */
    constructor (token: string, inputs: seq<WidgetInput>)
      ensures Valid() && id == ContainerId(token) && layoutOrientation == Vertical
      ensures |parts| <= |inputs|
      ensures forall k :: 0 <= k < |inputs| ==> IndexOf(parts, ByWrappedId, inputs[k].widget.id) >= 0
      ensures forall p :: p in parts ==> fresh(p) && Pristine(p)
      ensures forall p :: p in parts ==> exists k :: 0 <= k < |inputs| && BuiltFrom(p, inputs[k])
    {
      id := ContainerId(token);
      parts := [];
      commands := {GlobalHideCommandId(ContainerId(token))};
      menuActions := {GlobalMenuAction(ContainerId(token))};
      layoutOrientation := Vertical;
      new;
      ghost var position: seq<int> := [];
      ghost var origin: seq<int> := [];
      for k := 0 to |inputs|
        invariant Valid() && layoutOrientation == Vertical && |parts| <= k
        invariant forall p :: p in parts ==> fresh(p) && Pristine(p)
        invariant Covers(parts, inputs, k, position, origin)
      {
        position, origin := AddInitialWidget(inputs, k, position, origin);
      }
      CoversAll(parts, inputs, position, origin);
    }

    /** The constructor's `addWidget` call for input `k`, which leaves input `k` covered. */
    method AddInitialWidget(inputs: seq<WidgetInput>, k: nat, ghost position: seq<int>, ghost origin: seq<int>)
      returns (ghost position': seq<int>, ghost origin': seq<int>)
      requires Valid() && k < |inputs| && |parts| <= k
      requires forall p :: p in parts ==> Pristine(p)
      requires Covers(parts, inputs, k, position, origin)
      modifies this`parts, this`commands, this`menuActions
      ensures Valid() && |parts| <= k + 1
      ensures forall p :: p in parts ==> Pristine(p) && (p in old(parts) || fresh(p))
      ensures Covers(parts, inputs, k + 1, position', origin')
    {
      var input := inputs[k];
      ghost var before := parts;
      ghost var found := IndexOf(parts, ByWrappedId, input.widget.id);
      var r := AddWidget(input.widget, input.description, input.options);
      if found >= 0 {
        assert parts == before;
        CoversFound(parts, inputs, k, position, origin, found);
        position', origin' := position + [found], origin;
      } else {
        ghost var p := parts[|before|];
        assert parts == before + [p];
        CoversAppend(before, inputs, k, position, origin, p);
        position', origin' := position + [|before|], origin + [k];
      }
    }

    /**
     * `addWidget`: a widget some part already wraps gets the no-op handle and changes nothing;
     * otherwise one new, visible part is appended and exactly one new command and menu entry
     * are registered for it.
     */
    method AddWidget(widget: Widget, description: Option<string>, options: WidgetOptions) returns (r: Registration)
      requires Valid()
      modifies this`parts, this`commands, this`menuActions
      ensures Valid() && fresh(r) && !r.disposed
      ensures IndexOf(old(parts), ByWrappedId, widget.id) >= 0 ==>
                r.widget == None && parts == old(parts) && commands == old(commands) && menuActions == old(menuActions)
      ensures IndexOf(old(parts), ByWrappedId, widget.id) < 0 ==>
                r.widget == Some(widget)
                && |parts| == |old(parts)| + 1
                && var p := parts[|old(parts)|];
                   parts == old(parts) + [p] && fresh(p) && p.wrapped == widget && p.partId == PartIdOf(widget, description) && p.options == options
                   && p.id == PartWidgetId(id, widget.id) && !p.hidden && p.canBeDropTarget
                   && (p.collapsed <==> options.collapsed == Some(true))
                   && PartCommand(id, p) !in old(commands)
                   && commands == old(commands) + {PartCommand(id, p)}
                   && menuActions == old(menuActions) + {PartMenuAction(id, p)}
    {
      if IndexOf(parts, ByWrappedId, widget.id) >= 0 {
        r := new Registration(None);
        return;
      }
      var newPart := new ViewContainerPart(widget, PartIdOf(widget, description), id, options);
      AppendedStaysRegistered(id, parts, newPart, commands, menuActions);
      RegisterPart(newPart);
      parts := parts + [newPart];
      r := new Registration(Some(widget));
    }

    /** `registerPart`: the part's toggle-visibility command and its menu entry. */
    method RegisterPart(p: ViewContainerPart)
      modifies this`commands, this`menuActions
      ensures commands == old(commands) + {PartCommand(id, p)}
      ensures menuActions == old(menuActions) + {PartMenuAction(id, p)}
    {
      commands := commands + {PartCommand(id, p)};
      menuActions := menuActions + {PartMenuAction(id, p)};
    }

    /** `unregisterPart`: drops the part's command and every menu entry that runs it. */
    method UnregisterPart(p: ViewContainerPart)
      modifies this`commands, this`menuActions
      ensures commands == old(commands) - {PartCommand(id, p)}
      ensures menuActions == WithoutCommand(old(menuActions), PartCommand(id, p))
    {
      commands := commands - {PartCommand(id, p)};
      menuActions := WithoutCommand(menuActions, PartCommand(id, p));
    }

    /**
     * `removeWidget`: false and no change when no part wraps the widget; otherwise the part is
     * taken out (the others keep their order), its command and menu entry are unregistered, and
     * the result is true.
     */
    method RemoveWidget(widget: Widget) returns (removed: bool)
      requires Valid()
      modifies this`parts, this`commands, this`menuActions
      ensures Valid()
      ensures removed <==> IndexOf(old(parts), ByWrappedId, widget.id) >= 0
      ensures !removed ==> parts == old(parts) && commands == old(commands) && menuActions == old(menuActions)
      ensures removed ==>
                var i := IndexOf(old(parts), ByWrappedId, widget.id);
                var cmd := PartCommand(id, old(parts)[i]);
                parts == RemoveAt(old(parts), i)
                && cmd in old(commands) && commands == old(commands) - {cmd}
                && menuActions == WithoutCommand(old(menuActions), cmd)
    {
      var i := IndexOf(parts, ByWrappedId, widget.id);
      if i < 0 {
        return false;
      }
      RemovedStaysRegistered(id, parts, i, commands, menuActions);
      UnregisterPart(parts[i]);
      parts := RemoveAt(parts, i);
      removed := true;
    }

    /**
     * Disposing a handle from `AddWidget` removes its widget the first time, and does nothing
     * for the no-op handle or when it was disposed already.
     */
    method DisposeRegistration(r: Registration)
      requires Valid()
      modifies this`parts, this`commands, this`menuActions, r`disposed
      ensures Valid() && r.disposed
      ensures old(r.disposed) || r.widget.None? ==>
                parts == old(parts) && commands == old(commands) && menuActions == old(menuActions)
      ensures !old(r.disposed) && r.widget.Some? ==>
                var i := IndexOf(old(parts), ByWrappedId, r.widget.value.id);
                if i < 0 then parts == old(parts) && commands == old(commands) && menuActions == old(menuActions)
                else parts == RemoveAt(old(parts), i) && commands == old(commands) - {PartCommand(id, old(parts)[i])}
    {
      if !r.disposed && r.widget.Some? {
        var _ := RemoveWidget(r.widget.value);
      }
      r.disposed := true;
    }

    /** `storeState`: one record per part, in display order, carrying its partId and hidden flag. */
    function StoreState(): (s: State)
      reads this, parts
      ensures s.parts.Some? && |s.parts.value| == |parts|
      ensures forall i :: 0 <= i < |parts| ==>
                s.parts.value[i] == PartState(parts[i].partId, parts[i].hidden)
    {
      State(Some(Snapshot(parts)))
    }

    /**
     * `restoreState`: a state without records changes nothing. Otherwise the reorder loop leaves
     * the parts in the order `Reorder` gives, and the visibility loop leaves each part with the
     * hidden flag `HiddenAfter` gives for its new position. No other field of a part changes.
     */
    method RestoreState(state: State)
      requires Valid()
      modifies this`parts, parts`hidden
      ensures Valid()
      ensures forall x :: x in parts <==> x in old(parts)
      ensures state.parts.None? ==> parts == old(parts)
      ensures state.parts.Some? ==> parts == Reorder(old(parts), state.parts.value).0
      ensures forall i :: 0 <= i < |parts| && parts[i] in old(parts) ==>
                var p := parts[i];
                p.hidden == if state.parts.Some? then HiddenAfter(parts, state.parts.value, i, old(p.hidden)) else old(p.hidden)
    {
      if state.parts.Some? {
        ReorderParts(state.parts.value);
        assert forall x :: x in parts ==> x in old(parts);
        RestoreVisibility(state.parts.value);
      }
    }

    /** The reorder loop of `restoreState`, with its running `index`. */
    method ReorderParts(stored: seq<PartState>)
      requires Valid()
      modifies this`parts
      ensures Valid()
      ensures parts == Reorder(old(parts), stored).0
      ensures forall x :: x in parts <==> x in old(parts)
    {
      ghost var original := parts;
      var index: nat := 0;
      for k := 0 to |stored|
        invariant (parts, index) == Reorder(original, stored[..k])
      {
        ReorderUnfold(original, stored, k);
        var currentIndex := IndexOf(parts, ByPartId, stored[k].partId);
        if currentIndex >= 0 {
          if currentIndex > index {
            parts := Move(parts, currentIndex, index);
          }
          index := index + 1;
        }
      }
      assert stored[..|stored|] == stored;
      ReorderKeepsWellFormed(id, original, stored);
      SameElementsSameRegistrations(id, parts, original);
    }

    /** The visibility loop of `restoreState`: each record sets the flag of the first part with its partId. */
    method RestoreVisibility(stored: seq<PartState>)
      requires Valid()
      modifies parts`hidden
      ensures forall i :: 0 <= i < |parts| ==> parts[i].hidden == HiddenAfter(parts, stored, i, old(parts[i].hidden))
    {
      ApplyVisibility(parts, stored);
    }

    /** `toggleVisibility`: flips the hidden flag of that one part. */
    method ToggleVisibility(p: ViewContainerPart)
      modifies p`hidden
      ensures p.hidden == !old(p.hidden)
    {
      p.SetHidden(!p.hidden);
    }

    /**
     * Toggles the part whose id is `partWidgetId`, if there is one; every other part keeps its
     * hidden flag.
     */
    method ToggleById(partWidgetId: string)
      requires WellFormed(id, parts)
      modifies parts`hidden
      ensures var i := IndexOf(parts, ById, partWidgetId);
              forall j :: 0 <= j < |parts| ==>
                parts[j].hidden == (if j == i then !old(parts[j].hidden) else old(parts[j].hidden))
    {
      var i := IndexOf(parts, ById, partWidgetId);
      if i >= 0 {
        forall j | 0 <= j < |parts| && j != i ensures parts[j] != parts[i] {
          assert KeyOf(parts[j], ByWrappedId) != KeyOf(parts[i], ByWrappedId);
        }
        ToggleVisibility(parts[i]);
      }
    }

    /** The per-part command registered for `registered`: toggles the current part with its id. */
    method ExecuteToggleVisibility(registered: ViewContainerPart)
      requires WellFormed(id, parts)
      modifies parts`hidden
      ensures var i := IndexOf(parts, ById, registered.id);
              forall j :: 0 <= j < |parts| ==>
                parts[j].hidden == (if j == i then !old(parts[j].hidden) else old(parts[j].hidden))
    {
      ToggleById(registered.id);
    }

    /** `isToggled` of the per-part command: the part with that id exists and is visible. */
    function IsToggled(registered: ViewContainerPart): (r: bool)
      reads this, parts
      requires WellFormed(id, parts)
      ensures r <==> exists i :: 0 <= i < |parts| && parts[i].id == registered.id && !parts[i].hidden
    {
      var i := IndexOf(parts, ById, registered.id);
      if i >= 0 then
        assert forall j :: 0 <= j < |parts| && parts[j].id == registered.id ==> j == i by {
          forall j | 0 <= j < |parts| && parts[j].id == registered.id ensures j == i {
            if j > i {
              PartWidgetIdInjective(id, parts[j].wrapped.id, parts[i].wrapped.id);
              assert false;
            }
          }
        }
        !parts[i].hidden
      else false
    }

    /**
     * The global hide command, run with the id of the part under the pointer (`None` when the
     * pointer is over no part): toggles that part if it has a non-empty id naming a current part.
     */
    method ExecuteGlobalHide(partUnderPointer: Option<string>)
      requires WellFormed(id, parts)
      modifies parts`hidden
      ensures var i := if partUnderPointer.Some? && partUnderPointer.value != ""
                       then IndexOf(parts, ById, partUnderPointer.value) else -1;
              forall j :: 0 <= j < |parts| ==>
                parts[j].hidden == (if j == i then !old(parts[j].hidden) else old(parts[j].hidden))
    {
      if partUnderPointer.Some? && partUnderPointer.value != "" {
        ToggleById(partUnderPointer.value);
      }
    }

    /** `isVisible` of the global hide command: some part is visible. */
    function GlobalHideIsVisible(): (r: bool)
      reads this, parts
      ensures r <==> exists p :: p in parts && !p.hidden
    {
      assert forall p :: p in parts ==> exists i :: 0 <= i < |parts| && parts[i] == p;
      AnyVisible(parts)
    }

    /**
     * Whether a `contextmenu` event with mouse `button` opens the container's context menu. On a
     * part header the part's listener opens it for button 2; elsewhere the container's listener
     * opens it for button 2 only while every part is hidden.
     */
    function ContextMenuOpens(onPartHeader: bool, button: int): (r: bool)
      reads this, parts
      ensures r <==> button == 2 && (onPartHeader || forall p :: p in parts ==> p.hidden)
    {
      button == 2 && (onPartHeader || !GlobalHideIsVisible())
    }

    /**
     * `toggleCollapsed`: the position handed to the layout's `toggleCollapsed`, or `None` when
     * the part is no longer in the container.
     */
    method ToggleCollapsed(p: ViewContainerPart) returns (layoutIndex: Option<nat>)
      ensures layoutIndex.Some? <==> p in parts
      ensures layoutIndex.Some? ==> layoutIndex.value < |parts| && parts[layoutIndex.value] == p
    {
      var index := IndexOfPart(parts, p);
      if index >= 0 {
        layoutIndex := Some(index);
      } else {
        layoutIndex := None;
      }
    }

    /**
     * A click on the header of `p`: in a vertical container it flips `p.collapsed` and, through
     * the `collapsed` event, asks the layout to toggle `p`'s position.
     */
    method HeaderClicked(p: ViewContainerPart, nestedInMainOrBottom: bool) returns (layoutIndex: Option<nat>)
      modifies p`collapsed
      ensures OrientationOf(nestedInMainOrBottom) == Horizontal ==> p.collapsed == old(p.collapsed) && layoutIndex == None
      ensures OrientationOf(nestedInMainOrBottom) == Vertical ==>
                p.collapsed == !old(p.collapsed) && (layoutIndex.Some? <==> p in parts)
                && (layoutIndex.Some? ==> layoutIndex.value < |parts| && parts[layoutIndex.value] == p)
    {
      var fired := p.HeaderClick(nestedInMainOrBottom);
      layoutIndex := None;
      if fired.Some? {
        layoutIndex := ToggleCollapsed(p);
      }
    }

    /**
     * `moveBefore`: when both ids name current parts, the first is moved to the position of the
     * second and every other part keeps its relative order; otherwise nothing changes.
     */
    method MoveBefore(toMovedId: string, moveBeforeThisId: string)
      requires Valid()
      modifies this`parts
      ensures Valid()
      ensures parts == MoveBeforeOrder(old(parts), toMovedId, moveBeforeThisId)
    {
      MoveBeforeKeepsWellFormed(id, parts, toMovedId, moveBeforeThisId);
      RearrangedStaysRegistered(id, parts, MoveBeforeOrder(parts, toMovedId, moveBeforeThisId), commands, menuActions);
      parts := MovePartBefore(parts, toMovedId, moveBeforeThisId);
    }

    /**
     * A drop on `target` with drag payload `data`: the part's `moveBefore` event, when it fires,
     * moves the dragged part before `target`.
     */
    method OnDrop(target: ViewContainerPart, data: Option<string>)
      requires Valid()
      modifies this`parts
      ensures Valid()
      ensures parts == match target.MoveBeforeRequest(data)
                       case Some(toMoveId) => MoveBeforeOrder(old(parts), toMoveId, target.id)
                       case None => old(parts)
      ensures data == Some(target.id) ==> parts == old(parts)
    {
      var request := target.MoveBeforeRequest(data);
      if request.Some? {
        MoveBefore(request.value, target.id);
      }
    }

    /**
     * `restoreState(storeState())`: the parts keep their order, and with distinct partIds every
     * part keeps its hidden flag.
     */
    method RestoreStoredState()
      requires Valid()
      modifies this`parts, parts`hidden
      ensures Valid() && parts == old(parts)
      ensures DistinctKeys(parts, ByPartId) ==> forall i :: 0 <= i < |parts| ==> parts[i].hidden == old(parts[i].hidden)
    {
      var state := StoreState();
      StoreThenRestore(parts);
      RestoreState(state);
    }

    /**
     * Disposing the container as written: it unregisters the global hide command and its menu
     * entry, and leaves every per-part command and menu entry registered. It may be called again
     * on a disposed container.
     */
    method Dispose()
      requires PartsRegistered(id, parts, commands, menuActions)
      modifies this`commands, this`menuActions
      ensures commands == old(commands) - {GlobalHideCommandId(id)}
      ensures menuActions == WithoutCommand(old(menuActions), GlobalHideCommandId(id))
      ensures forall p :: p in parts ==> PartCommand(id, p) in commands && PartMenuAction(id, p) in menuActions
      ensures PartsRegistered(id, parts, commands, menuActions)
    {
      forall p | p in parts ensures PartCommand(id, p) != GlobalHideCommandId(id) {
        SameCommandSameWidget(id, p, p);
      }
      commands := commands - {GlobalHideCommandId(id)};
      menuActions := WithoutCommand(menuActions, GlobalHideCommandId(id));
    }

    /** Disposing twice: the second call finds nothing more to unregister. */
    method DisposeTwice()
      requires PartsRegistered(id, parts, commands, menuActions)
      modifies this`commands, this`menuActions
      ensures commands == old(commands) - {GlobalHideCommandId(id)}
      ensures menuActions == WithoutCommand(old(menuActions), GlobalHideCommandId(id))
    {
      Dispose();
      ghost var once := menuActions;
      Dispose();
      assert menuActions == once by {
        assert forall a :: a in menuActions <==> a in once;
      }
    }

    /**
     * Disposing the container so that it leaves nothing registered: every part is removed, as
     * disposing its `AddWidget` handle would, before the container's own registrations go.
     */
    method DisposeAll()
      requires Valid()
      modifies this`parts, this`commands, this`menuActions
      ensures parts == [] && commands == {} && menuActions == {}
    {
      while parts != []
        invariant Valid()
        decreases |parts|
      {
        var removed := RemoveWidget(parts[0].wrapped);
      }
      Dispose();
    }

    /** `onAfterAttach`: the layout takes the orientation of where the container now sits. */
    method OnAfterAttach(nestedInMainOrBottom: bool)
      modifies this`layoutOrientation
      ensures layoutOrientation == OrientationOf(nestedInMainOrBottom)
      ensures (layoutOrientation == Horizontal) <==> nestedInMainOrBottom
    {
      layoutOrientation := OrientationOf(nestedInMainOrBottom);
    }
  }
}
