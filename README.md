# View container model

A Dafny model of Theia's view container (`packages/core/src/browser/view-container.ts`): a
widget that stacks several child widgets in a split layout, each wrapped in a *part* with a
header. Contracts and lemmas state what the container promises.

- **Container and parts.** The container keeps the parts in layout order. It registers one
  toggle-visibility command and one context-menu entry per part, plus one global "Hide"
  command.
- **Persistence.** It can store and restore the parts' order and hidden flags.
- **Part state.** Each part carries three flags: `collapsed`, `hidden` and
  `canBeDropTarget`. Header clicks and drag-and-drop events change them.

Files, one module each:

- `identifiers.dfy` (`Identifiers`): the id scheme.
  - Container ids: `view-container-widget-<token>`.
  - Part ids: `<container>--<wrapped widget id>`.
  - Per-part commands: `<container>:toggle-visibility-<part id>`.
  - The global command: `<container>:toggle-visibility`.
  - The context-menu path.
  - Proves that part ids and per-part command ids are one-to-one with wrapped widget ids, and
    that no per-part command collides with the global one.
- `parts.dfy` (`Parts`): the class `ViewContainerPart`.
  - Its constructor, the header-click collapse toggle and the drag-start/drag-end flag.
  - The drop rule: a move is requested only for a non-empty id other than the part's own.
- `layout.dfy` (`Layout`): the layout's order as a `seq`. Covers `findIndex`/`indexOf` and the
  layout's `moveWidget`, plus the facts proved about moving.
- `restore.dfy` (`Restore`): the two loops of `restoreState` as functions of the current order
  and the stored records (`Reorder`, `VisibilityWrite`). What they achieve is proved here:
  - with distinct partIds, the matched parts come first, in stored order, and the unmatched
    parts follow in their old relative order;
  - with distinct partIds, every matched part gets its last stored flag;
  - restoring a snapshot always keeps the order, and with distinct partIds it also keeps every
    hidden flag;
  - with a shared partId, restoring a snapshot does change the hidden flags (a counterexample).
- `container.dfy` (`Containers`): the class `ViewContainer`.
  - Its `Valid()` invariant: wrapped widget ids are pairwise distinct, and the registered
    commands and menu entries are exactly the global ones plus one per part.
  - The operations that change the parts or the registrations (adding, removing, moving,
    restoring) are each proved to keep that invariant. `Dispose` breaks it by design: the
    global command goes while the per-part ones stay, and a second `Dispose` finds nothing more to
    remove. The toggle, collapse and attach
    operations cannot touch the parts or the registrations, so the invariant holds after them too.
  - `RestoreState`'s loops are proved against the functions of `Restore`.

The layout delegate (`ViewContainerLayout`) is not part of this model. Its `moveWidget(from, to)`
is taken to remove the element at `from` and insert it at `to`. A consequence is stated in
`Layout.MoveBackward`: when `moveBefore` drags a part further down, the part lands just *after*
its target.

The command and menu registries are modelled as the fields `commands` (command ids) and
`menuActions` (path, command id, label). They hold what this container has registered and not
yet unregistered.

## Model

| member | source | states |
|---|---|---|
| Identifiers.ContainerIdDecodes | packages/core/src/browser/view-container.ts:39 | `ContainerId`: the container id is `view-container-widget-` followed by the token, which can be read back from it |
| Identifiers.PartWidgetIdDecodes | packages/core/src/browser/view-container.ts:345 | `PartWidgetId`: a part id starts with its container's id, and the wrapped widget id can be read back after the `--` |
| Identifiers.ToggleVisibilityCommandIdExtendsGlobal | packages/core/src/browser/view-container.ts:266-272 | `ToggleVisibilityCommandId`: a per-part command id is exactly the global hide command id, a `-`, then the part id, so it never equals the global id |
| Identifiers.GlobalHideCommandIdScoped | packages/core/src/browser/view-container.ts:270-272 | `GlobalHideCommandId`: the global hide command id starts with the container id and is `:toggle-visibility` longer |
| Identifiers.ContextMenuPathScoped | packages/core/src/browser/view-container.ts:262-264 | `ContextMenuPath`: one segment that starts with the container id and is `-context-menu` longer, so never the container id itself |
| Identifiers.PartWidgetIdInjective | packages/core/src/browser/view-container.ts:345 | two part ids of one container are equal exactly when the wrapped widget ids are |
| Identifiers.ToggleVisibilityCommandIdsDistinct | packages/core/src/browser/view-container.ts:266-272 | per-part command ids are equal exactly when the wrapped widget ids are, and none equals the global hide command id |
| Parts.OrientationOf | packages/core/src/browser/view-container.ts:246-251 | the orientation is horizontal exactly when the container sits in the main or bottom panel |
| Parts.ViewContainerPart.constructor | packages/core/src/browser/view-container.ts:338-347 | the part id is `<container>--<wrapped id>`; it starts collapsed exactly when the options say `collapsed: true`; it starts visible and a drop target |
| Parts.ViewContainerPart.HeaderClick | packages/core/src/browser/view-container.ts:465-479 | horizontal: nothing changes and nothing fires; vertical: `collapsed` is negated and its new value fires |
| Parts.ViewContainerPart.DragStart | packages/core/src/browser/view-container.ts:416-429 | with a data transfer the part stops being a drop target and puts its own id in the payload; without one nothing changes |
| Parts.ViewContainerPart.DragEnd | packages/core/src/browser/view-container.ts:430 | the part is a drop target again |
| Parts.ViewContainerPart.MoveBeforeRequest | packages/core/src/browser/view-container.ts:433-442 | a move is requested exactly when the payload is a non-empty id other than the part's own, and it names that id |
| Parts.DropOnSelfRequestsNothing | packages/core/src/browser/view-container.ts:416-438 | dragging a part and dropping it onto itself never requests a move |
| Layout.IndexOf | packages/core/src/browser/view-container.ts:209-212 | `findIndex`: -1 exactly when no part matches; otherwise the first matching position |
| Layout.IndexOfPart | packages/core/src/browser/view-container.ts:201-204 | `indexOf`: -1 exactly when the part is absent; otherwise its first position |
| Layout.Move | packages/core/src/browser/view-container.ts:148 | the moved element lands at `to`; removing it again gives the original without it, so the others keep their relative order |
| Layout.MovePermutes | packages/core/src/browser/view-container.ts:148 | moving is a permutation (same multiset) |
| Layout.MoveKeepsElements | packages/core/src/browser/view-container.ts:148 | moving keeps the same parts and keeps wrapped ids pairwise distinct |
| Layout.MoveForward | packages/core/src/browser/view-container.ts:147-149 | a move toward the front shifts the parts in between one place back |
| Layout.MoveBackward | packages/core/src/browser/view-container.ts:209-216 | a move toward the back puts the moved part just after the part that was at the target position |
| Layout.MoveBeforePermutes | packages/core/src/browser/view-container.ts:209-216 | `moveBefore` only permutes the parts |
| Layout.MovePartBefore | packages/core/src/browser/view-container.ts:209-216 | when both ids resolve, the part with the first id lands at the position of the part with the second and removing it again gives the old order without it; otherwise nothing changes; either way the result is a permutation |
| Layout.MoveBeforeSelf | packages/core/src/browser/view-container.ts:209-216 | moving a part before itself changes nothing |
| Restore.Reorder | packages/core/src/browser/view-container.ts:142-152 | the reorder loop as a function of the records consumed so far; its contract bounds the running index by the number of records, and the order it produces is characterised by `ReorderPutsMatchedFirst` |
| Restore.ReorderPermutes | packages/core/src/browser/view-container.ts:142-152 | the reorder loop only permutes the parts |
| Restore.ReorderPutsMatchedFirst | packages/core/src/browser/view-container.ts:140-152 | with distinct partIds, the order becomes the matched parts in stored order followed by the unmatched parts in their previous relative order; the index ends at the number matched |
| Restore.VisibilityFollowsRecords | packages/core/src/browser/view-container.ts:154-161 | with distinct partIds, a part's flag is set exactly when some record names it, to the value of the last such record |
| Restore.LastHidden | packages/core/src/browser/view-container.ts:154-161 | a flag exists exactly when some record names the partId, and it is one of that partId's stored values |
| Restore.ReorderOfSnapshotKeepsOrder | packages/core/src/browser/view-container.ts:132-152 | reordering by records taken from the current order (any partIds) leaves the order as it is |
| Restore.VisibilityOfSnapshot | packages/core/src/browser/view-container.ts:132-161 | with distinct partIds, restoring a snapshot writes back into each recorded part exactly its recorded flag |
| Restore.SharedPartIdBreaksSnapshot | packages/core/src/browser/view-container.ts:140-161 | with two parts sharing a partId, both records land on the first part, which ends with the second part's flag |
| Restore.ExampleReorder | packages/core/src/browser/view-container.ts:142-152 | parts [A, B, C] reordered by records naming C, A, B become [C, A, B], and the running index ends at 3 |
| Restore.RestoreExample | packages/core/src/browser/view-container.ts:140-161 | parts [A, B, C] restored from the records [C visible, A hidden, B visible] become [C, A, B] with A hidden and B and C visible, whatever their flags were before |
| Restore.RestoreExampleVisibility | packages/core/src/browser/view-container.ts:154-161 | parts [C, A, B] with records [C visible, A hidden, B visible] end with A hidden and B and C visible, whatever they were before |
| Containers.PartIdOf | packages/core/src/browser/view-container.ts:92-93 | a part's partId is the serialised description when there is one, else the widget id |
| Containers.MenuActionsOfContainer | packages/core/src/browser/view-container.ts:71-74 | `PartMenuAction` (lines 183-187) and `GlobalMenuAction`: both entries sit under the container's context menu in two-segment paths; a part's entry runs the part's command and carries the widget's title; the global entry runs the global hide command; the two are never the same entry |
| Containers.OneCommandPerPart | packages/core/src/browser/view-container.ts:165-195 | in a well-formed container there are exactly as many per-part commands as parts, none of them the global one |
| Containers.RegistrationsAfterAppend | packages/core/src/browser/view-container.ts:165-188 | appending a part for a new widget adds exactly one new command and one menu entry, and keeps wrapped ids distinct |
| Containers.AppendedStaysRegistered | packages/core/src/browser/view-container.ts:88-111 | appending a part for a widget no part wraps, with its command and menu entry, keeps the container's invariant, and that command was not registered before |
| Containers.RemovedStaysRegistered | packages/core/src/browser/view-container.ts:113-122 | removing a part with its command and menu entry keeps the container's invariant, and the removed command was registered |
| Containers.RegistrationsAfterRemove | packages/core/src/browser/view-container.ts:190-195 | removing a part takes out exactly its command and the menu entries that run it |
| Containers.ReorderKeepsWellFormed | packages/core/src/browser/view-container.ts:142-152 | the reorder pass keeps the same parts and keeps wrapped ids distinct |
| Containers.Snapshot | packages/core/src/browser/view-container.ts:132-138 | one record per part, in display order, with that part's partId and hidden flag |
| Containers.StoreThenRestore | packages/core/src/browser/view-container.ts:132-163 | restoring the snapshot of the current parts keeps their order; with distinct partIds it writes back into each part the flag it already has |
| Containers.AnyVisible | packages/core/src/browser/view-container.ts:69 | true exactly when some part is not hidden |
| Containers.ViewContainer.constructor | packages/core/src/browser/view-container.ts:37-86 | id `view-container-widget-<token>`, vertical layout, valid registrations; every input widget is wrapped by a part; every part is new, visible, a drop target, collapsed exactly when its options say so, and built from one input: its widget, partId `PartIdOf(widget, description)` and options |
| Containers.ViewContainer.AddWidget | packages/core/src/browser/view-container.ts:88-111 | a duplicate widget id: no-op handle, nothing changes; otherwise exactly one new visible part with id `<container>--<widget id>` and partId `PartIdOf(widget, description)` is appended, and exactly one new command and one menu entry are registered |
| Containers.ViewContainer.RegisterPart | packages/core/src/browser/view-container.ts:165-188 | registers the part's command and its `1_widgets` menu entry labelled with the widget title |
| Containers.ViewContainer.UnregisterPart | packages/core/src/browser/view-container.ts:190-195 | unregisters the part's command and every menu entry that runs it |
| Containers.ViewContainer.RemoveWidget | packages/core/src/browser/view-container.ts:113-122 | false and nothing changes when no part wraps the widget; otherwise true, that part is removed with the others keeping their order, and its command and menu entry are unregistered |
| Containers.ViewContainer.DisposeRegistration | packages/core/src/browser/view-container.ts:98-110 | the first disposal of a real handle removes its widget; later disposals and the no-op handle change nothing |
| Containers.ViewContainer.StoreState | packages/core/src/browser/view-container.ts:132-138 | exactly one `{partId, hidden}` record per part, in display order |
| Containers.ViewContainer.RestoreState | packages/core/src/browser/view-container.ts:140-163 | no records: nothing changes; otherwise the order is `Reorder`'s and each part's flag is the value `HiddenAfter` gives; the same parts remain and the invariant is kept; the frame lets nothing else change (registrations, `collapsed`, `canBeDropTarget`) |
| Containers.ViewContainer.ReorderParts | packages/core/src/browser/view-container.ts:142-152 | the reorder loop leaves exactly the order `Reorder` gives, with the same parts |
| Containers.ApplyVisibility | packages/core/src/browser/view-container.ts:154-161 | the visibility loop, over parts with distinct wrapped ids: each part ends with the value of the last record first found at its position, and is untouched otherwise; only `hidden` flags change |
| Containers.ViewContainer.RestoreVisibility | packages/core/src/browser/view-container.ts:154-161 | the visibility pass over the container's own parts, with the same outcome |
| Containers.ViewContainer.RestoreStoredState | packages/core/src/browser/view-container.ts:132-163 | `restoreState(storeState())` keeps the order, and with distinct partIds keeps every hidden flag |
| Containers.ViewContainer.ToggleVisibility | packages/core/src/browser/view-container.ts:197-199 | negates the hidden flag of that part |
| Containers.ViewContainer.ToggleById | packages/core/src/browser/view-container.ts:170-173 | the first part with that id has its hidden flag negated; every other part keeps its flag, and no other field of any part changes; needs only distinct wrapped ids, so it also holds after `Dispose` |
| Containers.ViewContainer.ExecuteToggleVisibility | packages/core/src/browser/view-container.ts:168-174 | the per-part command negates the hidden flag of the current part with the registered part's id and changes nothing else; it stays runnable after `Dispose` |
| Containers.ViewContainer.IsToggled | packages/core/src/browser/view-container.ts:175-181 | true exactly when a part with the registered part's id exists and is visible; needs only distinct wrapped ids |
| Containers.ViewContainer.ExecuteGlobalHide | packages/core/src/browser/view-container.ts:56-68 | with a non-empty id under the pointer that names a part, only that part's hidden flag is negated; otherwise nothing changes; no other field of any part changes |
| Containers.ViewContainer.GlobalHideIsVisible | packages/core/src/browser/view-container.ts:69 | the global hide command is visible exactly when some part is not hidden |
| Containers.ViewContainer.ContextMenuOpens | packages/core/src/browser/view-container.ts:76-82 | the context menu opens exactly for button 2, on a part header always, elsewhere only when every part is hidden |
| Containers.ViewContainer.ToggleCollapsed | packages/core/src/browser/view-container.ts:201-207 | the layout is asked to toggle a position exactly when the part is present, and that position holds the part |
| Containers.ViewContainer.HeaderClicked | packages/core/src/browser/view-container.ts:100 | in a vertical container a header click flips `collapsed` and the layout toggles the part's position; in a horizontal one nothing happens |
| Containers.ViewContainer.MoveBefore | packages/core/src/browser/view-container.ts:209-216 | the order becomes `MoveBeforeOrder` of the old one and the invariant is kept; the frame is the part order alone, so the registrations are unchanged |
| Containers.ViewContainer.OnDrop | packages/core/src/browser/view-container.ts:101 | a drop moves the dragged part before the target exactly when the part's drop rule requests it; a drop of a part on itself changes nothing |
| Containers.ViewContainer.Dispose | packages/core/src/browser/view-container.ts:83-84 | disposal as written unregisters the global command and its menu entry, and every per-part command and entry stays registered; it needs only the parts' own registrations, which it keeps, so it may be called again after a first disposal |
| Containers.ViewContainer.DisposeTwice | packages/core/src/browser/view-container.ts:75-85 | disposing twice leaves exactly what disposing once does: the second call unregisters nothing more |
| Containers.ViewContainer.DisposeAll | packages/core/src/browser/view-container.ts:83-84 | disposal that removes every part first leaves no part, no command and no menu entry |
| Containers.ViewContainer.OnAfterAttach | packages/core/src/browser/view-container.ts:237-244 | after attaching, the layout's orientation is horizontal exactly when the container sits in the main or bottom panel |

## Left out

- DOM work is not modelled: `elementFromPoint`, `closest`, CSS classes, the drag image and its timer, `dataTransfer`, `tabIndex` and scroll options. The inputs stand in for it: the id of the part under the pointer, whether the container is nested in the main or bottom panel, whether a drag event has a data transfer, and the drop payload.
- `ViewContainerPart.closestPart` is DOM traversal. The global hide command takes the closest part's id as its input instead.
- Phosphor message plumbing is not modelled: `onResize`, `onUpdateRequest`, `onActivateRequest`, `update()`, and the detach and attach around `onAfterAttach`. These are framework lifecycle with no data logic; only the orientation assignment is modelled.
- `ViewContainerLayout` and `SplitPositionHandler` are not part of this model.
  - Sizing is floating point.
  - `toggleCollapsed` is represented by the position it hands to the layout.
  - `moveWidget` is assumed to be "remove at `from`, insert at `to`".
- The asynchronous header toolbar and all rendering are not modelled. Context-menu rendering is reduced to a yes/no answer.
- The container token (a uuid) is an input. So is a widget's serialised description: `getDescription` plus `JSON.stringify` are foreign calls, and the description string is taken as given.
- Event subscriptions are not modelled as state.
  - The handlers wired in `addWidget` (collapse, move-before, context menu) are modelled as always connected: `HeaderClicked`, `OnDrop` and `ContextMenuOpens`.
  - Their unsubscription when a handle is disposed is not modelled.
  - The `collapsed` event a part fires from its own constructor has no listener yet, so it is not modelled.
- `getTrackableWidgets` and the `parts` getter are the `parts` field itself.
- The options `order`, `weight`, `canToggleVisibility` and `hideByDefault` are carried but never read, as in the source.
- JavaScript numbers are modelled as `int`; no arithmetic is done on them.
- Containers.ViewContainer.constructor: states that every input widget is wrapped by one part and every part wraps an input widget. It does not state the exact order (first occurrences in input order).
- Containers.ViewContainer.RestoreState: the per-position hidden flag is stated for parts that were present before the call. A separate clause states that the parts after the call are exactly those before it, so this covers every part.
- The menu registry's `unregisterMenuAction(id)` is not part of this model. It is assumed to remove every registered entry that runs the command `id` (`Containers.WithoutCommand`).
- Containers.ViewContainer.constructor: registers the global hide command and its menu entry before adding the initial widgets, where the source adds the widgets first. The registrations end up the same either way, and nothing in between reads them.
- `task-definition-registry.spec.ts` and the `theia-widget-generator` files hold no logic of this component.

## Findings

| source | as written | input that shows it | evidently intended | confidence | as-written member | corrected member |
|---|---|---|---|---|---|---|
| packages/core/src/browser/view-container.ts:83-84 | disposing the container unregisters only the global hide command and its menu entry | a container created with one widget `W`, then disposed: the command `<id>:toggle-visibility-<id>--W` and its `1_widgets` menu entry stay registered | disposal leaves none of the container's commands or menu entries registered | medium, not executed | Containers.ViewContainer.Dispose | Containers.ViewContainer.DisposeAll |
