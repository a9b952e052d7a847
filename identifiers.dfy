/**
 * The identifier scheme of a view container: the container id, the id of each part,
 * the per-part toggle-visibility command, the global hide command and the context
 * menu path are all strings built from the container id.
 */
module Identifiers {

  /** `view-container-widget-<token>`, where the token is a fresh uuid (the uuid itself is an input). */
  function ContainerId(token: string): string
  {
    "view-container-widget-" + token
  }

  /** The id of the part that wraps widget `wrappedId` inside container `containerId`. */
  function PartWidgetId(containerId: string, wrappedId: string): string
  {
    containerId + "--" + wrappedId
  }

  /** The per-part command id; built from the part's own id, not from its persistent `partId`. */
  function ToggleVisibilityCommandId(containerId: string, partWidgetId: string): string
  {
    containerId + ":toggle-visibility-" + partWidgetId
  }

  /** The one command per container that hides the part under the pointer. */
  function GlobalHideCommandId(containerId: string): string
  {
    containerId + ":toggle-visibility"
  }

  /** The root of the container's context menu. */
  function ContextMenuPath(containerId: string): seq<string>
  {
    [containerId + "-context-menu"]
  }

  /** The token can be read back from a container id, so distinct tokens give distinct containers. */
  lemma ContainerIdDecodes(token: string)
    ensures var r := ContainerId(token);
            |r| == |"view-container-widget-"| + |token| && r[|"view-container-widget-"|..] == token
  {
  }

  /** A part id starts with its container's id, and the wrapped widget id can be read back after the `--`. */
  lemma PartWidgetIdDecodes(containerId: string, wrappedId: string)
    ensures var r := PartWidgetId(containerId, wrappedId);
            |r| == |containerId| + 2 + |wrappedId|
            && r[..|containerId|] == containerId && r[|containerId| + 2..] == wrappedId
  {
  }

  /**
   * A per-part command id is the global hide command id, a `-`, then the part id; so the part id
   * can be read back, and no per-part command is the global one.
   */
  lemma ToggleVisibilityCommandIdExtendsGlobal(containerId: string, partWidgetId: string)
    ensures ToggleVisibilityCommandId(containerId, partWidgetId) == GlobalHideCommandId(containerId) + "-" + partWidgetId
    ensures ToggleVisibilityCommandId(containerId, partWidgetId) != GlobalHideCommandId(containerId)
  {
    assert |ToggleVisibilityCommandId(containerId, partWidgetId)| > |GlobalHideCommandId(containerId)|;
  }

  /** The global hide command id belongs to its container: it starts with the container id. */
  lemma GlobalHideCommandIdScoped(containerId: string)
    ensures var r := GlobalHideCommandId(containerId);
            |r| == |containerId| + |":toggle-visibility"| && r[..|containerId|] == containerId
  {
  }

  /** The context menu path is a single segment belonging to its container, and not the container id itself. */
  lemma ContextMenuPathScoped(containerId: string)
    ensures var r := ContextMenuPath(containerId);
            |r| == 1 && |r[0]| == |containerId| + |"-context-menu"| && r[0][..|containerId|] == containerId
            && r[0] != containerId
  {
  }

  /** Dropping a common prefix from two equal strings leaves equal strings. */
  lemma PrefixCancel(p: string, a: string, b: string)
    requires p + a == p + b
    ensures a == b
  {
    assert a == (p + a)[|p|..];
    assert b == (p + b)[|p|..];
  }

  /** Two parts of one container have the same id exactly when they wrap widgets with the same id. */
  lemma {:induction false} PartWidgetIdInjective(containerId: string, w1: string, w2: string)
    ensures PartWidgetId(containerId, w1) == PartWidgetId(containerId, w2) <==> w1 == w2
  {
    if PartWidgetId(containerId, w1) == PartWidgetId(containerId, w2) {
      assert (containerId + "--") + w1 == (containerId + "--") + w2;
      PrefixCancel(containerId + "--", w1, w2);
    }
  }

  /**
   * Per-part commands of one container are one-to-one with the wrapped widget ids, and none of
   * them collides with the container's global hide command.
   */
  lemma {:induction false} ToggleVisibilityCommandIdsDistinct(containerId: string, w1: string, w2: string)
    ensures (ToggleVisibilityCommandId(containerId, PartWidgetId(containerId, w1))
             == ToggleVisibilityCommandId(containerId, PartWidgetId(containerId, w2))) <==> w1 == w2
    ensures ToggleVisibilityCommandId(containerId, PartWidgetId(containerId, w1)) != GlobalHideCommandId(containerId)
  {
    var p1, p2 := PartWidgetId(containerId, w1), PartWidgetId(containerId, w2);
    if ToggleVisibilityCommandId(containerId, p1) == ToggleVisibilityCommandId(containerId, p2) {
      assert (containerId + ":toggle-visibility-") + p1 == (containerId + ":toggle-visibility-") + p2;
      PrefixCancel(containerId + ":toggle-visibility-", p1, p2);
      PartWidgetIdInjective(containerId, w1, w2);
    }
    assert |ToggleVisibilityCommandId(containerId, p1)| > |GlobalHideCommandId(containerId)|;
  }
}
