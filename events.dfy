/** Tooltip choice for a tray button and the request that activates a menu entry. */
module Events {
  import opened Wrappers
  import opened TrayTypes

  /**
   * The tooltip text to set, or None when the tooltip is left as it is: the
   * title when it is non-empty, else the item id when that is non-empty.
   */
  function SetupButtonTooltip(item: StatusNotifierItem): (r: Option<string>)
    ensures item.title.Some? && item.title.value != "" ==> r == item.title
    ensures (item.title.None? || item.title.value == "") && item.id != "" ==> r == Some(item.id)
    ensures r.None? <==> (item.title.None? || item.title.value == "") && item.id == ""
  {
    var parts := if item.title.Some? && item.title.value != "" then [item.title.value] else [];
    if parts != [] then Some(JoinLines(parts))
    else if item.id != "" then Some(item.id)
    else None
  }

  /** `Vec::join("\n")`; the tooltip joins at most one part. */
  function JoinLines(parts: seq<string>): (r: string)
    ensures |parts| == 1 ==> r == parts[0]
  {
    if parts == [] then "" else if |parts| == 1 then parts[0] else parts[0] + "\n" + JoinLines(parts[1..])
  }

  /**
   * The one request a menu entry's activation sends: addressed by service key,
   * on the "/MenuBar" menu object, naming the entry's id. A failure of the
   * request is only logged, so nothing else comes out of it.
   */
  function ActivateMenuItem(serviceKey: string, itemId: i32, labelText: string): (r: ActivateRequest)
    ensures r.MenuItemRequest?
    ensures r.address == serviceKey && r.menuPath == MenuBarPath && r.submenuId == itemId
  {
    MenuItemRequest(serviceKey, MenuBarPath, itemId)
  }
}
