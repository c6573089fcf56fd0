/**
 * The manual popover: one row per visible top-level menu entry, built by a
 * loop that appends to a vertical box.
 */
module ManualMenu {
  import opened Wrappers
  import opened TrayTypes
  import opened Events

  /** The icon slot of a row: a non-empty icon name, else a generic image for non-empty data, else a spacer. */
  function ManualIcon(item: MenuItem): (r: RowIcon)
    ensures item.iconName.Some? && item.iconName.value != "" ==> r == ThemedIcon(item.iconName.value)
    ensures item.iconName.None? && item.iconData.Some? && item.iconData.value != [] ==>
              r == ThemedIcon(GenericImageIcon)
    ensures r.Spacer? <==>
              if item.iconName.Some? then item.iconName.value == ""
              else item.iconData.None? || item.iconData.value == []
    ensures r.Spacer? ==> r == Spacer(SpacerSize, SpacerSize)
  {
    if item.iconName.Some? then
      if item.iconName.value != "" then ThemedIcon(item.iconName.value) else Spacer(SpacerSize, SpacerSize)
    else if item.iconData.Some? && item.iconData.value != [] then ThemedIcon(GenericImageIcon)
    else Spacer(SpacerSize, SpacerSize)
  }

  /** An entry shows up in a popover exactly when it is visible and is a separator or has a label. */
  predicate Shown(item: MenuItem) {
    item.visible && (IsSeparator(item) || HasLabel(item))
  }

  /** The row one top-level entry contributes: none, a separator, or a button. */
  function ManualRow(item: MenuItem, serviceKey: string): (r: seq<Row>)
    ensures |r| <= 1 && (|r| == 1 <==> Shown(item))
    ensures r != [] && IsSeparator(item) ==> r[0] == SeparatorRow
    ensures r != [] && !IsSeparator(item) ==>
              r[0] == ItemRow(ManualIcon(item), item.text.value, item.enabled,
                              ActivateMenuItem(serviceKey, item.id, item.text.value))
  {
    if !item.visible then []
    else if IsSeparator(item) then [SeparatorRow]
    else if HasLabel(item) then
      [ItemRow(ManualIcon(item), item.text.value, item.enabled, ActivateMenuItem(serviceKey, item.id, item.text.value))]
    else []
  }

  /** The rows of a list of top-level entries, in order, before the placeholder check. */
  function ManualRows(items: seq<MenuItem>, serviceKey: string): seq<Row> {
    if items == [] then []
    else ManualRows(items[..|items| - 1], serviceKey) + ManualRow(items[|items| - 1], serviceKey)
  }

  /** `create_manual_popover_menu`: the rows of the popover's box. */
  method CreateManualPopoverMenu(items: seq<MenuItem>, serviceKey: string) returns (rows: seq<Row>)
    ensures rows == WithPlaceholder(ManualRows(items, serviceKey))
  {
    rows := [];
    for i := 0 to |items|
      invariant rows == ManualRows(items[..i], serviceKey)
    {
      var item := items[i];
      assert items[..i + 1][..i] == items[..i];
      if !item.visible {
        continue;
      }
      if item.menuType == Separator {
        rows := rows + [SeparatorRow];
        continue;
      }
      if item.text.Some? && item.text.value != "" {
        var iconAdded := false;
        var icon: RowIcon := Spacer(SpacerSize, SpacerSize);
        if item.iconName.Some? {
          if item.iconName.value != "" {
            icon := ThemedIcon(item.iconName.value);
            iconAdded := true;
          }
        } else if item.iconData.Some? {
          if item.iconData.value != [] {
            icon := ThemedIcon(GenericImageIcon);
            iconAdded := true;
          }
        }
        if !iconAdded {
          icon := Spacer(SpacerSize, SpacerSize);
        }
        var onClick := ActivateMenuItem(serviceKey, item.id, item.text.value);
        rows := rows + [ItemRow(icon, item.text.value, item.enabled, onClick)];
      }
    }
    assert items[..|items|] == items;
    if rows == [] {
      rows := rows + [PlaceholderRow(NoMenuItems)];
    }
  }

  /** The number of entries of a list that show up. */
  function CountShown(items: seq<MenuItem>): (n: nat)
    ensures n <= |items|
    ensures n == |items| <==> forall i :: 0 <= i < |items| ==> Shown(items[i])
    ensures n == 0 <==> forall i :: 0 <= i < |items| ==> !Shown(items[i])
  {
    if items == [] then 0
    else CountShown(items[..|items| - 1]) + (if Shown(items[|items| - 1]) then 1 else 0)
  }

  /** Rows of a concatenation are the concatenation of rows: entries keep their input order. */
  lemma {:induction false} ManualRowsAppend(a: seq<MenuItem>, b: seq<MenuItem>, serviceKey: string)
    ensures ManualRows(a + b, serviceKey) == ManualRows(a, serviceKey) + ManualRows(b, serviceKey)
    ensures CountShown(a + b) == CountShown(a) + CountShown(b)
  {
    if b == [] {
      assert a + b == a;
    } else {
      var b' := b[..|b| - 1];
      assert (a + b)[..|a + b| - 1] == a + b';
      ManualRowsAppend(a, b', serviceKey);
    }
  }

  /** Exactly one row per entry that shows up. */
  lemma {:induction false} ManualRowsCount(items: seq<MenuItem>, serviceKey: string)
    ensures |ManualRows(items, serviceKey)| == CountShown(items)
  {
    if items != [] {
      ManualRowsCount(items[..|items| - 1], serviceKey);
    }
  }

  /** The row of entry i sits after the rows of the entries before it. */
  lemma ManualRowsInOrder(items: seq<MenuItem>, serviceKey: string, i: nat)
    requires i < |items| && Shown(items[i])
    ensures CountShown(items[..i]) < |ManualRows(items, serviceKey)|
    ensures ManualRows(items, serviceKey)[CountShown(items[..i])] == ManualRow(items[i], serviceKey)[0]
  {
    assert items == items[..i] + [items[i]] + items[i + 1..];
    ManualRowsAppend(items[..i] + [items[i]], items[i + 1..], serviceKey);
    ManualRowsAppend(items[..i], [items[i]], serviceKey);
    ManualRowsCount(items[..i], serviceKey);
    assert [items[i]][..0] == [];
  }

  /** Only the top level is examined: dropping every submenu changes no row. */
  lemma {:induction false} ManualIgnoresSubmenus(items: seq<MenuItem>, stripped: seq<MenuItem>, serviceKey: string)
    requires |stripped| == |items|
    requires forall i :: 0 <= i < |items| ==> stripped[i] == items[i].(submenu := [])
    ensures ManualRows(stripped, serviceKey) == ManualRows(items, serviceKey)
  {
    if items != [] {
      ManualIgnoresSubmenus(items[..|items| - 1], stripped[..|stripped| - 1], serviceKey);
    }
  }

  /** The manual popover holds separators and buttons only: no submenu and no placeholder before the final check. */
  lemma {:induction false} ManualRowsFlat(items: seq<MenuItem>, serviceKey: string)
    ensures forall r :: r in ManualRows(items, serviceKey) ==> r.SeparatorRow? || r.ItemRow?
  {
    if items != [] {
      ManualRowsFlat(items[..|items| - 1], serviceKey);
    }
  }
}
