/**
 * The recursive popover: for each visible entry, one submenu button per child
 * (each opening a popover built from that child alone), then the entry's own
 * separator or button. PNG decoding is foreign image code; whether a PNG
 * payload decodes is the input `pngDecodes`.
 */
module PopoverMenu {
  import opened Wrappers
  import opened TrayTypes
  import opened Events
  import ManualMenu

  /**
   * `create_icon`: a non-empty icon name gives a themed icon; a present but empty
   * name gives none; with no name, non-empty data gives the decoded image, or the
   * generic image when decoding fails; otherwise none.
   */
  function CreateIcon(item: MenuItem, pngDecodes: seq<byte> -> bool): (r: Option<RowIcon>)
    ensures item.iconName.Some? && item.iconName.value != "" ==> r == Some(ThemedIcon(item.iconName.value))
    ensures item.iconName.Some? && item.iconName.value == "" ==> r.None?
    ensures item.iconName.None? && item.iconData.Some? && item.iconData.value != [] ==>
              r == if pngDecodes(item.iconData.value) then Some(DataImage(item.iconData.value))
                   else Some(ThemedIcon(GenericImageIcon))
    ensures item.iconName.None? && (item.iconData.None? || item.iconData.value == []) ==> r.None?
  {
    if item.iconName.Some? then
      if item.iconName.value != "" then Some(ThemedIcon(item.iconName.value)) else None
    else if item.iconData.Some? && item.iconData.value != [] then
      if pngDecodes(item.iconData.value) then Some(DataImage(item.iconData.value))
      else Some(ThemedIcon(GenericImageIcon))
    else None
  }

  /** The icon slot of a button row: the icon, or a 16x16 spacer when there is none. */
  function RowIconOf(item: MenuItem, pngDecodes: seq<byte> -> bool): (r: RowIcon)
    ensures r.Spacer? <==> CreateIcon(item, pngDecodes).None?
    ensures CreateIcon(item, pngDecodes).Some? ==> r == CreateIcon(item, pngDecodes).value
    ensures r.Spacer? ==> r == Spacer(SpacerSize, SpacerSize)
  {
    match CreateIcon(item, pngDecodes)
    case Some(icon) => icon
    case None => Spacer(SpacerSize, SpacerSize)
  }

  /** The entry's own row, after its submenu buttons: a separator, a button, or nothing. */
  function OwnRow(item: MenuItem, serviceKey: string, pngDecodes: seq<byte> -> bool): (r: seq<Row>)
    ensures |r| <= 1 && (|r| == 1 <==> IsSeparator(item) || HasLabel(item))
    ensures r != [] && IsSeparator(item) ==> r[0] == SeparatorRow
    ensures r != [] && !IsSeparator(item) ==>
              r[0] == ItemRow(RowIconOf(item, pngDecodes), item.text.value, item.enabled,
                              ActivateMenuItem(serviceKey, item.id, item.text.value))
  {
    if IsSeparator(item) then [SeparatorRow]
    else if HasLabel(item) then
      [ItemRow(RowIconOf(item, pngDecodes), item.text.value, item.enabled,
               ActivateMenuItem(serviceKey, item.id, item.text.value))]
    else []
  }

  /** Everything one entry contributes; an invisible entry and all its children contribute nothing. */
  function ItemEntries(item: MenuItem, serviceKey: string, pngDecodes: seq<byte> -> bool): (r: seq<Row>)
    decreases item
    ensures !item.visible ==> r == []
  {
    if !item.visible then []
    else SubmenuButtons(item.submenu, serviceKey, pngDecodes) + OwnRow(item, serviceKey, pngDecodes)
  }

  /** One submenu button per child, in child order, each holding the child's own popover. */
  function SubmenuButtons(children: seq<MenuItem>, serviceKey: string, pngDecodes: seq<byte> -> bool): (r: seq<Row>)
    decreases children
    ensures |r| == |children|
    ensures forall j :: 0 <= j < |children| ==>
              r[j] == SubmenuRow(SubmenuIcon, WithPlaceholder(ItemEntries(children[j], serviceKey, pngDecodes)))
  {
    if children == [] then []
    else
      SubmenuButtons(children[..|children| - 1], serviceKey, pngDecodes)
      + [SubmenuRow(SubmenuIcon, WithPlaceholder(ItemEntries(children[|children| - 1], serviceKey, pngDecodes)))]
  }

  /** The rows of a popover built from a list of entries, before the placeholder check. */
  function PopoverRows(items: seq<MenuItem>, serviceKey: string, pngDecodes: seq<byte> -> bool): seq<Row>
    decreases items
  {
    if items == [] then []
    else PopoverRows(items[..|items| - 1], serviceKey, pngDecodes)
         + ItemEntries(items[|items| - 1], serviceKey, pngDecodes)
  }

  /**
   * `create_popover_menu`: the rows of the popover's box. Each submenu popover
   * comes from a recursive call on a one-element list holding one child of the
   * current entry, so the recursion runs down a finite tree.
   */
  method CreatePopoverMenu(items: seq<MenuItem>, serviceKey: string, pngDecodes: seq<byte> -> bool)
    returns (rows: seq<Row>)
    decreases ForestSize(items), 1
    ensures rows == WithPlaceholder(PopoverRows(items, serviceKey, pngDecodes))
  {
    rows := [];
    for i := 0 to |items|
      invariant rows == PopoverRows(items[..i], serviceKey, pngDecodes)
    {
      assert items[..i + 1][..i] == items[..i];
      if !items[i].visible {
        continue;
      }
      var buttons := AppendSubmenuButtons(items, i, serviceKey, pngDecodes);
      var own := AppendOwnRow(items[i], serviceKey, pngDecodes);
      rows := rows + buttons + own;
    }
    assert items[..|items|] == items;
    if rows == [] {
      rows := rows + [PlaceholderRow(NoMenuItems)];
    }
  }

  /** The `for_each` over the children of `items[i]`: one submenu button per child. */
  method AppendSubmenuButtons(items: seq<MenuItem>, i: nat, serviceKey: string, pngDecodes: seq<byte> -> bool)
    returns (buttons: seq<Row>)
    requires i < |items|
    decreases ForestSize(items), 0
    ensures buttons == SubmenuButtons(items[i].submenu, serviceKey, pngDecodes)
  {
    var children := items[i].submenu;
    buttons := [];
    for j := 0 to |children|
      invariant buttons == SubmenuButtons(children[..j], serviceKey, pngDecodes)
    {
      var child := children[j];
      ChildForestSmaller(items, i, j);
      var childRows := CreatePopoverMenu([child], serviceKey, pngDecodes);
      assert [child][..0] == [];
      assert PopoverRows([child], serviceKey, pngDecodes) == ItemEntries(child, serviceKey, pngDecodes);
      assert children[..j + 1][..j] == children[..j];
      buttons := buttons + [SubmenuRow(SubmenuIcon, childRows)];
    }
    assert children[..|children|] == children;
  }

  /** The entry's own separator or button, after its submenu buttons. */
  method AppendOwnRow(item: MenuItem, serviceKey: string, pngDecodes: seq<byte> -> bool) returns (own: seq<Row>)
    ensures own == OwnRow(item, serviceKey, pngDecodes)
  {
    if item.menuType == Separator {
      return [SeparatorRow];
    }
    own := [];
    if item.text.Some? && item.text.value != "" {
      var icon: RowIcon;
      match CreateIcon(item, pngDecodes) {
        case Some(image) => icon := image;
        case None => icon := Spacer(SpacerSize, SpacerSize);
      }
      var onClick := ActivateMenuItem(serviceKey, item.id, item.text.value);
      own := [ItemRow(icon, item.text.value, item.enabled, onClick)];
    }
  }

  /** Rows of a concatenation are the concatenation of rows: entries keep their input order. */
  lemma {:induction false} PopoverRowsAppend(a: seq<MenuItem>, b: seq<MenuItem>, serviceKey: string,
                                             pngDecodes: seq<byte> -> bool)
    ensures PopoverRows(a + b, serviceKey, pngDecodes)
            == PopoverRows(a, serviceKey, pngDecodes) + PopoverRows(b, serviceKey, pngDecodes)
  {
    if b == [] {
      assert a + b == a;
    } else {
      var b' := b[..|b| - 1];
      assert (a + b)[..|a + b| - 1] == a + b';
      PopoverRowsAppend(a, b', serviceKey, pngDecodes);
    }
  }

  /**
   * Children come first: a visible entry yields one submenu button per child,
   * in child order, each holding the popover of that child alone, and then its
   * own row as the last one.
   */
  lemma ChildrenBeforeOwnRow(item: MenuItem, serviceKey: string, pngDecodes: seq<byte> -> bool)
    requires item.visible
    ensures var r := ItemEntries(item, serviceKey, pngDecodes);
            && |r| == |item.submenu| + |OwnRow(item, serviceKey, pngDecodes)|
            && (forall j :: 0 <= j < |item.submenu| ==>
                  r[j] == SubmenuRow(SubmenuIcon,
                                     WithPlaceholder(PopoverRows([item.submenu[j]], serviceKey, pngDecodes))))
            && (IsSeparator(item) || HasLabel(item) ==> r[|r| - 1] == OwnRow(item, serviceKey, pngDecodes)[0])
  {
    forall j | 0 <= j < |item.submenu|
      ensures PopoverRows([item.submenu[j]], serviceKey, pngDecodes)
              == ItemEntries(item.submenu[j], serviceKey, pngDecodes)
    {
      assert [item.submenu[j]][..0] == [];
    }
  }

  /**
   * On a menu without submenus whose PNG payloads all fail to decode, the
   * recursive popover and the manual popover hold the same rows.
   */
  lemma {:induction false} AgreesWithManualOnFlatMenus(items: seq<MenuItem>, serviceKey: string,
                                                       pngDecodes: seq<byte> -> bool)
    requires forall i :: 0 <= i < |items| ==> items[i].submenu == []
    requires forall i :: 0 <= i < |items| && items[i].iconData.Some? ==> !pngDecodes(items[i].iconData.value)
    ensures PopoverRows(items, serviceKey, pngDecodes) == ManualMenu.ManualRows(items, serviceKey)
  {
    if items != [] {
      var last := items[|items| - 1];
      AgreesWithManualOnFlatMenus(items[..|items| - 1], serviceKey, pngDecodes);
      assert RowIconOf(last, pngDecodes) == ManualMenu.ManualIcon(last);
      assert ItemEntries(last, serviceKey, pngDecodes) == ManualMenu.ManualRow(last, serviceKey);
    }
  }
}
