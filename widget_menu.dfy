/**
 * The menu model a tray item's popover menu is built from: entries appended to
 * a menu model, and one action per leaf entry registered in an action group.
 */
module WidgetMenu {
  import opened Wrappers
  import opened TrayTypes
  import opened Text
  import opened Events
  import MenuHelpers
  import ManualMenu

  /** An action in the group: its enabled state and the request its activation sends. */
  datatype MenuAction = MenuAction(enabled: bool, onActivate: ActivateRequest)

  /** One entry of the menu model. */
  datatype GMenuEntry =
    | GSeparator(text: string, custom: string)
    | GSubmenu(text: string, submenu: seq<GMenuEntry>, icon: Option<string>)
    | GAction(text: string, detailedAction: string, icon: Option<string>)
    | GPlaceholder(text: string)

  const SeparatorText := "---"
  const ActionGroupPrefix := "menu"

  /** `replace(":", "_").replace(".", "_")`: both characters become '_', the rest stays. */
  function SanitizeKey(serviceKey: string): (r: string)
    ensures |r| == |serviceKey|
    ensures ':' !in r && '.' !in r
    ensures forall i :: 0 <= i < |r| && serviceKey[i] != ':' && serviceKey[i] != '.' ==> r[i] == serviceKey[i]
    ensures forall i :: 0 <= i < |r| && (serviceKey[i] == ':' || serviceKey[i] == '.') ==> r[i] == '_'
  {
    if serviceKey == [] then []
    else [if serviceKey[0] == ':' || serviceKey[0] == '.' then '_' else serviceKey[0]] + SanitizeKey(serviceKey[1..])
  }

  /** The action name of a leaf: the sanitised service key, "__item_", and the entry id. */
  function ActionName(serviceKey: string, id: i32): string {
    SanitizeKey(serviceKey) + "__item_" + IntToString(id)
  }

  /** Within one service key, distinct entry ids get distinct action names. */
  lemma ActionNameInjective(serviceKey: string, a: i32, b: i32)
    ensures ActionName(serviceKey, a) == ActionName(serviceKey, b) ==> a == b
  {
    var prefix := SanitizeKey(serviceKey) + "__item_";
    if ActionName(serviceKey, a) == ActionName(serviceKey, b) {
      assert IntToString(a) == ActionName(serviceKey, a)[|prefix|..];
      assert IntToString(b) == ActionName(serviceKey, b)[|prefix|..];
      IntToStringInjective(a, b);
    }
  }

  /** The entry one item at position `index` of its list contributes. */
  function EntryFor(item: MenuItem, index: nat, serviceKey: string): (r: seq<GMenuEntry>)
    decreases item
    ensures |r| <= 1 && (|r| == 1 <==> ManualMenu.Shown(item))
    ensures r != [] && IsSeparator(item) ==> r[0] == GSeparator(SeparatorText, "separator_" + NatToString(index))
    ensures r != [] && !IsSeparator(item) && item.submenu == [] ==>
              r[0] == GAction(item.text.value, ActionGroupPrefix + "." + ActionName(serviceKey, item.id),
                              MenuHelpers.AddIconToMenuItem(item))
    ensures r != [] && !IsSeparator(item) && item.submenu != [] ==>
              r[0] == GSubmenu(item.text.value, MenuEntries(item.submenu, serviceKey),
                               MenuHelpers.AddIconToMenuItem(item))
  {
    if !item.visible then []
    else if IsSeparator(item) then [GSeparator(SeparatorText, "separator_" + NatToString(index))]
    else if HasLabel(item) then
      if item.submenu != [] then
        [GSubmenu(item.text.value, MenuEntries(item.submenu, serviceKey), MenuHelpers.AddIconToMenuItem(item))]
      else
        [GAction(item.text.value, ActionGroupPrefix + "." + ActionName(serviceKey, item.id),
                 MenuHelpers.AddIconToMenuItem(item))]
    else []
  }

  /** The entries a list of items appends to a menu model, in order. */
  function MenuEntries(items: seq<MenuItem>, serviceKey: string): seq<GMenuEntry>
    decreases items
  {
    if items == [] then []
    else MenuEntries(items[..|items| - 1], serviceKey) + EntryFor(items[|items| - 1], |items| - 1, serviceKey)
  }

  /** The action a visible, labelled leaf registers. */
  function LeafAction(item: MenuItem, serviceKey: string): MenuAction {
    MenuAction(item.enabled, ActivateMenuItem(serviceKey, item.id, item.text.GetOr("")))
  }

  predicate IsLeafAction(item: MenuItem) {
    item.visible && !IsSeparator(item) && HasLabel(item) && item.submenu == []
  }

  /** The action group after one item: a leaf adds (or replaces) its action, a submenu registers its children's. */
  function ItemActions(group: map<string, MenuAction>, item: MenuItem, serviceKey: string): map<string, MenuAction>
    decreases item
  {
    if !item.visible || IsSeparator(item) || !HasLabel(item) then group
    else if item.submenu != [] then RegisterActions(group, item.submenu, serviceKey)
    else group[ActionName(serviceKey, item.id) := LeafAction(item, serviceKey)]
  }

  /** The action group after a list of items, registered in depth-first order. */
  function RegisterActions(group: map<string, MenuAction>, items: seq<MenuItem>, serviceKey: string): map<string, MenuAction>
    decreases items
  {
    if items == [] then group
    else ItemActions(RegisterActions(group, items[..|items| - 1], serviceKey), items[|items| - 1], serviceKey)
  }

  /** `add_menu_items_recursive`: the entries appended to a fresh menu model and the updated action group. */
  method AddMenuItemsRecursive(items: seq<MenuItem>, serviceKey: string, group: map<string, MenuAction>)
    returns (entries: seq<GMenuEntry>, groupOut: map<string, MenuAction>)
    decreases items
    ensures entries == MenuEntries(items, serviceKey)
    ensures groupOut == RegisterActions(group, items, serviceKey)
  {
    entries, groupOut := [], group;
    for index := 0 to |items|
      invariant entries == MenuEntries(items[..index], serviceKey)
      invariant groupOut == RegisterActions(group, items[..index], serviceKey)
    {
      var item := items[index];
      assert items[..index + 1][..index] == items[..index];
      if !item.visible {
        continue;
      }
      if item.menuType == Separator {
        entries := entries + [GSeparator(SeparatorText, "separator_" + NatToString(index))];
        continue;
      }
      if item.text.Some? && item.text.value != "" {
        var name := ActionName(serviceKey, item.id);
        if item.submenu != [] {
          var submenu;
          submenu, groupOut := AddMenuItemsRecursive(item.submenu, serviceKey, groupOut);
          entries := entries + [GSubmenu(item.text.value, submenu, MenuHelpers.AddIconToMenuItem(item))];
        } else {
          var action := MenuAction(item.enabled, ActivateMenuItem(serviceKey, item.id, item.text.value));
          groupOut := groupOut[name := action];
          entries := entries + [GAction(item.text.value, ActionGroupPrefix + "." + name,
                                        MenuHelpers.AddIconToMenuItem(item))];
        }
      }
    }
    assert items[..|items|] == items;
  }

  /** The menu model of `create_popover_from_menu`: the entries, or the single "No menu items" entry. */
  function PopoverMenuModel(items: seq<MenuItem>, serviceKey: string): (r: seq<GMenuEntry>)
    ensures |r| >= 1
    ensures r[0].GPlaceholder? <==> MenuEntries(items, serviceKey) == []
    ensures r[0].GPlaceholder? ==> r == [GPlaceholder(NoMenuItems)]
    ensures MenuEntries(items, serviceKey) != [] ==> r == MenuEntries(items, serviceKey)
  {
    NoPlaceholderEntries(items, serviceKey);
    var entries := MenuEntries(items, serviceKey);
    if entries == [] then [GPlaceholder(NoMenuItems)] else entries
  }

  /** The walk itself never produces a placeholder for the list it is given, hence for each submenu list too. */
  lemma {:induction false} NoPlaceholderEntries(items: seq<MenuItem>, serviceKey: string)
    ensures forall e :: e in MenuEntries(items, serviceKey) ==> !e.GPlaceholder?
  {
    if items != [] {
      NoPlaceholderEntries(items[..|items| - 1], serviceKey);
    }
  }

  /** Every action targets this service key's "/MenuBar" menu. */
  ghost predicate ActionsFor(group: map<string, MenuAction>, serviceKey: string) {
    forall name :: name in group ==>
      group[name].onActivate.MenuItemRequest? && group[name].onActivate.address == serviceKey
      && group[name].onActivate.menuPath == MenuBarPath
  }

  /** Registration only adds actions, and every action it adds is addressed to the service key. */
  lemma {:induction false} RegisterActionsGrows(group: map<string, MenuAction>, items: seq<MenuItem>, serviceKey: string)
    decreases items
    ensures group.Keys <= RegisterActions(group, items, serviceKey).Keys
    ensures ActionsFor(group, serviceKey) ==> ActionsFor(RegisterActions(group, items, serviceKey), serviceKey)
  {
    if items != [] {
      var before := RegisterActions(group, items[..|items| - 1], serviceKey);
      RegisterActionsGrows(group, items[..|items| - 1], serviceKey);
      ItemActionsGrows(before, items[|items| - 1], serviceKey);
    }
  }

  lemma {:induction false} ItemActionsGrows(group: map<string, MenuAction>, item: MenuItem, serviceKey: string)
    decreases item
    ensures group.Keys <= ItemActions(group, item, serviceKey).Keys
    ensures ActionsFor(group, serviceKey) ==> ActionsFor(ItemActions(group, item, serviceKey), serviceKey)
  {
    if item.visible && !IsSeparator(item) && HasLabel(item) && item.submenu != [] {
      RegisterActionsGrows(group, item.submenu, serviceKey);
    }
  }

  lemma {:induction false} RegisterActionsAppend(group: map<string, MenuAction>, a: seq<MenuItem>, b: seq<MenuItem>,
                                                 serviceKey: string)
    ensures RegisterActions(group, a + b, serviceKey)
            == RegisterActions(RegisterActions(group, a, serviceKey), b, serviceKey)
  {
    if b == [] {
      assert a + b == a;
    } else {
      assert (a + b)[..|a + b| - 1] == a + b[..|b| - 1];
      RegisterActionsAppend(group, a, b[..|b| - 1], serviceKey);
    }
  }

  /**
   * The last visible, labelled leaf with this id in depth-first order, at any
   * depth below the list: the one whose action ends up in the group.
   */
  function LastLeaf(items: seq<MenuItem>, id: i32): (r: Option<MenuItem>)
    decreases items
    ensures r.Some? ==> r.value.id == id && IsLeafAction(r.value)
  {
    if items == [] then None
    else
      var inLast := ItemLastLeaf(items[|items| - 1], id);
      if inLast.Some? then inLast else LastLeaf(items[..|items| - 1], id)
  }

  function ItemLastLeaf(item: MenuItem, id: i32): (r: Option<MenuItem>)
    decreases item
    ensures r.Some? ==> r.value.id == id && IsLeafAction(r.value)
  {
    if !item.visible || IsSeparator(item) || !HasLabel(item) then None
    else if item.submenu != [] then LastLeaf(item.submenu, id)
    else if item.id == id then Some(item) else None
  }

  /**
   * The action registered under an id's name is that of the last leaf with the
   * id, wherever it sits in the tree; without such a leaf the group keeps what
   * it had under that name.
   */
  lemma {:induction false} RegisteredActionIsLastLeaf(group: map<string, MenuAction>, items: seq<MenuItem>,
                                                      serviceKey: string, id: i32)
    decreases items
    ensures var name := ActionName(serviceKey, id);
            var after := RegisterActions(group, items, serviceKey);
            var last := LastLeaf(items, id);
            && (last.Some? ==> name in after && after[name] == LeafAction(last.value, serviceKey))
            && (last.None? ==> (name in after <==> name in group) && (name in group ==> after[name] == group[name]))
  {
    if items != [] {
      var prefix := items[..|items| - 1];
      RegisteredActionIsLastLeaf(group, prefix, serviceKey, id);
      ItemActionIsLastLeaf(RegisterActions(group, prefix, serviceKey), items[|items| - 1], serviceKey, id);
    }
  }

  lemma {:induction false} ItemActionIsLastLeaf(group: map<string, MenuAction>, item: MenuItem,
                                                serviceKey: string, id: i32)
    decreases item
    ensures var name := ActionName(serviceKey, id);
            var after := ItemActions(group, item, serviceKey);
            var last := ItemLastLeaf(item, id);
            && (last.Some? ==> name in after && after[name] == LeafAction(last.value, serviceKey))
            && (last.None? ==> (name in after <==> name in group) && (name in group ==> after[name] == group[name]))
  {
    if !item.visible || IsSeparator(item) || !HasLabel(item) {
    } else if item.submenu != [] {
      RegisteredActionIsLastLeaf(group, item.submenu, serviceKey, id);
    } else if item.id != id {
      ActionNameInjective(serviceKey, item.id, id);
    }
  }

  /** The last leaf of a + b comes from b when b has one, else from a. */
  lemma {:induction false} LastLeafAppend(a: seq<MenuItem>, b: seq<MenuItem>, id: i32)
    ensures LastLeaf(a + b, id) == if LastLeaf(b, id).Some? then LastLeaf(b, id) else LastLeaf(a, id)
  {
    if b == [] {
      assert a + b == a;
    } else {
      assert (a + b)[..|a + b| - 1] == a + b[..|b| - 1];
      LastLeafAppend(a, b[..|b| - 1], id);
    }
  }

  /** When no later item holds a leaf with the id, the last leaf is item i's own. */
  lemma LastLeafAt(items: seq<MenuItem>, i: nat, id: i32)
    requires i < |items| && LastLeaf(items[i + 1..], id).None?
    ensures LastLeaf(items, id) == if ItemLastLeaf(items[i], id).Some? then ItemLastLeaf(items[i], id)
                                   else LastLeaf(items[..i], id)
  {
    assert items == items[..i + 1] + items[i + 1..];
    assert items[..i + 1][..i] == items[..i];
    LastLeafAppend(items[..i + 1], items[i + 1..], id);
  }

  /**
   * Without a last leaf, no leaf with the id exists: no item of the list is such
   * a leaf, and no visible labelled submenu holds one (at any depth, applying
   * the lemma again to that submenu).
   */
  lemma LastLeafNoneMeansNoLeaf(items: seq<MenuItem>, i: nat, id: i32)
    requires i < |items| && LastLeaf(items, id).None?
    ensures !(IsLeafAction(items[i]) && items[i].id == id)
    ensures items[i].visible && !IsSeparator(items[i]) && HasLabel(items[i]) ==> LastLeaf(items[i].submenu, id).None?
  {
    assert items == items[..i] + [items[i]] + items[i + 1..];
    LastLeafAppend(items[..i] + [items[i]], items[i + 1..], id);
    LastLeafAppend(items[..i], [items[i]], id);
    assert [items[i]][..0] == [];
  }

  /**
   * A visible labelled leaf of the list has its action in the final group; when
   * no leaf after it, at any depth, shares its id, the action carries the
   * leaf's enabled flag and activates that leaf.
   */
  lemma LeafActionRegistered(group: map<string, MenuAction>, items: seq<MenuItem>, serviceKey: string, i: nat)
    requires i < |items| && IsLeafAction(items[i])
    ensures ActionName(serviceKey, items[i].id) in RegisterActions(group, items, serviceKey)
    ensures LastLeaf(items[i + 1..], items[i].id).None? ==>
              var action := RegisterActions(group, items, serviceKey)[ActionName(serviceKey, items[i].id)];
              action.enabled == items[i].enabled
              && action.onActivate == MenuItemRequest(serviceKey, MenuBarPath, items[i].id)
  {
    var id := items[i].id;
    assert items == items[..i + 1] + items[i + 1..];
    assert items[..i + 1][..i] == items[..i];
    LastLeafAppend(items[..i + 1], items[i + 1..], id);
    RegisteredActionIsLastLeaf(group, items, serviceKey, id);
  }

  /**
   * A leaf inside a visible labelled submenu of the list: when no later item of
   * the list holds a leaf with the same id, the group's action for that id is
   * the one of the submenu's last leaf with it.
   */
  lemma NestedLeafRegistered(group: map<string, MenuAction>, items: seq<MenuItem>, serviceKey: string, i: nat, id: i32)
    requires i < |items| && items[i].visible && !IsSeparator(items[i]) && HasLabel(items[i]) && items[i].submenu != []
    requires LastLeaf(items[i].submenu, id).Some? && LastLeaf(items[i + 1..], id).None?
    ensures var leaf := LastLeaf(items[i].submenu, id).value;
            var group' := RegisterActions(group, items, serviceKey);
            && ActionName(serviceKey, id) in group'
            && group'[ActionName(serviceKey, id)].enabled == leaf.enabled
            && group'[ActionName(serviceKey, id)].onActivate == MenuItemRequest(serviceKey, MenuBarPath, id)
  {
    LastLeafAt(items, i, id);
    RegisteredActionIsLastLeaf(group, items, serviceKey, id);
  }

  /** The menu model and the manual popover show the same number of top-level entries. */
  lemma {:induction false} SameCountAsManual(items: seq<MenuItem>, serviceKey: string)
    ensures |MenuEntries(items, serviceKey)| == |ManualMenu.ManualRows(items, serviceKey)|
  {
    if items != [] {
      SameCountAsManual(items[..|items| - 1], serviceKey);
    }
  }
}
