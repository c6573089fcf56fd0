/**
 * The tray item registry. `TrayWidget` keeps, per service key, the item, its
 * button, its popover menu or manual popover and its action group, plus a map
 * from item id to service key; `Registry` is the value of those fields, and
 * `AddItem` and `RemoveItem` say what each event does to it. Toolkit objects
 * are opaque handles; what each button shows is kept beside the registry, in
 * the widget's `views`.
 */
module Widget {
  import opened Wrappers
  import opened TrayTypes
  import opened Controls
  import ManualMenu
  import opened WidgetMenu

  type Handle = nat

  /** The popover menu `create_basic_popover_menu` builds for a button and a menu path. */
  datatype BasicPopoverMenu = BasicPopoverMenu(parent: Handle, menuPath: string)

  /** A manual popover attached to a button, with the rows of its box. */
  datatype ManualPopover = ManualPopover(parent: Handle, rows: seq<Row>)

  /** The popover menu `create_popover_from_menu` builds: its button and its menu model. */
  datatype ModelPopoverMenu = ModelPopoverMenu(parent: Handle, model: seq<GMenuEntry>)

  type ActionGroup = map<string, MenuAction>

  /** The payload of an update; the registry never reads it. */
  datatype UpdateEvent = UpdateEvent(kind: string)

  /**
   * An event from the tray client, in arrival order. An `Add` carries the menu
   * the client holds for the key at the time the event is handled.
   */
  datatype TrayEvent =
    | Add(serviceKey: string, item: StatusNotifierItem, clientMenu: Option<TrayMenu>)
    | Update(serviceKey: string, update: UpdateEvent)
    | Remove(serviceKey: string)

  datatype Registry = Registry(
    items: map<string, StatusNotifierItem>,
    buttons: map<string, Handle>,
    menus: map<string, BasicPopoverMenu>,
    manualPopovers: map<string, ManualPopover>,
    actionGroups: map<string, ActionGroup>,
    itemToServiceKey: map<string, string>,
    container: seq<Handle>,
    nextHandle: nat)

  const EmptyRegistry := Registry(map[], map[], map[], map[], map[], map[], [], 0)

  predicate Distinct(s: seq<Handle>) {
    forall i, j :: 0 <= i < j < |s| ==> s[i] != s[j]
  }

  /** The container after `remove(&button)`: the button is no longer among its children. */
  function Without(s: seq<Handle>, h: Handle): (r: seq<Handle>)
    ensures forall x :: x in r <==> x in s && x != h
    ensures h !in s ==> r == s
  {
    if s == [] then []
    else
      var rest := Without(s[1..], h);
      if s[0] == h then rest else [s[0]] + rest
  }

  /** Taking a button out of a duplicate-free container keeps the other buttons in their order. */
  lemma {:induction false} WithoutKeepsOrder(s: seq<Handle>, h: Handle, i: nat)
    requires Distinct(s) && i < |s| && s[i] == h
    ensures Without(s, h) == s[..i] + s[i + 1..]
  {
    var tail := s[1..];
    if i == 0 {
      assert h !in tail by {
        forall j | 0 <= j < |tail| ensures tail[j] != h {
          assert tail[j] == s[j + 1];
        }
      }
    } else {
      assert Distinct(tail) by {
        forall a, b | 0 <= a < b < |tail| ensures tail[a] != tail[b] {
          assert tail[a] == s[a + 1] && tail[b] == s[b + 1];
        }
      }
      WithoutKeepsOrder(tail, h, i - 1);
      assert s[..i] == [s[0]] + tail[..i - 1];
      assert s[i + 1..] == tail[i..];
    }
  }

  /** Taking a button out keeps the others distinct. */
  lemma {:induction false} WithoutKeepsDistinct(s: seq<Handle>, h: Handle)
    requires Distinct(s)
    ensures Distinct(Without(s, h))
  {
    if s != [] {
      var tail := s[1..];
      assert Distinct(tail) by {
        forall i, j | 0 <= i < j < |tail| ensures tail[i] != tail[j] {
          assert tail[i] == s[i + 1] && tail[j] == s[j + 1];
        }
      }
      WithoutKeepsDistinct(tail, h);
      var rest := Without(tail, h);
      if s[0] != h {
        assert s[0] !in tail by {
          forall i | 0 <= i < |tail| ensures tail[i] != s[0] {
            assert tail[i] == s[i + 1];
          }
        }
        var r := [s[0]] + rest;
        forall i, j | 0 <= i < j < |r| ensures r[i] != r[j] {
          assert r[j] == rest[j - 1];
          if i > 0 {
            assert r[i] == rest[i - 1];
          }
        }
      }
    }
  }

  /** Every live key has an item, a button and at least one menu store; no other map has keys of its own. */
  ghost predicate KeysAgree(r: Registry) {
    && r.buttons.Keys == r.items.Keys
    && r.menus.Keys <= r.items.Keys
    && r.manualPopovers.Keys <= r.items.Keys
    && r.actionGroups.Keys <= r.items.Keys
    && (forall k :: k in r.items ==> k in r.menus || k in r.manualPopovers)
  }

  /** The live buttons are distinct and in the container, which holds each button once, all created so far. */
  ghost predicate ButtonsPlaced(r: Registry) {
    && (forall k :: k in r.buttons ==> r.buttons[k] in r.container)
    && (forall k1, k2 :: k1 in r.buttons && k2 in r.buttons && k1 != k2 ==> r.buttons[k1] != r.buttons[k2])
    && (forall h :: h in r.container ==> h < r.nextHandle)
    && Distinct(r.container)
  }

  /** The registry's consistency. */
  ghost predicate Valid(r: Registry) {
    KeysAgree(r) && ButtonsPlaced(r)
  }

  lemma EmptyRegistryValid()
    ensures Valid(EmptyRegistry)
  {
  }

  /** `create_basic_popover_menu`, which is not part of this model: an opaque popover menu for the button. */
  function CreateBasicPopoverMenu(button: Handle, menuPath: string): (m: BasicPopoverMenu)
    ensures m.parent == button && m.menuPath == menuPath
  {
    BasicPopoverMenu(button, menuPath)
  }

  /**
   * `create_menu_for_item`: a manual popover when the client holds menu data
   * for the key, otherwise a basic popover menu on "/MenuBar/<item id>".
   */
  function MenuFor(r: Registry, serviceKey: string, item: StatusNotifierItem, button: Handle,
                   clientMenu: Option<TrayMenu>): Registry
  {
    match clientMenu
    case Some(menu) =>
      var rows := WithPlaceholder(ManualMenu.ManualRows(menu.submenus, serviceKey));
      r.(manualPopovers := r.manualPopovers[serviceKey := ManualPopover(button, rows)])
    case None =>
      r.(menus := r.menus[serviceKey := CreateBasicPopoverMenu(button, MenuBarPath + "/" + item.id)])
  }

  /**
   * Exactly one menu store is written for the key: the manual popover with the
   * client's menu, else the basic popover menu. The other store keeps whatever
   * it held, and no other key changes.
   */
  lemma MenuForEffects(r: Registry, serviceKey: string, item: StatusNotifierItem, button: Handle,
                       clientMenu: Option<TrayMenu>)
    ensures var t := MenuFor(r, serviceKey, item, button, clientMenu);
            && t.(menus := r.menus, manualPopovers := r.manualPopovers) == r
            && (clientMenu.Some? ==>
                  && serviceKey in t.manualPopovers
                  && t.manualPopovers[serviceKey]
                     == ManualPopover(button, WithPlaceholder(ManualMenu.ManualRows(clientMenu.value.submenus, serviceKey)))
                  && t.menus == r.menus
                  && t.manualPopovers - {serviceKey} == r.manualPopovers - {serviceKey})
            && (clientMenu.None? ==>
                  && serviceKey in t.menus
                  && t.menus[serviceKey] == CreateBasicPopoverMenu(button, MenuBarPath + "/" + item.id)
                  && t.manualPopovers == r.manualPopovers
                  && t.menus - {serviceKey} == r.menus - {serviceKey})
  {
    var t := MenuFor(r, serviceKey, item, button, clientMenu);
    if clientMenu.Some? {
      assert t.manualPopovers - {serviceKey} == r.manualPopovers - {serviceKey};
    } else {
      assert t.menus - {serviceKey} == r.menus - {serviceKey};
    }
  }

  /**
   * `add_tray_item`: store the item, map its id to the key, create a fresh
   * button, build one menu store and append the button to the container.
   */
  function AddItem(r: Registry, serviceKey: string, item: StatusNotifierItem, clientMenu: Option<TrayMenu>): Registry {
    var button := r.nextHandle;
    MenuFor(r, serviceKey, item, button, clientMenu).(
      items := r.items[serviceKey := item],
      itemToServiceKey := r.itemToServiceKey[item.id := serviceKey],
      buttons := r.buttons[serviceKey := button],
      nextHandle := button + 1,
      container := r.container + [button])
  }

  /**
   * After an add the key holds the item and a fresh button, the id resolves to
   * the key (last add wins), one button is appended to the container even when
   * the key was present, and exactly one menu store is written.
   */
  lemma AddItemEffects(r: Registry, serviceKey: string, item: StatusNotifierItem, clientMenu: Option<TrayMenu>)
    ensures var t := AddItem(r, serviceKey, item, clientMenu);
            && serviceKey in t.items && t.items[serviceKey] == item
            && item.id in t.itemToServiceKey && t.itemToServiceKey[item.id] == serviceKey
            && serviceKey in t.buttons && t.buttons[serviceKey] == r.nextHandle
            && t.container == r.container + [t.buttons[serviceKey]]
            && t.nextHandle == r.nextHandle + 1
            && (clientMenu.Some? ==> serviceKey in t.manualPopovers && t.menus == r.menus)
            && (clientMenu.None? ==> serviceKey in t.menus && t.manualPopovers == r.manualPopovers)
            && t.actionGroups == r.actionGroups
  {
    MenuForEffects(r, serviceKey, item, r.nextHandle, clientMenu);
  }

  /** An add changes nothing outside its key and its item's id. */
  lemma AddItemFrame(r: Registry, serviceKey: string, item: StatusNotifierItem, clientMenu: Option<TrayMenu>)
    ensures var t := AddItem(r, serviceKey, item, clientMenu);
            && t.items - {serviceKey} == r.items - {serviceKey}
            && t.buttons - {serviceKey} == r.buttons - {serviceKey}
            && t.menus - {serviceKey} == r.menus - {serviceKey}
            && t.manualPopovers - {serviceKey} == r.manualPopovers - {serviceKey}
            && t.itemToServiceKey - {item.id} == r.itemToServiceKey - {item.id}
  {
    MenuForEffects(r, serviceKey, item, r.nextHandle, clientMenu);
    var t := AddItem(r, serviceKey, item, clientMenu);
    assert t.items - {serviceKey} == r.items - {serviceKey};
    assert t.buttons - {serviceKey} == r.buttons - {serviceKey};
    assert t.itemToServiceKey - {item.id} == r.itemToServiceKey - {item.id};
  }

  /**
   * `remove_tray_item`: drop the key from buttons (taking its button out of the
   * container), menus, manual popovers, action groups and items, and drop the
   * id mapping of the removed item's id.
   */
  function RemoveItem(r: Registry, serviceKey: string): Registry {
    var container := if serviceKey in r.buttons then Without(r.container, r.buttons[serviceKey]) else r.container;
    var idMap := if serviceKey in r.items then r.itemToServiceKey - {r.items[serviceKey].id} else r.itemToServiceKey;
    r.(buttons := r.buttons - {serviceKey},
       container := container,
       menus := r.menus - {serviceKey},
       manualPopovers := r.manualPopovers - {serviceKey},
       actionGroups := r.actionGroups - {serviceKey},
       items := r.items - {serviceKey},
       itemToServiceKey := idMap)
  }

  /**
   * After a remove the key is gone from every per-key map and no other key
   * changes; its button leaves the container and every other button stays; the
   * mapping of the removed item's id is dropped wherever it now points, and
   * without an item the id map is untouched.
   */
  lemma RemoveItemEffects(r: Registry, serviceKey: string)
    ensures var t := RemoveItem(r, serviceKey);
            && t.items == r.items - {serviceKey} && t.buttons == r.buttons - {serviceKey}
            && t.menus == r.menus - {serviceKey} && t.manualPopovers == r.manualPopovers - {serviceKey}
            && t.actionGroups == r.actionGroups - {serviceKey}
            && (serviceKey in r.items ==> t.itemToServiceKey == r.itemToServiceKey - {r.items[serviceKey].id})
            && (serviceKey !in r.items ==> t.itemToServiceKey == r.itemToServiceKey)
            && (serviceKey in r.buttons ==> r.buttons[serviceKey] !in t.container)
            && (forall h :: h in r.container && (serviceKey !in r.buttons || h != r.buttons[serviceKey]) ==> h in t.container)
            && t.nextHandle == r.nextHandle
            && (serviceKey in r.buttons && Distinct(r.container) ==>
                  forall i :: 0 <= i < |r.container| && r.container[i] == r.buttons[serviceKey] ==>
                    t.container == r.container[..i] + r.container[i + 1..])
  {
    if serviceKey in r.buttons && Distinct(r.container) {
      forall i | 0 <= i < |r.container| && r.container[i] == r.buttons[serviceKey] {
        WithoutKeepsOrder(r.container, r.buttons[serviceKey], i);
      }
    }
  }

  /**
   * `handle_tray_event`: Add and Remove go to add and remove; an update only
   * re-applies a stored item to its button, so the registry stays as it is.
   */
  function Apply(r: Registry, ev: TrayEvent): Registry {
    match ev
    case Add(k, item, menu) => AddItem(r, k, item, menu)
    case Update(_, _) => r
    case Remove(k) => RemoveItem(r, k)
  }

  /** The registry after events handled one after another in arrival order. */
  function Fold(r: Registry, events: seq<TrayEvent>): Registry {
    if events == [] then r else Apply(Fold(r, events[..|events| - 1]), events[|events| - 1])
  }

  /** Outside the key, a map agrees with another whenever the two agree once the key is removed. */
  lemma AgreeOutside<K, V>(m1: map<K, V>, m2: map<K, V>, key: K, k: K)
    requires m1 - {key} == m2 - {key} && k != key
    ensures k in m1 <==> k in m2
    ensures k in m1 ==> m1[k] == m2[k]
  {
    assert k in m1 <==> k in m1 - {key};
    assert k in m2 <==> k in m2 - {key};
    if k in m1 {
      assert m1[k] == (m1 - {key})[k];
      assert m2[k] == (m2 - {key})[k];
    }
  }

  lemma AddKeepsKeysAgree(r: Registry, k: string, item: StatusNotifierItem, menu: Option<TrayMenu>)
    requires KeysAgree(r)
    ensures KeysAgree(AddItem(r, k, item, menu))
  {
    var t := AddItem(r, k, item, menu);
    AddItemEffects(r, k, item, menu);
    AddItemFrame(r, k, item, menu);
    forall k' | k' in t.items ensures k' in t.menus || k' in t.manualPopovers {
      if k' != k {
        AgreeOutside(t.items, r.items, k, k');
        AgreeOutside(t.menus, r.menus, k, k');
        AgreeOutside(t.manualPopovers, r.manualPopovers, k, k');
      }
    }
    forall k' | k' in t.menus ensures k' in t.items {
      if k' != k {
        AgreeOutside(t.items, r.items, k, k');
        AgreeOutside(t.menus, r.menus, k, k');
      }
    }
    forall k' | k' in t.manualPopovers ensures k' in t.items {
      if k' != k {
        AgreeOutside(t.items, r.items, k, k');
        AgreeOutside(t.manualPopovers, r.manualPopovers, k, k');
      }
    }
    forall k' | k' in t.items ensures k' in t.buttons {
      if k' != k {
        AgreeOutside(t.items, r.items, k, k');
        AgreeOutside(t.buttons, r.buttons, k, k');
      }
    }
    forall k' | k' in t.buttons ensures k' in t.items {
      if k' != k {
        AgreeOutside(t.items, r.items, k, k');
        AgreeOutside(t.buttons, r.buttons, k, k');
      }
    }
  }

  lemma AddKeepsButtonsPlaced(r: Registry, k: string, item: StatusNotifierItem, menu: Option<TrayMenu>)
    requires ButtonsPlaced(r)
    ensures ButtonsPlaced(AddItem(r, k, item, menu))
  {
    var t := AddItem(r, k, item, menu);
    AddItemEffects(r, k, item, menu);
    AddItemFrame(r, k, item, menu);
    assert r.nextHandle !in r.container;
    forall h | h in t.container ensures h < t.nextHandle {
      if h != r.nextHandle {
        assert h in r.container;
      }
    }
    forall k' | k' in t.buttons && k' != k ensures k' in r.buttons && t.buttons[k'] == r.buttons[k'] {
      AgreeOutside(t.buttons, r.buttons, k, k');
    }
    forall k1, k2 | k1 in t.buttons && k2 in t.buttons && k1 != k2 ensures t.buttons[k1] != t.buttons[k2] {
      if k1 != k {
        assert r.buttons[k1] in r.container;
      }
      if k2 != k {
        assert r.buttons[k2] in r.container;
      }
    }
    forall k' | k' in t.buttons ensures t.buttons[k'] in t.container {
      if k' != k {
        assert r.buttons[k'] in r.container;
      }
    }
  }

  lemma RemovePreservesValid(r: Registry, k: string)
    requires Valid(r)
    ensures Valid(RemoveItem(r, k))
  {
    var t := RemoveItem(r, k);
    RemoveItemEffects(r, k);
    if k in r.buttons {
      WithoutKeepsDistinct(r.container, r.buttons[k]);
    }
    forall k' | k' in t.buttons ensures t.buttons[k'] in t.container {
      assert r.buttons[k'] in r.container;
    }
  }

  lemma ApplyPreservesValid(r: Registry, ev: TrayEvent)
    requires Valid(r)
    ensures Valid(Apply(r, ev))
  {
    match ev
    case Add(k, item, menu) =>
      AddKeepsKeysAgree(r, k, item, menu);
      AddKeepsButtonsPlaced(r, k, item, menu);
    case Update(k, _) =>
    case Remove(k) => RemovePreservesValid(r, k);
  }

  /** Every sequence of events keeps the registry consistent. */
  lemma {:induction false} FoldPreservesValid(r: Registry, events: seq<TrayEvent>)
    requires Valid(r)
    ensures Valid(Fold(r, events))
  {
    if events != [] {
      FoldPreservesValid(r, events[..|events| - 1]);
      ApplyPreservesValid(Fold(r, events[..|events| - 1]), events[|events| - 1]);
    }
  }

  /** Handling a + b is handling a, then b. */
  lemma {:induction false} FoldAppend(r: Registry, a: seq<TrayEvent>, b: seq<TrayEvent>)
    ensures Fold(r, a + b) == Fold(Fold(r, a), b)
  {
    if b == [] {
      assert a + b == a;
    } else {
      assert (a + b)[..|a + b| - 1] == a + b[..|b| - 1];
      FoldAppend(r, a, b[..|b| - 1]);
    }
  }

  /** A second remove of the same key changes nothing. */
  lemma RemoveIdempotent(r: Registry, serviceKey: string)
    ensures RemoveItem(RemoveItem(r, serviceKey), serviceKey) == RemoveItem(r, serviceKey)
  {
  }

  /** Removing a key that is not present changes nothing. */
  lemma RemoveAbsentIsNoOp(r: Registry, serviceKey: string)
    requires Valid(r) && serviceKey !in r.items
    ensures RemoveItem(r, serviceKey) == r
  {
    assert r.buttons - {serviceKey} == r.buttons;
    assert r.menus - {serviceKey} == r.menus;
    assert r.manualPopovers - {serviceKey} == r.manualPopovers;
    assert r.actionGroups - {serviceKey} == r.actionGroups;
    assert r.items - {serviceKey} == r.items;
  }

  /** However many updates arrive, no registry map changes. */
  lemma {:induction false} UpdatesLeaveRegistry(r: Registry, events: seq<TrayEvent>)
    requires forall i :: 0 <= i < |events| ==> events[i].Update?
    ensures Fold(r, events) == r
  {
    if events != [] {
      UpdatesLeaveRegistry(r, events[..|events| - 1]);
    }
  }

  /** Events that cannot move the mapping of `id`: updates, and adds of items with another id. */
  predicate KeepsMapping(ev: TrayEvent, id: string) {
    ev.Update? || (ev.Add? && ev.item.id != id)
  }

  /**
   * Last add wins: after an add, the item's id resolves to its service key for
   * as long as only updates and adds of other ids follow.
   */
  lemma {:induction false} LastAddWins(r: Registry, serviceKey: string, item: StatusNotifierItem,
                                       clientMenu: Option<TrayMenu>, rest: seq<TrayEvent>)
    requires forall i :: 0 <= i < |rest| ==> KeepsMapping(rest[i], item.id)
    ensures var t := Fold(r, [Add(serviceKey, item, clientMenu)] + rest);
            item.id in t.itemToServiceKey && t.itemToServiceKey[item.id] == serviceKey
  {
    var first := [Add(serviceKey, item, clientMenu)];
    if rest == [] {
      assert first + rest == first;
      assert first[..0] == [];
    } else {
      var prefix := rest[..|rest| - 1];
      LastAddWins(r, serviceKey, item, clientMenu, prefix);
      assert (first + rest)[..|first + rest| - 1] == first + prefix;
    }
  }

  /**
   * Removing a key drops the mapping of its item's id even when that id now
   * points at another, still present, key: the other item can no longer be
   * resolved by id (the events Add(k1), Add(k2), Remove(k1)).
   */
  lemma RemoveDropsOtherKeysMapping(r: Registry, k1: string, item1: StatusNotifierItem, m1: Option<TrayMenu>,
                                    k2: string, item2: StatusNotifierItem, m2: Option<TrayMenu>)
    requires k1 != k2 && item1.id == item2.id
    ensures var t := RemoveItem(AddItem(AddItem(r, k1, item1, m1), k2, item2, m2), k1);
            && item2.id !in t.itemToServiceKey
            && k2 in t.items && t.items[k2] == item2
  {
  }

  /**
   * Re-adding a key with an item of another id and then removing the key
   * leaves the first id mapped to the removed key (the events Add(k), Add(k),
   * Remove(k)).
   */
  lemma StaleMappingAfterReAdd(r: Registry, k: string, a: StatusNotifierItem, ma: Option<TrayMenu>,
                               b: StatusNotifierItem, mb: Option<TrayMenu>)
    requires a.id != b.id
    ensures var t := RemoveItem(AddItem(AddItem(r, k, a, ma), k, b, mb), k);
            && k !in t.items
            && a.id in t.itemToServiceKey && t.itemToServiceKey[a.id] == k
  {
  }

  /**
   * Adding a key that is already present appends a second button and keeps the
   * first in the container; removing the key later takes out only the second.
   */
  lemma ReAddLeavesOldButton(r: Registry, serviceKey: string, item: StatusNotifierItem, clientMenu: Option<TrayMenu>)
    requires Valid(r) && serviceKey in r.items
    ensures var t := AddItem(r, serviceKey, item, clientMenu);
            && |t.container| == |r.container| + 1
            && r.buttons[serviceKey] in t.container
            && r.buttons[serviceKey] in RemoveItem(t, serviceKey).container
  {
    var t := AddItem(r, serviceKey, item, clientMenu);
    assert r.buttons[serviceKey] in r.container;
    assert r.buttons[serviceKey] < r.nextHandle;
  }

  /** What a right click on the key's button does in this registry. */
  function RightClickOn(r: Registry, widgetAlive: bool, serviceKey: string): ClickEffect {
    RightClick(widgetAlive, serviceKey in r.manualPopovers, serviceKey in r.menus, serviceKey)
  }

  /**
   * A right click on a present item always opens a popover, never falls back to
   * activation: every add stores a menu for its key. With menu data from the
   * client it is the manual popover.
   */
  lemma RightClickOnPresentItem(r: Registry, widgetAlive: bool, serviceKey: string)
    requires Valid(r) && serviceKey in r.items && widgetAlive
    ensures RightClickOn(r, widgetAlive, serviceKey).PopupManualPopover?
            || RightClickOn(r, widgetAlive, serviceKey).PopupPopoverMenu?
  {
  }

  /** After an add with client menu data the manual popover wins; after a remove the click activates by key. */
  lemma RightClickAfterAddAndRemove(r: Registry, serviceKey: string, item: StatusNotifierItem, menu: TrayMenu)
    ensures RightClickOn(AddItem(r, serviceKey, item, Some(menu)), true, serviceKey) == PopupManualPopover
    ensures RightClickOn(RemoveItem(r, serviceKey), true, serviceKey) == Activate(Default(serviceKey, 0, 0))
  {
  }

  /**
   * The tray widget. Its maps are the fields the source guards with mutexes;
   * every lock is taken to succeed.
   */
  class TrayWidget {
    var items: map<string, StatusNotifierItem>
    var itemButtons: map<string, Handle>
    var itemMenus: map<string, BasicPopoverMenu>
    var itemManualPopovers: map<string, ManualPopover>
    var actionGroups: map<string, ActionGroup>
    var itemToServiceKey: map<string, string>
    var container: seq<Handle>
    var nextHandle: nat

    function State(): Registry
      reads this
    {
      Registry(items, itemButtons, itemMenus, itemManualPopovers, actionGroups, itemToServiceKey,
               container, nextHandle)
    }

    /** What each button created so far shows. */
    var views: map<Handle, ButtonView>

    /** `new`, without the listener thread: every map empty, no button in the container. */
    constructor ()
      ensures State() == EmptyRegistry && Valid(State()) && views == map[]
    {
      items, itemButtons, itemMenus, itemManualPopovers := map[], map[], map[], map[];
      actionGroups, itemToServiceKey, container, views, nextHandle := map[], map[], [], map[], 0;
    }

    method AddTrayItem(serviceKey: string, item: StatusNotifierItem, clientMenu: Option<TrayMenu>)
      modifies this
      ensures State() == AddItem(old(State()), serviceKey, item, clientMenu)
      ensures views == old(views)[old(nextHandle) := TrayButtonView(item)]
    {
      items := items[serviceKey := item];
      itemToServiceKey := itemToServiceKey[item.id := serviceKey];
      var view := CreateTrayButton(item, serviceKey);
      var button := nextHandle;
      nextHandle := nextHandle + 1;
      views := views[button := view];
      itemButtons := itemButtons[serviceKey := button];
      CreateMenuForItem(serviceKey, item, button, clientMenu);
      container := container + [button];
      assert itemMenus == AddItem(old(State()), serviceKey, item, clientMenu).menus;
      assert itemManualPopovers == AddItem(old(State()), serviceKey, item, clientMenu).manualPopovers;
    }

    method CreateMenuForItem(serviceKey: string, item: StatusNotifierItem, button: Handle, clientMenu: Option<TrayMenu>)
      modifies this
      ensures State() == MenuFor(old(State()), serviceKey, item, button, clientMenu)
      ensures views == old(views)
    {
      if clientMenu.Some? {
        var rows := ManualMenu.CreateManualPopoverMenu(clientMenu.value.submenus, serviceKey);
        itemManualPopovers := itemManualPopovers[serviceKey := ManualPopover(button, rows)];
        return;
      }
      var popover := CreateBasicPopoverMenu(button, MenuBarPath + "/" + item.id);
      itemMenus := itemMenus[serviceKey := popover];
    }

    method UpdateTrayItem(serviceKey: string, update: UpdateEvent)
      modifies this
      ensures State() == old(State())
      ensures serviceKey in itemButtons && serviceKey in items ==>
                views == old(views)[itemButtons[serviceKey] := RefreshedView(items[serviceKey])]
      ensures serviceKey !in itemButtons || serviceKey !in items ==> views == old(views)
    {
      if serviceKey in itemButtons {
        var button := itemButtons[serviceKey];
        if serviceKey in items {
          var item := items[serviceKey];
          var face := SetButtonIcon(item.iconName, item.iconPixmap);
          views := views[button := ButtonView(face, TooltipText(item.toolTip, item.title))];
        }
      }
    }

    method RemoveTrayItem(serviceKey: string)
      modifies this
      ensures State() == RemoveItem(old(State()), serviceKey)
      ensures views == old(views)
    {
      if serviceKey in itemButtons {
        var button := itemButtons[serviceKey];
        itemButtons := itemButtons - {serviceKey};
        container := Without(container, button);
      }
      assert container == RemoveItem(old(State()), serviceKey).container;
      assert itemButtons == RemoveItem(old(State()), serviceKey).buttons;
      itemMenus := itemMenus - {serviceKey};
      itemManualPopovers := itemManualPopovers - {serviceKey};
      actionGroups := actionGroups - {serviceKey};
      if serviceKey in items {
        var item := items[serviceKey];
        items := items - {serviceKey};
        itemToServiceKey := itemToServiceKey - {item.id};
      }
      assert itemToServiceKey == RemoveItem(old(State()), serviceKey).itemToServiceKey;
      assert items == RemoveItem(old(State()), serviceKey).items;
    }

    method HandleTrayEvent(ev: TrayEvent)
      modifies this
      ensures State() == Apply(old(State()), ev)
    {
      match ev {
        case Add(k, item, menu) => AddTrayItem(k, item, menu);
        case Update(k, update) => UpdateTrayItem(k, update);
        case Remove(k) => RemoveTrayItem(k);
      }
    }

    /** The receiving loop of `new`: every forwarded event is handled, in order. */
    method ReceiveEvents(events: seq<TrayEvent>)
      modifies this
      ensures State() == Fold(old(State()), events)
    {
      for i := 0 to |events|
        invariant State() == Fold(old(State()), events[..i])
      {
        assert events[..i + 1][..i] == events[..i];
        HandleTrayEvent(events[i]);
      }
      assert events[..|events|] == events;
    }

    /** `drop`, without the shutdown signal and the join: items and buttons are cleared, nothing else. */
    method Drop()
      modifies this
      ensures State() == old(State()).(items := map[], buttons := map[])
      ensures views == old(views)
    {
      items := map[];
      itemButtons := map[];
    }

    function GetServiceKeyForItem(itemId: string): (r: Option<string>)
      reads this
      ensures r.Some? <==> itemId in itemToServiceKey
      ensures r.Some? ==> r.value == itemToServiceKey[itemId]
    {
      if itemId in itemToServiceKey then Some(itemToServiceKey[itemId]) else None
    }

    function GetMenuForServiceKey(serviceKey: string): (r: Option<BasicPopoverMenu>)
      reads this
      ensures r.Some? <==> serviceKey in itemMenus
      ensures r.Some? ==> r.value == itemMenus[serviceKey]
    {
      if serviceKey in itemMenus then Some(itemMenus[serviceKey]) else None
    }

    function GetManualPopoverForServiceKey(serviceKey: string): (r: Option<ManualPopover>)
      reads this
      ensures r.Some? <==> serviceKey in itemManualPopovers
      ensures r.Some? ==> r.value == itemManualPopovers[serviceKey]
    {
      if serviceKey in itemManualPopovers then Some(itemManualPopovers[serviceKey]) else None
    }

    /** The right-click handler's decision, looking the key up in this widget. */
    function RightClickEffect(widgetAlive: bool, serviceKey: string): (r: ClickEffect)
      reads this
      ensures r == RightClickOn(State(), widgetAlive, serviceKey)
    {
      RightClick(widgetAlive, GetManualPopoverForServiceKey(serviceKey).Some?,
                 GetMenuForServiceKey(serviceKey).Some?, serviceKey)
    }

    /**
     * `create_popover_from_menu`: a popover menu over the menu model (with the
     * "No menu items" placeholder when empty) whose action group, holding one
     * action per leaf, is stored under the key.
     */
    method CreatePopoverFromMenu(button: Handle, menu: TrayMenu, serviceKey: string) returns (popover: ModelPopoverMenu)
      modifies this
      ensures popover == ModelPopoverMenu(button, PopoverMenuModel(menu.submenus, serviceKey))
      ensures State() == old(State()).(actionGroups := old(actionGroups)[serviceKey := RegisterActions(map[], menu.submenus, serviceKey)])
      ensures views == old(views)
    {
      var entries, group := AddMenuItemsRecursive(menu.submenus, serviceKey, map[]);
      if entries == [] {
        entries := entries + [GPlaceholder(NoMenuItems)];
      }
      popover := ModelPopoverMenu(button, entries);
      actionGroups := actionGroups[serviceKey := group];
    }
  }
}
