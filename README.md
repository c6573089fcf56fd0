# Tray and notification widgets: a Dafny model

This project models the bookkeeping and decision logic of a desktop bar's
system-tray widget and its notification indicator, and proves properties of
that model in Dafny.

**The tray registry (`Widget`).** `TrayWidget` keeps several maps keyed by the
StatusNotifierItem service key:
- the items;
- the tray buttons;
- the GMenu popover menus;
- the manual popovers;
- the action groups.

It also keeps an item-id → service-key map and the container of buttons.

- `Widget.TrayWidget` is a class with those maps as fields. GTK widgets are opaque `Handle`s.
- Its methods `AddTrayItem`, `UpdateTrayItem`, `RemoveTrayItem` and `HandleTrayEvent` change the fields in place.
- `ReceiveEvents` is the main-thread receiving loop.
- Each method is proved against a function on the `Registry` value: `AddItem`, `RemoveItem`, `Apply` and `Fold`.
- The properties are lemmas about those functions:
  - the invariant `Valid`, which is preserved by every event;
  - what each operation writes, and that nothing else changes;
  - that a repeated remove is a no-op;
  - that the last add wins the id map;
  - the id-map quirk of remove.
- What each button shows (its icon and tooltip) is kept in the class field `views`, beside the registry.

**The menu builders.**
- `WidgetMenu`: the recursive GMenu builder with its sanitised action names.
- `ManualMenu`: the flat manual popover.
- `PopoverMenu`: the recursive popover with child buttons.

Each builder walks a `MenuItem` tree and produces an ordered list of rows. The
visibility, separator, label, icon and placeholder rules are stated on single
items. Lemmas then lift them to whole lists: appending, counting, order, and
agreement between the builders.

**The helpers.**
- `Controls`: the button's icon choice, the ARGB→RGBA pixel rotation, the tooltip text, and the left/right click dispatch.
- `MenuHelpers`: the icon attribute of a GMenu item.
- `Events`: the title/id tooltip and the activation request.

**The notification indicator (`Notification`).** It covers:
- parsing of the count and do-not-disturb command outputs;
- the red-dot markup;
- the pluralised tooltip;
- the "unavailable" display.

`Text` supplies Rust's integer printing, `str::trim`, ASCII lower-casing and
`parse::<u32>`, with their round-trip lemmas.

## Model

| member | source | states |
|---|---|---|
| Widget.TrayWidget.constructor | src/tray_widget/widget.rs:30-49 | a new widget holds the empty registry, which satisfies the registry invariant, and no button views |
| Widget.EmptyRegistryValid | src/tray_widget/widget.rs:12-26 | the empty registry satisfies the invariant: button keys equal item keys, every other store's keys are item keys, every item has a menu store, buttons are distinct and placed in the container |
| Widget.TrayWidget.AddTrayItem | src/tray_widget/widget.rs:142-177 | the new registry is `AddItem` of the old one; the new button's view shows the item's icon and its tooltip with the "Unknown" title fallback, and no other view changes |
| Widget.AddItemEffects | src/tray_widget/widget.rs:151-176 | after add(k, item): items[k] == item, id map[item.id] == k, buttons[k] is a fresh handle appended once to the container, the handle counter grows by one, the menu store matches whether the client holds menu data, action groups are untouched |
| Widget.AddItemFrame | src/tray_widget/widget.rs:151-176 | add(k, item) leaves every other key's item, button, menu and manual popover, and every other id's mapping, unchanged |
| Widget.TrayWidget.CreateMenuForItem | src/tray_widget/widget.rs:271-307 | the new registry is `MenuFor` of the old one: a manual popover from the client's menu when it has one, else a basic popover menu on "/MenuBar/<id>" |
| Widget.MenuForEffects | src/tray_widget/widget.rs:271-306 | exactly one menu store gains key k, with the manual popover's rows or the basic menu's path; the other store and every other field are unchanged |
| Widget.CreateBasicPopoverMenu | src/tray_widget/widget.rs:299-306 | the basic popover menu is attached to the given button and carries the given menu path |
| Widget.TrayWidget.UpdateTrayItem | src/tray_widget/widget.rs:180-208 | the registry is unchanged and the payload is ignored; when both a button and an item are stored for k, that button's view is refreshed from the item, and otherwise no view changes |
| Widget.TrayWidget.RemoveTrayItem | src/tray_widget/widget.rs:211-241 | the new registry is `RemoveItem` of the old one; no view changes |
| Widget.RemoveItemEffects | src/tray_widget/widget.rs:211-240 | remove(k) deletes k from items, buttons, menus, manual popovers and action groups; deletes id map[items[k].id] whatever key that id now maps to, and leaves the id map alone without an item; the button leaves the container and the other buttons stay in their order |
| Widget.Without | src/tray_widget/widget.rs:215-219 | removing a button from the container keeps exactly the other handles, and removing an absent one changes nothing |
| Widget.WithoutKeepsOrder | src/tray_widget/widget.rs:215-219 | removing a button from a duplicate-free container gives the container with that one position cut out, the other buttons in their order |
| Widget.WithoutKeepsDistinct | src/tray_widget/widget.rs:215-219 | removing a button keeps the container free of duplicates |
| Widget.RemoveIdempotent | src/tray_widget/widget.rs:211-240 | remove(k); remove(k) equals remove(k) |
| Widget.RemoveAbsentIsNoOp | src/tray_widget/widget.rs:211-240 | on a valid registry, removing a key with no item changes nothing |
| Widget.AgreeOutside | src/tray_widget/widget.rs:211-240 | two maps equal outside one key agree on membership and value at every other key |
| Widget.AddKeepsKeysAgree | src/tray_widget/widget.rs:142-177 | add keeps the key agreement between the stores |
| Widget.AddKeepsButtonsPlaced | src/tray_widget/widget.rs:161-176 | add keeps every button in the container, buttons distinct, and the container duplicate-free |
| Widget.RemovePreservesValid | src/tray_widget/widget.rs:211-240 | remove keeps the registry invariant |
| Widget.TrayWidget.HandleTrayEvent | src/tray_widget/widget.rs:127-139 | Add dispatches to add, Update to update, Remove to remove: the new registry is `Apply` of the old one |
| Widget.ApplyPreservesValid | src/tray_widget/widget.rs:127-139 | every event keeps the registry invariant |
| Widget.TrayWidget.ReceiveEvents | src/tray_widget/widget.rs:55-59 | handling a stream of events in arrival order gives `Fold` of the registry over the stream |
| Widget.FoldPreservesValid | src/tray_widget/widget.rs:55-59 | any event stream keeps the registry invariant |
| Widget.FoldAppend | src/tray_widget/widget.rs:55-59 | handling a + b is handling a, then b |
| Widget.UpdatesLeaveRegistry | src/tray_widget/widget.rs:180-208 | a stream of only updates leaves the registry unchanged |
| Widget.LastAddWins | src/tray_widget/widget.rs:156-158 | after add(k, item), followed by updates and adds of other ids, the id maps to k |
| Widget.RemoveDropsOtherKeysMapping | src/tray_widget/widget.rs:233-239 | when two keys share an item id, removing the first deletes the id's mapping to the second while the second item stays |
| Widget.StaleMappingAfterReAdd | src/tray_widget/widget.rs:233-239 | re-adding k with an item of a new id and then removing k leaves the old id mapped to the removed key k |
| Widget.ReAddLeavesOldButton | src/tray_widget/widget.rs:161-176 | re-adding a present key appends a second button and the old one stays in the container, even after removing the key |
| Widget.TrayWidget.Drop | src/tray_widget/widget.rs:543-545 | dropping the widget clears the items and the buttons and nothing else |
| Widget.TrayWidget.GetServiceKeyForItem | src/tray_widget/widget.rs:244-250 | a key is returned exactly when the id is mapped, and it is the mapped key |
| Widget.TrayWidget.GetMenuForServiceKey | src/tray_widget/widget.rs:253-259 | a menu is returned exactly when one is stored for the key, and it is the stored one |
| Widget.TrayWidget.GetManualPopoverForServiceKey | src/tray_widget/widget.rs:262-268 | a manual popover is returned exactly when one is stored for the key, and it is the stored one |
| Widget.TrayWidget.RightClickEffect | src/tray_widget/controls.rs:182-217 | a right click on a tray button decides by the widget's current stores |
| Widget.RightClickOnPresentItem | src/tray_widget/controls.rs:182-217 | on a valid registry, a right click on a present item always opens one of its menus |
| Widget.RightClickAfterAddAndRemove | src/tray_widget/controls.rs:182-217 | after adding an item with client menu data a right click opens the manual popover; after removing the key it falls back to a Default activation at (0, 0) |
| Widget.TrayWidget.CreatePopoverFromMenu | src/tray_widget/widget.rs:310-370 | the popover is attached to the button with the menu model (placeholder when empty), and the key's action group is replaced by the actions registered for the menu; no other field and no view changes |
| WidgetMenu.SanitizeKey | src/tray_widget/widget.rs:401-405 | the sanitised key has the same length, every ':' and every '.' becomes '_', and every other character is kept |
| WidgetMenu.ActionNameInjective | src/tray_widget/widget.rs:401-405 | within one service key, distinct item ids give distinct action names |
| WidgetMenu.EntryFor | src/tray_widget/widget.rs:381-504 | an item gives one entry exactly when visible and a separator or labelled: separators give "---" with their index, labelled items with children a recursive submenu, leaves an action "menu.<key>__item_<id>", each with its icon attribute |
| WidgetMenu.AddMenuItemsRecursive | src/tray_widget/widget.rs:373-509 | the loop produces the menu entries and registers the actions the recursive specification gives |
| WidgetMenu.PopoverMenuModel | src/tray_widget/widget.rs:334-336 | the model is never empty: it is the single "No menu items" entry exactly when the walk produced nothing, and otherwise exactly the walk's entries |
| WidgetMenu.NoPlaceholderEntries | src/tray_widget/widget.rs:381-504 | the walk itself never yields a placeholder for any list it is given, hence at every level |
| WidgetMenu.RegisterActionsGrows | src/tray_widget/widget.rs:485-486 | registering actions only adds names, and every action activates a /MenuBar item of the same service key |
| WidgetMenu.ItemActionsGrows | src/tray_widget/widget.rs:408-504 | registering one item's actions (its subtree included) only adds names and keeps them addressed to the service key |
| WidgetMenu.RegisterActionsAppend | src/tray_widget/widget.rs:381-504 | registering a + b is registering a, then b |
| WidgetMenu.LastLeaf | src/tray_widget/widget.rs:381-504 | the last visible labelled leaf with an id in depth-first order, submenus included; whatever it finds is such a leaf with that id |
| WidgetMenu.ItemLastLeaf | src/tray_widget/widget.rs:381-504 | the same for one item and its subtree: a visible labelled leaf with that id |
| WidgetMenu.RegisteredActionIsLastLeaf | src/tray_widget/widget.rs:381-504 | the action under an id's name is that of the last leaf with the id, at any depth, carrying its enabled flag and its activation; with no such leaf the group keeps what it had under the name |
| WidgetMenu.ItemActionIsLastLeaf | src/tray_widget/widget.rs:408-504 | the same for the actions one item registers, its submenu included |
| WidgetMenu.LastLeafAppend | src/tray_widget/widget.rs:381 | the last leaf of a + b comes from b when b has one, else from a |
| WidgetMenu.LastLeafNoneMeansNoLeaf | src/tray_widget/widget.rs:381-430 | when there is no last leaf with an id, no item of the list is a visible labelled leaf with that id and no visible labelled submenu holds one |
| WidgetMenu.LastLeafAt | src/tray_widget/widget.rs:381 | with no leaf of the id after position i, the last leaf is item i's own, or else comes from before i |
| WidgetMenu.LeafActionRegistered | src/tray_widget/widget.rs:440-504 | every visible labelled leaf of the list has its action registered; when no later leaf at any depth has its id, the action's enabled flag is the leaf's and it activates that leaf's id on /MenuBar |
| WidgetMenu.NestedLeafRegistered | src/tray_widget/widget.rs:413-430 | a leaf inside a visible labelled submenu: when no later item holds a leaf with its id, its action is registered with the leaf's enabled flag and its /MenuBar activation |
| WidgetMenu.SameCountAsManual | src/tray_widget/widget.rs:381-438 | the top level of the GMenu has as many entries as the manual popover has rows |
| ManualMenu.CreateManualPopoverMenu | src/tray_widget/manual_menu.rs:9-145 | the loop's rows are the per-item rows of the top-level items in order, with one "No menu items" placeholder when none |
| ManualMenu.ManualRow | src/tray_widget/manual_menu.rs:25-127 | an item gives at most one row, exactly when visible and a separator or labelled; separators give a separator row, labelled items a button with the icon slot, label, enabled flag and a /MenuBar activation of the item's id |
| ManualMenu.ManualIcon | src/tray_widget/manual_menu.rs:53-76 | a non-empty icon name gives that icon; no name and non-empty data give "image-x-generic"; otherwise (an empty name included) a 16×16 spacer |
| ManualMenu.ManualRowsAppend | src/tray_widget/manual_menu.rs:24-130 | the rows of a + b are the rows of a followed by the rows of b |
| ManualMenu.CountShown | src/tray_widget/manual_menu.rs:24-130 | the number of shown items equals the list length exactly when every item shows, and is zero exactly when none does |
| ManualMenu.ManualRowsCount | src/tray_widget/manual_menu.rs:24-130 | there is one row per shown item |
| ManualMenu.ManualRowsInOrder | src/tray_widget/manual_menu.rs:24-130 | a shown item's row sits at the position given by the number of shown items before it |
| ManualMenu.ManualIgnoresSubmenus | src/tray_widget/manual_menu.rs:24 | children of submenus never affect the rows |
| ManualMenu.ManualRowsFlat | src/tray_widget/manual_menu.rs:24-130 | the manual popover holds only separators and buttons: no submenus, no placeholder |
| TrayTypes.WithPlaceholder | src/tray_widget/manual_menu.rs:132-141 | the rows are never empty: an empty list becomes the single "No menu items" row, and a non-empty one is kept |
| TrayTypes.ForestSizeAtLeastMember | src/tray_widget/popover_menu.rs:32-43 | an item's subtree is no larger than the list holding it |
| TrayTypes.ChildForestSmaller | src/tray_widget/popover_menu.rs:34 | the one-child list a submenu is built from is strictly smaller than the list being built, so the recursion terminates |
| PopoverMenu.CreatePopoverMenu | src/tray_widget/popover_menu.rs:12-148 | the loop's rows are the rows of the recursive specification, with one "No menu items" placeholder when none |
| PopoverMenu.AppendSubmenuButtons | src/tray_widget/popover_menu.rs:32-43 | one submenu button per child, in child order, each built recursively from `[child]` |
| PopoverMenu.AppendOwnRow | src/tray_widget/popover_menu.rs:46-130 | the item's own row is that of the specification |
| PopoverMenu.CreateIcon | src/tray_widget/popover_menu.rs:150-180 | a non-empty name gives a named icon; an empty name gives none; no name with non-empty data gives the decoded image, or "image-x-generic" when decoding fails; otherwise none |
| PopoverMenu.RowIconOf | src/tray_widget/popover_menu.rs:70-79 | the row gets exactly the icon `create_icon` returns when there is one, and otherwise a 16x16 spacer |
| PopoverMenu.OwnRow | src/tray_widget/popover_menu.rs:46-130 | a separator gives one separator row; a labelled item one button with enabled flag and /MenuBar activation; an unlabelled item nothing |
| PopoverMenu.ItemEntries | src/tray_widget/popover_menu.rs:28-30 | an invisible item and all its children give nothing |
| PopoverMenu.SubmenuButtons | src/tray_widget/popover_menu.rs:32-43 | one submenu button per child, each holding the child's entries or the placeholder |
| PopoverMenu.PopoverRowsAppend | src/tray_widget/popover_menu.rs:25-131 | the rows of a + b are the rows of a followed by the rows of b |
| PopoverMenu.ChildrenBeforeOwnRow | src/tray_widget/popover_menu.rs:32-59 | a visible item's child buttons, built from `[child]`, come first in child order, and its own row comes last |
| PopoverMenu.AgreesWithManualOnFlatMenus | src/tray_widget/popover_menu.rs:25-131 | on menus without submenus and without decodable icon data, the popover builder and the manual builder give the same rows |
| MenuHelpers.AddIconToMenuItem | src/tray_widget/menu_helpers.rs:21-50 | a non-empty name sets "icon" to it; an empty name sets nothing whatever the data; no name with non-empty data sets "image-x-generic"; otherwise nothing |
| MenuHelpers.IconAttributeRange | src/tray_widget/menu_helpers.rs:21-50 | the attribute is absent, "image-x-generic", or the item's own non-empty icon name |
| MenuHelpers.CreateIconFromData | src/tray_widget/menu_helpers.rs:8-18 | always succeeds, carrying the given bytes |
| Events.SetupButtonTooltip | src/tray_widget/events.rs:8-26 | a non-empty title is the tooltip; otherwise a non-empty id; with neither the tooltip is left untouched |
| Events.JoinLines | src/tray_widget/events.rs:12-21 | one collected part is joined to itself, with no newline |
| Events.ActivateMenuItem | src/tray_widget/events.rs:29-57 | exactly one MenuItem request addressed by the service key, on "/MenuBar", for the item id |
| Controls.CreateButtonIcon | src/tray_widget/controls.rs:36-79 | the icon is the one the priority rule chooses |
| Controls.ButtonIconFor | src/tray_widget/controls.rs:36-79 | a non-empty name gives a named image; otherwise a non-empty pixmap list gives an image of its first pixmap; no image exactly when neither |
| Controls.SetButtonIcon | src/tray_widget/controls.rs:81-95 | the button shows the image the priority rule chooses, and the text "" exactly when there is none |
| Controls.FaceFor | src/tray_widget/controls.rs:81-95 | the label face appears exactly when no image is chosen, and its text is ""; otherwise the face is the chosen image |
| Controls.ConvertPixels | src/tray_widget/controls.rs:50-59 | the loop's output is the ARGB→RGBA rotation of the data |
| Controls.ArgbToRgba | src/tray_widget/controls.rs:50-59 | the output length is 4 * (len / 4) |
| Controls.ArgbToRgbaPixel | src/tray_widget/controls.rs:50-59 | each complete group [a, r, g, b] becomes [r, g, b, a] |
| Controls.ArgbRoundTrip | src/tray_widget/controls.rs:50-59 | rotating back recovers the data without its trailing partial group |
| Controls.RgbaToArgb | src/tray_widget/controls.rs:50-59 | the inverse rotation keeps whole groups only |
| Controls.UnpackBeBytes | src/tray_widget/controls.rs:52-58 | the big-endian value of a group yields each of its bytes back by shifting and masking |
| Controls.Rowstride | src/tray_widget/controls.rs:61-69 | the rowstride is width * 4 whenever that fits in an i32, and otherwise that product wrapped modulo 2^32 |
| Controls.WrapI32 | src/tray_widget/controls.rs:61-69 | i32 arithmetic wraps modulo 2^32 and is exact in range |
| Controls.TooltipText | src/tray_widget/controls.rs:97-112 | the text is the tooltip's title when there is a tooltip, else the title argument, else ""; the description follows after "\n" exactly when both are non-empty |
| Controls.TooltipIgnoresTitle | src/tray_widget/controls.rs:101-103 | with a tooltip present the title argument never matters |
| Controls.CreateTrayButton | src/tray_widget/controls.rs:12-34 | the button's view is the item's icon and tooltip; without a tooltip it shows the title, or "Unknown" when absent |
| Controls.RefreshChangesOnlyUntitled | src/tray_widget/controls.rs:20-23 | a refresh shows something different from creation exactly when the item has neither tooltip nor title: "Unknown" then becomes "" |
| Controls.LeftClick | src/tray_widget/controls.rs:114-162 | a live widget issues one Default activation by service key at (0, 0); otherwise nothing |
| Controls.RightClick | src/tray_widget/controls.rs:164-221 | manual popover first, else popover menu, else one Default activation at (0, 0); nothing once the widget is gone |
| Notification.GetNotificationStatus | src/notification_widget.rs:91-116 | a status exists exactly when both commands ran and succeeded, holding the parsed count and do-not-disturb flag |
| Notification.ParseCount | src/notification_widget.rs:99-100 | an optional '+' then digits whose value fits in a u32 read as that value, leading zeros included; everything else, blank output and negative numbers among it, reads as 0 |
| Notification.CountRoundTrip | src/notification_widget.rs:99-100 | a printed u32, with surrounding whitespace, reads back exactly |
| Notification.PlusCountRoundTrip | src/notification_widget.rs:99-100 | so does one written with a leading '+' |
| Notification.NonNumberReadsZero | src/notification_widget.rs:99-100 | trimmed output holding a character that is neither a digit nor a leading '+', such as "12abc" or "1.5", reads as 0 |
| Notification.LeadingZerosCount | src/notification_widget.rs:99-100 | a count written with leading zeros, with surrounding whitespace, reads as its value |
| Notification.CountOverflowReadsZero | src/notification_widget.rs:99-100 | a number beyond u32 reads as 0 |
| Notification.ParseDnd | src/notification_widget.rs:112-113 | do-not-disturb is on exactly when the trimmed output has four characters that lower-case to "true" |
| Notification.DndIgnoresCaseAndWhitespace | src/notification_widget.rs:112-113 | "true" in any letter case, with any surrounding whitespace, turns it on |
| Notification.DndOffForOtherWords | src/notification_widget.rs:112-113 | any other visible word leaves it off |
| Notification.IconForStatus | src/notification_widget.rs:138-157 | the markup is the red dot exactly when the count is positive, and "" exactly when it is 0 |
| Notification.IconIgnoresDnd | src/notification_widget.rs:138-157 | do-not-disturb never changes the markup |
| Notification.TooltipForStatus | src/notification_widget.rs:123-131 | 0 gives "No notifications"; a positive count is printed first and followed by a space; "1 notification" exactly for 1; n > 1 gives "<n> notifications" |
| Notification.SameDigitRun | src/notification_widget.rs:125-129 | two digit runs followed by non-digits that spell the same text are the same run |
| Notification.TooltipDeterminesCount | src/notification_widget.rs:123-131 | equal tooltips mean equal counts |
| Notification.DisplayFor | src/notification_widget.rs:118-136 | no status shows the bell with "Notifications unavailable"; a status shows its markup and tooltip |
| Text.NatToString | src/notification_widget.rs:125-129 | decimal printing gives at least one digit and no leading zero |
| Text.DigitsValueOfNatToString | src/notification_widget.rs:99-100 | reading printed digits gives back the number |
| Text.NatToStringInjective | src/notification_widget.rs:125-129 | distinct counts print differently |
| Text.IntToString | src/tray_widget/widget.rs:401-405 | a printed i32 starts with '-' exactly when negative |
| Text.IntToStringInjective | src/tray_widget/widget.rs:401-405 | distinct ids print differently |
| Text.TrimStart | src/notification_widget.rs:99-100 | trimming the start leaves a suffix of the input that is empty or starts with a visible character |
| Text.TrimEnd | src/notification_widget.rs:99-100 | trimming the end leaves a prefix of the input that is empty or ends with a visible character |
| Text.TrimStartSkipsWhitespace | src/notification_widget.rs:99-100 | leading whitespace is all that is removed before visible text |
| Text.TrimEndSkipsWhitespace | src/notification_widget.rs:99-100 | trailing whitespace is all that is removed after visible text |
| Text.TrimSurrounded | src/notification_widget.rs:99-100 | trimming a visible word in whitespace gives the word |
| Text.AsciiLower | src/notification_widget.rs:112-113 | lower-casing keeps the length and maps each character |
| Text.ParseU32 | src/notification_widget.rs:99-100 | the text parses exactly when, after one optional '+', it is a non-empty run of digits whose value fits in a u32, and the result is that value; a successful parse starts with neither '-' nor whitespace |
| Text.ParseU32OfNatToString | src/notification_widget.rs:99-100 | a printed u32, with or without '+', parses back to itself |
| Text.ParseU32OfNonNumber | src/notification_widget.rs:99-100 | text with a character that is neither a digit nor a leading '+' does not parse |
| Text.ZerosValue | src/notification_widget.rs:99-100 | a run of zeros is a digit string of value 0 |
| Text.DigitsValueLeadingZeros | src/notification_widget.rs:99-100 | leading zeros do not change the value of a digit string |
| Text.ParseU32OfPaddedNatToString | src/notification_widget.rs:99-100 | a u32 printed with leading zeros parses to itself |
| Text.ParseU32OfWideNatToString | src/notification_widget.rs:99-100 | a printed number beyond u32 does not parse |

## Left out

- The listener thread, tokio runtime, `select!`, broadcast channel and the join in `Drop` (src/tray_widget/widget.rs:65-119, 528-541) are concurrency. The stream forwarded to the main thread is modelled as a sequence of events folded in order. The initial items are not separated from later subscription events, since `FoldAppend` covers any prefix.
- Widget.TrayWidget.constructor: the failure of `Client::new().await?` (src/tray_widget/widget.rs:34), which returns the error early, is not modelled; the constructor always succeeds.
- Every `Mutex::lock` is taken to succeed; the lock-failure branches are not modelled.
- GTK construction, CSS classes, margins, `set_parent`, `popup`/`popdown` and the `gtk-menu-images` setting are not modelled. Widgets are opaque handles or row records.
- The `system_tray` client's async calls (`activate`, `items`, `subscribe`) are foreign. Activations are recorded as requests and never executed, and their failure is only logged in the source.
- The menu data the client holds for a key when an Add is handled is external state, so it is carried in the Add event.
- The payload of an Update event is ignored by the source, so it is modelled as an opaque value.
- PNG decoding and `Pixbuf` creation and scaling are foreign image code. Decode success is a predicate parameter (`pngDecodes`), and a pixbuf image is a record of width, height, rowstride and bytes.
- Separator detection through the `Debug` string is modelled as a menu-type enum.
- `create_basic_popover_menu` is not part of the shown menu helpers. It is an opaque constructor recording its button and menu path.
- `path_prefix` in `add_menu_items_recursive` only builds the `submenu_path` handed to the next level of the recursion, and nothing else reads it. It has no observable effect and is dropped.
- Widget.TrayWidget.HandleTrayEvent: its contract covers the registry only. What the button views become is stated on `AddTrayItem`, `UpdateTrayItem` and `RemoveTrayItem`, not on the dispatcher.
- Widget.TrayWidget.ReceiveEvents: its contract covers the registry only, not the button views.
- Controls.Rowstride: `width * 4` wraps as an i32, as in a release build. A debug build panics on overflow instead.
- Rust's `to_lowercase` is modelled as ASCII lower-casing. No non-ASCII character lower-cases to one of the letters of "true", so the do-not-disturb comparison is unaffected.
- `String::from_utf8_lossy` is not modelled: command output is taken as text.
- `show_context_menu` (src/tray_widget/controls.rs:223-258) is never called and builds only a static placeholder UI.
- `popover_menu.rs` is not declared as a module of the tray widget (src/tray_widget.rs:2-6). It is still modelled, as `PopoverMenu`.
- The process spawning, timers and click handlers of the notification widget are left out. Only parsing and formatting are modelled.
- src/system_monitor.rs, src/main.rs and src/tray_widget.rs are not part of this model.
