/**
 * The values the tray core exchanges with the tray client library and with the
 * toolkit: menu items and tray items as the client reports them, the
 * activation requests it accepts, and the rows a realised popover holds.
 */
module TrayTypes {
  import opened Wrappers

  type byte = x: int | 0 <= x < 0x100
  type i32 = x: int | -0x8000_0000 <= x < 0x8000_0000

  /** The kind of a menu entry; only the separator kind changes how an entry is shown. */
  datatype MenuType = Standard | Separator

  /** One entry of a tray item's menu (its label is `text`), with its submenu entries in order. */
  datatype MenuItem = MenuItem(
    id: i32,
    text: Option<string>,
    enabled: bool,
    visible: bool,
    iconName: Option<string>,
    iconData: Option<seq<byte>>,
    menuType: MenuType,
    submenu: seq<MenuItem>)

  /** The menu the client holds for a tray item: its top-level entries. */
  datatype TrayMenu = TrayMenu(submenus: seq<MenuItem>)

  /** One ARGB32 image of a tray icon, pixels in network byte order. */
  datatype IconPixmap = IconPixmap(width: i32, height: i32, pixels: seq<byte>)

  datatype Tooltip = Tooltip(title: string, description: string)

  /** A tray item as the client reports it. `id` is chosen by the application and need not be unique. */
  datatype StatusNotifierItem = StatusNotifierItem(
    id: string,
    title: Option<string>,
    iconName: Option<string>,
    iconPixmap: Option<seq<IconPixmap>>,
    toolTip: Option<Tooltip>)

  /** A request handed to the client's `activate`, addressed by service key. */
  datatype ActivateRequest =
    | Default(address: string, x: i32, y: i32)
    | MenuItemRequest(address: string, menuPath: string, submenuId: i32)

  const MenuBarPath := "/MenuBar"
  const NoMenuItems := "No menu items"
  const GenericImageIcon := "image-x-generic"
  const SubmenuIcon := "go-next"
  const SpacerSize: nat := 16

  /** The image at the head of a popover row. */
  datatype RowIcon =
    | ThemedIcon(name: string)
    | DataImage(png: seq<byte>)
    | Spacer(width: nat, height: nat)

  /** One child of a popover's vertical box. */
  datatype Row =
    | SeparatorRow
    | ItemRow(icon: RowIcon, text: string, sensitive: bool, onClick: ActivateRequest)
    | SubmenuRow(arrowIcon: string, popover: seq<Row>)
    | PlaceholderRow(text: string)

  predicate IsSeparator(m: MenuItem) { m.menuType == Separator }

  /** The label test both popover builders apply: present and not empty. */
  predicate HasLabel(m: MenuItem) { m.text.Some? && m.text.value != "" }

  /** A box that ended up empty gets the single "No menu items" label. */
  function WithPlaceholder(rows: seq<Row>): (r: seq<Row>)
    ensures |r| >= 1
    ensures rows != [] ==> r == rows
    ensures rows == [] ==> r == [PlaceholderRow(NoMenuItems)]
  {
    if rows == [] then [PlaceholderRow(NoMenuItems)] else rows
  }

  function ItemSize(m: MenuItem): nat {
    1 + ForestSize(m.submenu)
  }

  /** The number of menu items in a forest, children included; recursion on it terminates. */
  function ForestSize(ms: seq<MenuItem>): nat {
    if ms == [] then 0 else ForestSize(ms[..|ms| - 1]) + ItemSize(ms[|ms| - 1])
  }

  lemma {:induction false} ForestSizeAtLeastMember(ms: seq<MenuItem>, k: nat)
    requires k < |ms|
    ensures ItemSize(ms[k]) <= ForestSize(ms)
  {
    if k < |ms| - 1 {
      ForestSizeAtLeastMember(ms[..|ms| - 1], k);
    }
  }

  /** A one-child forest built from a submenu entry is smaller than the forest it came from. */
  lemma ChildForestSmaller(ms: seq<MenuItem>, i: nat, j: nat)
    requires i < |ms| && j < |ms[i].submenu|
    ensures ForestSize([ms[i].submenu[j]]) < ForestSize(ms)
  {
    var c := ms[i].submenu[j];
    assert [c][..0] == [];
    ForestSizeAtLeastMember(ms[i].submenu, j);
    ForestSizeAtLeastMember(ms, i);
  }
}
