/**
 * The tray button: which image it shows, how a pixmap is converted for the
 * toolkit, its tooltip text, and what a left or right click does.
 */
module Controls {
  import opened Wrappers
  import opened TrayTypes

  /** The image a button shows (always at pixel size 16). */
  datatype ButtonImage =
    | NamedImage(name: string)
    | PixbufImage(width: i32, height: i32, rowstride: i32, rgba: seq<byte>)

  /** The child of a tray button: an image, or a text label when there is no icon. */
  datatype ButtonFace = ImageChild(image: ButtonImage) | TextLabel(text: string)

  /** What the toolkit shows for one tray button. */
  datatype ButtonView = ButtonView(face: ButtonFace, tooltip: string)

  /** What a click on a tray button does. */
  datatype ClickEffect =
    | NoEffect
    | PopupManualPopover
    | PopupPopoverMenu
    | Activate(request: ActivateRequest)

  const UnknownTitle := "Unknown"

  /** Two's-complement wrap-around of an `i32` product, as a release build computes it. */
  function WrapI32(x: int): (r: i32)
    ensures -0x8000_0000 <= x < 0x8000_0000 ==> r == x
    ensures (r - x) % 0x1_0000_0000 == 0
  {
    var m := x % 0x1_0000_0000;
    if m < 0x8000_0000 then m else m - 0x1_0000_0000
  }

  /** The pixbuf row stride: four bytes per pixel, computed in `i32`. */
  function Rowstride(width: i32): (r: i32)
    ensures -0x2000_0000 <= width < 0x2000_0000 ==> r == width * 4
    ensures (r - width * 4) % 0x1_0000_0000 == 0
  {
    WrapI32(width * 4)
  }

  /** Each complete 4-byte group [a, r, g, b] becomes [r, g, b, a]; trailing bytes are dropped. */
  function ArgbToRgba(data: seq<byte>): (r: seq<byte>)
    ensures |r| == 4 * (|data| / 4)
  {
    if |data| < 4 then [] else [data[1], data[2], data[3], data[0]] + ArgbToRgba(data[4..])
  }

  /** The reverse rotation, [r, g, b, a] back to [a, r, g, b]. */
  function RgbaToArgb(data: seq<byte>): (r: seq<byte>)
    ensures |r| == 4 * (|data| / 4)
  {
    if |data| < 4 then [] else [data[3], data[0], data[1], data[2]] + RgbaToArgb(data[4..])
  }

  /** The conversion loses nothing but the trailing partial group. */
  lemma {:induction false} ArgbRoundTrip(data: seq<byte>)
    ensures RgbaToArgb(ArgbToRgba(data)) == data[..4 * (|data| / 4)]
  {
    if |data| >= 4 {
      var r := ArgbToRgba(data);
      assert r[4..] == ArgbToRgba(data[4..]);
      ArgbRoundTrip(data[4..]);
      assert data[..4 * (|data| / 4)] == data[..4] + data[4..][..4 * (|data[4..]| / 4)];
    }
  }

  /** Pixel k of the output is pixel k of the input with alpha moved last. */
  lemma {:induction false} ArgbToRgbaPixel(data: seq<byte>, k: nat)
    requires k < |data| / 4
    ensures ArgbToRgba(data)[4 * k..4 * k + 4] == [data[4 * k + 1], data[4 * k + 2], data[4 * k + 3], data[4 * k]]
  {
    if k > 0 {
      ArgbToRgbaPixel(data[4..], k - 1);
      assert ArgbToRgba(data)[4..] == ArgbToRgba(data[4..]);
    }
  }

  /** The big-endian `u32` of four bytes, as `u32::from_be_bytes`. */
  function FromBeBytes(b0: byte, b1: byte, b2: byte, b3: byte): nat {
    b0 * 0x100_0000 + b1 * 0x1_0000 + b2 * 0x100 + b3
  }

  /** Shifting and masking the packed word gives back the four bytes. */
  lemma UnpackBeBytes(b0: byte, b1: byte, b2: byte, b3: byte)
    ensures var argb := FromBeBytes(b0, b1, b2, b3);
            && (argb / 0x100_0000) % 0x100 == b0
            && (argb / 0x1_0000) % 0x100 == b1
            && (argb / 0x100) % 0x100 == b2
            && argb % 0x100 == b3
  {
    var argb := FromBeBytes(b0, b1, b2, b3);
    assert argb / 0x100 == b0 * 0x1_0000 + b1 * 0x100 + b2;
    assert argb / 0x1_0000 == b0 * 0x100 + b1;
    assert argb / 0x100_0000 == b0;
  }

  /** The conversion loop over `chunks_exact(4)`: unpack the word, append [r, g, b, a]. */
  method ConvertPixels(data: seq<byte>) returns (rgba: seq<byte>)
    ensures rgba == ArgbToRgba(data)
  {
    rgba := [];
    var i := 0;
    while i + 4 <= |data|
      invariant i <= |data|
      invariant rgba + ArgbToRgba(data[i..]) == ArgbToRgba(data)
    {
      var argb := FromBeBytes(data[i], data[i + 1], data[i + 2], data[i + 3]);
      UnpackBeBytes(data[i], data[i + 1], data[i + 2], data[i + 3]);
      var a: byte := (argb / 0x100_0000) % 0x100;
      var r: byte := (argb / 0x1_0000) % 0x100;
      var g: byte := (argb / 0x100) % 0x100;
      var b: byte := argb % 0x100;
      assert data[i..][4..] == data[i + 4..];
      rgba := rgba + [r, g, b, a];
      i := i + 4;
    }
  }

  predicate NonEmptyName(iconName: Option<string>) { iconName.Some? && iconName.value != "" }

  predicate HasPixmap(iconPixmap: Option<seq<IconPixmap>>) { iconPixmap.Some? && |iconPixmap.value| > 0 }

  /** The image built from the first pixmap only. */
  function PixmapImage(p: IconPixmap): ButtonImage {
    PixbufImage(p.width, p.height, Rowstride(p.width), ArgbToRgba(p.pixels))
  }

  /**
   * Icon priority: a non-empty icon name, else the first pixmap of a non-empty
   * list, else no image.
   */
  function ButtonIconFor(iconName: Option<string>, iconPixmap: Option<seq<IconPixmap>>): (r: Option<ButtonImage>)
    ensures NonEmptyName(iconName) ==> r == Some(NamedImage(iconName.value))
    ensures !NonEmptyName(iconName) && HasPixmap(iconPixmap) ==> r == Some(PixmapImage(iconPixmap.value[0]))
    ensures r.None? <==> !NonEmptyName(iconName) && !HasPixmap(iconPixmap)
  {
    if NonEmptyName(iconName) then Some(NamedImage(iconName.value))
    else if HasPixmap(iconPixmap) then Some(PixmapImage(iconPixmap.value[0]))
    else None
  }

  /** `create_button_icon`. */
  method CreateButtonIcon(iconName: Option<string>, iconPixmap: Option<seq<IconPixmap>>) returns (image: Option<ButtonImage>)
    ensures image == ButtonIconFor(iconName, iconPixmap)
  {
    if iconName.Some? && iconName.value != "" {
      return Some(NamedImage(iconName.value));
    }
    if iconPixmap.Some? && |iconPixmap.value| > 0 {
      var pixels := iconPixmap.value[0];
      var rgba := ConvertPixels(pixels.pixels);
      return Some(PixbufImage(pixels.width, pixels.height, Rowstride(pixels.width), rgba));
    }
    return None;
  }

  /** The button's child after `set_button_icon`: the image, or an empty text label. */
  function FaceFor(iconName: Option<string>, iconPixmap: Option<seq<IconPixmap>>): (r: ButtonFace)
    ensures r.TextLabel? <==> ButtonIconFor(iconName, iconPixmap).None?
    ensures r.TextLabel? ==> r.text == ""
    ensures r.ImageChild? ==> ButtonIconFor(iconName, iconPixmap) == Some(r.image)
  {
    match ButtonIconFor(iconName, iconPixmap)
    case Some(image) => ImageChild(image)
    case None => TextLabel("")
  }

  /** `set_button_icon`. */
  method SetButtonIcon(iconName: Option<string>, iconPixmap: Option<seq<IconPixmap>>) returns (face: ButtonFace)
    ensures face == FaceFor(iconName, iconPixmap)
  {
    var image := CreateButtonIcon(iconName, iconPixmap);
    match image
    case Some(img) => face := ImageChild(img);
    case None => face := TextLabel("");
  }

  /** The text a tooltip leads with: the tooltip's title when there is a tooltip, else `title`, else "". */
  function ChosenText(tooltip: Option<Tooltip>, title: Option<string>): string {
    if tooltip.Some? then tooltip.value.title else title.GetOr("")
  }

  /**
   * `set_tooltip`: the chosen text, followed by a newline and the description
   * when both are non-empty.
   */
  function TooltipText(tooltip: Option<Tooltip>, title: Option<string>): (r: string)
    ensures var text := ChosenText(tooltip, title);
            var description := if tooltip.Some? then tooltip.value.description else "";
            && |r| >= |text| && r[..|text|] == text
            && (r == text <==> description == "" || text == "")
            && (r != text ==> r == text + "\n" + description)
  {
    var description := if tooltip.Some? then tooltip.value.description else "";
    var finalText := ChosenText(tooltip, title);
    if description != "" && finalText != "" then finalText + "\n" + description else finalText
  }

  /** With a tooltip present, the `title` argument plays no part. */
  lemma TooltipIgnoresTitle(t: Tooltip, a: Option<string>, b: Option<string>)
    ensures TooltipText(Some(t), a) == TooltipText(Some(t), b)
  {
  }

  /** The view of a freshly created tray button: the item's icon, and its title or "Unknown" as tooltip fallback. */
  function TrayButtonView(item: StatusNotifierItem): ButtonView {
    ButtonView(FaceFor(item.iconName, item.iconPixmap),
               TooltipText(item.toolTip, Some(item.title.GetOr(UnknownTitle))))
  }

  /** The view after an update re-applies the stored item: the same, but with no "Unknown" fallback. */
  function RefreshedView(item: StatusNotifierItem): ButtonView {
    ButtonView(FaceFor(item.iconName, item.iconPixmap), TooltipText(item.toolTip, item.title))
  }

  /** `create_tray_button`: icon and tooltip (the click handlers are `LeftClick` and `RightClick`). */
  method CreateTrayButton(item: StatusNotifierItem, serviceKey: string) returns (view: ButtonView)
    ensures view == TrayButtonView(item)
    ensures item.toolTip.None? ==> view.tooltip == item.title.GetOr(UnknownTitle)
  {
    var title := if item.title.Some? then item.title.value else UnknownTitle;
    var face := SetButtonIcon(item.iconName, item.iconPixmap);
    view := ButtonView(face, TooltipText(item.toolTip, Some(title)));
  }

  /**
   * Re-applying an item to its button changes what the button shows exactly
   * when the item has neither tooltip nor title: the "Unknown" fallback of
   * creation becomes an empty tooltip.
   */
  lemma RefreshChangesOnlyUntitled(item: StatusNotifierItem)
    ensures RefreshedView(item) != TrayButtonView(item) <==> item.toolTip.None? && item.title.None?
    ensures item.toolTip.None? && item.title.None? ==>
              TrayButtonView(item).tooltip == UnknownTitle && RefreshedView(item).tooltip == ""
  {
    if item.toolTip.None? && item.title.None? {
      assert TrayButtonView(item).tooltip == UnknownTitle;
      assert RefreshedView(item).tooltip == "";
    }
  }

  /** A left click, while the tray widget is alive, activates the item by service key at (0, 0). */
  function LeftClick(widgetAlive: bool, serviceKey: string): (r: ClickEffect)
    ensures widgetAlive <==> r.Activate?
    ensures r.Activate? ==> r.request == Default(serviceKey, 0, 0)
  {
    if widgetAlive then Activate(Default(serviceKey, 0, 0)) else NoEffect
  }

  /**
   * A right click shows the manual popover stored for the key, else the popover
   * menu, else activates the item by service key; nothing when the widget is gone.
   */
  function RightClick(widgetAlive: bool, hasManualPopover: bool, hasPopoverMenu: bool, serviceKey: string): (r: ClickEffect)
    ensures !widgetAlive <==> r.NoEffect?
    ensures widgetAlive && hasManualPopover ==> r.PopupManualPopover?
    ensures r.PopupPopoverMenu? <==> widgetAlive && !hasManualPopover && hasPopoverMenu
    ensures r.Activate? <==> widgetAlive && !hasManualPopover && !hasPopoverMenu
    ensures r.Activate? ==> r.request == Default(serviceKey, 0, 0)
  {
    if !widgetAlive then NoEffect
    else if hasManualPopover then PopupManualPopover
    else if hasPopoverMenu then PopupPopoverMenu
    else Activate(Default(serviceKey, 0, 0))
  }
}
