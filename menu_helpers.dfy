/** Icon attribute selection for entries of a menu model. */
module MenuHelpers {
  import opened Wrappers
  import opened TrayTypes

  /** The icon object built from PNG bytes; it keeps the bytes as they are. */
  datatype BytesIcon = BytesIcon(bytes: seq<byte>)

  /** Wrapping the bytes never fails, so the result is always `Ok`. */
  function CreateIconFromData(iconData: seq<byte>): (r: Result<BytesIcon, string>)
    ensures r.Ok? && r.value.bytes == iconData
  {
    Ok(BytesIcon(iconData))
  }

  /**
   * The value given to the entry's "icon" attribute, or None when the attribute
   * is not set. A present icon name, even an empty one, shuts out the icon data.
   */
  function AddIconToMenuItem(item: MenuItem): (r: Option<string>)
    ensures item.iconName.Some? && item.iconName.value != "" ==> r == item.iconName
    ensures item.iconName.Some? && item.iconName.value == "" ==> r.None?
    ensures item.iconName.None? && item.iconData.Some? && item.iconData.value != [] ==>
              r == Some(GenericImageIcon)
    ensures item.iconName.None? && (item.iconData.None? || item.iconData.value == []) ==> r.None?
  {
    match item.iconName
    case Some(name) => if name != "" then Some(name) else None
    case None =>
      match item.iconData
      case Some(data) =>
        if data != [] then
          match CreateIconFromData(data)
          case Ok(_) => Some(GenericImageIcon)
          case Err(_) => None
        else None
      case None => None
  }

  /** Whatever the item, the attribute is either absent, its own non-empty icon name, or the generic image. */
  lemma IconAttributeRange(item: MenuItem)
    ensures var r := AddIconToMenuItem(item);
            r.None? || r == Some(GenericImageIcon) || (r == item.iconName && r.value != "")
  {
  }
}
