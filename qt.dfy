/** The Qt constants the examples use: item data roles, item flags and the
    global colours behind the swatches and status brushes. */
module Qt {

  /** `Qt.DisplayRole`: the text an item shows. */
  const DisplayRole: int := 0
  /** `Qt.DecorationRole`: the swatch an item shows. */
  const DecorationRole: int := 1
  /** `Qt.UserRole`: the first role free for application data. */
  const UserRole: int := 0x0100

  /** `Qt.ItemFlags` as a bit set. */
  type ItemFlags = bv32

  const ItemIsSelectable: ItemFlags := 0x01
  const ItemIsEditable: ItemFlags := 0x02
  const ItemIsDragEnabled: ItemFlags := 0x04
  const ItemIsDropEnabled: ItemFlags := 0x08
  const ItemIsUserCheckable: ItemFlags := 0x10
  const ItemIsEnabled: ItemFlags := 0x20

  /** The flags a new `QTreeWidgetItem` starts with. */
  const TreeItemDefaultFlags: ItemFlags :=
    ItemIsSelectable | ItemIsUserCheckable | ItemIsEnabled | ItemIsDragEnabled | ItemIsDropEnabled

  /** The `Qt.GlobalColor` values that the examples name. */
  datatype GlobalColor =
    | White | Black | Red | DarkRed | Green | DarkGreen | Blue | DarkBlue
    | Cyan | DarkCyan | Yellow | DarkGray
}
