/**
 * The menu configuration tree handed to the menu component as its `options` prop
 * (src/components/menu/menu.js:1-33, 43-47). Missing properties are `None`.
 */
module MenuTree {
  import opened Wrappers

  /** `meta` of a menu node: an optional icon name and the `invisible` flag (absent reads as false). */
  datatype Meta = Meta(icon: Option<string>, invisible: bool)

  /** One menu node; `fullPath` is filled in by the path annotation pass. */
  datatype MenuNode = MenuNode(
    name: string,
    path: string,
    meta: Option<Meta>,
    fullPath: Option<string>,
    children: Children)

  /** The `children` property: absent, or an ordered (possibly empty) array of nodes. */
  datatype Children = Absent | Present(nodes: seq<MenuNode>)

  /** JavaScript truthiness of `node.fullPath`: both `undefined` and `''` are falsy. */
  predicate HasFullPath(n: MenuNode)
  {
    n.fullPath.Some? && n.fullPath.value != ""
  }

  /** `!meta || !meta.invisible`: a node without `meta` is visible. */
  predicate Visible(n: MenuNode)
  {
    n.meta.None? || !n.meta.value.invisible
  }

  /** The icon passed to the icon renderer: `menu.meta ? menu.meta.icon : 'none'`. */
  function IconOf(n: MenuNode): Option<string>
  {
    if n.meta.Some? then n.meta.value.icon else Some("none")
  }
}
