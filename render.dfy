/**
 * The render-form decision of the menu component (src/components/menu/menu.js:74-76, 109-165),
 * with the UI widgets replaced by an abstract `Rendered` tree.
 */
module Render {
  import opened Wrappers
  import opened MenuTree

  /** What one node renders to. `key` is the node's `fullPath` (also the link target and the
      source of the label); `icon` is the icon type, if one is drawn. A submenu's title
      (icon and label) precedes its items. */
  datatype Rendered =
    | Nothing
    | Item(key: Option<string>, icon: Option<string>)
    | Sub(key: Option<string>, icon: Option<string>, items: seq<Rendered>)

  /** `renderIcon`: no icon for a falsy name (absent or `''`) or for `'none'`. */
  function RenderIcon(icon: Option<string>): (r: Option<string>)
    ensures r.None? <==> icon.None? || icon.value in {"", "none"}
    ensures r.Some? ==> r == icon
  {
    if icon.None? || icon.value == "" || icon.value == "none" then None else icon
  }

  /** `menuTheme`: `'light'` is kept, every other value becomes `'dark'`. */
  function MenuTheme(theme: string): (r: string)
    ensures r == "light" <==> theme == "light"
    ensures r == "light" || r == "dark"
  {
    if theme == "light" then theme else "dark"
  }

  /** Some direct child is visible (one level only, as in `renderItem`). */
  predicate SomeVisible(cs: seq<MenuNode>)
  {
    exists i :: 0 <= i < |cs| && Visible(cs[i])
  }

  /** The condition `menu.children && renderChildren`. */
  predicate RendersAsSub(n: MenuNode)
  {
    n.children.Present? && SomeVisible(n.children.nodes)
  }

  /** The render-form decision of `renderItem`. */
  function Form(n: MenuNode): Rendered
  {
    if !Visible(n) then Nothing
    else if RendersAsSub(n) then Sub(n.fullPath, RenderIcon(IconOf(n)), Forms(n.children.nodes))
    else Item(n.fullPath, RenderIcon(IconOf(n)))
  }

  /** One entry per node, in order. */
  function Forms(ns: seq<MenuNode>): seq<Rendered>
  {
    seq(|ns|, i requires 0 <= i < |ns| => Form(ns[i]))
  }

  /** The scan of `renderItem` over the children, stopping at the first visible one. */
  method HasVisibleChild(children: seq<MenuNode>) returns (renderChildren: bool)
    ensures renderChildren == SomeVisible(children)
  {
    renderChildren := false;
    var i := 0;
    while i < |children|
      invariant 0 <= i <= |children|
      invariant !renderChildren
      invariant forall j :: 0 <= j < i ==> !Visible(children[j])
    {
      var childMeta := children[i].meta;
      if childMeta.None? || !childMeta.value.invisible {
        renderChildren := true;
        return;
      }
      i := i + 1;
    }
  }

  /** `renderItem`: nothing for an invisible node, a submenu when some direct child is
      visible, a leaf item (`renderMenuItem`) otherwise. */
  method RenderItem(menu: MenuNode) returns (r: Rendered)
    ensures r == Form(menu)
    decreases menu, 1
  {
    var meta := menu.meta;
    if meta.None? || !meta.value.invisible {
      var renderChildren := false;
      if menu.children.Present? {
        renderChildren := HasVisibleChild(menu.children.nodes);
      }
      if menu.children.Present? && renderChildren {
        r := RenderSubMenu(menu);
      } else {
        r := Item(menu.fullPath, RenderIcon(IconOf(menu)));
      }
    } else {
      r := Nothing;
    }
  }

  /** `renderSubMenu`: the title, then one rendered entry per child pushed in order. */
  method RenderSubMenu(menu: MenuNode) returns (r: Rendered)
    requires menu.children.Present?
    ensures r == Sub(menu.fullPath, RenderIcon(IconOf(menu)), Forms(menu.children.nodes))
    decreases menu, 0
  {
    var children := menu.children.nodes;
    var itemArr: seq<Rendered> := [];
    var i := 0;
    while i < |children|
      invariant 0 <= i <= |children|
      invariant itemArr == Forms(children[..i])
    {
      var item := RenderItem(children[i]);
      itemArr := itemArr + [item];
      i := i + 1;
    }
    assert children[..i] == children;
    r := Sub(menu.fullPath, RenderIcon(IconOf(menu)), itemArr);
  }

  /** `renderMenu`: one rendered entry per top-level node, pushed in order. */
  method RenderMenu(menuTree: seq<MenuNode>) returns (menuArr: seq<Rendered>)
    ensures |menuArr| == |menuTree|
    ensures forall i :: 0 <= i < |menuTree| ==> menuArr[i] == Form(menuTree[i])
  {
    menuArr := [];
    var i := 0;
    while i < |menuTree|
      invariant 0 <= i <= |menuTree|
      invariant |menuArr| == i
      invariant forall j :: 0 <= j < i ==> menuArr[j] == Form(menuTree[j])
    {
      var item := RenderItem(menuTree[i]);
      menuArr := menuArr + [item];
      i := i + 1;
    }
  }

  /** The keys drawn anywhere in a rendered forest. */
  function RenderedKeys(rs: seq<Rendered>): set<Option<string>>
  {
    if rs == [] then {} else KeysOf(rs[0]) + RenderedKeys(rs[1..])
  }

  function KeysOf(r: Rendered): set<Option<string>>
  {
    match r
    case Nothing => {}
    case Item(k, _) => {k}
    case Sub(k, _, items) => {k} + RenderedKeys(items)
  }

  /** The full paths of the nodes that are visible and whose ancestors are all visible. */
  function ShownPaths(ns: seq<MenuNode>): set<Option<string>>
  {
    if ns == [] then {} else NodeShownPaths(ns[0]) + ShownPaths(ns[1..])
  }

  function NodeShownPaths(n: MenuNode): set<Option<string>>
  {
    if !Visible(n) then {}
    else {n.fullPath} + match n.children
                        case Absent => {}
                        case Present(cs) => ShownPaths(cs)
  }

  /** The three render forms of a node, and the key each one carries. */
  lemma FormCases(n: MenuNode)
    ensures Form(n).Nothing? <==> !Visible(n)
    ensures Form(n).Sub? <==> Visible(n) && n.children.Present? && SomeVisible(n.children.nodes)
    ensures Form(n).Item? <==> Visible(n) && (n.children.Absent? || !SomeVisible(n.children.nodes))
    ensures !Form(n).Nothing? ==> Form(n).key == n.fullPath
    ensures Form(n).Sub? ==> |Form(n).items| == |n.children.nodes|
  {
  }

  /** A visible node whose children are all invisible (or who has none) falls back to a leaf
      keyed by its own full path, whatever its grandchildren are. */
  lemma AllInvisibleChildrenGiveItem(n: MenuNode)
    requires Visible(n)
    requires n.children.Present?
    requires forall i :: 0 <= i < |n.children.nodes| ==> !Visible(n.children.nodes[i])
    ensures Form(n) == Item(n.fullPath, RenderIcon(IconOf(n)))
  {
  }

  /** An invisible child does not count toward its parent's submenu decision. */
  lemma {:induction false} InvisibleChildIgnored(cs: seq<MenuNode>, k: nat, c: MenuNode)
    requires k <= |cs|
    requires !Visible(c)
    ensures SomeVisible(cs[..k] + [c] + cs[k..]) == SomeVisible(cs)
  {
    var ds := cs[..k] + [c] + cs[k..];
    if SomeVisible(cs) {
      var i :| 0 <= i < |cs| && Visible(cs[i]);
      if i < k { assert ds[i] == cs[i]; } else { assert ds[i + 1] == cs[i]; }
    }
    if SomeVisible(ds) {
      var i :| 0 <= i < |ds| && Visible(ds[i]);
      if i < k { assert cs[i] == ds[i]; } else { assert i != k; assert cs[i - 1] == ds[i]; }
    }
  }

  /** A node with no meta never draws an icon. */
  lemma NoMetaNoIcon(n: MenuNode)
    requires n.meta.None?
    ensures !Form(n).Nothing? && Form(n).icon.None?
  {
  }

  /** A node draws an icon exactly when its meta names one other than `''` and `'none'`,
      and then it is that icon. */
  lemma IconRule(n: MenuNode)
    requires Visible(n)
    ensures Form(n).icon.Some? <==>
      n.meta.Some? && n.meta.value.icon.Some? && n.meta.value.icon.value !in {"", "none"}
    ensures Form(n).icon.Some? ==> Form(n).icon == n.meta.value.icon
  {
  }

  lemma {:induction false} ShownPathsNone(ns: seq<MenuNode>)
    requires !SomeVisible(ns)
    ensures ShownPaths(ns) == {}
    decreases ns
  {
    if ns != [] {
      assert !Visible(ns[0]);
      assert !SomeVisible(ns[1..]) by {
        forall i | 0 <= i < |ns| - 1 ensures !Visible(ns[1..][i]) {
          assert ns[1..][i] == ns[i + 1];
        }
      }
      ShownPathsNone(ns[1..]);
    }
  }

  /** The keys drawn are exactly the full paths of the nodes that are visible together with
      all their ancestors: an invisible node hides itself and its whole subtree. */
  lemma {:induction false} RenderedKeysAreShownPaths(ns: seq<MenuNode>)
    ensures RenderedKeys(Forms(ns)) == ShownPaths(ns)
    decreases ns
  {
    if ns != [] {
      assert Forms(ns)[0] == Form(ns[0]);
      assert Forms(ns)[1..] == Forms(ns[1..]);
      NodeKeysAreShownPaths(ns[0]);
      RenderedKeysAreShownPaths(ns[1..]);
    }
  }

  lemma {:induction false} NodeKeysAreShownPaths(n: MenuNode)
    ensures KeysOf(Form(n)) == NodeShownPaths(n)
    decreases n
  {
    if Visible(n) {
      match n.children
      case Absent =>
      case Present(cs) =>
        if SomeVisible(cs) {
          RenderedKeysAreShownPaths(cs);
        } else {
          ShownPathsNone(cs);
        }
    }
  }
}
