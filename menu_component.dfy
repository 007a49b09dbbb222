/**
 * The menu component instance (src/components/menu/menu.js:41-215): its props, its data
 * fields, the `created` hook, the watchers, the widget event handlers and `render`.
 */
module MenuComponent {
  import opened Wrappers
  import opened MenuTree
  import PathResolver
  import opened Render
  import opened SelectionSync

  /** What `render` hands to the menu widget: its props and its rendered entries. */
  datatype MenuView = MenuView(
    theme: string,
    mode: string,
    selectedKeys: seq<string>,
    openKeys: seq<string>,
    items: seq<Rendered>)

  class Menu {
    // props
    var options: seq<MenuNode>
    var theme: string
    var mode: string
    var collapsed: bool
    var openKeys: Option<seq<string>>
    // data
    var selectedKeys: seq<string>
    var sOpenKeys: seq<string>
    var cachedOpenKeys: seq<string>

    /** The fields the selection transitions act on. */
    function State(): MenuState
      reads this
    {
      MenuState(selectedKeys, sOpenKeys, cachedOpenKeys, collapsed, mode)
    }

    /** Props with their defaults (`'dark'`, `'inline'`, `false`) and empty data. */
    constructor (options: seq<MenuNode>, theme: Option<string>, mode: Option<string>,
                 collapsed: Option<bool>, openKeys: Option<seq<string>>)
      ensures this.options == options && this.openKeys == openKeys
      ensures this.theme == (if theme.Some? then theme.value else "dark")
      ensures this.mode == (if mode.Some? then mode.value else "inline")
      ensures this.collapsed == (collapsed.Some? && collapsed.value)
      ensures selectedKeys == [] && sOpenKeys == [] && cachedOpenKeys == []
    {
      this.options := options;
      this.theme := if theme.Some? then theme.value else "dark";
      this.mode := if mode.Some? then mode.value else "inline";
      this.collapsed := if collapsed.Some? then collapsed.value else false;
      this.openKeys := openKeys;
      selectedKeys, sOpenKeys, cachedOpenKeys := [], [], [];
    }

    /** The `created` hook: sync with the current route, then annotate the options once. */
    method Created(matched: seq<RouteRecord>)
      requires |options| > 0
      requires CanUpdate(matched)
      modifies this
      ensures State() == RouteChanged(old(State()), matched)
      ensures options == PathResolver.InitialOptions(old(options))
      ensures theme == old(theme) && openKeys == old(openKeys)
    {
      UpdateMenu(matched);
      if !HasFullPath(options[0]) {
        options := PathResolver.FormatOptions(options, "");
      }
    }

    /** `updateMenu`, also run by the `$route` watcher. */
    method UpdateMenu(matched: seq<RouteRecord>)
      requires CanUpdate(matched)
      modifies this
      ensures State() == RouteChanged(old(State()), matched)
      ensures options == old(options) && theme == old(theme) && openKeys == old(openKeys)
    {
      var menuRoutes := MenuRoutes(matched);
      var route := menuRoutes[|menuRoutes| - 1];
      menuRoutes := menuRoutes[..|menuRoutes| - 1];
      if |selectedKeys| == 0 || route.invisible {
        selectedKeys := [SelectedKey(route)];
      }
      var newOpenKeys := Paths(menuRoutes);
      if newOpenKeys != sOpenKeys {
        if collapsed || mode == "horizontal" {
          cachedOpenKeys := newOpenKeys;
        } else {
          sOpenKeys := newOpenKeys;
        }
      }
    }

    /** The `collapsed` prop set to `val`, with its watcher run when the value changes. */
    method SetCollapsed(val: bool)
      modifies this
      ensures State() == CollapsedChanged(old(State()), val)
      ensures options == old(options) && theme == old(theme) && openKeys == old(openKeys)
    {
      if val != collapsed {
        collapsed := val;
        if val {
          cachedOpenKeys := sOpenKeys;
          sOpenKeys := [];
        } else {
          sOpenKeys := cachedOpenKeys;
        }
      }
    }

    /** The widget's `select` event. */
    method OnSelect(keys: seq<string>)
      modifies this
      ensures State() == Selected(old(State()), keys)
      ensures options == old(options) && theme == old(theme) && openKeys == old(openKeys)
    {
      selectedKeys := keys;
    }

    /** The widget's `update:openKeys` event. */
    method OnUpdateOpenKeys(val: seq<string>)
      modifies this
      ensures State() == OpenKeysUpdated(old(State()), val)
      ensures options == old(options) && theme == old(theme) && openKeys == old(openKeys)
    {
      sOpenKeys := val;
    }

    /** `render`: the normalised theme, the mode, the selection, the displayed open keys and
        one rendered entry per top-level option. */
    method Render() returns (v: MenuView)
      ensures v.theme == MenuTheme(theme) && v.mode == mode
      ensures v.selectedKeys == selectedKeys
      ensures v.openKeys == DisplayedOpenKeys(State(), openKeys)
      ensures v.items == Forms(options)
    {
      var items := RenderMenu(options);
      v := MenuView(MenuTheme(theme), mode, selectedKeys,
                    if openKeys.Some? then openKeys.value else sOpenKeys, items);
    }
  }
}
