/**
 * The selection and open-key state of the menu component as a value, and its transitions:
 * `updateMenu` (src/components/menu/menu.js:175-185), `getSelectedKey` (186-191), the
 * `collapsed` watcher (92-99) and the `select` / `update:openKeys` handlers (204-210).
 */
module SelectionSync {
  import opened Wrappers

  /** A matched route record: its path, `meta.invisible`, and its parent record, if any. */
  datatype RouteRecord = RouteRecord(path: string, invisible: bool, parent: Option<RouteRecord>)

  /** The component fields the transitions read and write. */
  datatype MenuState = MenuState(
    selectedKeys: seq<string>,
    sOpenKeys: seq<string>,
    cachedOpenKeys: seq<string>,
    collapsed: bool,
    mode: string)

  /** `getSelectedKey`: climb past invisible records that have a parent. */
  function SelectedKey(route: RouteRecord): string
    decreases route
  {
    if route.invisible && route.parent.Some? then SelectedKey(route.parent.value) else route.path
  }

  /** The record followed by its parent chain, up to the root record. */
  function Ancestry(route: RouteRecord): (c: seq<RouteRecord>)
    ensures |c| > 0 && c[0] == route
    ensures c[|c| - 1].parent.None?
    decreases route
  {
    if route.parent.None? then [route] else [route] + Ancestry(route.parent.value)
  }

  /** A record where the climb stops: visible, or without a parent. */
  predicate Settled(route: RouteRecord)
  {
    !route.invisible || route.parent.None?
  }

  /** Position `j` of the chain `c` is its first settled record. */
  predicate FirstSettledAt(c: seq<RouteRecord>, j: int)
  {
    0 <= j < |c| && Settled(c[j]) && forall i :: 0 <= i < j ==> !Settled(c[i])
  }

  /** The selected key is the path of the first settled record of the ancestry. */
  lemma {:induction false} SelectedKeyIsFirstSettled(route: RouteRecord)
    ensures exists j :: FirstSettledAt(Ancestry(route), j) && SelectedKey(route) == Ancestry(route)[j].path
    decreases route
  {
    var c := Ancestry(route);
    if Settled(route) {
      assert FirstSettledAt(c, 0) && SelectedKey(route) == c[0].path;
    } else {
      var up := route.parent.value;
      SelectedKeyIsFirstSettled(up);
      var j :| FirstSettledAt(Ancestry(up), j) && SelectedKey(up) == Ancestry(up)[j].path;
      assert c == [route] + Ancestry(up);
      assert c[j + 1] == Ancestry(up)[j];
      forall i | 0 <= i < j + 1 ensures !Settled(c[i]) {
        if i > 0 { assert c[i] == Ancestry(up)[i - 1]; }
      }
      assert FirstSettledAt(c, j + 1);
    }
  }

  /** `matched.filter(item => item.path !== '')`. */
  function MenuRoutes(matched: seq<RouteRecord>): (rs: seq<RouteRecord>)
    ensures |rs| <= |matched|
    ensures forall r :: r in rs <==> r in matched && r.path != ""
  {
    if matched == [] then []
    else if matched[0].path != "" then [matched[0]] + MenuRoutes(matched[1..])
    else MenuRoutes(matched[1..])
  }

  /** `updateMenu` needs a record left after the filter: `route.meta` of `undefined` throws. */
  predicate CanUpdate(matched: seq<RouteRecord>)
  {
    MenuRoutes(matched) != []
  }

  /** The active route: the last record that survives the filter (`pop()`). */
  function ActiveRoute(matched: seq<RouteRecord>): RouteRecord
    requires CanUpdate(matched)
  {
    var rs := MenuRoutes(matched);
    rs[|rs| - 1]
  }

  function Paths(rs: seq<RouteRecord>): (ps: seq<string>)
    ensures |ps| == |rs|
    ensures forall i :: 0 <= i < |rs| ==> ps[i] == rs[i].path
  {
    if rs == [] then [] else [rs[0].path] + Paths(rs[1..])
  }

  /** The open keys `updateMenu` computes: the paths of the records left after `pop()`. */
  function NewOpenKeys(matched: seq<RouteRecord>): seq<string>
    requires CanUpdate(matched)
  {
    var rs := MenuRoutes(matched);
    Paths(rs[..|rs| - 1])
  }

  /** Fresh open keys are stashed while the menu is collapsed or laid out horizontally. */
  predicate Caching(s: MenuState)
  {
    s.collapsed || s.mode == "horizontal"
  }

  /** `updateMenu`, on a route change or at creation. */
  function RouteChanged(s: MenuState, matched: seq<RouteRecord>): MenuState
    requires CanUpdate(matched)
  {
    var route := ActiveRoute(matched);
    var selected := if |s.selectedKeys| == 0 || route.invisible then [SelectedKey(route)] else s.selectedKeys;
    var openKeys := NewOpenKeys(matched);
    if openKeys == s.sOpenKeys then s.(selectedKeys := selected)
    else if Caching(s) then s.(selectedKeys := selected, cachedOpenKeys := openKeys)
    else s.(selectedKeys := selected, sOpenKeys := openKeys)
  }

  /** The `collapsed` prop set to `val`; its watcher runs only when the value changes. */
  function CollapsedChanged(s: MenuState, val: bool): MenuState
  {
    if val == s.collapsed then s
    else if val then s.(collapsed := true, cachedOpenKeys := s.sOpenKeys, sOpenKeys := [])
    else s.(collapsed := false, sOpenKeys := s.cachedOpenKeys)
  }

  /** The `select` handler: the widget's reported selection becomes `selectedKeys`. */
  function Selected(s: MenuState, keys: seq<string>): MenuState
  {
    s.(selectedKeys := keys)
  }

  /** The `update:openKeys` handler: the widget's reported open keys become `sOpenKeys`. */
  function OpenKeysUpdated(s: MenuState, val: seq<string>): MenuState
  {
    s.(sOpenKeys := val)
  }

  /** The open keys handed to the widget: the `openKeys` prop when given, else `sOpenKeys`. */
  function DisplayedOpenKeys(s: MenuState, openKeysProp: Option<seq<string>>): seq<string>
  {
    if openKeysProp.Some? then openKeysProp.value else s.sOpenKeys
  }

  /** The filter of one record keeps it exactly when its path is non-empty. */
  lemma MenuRoutesSingle(r: RouteRecord)
    ensures MenuRoutes([r]) == if r.path != "" then [r] else []
  {
    assert [r][1..] == [];
  }

  /** The filter distributes over concatenation, so it keeps order and repeats. */
  lemma {:induction false} MenuRoutesAppend(a: seq<RouteRecord>, b: seq<RouteRecord>)
    ensures MenuRoutes(a + b) == MenuRoutes(a) + MenuRoutes(b)
    decreases a
  {
    if a != [] {
      assert (a + b)[0] == a[0];
      assert (a + b)[1..] == a[1..] + b;
      MenuRoutesAppend(a[1..], b);
    } else {
      assert a + b == b;
    }
  }

  /** Position `k` holds the last record of `matched` whose path is non-empty. */
  predicate LastNonEmptyAt(matched: seq<RouteRecord>, k: int)
  {
    0 <= k < |matched| && matched[k].path != "" &&
    forall j :: k < j < |matched| ==> matched[j].path == ""
  }

  /** The active route is the last record of the whole chain whose path is non-empty. */
  lemma {:induction false} ActiveRouteIsLastNonEmpty(matched: seq<RouteRecord>)
    requires CanUpdate(matched)
    ensures exists k :: LastNonEmptyAt(matched, k) && matched[k] == ActiveRoute(matched)
    decreases |matched|
  {
    var n := |matched|;
    var init, last := matched[..n - 1], matched[n - 1];
    assert matched == init + [last];
    MenuRoutesAppend(init, [last]);
    MenuRoutesSingle(last);
    if last.path != "" {
      assert LastNonEmptyAt(matched, n - 1);
    } else {
      assert MenuRoutes(matched) == MenuRoutes(init);
      ActiveRouteIsLastNonEmpty(init);
      var k :| LastNonEmptyAt(init, k) && init[k] == ActiveRoute(init);
      assert matched[k] == init[k];
      forall j | k < j < n ensures matched[j].path == "" {
        if j < n - 1 { assert matched[j] == init[j]; }
      }
      assert LastNonEmptyAt(matched, k);
    }
  }

  /** The paths of the filtered chain are the open keys followed by the active route's path,
      and no open key is empty. */
  lemma {:induction false} MenuRoutesOrdered(matched: seq<RouteRecord>)
    requires CanUpdate(matched)
    ensures NewOpenKeys(matched) + [ActiveRoute(matched).path] == Paths(MenuRoutes(matched))
    ensures forall k :: k in NewOpenKeys(matched) ==> k != ""
  {
    var rs := MenuRoutes(matched);
    assert rs == rs[..|rs| - 1] + [rs[|rs| - 1]];
    forall k | k in NewOpenKeys(matched) ensures k != "" {
      var i :| 0 <= i < |rs| - 1 && NewOpenKeys(matched)[i] == k;
      assert rs[i] in rs;
    }
  }

  /** After a route change the selection is never empty. */
  lemma RouteChangedSelects(s: MenuState, matched: seq<RouteRecord>)
    requires CanUpdate(matched)
    ensures RouteChanged(s, matched).selectedKeys != []
    ensures |s.selectedKeys| == 0 || ActiveRoute(matched).invisible ==>
      RouteChanged(s, matched).selectedKeys == [SelectedKey(ActiveRoute(matched))]
  {
  }

  /** A non-empty selection is kept when the new active route is visible, even if it maps
      to another key. */
  lemma RouteChangedKeepsSelection(s: MenuState, matched: seq<RouteRecord>)
    requires CanUpdate(matched)
    requires s.selectedKeys != [] && !ActiveRoute(matched).invisible
    ensures RouteChanged(s, matched).selectedKeys == s.selectedKeys
  {
  }

  /** Expanded and vertical: the open keys follow the route, the cache is untouched. */
  lemma RouteChangedLive(s: MenuState, matched: seq<RouteRecord>)
    requires CanUpdate(matched)
    requires !Caching(s)
    ensures RouteChanged(s, matched).sOpenKeys == NewOpenKeys(matched)
    ensures RouteChanged(s, matched).cachedOpenKeys == s.cachedOpenKeys
  {
  }

  /** Collapsed or horizontal: the live open keys are untouched, and the fresh ones are stashed
      unless they already equal the live ones. */
  lemma RouteChangedCaching(s: MenuState, matched: seq<RouteRecord>)
    requires CanUpdate(matched)
    requires Caching(s)
    ensures RouteChanged(s, matched).sOpenKeys == s.sOpenKeys
    ensures RouteChanged(s, matched).cachedOpenKeys ==
      if NewOpenKeys(matched) == s.sOpenKeys then s.cachedOpenKeys else NewOpenKeys(matched)
  {
  }

  /** A route change never touches `collapsed` or `mode`. */
  lemma RouteChangedFrame(s: MenuState, matched: seq<RouteRecord>)
    requires CanUpdate(matched)
    ensures RouteChanged(s, matched).collapsed == s.collapsed
    ensures RouteChanged(s, matched).mode == s.mode
  {
  }

  /** Handling the same route twice is the same as handling it once. */
  lemma RouteChangedIdempotent(s: MenuState, matched: seq<RouteRecord>)
    requires CanUpdate(matched)
    ensures RouteChanged(RouteChanged(s, matched), matched) == RouteChanged(s, matched)
  {
  }

  /** Collapsing stashes the open keys and closes every submenu. */
  lemma CollapseStashes(s: MenuState)
    requires !s.collapsed
    ensures CollapsedChanged(s, true).sOpenKeys == []
    ensures CollapsedChanged(s, true).cachedOpenKeys == s.sOpenKeys
    ensures CollapsedChanged(s, true).collapsed
  {
  }

  /** A collapse followed by an expand restores the open keys. */
  lemma CollapseExpandRoundTrip(s: MenuState)
    requires !s.collapsed
    ensures CollapsedChanged(CollapsedChanged(s, true), false).sOpenKeys == s.sOpenKeys
    ensures CollapsedChanged(CollapsedChanged(s, true), false).collapsed == s.collapsed
    ensures CollapsedChanged(CollapsedChanged(s, true), false).selectedKeys == s.selectedKeys
  {
  }

  /** Navigating while collapsed and then expanding opens the new route's ancestors, except
      when the route is top-level: the new open keys then equal the (emptied) live ones, are
      not stashed, and the expand restores the keys cached before the navigation. */
  lemma CollapsedNavigationThenExpand(s: MenuState, matched: seq<RouteRecord>)
    requires CanUpdate(matched)
    requires s.collapsed && s.sOpenKeys == []
    ensures CollapsedChanged(RouteChanged(s, matched), false).sOpenKeys ==
      if NewOpenKeys(matched) == [] then s.cachedOpenKeys else NewOpenKeys(matched)
  {
  }

  /** The `select` and `update:openKeys` handlers change only their own field. */
  lemma HandlersFrame(s: MenuState, keys: seq<string>, val: seq<string>)
    ensures Selected(s, keys).selectedKeys == keys
    ensures Selected(s, keys).(selectedKeys := s.selectedKeys) == s
    ensures OpenKeysUpdated(s, val).sOpenKeys == val
    ensures OpenKeysUpdated(s, val).(sOpenKeys := s.sOpenKeys) == s
  {
  }

  /** The `openKeys` prop, when given, wins over the internal open keys. */
  lemma DisplayedOpenKeysRule(s: MenuState, openKeysProp: Option<seq<string>>)
    ensures openKeysProp.Some? ==> DisplayedOpenKeys(s, openKeysProp) == openKeysProp.value
    ensures openKeysProp.None? ==> DisplayedOpenKeys(s, openKeysProp) == s.sOpenKeys
  {
  }

  /** The example chain `/a` then an invisible `/a/b` below it selects `/a`. */
  lemma InvisibleActiveRouteSelectsParent()
    ensures var a := RouteRecord("/a", false, None);
            var b := RouteRecord("/a/b", true, Some(a));
            ActiveRoute([a, b]) == b && SelectedKey(b) == "/a" && NewOpenKeys([a, b]) == ["/a"]
  {
    var a := RouteRecord("/a", false, None);
    var b := RouteRecord("/a/b", true, Some(a));
    assert MenuRoutes([a, b]) == [a, b] by {
      assert [a, b][1..] == [b];
      assert MenuRoutes([b]) == [b] by { assert [b][1..] == []; }
    }
  }
}
