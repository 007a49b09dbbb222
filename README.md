# Menu component model

A Dafny model of the navigation-menu component `IMenu` of an admin dashboard
(`src/components/menu/menu.js`). The component takes a tree of menu nodes (`options`),
annotates every node with its full path once, decides per node whether it is drawn as
nothing, a submenu or a leaf item, and keeps the menu's selected and open keys in sync
with the current route, the `collapsed` prop and the widget's own events.

Modules, following the component's parts:

- `Wrappers` (`wrappers.dfy`): `Option`, standing for a property that may be `undefined`.
- `MenuTree` (`menu_tree.dfy`): the menu node (`name`, `path`, `meta.icon`, `meta.invisible`,
  `fullPath`, `children`) and the visibility and icon-selection rules shared by the others.
- `PathResolver` (`path_resolver.dfy`): `formatOptions` as the method `FormatOptions`, proved
  equal to the pure annotation `AnnotateAll`, and the guard of `created` as `InitialOptions`.
  The lemmas give the path rule at every depth, that nothing but `fullPath` changes, that the
  result is the unique well-annotated tree of the same shape, idempotence, and that all full
  paths below the root `''` are absolute (so the guard skips a second pass).
- `Render` (`render.dfy`): `renderItem`, `renderSubMenu`, `renderMenu`, `renderIcon` and
  `menuTheme` over an abstract `Rendered` tree (`Nothing | Item(key, icon) | Sub(key, icon, items)`).
  The methods keep the source's loops (the `for` with `break`, the `forEach` with `push`) and
  are proved equal to the decision function `Form`. The main lemma says that the keys drawn are
  exactly the full paths of the nodes that are visible together with all their ancestors.
- `SelectionSync` (`selection_sync.dfy`): route records with a finite parent chain,
  `getSelectedKey`, and the transitions of `updateMenu`, the `collapsed` watcher, `select` and
  `update:openKeys` as functions on a `MenuState` value, with lemmas about them.
- `MenuComponent` (`menu_component.dfy`): the class `Menu` with the component's props and data
  fields; each method changes the fields as the source does and is proved to yield the state
  the matching `SelectionSync` transition gives.

Modelling choices:

- JavaScript truthiness is kept. An icon name `''` is falsy, so it draws no icon, the same as
  an absent icon or `'none'`. A `fullPath` of `''` is falsy, so the `created` guard still runs
  the pass. An empty `children` array is truthy: `formatOptions` recurses into it, and
  `renderItem` draws a leaf for it because no child is visible.
- `meta.invisible` is a boolean. A missing `meta` means visible, with icon `'none'`.
- The `collapsed` prop is set through `SetCollapsed(val)`. As with a watcher, the body runs only
  when the value actually changes.
- `fast-deep-equal` on string arrays is sequence equality.
- An empty `options` makes `created` throw (`options[0].fullPath`). So does a route chain with
  no record whose path is non-empty, since `route.meta` of `undefined` throws. Both are
  preconditions of `Created` and `UpdateMenu`.

## Model

| member | source | states |
|---|---|---|
| `MenuTree.HasFullPath` | src/components/menu/menu.js:80 | definition: `fullPath` is truthy, that is present and not `''` |
| `MenuTree.Visible` | src/components/menu/menu.js:143 | definition: the node has no meta, or its meta is not invisible (the same test is applied to children at line 149) |
| `MenuTree.IconOf` | src/components/menu/menu.js:118 | definition: the meta's icon when meta is present, else `'none'` (the same expression is at line 129) |
| `PathResolver.FirstChar` | src/components/menu/menu.js:168 | definition: `substring(0, 1)`, the first character or `''` for the empty path |
| `PathResolver.Annotate` | src/components/menu/menu.js:167-172 | definition: the node with `fullPath` resolved against the parent path and present children annotated against it |
| `PathResolver.AnnotateAll` | src/components/menu/menu.js:166-174 | definition: each node annotated against the same parent path, in order (characterised by the `AnnotateAll*` lemmas) |
| `PathResolver.InitialOptions` | src/components/menu/menu.js:80-82 | definition: the options annotated from root `''` unless the first node already has a truthy `fullPath` |
| `PathResolver.ResolvePath` | src/components/menu/menu.js:168-169 | an absolute path (first character `/`) is kept verbatim, otherwise the result is `parentPath + '/' + path`; under an empty or absolute parent the result is absolute |
| `PathResolver.FormatOptions` | src/components/menu/menu.js:166-174 | the `forEach` with recursion into present children returns exactly the annotated tree `AnnotateAll(options, parentPath)` |
| `PathResolver.AnnotateAllWellAnnotated` | src/components/menu/menu.js:166-174 | after the pass every node at every depth has `fullPath` given by the path rule, and children are resolved against their parent's `fullPath` |
| `PathResolver.AnnotateAllPreservesShape` | src/components/menu/menu.js:166-174 | the pass changes nothing but `fullPath`: names, paths, meta, children presence, child order and tree shape are kept |
| `PathResolver.AnnotateAllUnique` | src/components/menu/menu.js:166-174 | any well-annotated tree with the same shape is the pass's result: the annotation depends only on the paths and the root path |
| `PathResolver.AnnotateAllIdempotent` | src/components/menu/menu.js:166-174 | running the pass twice gives the same tree as running it once |
| `PathResolver.AnnotateAllFixpoint` | src/components/menu/menu.js:166-174 | the pass leaves a tree unchanged if and only if the tree is already well annotated |
| `PathResolver.WellAnnotatedAbsolute` | src/components/menu/menu.js:168-171 | in a tree well annotated below `''` or an absolute path, every `fullPath` at every depth is present and starts with `/` |
| `PathResolver.InitialOptionsAbsolute` | src/components/menu/menu.js:80-82 | when the guard lets the pass run from root `''`, every resulting `fullPath` is absolute |
| `PathResolver.InitialOptionsIdempotent` | src/components/menu/menu.js:80-82 | the `created` guard is repeatable: after one initialisation the first node's `fullPath` is truthy, so a second one changes nothing |
| `Render.SomeVisible` | src/components/menu/menu.js:146-153 | definition: some direct child has no meta or is not invisible |
| `Render.RendersAsSub` | src/components/menu/menu.js:155 | definition: children are present and some direct child is visible |
| `Render.Form` | src/components/menu/menu.js:141-156 | definition: nothing for an invisible node, a submenu keyed by `fullPath` with its children's forms when it renders as a submenu, otherwise a leaf keyed by `fullPath` (characterised by `FormCases` and `RenderedKeysAreShownPaths`) |
| `Render.Forms` | src/components/menu/menu.js:158-165 | definition: one form per node, in order, as both `renderMenu` and the child loop of `renderSubMenu` build |
| `Render.RenderIcon` | src/components/menu/menu.js:109-111 | no icon exactly when the name is absent, `''` or `'none'`; otherwise the icon is the given name |
| `Render.MenuTheme` | src/components/menu/menu.js:74-76 | the theme is `'light'` if and only if the prop is `'light'`, and `'dark'` otherwise |
| `Render.HasVisibleChild` | src/components/menu/menu.js:144-154 | the scan with `break` returns true exactly when some direct child has no meta or is not invisible |
| `Render.RenderItem` | src/components/menu/menu.js:141-157 | `renderItem` (with `renderMenuItem` for the leaf) produces the render form `Form(menu)` |
| `Render.RenderSubMenu` | src/components/menu/menu.js:125-140 | a submenu keyed by `fullPath`, its title icon, then one rendered entry per child in order |
| `Render.RenderMenu` | src/components/menu/menu.js:158-165 | one rendered entry per top-level node, in the same order, each the node's render form |
| `Render.FormCases` | src/components/menu/menu.js:141-156 | nothing if and only if the node is invisible; a submenu if and only if it is visible, has children and some direct child is visible; a leaf otherwise; each non-empty form is keyed by `fullPath` |
| `Render.AllInvisibleChildrenGiveItem` | src/components/menu/menu.js:144-155 | a visible node whose children are all invisible is a leaf keyed by its own `fullPath`, whatever its grandchildren are |
| `Render.InvisibleChildIgnored` | src/components/menu/menu.js:147-153 | inserting an invisible child anywhere does not change the parent's "some visible child" decision |
| `Render.NoMetaNoIcon` | src/components/menu/menu.js:118 | a node without meta is drawn and has no icon |
| `Render.IconRule` | src/components/menu/menu.js:110-118 | a visible node draws an icon exactly when its meta names one other than `''` and `'none'`, and then it draws that icon |
| `Render.RenderedKeysAreShownPaths` | src/components/menu/menu.js:141-165 | the keys drawn anywhere are exactly the full paths of nodes that are visible together with all their ancestors |
| `SelectionSync.SelectedKeyIsFirstSettled` | src/components/menu/menu.js:186-191 | the selected key is the path of the first record in the parent chain that is visible or has no parent; every record before it is invisible with a parent |
| `SelectionSync.Ancestry` | src/components/menu/menu.js:186-191 | the parent chain starts at the record itself and ends at a record without a parent |
| `SelectionSync.InvisibleActiveRouteSelectsParent` | src/components/menu/menu.js:176-191 | the chain `/a`, then an invisible `/a/b` below it, has active route `/a/b`, selects `/a` and opens `/a` |
| `SelectionSync.MenuRoutes` | src/components/menu/menu.js:176 | the filter keeps exactly the records whose path is non-empty and never grows the chain |
| `SelectionSync.Paths` | src/components/menu/menu.js:181 | the map gives one path per record, in order |
| `SelectionSync.MenuRoutesSingle` | src/components/menu/menu.js:176 | the filter of a single record keeps it exactly when its path is non-empty |
| `SelectionSync.MenuRoutesAppend` | src/components/menu/menu.js:176 | the filter distributes over concatenation, so it keeps the chain's order and repeats |
| `SelectionSync.ActiveRouteIsLastNonEmpty` | src/components/menu/menu.js:176-177 | the active route is the last record of the whole matched chain whose path is non-empty; every later record has an empty path |
| `SelectionSync.CanUpdate` | src/components/menu/menu.js:176-178 | definition: some record survives the filter, without which `route.meta` of `undefined` throws |
| `SelectionSync.ActiveRoute` | src/components/menu/menu.js:176-177 | definition: the last record of the filtered chain, the one `pop()` removes |
| `SelectionSync.NewOpenKeys` | src/components/menu/menu.js:177-181 | definition: the paths of the filtered chain without its last record |
| `SelectionSync.Caching` | src/components/menu/menu.js:183 | definition: collapsed, or mode `'horizontal'` |
| `SelectionSync.SelectedKey` | src/components/menu/menu.js:186-191 | definition: recurse to the parent while the record is invisible and has a parent, then return its path (characterised by `SelectedKeyIsFirstSettled`) |
| `SelectionSync.RouteChanged` | src/components/menu/menu.js:175-185 | definition: the selection becomes `[SelectedKey(active)]` if it was empty or the active route is invisible; differing new open keys go to the cache when caching, else to `sOpenKeys` (properties in the `RouteChanged*` lemmas) |
| `SelectionSync.CollapsedChanged` | src/components/menu/menu.js:92-99 | definition: no change for an unchanged value; collapsing caches and empties the open keys; expanding restores the cache |
| `SelectionSync.Selected` | src/components/menu/menu.js:204-205 | definition: the selection becomes the reported keys |
| `SelectionSync.OpenKeysUpdated` | src/components/menu/menu.js:208-210 | definition: `sOpenKeys` becomes the reported keys |
| `SelectionSync.DisplayedOpenKeys` | src/components/menu/menu.js:201 | definition: the `openKeys` prop when given, else `sOpenKeys` |
| `SelectionSync.MenuRoutesOrdered` | src/components/menu/menu.js:176-181 | the new open keys followed by the active route's path are the paths of the filtered chain in order; no open key is empty |
| `SelectionSync.RouteChangedSelects` | src/components/menu/menu.js:178-180 | after a route change the selection is never empty; it is `[getSelectedKey(active)]` when it was empty or the active route is invisible |
| `SelectionSync.RouteChangedKeepsSelection` | src/components/menu/menu.js:178-180 | a non-empty selection is kept when the new active route is visible |
| `SelectionSync.RouteChangedLive` | src/components/menu/menu.js:181-184 | expanded and not horizontal: the open keys become the new open keys and the cache is untouched |
| `SelectionSync.RouteChangedCaching` | src/components/menu/menu.js:181-184 | collapsed or horizontal: the live open keys are untouched; the cache takes the new open keys unless they equal the live ones |
| `SelectionSync.RouteChangedFrame` | src/components/menu/menu.js:175-185 | a route change never changes `collapsed` or `mode` |
| `SelectionSync.RouteChangedIdempotent` | src/components/menu/menu.js:175-185 | handling the same route twice gives the same state as handling it once |
| `SelectionSync.CollapseStashes` | src/components/menu/menu.js:92-96 | collapsing caches the open keys and empties them |
| `SelectionSync.CollapseExpandRoundTrip` | src/components/menu/menu.js:92-99 | a collapse followed by an expand restores the open keys, `collapsed` and the selection |
| `SelectionSync.CollapsedNavigationThenExpand` | src/components/menu/menu.js:181-184 | after a collapse, a navigation and then an expand show the new route's open keys; for a top-level route they show the keys cached before the navigation |
| `SelectionSync.HandlersFrame` | src/components/menu/menu.js:204-210 | `select` sets the selection to the reported keys and `update:openKeys` sets the open keys; neither changes any other field |
| `SelectionSync.DisplayedOpenKeysRule` | src/components/menu/menu.js:201 | the widget shows the `openKeys` prop when it is given, else the internal open keys |
| `MenuComponent.Menu.constructor` | src/components/menu/menu.js:43-72 | props take their defaults `'dark'`, `'inline'` and `false` when absent; `selectedKeys`, `sOpenKeys` and `cachedOpenKeys` start empty |
| `MenuComponent.Menu.Created` | src/components/menu/menu.js:78-82 | the state after `created` is the route-change transition, and `options` becomes `InitialOptions` of the old options |
| `MenuComponent.Menu.UpdateMenu` | src/components/menu/menu.js:175-185 | the fields after `updateMenu` (and the `$route` watcher) are the route-change transition of the old fields; props unchanged |
| `MenuComponent.Menu.SetCollapsed` | src/components/menu/menu.js:92-99 | the fields after the `collapsed` prop changes are the collapse transition of the old fields |
| `MenuComponent.Menu.OnSelect` | src/components/menu/menu.js:204-207 | the `select` handler leaves the fields as the `Selected` transition gives |
| `MenuComponent.Menu.OnUpdateOpenKeys` | src/components/menu/menu.js:208-210 | the `update:openKeys` handler leaves the fields as the `OpenKeysUpdated` transition gives |
| `MenuComponent.Menu.Render` | src/components/menu/menu.js:193-213 | the widget gets the normalised theme, the mode, the selection, the displayed open keys and the render forms of the options |

## Left out

- Internationalisation: the `i18n.messages` merge in `created` (menu.js:84-89), `getI18nKey` and
  `$t` for labels (menu.js:119, 130). `getI18nKey` is defined in `src/utils/routerUtil`, which is
  not part of this model. A rendered entry carries its `fullPath` key, from which the label comes.
- The `sOpenKeys` watcher's `$emit` calls (menu.js:103-106) and the `select` event re-emit
  (menu.js:206). These are event plumbing for listeners outside the component.
- The Ant Design `Menu`, `Item`, `SubMenu` and `Icon` widgets, `router-link` and `h(...)`. They
  are replaced by the `Rendered` tree, where a leaf's link target equals its key.
- Vue reactivity. Watchers run synchronously here, when their method is called. The `$route`
  watcher is `UpdateMenu` itself.
- Aliasing of key arrays: `cachedOpenKeys = sOpenKeys` shares one array, but the component never
  mutates the key arrays in place, so value sequences lose nothing observable. The one array it
  does mutate, `menuRoutes` in `updateMenu` (`pop()`, menu.js:177), is freshly built by `filter`.
- `PathResolver.FormatOptions`: in-place mutation is not modelled. `formatOptions` writes `fullPath`
  into the node objects that the caller holds. Here it returns an annotated copy, and `Created`
  assigns that copy to the `options` field. The caller's own tree is not updated, and node sharing
  is not modelled: in the source a node object reachable twice in the tree ends up with the
  annotation from its last visit, while here each occurrence gets its own.
- Prop changes after construction: only `collapsed` can change, through `SetCollapsed`. In the
  source a parent can replace `options` after `created`. The new tree is then drawn without
  annotation, with `undefined` keys. The model cannot express this.
- Route records carry only `path`, `meta.invisible` and `parent`. Other vue-router fields are
  not read by the component.
- `src/config/default/admin.config.js`: a constant object literal with no behaviour.
- Keys are not proved unique: two nodes with the same path below the same parent get equal
  full paths, and nothing in the component rules that out.
