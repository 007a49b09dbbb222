/**
 * The path annotation pass `formatOptions` (src/components/menu/menu.js:166-174) and the
 * one-time guard around it in `created` (src/components/menu/menu.js:80-82).
 */
module PathResolver {
  import opened Wrappers
  import opened MenuTree

  /** A path whose first character is the separator `/`. */
  predicate IsAbsolute(path: string)
  {
    |path| > 0 && path[0] == '/'
  }

  /** `s.substring(0, 1)`: the first character, or `''` for the empty string. */
  function FirstChar(s: string): string
  {
    if |s| == 0 then "" else s[..1]
  }

  /** The full path of a node with path `path` below a parent with full path `parentPath`. */
  function ResolvePath(path: string, parentPath: string): (fp: string)
    ensures IsAbsolute(path) ==> fp == path
    ensures !IsAbsolute(path) ==> fp == parentPath + "/" + path
    ensures parentPath == "" || IsAbsolute(parentPath) ==> IsAbsolute(fp)
  {
    if FirstChar(path) == "/" then path else parentPath + "/" + path
  }

  /** The node as the pass leaves it: `fullPath` set, children annotated below it. */
  function Annotate(n: MenuNode, parentPath: string): MenuNode
  {
    var fp := ResolvePath(n.path, parentPath);
    n.(fullPath := Some(fp),
       children := match n.children
                   case Absent => Absent
                   case Present(cs) => Present(AnnotateAll(cs, fp)))
  }

  function AnnotateAll(ns: seq<MenuNode>, parentPath: string): seq<MenuNode>
  {
    seq(|ns|, i requires 0 <= i < |ns| => Annotate(ns[i], parentPath))
  }

  /** Every node at every depth carries the full path the rule gives it. */
  predicate WellAnnotated(ns: seq<MenuNode>, parentPath: string)
  {
    forall i | 0 <= i < |ns| :: NodeWellAnnotated(ns[i], parentPath)
  }

  predicate NodeWellAnnotated(n: MenuNode, parentPath: string)
  {
    n.fullPath == Some(ResolvePath(n.path, parentPath)) &&
    match n.children
    case Absent => true
    case Present(cs) => WellAnnotated(cs, n.fullPath.value)
  }

  /** Every full path at every depth is present and absolute. */
  predicate AllAbsolute(ns: seq<MenuNode>)
  {
    forall i | 0 <= i < |ns| :: NodeAllAbsolute(ns[i])
  }

  predicate NodeAllAbsolute(n: MenuNode)
  {
    n.fullPath.Some? && IsAbsolute(n.fullPath.value) &&
    match n.children
    case Absent => true
    case Present(cs) => AllAbsolute(cs)
  }

  /** The tree with every `fullPath` forgotten: what the pass must not change. */
  function Erase(n: MenuNode): MenuNode
  {
    n.(fullPath := None,
       children := match n.children
                   case Absent => Absent
                   case Present(cs) => Present(EraseAll(cs)))
  }

  function EraseAll(ns: seq<MenuNode>): seq<MenuNode>
  {
    seq(|ns|, i requires 0 <= i < |ns| => Erase(ns[i]))
  }

  /** `formatOptions(options, parentPath)`: a `forEach` over the nodes that sets each `fullPath`
      and recurses into present children with that node's full path. */
  method FormatOptions(options: seq<MenuNode>, parentPath: string) returns (r: seq<MenuNode>)
    ensures r == AnnotateAll(options, parentPath)
    decreases options
  {
    r := [];
    var i := 0;
    while i < |options|
      invariant 0 <= i <= |options|
      invariant r == AnnotateAll(options[..i], parentPath)
    {
      var route := options[i];
      var isFullPath := FirstChar(route.path) == "/";
      var fullPath := if isFullPath then route.path else parentPath + "/" + route.path;
      route := route.(fullPath := Some(fullPath));
      if route.children.Present? {
        var cs := FormatOptions(route.children.nodes, fullPath);
        route := route.(children := Present(cs));
      }
      r := r + [route];
      i := i + 1;
    }
    assert options[..i] == options;
  }

  /** The `options` after `created`: annotated from the root `''` unless the first
      root node already has a truthy `fullPath`. */
  function InitialOptions(options: seq<MenuNode>): seq<MenuNode>
    requires |options| > 0
  {
    if !HasFullPath(options[0]) then AnnotateAll(options, "") else options
  }

  /** The pass yields a well-annotated tree. */
  lemma {:induction false} AnnotateAllWellAnnotated(ns: seq<MenuNode>, parentPath: string)
    ensures WellAnnotated(AnnotateAll(ns, parentPath), parentPath)
    decreases ns
  {
    forall i | 0 <= i < |ns|
      ensures NodeWellAnnotated(AnnotateAll(ns, parentPath)[i], parentPath)
    {
      AnnotateWellAnnotated(ns[i], parentPath);
    }
  }

  lemma {:induction false} AnnotateWellAnnotated(n: MenuNode, parentPath: string)
    ensures NodeWellAnnotated(Annotate(n, parentPath), parentPath)
    decreases n
  {
    match n.children
    case Absent =>
    case Present(cs) => AnnotateAllWellAnnotated(cs, ResolvePath(n.path, parentPath));
  }

  /** The pass changes nothing but `fullPath`: names, paths, meta, child order and shape stay. */
  lemma {:induction false} AnnotateAllPreservesShape(ns: seq<MenuNode>, parentPath: string)
    ensures EraseAll(AnnotateAll(ns, parentPath)) == EraseAll(ns)
    decreases ns
  {
    forall i | 0 <= i < |ns|
      ensures Erase(AnnotateAll(ns, parentPath)[i]) == Erase(ns[i])
    {
      AnnotatePreservesShape(ns[i], parentPath);
    }
  }

  lemma {:induction false} AnnotatePreservesShape(n: MenuNode, parentPath: string)
    ensures Erase(Annotate(n, parentPath)) == Erase(n)
    decreases n
  {
    match n.children
    case Absent =>
    case Present(cs) => AnnotateAllPreservesShape(cs, ResolvePath(n.path, parentPath));
  }

  /** The annotation is determined by the shape and the root path alone: any well-annotated
      tree of the same shape is the pass's result. */
  lemma {:induction false} AnnotateAllUnique(t: seq<MenuNode>, ns: seq<MenuNode>, parentPath: string)
    requires WellAnnotated(t, parentPath)
    requires EraseAll(t) == EraseAll(ns)
    ensures t == AnnotateAll(ns, parentPath)
    decreases ns
  {
    assert |t| == |EraseAll(t)|;
    forall i | 0 <= i < |ns|
      ensures t[i] == Annotate(ns[i], parentPath)
    {
      assert Erase(t[i]) == EraseAll(t)[i];
      AnnotateUnique(t[i], ns[i], parentPath);
    }
  }

  lemma {:induction false} AnnotateUnique(t: MenuNode, n: MenuNode, parentPath: string)
    requires NodeWellAnnotated(t, parentPath)
    requires Erase(t) == Erase(n)
    ensures t == Annotate(n, parentPath)
    decreases n
  {
    assert t.path == Erase(t).path == Erase(n).path == n.path;
    match n.children
    case Absent =>
      assert t.children.Absent? by { assert Erase(t).children == Absent; }
    case Present(cs) =>
      assert Erase(t).children == Present(EraseAll(cs));
      var ts := t.children.nodes;
      assert EraseAll(ts) == EraseAll(cs);
      AnnotateAllUnique(ts, cs, ResolvePath(n.path, parentPath));
  }

  /** Running the pass twice gives the same tree as running it once. */
  lemma AnnotateAllIdempotent(ns: seq<MenuNode>, parentPath: string)
    ensures AnnotateAll(AnnotateAll(ns, parentPath), parentPath) == AnnotateAll(ns, parentPath)
  {
    var once := AnnotateAll(ns, parentPath);
    AnnotateAllWellAnnotated(ns, parentPath);
    AnnotateAllUnique(once, once, parentPath);
  }

  /** A tree is left unchanged by the pass exactly when it is already well annotated. */
  lemma AnnotateAllFixpoint(ns: seq<MenuNode>, parentPath: string)
    ensures AnnotateAll(ns, parentPath) == ns <==> WellAnnotated(ns, parentPath)
  {
    AnnotateAllWellAnnotated(ns, parentPath);
    if WellAnnotated(ns, parentPath) {
      AnnotateAllUnique(ns, ns, parentPath);
    }
  }

  /** Below the root `''` (or any absolute path) every full path is absolute. */
  lemma {:induction false} WellAnnotatedAbsolute(ns: seq<MenuNode>, parentPath: string)
    requires parentPath == "" || IsAbsolute(parentPath)
    requires WellAnnotated(ns, parentPath)
    ensures AllAbsolute(ns)
    decreases ns
  {
    forall i | 0 <= i < |ns|
      ensures NodeAllAbsolute(ns[i])
    {
      var n := ns[i];
      assert NodeWellAnnotated(n, parentPath);
      match n.children
      case Absent =>
      case Present(cs) => WellAnnotatedAbsolute(cs, n.fullPath.value);
    }
  }

  /** After `created` every full path is absolute, unless the guard skipped the pass. */
  lemma InitialOptionsAbsolute(options: seq<MenuNode>)
    requires |options| > 0
    requires !HasFullPath(options[0])
    ensures AllAbsolute(InitialOptions(options))
  {
    AnnotateAllWellAnnotated(options, "");
    WellAnnotatedAbsolute(AnnotateAll(options, ""), "");
  }

  /** The `created` guard is repeatable: a second initialisation changes nothing. */
  lemma InitialOptionsIdempotent(options: seq<MenuNode>)
    requires |options| > 0
    ensures |InitialOptions(options)| > 0
    ensures InitialOptions(InitialOptions(options)) == InitialOptions(options)
  {
    if !HasFullPath(options[0]) {
      InitialOptionsAbsolute(options);
      assert NodeAllAbsolute(InitialOptions(options)[0]);
    }
  }
}
