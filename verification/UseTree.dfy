/** Flattening `use` trees into the paths they import, as the intra-crate lint reports them. */
module UseTree {
  datatype Tree =
    | Path(ident: string, tree: Tree)
    | Name(ident: string)
    | Rename(ident: string, alias_: string)
    | Glob
    | Group(items: seq<Tree>)

  const CRATE_ROOT := "crate"

  function JoinSegment(prefix: string, segment: string): string {
    if prefix == "" then segment else prefix + "::" + segment
  }

  /** The leaf a tree that denotes its own prefix adds: none at the top level. */
  function PrefixLeaf(prefix: string): seq<string> {
    if prefix == "" then [] else [prefix]
  }

  /** The leaves of `flatten_use_tree`. */
  function Leaves(tree: Tree, prefix: string): seq<string>
    decreases tree, 1
  {
    match tree
    case Path(ident, inner) =>
      var next := JoinSegment(prefix, ident);
      if inner.Name? && inner.ident == ident then [next] else Leaves(inner, next)
    case Name(ident) => if ident == "self" then PrefixLeaf(prefix) else [JoinSegment(prefix, ident)]
    case Rename(ident, _) => if ident == "self" then PrefixLeaf(prefix) else [JoinSegment(prefix, ident)]
    case Glob => PrefixLeaf(prefix)
    case Group(items) => GroupLeaves(items, prefix)
  }

  function GroupLeaves(items: seq<Tree>, prefix: string): seq<string>
    decreases items, 0
  {
    if items == [] then [] else Leaves(items[0], prefix) + GroupLeaves(items[1..], prefix)
  }

  class LeafSink {
    var leaves: seq<string>
  }

  /** The recursion as it runs, pushing into one shared vector. */
  method FlattenUseTree(tree: Tree, prefix: string, sink: LeafSink)
    modifies sink
    ensures sink.leaves == old(sink.leaves) + Leaves(tree, prefix)
    decreases tree
  {
    match tree
    case Path(ident, inner) =>
      var next := JoinSegment(prefix, ident);
      if inner.Name? && inner.ident == ident {
        sink.leaves := sink.leaves + [next];
      } else {
        FlattenUseTree(inner, next, sink);
      }
    case Name(ident) => PushNamed(ident, prefix, sink);
    case Rename(ident, _) => PushNamed(ident, prefix, sink);
    case Glob =>
      if prefix != "" {
        sink.leaves := sink.leaves + [prefix];
      }
    case Group(items) =>
      var i := 0;
      while i < |items|
        invariant 0 <= i <= |items|
        invariant sink.leaves + GroupLeaves(items[i..], prefix) == old(sink.leaves) + GroupLeaves(items, prefix)
      {
        ghost var before := sink.leaves;
        FlattenUseTree(items[i], prefix, sink);
        assert items[i..][0] == items[i] && items[i..][1..] == items[i + 1..];
        assert before + (Leaves(items[i], prefix) + GroupLeaves(items[i + 1..], prefix))
            == before + Leaves(items[i], prefix) + GroupLeaves(items[i + 1..], prefix);
        i := i + 1;
      }
      assert sink.leaves + [] == sink.leaves;
  }

  method PushNamed(ident: string, prefix: string, sink: LeafSink)
    modifies sink
    ensures sink.leaves == old(sink.leaves) + (if ident == "self" then PrefixLeaf(prefix)
                                               else [JoinSegment(prefix, ident)])
  {
    if ident == "self" {
      if prefix != "" {
        sink.leaves := sink.leaves + [prefix];
      }
    } else {
      sink.leaves := sink.leaves + [JoinSegment(prefix, ident)];
    }
  }

  // ----- what a use tree imports ------------------------------------------------------------------

  /** The imported paths, segment by segment and in order: `self` and `*` stand for the enclosing
      module, an alias is not part of the path. */
  function Imports(tree: Tree, at: seq<string>): seq<seq<string>>
    decreases tree, 1
  {
    match tree
    case Path(ident, inner) => Imports(inner, at + [ident])
    case Name(ident) => if ident == "self" then [at] else [at + [ident]]
    case Rename(ident, _) => if ident == "self" then [at] else [at + [ident]]
    case Glob => [at]
    case Group(items) => GroupImports(items, at)
  }

  function GroupImports(items: seq<Tree>, at: seq<string>): seq<seq<string>>
    decreases items, 0
  {
    if items == [] then [] else Imports(items[0], at) + GroupImports(items[1..], at)
  }

  /** Identifiers are not empty and contain no colon. */
  predicate GoodIdent(s: string) {
    s != "" && ':' !in s
  }

  predicate GoodTree(tree: Tree)
    decreases tree, 1
  {
    match tree
    case Path(ident, inner) => GoodIdent(ident) && GoodTree(inner)
    case Name(ident) => GoodIdent(ident)
    case Rename(ident, _) => GoodIdent(ident)
    case Glob => true
    case Group(items) => GoodTrees(items)
  }

  predicate GoodTrees(items: seq<Tree>)
    decreases items, 0
  {
    items == [] || (GoodTree(items[0]) && GoodTrees(items[1..]))
  }

  /** Every leaf lies below at least one path segment, so no leaf is a bare `self` or `*`. */
  predicate Rooted(tree: Tree)
    decreases tree, 1
  {
    tree.Path? || (tree.Group? && AllRooted(tree.items))
  }

  predicate AllRooted(items: seq<Tree>)
    decreases items, 0
  {
    items == [] || (Rooted(items[0]) && AllRooted(items[1..]))
  }

  function Render(segments: seq<string>): string {
    if segments == [] then ""
    else JoinSegment(Render(segments[..|segments| - 1]), segments[|segments| - 1])
  }

  /** The reported leaf is the imported path, or the path without a last segment that repeats its
      parent, where both of them lie below the first `depth` segments. */
  ghost predicate ReportedAs(leaf: string, path: seq<string>, depth: nat) {
    leaf == Render(path) ||
    (|path| >= depth + 2 && path[|path| - 1] == path[|path| - 2] && leaf == Render(path[..|path| - 1]))
  }

  ghost predicate Matches(leaves: seq<string>, paths: seq<seq<string>>, depth: nat) {
    |leaves| == |paths| && forall i :: 0 <= i < |leaves| ==> ReportedAs(leaves[i], paths[i], depth)
  }

  lemma RenderSnoc(at: seq<string>, ident: string)
    ensures Render(at + [ident]) == JoinSegment(Render(at), ident)
  {
  }

  lemma {:induction false} RenderNonEmpty(at: seq<string>)
    requires at != [] && forall i :: 0 <= i < |at| ==> GoodIdent(at[i])
    ensures Render(at) != ""
  {
  }

  lemma MatchesConcat(a: seq<string>, b: seq<string>, p: seq<seq<string>>, q: seq<seq<string>>, depth: nat)
    requires Matches(a, p, depth) && Matches(b, q, depth)
    ensures Matches(a + b, p + q, depth)
  {
  }

  lemma MatchesOne(leaf: string, path: seq<string>, depth: nat)
    requires ReportedAs(leaf, path, depth)
    ensures Matches([leaf], [path], depth)
  {
  }

  lemma MatchesFromDeeper(leaves: seq<string>, paths: seq<seq<string>>, depth: nat)
    requires Matches(leaves, paths, depth + 1)
    ensures Matches(leaves, paths, depth)
  {
  }

  /** One leaf per imported item, in order, each the imported path up to a repeated last segment. */
  lemma {:induction false} LeavesAreImports(tree: Tree, at: seq<string>)
    requires GoodTree(tree) && (forall i :: 0 <= i < |at| ==> GoodIdent(at[i])) && (at != [] || Rooted(tree))
    ensures Matches(Leaves(tree, Render(at)), Imports(tree, at), |at|)
    decreases tree, 1
  {
    if at != [] {
      RenderNonEmpty(at);
    }
    hide Matches, Render;
    match tree
    case Path(ident, inner) =>
      RenderSnoc(at, ident);
      if inner.Name? && inner.ident == ident {
        RepeatedSegment(at, ident);
      } else {
        LeavesAreImports(inner, at + [ident]);
        MatchesFromDeeper(Leaves(tree, Render(at)), Imports(tree, at), |at|);
      }
    case Name(ident) => NamedLeaf(ident, at);
    case Rename(ident, _) => NamedLeaf(ident, at);
    case Glob => MatchesOne(Render(at), at, |at|);
    case Group(items) => GroupLeavesAreImports(items, at);
  }

  lemma NamedLeaf(ident: string, at: seq<string>)
    requires Render(at) != ""
    ensures Matches(if ident == "self" then PrefixLeaf(Render(at)) else [JoinSegment(Render(at), ident)],
                    if ident == "self" then [at] else [at + [ident]], |at|)
  {
  }

  lemma RepeatedSegment(at: seq<string>, ident: string)
    ensures Matches([Render(at + [ident])], Imports(Path(ident, Name(ident)), at), |at|)
  {
    hide Render;
    var path := at + [ident];
    assert Imports(Path(ident, Name(ident)), at) == Imports(Name(ident), path);
    if ident == "self" {
      MatchesOne(Render(path), path, |at|);
    } else {
      var twice := path + [ident];
      assert twice[..|twice| - 1] == path;
      MatchesOne(Render(path), twice, |at|);
    }
  }

  lemma {:induction false} GroupLeavesAreImports(items: seq<Tree>, at: seq<string>)
    requires GoodTrees(items) && (forall i :: 0 <= i < |at| ==> GoodIdent(at[i])) && (at != [] || AllRooted(items))
    ensures Matches(GroupLeaves(items, Render(at)), GroupImports(items, at), |at|)
    decreases items, 0
  {
    if items != [] {
      LeavesAreImports(items[0], at);
      GroupLeavesAreImports(items[1..], at);
      hide Matches, Render;
      MatchesConcat(Leaves(items[0], Render(at)), GroupLeaves(items[1..], Render(at)),
                    Imports(items[0], at), GroupImports(items[1..], at), |at|);
    }
  }

  // ----- the reported layer ------------------------------------------------------------------------

  /** Split at `::`, scanning from the left. */
  function Pieces(s: string): (ps: seq<string>)
    ensures ps != []
  {
    if s == "" then [""]
    else if |s| >= 2 && s[0] == ':' && s[1] == ':' then [""] + Pieces(s[2..])
    else
      var rest := Pieces(s[1..]);
      [[s[0]] + rest[0]] + rest[1..]
  }

  predicate StartsWithCrate(path: string) {
    Pieces(path)[0] == CRATE_ROOT
  }

  lemma {:induction false} PiecesAtSeparator(a: string, b: string)
    requires ':' !in a
    ensures Pieces(a + "::" + b) == [a] + Pieces(b)
    decreases |a|
  {
    if a == "" {
      assert a + "::" + b == "::" + b && ("::" + b)[2..] == b;
    } else {
      assert (a + "::" + b)[0] == a[0] && (a + "::" + b)[1..] == a[1..] + "::" + b;
      PiecesAtSeparator(a[1..], b);
      assert a == [a[0]] + a[1..];
    }
  }

  lemma {:induction false} PiecesWithoutSeparator(a: string)
    requires ':' !in a
    ensures Pieces(a) == [a]
  {
    if a != "" {
      PiecesWithoutSeparator(a[1..]);
      assert a == [a[0]] + a[1..];
    }
  }

  lemma {:induction false} RenderCons(s: string, rest: seq<string>)
    requires rest != [] && GoodIdent(s) && forall i :: 0 <= i < |rest| ==> GoodIdent(rest[i])
    ensures Render([s] + rest) == s + "::" + Render(rest)
    decreases |rest|
  {
    var n := |rest| - 1;
    var all := [s] + rest;
    assert all[..n + 1] == [s] + rest[..n];
    if n == 0 {
      assert all[..1] == [s] && [s][..0] == [] && rest[..0] == [];
    } else {
      RenderCons(s, rest[..n]);
      RenderNonEmpty(rest[..n]);
      assert s + "::" + Render(rest[..n]) + "::" + rest[n] == s + "::" + (Render(rest[..n]) + "::" + rest[n]);
    }
  }

  /** Splitting a rendered path gives its segments back. */
  lemma {:induction false} PiecesOfRender(segments: seq<string>)
    requires segments != [] && forall i :: 0 <= i < |segments| ==> GoodIdent(segments[i])
    ensures Pieces(Render(segments)) == segments
    decreases |segments|
  {
    if |segments| == 1 {
      assert segments[..0] == [] && Render(segments) == segments[0];
      PiecesWithoutSeparator(segments[0]);
    } else {
      assert segments == [segments[0]] + segments[1..];
      RenderCons(segments[0], segments[1..]);
      PiecesAtSeparator(segments[0], Render(segments[1..]));
      PiecesOfRender(segments[1..]);
    }
  }

  lemma {:induction false} ImportsStayBelow(tree: Tree, at: seq<string>)
    requires GoodTree(tree) && forall i :: 0 <= i < |at| ==> GoodIdent(at[i])
    ensures forall i :: 0 <= i < |Imports(tree, at)| ==>
              at <= Imports(tree, at)[i] && forall j :: 0 <= j < |Imports(tree, at)[i]| ==>
                GoodIdent(Imports(tree, at)[i][j])
    decreases tree, 1
  {
    match tree
    case Path(ident, inner) => ImportsStayBelow(inner, at + [ident]);
    case Group(items) => GroupImportsStayBelow(items, at);
    case _ =>
  }

  lemma {:induction false} GroupImportsStayBelow(items: seq<Tree>, at: seq<string>)
    requires GoodTrees(items) && forall i :: 0 <= i < |at| ==> GoodIdent(at[i])
    ensures forall i :: 0 <= i < |GroupImports(items, at)| ==>
              at <= GroupImports(items, at)[i] && forall j :: 0 <= j < |GroupImports(items, at)[i]| ==>
                GoodIdent(GroupImports(items, at)[i][j])
    decreases items, 0
  {
    if items != [] {
      ImportsStayBelow(items[0], at);
      GroupImportsStayBelow(items[1..], at);
    }
  }

  /** Reported layer is right: for a tree rooted at `crate`, every leaf is reported as intra-crate, and
      the segment after `crate` is that of the imported path if and only if the tree is not the
      one statement `use crate::crate`. */
  lemma ReportedLayerIsRight(inner: Tree, i: nat)
    requires GoodTree(inner) && i < |Imports(Path(CRATE_ROOT, inner), [])|
    ensures var tree := Path(CRATE_ROOT, inner);
            var leaves, paths := Leaves(tree, ""), Imports(tree, []);
            && |leaves| == |paths| && ReportedAs(leaves[i], paths[i], 0) && StartsWithCrate(leaves[i])
            && Pieces(leaves[i])[0] == "crate"
            && |paths[i]| >= 1 && paths[i][0] == CRATE_ROOT
            && (|paths[i]| >= 2 ==>
                  ((|Pieces(leaves[i])| >= 2 && Pieces(leaves[i])[1] == paths[i][1]) <==> inner != Name(CRATE_ROOT)))
  {
    var tree := Path(CRATE_ROOT, inner);
    LeavesAreImports(tree, []);
    BelowCrate(inner);
    PiecesWithoutSeparator(CRATE_ROOT);
    hide Pieces, Render;
    if inner != Name(CRATE_ROOT) {
      LayerOf(Leaves(tree, "")[i], Imports(tree, [])[i]);
    } else {
      RenderSingle(CRATE_ROOT);
    }
  }

  /** Below `crate` only paths of three or more segments lose a repeated one. */
  lemma BelowCrate(inner: Tree)
    requires GoodTree(inner)
    ensures var leaves, paths := Leaves(Path(CRATE_ROOT, inner), ""), Imports(Path(CRATE_ROOT, inner), []);
            && (inner != Name(CRATE_ROOT) ==> Matches(leaves, paths, 1))
            && forall i :: 0 <= i < |paths| ==> [CRATE_ROOT] <= paths[i] && forall j :: 0 <= j < |paths[i]| ==>
               GoodIdent(paths[i][j])
  {
    assert [] + [CRATE_ROOT] == [CRATE_ROOT];
    RenderSingle(CRATE_ROOT);
    LeavesAreImports(inner, [CRATE_ROOT]);
    ImportsStayBelow(inner, [CRATE_ROOT]);
    hide Matches, Render, GoodIdent;
  }

  lemma LayerOf(leaf: string, path: seq<string>)
    requires ReportedAs(leaf, path, 1) && [CRATE_ROOT] <= path && forall j :: 0 <= j < |path| ==> GoodIdent(path[j])
    ensures StartsWithCrate(leaf)
    ensures |path| >= 2 ==> |Pieces(leaf)| >= 2 && Pieces(leaf)[1] == path[1]
  {
    PiecesOfRender(path);
    if |path| >= 3 {
      PiecesOfRender(path[..|path| - 1]);
    }
    hide Pieces, Render;
  }

  lemma RenderSingle(s: string)
    ensures Render([s]) == s
  {
  }
}
