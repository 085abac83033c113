/** Flattening a packet tree into the linear stack the tiler walks. */
module Spine {
  import opened Basics
  import opened Ast

  /** The layers from a node down to the innermost one; a node with two payloads has no spine. */
  function Layers(root: Tree): (r: Result<seq<Layer>>)
    ensures r.Ok? ==> r.value != []
    decreases root
  {
    if |root.children| == 0 then Ok([root.layer])
    else if |root.children| == 1 then
      var rest :- Layers(root.children[0]);
      Ok([root.layer] + rest)
    else Err(At(root.children[1].layer.pos, Branching))
  }

  method Extract(root: Tree) returns (r: Result<seq<Layer>>)
    ensures r == Layers(root)
  {
    var layers: seq<Layer> := [];
    var n := root;
    assert Layers(root).Ok? ==> layers + Layers(root).value == Layers(root).value;
    while true
      invariant match Layers(n)
                case Err(e) => Layers(root) == Err(e)
                case Ok(rest) => Layers(root) == Ok(layers + rest)
      decreases n
    {
      ghost var before := layers;
      layers := layers + [n.layer];
      if |n.children| == 0 {
        return Ok(layers);
      } else if |n.children| == 1 {
        ghost var rest := Layers(n.children[0]);
        assert rest.Ok? ==> before + ([n.layer] + rest.value) == layers + rest.value;
        n := n.children[0];
      } else {
        return Err(At(n.children[1].layer.pos, Branching));
      }
    }
  }

  /** The spine under a (configure ...) wrapper. */
  function FormSpine(root: Tree): (r: Result<seq<Layer>>)
    ensures r.Ok? ==> r.value != []
  {
    if root.layer.name != "configure" then Err(At(root.layer.pos, NotConfigure))
    else if root.layer.props != [] then Err(At(root.layer.props[0].pos, ConfigureProps))
    else if |root.children| != 1 then Err(At(root.layer.pos, ConfigureChildren))
    else Layers(root.children[0])
  }

  method FromForm(root: Tree) returns (r: Result<seq<Layer>>)
    ensures r == FormSpine(root)
    ensures r.Ok? ==> r.value != []
  {
    if root.layer.name != "configure" {
      return Err(At(root.layer.pos, NotConfigure));
    }
    if root.layer.props != [] {
      return Err(At(root.layer.props[0].pos, ConfigureProps));
    }
    if |root.children| != 1 {
      return Err(At(root.layer.pos, ConfigureChildren));
    }
    r := Extract(root.children[0]);
  }

  /** `path` leads from the root one child at a time, always the only one, to a node without children. */
  ghost predicate StraightPath(root: Tree, path: seq<Tree>) {
    && path != [] && path[0] == root && path[|path| - 1].children == []
    && forall k :: 0 <= k < |path| - 1 ==> path[k].children == [path[k + 1]]
  }

  function LayersOf(path: seq<Tree>): (r: seq<Layer>)
    ensures |r| == |path| && forall k :: 0 <= k < |path| ==> r[k] == path[k].layer
  {
    if path == [] then [] else [path[0].layer] + LayersOf(path[1..])
  }

  lemma {:induction false} PathOf(root: Tree) returns (path: seq<Tree>)
    requires Layers(root).Ok?
    ensures StraightPath(root, path) && LayersOf(path) == Layers(root).value
    decreases root
  {
    if root.children == [] {
      path := [root];
    } else {
      var more := PathOf(root.children[0]);
      path := [root] + more;
      assert path[1..] == more;
      assert root.children == [more[0]];
    }
  }

  lemma {:induction false} PathIsSpine(root: Tree, path: seq<Tree>)
    requires StraightPath(root, path)
    ensures Layers(root) == Ok(LayersOf(path))
    decreases path
  {
    if |path| > 1 {
      assert path[0].children == [path[1]];
      var more := path[1..];
      forall k | 0 <= k < |more| - 1 ensures more[k].children == [more[k + 1]] {
        assert path[k + 1].children == [path[k + 2]];
      }
      PathIsSpine(path[1], more);
      assert LayersOf(path) == [root.layer] + LayersOf(more);
    } else {
      assert LayersOf(path) == [root.layer];
    }
  }

  /** A spine exists exactly when no node on the way down branches, and then it is the layers on that way. */
  lemma {:induction false} SpineIsStraightPath(root: Tree, layers: seq<Layer>)
    ensures Layers(root) == Ok(layers) <==> exists path :: StraightPath(root, path) && LayersOf(path) == layers
  {
    if Layers(root).Ok? {
      var path := PathOf(root);
    }
    if path: seq<Tree> :| StraightPath(root, path) && LayersOf(path) == layers {
      PathIsSpine(root, path);
    }
  }

  /** `path` leads from the root by only children to a node that carries several. */
  ghost predicate PathBranches(root: Tree, path: seq<Tree>) {
    && path != [] && path[0] == root && |path[|path| - 1].children| > 1
    && forall k :: 0 <= k < |path| - 1 ==> path[k].children == [path[k + 1]]
  }

  /** The way down branches, and the second of the forms at the first fork is reported. */
  ghost predicate BranchesAt(root: Tree, e: Error) {
    exists path: seq<Tree> :: PathBranches(root, path) && e == At(path[|path| - 1].children[1].layer.pos, Branching)
  }

  lemma {:induction false} ForkOf(root: Tree) returns (path: seq<Tree>)
    requires Layers(root).Err?
    ensures PathBranches(root, path)
    ensures Layers(root).error == At(path[|path| - 1].children[1].layer.pos, Branching)
    decreases root
  {
    if |root.children| > 1 {
      path := [root];
    } else {
      var more := ForkOf(root.children[0]);
      path := [root] + more;
      assert root.children == [more[0]];
    }
  }

  lemma {:induction false} ForkFails(root: Tree, path: seq<Tree>)
    requires PathBranches(root, path)
    ensures Layers(root) == Err(At(path[|path| - 1].children[1].layer.pos, Branching))
    decreases path
  {
    if |path| > 1 {
      assert path[0].children == [path[1]];
      var more := path[1..];
      forall k | 0 <= k < |more| - 1 ensures more[k].children == [more[k + 1]] {
        assert path[k + 1].children == [path[k + 2]];
      }
      ForkFails(path[1], more);
    }
  }

  lemma {:induction false} BranchingExactly(root: Tree, e: Error)
    ensures Layers(root) == Err(e) <==> BranchesAt(root, e)
  {
    if Layers(root) == Err(e) {
      var path := ForkOf(root);
    }
    if BranchesAt(root, e) {
      var path: seq<Tree> :| PathBranches(root, path) && e == At(path[|path| - 1].children[1].layer.pos, Branching);
      ForkFails(root, path);
    }
  }

  /** A wrapper around one packet, naming nothing else. */
  predicate Wraps(root: Tree) {
    root.layer.name == "configure" && root.layer.props == [] && |root.children| == 1
  }

  /**
   A file's spine: the straight path under a plain wrapper. What is refused is, in this order, another name,
   properties on the wrapper, no form or several in it, and a fork on the way down.
   */
  lemma {:induction false} FormExactly(root: Tree, layers: seq<Layer>, e: Error)
    ensures FormSpine(root) == Ok(layers) <==>
              Wraps(root) && exists path: seq<Tree> :: StraightPath(root.children[0], path) && LayersOf(path) == layers
    ensures Wraps(root) ==> (FormSpine(root) == Err(e) <==> BranchesAt(root.children[0], e))
    ensures !Wraps(root) ==>
              FormSpine(root) == Err(
                if root.layer.name != "configure" then At(root.layer.pos, NotConfigure)
                else if root.layer.props != [] then At(root.layer.props[0].pos, ConfigureProps)
                else At(root.layer.pos, ConfigureChildren))
  {
    hide Layers, LayersOf, BranchesAt, StraightPath;
    if Wraps(root) {
      SpineIsStraightPath(root.children[0], layers);
      BranchingExactly(root.children[0], e);
    }
  }
}
