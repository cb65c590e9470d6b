/** The comment trie of a proto file: locations filed under their paths. */
module CommentTrie {
  import opened Options

  /** A source location; `Add` files it under its own path. */
  datatype Location = Location(path: seq<int>, comment: string)

  /** The path one level below. */
  function Below(p: seq<int>, index: int): seq<int> {
    p + [index]
  }

  type Files = map<seq<int>, Location>

  /** What filing the locations one after another leaves under each path: the last one with exactly that path. */
  function Filed(locations: seq<Location>): Files {
    if locations == [] then map[]
    else
      var last := locations[|locations| - 1];
      Filed(locations[..|locations| - 1])[last.path := last]
  }

  lemma {:induction false} FiledIsLast(locations: seq<Location>, p: seq<int>)
    ensures p in Filed(locations) <==> exists i :: 0 <= i < |locations| && locations[i].path == p
    ensures p in Filed(locations) ==>
              exists i :: 0 <= i < |locations| && locations[i].path == p && Filed(locations)[p] == locations[i]
                          && forall j :: i < j < |locations| ==> locations[j].path != p
  {
    if locations != [] {
      var n := |locations| - 1;
      var front := locations[..n];
      FiledIsLast(front, p);
      assert forall i :: 0 <= i < n ==> front[i] == locations[i];
      if locations[n].path == p {
        assert Filed(locations)[p] == locations[n];
      } else if p in Filed(front) {
        var i :| 0 <= i < n && front[i].path == p && Filed(front)[p] == front[i]
                 && forall j :: i < j < n ==> front[j].path != p;
        assert locations[i].path == p && Filed(locations)[p] == locations[i];
      }
    }
  }

  class Comments {
    var location: Option<Location>
    var children: map<int, Comments>

    /** The node at each path from here: kept up to date at the node that Add is called on. */
    ghost var nodes: map<seq<int>, Comments>

    /** The trie below this node: one node for each path, every child of it, and every prefix. */
    ghost predicate Valid()
      reads this, nodes.Values
    {
      && [] in nodes && nodes[[]] == this
      && (forall p, q :: p in nodes && q in nodes && p != q ==> nodes[p] != nodes[q])
      && (forall p, k {:trigger Below(p, k)} :: p in nodes ==>
            (k in nodes[p].children <==> Below(p, k) in nodes)
            && (k in nodes[p].children ==> nodes[p].children[k] == nodes[Below(p, k)]))
      && (forall p {:trigger p[..|p| - 1]} :: p in nodes && p != [] ==> p[..|p| - 1] in nodes)
    }

    /** The locations filed in the trie. */
    ghost function Contents(): Files
      reads this, nodes.Values
    {
      map p | p in nodes && nodes[p].location.Some? :: nodes[p].location.value
    }

    constructor ()
      ensures Valid() && Contents() == map[] && nodes.Values == {this}
      ensures location.None? && children == map[]
    {
      location, children, nodes := None, map[], map[];
      new;
      nodes := map[[] := this];
    }

    /** File a location under its path, creating the nodes on the way that are missing. */
    method Add(loc: Location)
      requires Valid()
      modifies this, nodes.Values
      ensures Valid() && Contents() == old(Contents())[loc.path := loc]
      ensures forall c :: c in nodes.Values ==> c in old(nodes.Values) || fresh(c)
    {
      var node := this;
      for i := 0 to |loc.path|
        invariant Valid()
        invariant loc.path[..i] in nodes && nodes[loc.path[..i]] == node
        invariant Contents() == old(Contents())
        invariant forall c :: c in nodes.Values ==> c in old(nodes.Values) || fresh(c)
      {
        var prefix, index := loc.path[..i], loc.path[i];
        assert loc.path[..i + 1] == Below(prefix, index);
        if index !in node.children {
          AddChild(node, prefix, index);
        }
        node := node.children[index];
      }
      assert loc.path[..|loc.path|] == loc.path;
      node.location := Some(loc);
    }

    /** A new empty node under an existing one. */
    method AddChild(node: Comments, ghost prefix: seq<int>, index: int)
      requires Valid() && prefix in nodes && nodes[prefix] == node && index !in node.children
      modifies this`nodes, node`children
      ensures Valid() && Contents() == old(Contents())
      ensures nodes.Keys == old(nodes.Keys) + {Below(prefix, index)}
      ensures forall p :: p in old(nodes) ==> nodes[p] == old(nodes)[p]
      ensures fresh(nodes[Below(prefix, index)])
    {
      var child := new Comments();
      ghost var path := Below(prefix, index);
      assert path !in nodes && path[..|path| - 1] == prefix;
      node.children := node.children[index := child];
      nodes := nodes[path := child];
      forall p, k {:trigger Below(p, k)} | p in nodes
        ensures k in nodes[p].children <==> Below(p, k) in nodes
        ensures k in nodes[p].children ==> nodes[p].children[k] == nodes[Below(p, k)]
      {
        BelowIsInjective(p, k, prefix, index);
        assert Below(path, k)[..|Below(path, k)| - 1] == path;
        assert Below(path, k) !in old(nodes);
      }
    }

    lemma BelowIsInjective(p: seq<int>, k: int, q: seq<int>, l: int)
      ensures Below(p, k) == Below(q, l) <==> p == q && k == l
    {
      assert Below(p, k)[|p|] == k && Below(p, k)[..|p|] == p;
      assert Below(q, l)[|q|] == l && Below(q, l)[..|q|] == q;
    }

    /** The location filed under exactly this path. */
    method Get(path: seq<int>) returns (loc: Option<Location>)
      requires Valid()
      ensures loc == if path in Contents() then Some(Contents()[path]) else None
    {
      var node := this;
      for i := 0 to |path|
        invariant path[..i] in nodes && nodes[path[..i]] == node
      {
        assert path[..i + 1] == Below(path[..i], path[i]);
        if path[i] !in node.children {
          assert path[..i + 1] !in nodes;
          PrefixMissing(path, i + 1);
          return None;
        }
        node := node.children[path[i]];
      }
      assert path[..|path|] == path;
      return node.location;
    }

    lemma {:induction false} PrefixMissing(p: seq<int>, n: nat)
      requires Valid() && n <= |p| && p[..n] !in nodes
      ensures p !in nodes
      decreases |p| - n
    {
      if n < |p| {
        assert p[..n + 1][..|p[..n + 1]| - 1] == p[..n];
        PrefixMissing(p, n + 1);
      } else {
        assert p[..n] == p;
      }
    }
  }

  /** The loop over the locations of a file: afterwards Get finds, for every path, the last location with
      exactly that path. */
  method AddAll(locations: seq<Location>) returns (root: Comments)
    ensures root.Valid() && root.Contents() == Filed(locations)
  {
    root := new Comments();
    for i := 0 to |locations|
      invariant root.Valid() && root.Contents() == Filed(locations[..i])
      invariant forall c :: c in root.nodes.Values ==> fresh(c)
      invariant fresh(root)
    {
      assert locations[..i + 1][..i] == locations[..i];
      root.Add(locations[i]);
    }
    assert locations[..|locations|] == locations;
  }
}
