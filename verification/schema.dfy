/**
  The index graph: every node ever created, keyed by id, plus the root layer.
  The Python classes live in gpt_index/schema.py, which is not part of this
  model; their fields are read off their uses in gpt_index/index.py.
 */
module Schema {

  /** A leaf chunk (no children) or a summary of the nodes it lists as children. */
  datatype Node = Node(text: string, index: nat, childIndices: set<nat>)

  datatype IndexGraph = IndexGraph(allNodes: map<nat, Node>, rootNodes: map<nat, Node>)

  /** The ids in `ks` are exactly lo, lo + 1, ..., hi - 1. */
  ghost predicate Spans(ks: set<nat>, lo: nat, hi: nat)
  {
    forall k :: k in ks <==> lo <= k < hi
  }

  lemma {:induction false} SpanSize(ks: set<nat>, lo: nat, hi: nat)
    requires lo <= hi && Spans(ks, lo, hi)
    ensures |ks| == hi - lo
    decreases hi - lo
  {
    if lo == hi {
      assert ks == {} by {
        assert forall k :: k !in ks;
      }
    } else {
      assert lo in ks;
      var rest := ks - {lo};
      assert Spans(rest, lo + 1, hi);
      SpanSize(rest, lo + 1, hi);
    }
  }

  /** Every child of `n` is a node of `all` with a smaller id than `n`. */
  ghost predicate ChildrenBelow(all: map<nat, Node>, n: Node)
  {
    forall c :: c in n.childIndices ==> c in all && all[c].index < n.index
  }

  ghost predicate Descending(all: map<nat, Node>)
  {
    forall k :: k in all ==> ChildrenBelow(all, all[k])
  }

  ghost predicate KeyedByIndex(m: map<nat, Node>)
  {
    forall k :: k in m ==> m[k].index == k
  }

  /** The ids in use are exactly 0 .. |m| - 1. */
  ghost predicate Dense(m: map<nat, Node>)
  {
    Spans(m.Keys, 0, |m|)
  }

  /** No id is the child of two different parents. */
  ghost predicate Forest(all: map<nat, Node>)
  {
    forall p, q :: p in all && q in all && p != q ==> all[p].childIndices !! all[q].childIndices
  }

  ghost predicate SubMap(a: map<nat, Node>, b: map<nat, Node>)
  {
    forall k :: k in a ==> k in b && a[k] == b[k]
  }

  ghost predicate Parentless(ids: set<nat>, all: map<nat, Node>)
  {
    forall k, p :: k in ids && p in all ==> k !in all[p].childIndices
  }

  /** Some node of `all` lists `k` among its children. */
  ghost predicate HasParent(k: nat, all: map<nat, Node>)
  {
    exists p :: p in all && k in all[p].childIndices
  }

  /** Every node is in the top layer `top` or is the child of some node. */
  ghost predicate Covered(top: map<nat, Node>, all: map<nat, Node>)
  {
    forall k :: k in all ==> k in top || HasParent(k, all)
  }

  /**
    The shape the builder keeps between passes, with `top` the layer built
    last: dense ids that match the keys, children with smaller ids, a forest
    whose roots are exactly the nodes of `top`.
   */
  ghost predicate Layered(top: map<nat, Node>, all: map<nat, Node>)
  {
    && Dense(all)
    && KeyedByIndex(all)
    && Descending(all)
    && Forest(all)
    && SubMap(top, all)
    && Parentless(top.Keys, all)
    && Covered(top, all)
  }

  ghost predicate WellFormed(g: IndexGraph)
  {
    Layered(g.rootNodes, g.allNodes)
  }
}
