/**
  `GPTIndexBuilder.build_from_text` and `_build_index_from_nodes`
  (gpt_index/index.py): leaves get ids 0 .. K - 1; each pass slices the
  id-sorted layer into groups of `b` (`num_children`), summarises every group
  and numbers the summaries on from the current size of `all_nodes`; passes
  repeat until a layer has at most `b` nodes. The summariser is a parameter.
 */
module Builder {
  import opened Schema
  import opened Text
  import opened Listing

  /** `len(range(0, n, b))`: how many slices of at most `b` items cover `n` items. */
  function CeilDiv(n: nat, b: nat): nat
    requires b >= 1
    decreases n
  {
    if n == 0 then 0 else if n <= b then 1 else 1 + CeilDiv(n - b, b)
  }

  /** `CeilDiv(n, b)` is the ceiling of n / b. */
  lemma {:induction false} CeilDivBounds(n: nat, b: nat)
    requires b >= 1
    ensures n <= CeilDiv(n, b) * b < n + b
    decreases n
  {
    if n > b {
      var c := CeilDiv(n - b, b);
      CeilDivBounds(n - b, b);
      assert (1 + c) * b == b + c * b;
    }
  }

  lemma {:induction false} CeilDivAtMost(n: nat, b: nat)
    requires b >= 1
    ensures CeilDiv(n, b) <= n
    decreases n
  {
    if n > b {
      CeilDivAtMost(n - b, b);
    }
  }

  /** With a fan-in of at least 2, a layer of two or more nodes always shrinks. */
  lemma CeilDivShrinks(n: nat, b: nat)
    requires b >= 2 && n >= 2
    ensures CeilDiv(n, b) < n
  {
    if n > b {
      CeilDivAtMost(n - b, b);
    }
  }

  /** With a fan-in of 1, a layer never shrinks. */
  lemma {:induction false} CeilDivUnit(n: nat)
    ensures CeilDiv(n, 1) == n
    decreases n
  {
    if n > 1 {
      CeilDivUnit(n - 1);
    }
  }

  /** The groups laid end to end. */
  function Flat(gs: seq<seq<Node>>): seq<Node>
  {
    if gs == [] then [] else gs[0] + Flat(gs[1..])
  }

  /**
    The slices `layer[i : i + b]` for i = 0, b, 2b, ... (lines 99-101): as
    many as `CeilDiv`, each holding 1 to `b` nodes.
   */
  function Groups(layer: seq<Node>, b: nat): (gs: seq<seq<Node>>)
    requires b >= 1
    ensures |gs| == CeilDiv(|layer|, b)
    ensures forall k :: 0 <= k < |gs| ==> 1 <= |gs[k]| <= b
    decreases |layer|
  {
    if |layer| == 0 then []
    else if |layer| <= b then [layer]
    else [layer[..b]] + Groups(layer[b..], b)
  }

  /** Laid end to end, the groups are the layer again: nothing lost, duplicated or reordered. */
  lemma {:induction false} GroupsConcatenate(layer: seq<Node>, b: nat)
    requires b >= 1
    ensures Flat(Groups(layer, b)) == layer
    decreases |layer|
  {
    var gs := Groups(layer, b);
    if |layer| == 0 {
    } else if |layer| <= b {
      assert Flat(gs) == layer + Flat([]);
    } else {
      GroupsConcatenate(layer[b..], b);
      assert gs[1..] == Groups(layer[b..], b);
      assert layer == layer[..b] + layer[b..];
    }
  }

  /** Every node of a group is a node of the layer. */
  lemma {:induction false} GroupMember(layer: seq<Node>, b: nat, k: nat, x: Node)
    requires b >= 1 && k < |Groups(layer, b)| && x in Groups(layer, b)[k]
    ensures x in layer
    decreases |layer|
  {
    if |layer| > b {
      if k > 0 {
        assert Groups(layer, b)[k] == Groups(layer[b..], b)[k - 1];
        GroupMember(layer[b..], b, k - 1, x);
      }
    }
  }

  /** Every node of the layer lies in some group. */
  lemma {:induction false} GroupCovers(layer: seq<Node>, b: nat, p: nat)
    requires b >= 1 && p < |layer|
    ensures exists k :: 0 <= k < |Groups(layer, b)| && layer[p] in Groups(layer, b)[k]
    decreases |layer|
  {
    var gs := Groups(layer, b);
    if |layer| <= b {
      assert layer[p] in gs[0];
    } else if p < b {
      assert layer[p] == gs[0][p];
    } else {
      GroupCovers(layer[b..], b, p - b);
      var k :| 0 <= k < |Groups(layer[b..], b)| && layer[b..][p - b] in Groups(layer[b..], b)[k];
      assert gs[k + 1] == Groups(layer[b..], b)[k];
    }
  }

  /** Where the k-th slice of `b` items starts. */
  function SliceStart(k: nat, b: nat): nat
  {
    k * b
  }

  /** Where the k-th slice of `b` items of a sequence of length `n` ends: `min((k + 1) * b, n)`. */
  function SliceEnd(k: nat, b: nat, n: nat): nat
  {
    if (k + 1) * b <= n then (k + 1) * b else n
  }

  lemma DropSlice(layer: seq<Node>, b: nat, lo: nat, hi: nat)
    requires b <= |layer| && lo <= hi <= |layer| - b
    ensures layer[b..][lo..hi] == layer[b + lo .. b + hi]
  {
    assert forall i :: 0 <= i < hi - lo ==> layer[b..][lo..hi][i] == layer[b + lo + i];
  }

  /** Group k is exactly the slice `layer[k * b : (k + 1) * b]`. */
  lemma {:induction false} GroupIsSlice(layer: seq<Node>, b: nat, k: nat)
    requires b >= 1 && k < |Groups(layer, b)|
    ensures SliceStart(k, b) < SliceEnd(k, b, |layer|) <= |layer|
    ensures Groups(layer, b)[k] == layer[SliceStart(k, b) .. SliceEnd(k, b, |layer|)]
    decreases |layer|
  {
    var gs := Groups(layer, b);
    if |layer| > b && k > 0 {
      var rest := layer[b..];
      var j := k - 1;
      GroupIsSlice(rest, b, j);
      assert gs[k] == Groups(rest, b)[j];
      assert SliceStart(j, b) + b == SliceStart(k, b);
      assert (j + 1) * b + b == (k + 1) * b;
      assert SliceEnd(j, b, |rest|) + b == SliceEnd(k, b, |layer|);
      DropSlice(layer, b, SliceStart(j, b), SliceEnd(j, b, |rest|));
    }
  }

  lemma IncreasingTail(layer: seq<Node>, b: nat)
    requires IndicesIncreasing(layer) && b <= |layer|
    ensures IndicesIncreasing(layer[b..])
  {
    var rest := layer[b..];
    forall p, q | 0 <= p < q < |rest|
      ensures rest[p].index < rest[q].index
    {
      assert rest[p] == layer[b + p] && rest[q] == layer[b + q];
    }
  }

  /** In an id-sorted layer, every node of an earlier group has a smaller id than every node of a later one. */
  lemma {:induction false} GroupsOrdered(layer: seq<Node>, b: nat, i: nat, j: nat, x: Node, y: Node)
    requires b >= 1 && IndicesIncreasing(layer)
    requires i < j < |Groups(layer, b)| && x in Groups(layer, b)[i] && y in Groups(layer, b)[j]
    ensures x.index < y.index
    decreases |layer|
  {
    var gs := Groups(layer, b);
    var rest := layer[b..];
    var tail := Groups(rest, b);
    assert gs[j] == tail[j - 1];
    if i == 0 {
      GroupMember(rest, b, j - 1, y);
      var p :| 0 <= p < b && layer[p] == x;
      var q :| 0 <= q < |rest| && rest[q] == y;
      assert layer[b + q] == y;
    } else {
      assert gs[i] == tail[i - 1];
      IncreasingTail(layer, b);
      GroupsOrdered(rest, b, i - 1, j - 1, x, y);
    }
  }

  /** Python's `{n.index for n in chunk}`, the summary node, and the loop of lines 99-109. */
  function SummaryNode(summarize: string -> string, group: seq<Node>, id: nat): (n: Node)
    ensures (forall i :: 0 <= i < |group| ==> group[i].index < id) ==> forall c :: c in n.childIndices ==> c < n.index
  {
    Node(summarize(TextFromNodes(group)), id, IdsOf(group))
  }

  /** The new layer: group k becomes node `start + k` (lines 99-109). */
  function MergePass(summarize: string -> string, gs: seq<seq<Node>>, start: nat): (layer: map<nat, Node>)
    ensures Spans(layer.Keys, start, start + |gs|)
  {
    if gs == [] then map[]
    else
      var last := |gs| - 1;
      var prev := MergePass(summarize, gs[..last], start);
      var layer := prev[start + last := SummaryNode(summarize, gs[last], start + last)];
      layer
  }

  /** Node `start + k` of the new layer summarises group k and has that group's ids as children. */
  lemma {:induction false} MergePassEntry(summarize: string -> string, gs: seq<seq<Node>>, start: nat, k: nat)
    requires k < |gs|
    ensures start + k in MergePass(summarize, gs, start)
    ensures MergePass(summarize, gs, start)[start + k] == SummaryNode(summarize, gs[k], start + k)
  {
    var last := |gs| - 1;
    var prev := MergePass(summarize, gs[..last], start);
    assert MergePass(summarize, gs, start) == prev[start + last := SummaryNode(summarize, gs[last], start + last)];
    if k < last {
      MergePassEntry(summarize, gs[..last], start, k);
      assert gs[..last][k] == gs[k];
      assert start + k != start + last;
      assert MergePass(summarize, gs, start)[start + k] == prev[start + k];
    }
  }

  /** One pass of `_build_index_from_nodes` over the layer `cur`, numbering from `len(all_nodes)`. */
  function NextLayer(summarize: string -> string, cur: map<nat, Node>, all: map<nat, Node>, b: nat): (layer: map<nat, Node>)
    requires b >= 1
    ensures |layer| == CeilDiv(|cur|, b)
  {
    var gs := Groups(SortedNodeList(cur), b);
    var layer := MergePass(summarize, gs, |all|);
    SpanSize(layer.Keys, |all|, |all| + |gs|);
    layer
  }

  /**
    `_build_index_from_nodes`: merge passes until a layer has at most `b`
    nodes. The result is the final `all_nodes` and the root layer. Without
    `b >= 2` the passes of a layer of two or more nodes never end.
   */
  function BuildIndexFromNodes(summarize: string -> string, cur: map<nat, Node>, all: map<nat, Node>, b: nat): (g: IndexGraph)
    requires b >= 1 && (b >= 2 || |cur| <= 1)
    ensures |g.rootNodes| <= b
    ensures |g.rootNodes| == 0 <==> |cur| == 0
    decreases |cur|
  {
    var layer := NextLayer(summarize, cur, all, b);
    CeilDivAtMost(|cur|, b);
    if |layer| <= b then
      IndexGraph(all + layer, layer)
    else
      CeilDivShrinks(|cur|, b);
      BuildIndexFromNodes(summarize, layer, all + layer, b)
  }

  /** One leaf per chunk, the chunk's position as its id (line 85). */
  function Leaves(chunks: seq<string>): (leaves: map<nat, Node>)
    ensures Spans(leaves.Keys, 0, |chunks|)
    ensures forall i :: 0 <= i < |chunks| ==> leaves[i] == Node(chunks[i], i, {})
  {
    map i: nat | i < |chunks| :: Node(chunks[i], i, {})
  }

  /** `build_from_text`, from the chunks the text splitter produced. */
  function BuildFromText(summarize: string -> string, chunks: seq<string>, b: nat): (g: IndexGraph)
    requires b >= 1 && (b >= 2 || |chunks| <= 1)
    ensures |g.rootNodes| <= b
    ensures |g.rootNodes| == 0 <==> |chunks| == 0
  {
    var leaves := Leaves(chunks);
    SpanSize(leaves.Keys, 0, |chunks|);
    BuildIndexFromNodes(summarize, leaves, leaves, b)
  }

  lemma IdsOfCons(g: seq<Node>)
    requires g != []
    ensures IdsOf(g) == {g[0].index} + IdsOf(g[1..])
  {
    assert g == [g[0]] + g[1..];
  }

  lemma FirstIdFresh(g: seq<Node>)
    requires g != [] && IndicesIncreasing(g)
    ensures g[0].index !in IdsOf(g[1..])
  {
    var rest := g[1..];
    forall n | n in rest
      ensures n.index != g[0].index
    {
      var j :| 0 <= j < |rest| && rest[j] == n;
      assert g[j + 1] == n;
    }
  }

  /** In an id-sorted sequence no two nodes share an id, so it has as many ids as nodes. */
  lemma {:induction false} IdsOfSize(g: seq<Node>)
    requires IndicesIncreasing(g)
    ensures |IdsOf(g)| == |g|
    decreases |g|
  {
    if g != [] {
      IncreasingTail(g, 1);
      IdsOfSize(g[1..]);
      IdsOfCons(g);
      FirstIdFresh(g);
    } else {
      assert IdsOf(g) == {};
    }
  }

  lemma IncreasingSlice(layer: seq<Node>, lo: nat, hi: nat)
    requires IndicesIncreasing(layer) && lo <= hi <= |layer|
    ensures IndicesIncreasing(layer[lo..hi])
  {
    var g := layer[lo..hi];
    forall i, j | 0 <= i < j < |g|
      ensures g[i].index < g[j].index
    {
      assert g[i] == layer[lo + i] && g[j] == layer[lo + j];
    }
  }

  lemma GroupIncreasing(layer: seq<Node>, b: nat, k: nat)
    requires b >= 1 && IndicesIncreasing(layer) && k < |Groups(layer, b)|
    ensures IndicesIncreasing(Groups(layer, b)[k])
  {
    GroupIsSlice(layer, b, k);
    IncreasingSlice(layer, SliceStart(k, b), SliceEnd(k, b, |layer|));
  }

  /** A group of an id-sorted layer contributes as many distinct ids as it has nodes, all ids of the layer. */
  lemma GroupIds(list: seq<Node>, b: nat, k: nat)
    requires b >= 1 && IndicesIncreasing(list) && k < |Groups(list, b)|
    ensures IdsOf(Groups(list, b)[k]) <= IdsOf(list)
    ensures |IdsOf(Groups(list, b)[k])| == |Groups(list, b)[k]|
  {
    var g := Groups(list, b)[k];
    forall x: Node | x in g
      ensures x in list
    {
      GroupMember(list, b, k, x);
    }
    GroupIncreasing(list, b, k);
    IdsOfSize(g);
  }

  /** One pass is the merge of the groups of the id-sorted layer. */
  lemma NextLayerIs(s: string -> string, cur: map<nat, Node>, all: map<nat, Node>, b: nat)
    requires b >= 1
    ensures NextLayer(s, cur, all, b) == MergePass(s, Groups(SortedNodeList(cur), b), |all|)
  {
  }

  /** Every node of `layer` has its children among the ids `ids`. */
  ghost predicate ChildrenIn(layer: map<nat, Node>, ids: set<nat>)
  {
    forall id :: id in layer ==> layer[id].childIndices <= ids
  }

  /** Every node of `layer` has between 1 and `b` children. */
  ghost predicate FanIn(layer: map<nat, Node>, b: nat)
  {
    forall id :: id in layer ==> 1 <= |layer[id].childIndices| <= b
  }

  /** Every id in `ids` is the child of some node of `layer`. */
  ghost predicate Adopts(layer: map<nat, Node>, ids: set<nat>)
  {
    forall c :: c in ids ==> HasParent(c, layer)
  }

  /**
    What a pass makes of the layer whose ids are `cur`: new nodes numbered
    on from `start`, each with 1 to `b` ids of `cur` as children, no id
    the child of two new nodes and every id of `cur` the child of one.
   */
  ghost predicate Merges(layer: map<nat, Node>, cur: set<nat>, start: nat, b: nat)
  {
    && Spans(layer.Keys, start, start + |layer|)
    && KeyedByIndex(layer)
    && ChildrenIn(layer, cur)
    && FanIn(layer, b)
    && Forest(layer)
    && Adopts(layer, cur)
  }

  /** Node `id` of a pass over an id-sorted layer summarises one group and owns that group's ids. */
  lemma PassEntry(s: string -> string, list: seq<Node>, b: nat, start: nat, id: nat)
    requires b >= 1 && IndicesIncreasing(list) && id in MergePass(s, Groups(list, b), start)
    ensures start <= id < start + |Groups(list, b)|
    ensures MergePass(s, Groups(list, b), start)[id] == SummaryNode(s, Groups(list, b)[id - start], id)
    ensures MergePass(s, Groups(list, b), start)[id].childIndices <= IdsOf(list)
    ensures 1 <= |MergePass(s, Groups(list, b), start)[id].childIndices| <= b
  {
    var gs := Groups(list, b);
    var k := id - start;
    assert start + k == id;
    MergePassEntry(s, gs, start, k);
    GroupIds(list, b, k);
  }

  lemma IdsDisjoint(g: seq<Node>, h: seq<Node>)
    requires forall x, y :: x in g && y in h ==> x.index < y.index
    ensures IdsOf(g) !! IdsOf(h)
  {
  }

  /** Groups i < j of an id-sorted layer own disjoint sets of ids. */
  lemma PassDisjoint(s: string -> string, list: seq<Node>, b: nat, start: nat, i: nat, j: nat)
    requires b >= 1 && IndicesIncreasing(list) && i < j < |Groups(list, b)|
    ensures MergePass(s, Groups(list, b), start)[start + i].childIndices !! MergePass(s, Groups(list, b), start)[start + j].childIndices
  {
    var gs := Groups(list, b);
    MergePassEntry(s, gs, start, i);
    MergePassEntry(s, gs, start, j);
    forall x: Node, y: Node | x in gs[i] && y in gs[j]
      ensures x.index < y.index
    {
      GroupsOrdered(list, b, i, j, x, y);
    }
    IdsDisjoint(gs[i], gs[j]);
  }

  lemma PassCovers(s: string -> string, list: seq<Node>, b: nat, start: nat, p: nat)
    requires b >= 1 && p < |list|
    ensures HasParent(list[p].index, MergePass(s, Groups(list, b), start))
  {
    var gs := Groups(list, b);
    GroupCovers(list, b, p);
    var k :| 0 <= k < |gs| && list[p] in gs[k];
    MergePassEntry(s, gs, start, k);
    assert list[p].index in IdsOf(gs[k]);
  }

  lemma PassOwners(s: string -> string, list: seq<Node>, b: nat, start: nat)
    requires b >= 1 && IndicesIncreasing(list)
    ensures KeyedByIndex(MergePass(s, Groups(list, b), start))
    ensures ChildrenIn(MergePass(s, Groups(list, b), start), IdsOf(list))
    ensures FanIn(MergePass(s, Groups(list, b), start), b)
  {
    var layer := MergePass(s, Groups(list, b), start);
    forall id | id in layer
      ensures layer[id].index == id
      ensures layer[id].childIndices <= IdsOf(list) && 1 <= |layer[id].childIndices| <= b
    {
      PassEntry(s, list, b, start, id);
    }
  }

  lemma PassForest(s: string -> string, list: seq<Node>, b: nat, start: nat)
    requires b >= 1 && IndicesIncreasing(list)
    ensures Forest(MergePass(s, Groups(list, b), start))
  {
    var layer := MergePass(s, Groups(list, b), start);
    forall p, q | p in layer && q in layer && p != q
      ensures layer[p].childIndices !! layer[q].childIndices
    {
      var i, j := p - start, q - start;
      assert start + i == p && start + j == q;
      if p < q {
        PassDisjoint(s, list, b, start, i, j);
      } else {
        PassDisjoint(s, list, b, start, j, i);
      }
    }
  }

  lemma PassAdopts(s: string -> string, list: seq<Node>, b: nat, start: nat)
    requires b >= 1
    ensures Adopts(MergePass(s, Groups(list, b), start), IdsOf(list))
  {
    forall c | c in IdsOf(list)
      ensures HasParent(c, MergePass(s, Groups(list, b), start))
    {
      var p :| 0 <= p < |list| && list[p].index == c;
      PassCovers(s, list, b, start, p);
    }
  }

  /** A pass over an id-sorted layer has the shape `Merges` describes. */
  lemma PassMerges(s: string -> string, list: seq<Node>, b: nat, start: nat)
    requires b >= 1 && IndicesIncreasing(list)
    ensures Merges(MergePass(s, Groups(list, b), start), IdsOf(list), start, b)
  {
    var layer := MergePass(s, Groups(list, b), start);
    SpanSize(layer.Keys, start, start + |Groups(list, b)|);
    PassOwners(s, list, b, start);
    PassForest(s, list, b, start);
    PassAdopts(s, list, b, start);
  }

  /** One pass of the builder over a layer keyed by id has the shape `Merges` describes. */
  lemma NextLayerMerges(s: string -> string, cur: map<nat, Node>, all: map<nat, Node>, b: nat)
    requires b >= 1 && KeyedByIndex(cur)
    ensures Merges(NextLayer(s, cur, all, b), cur.Keys, |all|, b)
  {
    SortedNodeListOrdered(cur);
    NextLayerIs(s, cur, all, b);
    PassMerges(s, SortedNodeList(cur), b, |all|);
  }

  /** The nodes of the new layer take ids that `all` does not use. */
  lemma StepFresh(all: map<nat, Node>, layer: map<nat, Node>)
    requires Spans(all.Keys, 0, |all|) && Spans(layer.Keys, |all|, |all| + |layer|)
    ensures forall k :: k in layer ==> k !in all
    ensures Spans((all + layer).Keys, 0, |all| + |layer|)
    ensures |all + layer| == |all| + |layer|
  {
    var ks := (all + layer).Keys;
    forall k: nat
      ensures k in ks <==> 0 <= k < |all| + |layer|
    {
      assert k in ks <==> k in all.Keys || k in layer.Keys;
    }
    SpanSize(ks, 0, |all| + |layer|);
  }

  lemma StepDense(all: map<nat, Node>, layer: map<nat, Node>)
    requires Dense(all) && Spans(layer.Keys, |all|, |all| + |layer|)
    ensures Dense(all + layer)
  {
    StepFresh(all, layer);
  }

  lemma StepDescending(cur: set<nat>, all: map<nat, Node>, layer: map<nat, Node>)
    requires Dense(all) && KeyedByIndex(all) && Descending(all) && cur <= all.Keys
    requires Spans(layer.Keys, |all|, |all| + |layer|) && KeyedByIndex(layer) && ChildrenIn(layer, cur)
    ensures Descending(all + layer)
  {
    var all' := all + layer;
    StepFresh(all, layer);
    forall k | k in all'
      ensures ChildrenBelow(all', all'[k])
    {
      forall c | c in all'[k].childIndices
        ensures c in all' && all'[c].index < all'[k].index
      {
        if k in layer {
          assert c in cur && c in all && c < |all| <= k;
        } else {
          assert ChildrenBelow(all, all[k]);
        }
        assert c !in layer;
      }
    }
  }

  lemma StepForest(cur: set<nat>, all: map<nat, Node>, layer: map<nat, Node>)
    requires Dense(all) && Forest(all) && Parentless(cur, all)
    requires Spans(layer.Keys, |all|, |all| + |layer|) && ChildrenIn(layer, cur) && Forest(layer)
    ensures Forest(all + layer)
  {
    var all' := all + layer;
    StepFresh(all, layer);
    forall p, q | p in all' && q in all' && p != q
      ensures all'[p].childIndices !! all'[q].childIndices
    {
      if p in layer && q !in layer {
        assert all'[p].childIndices <= cur;
      } else if q in layer && p !in layer {
        assert all'[q].childIndices <= cur;
      }
    }
  }

  lemma StepParentless(cur: set<nat>, all: map<nat, Node>, layer: map<nat, Node>)
    requires Dense(all) && Descending(all) && cur <= all.Keys
    requires Spans(layer.Keys, |all|, |all| + |layer|) && ChildrenIn(layer, cur)
    ensures Parentless(layer.Keys, all + layer)
  {
    var all' := all + layer;
    StepFresh(all, layer);
    forall k, p | k in layer && p in all'
      ensures k !in all'[p].childIndices
    {
      if p in layer {
        assert all'[p].childIndices <= cur;
      } else {
        assert ChildrenBelow(all, all[p]);
      }
    }
  }

  lemma StepCovered(cur: map<nat, Node>, all: map<nat, Node>, layer: map<nat, Node>)
    requires Dense(all) && Covered(cur, all)
    requires Spans(layer.Keys, |all|, |all| + |layer|) && Adopts(layer, cur.Keys)
    ensures Covered(layer, all + layer)
  {
    var all' := all + layer;
    StepFresh(all, layer);
    forall k | k in all' && k !in layer
      ensures HasParent(k, all')
    {
      if k in cur {
        assert HasParent(k, layer);
        var id :| id in layer && k in layer[id].childIndices;
        assert all'[id] == layer[id];
      } else {
        assert HasParent(k, all);
        var p :| p in all && k in all[p].childIndices;
        assert all'[p] == all[p];
      }
    }
  }

  lemma StepKeyed(all: map<nat, Node>, layer: map<nat, Node>)
    requires Spans(all.Keys, 0, |all|) && Spans(layer.Keys, |all|, |all| + |layer|)
    requires KeyedByIndex(all) && KeyedByIndex(layer)
    ensures KeyedByIndex(all + layer) && SubMap(all, all + layer) && SubMap(layer, all + layer)
  {
    StepFresh(all, layer);
  }

  lemma CurInAll(cur: map<nat, Node>, all: map<nat, Node>)
    requires SubMap(cur, all)
    ensures cur.Keys <= all.Keys
  {
  }

  /** A pass keeps the builder's invariant, with the new layer as the top. */
  lemma LayeredStep(cur: map<nat, Node>, all: map<nat, Node>, layer: map<nat, Node>, b: nat)
    requires Layered(cur, all) && Merges(layer, cur.Keys, |all|, b)
    ensures Layered(layer, all + layer)
    ensures SubMap(all, all + layer)
  {
    CurInAll(cur, all);
    StepKeyed(all, layer);
    StepDense(all, layer);
    StepDescending(cur.Keys, all, layer);
    StepForest(cur.Keys, all, layer);
    StepParentless(cur.Keys, all, layer);
    StepCovered(cur, all, layer);
  }

  lemma {:induction false} SubMapTrans(a: map<nat, Node>, b: map<nat, Node>, c: map<nat, Node>)
    requires SubMap(a, b) && SubMap(b, c)
    ensures SubMap(a, c)
  {
    forall k | k in a
      ensures k in c && a[k] == c[k]
    {
      assert k in b;
    }
  }

  lemma TopKeyed(top: map<nat, Node>, all: map<nat, Node>)
    requires Layered(top, all)
    ensures KeyedByIndex(top)
  {
    forall k | k in top
      ensures top[k].index == k
    {
      assert k in all && top[k] == all[k];
    }
  }

  /**
    `_build_index_from_nodes` keeps the invariant: whatever the summariser,
    the result is a well-formed graph that keeps every node it started
    with, with at most `b` roots, and none exactly when it started with none.
   */
  lemma {:induction false} BuildLayered(s: string -> string, cur: map<nat, Node>, all: map<nat, Node>, b: nat)
    requires b >= 1 && (b >= 2 || |cur| <= 1) && Layered(cur, all)
    ensures WellFormed(BuildIndexFromNodes(s, cur, all, b))
    ensures SubMap(all, BuildIndexFromNodes(s, cur, all, b).allNodes)
    decreases |cur|
  {
    var layer := NextLayer(s, cur, all, b);
    assert Layered(layer, all + layer) && SubMap(all, all + layer) by {
      TopKeyed(cur, all);
      NextLayerMerges(s, cur, all, b);
      LayeredStep(cur, all, layer, b);
    }
    CeilDivAtMost(|cur|, b);
    var g := BuildIndexFromNodes(s, cur, all, b);
    if |layer| <= b {
      assert g == IndexGraph(all + layer, layer);
    } else {
      CeilDivShrinks(|cur|, b);
      assert g == BuildIndexFromNodes(s, layer, all + layer, b);
      BuildLayered(s, layer, all + layer, b);
      SubMapTrans(all, all + layer, g.allNodes);
    }
  }

  /** The leaves alone: ids 0 .. K - 1, no children, every one a root. */
  lemma LeavesLayered(chunks: seq<string>)
    ensures Layered(Leaves(chunks), Leaves(chunks))
  {
    var leaves := Leaves(chunks);
    SpanSize(leaves.Keys, 0, |chunks|);
  }

  /** `build_from_text` yields a well-formed graph that keeps the leaves. */
  lemma BuildFromTextLayered(s: string -> string, chunks: seq<string>, b: nat)
    requires b >= 1 && (b >= 2 || |chunks| <= 1)
    ensures WellFormed(BuildFromText(s, chunks, b)) && SubMap(Leaves(chunks), BuildFromText(s, chunks, b).allNodes)
  {
    var leaves := Leaves(chunks);
    SpanSize(leaves.Keys, 0, |chunks|);
    assert BuildFromText(s, chunks, b) == BuildIndexFromNodes(s, leaves, leaves, b);
    LeavesLayered(chunks);
    BuildLayered(s, leaves, leaves, b);
  }

  /**
    `build_from_text`: a well-formed graph (dense ids, children below their
    parents, a forest whose roots are the root layer) in which the leaves
    keep the chunks in order under ids 0 .. K - 1.
   */
  lemma BuildFromTextWellFormed(s: string -> string, chunks: seq<string>, b: nat)
    requires b >= 1 && (b >= 2 || |chunks| <= 1)
    ensures WellFormed(BuildFromText(s, chunks, b))
    ensures forall i :: 0 <= i < |chunks| ==> i in BuildFromText(s, chunks, b).allNodes && BuildFromText(s, chunks, b).allNodes[i] == Node(chunks[i], i, {})
  {
    var g := BuildFromText(s, chunks, b);
    var leaves := Leaves(chunks);
    BuildFromTextLayered(s, chunks, b);
    forall i | 0 <= i < |chunks|
      ensures i in g.allNodes && g.allNodes[i] == Node(chunks[i], i, {})
    {
      assert i in leaves;
    }
  }

  /** With a fan-in of at least 2, a pass over two or more nodes yields fewer nodes, so the passes end. */
  lemma PassShrinks(s: string -> string, cur: map<nat, Node>, all: map<nat, Node>, b: nat)
    requires b >= 2 && |cur| >= 2
    ensures |NextLayer(s, cur, all, b)| < |cur|
  {
    CeilDivShrinks(|cur|, b);
  }

  /** With a fan-in of 1, a pass yields as many nodes as it was given, so the Python loop never ends on two or more chunks. */
  lemma UnitFanIn(s: string -> string, cur: map<nat, Node>, all: map<nat, Node>)
    ensures |NextLayer(s, cur, all, 1)| == |cur|
  {
    CeilDivUnit(|cur|);
  }

  /**
    The k-th node of a pass is numbered `|all| + k` and summarises the k-th
    slice of `b` nodes of the id-sorted layer, the concatenated texts of
    that slice being what the summariser is given.
   */
  lemma PassSpec(s: string -> string, cur: map<nat, Node>, all: map<nat, Node>, b: nat, k: nat)
    requires b >= 1 && KeyedByIndex(cur) && k < |NextLayer(s, cur, all, b)|
    ensures var lo, hi := SliceStart(k, b), SliceEnd(k, b, |cur|);
      && lo < hi <= |cur|
      && |all| + k in NextLayer(s, cur, all, b)
      && NextLayer(s, cur, all, b)[|all| + k]
         == Node(s(TextFromNodes(SortedNodeList(cur)[lo..hi])), |all| + k, IdsOf(SortedNodeList(cur)[lo..hi]))
  {
    var list := SortedNodeList(cur);
    var gs := Groups(list, b);
    var layer := NextLayer(s, cur, all, b);
    assert |all| + k in layer && layer[|all| + k] == SummaryNode(s, gs[k], |all| + k) by {
      NextLayerIs(s, cur, all, b);
      MergePassEntry(s, gs, |all|, k);
    }
    var lo, hi := SliceStart(k, b), SliceEnd(k, b, |cur|);
    assert lo < hi <= |cur| && gs[k] == list[lo..hi] by {
      GroupIsSlice(list, b, k);
    }
    assert SummaryNode(s, gs[k], |all| + k) == SummaryNode(s, list[lo..hi], |all| + k);
  }

  /** The leaves as `build_from_text` lists them: chunk i under id i. */
  function LeafList(chunks: seq<string>): (ns: seq<Node>)
    ensures |ns| == |chunks| && forall i :: 0 <= i < |chunks| ==> ns[i] == Node(chunks[i], i, {})
  {
    seq(|chunks|, i requires 0 <= i < |chunks| => Node(chunks[i], i, {}))
  }

  /** The ids 0, 1, ..., n - 1. */
  function Upto(n: nat): (ks: seq<nat>)
    ensures |ks| == n && forall i :: 0 <= i < n ==> ks[i] == i
  {
    if n == 0 then [] else Upto(n - 1) + [n - 1]
  }

  /** Sorting the leaves by id gives them back in chunk order. */
  lemma SortedLeaves(chunks: seq<string>)
    ensures SortedNodeList(Leaves(chunks)) == LeafList(chunks)
  {
    var leaves := Leaves(chunks);
    var ks := Upto(|chunks|);
    assert Enumerates(ks, leaves.Keys) by {
      forall k: nat
        ensures k in ks <==> k in leaves.Keys
      {
        if k < |chunks| {
          assert ks[k] == k;
        }
      }
    }
    SortedKeysUnique(leaves.Keys, ks);
    SortedNodeListAt(leaves);
  }

  lemma LeafTexts(chunks: seq<string>)
    ensures Texts(LeafList(chunks)) == chunks
  {
  }

  /** A group that fits in one slice is merged into the single node `start`. */
  lemma SingleGroup(s: string -> string, list: seq<Node>, b: nat, start: nat)
    requires 1 <= |list| <= b
    ensures MergePass(s, Groups(list, b), start) == map[start := SummaryNode(s, list, start)]
  {
    assert Groups(list, b) == [list];
    assert [list][..0] == [];
  }

  /**
    A corpus of 1 to `b` chunks takes exactly one pass: the root is the
    single node K, the summary of all the chunks joined by "\n" with a final
    "\n", whose children are the leaves 0 .. K - 1.
   */
  lemma SmallCorpus(s: string -> string, chunks: seq<string>, b: nat)
    requires 1 <= |chunks| <= b
    ensures var g, k := BuildFromText(s, chunks, b), |chunks|;
      && g.rootNodes == map[k := Node(s(Join("\n", chunks) + "\n"), k, IdsOf(LeafList(chunks)))]
      && g.allNodes == Leaves(chunks)[k := g.rootNodes[k]]
      && Spans(IdsOf(LeafList(chunks)), 0, k)
  {
    var k := |chunks|;
    var leaves := Leaves(chunks);
    var list := LeafList(chunks);
    var root := Node(s(Join("\n", chunks) + "\n"), k, IdsOf(list));
    var layer := NextLayer(s, leaves, leaves, b);
    assert layer == map[k := root] by {
      SpanSize(leaves.Keys, 0, k);
      NextLayerIs(s, leaves, leaves, b);
      SortedLeaves(chunks);
      SingleGroup(s, list, b, k);
      JoinedTexts(list);
      LeafTexts(chunks);
    }
    assert BuildFromText(s, chunks, b) == IndexGraph(leaves + layer, layer) by {
      SpanSize(leaves.Keys, 0, k);
    }
    UnionSingleton(leaves, k, root);
    LeafIds(chunks);
  }

  lemma UnionSingleton(m: map<nat, Node>, k: nat, v: Node)
    ensures m + map[k := v] == m[k := v]
  {
    var u, w := m + map[k := v], m[k := v];
    assert u.Keys == w.Keys;
    forall j | j in u
      ensures u[j] == w[j]
    {
    }
  }

  lemma LeafIds(chunks: seq<string>)
    ensures Spans(IdsOf(LeafList(chunks)), 0, |chunks|)
  {
    var list := LeafList(chunks);
    forall i: nat
      ensures i in IdsOf(list) <==> i < |chunks|
    {
      if i < |chunks| {
        assert list[i] in list;
      }
    }
  }

  /** An empty corpus gives an empty graph: no nodes and no roots. */
  lemma EmptyCorpus(s: string -> string, b: nat)
    requires b >= 1
    ensures BuildFromText(s, [], b) == IndexGraph(map[], map[])
  {
    var leaves := Leaves([]);
    assert leaves == map[];
    assert SortedNodeList(leaves) == [];
    assert Groups([], b) == [];
    assert NextLayer(s, leaves, leaves, b) == map[];
  }
}
