/**
  The query engine of gpt_index/index.py: `GPTIndex._query`,
  `_query_with_selected_node` and `query`. The language model is the
  function `predict`, from a filled-in template to its completion; the
  number extractor of gpt_index/utils.py is the function `extract`. Both are
  fields of the engine, so every result below holds whatever they return.
  Each call also returns the prompts it sent, in order, so that "no further
  call is made" can be stated.
 */
module Query {
  import opened Wrappers
  import opened Schema
  import opened Text
  import opened Listing

  /** The four templates the engine fills, with the values it fills them with. */
  datatype Prompt =
    | SelectOne(numChunks: nat, queryStr: string, contextList: string)
    | SelectMany(numChunks: nat, queryStr: string, contextList: string, branchingFactor: int)
    | TextQA(contextStr: string, queryStr: string)
    | Refine(queryStr: string, existingAnswer: string, contextMsg: string)

  /** The Python exceptions the code can raise on its own. */
  datatype PyError =
    | IndexError      // `cur_node_list[number - 1]` out of range
    | KeyError        // a child id missing from `all_nodes`
    | TypeError       // `"\n".join` over a `None` candidate
    | AttributeError  // `None.strip()` in `query`

  datatype Outcome<T> = Done(value: T) | Raised(error: PyError)

  /** What a call returns, and the prompts it sent to the model, in order. */
  datatype Run<T> = Run(outcome: Outcome<T>, calls: seq<Prompt>)

  datatype Engine = Engine(
    graph: IndexGraph,
    childBranchFactor: int,
    predict: Prompt -> string,
    extract: (string, int) -> seq<int>)

  /**
    Every child id of `n` is smaller than `n`'s own id. This is weaker than
    `Schema.ChildrenBelow`, which also asks that each child be stored: the
    engine must accept a graph with a missing child, since the code meets
    one by raising `KeyError` (line 159).
   */
  ghost predicate Below(n: Node)
  {
    forall c :: c in n.childIndices ==> c < n.index
  }

  /** Nodes stored under their ids, children below their parents: what makes the descent end. */
  ghost predicate Descends(all: map<nat, Node>)
  {
    forall k :: k in all ==> all[k].index == k && Below(all[k])
  }

  ghost predicate AllBelow(cur: map<nat, Node>)
  {
    forall k :: k in cur ==> Below(cur[k])
  }

  ghost predicate ListBelow(list: seq<Node>)
  {
    forall i :: 0 <= i < |list| ==> Below(list[i])
  }

  /** The graph an engine can query: the builder's graphs are such (`BuiltIsQueryable`). */
  ghost predicate Queryable(e: Engine)
  {
    Descends(e.graph.allNodes) && AllBelow(e.graph.rootNodes)
  }

  /** One more than the largest id in the list, 0 for an empty list. */
  function Rank(list: seq<Node>): (r: nat)
    ensures forall i :: 0 <= i < |list| ==> list[i].index < r
  {
    if list == [] then 0
    else
      var rest := Rank(list[1..]);
      assert forall i :: 1 <= i < |list| ==> list[i] == list[1..][i - 1];
      if list[0].index + 1 <= rest then rest else list[0].index + 1
  }

  lemma {:induction false} RankAtMost(list: seq<Node>, bound: nat)
    requires forall i :: 0 <= i < |list| ==> list[i].index < bound
    ensures Rank(list) <= bound
  {
    if list != [] {
      assert forall i :: 0 <= i < |list[1..]| ==> list[1..][i] == list[i + 1];
      RankAtMost(list[1..], bound);
    }
  }

  /** Every node of the sorted list is a node of the map. */
  lemma SortedMembers(m: map<nat, Node>, i: nat)
    requires i < |SortedNodeList(m)|
    ensures SortedKeys(m.Keys)[i] in m && SortedNodeList(m)[i] == m[SortedKeys(m.Keys)[i]]
  {
    SortedNodeListAt(m);
  }

  lemma SortedBelow(m: map<nat, Node>)
    requires AllBelow(m)
    ensures ListBelow(SortedNodeList(m))
  {
    forall i | 0 <= i < |SortedNodeList(m)|
      ensures Below(SortedNodeList(m)[i])
    {
      SortedMembers(m, i);
    }
  }

  lemma SortedRank(m: map<nat, Node>, bound: nat)
    requires forall k :: k in m ==> m[k].index < bound
    ensures Rank(SortedNodeList(m)) <= bound
  {
    var list := SortedNodeList(m);
    forall i | 0 <= i < |list|
      ensures list[i].index < bound
    {
      SortedMembers(m, i);
    }
    RankAtMost(list, bound);
  }

  /** Line 188 or line 195: the single-selection template when `child_branch_factor == 1`, the multiple one otherwise. */
  function SelectionPrompt(c: int, list: seq<Node>, q: string): (p: Prompt)
    ensures p.SelectOne? <==> c == 1
    ensures p.SelectOne? || p.SelectMany?
    ensures p.numChunks == |list| && p.queryStr == q && p.contextList == NumberedText(list)
    ensures p.SelectMany? ==> p.branchingFactor == c
  {
    if c == 1 then SelectOne(|list|, q, NumberedText(list))
    else SelectMany(|list|, q, NumberedText(list), c)
  }

  /**
    Python's `xs[i]` on a list of length `len`: the position it reads, or
    `None` where Python raises `IndexError`. Negative `i` counts from the end.
   */
  function PyPosition(i: int, len: nat): (p: Option<nat>)
    ensures p.Some? <==> -(len as int) <= i < len
    ensures p.Some? ==> p.value < len && (p.value == i || p.value == len + i)
  {
    if 0 <= i < len then Some(i)
    else if -(len as int) <= i < 0 then Some(len + i)
    else None
  }

  /** `{i: self.graph.all_nodes[i] for i in selected_node.child_indices}` (line 159). */
  function ChildMap(all: map<nat, Node>, ids: set<nat>): (r: Outcome<map<nat, Node>>)
    ensures r.Done? <==> ids <= all.Keys
    ensures r.Done? ==> r.value.Keys == ids && forall k :: k in ids ==> r.value[k] == all[k]
  {
    if ids <= all.Keys then Done(map k | k in ids :: all[k]) else Raised(KeyError)
  }

  /** The children of an internal node have smaller ranks and keep the descent condition. */
  lemma ChildrenRanked(all: map<nat, Node>, node: Node, children: map<nat, Node>)
    requires Descends(all) && Below(node)
    requires children.Keys == node.childIndices && forall k :: k in children ==> k in all && children[k] == all[k]
    ensures AllBelow(children)
    ensures Rank(SortedNodeList(children)) <= node.index
  {
    SortedRank(children, node.index);
  }

  /**
    `_query(cur_nodes, query_str)`: list the nodes in id order, ask the model
    which to descend into, and walk the numbers it names. `None` is the
    Python `None` the loop leaves behind when no number comes back.
   */
  function Select(e: Engine, cur: map<nat, Node>, q: string): (r: Run<Option<string>>)
    requires Descends(e.graph.allNodes) && AllBelow(cur)
    ensures r.calls != [] && r.calls[0] == SelectionPrompt(e.childBranchFactor, SortedNodeList(cur), q)
    decreases Rank(SortedNodeList(cur)), 3, 0
  {
    var list := SortedNodeList(cur);
    var prompt := SelectionPrompt(e.childBranchFactor, list, q);
    var response := e.predict(prompt);
    SortedBelow(cur);
    var walk := Walk(e, list, q, response, e.extract(response, e.childBranchFactor), None);
    Run(walk.outcome, [prompt] + walk.calls)
  }

  /**
    The loop of lines 207-227 over the numbers still to visit, `acc` being
    `result_response`: a number above the list length returns the raw
    response at once; any other is a Python index into the id-sorted list.
   */
  function Walk(e: Engine, list: seq<Node>, q: string, response: string, numbers: seq<int>, acc: Option<string>): (r: Run<Option<string>>)
    requires Descends(e.graph.allNodes) && ListBelow(list)
    ensures acc.Some? && r.outcome.Done? ==> r.outcome.value.Some?
    decreases Rank(list), 2, |numbers|
  {
    if numbers == [] then Run(Done(acc), [])
    else if numbers[0] > |list| then Run(Done(Some(response)), [])
    else match PyPosition(numbers[0] - 1, |list|)
      case None => Run(Raised(IndexError), [])
      case Some(p) =>
        var step := Resolve(e, list[p], q, acc);
        match step.outcome
          case Raised(err) => Run(Raised(err), step.calls)
          case Done(next) =>
            var rest := Walk(e, list, q, response, numbers[1..], next);
            Run(rest.outcome, step.calls + rest.calls)
  }

  /**
    The candidate answer for a node (lines 148-163): the QA template over a
    leaf's own text, or a nested `_query` over exactly the node's children.
   */
  function Candidate(e: Engine, node: Node, q: string): (r: Run<Option<string>>)
    requires Descends(e.graph.allNodes) && Below(node)
    ensures r.calls == [] <==> !(node.childIndices <= e.graph.allNodes.Keys)
    ensures r.calls == [] ==> r.outcome == Raised(KeyError)
    decreases node.index + 1, 0, 0
  {
    if node.childIndices == {} then
      var prompt := TextQA(node.text, q);
      Run(Done(Some(e.predict(prompt))), [prompt])
    else match ChildMap(e.graph.allNodes, node.childIndices)
      case Raised(err) => Run(Raised(err), [])
      case Done(children) =>
        ChildrenRanked(e.graph.allNodes, node, children);
        Select(e, children, q)
  }

  /**
    `_query_with_selected_node` (lines 134-178): without a previous answer
    the candidate is the answer; with one, the refine template merges the
    previous answer with the node's text and the candidate.
   */
  function Resolve(e: Engine, node: Node, q: string, prev: Option<string>): (r: Run<Option<string>>)
    requires Descends(e.graph.allNodes) && Below(node)
    ensures prev.Some? && r.outcome.Done? ==> r.outcome.value.Some?
    decreases node.index + 1, 1, 0
  {
    var cand := Candidate(e, node, q);
    match cand.outcome
      case Raised(_) => cand
      case Done(answer) =>
        if prev.None? then cand
        else if answer.None? then Run(Raised(TypeError), cand.calls)
        else
          var prompt := Refine(q, prev.value, node.text + "\n" + answer.value);
          Run(Done(Some(e.predict(prompt))), cand.calls + [prompt])
  }

  /**
    `query` (line 233): `_query` over the root layer, then `.strip()`; a
    `None` result makes the strip raise `AttributeError`.
   */
  function QueryIndex(e: Engine, q: string): (r: Run<string>)
    requires Queryable(e)
    ensures r.calls == Select(e, e.graph.rootNodes, q).calls
    ensures r.outcome.Done? <==> Select(e, e.graph.rootNodes, q).outcome.Done? && Select(e, e.graph.rootNodes, q).outcome.value.Some?
    ensures r.outcome.Done? ==> r.outcome.value == Strip(Select(e, e.graph.rootNodes, q).outcome.value.value)
    ensures Select(e, e.graph.rootNodes, q).outcome == Done(None) ==> r.outcome == Raised(AttributeError)
  {
    var top := Select(e, e.graph.rootNodes, q);
    match top.outcome
      case Raised(err) => Run(Raised(err), top.calls)
      case Done(None) => Run(Raised(AttributeError), top.calls)
      case Done(Some(answer)) => Run(Done(Strip(answer)), top.calls)
  }

  // ---- Selection and fallback ----

  /**
    A first number above the listing's length ends `_query` with the raw
    selection response: one prompt sent, no descent.
   */
  lemma SelectOutOfRange(e: Engine, cur: map<nat, Node>, q: string)
    requires Descends(e.graph.allNodes) && AllBelow(cur)
    requires var prompt := SelectionPrompt(e.childBranchFactor, SortedNodeList(cur), q);
      var numbers := e.extract(e.predict(prompt), e.childBranchFactor);
      numbers != [] && numbers[0] > |cur|
    ensures var prompt := SelectionPrompt(e.childBranchFactor, SortedNodeList(cur), q);
      Select(e, cur, q) == Run(Done(Some(e.predict(prompt))), [prompt])
  {
  }

  /** With no number in the response the loop never runs and `_query` returns `None`. */
  lemma SelectNoNumbers(e: Engine, cur: map<nat, Node>, q: string)
    requires Descends(e.graph.allNodes) && AllBelow(cur)
    requires var prompt := SelectionPrompt(e.childBranchFactor, SortedNodeList(cur), q);
      e.extract(e.predict(prompt), e.childBranchFactor) == []
    ensures var prompt := SelectionPrompt(e.childBranchFactor, SortedNodeList(cur), q);
      Select(e, cur, q) == Run(Done(None), [prompt])
  {
  }

  /**
    Once a number above the listing's length comes up, the answer built so
    far is dropped: the loop returns the raw response, unless an earlier
    number already raised.
   */
  lemma {:induction false} WalkFallback(e: Engine, list: seq<Node>, q: string, response: string, numbers: seq<int>, acc: Option<string>, j: nat)
    requires Descends(e.graph.allNodes) && ListBelow(list)
    requires j < |numbers| && numbers[j] > |list|
    requires forall i :: 0 <= i < j ==> numbers[i] <= |list|
    ensures Walk(e, list, q, response, numbers, acc).outcome.Raised?
         || Walk(e, list, q, response, numbers, acc).outcome == Done(Some(response))
    decreases j
  {
    if j > 0 {
      assert numbers[0] <= |list|;
      match PyPosition(numbers[0] - 1, |list|)
      case None =>
      case Some(p) =>
        var step := Resolve(e, list[p], q, acc);
        if step.outcome.Done? {
          var rest := numbers[1..];
          assert forall i :: 0 <= i < j - 1 ==> rest[i] == numbers[i + 1];
          WalkFallback(e, list, q, response, rest, step.outcome.value, j - 1);
        }
    }
  }

  /**
    Python's negative indexing: number 0 reads `cur_node_list[-1]`, so it
    picks the last node, exactly as the number N would.
   */
  lemma ZeroPicksLast(e: Engine, list: seq<Node>, q: string, response: string, numbers: seq<int>, acc: Option<string>)
    requires Descends(e.graph.allNodes) && ListBelow(list)
    requires list != [] && numbers != [] && numbers[0] == 0
    ensures Walk(e, list, q, response, numbers, acc) == Walk(e, list, q, response, [|list|] + numbers[1..], acc)
  {
    var other := [|list|] + numbers[1..];
    assert other[0] == |list| && other[1..] == numbers[1..];
  }

  /** Over an empty listing, a number of 0 or below raises `IndexError`; any positive number returns the raw response. */
  lemma EmptyListing(e: Engine, q: string, response: string, numbers: seq<int>, acc: Option<string>)
    requires Descends(e.graph.allNodes) && numbers != []
    ensures Walk(e, [], q, response, numbers, acc).outcome
         == if numbers[0] > 0 then Done(Some(response)) else Raised(IndexError)
  {
  }

  /** A number k in 1 .. N resolves the k-th node of the id-sorted list first: its prompts open the loop's trace. */
  lemma WalkSelects(e: Engine, list: seq<Node>, q: string, response: string, numbers: seq<int>, acc: Option<string>)
    requires Descends(e.graph.allNodes) && ListBelow(list)
    requires numbers != [] && 1 <= numbers[0] <= |list|
    ensures var step := Resolve(e, list[numbers[0] - 1], q, acc);
      && step.calls <= Walk(e, list, q, response, numbers, acc).calls
      && (step.outcome.Raised? ==> Walk(e, list, q, response, numbers, acc) == step)
  {
  }

  /** One round of the loop for a number k in 1 .. N whose resolution does not raise. */
  lemma WalkStep(e: Engine, list: seq<Node>, q: string, response: string, numbers: seq<int>, acc: Option<string>)
    requires Descends(e.graph.allNodes) && ListBelow(list)
    requires numbers != [] && 1 <= numbers[0] <= |list|
    requires Resolve(e, list[numbers[0] - 1], q, acc).outcome.Done?
    ensures var step := Resolve(e, list[numbers[0] - 1], q, acc);
      var rest := Walk(e, list, q, response, numbers[1..], step.outcome.value);
      Walk(e, list, q, response, numbers, acc) == Run(rest.outcome, step.calls + rest.calls)
  {
    assert PyPosition(numbers[0] - 1, |list|) == Some(numbers[0] - 1);
  }

  /** A response naming a single node k in 1 .. N: the query is that node's first resolution, after the selection prompt. */
  lemma SelectSingle(e: Engine, cur: map<nat, Node>, q: string, k: int, node: Node)
    requires Descends(e.graph.allNodes) && AllBelow(cur)
    requires var prompt := SelectionPrompt(e.childBranchFactor, SortedNodeList(cur), q);
      e.extract(e.predict(prompt), e.childBranchFactor) == [k]
    requires 1 <= k <= |cur| && SortedNodeList(cur)[k - 1] == node && Below(node)
    ensures var prompt := SelectionPrompt(e.childBranchFactor, SortedNodeList(cur), q);
      var first := Candidate(e, node, q);
      Select(e, cur, q) == Run(first.outcome, [prompt] + first.calls)
  {
    var list := SortedNodeList(cur);
    SortedBelow(cur);
    var response := e.predict(SelectionPrompt(e.childBranchFactor, list, q));
    WalkOne(e, list, q, response, k, node);
  }

  /** The loop over the single number k in 1 .. N: exactly the first resolution of node k, error or answer. */
  lemma WalkOne(e: Engine, list: seq<Node>, q: string, response: string, k: int, node: Node)
    requires Descends(e.graph.allNodes) && ListBelow(list)
    requires 1 <= k <= |list| && list[k - 1] == node
    ensures Walk(e, list, q, response, [k], None) == Candidate(e, node, q)
  {
    var step := Resolve(e, node, q, None);
    assert step == Candidate(e, node, q) by {
      ResolveFirst(e, node, q);
    }
    if step.outcome.Raised? {
      WalkSelects(e, list, q, response, [k], None);
      return;
    }
    WalkStep(e, list, q, response, [k], None);
    assert [k][1..] == [];
    assert Walk(e, list, q, response, [], step.outcome.value) == Run(step.outcome, []);
    assert step.calls + [] == step.calls;
  }

  // ---- Resolution ----

  /** A node without children is answered by the QA template over its own text. */
  lemma LeafCandidate(e: Engine, node: Node, q: string)
    requires Descends(e.graph.allNodes) && Below(node) && node.childIndices == {}
    ensures Candidate(e, node, q) == Run(Done(Some(e.predict(TextQA(node.text, q)))), [TextQA(node.text, q)])
  {
  }

  /**
    Any other node is answered by a nested `_query` over exactly its
    children as `all_nodes` stores them; whatever that returns, raw fallback
    included, is the candidate unchanged.
   */
  lemma InternalCandidate(e: Engine, node: Node, q: string, children: map<nat, Node>)
    requires Descends(e.graph.allNodes) && Below(node) && node.childIndices != {}
    requires children.Keys == node.childIndices
    requires forall k :: k in children ==> k in e.graph.allNodes && children[k] == e.graph.allNodes[k]
    ensures AllBelow(children) && Candidate(e, node, q) == Select(e, children, q)
  {
    var found := ChildMap(e.graph.allNodes, node.childIndices);
    assert found.Done? && found.value.Keys == children.Keys;
    assert found.value == children;
    ChildrenRanked(e.graph.allNodes, node, children);
  }

  /** A child id missing from `all_nodes` raises `KeyError` before any prompt is sent. */
  lemma MissingChild(e: Engine, node: Node, q: string, c: nat)
    requires Descends(e.graph.allNodes) && Below(node)
    requires c in node.childIndices && c !in e.graph.allNodes
    ensures Candidate(e, node, q) == Run(Raised(KeyError), [])
  {
  }

  /** The first node visited in a listing: its candidate is the answer as it stands. */
  lemma ResolveFirst(e: Engine, node: Node, q: string)
    requires Descends(e.graph.allNodes) && Below(node)
    ensures Resolve(e, node, q, None) == Candidate(e, node, q)
  {
  }

  /**
    A later node: the refine template gets the running answer as the
    existing answer and the node's text, a newline and the candidate as
    context; its completion is the new running answer.
   */
  lemma ResolveRefines(e: Engine, node: Node, q: string, prev: string, answer: string)
    requires Descends(e.graph.allNodes) && Below(node)
    requires Candidate(e, node, q).outcome == Done(Some(answer))
    ensures var prompt := Refine(q, prev, node.text + "\n" + answer);
      Resolve(e, node, q, Some(prev)) == Run(Done(Some(e.predict(prompt))), Candidate(e, node, q).calls + [prompt])
  {
  }

  /** A later node whose nested `_query` returned `None`: `"\n".join` raises `TypeError`. */
  lemma ResolveNoneCandidate(e: Engine, node: Node, q: string, prev: string)
    requires Descends(e.graph.allNodes) && Below(node)
    requires Candidate(e, node, q).outcome == Done(None)
    ensures Resolve(e, node, q, Some(prev)).outcome == Raised(TypeError)
  {
  }

  // ---- Refine chaining ----

  /** The nodes the numbers name, 1-based, in order. */
  function Picked(list: seq<Node>, numbers: seq<int>): (ns: seq<Node>)
    requires forall i :: 0 <= i < |numbers| ==> 1 <= numbers[i] <= |list|
    ensures |ns| == |numbers|
  {
    if numbers == [] then [] else [list[numbers[0] - 1]] + Picked(list, numbers[1..])
  }

  /**
    The running answer, defined directly: the first candidate as it stands,
    then each later candidate refined into the answer so far.
   */
  function Chain(e: Engine, q: string, nodes: seq<Node>, answers: seq<string>, acc: Option<string>): Option<string>
    requires |nodes| == |answers|
    decreases |nodes|
  {
    if nodes == [] then acc
    else
      var next := if acc.None? then answers[0] else e.predict(Refine(q, acc.value, nodes[0].text + "\n" + answers[0]));
      Chain(e, q, nodes[1..], answers[1..], Some(next))
  }

  /**
    When every number is in range and every candidate is an answer, the
    loop's result is the chain of refinements over the named nodes in order.
   */
  lemma {:induction false} WalkChains(e: Engine, list: seq<Node>, q: string, response: string, numbers: seq<int>, answers: seq<string>, acc: Option<string>)
    requires Descends(e.graph.allNodes) && ListBelow(list) && |answers| == |numbers|
    requires forall i :: 0 <= i < |numbers| ==> 1 <= numbers[i] <= |list|
    requires forall i :: 0 <= i < |numbers| ==> Candidate(e, list[numbers[i] - 1], q).outcome == Done(Some(answers[i]))
    ensures Walk(e, list, q, response, numbers, acc).outcome == Done(Chain(e, q, Picked(list, numbers), answers, acc))
    decreases |numbers|
  {
    if numbers != [] {
      var node := list[numbers[0] - 1];
      var next := if acc.None? then answers[0] else e.predict(Refine(q, acc.value, node.text + "\n" + answers[0]));
      assert Resolve(e, node, q, acc).outcome == Done(Some(next));
      WalkStep(e, list, q, response, numbers, acc);
      var rest := numbers[1..];
      assert forall i :: 0 <= i < |rest| ==> rest[i] == numbers[i + 1];
      WalkChains(e, list, q, response, rest, answers[1..], Some(next));
    }
  }

  /**
    Two leaves named in one response: the second leaf's answer is refined
    into the first's, and the prompts go out in that order.
   */
  lemma TwoLeavesRefine(e: Engine, list: seq<Node>, q: string, response: string, i: int, j: int)
    requires Descends(e.graph.allNodes) && ListBelow(list)
    requires 1 <= i <= |list| && 1 <= j <= |list|
    requires list[i - 1].childIndices == {} && list[j - 1].childIndices == {}
    ensures var first, second := TextQA(list[i - 1].text, q), TextQA(list[j - 1].text, q);
      var refine := Refine(q, e.predict(first), list[j - 1].text + "\n" + e.predict(second));
      Walk(e, list, q, response, [i, j], None) == Run(Done(Some(e.predict(refine))), [first, second, refine])
  {
    var first := TextQA(list[i - 1].text, q);
    var second := TextQA(list[j - 1].text, q);
    var refine := Refine(q, e.predict(first), list[j - 1].text + "\n" + e.predict(second));
    var tail := Run(Done(Some(e.predict(refine))), [second, refine]);
    assert Walk(e, list, q, response, [j], Some(e.predict(first))) == tail by {
      LeafCandidate(e, list[j - 1], q);
      assert Resolve(e, list[j - 1], q, Some(e.predict(first))) == tail;
      WalkStep(e, list, q, response, [j], Some(e.predict(first)));
      assert [j][1..] == [];
      assert tail.calls + [] == tail.calls;
    }
    assert Resolve(e, list[i - 1], q, None) == Run(Done(Some(e.predict(first))), [first]) by {
      LeafCandidate(e, list[i - 1], q);
    }
    WalkStep(e, list, q, response, [i, j], None);
    assert [i, j][1..] == [j];
  }

  /**
    While the running answer is still `None`, the next named node is not
    refined into it: a first node whose nested query reads no number, then
    a leaf, give the leaf's QA answer as it stands.
   */
  lemma NoneNotRefined(e: Engine, list: seq<Node>, q: string, response: string, i: int, j: int)
    requires Descends(e.graph.allNodes) && ListBelow(list)
    requires 1 <= i <= |list| && 1 <= j <= |list|
    requires Candidate(e, list[i - 1], q).outcome == Done(None) && list[j - 1].childIndices == {}
    ensures var second := TextQA(list[j - 1].text, q);
      Walk(e, list, q, response, [i, j], None) == Run(Done(Some(e.predict(second))), Candidate(e, list[i - 1], q).calls + [second])
  {
    var first := Resolve(e, list[i - 1], q, None);
    ResolveFirst(e, list[i - 1], q);
    WalkStep(e, list, q, response, [i, j], None);
    assert [i, j][1..] == [j];
    WalkLeafAlone(e, list, q, response, j);
  }

  /** A leaf named alone with no answer yet: one QA prompt, its answer as it stands. */
  lemma WalkLeafAlone(e: Engine, list: seq<Node>, q: string, response: string, j: int)
    requires Descends(e.graph.allNodes) && ListBelow(list)
    requires 1 <= j <= |list| && list[j - 1].childIndices == {}
    ensures var second := TextQA(list[j - 1].text, q);
      Walk(e, list, q, response, [j], None) == Run(Done(Some(e.predict(second))), [second])
  {
    LeafCandidate(e, list[j - 1], q);
    WalkOne(e, list, q, response, j, list[j - 1]);
  }

  // ---- query ----

  /** With no number in the top-level response, `query` raises `AttributeError` after the single selection prompt. */
  lemma QueryNoNumbers(e: Engine, q: string)
    requires Queryable(e)
    requires var prompt := SelectionPrompt(e.childBranchFactor, SortedNodeList(e.graph.rootNodes), q);
      e.extract(e.predict(prompt), e.childBranchFactor) == []
    ensures QueryIndex(e, q).outcome == Raised(AttributeError)
    ensures QueryIndex(e, q).calls == [SelectionPrompt(e.childBranchFactor, SortedNodeList(e.graph.rootNodes), q)]
  {
    SelectNoNumbers(e, e.graph.rootNodes, q);
  }

  /** Every graph the builder produces can be queried, whatever the model and the extractor. */
  lemma BuiltIsQueryable(g: IndexGraph, c: int, predict: Prompt -> string, extract: (string, int) -> seq<int>)
    requires WellFormed(g)
    ensures Queryable(Engine(g, c, predict, extract))
  {
    var all := g.allNodes;
    forall k | k in all
      ensures all[k].index == k && Below(all[k])
    {
      assert ChildrenBelow(all, all[k]);
    }
    forall k | k in g.rootNodes
      ensures Below(g.rootNodes[k])
    {
      assert k in all && g.rootNodes[k] == all[k];
    }
  }
}
