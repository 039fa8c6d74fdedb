/**
  A worked example over any two chunks `a` and `b`. The builder runs with any
  branching factor B >= 2 and a summarizer that prefixes "summary:". The
  engine has `child_branch_factor` 1 and a number extractor that yields [1]
  whatever the reply; its model answers a QA prompt with
  "answer:<context>|<query>" and a refine prompt with
  "refined:<existing answer>".
 */
module Example {
  import opened Wrappers
  import opened Schema
  import opened Text
  import opened Listing
  import opened Builder
  import opened Query

  function Summarize(text: string): string
  {
    "summary:" + text
  }

  function Stub(p: Prompt): string
  {
    match p
    case TextQA(context, q) => "answer:" + context + "|" + q
    case Refine(q, existing, context) => "refined:" + existing
    case _ => "1"
  }

  /** Every response names choice 1. */
  function FirstChoice(response: string, n: int): seq<int>
  {
    [1]
  }

  function Leaf(text: string, id: nat): Node { Node(text, id, {}) }
  function Root(a: string, b: string): Node { Node(Summarize(a + "\n" + b + "\n"), 2, {0, 1}) }

  lemma ExampleLeaves(a: string, b: string)
    ensures LeafList([a, b]) == [Leaf(a, 0), Leaf(b, 1)]
    ensures Leaves([a, b]) == map[0 := Leaf(a, 0), 1 := Leaf(b, 1)]
    ensures IdsOf([Leaf(a, 0), Leaf(b, 1)]) == {0, 1}
  {
    var leaves := Leaves([a, b]);
    assert leaves.Keys == {0, 1};
    var list := [Leaf(a, 0), Leaf(b, 1)];
    assert list[0] in list && list[1] in list;
  }

  /** Two chunks fit in one group: one summary node over both leaves is the whole root layer. */
  lemma ExampleBuild(a: string, b: string, bf: nat)
    requires bf >= 2
    ensures var g := BuildFromText(Summarize, [a, b], bf);
      && g.rootNodes == map[2 := Root(a, b)]
      && g.allNodes == map[0 := Leaf(a, 0), 1 := Leaf(b, 1), 2 := Root(a, b)]
  {
    SmallCorpus(Summarize, [a, b], bf);
    ExampleLeaves(a, b);
    JoinTwo("\n", a, b);
  }

  function ExampleEngine(a: string, b: string): Engine
  {
    Engine(IndexGraph(map[0 := Leaf(a, 0), 1 := Leaf(b, 1), 2 := Root(a, b)], map[2 := Root(a, b)]), 1, Stub, FirstChoice)
  }

  /** Over the two leaves, choice 1 is the first leaf, answered by the QA template. */
  lemma ExampleLeafLayer(a: string, b: string, q: string)
    requires Queryable(ExampleEngine(a, b))
    ensures Select(ExampleEngine(a, b), map[0 := Leaf(a, 0), 1 := Leaf(b, 1)], q) == Run(Done(Some("answer:" + a + "|" + q)),
        [SelectOne(2, q, NumberedText([Leaf(a, 0), Leaf(b, 1)])), TextQA(a, q)])
  {
    var leaves := map[0 := Leaf(a, 0), 1 := Leaf(b, 1)];
    assert SortedNodeList(leaves) == [Leaf(a, 0), Leaf(b, 1)] by {
      SortedLeaves([a, b]);
      ExampleLeaves(a, b);
    }
    SelectSingle(ExampleEngine(a, b), leaves, q, 1, Leaf(a, 0));
  }

  /** The root's candidate is the leaf layer's answer. */
  lemma ExampleRootCandidate(a: string, b: string, q: string)
    requires Queryable(ExampleEngine(a, b))
    ensures Candidate(ExampleEngine(a, b), Root(a, b), q) == Run(Done(Some("answer:" + a + "|" + q)),
        [SelectOne(2, q, NumberedText([Leaf(a, 0), Leaf(b, 1)])), TextQA(a, q)])
  {
    InternalCandidate(ExampleEngine(a, b), Root(a, b), q, map[0 := Leaf(a, 0), 1 := Leaf(b, 1)]);
    ExampleLeafLayer(a, b, q);
  }

  /** Over the root layer, choice 1 is the root. */
  lemma ExampleRootLayer(a: string, b: string, q: string)
    requires Queryable(ExampleEngine(a, b))
    ensures var e := ExampleEngine(a, b);
      Select(e, e.graph.rootNodes, q) == Run(Done(Some("answer:" + a + "|" + q)),
        [SelectOne(1, q, NumberedText([Root(a, b)])), SelectOne(2, q, NumberedText([Leaf(a, 0), Leaf(b, 1)])), TextQA(a, q)])
  {
    var e := ExampleEngine(a, b);
    assert SortedNodeList(e.graph.rootNodes) == [Root(a, b)] by {
      SortedNodeListAt(e.graph.rootNodes);
    }
    var prompt := SelectionPrompt(1, [Root(a, b)], q);
    assert prompt == SelectOne(1, q, NumberedText([Root(a, b)]));
    assert e.extract(e.predict(prompt), 1) == [1];
    ExampleRootCandidate(a, b, q);
    SelectSingle(e, e.graph.rootNodes, q, 1, Root(a, b));
  }

  /** The example engine queries the builder's graph for the two chunks. */
  lemma ExampleGraph(a: string, b: string)
    ensures ExampleEngine(a, b).graph == BuildFromText(Summarize, [a, b], 2)
    ensures Queryable(ExampleEngine(a, b))
  {
    var e := ExampleEngine(a, b);
    ExampleBuild(a, b, 2);
    BuildFromTextWellFormed(Summarize, [a, b], 2);
    BuiltIsQueryable(e.graph, 1, Stub, FirstChoice);
  }

  /** `query` passes a `_query` answer with no whitespace at its ends through unchanged. */
  lemma QueryPassesThrough(e: Engine, q: string, answer: string, calls: seq<Prompt>)
    requires Queryable(e) && Select(e, e.graph.rootNodes, q) == Run(Done(Some(answer)), calls)
    requires answer == [] || (!IsSpace(answer[0]) && !IsSpace(answer[|answer| - 1]))
    ensures QueryIndex(e, q) == Run(Done(answer), calls)
  {
    StripFixed(answer);
  }

  /** Querying the builder's graph for two chunks: a stripped leaf answer after three prompts. */
  lemma ExampleQuery(a: string, b: string, q: string)
    requires q == [] || !IsSpace(q[|q| - 1])
    ensures Queryable(ExampleEngine(a, b))
    ensures QueryIndex(ExampleEngine(a, b), q) == Run(Done("answer:" + a + "|" + q),
        [SelectOne(1, q, NumberedText([Root(a, b)])), SelectOne(2, q, NumberedText([Leaf(a, 0), Leaf(b, 1)])), TextQA(a, q)])
  {
    var e, answer := ExampleEngine(a, b), "answer:" + a + "|" + q;
    assert Queryable(e) by {
      ExampleGraph(a, b);
    }
    var calls := [SelectOne(1, q, NumberedText([Root(a, b)])), SelectOne(2, q, NumberedText([Leaf(a, 0), Leaf(b, 1)])), TextQA(a, q)];
    ExampleRootLayer(a, b, q);
    assert answer[0] == 'a' && answer[|answer| - 1] == (if q == [] then '|' else q[|q| - 1]);
    QueryPassesThrough(e, q, answer, calls);
  }
}
