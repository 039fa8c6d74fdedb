# GPT tree index: builder and query engine

This project models the core of `gpt_index/index.py` in Dafny.

**Building.** `GPTIndexBuilder.build_from_text` and `_build_index_from_nodes` turn a list of text chunks into a tree:
- The chunks become leaves with ids 0 .. K - 1.
- Each pass lists the current layer in id order and cuts the list into slices of `num_children` (B) nodes.
- The summariser is asked for one summary per slice. The summaries become new nodes, numbered on from the current size of `all_nodes`. Each new node lists its slice's ids as its children.
- Passes repeat until a layer has at most B nodes. That layer is the root layer.

**Querying.** `GPTIndex._query`, `_query_with_selected_node` and `query` answer a question by walking down the tree:
- At each layer the engine lists the nodes in id order as a numbered list.
- It asks the model which ones to descend into, reads numbers out of the reply, and visits the named nodes in turn.
- A leaf is answered by the QA template. An internal node is answered by a nested query over its children.
- Once the running answer is a string, each later node's answer is refined into it by the refine template.
- `query` strips the final answer.

The helpers `_get_sorted_node_list`, `_get_text_from_nodes` and `_get_numbered_text_from_nodes` are modelled with them.

The model is organised by module:

| module | file | what it holds |
|---|---|---|
| `Wrappers` | wrappers.dfy | `Option` |
| `Schema` | schema.dfy | `Node` and `IndexGraph`, plus the shape a built graph has (`WellFormed`) |
| `Text` | text.dfy | `str.join`, `str.split("\n")`, `str.splitlines`, `str.strip`, decimal rendering |
| `Listing` | listing.dfy | The three helpers, with their loops as methods |
| `Builder` | builder.dfy | The builder, its well-formedness and termination proofs, and its small cases |
| `Query` | query.dfy | The query engine and its properties |
| `Example` | example.dfy | A two-chunk example, built and queried end to end |

The outside world enters as parameters:
- The summariser (`LLMChain.predict`) is a function `string -> string`.
- The language model (`openai_llm_predict`) is a function from a filled-in template (`Prompt`) to its completion.
- The number extractor (`extract_numbers_given_response`) is a function from a reply and the branch factor to a list of integers.

Every query function also returns the prompts it sent, in order. This lets the model say when no further call is made.

Python exceptions the code can raise are modelled as `Raised` outcomes:
- `IndexError` for a list position that does not exist;
- `KeyError` for a child id missing from `all_nodes`;
- `TypeError` for `"\n".join` over a `None` answer;
- `AttributeError` for `None.strip()`.

A `_query` that reads no number returns Python's `None`, modelled as `Done(None)`.

## Model

| member | source | states |
|---|---|---|
| `Listing.SortedNodeList` | gpt_index/index.py:29-31 | `_get_sorted_node_list`: the list has one entry per key of the map |
| `Listing.SortedKeysSpec` | gpt_index/index.py:30 | `sorted(node_dict.keys())` lists every key exactly once, in strictly increasing order |
| `Listing.SortedKeysUnique` | gpt_index/index.py:30 | Any strictly increasing list of exactly the keys is that sorted list, so the ordering is determined by the key set alone |
| `Listing.SortedNodeListAt` | gpt_index/index.py:29-31 | Entry i of the node list is the node stored under the i-th smallest key |
| `Listing.SortedNodeListOrdered` | gpt_index/index.py:29-31 | For a map keyed by node id, the list has strictly increasing ids, its ids are exactly the keys, and every node of the map appears in it |
| `Listing.TextFromNodes` | gpt_index/index.py:34-40 | `_get_text_from_nodes`: the text is empty exactly when the list is |
| `Listing.GetTextFromNodes` | gpt_index/index.py:34-40 | The loop builds `TextFromNodes`, each node's text followed by a newline, in list order |
| `Listing.TextFromNodesAppend` | gpt_index/index.py:34-40 | The text of a concatenated list is the concatenation of the texts |
| `Listing.JoinedTexts` | gpt_index/index.py:34-40 | For a non-empty list, the text equals `"\n".join(texts) + "\n"` |
| `Listing.TextFromNodesLines` | gpt_index/index.py:34-40 | If no node text holds a line break, `splitlines` of the text gives back the node texts |
| `Listing.EntryShape` | gpt_index/index.py:48-49 | An entry is one line followed by a blank line: it ends in `"\n\n"` and holds no other newline |
| `Listing.NumberedText` | gpt_index/index.py:43-51 | `_get_numbered_text_from_nodes`: the listing is empty exactly when the list is |
| `Listing.GetNumberedTextFromNodes` | gpt_index/index.py:43-51 | The loop, with its counter starting at 1, builds the numbered listing |
| `Listing.ListingAppend` | gpt_index/index.py:43-51 | A listing of a concatenation is the first part's entries followed by the second part's, numbered on from where the first stopped |
| `Listing.NumberedEntryAt` | gpt_index/index.py:46-50 | The node at position k of the list is the entry numbered k + 1, with the earlier entries before it and the later ones after |
| `Text.DecimalRoundTrip` | gpt_index/index.py:48 | The number written into an entry, `f"{number}"`, reads back as the same number |
| `Text.OneLine` | gpt_index/index.py:48 | `' '.join(text.splitlines())` holds no line break |
| `Text.OneLineSpec` | gpt_index/index.py:48 | `' '.join(text.splitlines())` is the text with one final newline dropped and every other newline turned into a space |
| `Text.JoinSplitOn` | gpt_index/index.py:48 | Splitting on newlines and joining with newlines gives the text back |
| `Text.SplitOnJoin` | gpt_index/index.py:48 | Joining newline-free pieces with newlines and splitting gives the pieces back |
| `Text.JoinSpaceSplitOn` | gpt_index/index.py:48 | Joining the newline-split pieces with spaces replaces every newline by a space and changes nothing else |
| `Text.Strip` | gpt_index/index.py:233 | `strip` removes only whitespace, and only from the two ends, and leaves neither end whitespace |
| `Text.StripFixed` | gpt_index/index.py:233 | `strip` leaves a string unchanged exactly when neither end is whitespace |
| `Builder.CeilDivBounds` | gpt_index/index.py:99 | `range(0, n, b)` yields ⌈n / b⌉ slice starts |
| `Builder.Groups` | gpt_index/index.py:99-101 | A layer is cut into ⌈n / B⌉ slices, each holding 1 to B nodes |
| `Builder.GroupsConcatenate` | gpt_index/index.py:99-101 | Laid end to end, the slices are the layer again: nothing is lost, duplicated or reordered |
| `Builder.GroupIsSlice` | gpt_index/index.py:101 | Slice k is exactly `cur_node_list[k*B : (k+1)*B]`, clipped to the list's end |
| `Builder.GroupCovers` | gpt_index/index.py:99-101 | Every node of the layer lies in some slice |
| `Builder.GroupsOrdered` | gpt_index/index.py:93-101 | In an id-sorted layer, every id in an earlier slice is below every id in a later slice |
| `Builder.SummaryNode` | gpt_index/index.py:103-107 | The new node's children are exactly the ids of its slice, so they are below the new id whenever the slice's ids are |
| `Builder.MergePass` | gpt_index/index.py:99-109 | The new layer's ids are exactly `start` .. `start + number of slices - 1` |
| `Builder.MergePassEntry` | gpt_index/index.py:103-109 | Slice k becomes node `start + k`: the summary of the slice's text, with the slice's ids as children |
| `Builder.NextLayer` | gpt_index/index.py:93-109 | A pass over n nodes creates ⌈n / B⌉ new nodes |
| `Builder.PassSpec` | gpt_index/index.py:93-109 | New node `len(all_nodes) + k` summarises the text of sorted nodes k·B .. min((k+1)·B, n) and has exactly their ids as children |
| `Builder.PassEntry` | gpt_index/index.py:99-109 | Each new node's id lies in the fresh range, and it has 1 to B children, all from the layer below |
| `Builder.PassDisjoint` | gpt_index/index.py:101-107 | Two different new nodes share no child |
| `Builder.PassCovers` | gpt_index/index.py:99-107 | Every node of the layer below becomes a child of some new node |
| `Builder.NextLayerMerges` | gpt_index/index.py:93-109 | A pass has fresh consecutive ids keyed by index, children from the layer below, at most B children each, no shared child, and every node below adopted |
| `Builder.StepFresh` | gpt_index/index.py:94-111 | Numbering from `len(all_nodes)` never reuses an id, and the ids stay 0 .. size - 1 after `update` |
| `Builder.LayeredStep` | gpt_index/index.py:93-111 | After a pass and `all_nodes.update`, the graph keeps its shape: dense ids, children below their parents, a forest whose roots are the new layer, and no old entry changed |
| `Builder.BuildIndexFromNodes` | gpt_index/index.py:113-116 | The root layer has at most B nodes, and it is empty exactly when the starting layer is |
| `Builder.BuildLayered` | gpt_index/index.py:89-116 | Repeated passes end in a well-formed graph that keeps every entry of the starting `all_nodes` |
| `Builder.BuildFromText` | gpt_index/index.py:75-87 | The root layer of a built index has at most B nodes, and it is empty exactly when there are no chunks |
| `Builder.BuildFromTextWellFormed` | gpt_index/index.py:75-116 | The built graph is well formed, and chunk i is leaf i with no children |
| `Builder.PassShrinks` | gpt_index/index.py:113-116 | With B ≥ 2, a pass over two or more nodes yields fewer nodes, so the recursion ends |
| `Builder.UnitFanIn` | gpt_index/index.py:113-116 | With B = 1, a pass yields exactly as many nodes as it consumes, so more than one chunk never reaches a root layer |
| `Builder.SmallCorpus` | gpt_index/index.py:85-114 | With 1 ≤ K ≤ B chunks, a single pass runs: the root is one node K that summarises all chunks joined by newlines and has every leaf as a child |
| `Builder.EmptyCorpus` | gpt_index/index.py:85-114 | With no chunks, both `all_nodes` and the root layer are empty |
| `Builder.Leaves` | gpt_index/index.py:85 | Chunk i becomes leaf i with no children, and the leaf ids are exactly 0 .. K - 1 |
| `Builder.SortedLeaves` | gpt_index/index.py:85-93 | The id-sorted leaves come back in chunk order |
| `Query.SelectionPrompt` | gpt_index/index.py:187-201 | The single-selection template is used exactly when `child_branch_factor == 1`, and both templates carry the node count, the query and the numbered listing; the multiple one also carries `branching_factor`, equal to `child_branch_factor` |
| `Query.PyPosition` | gpt_index/index.py:221 | `cur_node_list[number - 1]` follows Python indexing: an in-range position or one counted from the end, otherwise `IndexError` |
| `Query.ChildMap` | gpt_index/index.py:159 | The children mapping succeeds exactly when every child id is in `all_nodes`, and then it holds exactly those entries |
| `Query.Select` | gpt_index/index.py:185-201 | `_query` first sends one selection prompt over the id-sorted listing of the layer |
| `Query.Walk` | gpt_index/index.py:207-227 | The loop over the extracted numbers: once it holds an answer, it never ends with `None`, only with a string or an exception |
| `Query.Candidate` | gpt_index/index.py:148-163 | A node's candidate answer: no prompt is sent exactly when a child id is missing from `all_nodes`, and then `KeyError` is raised |
| `Query.Resolve` | gpt_index/index.py:134-178 | `_query_with_selected_node`: with a previous answer, a call that does not raise yields a string |
| `Query.QueryIndex` | gpt_index/index.py:230-233 | `query` sends exactly `_query`'s prompts; it succeeds exactly when `_query` returns a string, and then it returns that string stripped; a `None` raises `AttributeError` |
| `Query.SelectOutOfRange` | gpt_index/index.py:215-218 | A first number above the listing's length returns the raw reply after that single prompt, with no descent |
| `Query.SelectNoNumbers` | gpt_index/index.py:206-208 | With no number in the reply, `_query` returns `None` after the single prompt |
| `Query.WalkFallback` | gpt_index/index.py:208-218 | Once a number above the listing's length comes up, any answer built so far is dropped and the raw reply is returned, unless an earlier step raised |
| `Query.ZeroPicksLast` | gpt_index/index.py:221 | The number 0 selects the last node, exactly as the number N would |
| `Query.EmptyListing` | gpt_index/index.py:215-221 | Over an empty listing, a positive number returns the raw reply and any other number raises `IndexError` |
| `Query.WalkSelects` | gpt_index/index.py:220-226 | A number k in 1..N resolves the k-th node first: its prompts open the loop's trace, and an error there ends the loop |
| `Query.SelectSingle` | gpt_index/index.py:185-227 | A reply naming a single node k in 1..N gives that node's outcome, answer or exception, after the selection prompt and that node's prompts |
| `Query.LeafCandidate` | gpt_index/index.py:148-156 | A leaf is answered by one QA prompt over its own text |
| `Query.InternalCandidate` | gpt_index/index.py:157-163 | An internal node's answer is the nested `_query` over exactly its children as stored in `all_nodes`, raw fallback included |
| `Query.MissingChild` | gpt_index/index.py:159 | A child id missing from `all_nodes` raises `KeyError` before any prompt |
| `Query.ResolveFirst` | gpt_index/index.py:165-166 | With no previous answer, the node's answer is returned unchanged |
| `Query.ResolveRefines` | gpt_index/index.py:167-178 | With a previous answer, one refine prompt gets the previous answer, and the node's text, a newline and the node's answer as context; its completion is the result |
| `Query.ResolveNoneCandidate` | gpt_index/index.py:168 | A `None` answer after a previous answer raises `TypeError` |
| `Query.WalkChains` | gpt_index/index.py:207-227 | When every number is in range and every node's answer is a string, the loop's result is the chain of refinements over the named nodes, in order |
| `Query.NoneNotRefined` | gpt_index/index.py:165-166 | While the running answer is still `None`, the next named node is not refined into it: a first node whose nested query yields `None`, then a leaf, give the leaf's QA answer as it stands, after the first node's prompts and one QA prompt |
| `Query.TwoLeavesRefine` | gpt_index/index.py:148-178 | Two leaves named in one reply send QA, QA, refine, in that order, and the second leaf's answer is refined into the first's |
| `Query.QueryNoNumbers` | gpt_index/index.py:206-233 | With no number in the top-level reply, `query` raises `AttributeError` after one prompt |
| `Query.BuiltIsQueryable` | gpt_index/index.py:89-116 | Every graph the builder produces meets the query engine's precondition |
| `Example.ExampleBuild` | gpt_index/index.py:75-116 | Two chunks with B ≥ 2 give leaves 0 and 1 under one root, node 2, which summarises `a + "\n" + b + "\n"` |
| `Example.ExampleQuery` | gpt_index/index.py:181-233 | On that graph, with a model that always picks 1, the query sends the root listing, then the leaf listing, then QA over leaf a, and returns the stripped answer for leaf a |

## Left out

- The text splitter, `get_chunk_size_given_prompt`, the LLM chain and `openai_llm_predict` are not modelled. These are foreign calls; the model takes the chunk list, the summariser and the language model as parameters. Those parameters are total functions, so a call that raises is not modelled; nothing in `gpt_index/index.py` catches such an exception, so it would end the build or the query.
- `extract_numbers_given_response` (gpt_index/utils.py) is not part of this model. It is a parameter that may return any list of integers.
- The `number is None` branch (lines 210-214) is not modelled. `int(...)` never returns `None`, so that branch is dead.
- `print`, `verbose` and `level` are not modelled. They only produce console output.
- `save_to_disk`, `load_from_disk`, `from_input_dir` and the JSON mixin are not modelled. They are file I/O.
- Template wording is not modelled. A prompt is the template's name plus the values filled into it.
- Text.SplitLines: only `'\n'` counts as a line break. Python's `splitlines` also breaks on `\r`, `\v`, `\f`, `\x1c`-`\x1e`, `\x85` and `\u2028`/`\u2029`.
- Builder.BuildFromText: requires B ≥ 1. With `num_children == 0`, Python raises `ZeroDivisionError`: in the constructor at `MAX_CHUNK_OVERLAP // num_children` (line 72), and again at line 97, before `range` is reached. With a negative `num_children`, `range(0, n, B)` is empty, so every pass yields an empty layer that is never at most B, and Python recurses until `RecursionError`.
- Builder.BuildFromText: requires B ≥ 2 or at most one chunk. With B = 1 and more than one chunk, Python recurses until `RecursionError`. `Builder.UnitFanIn` proves that the layer never shrinks in that case.
- Builder.BuildIndexFromNodes: carries the same two preconditions as `BuildFromText`, for the same reasons.
- Query.QueryIndex: requires the builder's id order (`Query.Descends`): each stored node sits under its own id, and each child id is below its parent's id. This order is the termination measure of the descent, and every built graph meets it (`Query.BuiltIsQueryable`). `Query.Select`, `Query.Walk`, `Query.Candidate` and `Query.Resolve` carry the same precondition. It excludes graphs on which `_query` also ends, since `_query` reads only the keys and `child_indices`, never `index`:
  - a graph in which a child id is above its parent's, such as `{0: Node("r", 0, {1}), 1: Node("l", 1, {})}`;
  - a graph in which a node is stored under a key other than its own id, such as `{5: Node("leaf", 7, {})}`;
  - a graph with a cycle, on which Python recurses without end only if the model keeps choosing nodes along the cycle.
- The depth bound ⌈log_B K⌉ is not stated. The model proves per-pass shrinking and the root bound instead.

Some behaviours of the code that a reader may not expect, all kept by the model:
- With no chunks, `build_from_text` yields an empty root layer (`Builder.EmptyCorpus`).
- On two chunks, the query descends from the root into its children and answers from the first leaf, `"answer:" + a + "|" + q` (`Example.ExampleQuery`). The root's own summary never reaches the QA template.
- A number of 0 or below indexes from the end of the list, so 0 names the last node (`Query.ZeroPicksLast`).
- While the running answer is still `None`, the next named node's answer replaces it unrefined (`Query.NoneNotRefined`).
