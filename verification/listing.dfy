/** The three pure helpers of gpt_index/index.py that turn a node set into a list or a text. */
module Listing {
  import opened Schema
  import opened Text

  predicate IsLeast(m: nat, s: set<nat>)
  {
    m in s && forall x :: x in s ==> m <= x
  }

  lemma {:induction false} LeastExists(s: set<nat>)
    requires s != {}
    ensures exists m :: IsLeast(m, s)
    decreases |s|
  {
    var x :| x in s;
    var t := s - {x};
    if t == {} {
      assert IsLeast(x, s) by {
        assert s == {x};
      }
    } else {
      LeastExists(t);
      var m :| IsLeast(m, t);
      var least := if x < m then x else m;
      assert IsLeast(least, s) by {
        forall y | y in s
          ensures least <= y
        {
          if y != x {
            assert y in t;
          }
        }
      }
    }
  }

  /** The smallest id of a non-empty set. */
  function Least(s: set<nat>): (m: nat)
    requires s != {}
    ensures IsLeast(m, s)
  {
    LeastExists(s);
    var m :| IsLeast(m, s);
    m
  }

  ghost predicate Increasing(ks: seq<nat>)
  {
    forall i, j :: 0 <= i < j < |ks| ==> ks[i] < ks[j]
  }

  ghost predicate Enumerates(ks: seq<nat>, s: set<nat>)
  {
    forall k :: k in ks <==> k in s
  }

  /** `sorted(s)`: the ids of `s` in increasing order. */
  function SortedKeys(s: set<nat>): (ks: seq<nat>)
    ensures |ks| == |s|
    decreases |s|
  {
    if s == {} then [] else [Least(s)] + SortedKeys(s - {Least(s)})
  }

  /** The sorted order is increasing and lists exactly the ids of `s`. */
  lemma {:induction false} SortedKeysSpec(s: set<nat>)
    ensures Increasing(SortedKeys(s)) && Enumerates(SortedKeys(s), s)
    decreases |s|
  {
    if s != {} {
      var m := Least(s);
      var rest := SortedKeys(s - {m});
      var ks := SortedKeys(s);
      assert ks == [m] + rest;
      SortedKeysSpec(s - {m});
      assert Increasing(ks) by {
        forall i, j | 0 <= i < j < |ks|
          ensures ks[i] < ks[j]
        {
          if i == 0 {
            assert ks[j] == rest[j - 1] && rest[j - 1] in rest;
          } else {
            assert ks[i] == rest[i - 1] && ks[j] == rest[j - 1];
          }
        }
      }
      assert Enumerates(ks, s) by {
        forall k
          ensures k in ks <==> k in s
        {
          assert k in ks <==> k == m || k in rest;
        }
      }
    }
  }

  lemma FirstIsSmallest(ks: seq<nat>, i: nat)
    requires Increasing(ks) && i < |ks|
    ensures ks[0] <= ks[i]
  {
    if i > 0 {
      assert ks[0] < ks[i];
    }
  }

  /** Dropping the first id of an enumeration enumerates the rest of the set. */
  lemma TailEnumerates(s: set<nat>, ks: seq<nat>)
    requires Increasing(ks) && Enumerates(ks, s) && ks != []
    ensures Increasing(ks[1..]) && Enumerates(ks[1..], s - {ks[0]})
  {
    var rest := ks[1..];
    forall a, b | 0 <= a < b < |rest|
      ensures rest[a] < rest[b]
    {
      assert rest[a] == ks[a + 1] && rest[b] == ks[b + 1];
    }
    forall k
      ensures k in rest <==> k in s - {ks[0]}
    {
      if k in rest {
        var j :| 0 <= j < |rest| && rest[j] == k;
        assert ks[j + 1] == k && ks[0] < ks[j + 1];
        assert k in ks;
      }
      if k in s - {ks[0]} {
        assert k in ks;
        var j :| 0 <= j < |ks| && ks[j] == k;
        assert j != 0;
        assert rest[j - 1] == k;
      }
    }
  }

  /** An increasing sequence listing exactly the ids of `s` is the sorted order of `s`. */
  lemma {:induction false} SortedKeysUnique(s: set<nat>, ks: seq<nat>)
    requires Increasing(ks) && Enumerates(ks, s)
    ensures SortedKeys(s) == ks
    decreases |s|
  {
    if ks == [] {
      assert s == {} by {
        assert forall k :: k in s ==> k in ks;
      }
    } else {
      assert ks[0] in ks;
      var m := Least(s);
      assert ks[0] == m by {
        assert m in ks;
        var i :| 0 <= i < |ks| && ks[i] == m;
        FirstIsSmallest(ks, i);
      }
      TailEnumerates(s, ks);
      SortedKeysUnique(s - {m}, ks[1..]);
      assert ks == [m] + ks[1..];
    }
  }

  /** `_get_sorted_node_list`: the nodes of `m` in increasing key order. */
  function SortedNodeList(m: map<nat, Node>): (ns: seq<Node>)
    ensures |ns| == |m|
  {
    var ks := SortedKeys(m.Keys);
    assert forall i :: 0 <= i < |ks| ==> ks[i] in m by {
      SortedKeysSpec(m.Keys);
      forall i | 0 <= i < |ks|
        ensures ks[i] in m.Keys
      {
        assert ks[i] in ks;
      }
    }
    seq(|ks|, i requires 0 <= i < |ks| && ks[i] in m => m[ks[i]])
  }

  /** Position i of the sorted list holds the node stored under the i-th smallest key. */
  lemma SortedNodeListAt(m: map<nat, Node>)
    ensures forall i :: 0 <= i < |m| ==> SortedKeys(m.Keys)[i] in m && SortedNodeList(m)[i] == m[SortedKeys(m.Keys)[i]]
  {
    var ks := SortedKeys(m.Keys);
    SortedKeysSpec(m.Keys);
    forall i | 0 <= i < |m|
      ensures ks[i] in m && SortedNodeList(m)[i] == m[ks[i]]
    {
      assert ks[i] in ks;
    }
  }

  ghost predicate IndicesIncreasing(ns: seq<Node>)
  {
    forall i, j :: 0 <= i < j < |ns| ==> ns[i].index < ns[j].index
  }

  /** The ids carried by a list of nodes. */
  function IdsOf(ns: seq<Node>): set<nat>
  {
    set n | n in ns :: n.index
  }

  lemma SortedNodeListIndices(m: map<nat, Node>)
    requires KeyedByIndex(m)
    ensures forall i :: 0 <= i < |m| ==> SortedNodeList(m)[i].index == SortedKeys(m.Keys)[i]
  {
    var ns := SortedNodeList(m);
    var ks := SortedKeys(m.Keys);
    SortedNodeListAt(m);
    forall i | 0 <= i < |ns|
      ensures ns[i].index == ks[i]
    {
      assert ks[i] in m && ns[i] == m[ks[i]];
    }
  }

  lemma SortedNodeListHasAll(m: map<nat, Node>)
    requires KeyedByIndex(m)
    ensures forall k :: k in m ==> m[k] in SortedNodeList(m)
  {
    var ns := SortedNodeList(m);
    var ks := SortedKeys(m.Keys);
    SortedNodeListAt(m);
    SortedKeysSpec(m.Keys);
    forall k | k in m
      ensures m[k] in ns
    {
      assert k in ks;
      var i :| 0 <= i < |ks| && ks[i] == k;
      assert ns[i] == m[k];
    }
  }

  lemma SortedNodeListIncreasing(m: map<nat, Node>)
    requires KeyedByIndex(m)
    ensures IndicesIncreasing(SortedNodeList(m))
  {
    var ns := SortedNodeList(m);
    var ks := SortedKeys(m.Keys);
    SortedNodeListIndices(m);
    SortedKeysSpec(m.Keys);
    forall i, j | 0 <= i < j < |ns|
      ensures ns[i].index < ns[j].index
    {
      assert ks[i] < ks[j];
    }
  }

  lemma SortedNodeListIds(m: map<nat, Node>)
    requires KeyedByIndex(m)
    ensures IdsOf(SortedNodeList(m)) == m.Keys
  {
    var ns := SortedNodeList(m);
    forall k | k in IdsOf(ns)
      ensures k in m
    {
      var n :| n in ns && n.index == k;
      var i :| 0 <= i < |ns| && ns[i] == n;
      SortedNodeListAt(m);
    }
    forall k | k in m
      ensures k in IdsOf(ns)
    {
      SortedNodeListHasAll(m);
      assert m[k] in ns;
    }
  }

  /**
    When every node is stored under its own id, the sorted list holds every
    node of the map exactly once, in strictly increasing id order.
   */
  lemma SortedNodeListOrdered(m: map<nat, Node>)
    requires KeyedByIndex(m)
    ensures IndicesIncreasing(SortedNodeList(m))
    ensures IdsOf(SortedNodeList(m)) == m.Keys
    ensures forall k :: k in m ==> m[k] in SortedNodeList(m)
  {
    SortedNodeListIncreasing(m);
    SortedNodeListIds(m);
    SortedNodeListHasAll(m);
  }

  /** `_get_text_from_nodes`: every node's text followed by "\n", in list order. */
  function TextFromNodes(ns: seq<Node>): (r: string)
    ensures r == [] <==> ns == []
  {
    if ns == [] then "" else ns[0].text + "\n" + TextFromNodes(ns[1..])
  }

  lemma {:induction false} TextFromNodesAppend(a: seq<Node>, b: seq<Node>)
    ensures TextFromNodes(a + b) == TextFromNodes(a) + TextFromNodes(b)
  {
    if a != [] {
      assert (a + b)[1..] == a[1..] + b;
      TextFromNodesAppend(a[1..], b);
    } else {
      assert a + b == b;
    }
  }

  function Texts(ns: seq<Node>): (ts: seq<string>)
    ensures |ts| == |ns| && forall i :: 0 <= i < |ns| ==> ts[i] == ns[i].text
  {
    if ns == [] then [] else [ns[0].text] + Texts(ns[1..])
  }

  /**
    The text handed to the summariser splits back into the node texts,
    provided no node text holds a line break of its own.
   */
  lemma {:induction false} TextFromNodesLines(ns: seq<Node>)
    requires forall i :: 0 <= i < |ns| ==> '\n' !in ns[i].text
    ensures SplitLines(TextFromNodes(ns)) == Texts(ns)
  {
    if ns != [] {
      JoinedTexts(ns);
      var t := TextFromNodes(ns);
      assert t[..|t| - 1] == Join("\n", Texts(ns));
      SplitOnJoin(Texts(ns));
    }
  }

  lemma {:induction false} JoinedTexts(ns: seq<Node>)
    requires ns != []
    ensures TextFromNodes(ns) == Join("\n", Texts(ns)) + "\n"
  {
    if |ns| > 1 {
      JoinedTexts(ns[1..]);
      assert Texts(ns) == [ns[0].text] + Texts(ns[1..]);
    } else {
      assert Texts(ns) == [ns[0].text];
    }
  }

  /** The loop of `_get_text_from_nodes`. */
  method GetTextFromNodes(ns: seq<Node>) returns (text: string)
    ensures text == TextFromNodes(ns)
  {
    text := "";
    for i := 0 to |ns|
      invariant text == TextFromNodes(ns[..i])
    {
      TextFromNodesAppend(ns[..i], [ns[i]]);
      assert ns[..i + 1] == ns[..i] + [ns[i]];
      text := text + ns[i].text;
      text := text + "\n";
    }
    assert ns[..|ns|] == ns;
  }

  /** Entry `number` of a numbered listing: "(number) ", the node text on one line, a blank line. */
  function Entry(number: nat, n: Node): (r: string)
  {
    "(" + Decimal(number) + ") " + OneLine(n.text) + "\n\n"
  }

  /** An entry is one line followed by a blank line: it ends in "\n\n" and holds no other newline. */
  lemma EntryShape(number: nat, n: Node)
    ensures var r := Entry(number, n);
      |r| >= 2 && r[|r| - 2..] == "\n\n" && '\n' !in r[..|r| - 2]
  {
    var d, t := Decimal(number), OneLine(n.text);
    var head := "(" + d + ") " + t;
    assert Entry(number, n) == head + "\n\n";
    assert (head + "\n\n")[..|head|] == head;
    assert forall i :: 0 <= i < |d| ==> d[i] != '\n';
    assert head == "(" + d + (") " + t);
  }

  /** The strings `f(first, ns[0])`, `f(first + 1, ns[1])`, ... laid end to end. */
  function NumberedConcat(ns: seq<Node>, first: nat, f: (nat, Node) -> string): string
  {
    if ns == [] then "" else f(first, ns[0]) + NumberedConcat(ns[1..], first + 1, f)
  }

  /** Cutting a list at `k` cuts the concatenation between the pieces numbered `first + k - 1` and `first + k`. */
  lemma {:induction false} ConcatSplit(ns: seq<Node>, k: nat, first: nat, f: (nat, Node) -> string)
    requires k <= |ns|
    ensures NumberedConcat(ns, first, f) == NumberedConcat(ns[..k], first, f) + NumberedConcat(ns[k..], first + k, f)
  {
    if k == 0 {
      assert ns[..0] == [] && ns[0..] == ns;
    } else {
      var rest := ns[1..];
      ConcatSplit(rest, k - 1, first + 1, f);
      assert ns[..k][0] == ns[0] && ns[..k][1..] == rest[..k - 1] && rest[k - 1..] == ns[k..];
    }
  }

  /** The entries for `ns`, numbered from `first`. */
  function Entries(ns: seq<Node>, first: nat): (r: string)
    ensures r == [] <==> ns == []
  {
    NumberedConcat(ns, first, Entry)
  }

  /** `_get_numbered_text_from_nodes`: the listing numbered from 1. */
  function NumberedText(ns: seq<Node>): (r: string)
    ensures r == [] <==> ns == []
  {
    Entries(ns, 1)
  }

  lemma EntriesOne(n: Node, first: nat)
    ensures Entries([n], first) == Entry(first, n)
  {
    var f: (nat, Node) -> string := Entry;
    assert [n][1..] == [] && NumberedConcat([], first + 1, f) == [];
    assert NumberedConcat([n], first, f) == f(first, n) + [];
  }

  lemma ListingAppend(a: seq<Node>, b: seq<Node>, first: nat)
    ensures Entries(a + b, first) == Entries(a, first) + Entries(b, first + |a|)
  {
    var f: (nat, Node) -> string := Entry;
    var ab := a + b;
    assert ab[..|a|] == a && ab[|a|..] == b;
    ConcatSplit(ab, |a|, first, f);
  }

  /**
    The listing is, in list order, one entry per node; the node at list
    position k (0-based) is the entry that carries the number k + 1.
   */
  lemma NumberedEntryAt(ns: seq<Node>, k: nat)
    requires k < |ns|
    ensures NumberedText(ns) == NumberedText(ns[..k]) + Entry(k + 1, ns[k]) + Entries(ns[k + 1..], k + 2)
  {
    assert ns == ns[..k] + ([ns[k]] + ns[k + 1..]);
    ListingAppend(ns[..k], [ns[k]] + ns[k + 1..], 1);
    assert ([ns[k]] + ns[k + 1..])[1..] == ns[k + 1..];
  }

  /** The loop of `_get_numbered_text_from_nodes`. */
  method GetNumberedTextFromNodes(ns: seq<Node>) returns (text: string)
    ensures text == NumberedText(ns)
  {
    text := "";
    var number := 1;
    for i := 0 to |ns|
      invariant number == i + 1
      invariant text == Entries(ns[..i], 1)
    {
      ListingAppend(ns[..i], [ns[i]], 1);
      EntriesOne(ns[i], i + 1);
      assert ns[..i + 1] == ns[..i] + [ns[i]];
      text := text + Entry(number, ns[i]);
      number := number + 1;
    }
    assert ns[..|ns|] == ns;
  }
}
