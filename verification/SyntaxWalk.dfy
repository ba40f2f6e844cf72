/** The syntax summary: a walk over a parse tree with an explicit stack, and the loop that
    summarises files until a token budget is used up. */
module SyntaxWalk {
  import opened Wrappers

  /** What a node contributes: a symbol line, an import line, or nothing. A definition without
      text contributes no line; an import without text has no first line to take. */
  datatype Mark = Symbol(firstLine: string) | Import(importLine: Option<string>) | Other

  datatype Node = Node(mark: Mark, children: seq<Node>)

  /** All nodes, left to right, each before its children. */
  function PreOrder(node: Node): seq<Node>
    decreases node, 0
  {
    [node] + PreOrderAll(node.children)
  }

  function PreOrderAll(nodes: seq<Node>): seq<Node>
    decreases nodes, 1
  {
    if nodes == [] then [] else PreOrder(nodes[0]) + PreOrderAll(nodes[1..])
  }

  function Symbols(nodes: seq<Node>): seq<string> {
    if nodes == [] then []
    else
      (if nodes[0].mark.Symbol? && nodes[0].mark.firstLine != "" then [nodes[0].mark.firstLine] else [])
          + Symbols(nodes[1..])
  }

  function Imports(nodes: seq<Node>): seq<string> {
    if nodes == [] then []
    else
      (if nodes[0].mark.Import? && nodes[0].mark.importLine.Some? then [nodes[0].mark.importLine.value] else [])
          + Imports(nodes[1..])
  }

  /** An import node whose text is blank: taking its first line raises an error. */
  predicate BlankImport(node: Node) {
    node.mark.Import? && node.mark.importLine.None?
  }

  function Reversed(nodes: seq<Node>): seq<Node> {
    if nodes == [] then [] else Reversed(nodes[1..]) + [nodes[0]]
  }

  lemma {:induction false} ReversedMeaning(nodes: seq<Node>)
    ensures |Reversed(nodes)| == |nodes| && Reversed(Reversed(nodes)) == nodes
    decreases |nodes|
  {
    if nodes != [] {
      ReversedMeaning(nodes[1..]);
      ReversedSnoc(Reversed(nodes[1..]), nodes[0]);
    }
  }

  lemma {:induction false} ReversedSnoc(nodes: seq<Node>, last: Node)
    ensures Reversed(nodes + [last]) == [last] + Reversed(nodes)
    decreases |nodes|
  {
    if nodes == [] {
      assert [] + [last] == [last];
      assert [last][1..] == [];
    } else {
      assert (nodes + [last])[1..] == nodes[1..] + [last];
      ReversedSnoc(nodes[1..], last);
    }
  }

  /** The forest still to be visited when this stack is held: the top of the stack comes first. */
  function Pending(stack: seq<Node>): seq<Node> {
    PreOrderAll(Reversed(stack))
  }

  lemma {:induction false} PreOrderAdds(a: seq<Node>, b: seq<Node>)
    ensures PreOrderAll(a + b) == PreOrderAll(a) + PreOrderAll(b)
    decreases |a|
  {
    if a == [] {
      assert a + b == b;
    } else {
      assert (a + b)[1..] == a[1..] + b;
      PreOrderAdds(a[1..], b);
    }
  }

  lemma {:induction false} ReversedAdds(a: seq<Node>, b: seq<Node>)
    ensures Reversed(a + b) == Reversed(b) + Reversed(a)
    decreases |a|
  {
    if a == [] {
      assert a + b == b;
    } else {
      assert (a + b)[1..] == a[1..] + b;
      ReversedAdds(a[1..], b);
    }
  }

  /** Popping a node and pushing its children reversed visits the node and leaves the rest. */
  lemma PopPush(stack: seq<Node>)
    requires stack != []
    ensures var top, below := stack[|stack| - 1], stack[..|stack| - 1];
            Pending(stack) == [top] + Pending(below + Reversed(top.children))
  {
    hide PreOrderAll, Reversed;
    var top, below := stack[|stack| - 1], stack[..|stack| - 1];
    assert stack == below + [top];
    ReversedSnoc(below, top);
    ReversedAdds(below, Reversed(top.children));
    ReversedMeaning(top.children);
    PreOrderAdds(top.children, Reversed(below));
    PreOrderOfFirst(top, Reversed(below));
  }

  lemma PreOrderOfFirst(top: Node, rest: seq<Node>)
    ensures PreOrderAll([top] + rest) == [top] + (PreOrderAll(top.children) + PreOrderAll(rest))
  {
    assert ([top] + rest)[1..] == rest;
  }

  lemma {:induction false} SymbolsSnoc(nodes: seq<Node>, last: Node)
    ensures Symbols(nodes + [last]) ==
        Symbols(nodes) + if last.mark.Symbol? && last.mark.firstLine != "" then [last.mark.firstLine] else []
    ensures Imports(nodes + [last]) ==
        Imports(nodes) + if last.mark.Import? && last.mark.importLine.Some? then [last.mark.importLine.value] else []
    decreases |nodes|
  {
    if nodes == [] {
      assert [] + [last] == [last] && [last][1..] == [];
    } else {
      assert (nodes + [last])[1..] == nodes[1..] + [last];
      SymbolsSnoc(nodes[1..], last);
    }
  }

  /** The walk with an explicit stack emits what the recursive left-to-right pre-order holds,
      and fails exactly when some import node has no text. */
  method WalkTree(node: Node) returns (ok: bool, symbols: seq<string>, imports: seq<string>)
    ensures ok <==> forall n | n in PreOrder(node) :: !BlankImport(n)
    ensures ok ==> symbols == Symbols(PreOrder(node)) && imports == Imports(PreOrder(node))
  {
    hide PreOrder, Pending, Symbols, Imports, Reversed;
    ghost var seen: seq<Node>, all := [], PreOrder(node);
    var stack := [node];
    symbols, imports := [], [];
    OneIsPending(node);
    while stack != []
      invariant seen + Pending(stack) == all
      invariant symbols == Symbols(seen) && imports == Imports(seen)
      invariant forall n | n in seen :: !BlankImport(n)
      decreases |Pending(stack)|
    {
      PopPush(stack);
      var current := stack[|stack| - 1];
      ghost var rest := Pending(stack[..|stack| - 1] + Reversed(current.children));
      assert all == (seen + [current]) + rest;
      SymbolsSnoc(seen, current);
      stack := stack[..|stack| - 1];
      if current.mark.Symbol? {
        if current.mark.firstLine != "" { symbols := symbols + [current.mark.firstLine]; }
      } else if current.mark.Import? {
        if current.mark.importLine.None? {
          assert current in all && BlankImport(current);
          return false, symbols, imports;
        }
        imports := imports + [current.mark.importLine.value];
      }
      stack := stack + Reversed(current.children);
      seen := seen + [current];
    }
    NothingPending();
    assert seen == all;
    ok := true;
  }

  lemma OneIsPending(node: Node)
    ensures [] + Pending([node]) == PreOrder(node) && Symbols([]) == [] && Imports([]) == []
  {
    assert [node][1..] == [] && Reversed([node]) == [] + [node] == [node];
    assert PreOrderAll([node]) == PreOrder(node) + [] == PreOrder(node);
  }

  lemma NothingPending()
    ensures Pending([]) == []
  {
  }

  // ----- The budget -----

  /** A path of a supported language with its text, or one that is passed over. */
  datatype File = Readable(text: string) | Skipped

  function Cost(f: File): nat {
    match f
    case Skipped => 0
    case Readable(text) => if |text| / 4 > 1 then |text| / 4 else 1
  }

  function TotalCost(files: seq<File>): nat {
    if files == [] then 0 else TotalCost(files[..|files| - 1]) + Cost(files[|files| - 1])
  }

  /** Files are summarised in order, until the budget is used up before a file: the first n are
      read, all but the last of them within the budget, so it is overshot by less than the cost
      of the last one; and the summary is marked truncated exactly when files remain. */
  method Summarize(files: seq<File>, budget: int) returns (n: nat, used: nat, truncated: bool)
    ensures n <= |files| && used == TotalCost(files[..n])
    ensures truncated <==> n < |files|
    ensures truncated ==> used >= budget
    ensures forall k | 0 <= k < n :: TotalCost(files[..k]) < budget
    ensures n > 0 ==> used < budget + Cost(files[n - 1])
  {
    n, used, truncated := 0, 0, false;
    while n < |files|
      invariant n <= |files| && used == TotalCost(files[..n]) && !truncated
      invariant forall k | 0 <= k < n :: TotalCost(files[..k]) < budget
      invariant n > 0 ==> used < budget + Cost(files[n - 1])
    {
      if used >= budget {
        truncated := true;
        return;
      }
      assert files[..n + 1][..n] == files[..n];
      if files[n].Readable? {
        var tokens := |files[n].text| / 4;
        used := used + if tokens > 1 then tokens else 1;
      }
      n := n + 1;
    }
  }
}
