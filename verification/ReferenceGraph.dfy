/** Inlining references over a finite graph of blocks, apart from how blocks are written. */
module ReferenceGraph {
  import opened Text

  datatype Token = Token(file: string, fragment: string)

  datatype Error =
    | EmptyRef
    | UnsupportedFragment(fragment: string)
    | MissingKey(key: string)
    | MissingFile(file: string)
    | Recursive(token: Token)

  datatype Result<+T> = Ok(value: T) | Err(error: Error)

  /** A line of a block: copied, a reference with its indentation, or a reference without a value. */
  datatype Node = Copy(line: string) | Link(indent: nat, token: Token) | Bad

  /** The block a reference stands for, or why there is none. */
  type Graph = Token -> Result<seq<Node>>

  // ---------------------------------------------------------------------------------------------
  // Indentation
  // ---------------------------------------------------------------------------------------------

  function Spaces(n: nat): (s: string)
    ensures |s| == n && forall i :: 0 <= i < n ==> s[i] == ' '
  {
    seq(n, _ => ' ')
  }

  /** An empty line stays empty. */
  function Indent(n: nat, line: string): string
  {
    if line == "" then "" else Spaces(n) + line
  }

  function Indented(n: nat, lines: seq<string>): (r: seq<string>)
    ensures |r| == |lines|
  {
    seq(|lines|, i requires 0 <= i < |lines| => Indent(n, lines[i]))
  }

  lemma IndentTwice(n: nat, m: nat, line: string)
    ensures Indent(n, Indent(m, line)) == Indent(n + m, line)
  {
    assert Spaces(n) + Spaces(m) == Spaces(n + m);
    assert Spaces(n) + (Spaces(m) + line) == (Spaces(n) + Spaces(m)) + line;
  }

  lemma IndentedTwice(n: nat, m: nat, lines: seq<string>)
    ensures Indented(n, Indented(m, lines)) == Indented(n + m, lines)
  {
    forall i | 0 <= i < |lines|
      ensures Indented(n, Indented(m, lines))[i] == Indented(n + m, lines)[i]
    {
      IndentTwice(n, m, lines[i]);
    }
  }

  lemma IndentedZero(lines: seq<string>)
    ensures Indented(0, lines) == lines
  {
    forall i | 0 <= i < |lines|
      ensures Indent(0, lines[i]) == lines[i]
    {
      assert Spaces(0) == "";
    }
  }

  lemma IndentedAppend(n: nat, a: seq<string>, b: seq<string>)
    ensures Indented(n, a + b) == Indented(n, a) + Indented(n, b)
  {
  }

  lemma IndentedOne(n: nat, line: string)
    ensures Indented(n, [line]) == [Indent(n, line)]
  {
  }

  // ---------------------------------------------------------------------------------------------
  // Finitely many references
  // ---------------------------------------------------------------------------------------------

  /** All references to blocks that exist are in `all`. */
  predicate LinksIn(g: Graph, all: set<Token>, nodes: seq<Node>)
  {
    forall i :: 0 <= i < |nodes| && nodes[i].Link? && g(nodes[i].token).Ok? ==> nodes[i].token in all
  }

  ghost predicate Closed(g: Graph, all: set<Token>)
  {
    forall t :: g(t).Ok? ==> LinksIn(g, all, g(t).value)
  }

  lemma LinksInSplit(g: Graph, all: set<Token>, nodes: seq<Node>)
    requires nodes != [] && LinksIn(g, all, nodes)
    ensures nodes[0].Link? && g(nodes[0].token).Ok? ==> nodes[0].token in all
    ensures LinksIn(g, all, nodes[1..])
  {
    forall i | 0 <= i < |nodes[1..]| && nodes[1..][i].Link? && g(nodes[1..][i].token).Ok?
      ensures nodes[1..][i].token in all
    {
      assert nodes[1..][i] == nodes[i + 1];
    }
  }

  lemma LinksInCons(g: Graph, all: set<Token>, node: Node, rest: seq<Node>)
    requires node.Link? && g(node.token).Ok? ==> node.token in all
    requires LinksIn(g, all, rest)
    ensures LinksIn(g, all, [node] + rest)
  {
  }

  lemma OneFewer(all: set<Token>, seen: set<Token>, t: Token)
    requires t in all && t !in seen
    ensures |all - (seen + {t})| == |all - seen| - 1
  {
    assert all - seen == (all - (seen + {t})) + {t};
  }

  // ---------------------------------------------------------------------------------------------
  // Inlining and expansion
  // ---------------------------------------------------------------------------------------------

  /** First `a`, then, unless that failed, `b`. */
  function Then(a: Result<seq<string>>, b: Result<seq<string>>): Result<seq<string>>
  {
    if a.Err? then a else if b.Err? then b else Ok(a.value + b.value)
  }

  lemma ThenNothing(a: Result<seq<string>>)
    ensures Then(Ok([]), a) == a
  {
    if a.Ok? {
      assert [] + a.value == a.value;
    }
  }

  lemma ThenMore(out: seq<string>, head: Result<seq<string>>, rest: Result<seq<string>>)
    ensures Then(Ok(out), Then(head, rest)) == if head.Err? then head else Then(Ok(out + head.value), rest)
  {
    if head.Ok? && rest.Ok? {
      assert out + (head.value + rest.value) == (out + head.value) + rest.value;
    }
  }

  /** Inlining with the set of references being inlined: one of those is an error. */
  ghost function Inline(g: Graph, all: set<Token>, nodes: seq<Node>, indent: nat, seen: set<Token>): Result<seq<string>>
    requires Closed(g, all) && LinksIn(g, all, nodes)
    decreases |all - seen|, |nodes|
  {
    if nodes == [] then Ok([])
    else
      LinksInSplit(g, all, nodes);
      Then(InlineNode(g, all, nodes[0], indent, seen), Inline(g, all, nodes[1..], indent, seen))
  }

  ghost function InlineNode(g: Graph, all: set<Token>, node: Node, indent: nat, seen: set<Token>): Result<seq<string>>
    requires Closed(g, all) && (node.Link? && g(node.token).Ok? ==> node.token in all)
    decreases |all - seen|, 0
  {
    match node
    case Copy(line) => Ok([Indent(indent, line)])
    case Bad => Err(EmptyRef)
    case Link(more, t) =>
      if t in seen then Err(Recursive(t))
      else if g(t).Err? then Err(g(t).error)
      else
        OneFewer(all, seen, t);
        Inline(g, all, g(t).value, indent + more, seen + {t})
  }

  lemma InlineLink(g: Graph, all: set<Token>, more: nat, t: Token, indent: nat, seen: set<Token>, block: seq<Node>)
    requires Closed(g, all) && g(t) == Ok(block) && t in all && t !in seen
    ensures LinksIn(g, all, block)
    ensures InlineNode(g, all, Link(more, t), indent, seen) == Inline(g, all, block, indent + more, seen + {t})
  {
  }

  /** The simple expansion: every reference is replaced by its block, indented as the reference is;
      None when that takes more than `depth` levels or fails. */
  function Expand(g: Graph, nodes: seq<Node>, depth: nat): Option<seq<string>>
    decreases depth, |nodes|
  {
    if nodes == [] then Some([])
    else
      var head := ExpandNode(g, nodes[0], depth);
      var rest := Expand(g, nodes[1..], depth);
      if head.None? || rest.None? then None else Some(head.value + rest.value)
  }

  function ExpandNode(g: Graph, node: Node, depth: nat): Option<seq<string>>
    decreases depth, 0
  {
    match node
    case Copy(line) => Some([line])
    case Bad => None
    case Link(more, t) =>
      if depth == 0 || g(t).Err? then None
      else
        var block := Expand(g, g(t).value, depth - 1);
        if block.None? then None else Some(Indented(more, block.value))
  }

  lemma ExpandCopy(g: Graph, nodes: seq<Node>, rest: seq<string>, n: nat)
    requires nodes != [] && nodes[0].Copy? && Expand(g, nodes[1..], n) == Some(rest)
    ensures Expand(g, nodes, n) == Some([nodes[0].line] + rest)
  {
  }

  /** The reference has an expansion of that depth. */
  predicate Fits(g: Graph, t: Token, depth: nat)
  {
    g(t).Ok? && Expand(g, g(t).value, depth).Some?
  }

  // ---------------------------------------------------------------------------------------------
  // Inlining is expansion
  // ---------------------------------------------------------------------------------------------

  /** What is inlined successfully is the expansion, to a depth that the number of references bounds. */
  lemma {:induction false} InlineIsExpansion(g: Graph, all: set<Token>, nodes: seq<Node>, indent: nat, seen: set<Token>)
    requires Closed(g, all) && LinksIn(g, all, nodes) && Inline(g, all, nodes, indent, seen).Ok?
    ensures Expand(g, nodes, |all - seen|).Some?
    ensures Inline(g, all, nodes, indent, seen).value == Indented(indent, Expand(g, nodes, |all - seen|).value)
    decreases |all - seen|, |nodes|
  {
    if nodes != [] {
      LinksInSplit(g, all, nodes);
      InlineNodeIsExpansion(g, all, nodes[0], indent, seen);
      InlineIsExpansion(g, all, nodes[1..], indent, seen);
      var n := |all - seen|;
      IndentedAppend(indent, ExpandNode(g, nodes[0], n).value, Expand(g, nodes[1..], n).value);
    }
  }

  lemma {:induction false} InlineNodeIsExpansion(g: Graph, all: set<Token>, node: Node, indent: nat, seen: set<Token>)
    requires Closed(g, all) && (node.Link? && g(node.token).Ok? ==> node.token in all)
    requires InlineNode(g, all, node, indent, seen).Ok?
    ensures ExpandNode(g, node, |all - seen|).Some?
    ensures InlineNode(g, all, node, indent, seen).value == Indented(indent, ExpandNode(g, node, |all - seen|).value)
    decreases |all - seen|, 0
  {
    match node
    case Copy(line) => IndentedOne(indent, line);
    case Link(more, t) =>
      OneFewer(all, seen, t);
      InlineIsExpansion(g, all, g(t).value, indent + more, seen + {t});
      IndentedTwice(indent, more, Expand(g, g(t).value, |all - seen| - 1).value);
  }

  /** More depth changes nothing once there is enough. */
  lemma {:induction false} DeeperIsSame(g: Graph, nodes: seq<Node>, n: nat, m: nat)
    requires n <= m && Expand(g, nodes, n).Some?
    ensures Expand(g, nodes, m) == Expand(g, nodes, n)
    decreases n, |nodes|
  {
    if nodes != [] {
      if nodes[0].Link? {
        DeeperIsSame(g, g(nodes[0].token).value, n - 1, m - 1);
      }
      DeeperIsSame(g, nodes[1..], n, m);
    }
  }

  /** The least depth that suffices for a reference. */
  lemma {:induction false} LeastDepth(g: Graph, t: Token, n: nat) returns (m: nat)
    requires Fits(g, t, n)
    ensures m <= n && Fits(g, t, m) && (m > 0 ==> !Fits(g, t, m - 1))
  {
    if n > 0 && Fits(g, t, n - 1) {
      m := LeastDepth(g, t, n - 1);
    } else {
      m := n;
    }
  }

  /** None of the references being inlined has an expansion of less than `depth` levels. */
  predicate NoneFits(g: Graph, seen: set<Token>, depth: nat)
  {
    depth > 0 ==> forall s :: s in seen ==> !Fits(g, s, depth - 1)
  }

  lemma StillNoneFits(g: Graph, seen: set<Token>, t: Token, n: nat, m: nat)
    requires NoneFits(g, seen, n) && m < n && (m > 0 ==> !Fits(g, t, m - 1))
    ensures NoneFits(g, seen + {t}, m)
  {
    if m > 0 {
      forall s | s in seen
        ensures !Fits(g, s, m - 1)
      {
        if Fits(g, s, m - 1) {
          DeeperIsSame(g, g(s).value, m - 1, n - 1);
        }
      }
    }
  }

  /** Whatever has an expansion is inlined: the check against `seen` rejects nothing else. */
  lemma {:induction false} ExpansionIsInlined(
    g: Graph, all: set<Token>, nodes: seq<Node>, indent: nat, seen: set<Token>, n: nat)
    requires Closed(g, all) && LinksIn(g, all, nodes) && Expand(g, nodes, n).Some? && NoneFits(g, seen, n)
    ensures Inline(g, all, nodes, indent, seen) == Ok(Indented(indent, Expand(g, nodes, n).value))
    decreases n, |nodes|
  {
    if nodes != [] {
      LinksInSplit(g, all, nodes);
      ExpansionIsInlinedNode(g, all, nodes[0], indent, seen, n);
      ExpansionIsInlined(g, all, nodes[1..], indent, seen, n);
      IndentedAppend(indent, ExpandNode(g, nodes[0], n).value, Expand(g, nodes[1..], n).value);
    }
  }

  lemma {:induction false} ExpansionIsInlinedNode(
    g: Graph, all: set<Token>, node: Node, indent: nat, seen: set<Token>, n: nat)
    requires Closed(g, all) && (node.Link? && g(node.token).Ok? ==> node.token in all)
    requires ExpandNode(g, node, n).Some? && NoneFits(g, seen, n)
    ensures InlineNode(g, all, node, indent, seen) == Ok(Indented(indent, ExpandNode(g, node, n).value))
    decreases n, 0
  {
    match node
    case Copy(line) => IndentedOne(indent, line);
    case Link(more, t) =>
      assert Fits(g, t, n - 1);
      var m := LeastDepth(g, t, n - 1);
      OneFewer(all, seen, t);
      StillNoneFits(g, seen, t, n, m);
      ExpansionIsInlined(g, all, g(t).value, indent + more, seen + {t}, m);
      DeeperIsSame(g, g(t).value, m, n - 1);
      IndentedTwice(indent, more, Expand(g, g(t).value, m).value);
  }

  // ---------------------------------------------------------------------------------------------
  // Chains of references
  // ---------------------------------------------------------------------------------------------

  function Links(nodes: seq<Node>): set<Token>
  {
    set i | 0 <= i < |nodes| && nodes[i].Link? :: nodes[i].token
  }

  function LinksOf(g: Graph, t: Token): set<Token>
  {
    if g(t).Ok? then Links(g(t).value) else {}
  }

  /** Each reference occurs in the block of the one before it, the first among `from`. */
  predicate IsChain(g: Graph, from: set<Token>, chain: seq<Token>)
    decreases |chain|
  {
    chain == [] || (chain[0] in from && IsChain(g, LinksOf(g, chain[0]), chain[1..]))
  }

  predicate NoRepeat(chain: seq<Token>)
  {
    forall i, j :: 0 <= i < j < |chain| ==> chain[i] != chain[j]
  }

  lemma {:induction false} LinkFits(g: Graph, nodes: seq<Node>, n: nat, t: Token)
    requires Expand(g, nodes, n).Some? && t in Links(nodes)
    ensures n > 0 && Fits(g, t, n - 1)
  {
    var i :| 0 <= i < |nodes| && nodes[i].Link? && nodes[i].token == t;
    if i > 0 {
      assert nodes[1..][i - 1] == nodes[i];
      LinkFits(g, nodes[1..], n, t);
    }
  }

  /** The last reference of a chain has an expansion that is less deep by the length of the chain. */
  lemma {:induction false} ChainFits(g: Graph, nodes: seq<Node>, n: nat, chain: seq<Token>)
    requires Expand(g, nodes, n).Some? && chain != [] && IsChain(g, Links(nodes), chain)
    ensures |chain| <= n && Fits(g, chain[|chain| - 1], n - |chain|)
    decreases |chain|
  {
    LinkFits(g, nodes, n, chain[0]);
    if |chain| > 1 {
      ChainFits(g, g(chain[0]).value, n - 1, chain[1..]);
    }
  }

  /** A reference with an expansion is not on a cycle. */
  lemma {:induction false} NoCycle(g: Graph, t: Token, n: nat, chain: seq<Token>)
    requires Fits(g, t, n) && chain != [] && IsChain(g, LinksOf(g, t), chain)
    ensures chain[|chain| - 1] != t
    decreases n
  {
    ChainFits(g, g(t).value, n, chain);
    if chain[|chain| - 1] == t {
      NoCycle(g, t, n - |chain|, chain);
    }
  }

  lemma {:induction false} ChainTake(g: Graph, from: set<Token>, chain: seq<Token>, k: nat)
    requires IsChain(g, from, chain) && k <= |chain|
    ensures IsChain(g, from, chain[..k])
    decreases |chain|
  {
    if k > 0 {
      assert chain[..k][1..] == chain[1..][..k - 1];
      ChainTake(g, LinksOf(g, chain[0]), chain[1..], k - 1);
    }
  }

  lemma {:induction false} ChainDrop(g: Graph, from: set<Token>, chain: seq<Token>, k: nat)
    requires IsChain(g, from, chain) && k < |chain|
    ensures IsChain(g, LinksOf(g, chain[k]), chain[k + 1..])
    decreases |chain|
  {
    if k > 0 {
      assert chain[1..][k..] == chain[k + 1..];
      ChainDrop(g, LinksOf(g, chain[0]), chain[1..], k - 1);
    }
  }

  /** Where there is an expansion no chain repeats a reference. */
  lemma ExpandedChainsDoNotRepeat(g: Graph, nodes: seq<Node>, n: nat, chain: seq<Token>)
    requires Expand(g, nodes, n).Some? && IsChain(g, Links(nodes), chain)
    ensures NoRepeat(chain)
  {
    forall i, j | 0 <= i < j < |chain|
      ensures chain[i] != chain[j]
    {
      ChainTake(g, Links(nodes), chain, j + 1);
      var upto := chain[..j + 1];
      ChainDrop(g, Links(nodes), upto, i);
      ChainTake(g, Links(nodes), upto, i + 1);
      ChainFits(g, nodes, n, upto[..i + 1]);
      NoCycle(g, chain[i], n - (i + 1), upto[i + 1..]);
    }
  }

  predicate HasBad(nodes: seq<Node>)
  {
    exists i :: 0 <= i < |nodes| && nodes[i].Bad?
  }

  lemma {:induction false} ExpandedIsNotBad(g: Graph, nodes: seq<Node>, n: nat)
    requires Expand(g, nodes, n).Some?
    ensures !HasBad(nodes)
  {
    if nodes != [] {
      ExpandedIsNotBad(g, nodes[1..], n);
      forall i | 0 <= i < |nodes|
        ensures !nodes[i].Bad?
      {
        if i > 0 {
          assert nodes[1..][i - 1] == nodes[i];
        }
      }
    }
  }

  /** The chain ends in a reference that has no block, or whose block has an empty reference. */
  predicate EndsBadly(g: Graph, chain: seq<Token>)
    requires chain != []
  {
    var t := chain[|chain| - 1];
    g(t).Err? || HasBad(g(t).value)
  }

  /** A failure has its reason: the block itself has an empty reference, or some chain of references
      ends badly or in a reference that is being inlined or occurs before. */
  lemma {:induction false} FailureHasChain(g: Graph, all: set<Token>, nodes: seq<Node>, indent: nat, seen: set<Token>)
    returns (chain: seq<Token>)
    requires Closed(g, all) && LinksIn(g, all, nodes) && Inline(g, all, nodes, indent, seen).Err?
    ensures IsChain(g, Links(nodes), chain)
    ensures chain == [] ==> HasBad(nodes)
    ensures chain != [] ==> EndsBadly(g, chain) || chain[|chain| - 1] in seen || !NoRepeat(chain)
    decreases |all - seen|, |nodes|
  {
    LinksInSplit(g, all, nodes);
    var node := nodes[0];
    if InlineNode(g, all, node, indent, seen).Ok? {
      chain := FailureHasChain(g, all, nodes[1..], indent, seen);
      if chain != [] {
        LinksOfRest(nodes, chain[0]);
      } else {
        var i :| 0 <= i < |nodes[1..]| && nodes[1..][i].Bad?;
        assert nodes[i + 1].Bad?;
      }
    } else if node.Link? {
      var t := node.token;
      assert t in Links(nodes);
      if t in seen || g(t).Err? {
        chain := [t];
      } else {
        OneFewer(all, seen, t);
        chain := FailureHasChain(g, all, g(t).value, indent + node.indent, seen + {t});
        chain := ChainCons(g, Links(nodes), t, chain, seen);
      }
    } else {
      chain := [];
    }
  }

  lemma LinksOfRest(nodes: seq<Node>, t: Token)
    requires nodes != [] && t in Links(nodes[1..])
    ensures t in Links(nodes)
  {
    var i :| 0 <= i < |nodes[1..]| && nodes[1..][i].Link? && nodes[1..][i].token == t;
    assert nodes[i + 1].Link? && nodes[i + 1].token == t;
  }

  lemma ChainCons(g: Graph, from: set<Token>, t: Token, rest: seq<Token>, seen: set<Token>) returns (chain: seq<Token>)
    requires t in from && g(t).Ok? && IsChain(g, LinksOf(g, t), rest)
    requires rest == [] ==> HasBad(g(t).value)
    requires rest != [] ==> EndsBadly(g, rest) || rest[|rest| - 1] in seen + {t} || !NoRepeat(rest)
    ensures chain != [] && IsChain(g, from, chain)
    ensures EndsBadly(g, chain) || chain[|chain| - 1] in seen || !NoRepeat(chain)
  {
    chain := [t] + rest;
    assert chain[1..] == rest;
    if rest != [] {
      if rest[|rest| - 1] == t {
        assert chain[0] == chain[|chain| - 1];
      } else if !NoRepeat(rest) {
        var i, j :| 0 <= i < j < |rest| && rest[i] == rest[j];
        assert chain[i + 1] == chain[j + 1];
      }
    }
  }

  /** Everything a block refers to, directly or not, exists and is well formed, and no chain of
      references comes back to where it was. */
  ghost predicate Sane(g: Graph, nodes: seq<Node>)
  {
    && !HasBad(nodes)
    && forall chain :: IsChain(g, Links(nodes), chain) && chain != [] ==> NoRepeat(chain) && !EndsBadly(g, chain)
  }

  /** Inlining succeeds exactly for the sane. */
  lemma InlineSucceedsIffSane(g: Graph, all: set<Token>, nodes: seq<Node>, indent: nat)
    requires Closed(g, all) && LinksIn(g, all, nodes)
    ensures Inline(g, all, nodes, indent, {}).Ok? <==> Sane(g, nodes)
  {
    if Inline(g, all, nodes, indent, {}).Ok? {
      InlineIsExpansion(g, all, nodes, indent, {});
      var n := |all - {}|;
      ExpandedIsNotBad(g, nodes, n);
      forall chain | IsChain(g, Links(nodes), chain) && chain != []
        ensures NoRepeat(chain) && !EndsBadly(g, chain)
      {
        ExpandedChainsDoNotRepeat(g, nodes, n, chain);
        ChainFits(g, nodes, n, chain);
        ExpandedIsNotBad(g, g(chain[|chain| - 1]).value, n - |chain|);
      }
    } else {
      var chain := FailureHasChain(g, all, nodes, indent, {});
    }
  }
}
