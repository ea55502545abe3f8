/** Inlining local `$ref` files of an OpenAPI document, recursively. */
module OpenApiBundle {
  import opened Text
  import opened ReferenceGraph

  // ---------------------------------------------------------------------------------------------
  // Lines
  // ---------------------------------------------------------------------------------------------

  /** Python `str.isspace`, for the characters of the basic plane. */
  predicate White(c: char)
  {
    var n := c as int;
    9 <= n <= 13 || 28 <= n <= 32 || n == 0x85 || n == 0xA0 || n == 0x1680 || 0x2000 <= n <= 0x200A
    || n == 0x2028 || n == 0x2029 || n == 0x202F || n == 0x205F || n == 0x3000
  }

  function LStrip(s: string): (r: string)
    ensures |r| <= |s|
  {
    if s == "" || !White(s[0]) then s else LStrip(s[1..])
  }

  function RStrip(s: string): string
  {
    if s == "" || !White(s[|s| - 1]) then s else RStrip(s[..|s| - 1])
  }

  function Strip(s: string): string { RStrip(LStrip(s)) }

  /** `len(line) - len(line.lstrip())` */
  function IndentOf(line: string): nat { |line| - |LStrip(line)| }

  lemma {:induction false} LStripSpaces(n: nat, line: string)
    ensures LStrip(Spaces(n) + line) == LStrip(line)
  {
    if n == 0 {
      assert Spaces(0) + line == line;
    } else {
      var s := Spaces(n) + line;
      assert s[0] == ' ';
      assert s[1..] == Spaces(n - 1) + line;
      LStripSpaces(n - 1, line);
    }
  }

  /** Indenting a line changes its indentation and nothing else. */
  lemma IndentKeepsText(n: nat, line: string)
    ensures Strip(Indent(n, line)) == Strip(line)
    ensures line != "" ==> IndentOf(Indent(n, line)) == n + IndentOf(line)
  {
    LStripSpaces(n, line);
  }

  // ---------------------------------------------------------------------------------------------
  // References
  // ---------------------------------------------------------------------------------------------

  type FilePath = string

  type Dir = string

  /** The files (as the lines `read_text().splitlines()` gives), path resolution and parent directories. */
  datatype Tree = Tree(files: map<FilePath, seq<string>>, resolve: (Dir, string) -> FilePath, parent: FilePath -> Dir)

  const REF := "$ref:"

  /** What a `$ref` value points to.  A fragment of "" stands for none: both mean the whole file. */
  datatype Target = Local(path: string, fragment: string) | NotAFile | Empty

  function Unquote(value: string, quote: char): string
  {
    if value != "" && value[0] == quote && value[|value| - 1] == quote then
      (if |value| == 1 then "" else value[1..|value| - 1])
    else value
  }

  /** `_parse_ref` on a stripped line that starts with `$ref:`. */
  function ParseRef(stripped: string): Target
    requires StartsWith(stripped, REF)
  {
    var raw := Strip(stripped[|REF|..]);
    if raw == "" then Empty
    else
      var value := Unquote(Unquote(raw, '\''), '"');
      if StartsWith(value, "#") || Contains(value, "://") then NotAFile
      else
        var i := FirstIndex(value, '#');
        if i < |value| then Local(value[..i], value[i + 1..]) else Local(value, "")
  }

  function DropHashes(s: string): string
  {
    if s != "" && s[0] == '#' then DropHashes(s[1..]) else s
  }

  function FragmentKey(fragment: string): Result<string>
  {
    var f := DropHashes(fragment);
    var key := if StartsWith(f, "/") then f[1..] else f;
    if key == "" || '/' in key then Err(UnsupportedFragment(fragment)) else Ok(key)
  }

  // ---------------------------------------------------------------------------------------------
  // Blocks
  // ---------------------------------------------------------------------------------------------

  /** The first line that is the key line `want` when stripped, or |lines|. */
  function KeyLine(lines: seq<string>, want: string): (i: nat)
    ensures i <= |lines|
  {
    if lines == [] || Strip(lines[0]) == want then 0 else 1 + KeyLine(lines[1..], want)
  }

  lemma {:induction false} KeyLineIsFirst(lines: seq<string>, want: string)
    ensures
      var i := KeyLine(lines, want);
      (i < |lines| ==> Strip(lines[i]) == want) && forall j :: 0 <= j < i ==> Strip(lines[j]) != want
  {
    if lines != [] && Strip(lines[0]) != want {
      var rest := lines[1..];
      KeyLineIsFirst(rest, want);
      forall j | 0 < j < KeyLine(lines, want)
        ensures Strip(lines[j]) != want
      {
        assert rest[j - 1] == lines[j];
      }
    }
  }

  predicate Inside(line: string, base: nat) { Strip(line) == "" || IndentOf(line) > base }

  /** The lines up to the first that is neither blank nor deeper than `base`. */
  function Body(lines: seq<string>, base: nat): seq<string>
  {
    if lines == [] || !Inside(lines[0], base) then [] else [lines[0]] + Body(lines[1..], base)
  }

  lemma {:induction false} BodyIsLongestRun(lines: seq<string>, base: nat)
    ensures Body(lines, base) <= lines
    ensures forall i :: 0 <= i < |Body(lines, base)| ==> Inside(lines[i], base)
    ensures |Body(lines, base)| < |lines| ==> !Inside(lines[|Body(lines, base)|], base)
  {
    if lines != [] && Inside(lines[0], base) {
      var rest := lines[1..];
      BodyIsLongestRun(rest, base);
      assert forall i :: 0 < i < |lines| ==> lines[i] == rest[i - 1];
    }
  }

  function Dedent(trim: nat, line: string): string
  {
    if line == "" then "" else if StartsWith(line, Spaces(trim)) then line[trim..] else LStrip(line)
  }

  function Dedented(trim: nat, lines: seq<string>): (r: seq<string>)
    ensures |r| == |lines|
  {
    seq(|lines|, i requires 0 <= i < |lines| => Dedent(trim, lines[i]))
  }

  function ExtractBlock(lines: seq<string>, key: string): Result<seq<string>>
  {
    var i := KeyLine(lines, key + ":");
    if i == |lines| then Err(MissingKey(key))
    else Ok(Dedented(IndentOf(lines[i]) + 2, Body(lines[i + 1..], IndentOf(lines[i]))))
  }

  lemma KeyLineStep(lines: seq<string>, want: string, i: nat)
    requires i < |lines|
    ensures KeyLine(lines[i..], want) == if Strip(lines[i]) == want then 0 else 1 + KeyLine(lines[i + 1..], want)
  {
    assert lines[i..][0] == lines[i] && lines[i..][1..] == lines[i + 1..];
  }

  lemma BodyStep(lines: seq<string>, base: nat, i: nat)
    requires i < |lines|
    ensures Body(lines[i..], base) == if Inside(lines[i], base) then [lines[i]] + Body(lines[i + 1..], base) else []
  {
    assert lines[i..][0] == lines[i] && lines[i..][1..] == lines[i + 1..];
  }

  method CollectBody(lines: seq<string>, from: nat, base: nat) returns (block: seq<string>)
    requires from <= |lines|
    ensures block == Body(lines[from..], base)
  {
    block := [];
    for j := from to |lines|
      invariant Body(lines[from..], base) == block + Body(lines[j..], base)
    {
      BodyStep(lines, base, j);
      if !Inside(lines[j], base) { return; }
      Regroup(block, [lines[j]], Body(lines[j + 1..], base));
      block := block + [lines[j]];
    }
  }

  method FindBlock(lines: seq<string>, key: string) returns (r: Result<seq<string>>)
    ensures r == ExtractBlock(lines, key)
  {
    assert lines[0..] == lines;
    for idx := 0 to |lines|
      invariant KeyLine(lines, key + ":") == idx + KeyLine(lines[idx..], key + ":")
    {
      KeyLineStep(lines, key + ":", idx);
      if Strip(lines[idx]) == key + ":" {
        var base := IndentOf(lines[idx]);
        var block := CollectBody(lines, idx + 1, base);
        var trimmed: seq<string> := [];
        for k := 0 to |block|
          invariant trimmed == Dedented(base + 2, block)[..k]
        {
          trimmed := trimmed + [Dedent(base + 2, block[k])];
        }
        assert trimmed == Dedented(base + 2, block);
        return Ok(trimmed);
      }
    }
    assert lines[|lines|..] == [];
    r := Err(MissingKey(key));
  }

  /** Dedenting loses nothing of a line that is indented by `trim` spaces or more, and only of such. */
  lemma DedentThenIndent(trim: nat, line: string)
    ensures Indent(trim, Dedent(trim, line)) == line <==> line == "" || (Spaces(trim) <= line && Spaces(trim) != line) || (trim == 0)
  {
  }

  // ---------------------------------------------------------------------------------------------
  // Scanning
  // ---------------------------------------------------------------------------------------------

  /** A line with this stripped text and indentation belongs to the block scalar opened at `hold`. */
  predicate Held(text: string, at: nat, hold: Option<nat>)
  {
    hold.Some? && (text == "" || at > hold.value)
  }

  /** The line ends in a block scalar header, going by the text after its first colon. */
  predicate Opens(text: string)
  {
    var i := FirstIndex(text, ':');
    i < |text| && var tail := Strip(text[i + 1..]); StartsWith(tail, "|") || StartsWith(tail, ">")
  }

  /** The block scalar in force after the line. */
  function HoldThen(text: string, at: nat, hold: Option<nat>): Option<nat>
  {
    if Held(text, at, hold) then hold else if Opens(text) then Some(at) else None
  }

  datatype Item = Plain | Ref(path: string, fragment: string) | NoValue

  /** What is done with a line. */
  function Classify(text: string, held: bool): Item
  {
    if held || !StartsWith(text, REF) then Plain
    else
      match ParseRef(text)
      case Local(path, fragment) => Ref(path, fragment)
      case NotAFile => Plain
      case Empty => NoValue
  }

  function HoldAfter(line: string, hold: Option<nat>): Option<nat>
  {
    HoldThen(Strip(line), IndentOf(line), hold)
  }

  function ItemOf(line: string, hold: Option<nat>): Item
  {
    Classify(Strip(line), Held(Strip(line), IndentOf(line), hold))
  }

  /** The lines a reference stands for. */
  function Block(tree: Tree, t: Token): Result<seq<string>>
  {
    if t.file !in tree.files then Err(MissingFile(t.file))
    else if t.fragment == "" then Ok(tree.files[t.file])
    else
      match FragmentKey(t.fragment)
      case Err(e) => Err(e)
      case Ok(key) => ExtractBlock(tree.files[t.file], key)
  }

  // ---------------------------------------------------------------------------------------------
  // Finitely many references
  // ---------------------------------------------------------------------------------------------

  function Texts(lines: seq<string>): set<string>
  {
    set i | 0 <= i < |lines| :: Strip(lines[i])
  }

  /** The stripped lines of all files. */
  function AllTexts(tree: Tree): set<string>
  {
    set f, i | f in tree.files && 0 <= i < |tree.files[f]| :: Strip(tree.files[f][i])
  }

  function FragmentIn(text: string): string
  {
    if StartsWith(text, REF) && ParseRef(text).Local? then ParseRef(text).fragment else ""
  }

  /** Every reference to an existing file that a line of the tree can make. */
  function Universe(tree: Tree): set<Token>
  {
    set f, t | f in tree.files && t in AllTexts(tree) :: Token(f, FragmentIn(t))
  }

  lemma {:induction false} LStripTwice(s: string, k: nat)
    requires k <= IndentOf(s)
    ensures LStrip(s[k..]) == LStrip(s)
  {
    if k > 0 {
      assert s[1..][k - 1..] == s[k..];
      LStripTwice(s[1..], k - 1);
    } else {
      assert s[0..] == s;
    }
  }

  lemma DedentKeepsText(trim: nat, line: string)
    ensures Strip(Dedent(trim, line)) == Strip(line)
  {
    if line != "" && StartsWith(line, Spaces(trim)) {
      assert line == Spaces(trim) + line[trim..];
      LStripSpaces(trim, line[trim..]);
    } else if line != "" {
      LStripTwice(line, IndentOf(line));
    }
  }

  /** An extracted block has no text that its file does not have. */
  lemma BlockTexts(tree: Tree, t: Token)
    requires Block(tree, t).Ok?
    ensures Texts(Block(tree, t).value) <= AllTexts(tree)
  {
    var block := Block(tree, t).value;
    forall i | 0 <= i < |block|
      ensures Strip(block[i]) in AllTexts(tree)
    {
      BlockLine(tree, t, i);
    }
  }

  lemma BlockLine(tree: Tree, t: Token, i: nat)
    requires Block(tree, t).Ok? && i < |Block(tree, t).value|
    ensures Strip(Block(tree, t).value[i]) in AllTexts(tree)
  {
    var lines := tree.files[t.file];
    if t.fragment == "" {
      assert Strip(lines[i]) in AllTexts(tree);
    } else {
      var at := KeyLine(lines, FragmentKey(t.fragment).value + ":");
      BodyIsLongestRun(lines[at + 1..], IndentOf(lines[at]));
      assert Body(lines[at + 1..], IndentOf(lines[at]))[i] == lines[at + 1 + i];
      DedentKeepsText(IndentOf(lines[at]) + 2, lines[at + 1 + i]);
      assert Strip(lines[at + 1 + i]) in AllTexts(tree);
    }
  }

  // ---------------------------------------------------------------------------------------------
  // The graph of blocks
  // ---------------------------------------------------------------------------------------------

  function NodeOf(tree: Tree, line: string, hold: Option<nat>, dir: Dir): Node
  {
    match ItemOf(line, hold)
    case Plain => Copy(line)
    case NoValue => Bad
    case Ref(path, fragment) => Link(IndentOf(line), Token((tree.resolve)(dir, path), fragment))
  }

  function Nodes(tree: Tree, lines: seq<string>, hold: Option<nat>, dir: Dir): (nodes: seq<Node>)
    ensures |nodes| == |lines|
  {
    if lines == [] then []
    else [NodeOf(tree, lines[0], hold, dir)] + Nodes(tree, lines[1..], HoldAfter(lines[0], hold), dir)
  }

  function BlockNodes(tree: Tree, t: Token): Result<seq<Node>>
  {
    var block := Block(tree, t);
    if block.Err? then Err(block.error) else Ok(Nodes(tree, block.value, None, (tree.parent)(t.file)))
  }

  function GraphOf(tree: Tree): Graph
  {
    t => BlockNodes(tree, t)
  }

  lemma TextsSplit(tree: Tree, lines: seq<string>)
    requires lines != [] && Texts(lines) <= AllTexts(tree)
    ensures Strip(lines[0]) in AllTexts(tree) && Texts(lines[1..]) <= AllTexts(tree)
  {
    assert Strip(lines[0]) in Texts(lines);
    forall i | 0 <= i < |lines[1..]|
      ensures Strip(lines[1..][i]) in AllTexts(tree)
    {
      assert Strip(lines[i + 1]) in Texts(lines);
    }
  }

  lemma InUniverse(tree: Tree, file: FilePath, text: string)
    requires file in tree.files && text in AllTexts(tree)
    ensures Token(file, FragmentIn(text)) in Universe(tree)
  {
  }

  lemma LinkInUniverse(tree: Tree, line: string, hold: Option<nat>, dir: Dir)
    requires Strip(line) in AllTexts(tree)
    requires NodeOf(tree, line, hold, dir).Link? && NodeOf(tree, line, hold, dir).token.file in tree.files
    ensures NodeOf(tree, line, hold, dir).token in Universe(tree)
  {
    var t := NodeOf(tree, line, hold, dir).token;
    FragmentOfRef(Strip(line), Held(Strip(line), IndentOf(line), hold));
    InUniverse(tree, t.file, Strip(line));
  }

  lemma FragmentOfRef(text: string, held: bool)
    requires Classify(text, held).Ref?
    ensures Classify(text, held).fragment == FragmentIn(text)
  {
  }

  lemma NodeLinkIn(tree: Tree, line: string, hold: Option<nat>, dir: Dir)
    requires Strip(line) in AllTexts(tree)
    ensures
      var node := NodeOf(tree, line, hold, dir);
      node.Link? && GraphOf(tree)(node.token).Ok? ==> node.token in Universe(tree)
  {
    if NodeOf(tree, line, hold, dir).Link? && NodeOf(tree, line, hold, dir).token.file in tree.files {
      LinkInUniverse(tree, line, hold, dir);
    }
  }

  lemma {:induction false} NodesLinkIn(tree: Tree, lines: seq<string>, hold: Option<nat>, dir: Dir)
    requires Texts(lines) <= AllTexts(tree)
    ensures LinksIn(GraphOf(tree), Universe(tree), Nodes(tree, lines, hold, dir))
  {
    if lines != [] {
      TextsSplit(tree, lines);
      var next := HoldAfter(lines[0], hold);
      NodeLinkIn(tree, lines[0], hold, dir);
      NodesLinkIn(tree, lines[1..], next, dir);
      LinksInCons(GraphOf(tree), Universe(tree), NodeOf(tree, lines[0], hold, dir), Nodes(tree, lines[1..], next, dir));
    }
  }

  lemma GraphIsClosed(tree: Tree)
    ensures Closed(GraphOf(tree), Universe(tree))
  {
    forall t | GraphOf(tree)(t).Ok?
      ensures LinksIn(GraphOf(tree), Universe(tree), GraphOf(tree)(t).value)
    {
      BlockTexts(tree, t);
      NodesLinkIn(tree, Block(tree, t).value, None, (tree.parent)(t.file));
    }
  }

  // ---------------------------------------------------------------------------------------------
  // The bundler
  // ---------------------------------------------------------------------------------------------

  /** What inlining these lines must give. */
  ghost function Inlined(tree: Tree, lines: seq<string>, hold: Option<nat>, dir: Dir, indent: nat, seen: set<Token>)
    : Result<seq<string>>
    requires Texts(lines) <= AllTexts(tree)
  {
    GraphIsClosed(tree);
    NodesLinkIn(tree, lines, hold, dir);
    Inline(GraphOf(tree), Universe(tree), Nodes(tree, lines, hold, dir), indent, seen)
  }

  lemma GraphAt(tree: Tree, t: Token)
    ensures Block(tree, t).Err? ==> GraphOf(tree)(t) == Err(Block(tree, t).error)
    ensures Block(tree, t).Ok? ==>
      GraphOf(tree)(t) == Ok(Nodes(tree, Block(tree, t).value, None, (tree.parent)(t.file)))
  {
    assert GraphOf(tree)(t) == BlockNodes(tree, t);
  }

  /** What one line contributes. */
  ghost function InlinedNode(tree: Tree, node: Node, indent: nat, seen: set<Token>): Result<seq<string>>
    requires node.Link? && GraphOf(tree)(node.token).Ok? ==> node.token in Universe(tree)
  {
    GraphIsClosed(tree);
    InlineNode(GraphOf(tree), Universe(tree), node, indent, seen)
  }

  lemma ReferenceFails(tree: Tree, more: nat, t: Token, indent: nat, seen: set<Token>)
    requires GraphOf(tree)(t).Ok? ==> t in Universe(tree)
    ensures t in seen ==> InlinedNode(tree, Link(more, t), indent, seen) == Err(Recursive(t))
    ensures t !in seen && Block(tree, t).Err? ==>
      InlinedNode(tree, Link(more, t), indent, seen) == Err(Block(tree, t).error)
  {
    GraphAt(tree, t);
  }

  lemma ReferenceInlined(tree: Tree, more: nat, t: Token, indent: nat, seen: set<Token>)
    requires t in Universe(tree) && t !in seen && Block(tree, t).Ok?
    ensures Texts(Block(tree, t).value) <= AllTexts(tree)
    ensures InlinedNode(tree, Link(more, t), indent, seen) ==
      Inlined(tree, Block(tree, t).value, None, (tree.parent)(t.file), indent + more, seen + {t})
  {
    BlockTexts(tree, t);
    GraphIsClosed(tree);
    GraphAt(tree, t);
    InlineLink(GraphOf(tree), Universe(tree), more, t, indent, seen,
      Nodes(tree, Block(tree, t).value, None, (tree.parent)(t.file)));
  }

  /** Inlining goes line by line. */
  lemma InlinedStep(tree: Tree, lines: seq<string>, hold: Option<nat>, dir: Dir, indent: nat, seen: set<Token>)
    requires lines != [] && Texts(lines) <= AllTexts(tree)
    ensures Texts(lines[1..]) <= AllTexts(tree)
    ensures
      var node := NodeOf(tree, lines[0], hold, dir);
      && (node.Link? && GraphOf(tree)(node.token).Ok? ==> node.token in Universe(tree))
      && Inlined(tree, lines, hold, dir, indent, seen) == Then(
        InlinedNode(tree, node, indent, seen),
        Inlined(tree, lines[1..], HoldAfter(lines[0], hold), dir, indent, seen))
  {
    TextsSplit(tree, lines);
    GraphIsClosed(tree);
    NodesLinkIn(tree, lines, hold, dir);
    NodesStep(tree, lines, hold, dir);
    NodeLinkIn(tree, lines[0], hold, dir);
  }

  lemma NodesStep(tree: Tree, lines: seq<string>, hold: Option<nat>, dir: Dir)
    requires lines != []
    ensures
      var nodes := Nodes(tree, lines, hold, dir);
      nodes[0] == NodeOf(tree, lines[0], hold, dir) && nodes[1..] == Nodes(tree, lines[1..], HoldAfter(lines[0], hold), dir)
  {
  }

  lemma InlinedAt(tree: Tree, lines: seq<string>, i: nat, hold: Option<nat>, dir: Dir, indent: nat, seen: set<Token>)
    requires i < |lines| && Texts(lines[i..]) <= AllTexts(tree)
    ensures Texts(lines[i + 1..]) <= AllTexts(tree)
    ensures
      var node := NodeOf(tree, lines[i], hold, dir);
      && (node.Link? && GraphOf(tree)(node.token).Ok? ==> node.token in Universe(tree))
      && Inlined(tree, lines[i..], hold, dir, indent, seen) == Then(
        InlinedNode(tree, node, indent, seen),
        Inlined(tree, lines[i + 1..], HoldAfter(lines[i], hold), dir, indent, seen))
  {
    assert lines[i..][0] == lines[i] && lines[i..][1..] == lines[i + 1..];
    InlinedStep(tree, lines[i..], hold, dir, indent, seen);
  }

  class Bundler {
    const tree: Tree
    var seen: set<Token>

    constructor (tree: Tree)
      ensures this.tree == tree && seen == {}
    {
      this.tree := tree;
      seen := {};
    }

    /** Inlines the references of a block.  On success `seen` is as it was; an error leaves it as it is. */
    method InlineLines(lines: seq<string>, dir: Dir, indent: nat) returns (r: Result<seq<string>>)
      requires Texts(lines) <= AllTexts(tree)
      modifies this`seen
      ensures r == Inlined(tree, lines, None, dir, indent, old(seen))
      ensures r.Ok? ==> seen == old(seen)
      decreases |Universe(tree) - seen|, 1
    {
      ghost var seen0 := seen;
      ghost var want := Inlined(tree, lines, None, dir, indent, seen0);
      var out: seq<string>, hold: Option<nat> := [], None;
      var i := 0;
      assert lines[0..] == lines;
      ThenNothing(want);
      while i < |lines|
        invariant 0 <= i <= |lines| && seen == seen0 && Texts(lines[i..]) <= AllTexts(tree)
        invariant want == Then(Ok(out), Inlined(tree, lines[i..], hold, dir, indent, seen0))
      {
        var line := lines[i];
        InlinedAt(tree, lines, i, hold, dir, indent, seen0);
        ghost var rest := Inlined(tree, lines[i + 1..], HoldAfter(line, hold), dir, indent, seen0);
        var node := NodeOf(tree, line, hold, dir);
        ThenMore(out, InlinedNode(tree, node, indent, seen0), rest);
        match node {
          case Copy(_) => out := out + [Indent(indent, line)];
          case Bad => return Err(EmptyRef);
          case Link(more, token) =>
            var inner := InlineReference(more, token, indent);
            if inner.Err? { return inner; }
            out := out + inner.value;
        }
        hold := HoldAfter(line, hold);
        i := i + 1;
      }
      assert lines[i..] == [] && out + [] == out;
      r := Ok(out);
    }

    /** The body of the loop for a line that refers to a file. */
    method InlineReference(more: nat, token: Token, indent: nat) returns (r: Result<seq<string>>)
      requires GraphOf(tree)(token).Ok? ==> token in Universe(tree)
      modifies this`seen
      ensures r == InlinedNode(tree, Link(more, token), indent, old(seen))
      ensures r.Ok? ==> seen == old(seen)
      decreases |Universe(tree) - seen|, 0
    {
      ReferenceFails(tree, more, token, indent, seen);
      if token in seen { return Err(Recursive(token)); }
      ghost var before := seen;
      seen := seen + {token};
      var block := Block(tree, token);
      if block.Err? { return Err(block.error); }
      GraphAt(tree, token);
      ReferenceInlined(tree, more, token, indent, before);
      OneFewer(Universe(tree), before, token);
      r := InlineLines(block.value, (tree.parent)(token.file), indent + more);
      if r.Ok? {
        seen := seen - {token};
      }
    }
  }

  /** The bundled lines of a document. */
  ghost function Bundle(tree: Tree, spec: FilePath, dir: Dir): Result<seq<string>>
  {
    if spec !in tree.files then Err(MissingFile(spec))
    else
      RootTexts(tree, spec);
      Inlined(tree, tree.files[spec], None, dir, 0, {})
  }

  lemma RootTexts(tree: Tree, spec: FilePath)
    requires spec in tree.files
    ensures Texts(tree.files[spec]) <= AllTexts(tree)
  {
    forall i | 0 <= i < |tree.files[spec]|
      ensures Strip(tree.files[spec][i]) in AllTexts(tree)
    {
    }
  }

  function RootNodes(tree: Tree, spec: FilePath, dir: Dir): seq<Node>
    requires spec in tree.files
  {
    Nodes(tree, tree.files[spec], None, dir)
  }

  /** `bundle_spec`: every line of the result ends in a line feed, and there is at least one. */
  method BundleSpec(tree: Tree, spec: FilePath, dir: Dir) returns (r: Result<string>)
    ensures Bundle(tree, spec, dir).Err? ==> r == Err(Bundle(tree, spec, dir).error)
    ensures Bundle(tree, spec, dir).Ok? ==>
      r == Ok(if Bundle(tree, spec, dir).value == [] then "\n" else Lines(Bundle(tree, spec, dir).value))
  {
    if spec !in tree.files { return Err(MissingFile(spec)); }
    RootTexts(tree, spec);
    var bundler := new Bundler(tree);
    var lines := bundler.InlineLines(tree.files[spec], dir, 0);
    if lines.Err? { return Err(lines.error); }
    r := Ok(if lines.value == [] then "\n" else Lines(lines.value));
  }

  /** Bundling gives exactly the simple expansion of the references, and fails exactly when no depth is
      enough for that. */
  lemma BundleIsExpansion(tree: Tree, spec: FilePath, dir: Dir, out: seq<string>)
    requires spec in tree.files
    ensures Bundle(tree, spec, dir) == Ok(out) <==>
      exists n: nat :: Expand(GraphOf(tree), RootNodes(tree, spec, dir), n) == Some(out)
  {
    var g, all, nodes := GraphOf(tree), Universe(tree), RootNodes(tree, spec, dir);
    RootTexts(tree, spec);
    GraphIsClosed(tree);
    NodesLinkIn(tree, tree.files[spec], None, dir);
    if Inline(g, all, nodes, 0, {}).Ok? {
      InlineIsExpansion(g, all, nodes, 0, {});
      IndentedZero(Expand(g, nodes, |all - {}|).value);
    }
    if n: nat :| Expand(g, nodes, n) == Some(out) {
      ExpansionIsInlined(g, all, nodes, 0, {}, n);
      IndentedZero(out);
    }
  }

  /** Bundling succeeds exactly when every reference that can be reached has its block, none is empty, and
      no chain of references from the root comes back to one it has passed. */
  lemma BundleSucceedsIffSane(tree: Tree, spec: FilePath, dir: Dir)
    requires spec in tree.files
    ensures Bundle(tree, spec, dir).Ok? <==> Sane(GraphOf(tree), RootNodes(tree, spec, dir))
  {
    RootTexts(tree, spec);
    GraphIsClosed(tree);
    NodesLinkIn(tree, tree.files[spec], None, dir);
    InlineSucceedsIffSane(GraphOf(tree), Universe(tree), RootNodes(tree, spec, dir), 0);
  }

  // ---------------------------------------------------------------------------------------------
  // The fixed point
  // ---------------------------------------------------------------------------------------------

  /** Scanning these lines finds nothing to inline. */
  predicate AllPlain(lines: seq<string>, hold: Option<nat>)
  {
    lines == [] || (ItemOf(lines[0], hold).Plain? && AllPlain(lines[1..], HoldAfter(lines[0], hold)))
  }

  function FinalHold(lines: seq<string>, hold: Option<nat>): Option<nat>
  {
    if lines == [] then hold else FinalHold(lines[1..], HoldAfter(lines[0], hold))
  }

  lemma {:induction false} AllPlainAppend(a: seq<string>, b: seq<string>, hold: Option<nat>)
    ensures AllPlain(a + b, hold) <==> AllPlain(a, hold) && AllPlain(b, FinalHold(a, hold))
    ensures FinalHold(a + b, hold) == FinalHold(b, FinalHold(a, hold))
  {
    if a == [] {
      assert a + b == b;
    } else {
      assert (a + b)[0] == a[0] && (a + b)[1..] == a[1..] + b;
      AllPlainAppend(a[1..], b, HoldAfter(a[0], hold));
    }
  }

  /** Where the scan of a block is inside a block scalar, so is the scan of its indented copy. */
  predicate Covers(src: Option<nat>, indent: nat, out: Option<nat>)
  {
    src.Some? ==> out.Some? && out.value <= indent + src.value
  }

  /** No reference to a file looks like a block scalar header, that is, starts with `|` or `>`. */
  predicate Tame(text: string)
  {
    StartsWith(text, REF) && ParseRef(text).Local? ==> !Opens(text)
  }

  function Untamed(tree: Tree): set<string>
  {
    set text | text in AllTexts(tree) && !Tame(text)
  }

  /** Copying a plain line keeps it plain, whatever the scan of the output thinks it is in. */
  lemma PlainStaysPlain(line: string, src: Option<nat>, indent: nat, out: Option<nat>)
    requires ItemOf(line, src).Plain? && Covers(src, indent, out)
    ensures ItemOf(Indent(indent, line), out).Plain?
    ensures Covers(HoldAfter(line, src), indent, HoldAfter(Indent(indent, line), out))
  {
    IndentKeepsText(indent, line);
    PlainLikeLine(line, Indent(indent, line), src, indent, out);
  }

  lemma PlainLikeLine(line: string, copy: string, src: Option<nat>, indent: nat, out: Option<nat>)
    requires ItemOf(line, src).Plain? && Covers(src, indent, out)
    requires Strip(copy) == Strip(line) && (line != "" ==> IndentOf(copy) == indent + IndentOf(line))
    ensures ItemOf(copy, out).Plain? && Covers(HoldAfter(line, src), indent, HoldAfter(copy, out))
  {
    assert line == "" ==> Strip(line) == "";
    PlainTextStaysPlain(Strip(line), IndentOf(line), src, indent, IndentOf(copy), out);
  }

  lemma PlainTextStaysPlain(text: string, at: nat, src: Option<nat>, indent: nat, at': nat, out: Option<nat>)
    requires text != "" ==> at' == indent + at
    requires Classify(text, Held(text, at, src)).Plain? && Covers(src, indent, out)
    ensures Classify(text, Held(text, at', out)).Plain?
    ensures Covers(HoldThen(text, at, src), indent, HoldThen(text, at', out))
  {
  }

  /** The copied lines are plain where they stand, and no block scalar goes on past a reference. */
  predicate Faithful(nodes: seq<Node>, hold: Option<nat>)
  {
    nodes == [] ||
      (match nodes[0]
       case Copy(line) => ItemOf(line, hold).Plain? && Faithful(nodes[1..], HoldAfter(line, hold))
       case Link(_, _) => Faithful(nodes[1..], None)
       case Bad => true)
  }

  ghost predicate AllFaithful(g: Graph)
  {
    forall t :: g(t).Ok? ==> Faithful(g(t).value, None)
  }

  /** Scanning what a block expands to, from any state that covers the one in which the block is
      scanned, finds nothing to inline: though lines are shifted, and though block scalars that an
      inlined block leaves open at its end go on in the output. */
  lemma {:induction false} ExpansionIsPlain(
    g: Graph, nodes: seq<Node>, hold: Option<nat>, n: nat, indent: nat, out: Option<nat>)
    requires AllFaithful(g) && Faithful(nodes, hold) && Covers(hold, indent, out) && Expand(g, nodes, n).Some?
    ensures AllPlain(Indented(indent, Expand(g, nodes, n).value), out)
    decreases n, |nodes|
  {
    if nodes != [] {
      var head := Indented(indent, ExpandNode(g, nodes[0], n).value);
      var rest := Expand(g, nodes[1..], n).value;
      match nodes[0] {
        case Copy(line) =>
          PlainStaysPlain(line, hold, indent, out);
          IndentedOne(indent, line);
          OnePlain(Indent(indent, line), out);
          ExpansionIsPlain(g, nodes[1..], HoldAfter(line, hold), n, indent, FinalHold(head, out));
        case Link(more, t) =>
          LinkExpansionIsPlain(g, more, t, n, indent, out);
          ExpansionIsPlain(g, nodes[1..], None, n, indent, FinalHold(head, out));
      }
      IndentedAppend(indent, ExpandNode(g, nodes[0], n).value, rest);
      AllPlainAppend(head, Indented(indent, rest), out);
    }
  }

  lemma {:induction false} LinkExpansionIsPlain(
    g: Graph, more: nat, t: Token, n: nat, indent: nat, out: Option<nat>)
    requires AllFaithful(g) && ExpandNode(g, Link(more, t), n).Some?
    ensures AllPlain(Indented(indent, ExpandNode(g, Link(more, t), n).value), out)
    decreases n, 0
  {
    var block := Expand(g, g(t).value, n - 1).value;
    ExpansionIsPlain(g, g(t).value, None, n - 1, indent + more, out);
    IndentedTwice(indent, more, block);
    assert ExpandNode(g, Link(more, t), n).value == Indented(more, block);
  }

  lemma {:induction false} NodesAreFaithful(tree: Tree, lines: seq<string>, hold: Option<nat>, dir: Dir)
    requires Untamed(tree) == {} && Texts(lines) <= AllTexts(tree)
    ensures Faithful(Nodes(tree, lines, hold, dir), hold)
  {
    if lines != [] {
      TextsSplit(tree, lines);
      NodesStep(tree, lines, hold, dir);
      NodesAreFaithful(tree, lines[1..], HoldAfter(lines[0], hold), dir);
      if ItemOf(lines[0], hold).Ref? {
        TameRefHolds(tree, lines[0], hold);
      }
    }
  }

  lemma GraphIsFaithful(tree: Tree)
    requires Untamed(tree) == {}
    ensures AllFaithful(GraphOf(tree))
  {
    forall t | GraphOf(tree)(t).Ok?
      ensures Faithful(GraphOf(tree)(t).value, None)
    {
      GraphAt(tree, t);
      BlockTexts(tree, t);
      NodesAreFaithful(tree, Block(tree, t).value, None, (tree.parent)(t.file));
    }
  }

  lemma OnePlain(line: string, hold: Option<nat>)
    ensures AllPlain([line], hold) <==> ItemOf(line, hold).Plain?
    ensures FinalHold([line], hold) == HoldAfter(line, hold)
  {
    assert [line][1..] == [];
  }

  lemma TameRefHolds(tree: Tree, line: string, hold: Option<nat>)
    requires Untamed(tree) == {} && Strip(line) in AllTexts(tree) && ItemOf(line, hold).Ref?
    ensures HoldAfter(line, hold) == None
  {
    assert Strip(line) !in Untamed(tree);
  }

  lemma FirstAndRest<T>(s: seq<T>)
    requires s != []
    ensures [s[0]] + s[1..] == s
  {
  }

  lemma PlainFirst(tree: Tree, lines: seq<string>, hold: Option<nat>, dir: Dir)
    requires lines != [] && ItemOf(lines[0], hold).Plain?
    ensures
      var nodes := Nodes(tree, lines, hold, dir);
      nodes[0] == Copy(lines[0]) && nodes[1..] == Nodes(tree, lines[1..], HoldAfter(lines[0], hold), dir)
  {
    NodesStep(tree, lines, hold, dir);
  }

  lemma {:induction false} PlainIsCopied(tree: Tree, lines: seq<string>, hold: Option<nat>, dir: Dir, n: nat)
    requires AllPlain(lines, hold)
    ensures Expand(GraphOf(tree), Nodes(tree, lines, hold, dir), n) == Some(lines)
    decreases |lines|
  {
    if lines != [] {
      PlainIsCopied(tree, lines[1..], HoldAfter(lines[0], hold), dir, n);
      PlainFirst(tree, lines, hold, dir);
      ExpandCopy(GraphOf(tree), Nodes(tree, lines, hold, dir), lines[1..], n);
      FirstAndRest(lines);
    }
  }

  lemma OutputIsPlain(tree: Tree, spec: FilePath, dir: Dir, out: seq<string>)
    requires Untamed(tree) == {} && Bundle(tree, spec, dir) == Ok(out)
    ensures AllPlain(out, None)
  {
    BundleIsExpansion(tree, spec, dir, out);
    var n: nat :| Expand(GraphOf(tree), RootNodes(tree, spec, dir), n) == Some(out);
    RootTexts(tree, spec);
    GraphIsFaithful(tree);
    NodesAreFaithful(tree, tree.files[spec], None, dir);
    ExpansionIsPlain(GraphOf(tree), RootNodes(tree, spec, dir), None, n, 0, None);
    IndentedZero(out);
  }

  lemma PlainBundle(tree: Tree, spec: FilePath, dir: Dir, out: seq<string>)
    requires spec in tree.files && tree.files[spec] == out && AllPlain(out, None)
    ensures Bundle(tree, spec, dir) == Ok(out)
  {
    PlainIsCopied(tree, out, None, dir, 0);
    assert Expand(GraphOf(tree), RootNodes(tree, spec, dir), 0) == Some(out);
    BundleIsExpansion(tree, spec, dir, out);
  }

  /** A tree of one file, in which every reference misses. */
  function Alone(out: seq<string>): Tree
  {
    Tree(map["out" := out], (dir, path) => "x", file => "")
  }

  lemma {:induction false} LiveIsNotExpanded(out: seq<string>, lines: seq<string>, hold: Option<nat>, n: nat)
    requires !AllPlain(lines, hold)
    ensures Expand(GraphOf(Alone(out)), Nodes(Alone(out), lines, hold, ""), n) == None
    decreases |lines|
  {
    var tree := Alone(out);
    NodesStep(tree, lines, hold, "");
    match ItemOf(lines[0], hold)
    case Plain => LiveIsNotExpanded(out, lines[1..], HoldAfter(lines[0], hold), n);
    case NoValue =>
    case Ref(_, fragment) => GraphAt(tree, Token("x", fragment));
  }

  lemma LiveFails(out: seq<string>)
    requires !AllPlain(out, None)
    ensures Bundle(Alone(out), "out", "").Err?
  {
    var tree := Alone(out);
    if Bundle(tree, "out", "").Ok? {
      var again := Bundle(tree, "out", "").value;
      BundleIsExpansion(tree, "out", "", again);
      var n: nat :| Expand(GraphOf(tree), RootNodes(tree, "out", ""), n) == Some(again);
      LiveIsNotExpanded(out, out, None, n);
    }
  }

  /** Bundling the document gives it back, wherever it stands. */
  ghost predicate Stable(out: seq<string>)
  {
    forall tree: Tree, spec: FilePath, dir: Dir ::
      spec in tree.files && tree.files[spec] == out ==> Bundle(tree, spec, dir) == Ok(out)
  }

  /** The documents that bundling never changes are exactly those whose scan meets no reference to a file
      and no empty one: so the output of a bundle is a fixed point if and only if it has no such line. */
  lemma StableIffPlain(out: seq<string>)
    ensures Stable(out) <==> AllPlain(out, None)
  {
    if AllPlain(out, None) {
      forall tree: Tree, spec: FilePath, dir: Dir | spec in tree.files && tree.files[spec] == out
        ensures Bundle(tree, spec, dir) == Ok(out)
      {
        PlainBundle(tree, spec, dir, out);
      }
    } else {
      LiveFails(out);
      assert Alone(out).files["out"] == out && Bundle(Alone(out), "out", "") != Ok(out);
    }
  }

  /** The output of bundling refers to no file outside block scalars, and bundling it again, in any tree
      and directory, changes nothing. */
  lemma BundleIsFixedPoint(tree: Tree, spec: FilePath, dir: Dir, out: seq<string>, tree': Tree, spec': FilePath, dir': Dir)
    requires Untamed(tree) == {} && Bundle(tree, spec, dir) == Ok(out)
    requires spec' in tree'.files && tree'.files[spec'] == out
    ensures AllPlain(out, None) && Bundle(tree', spec', dir') == Ok(out)
  {
    OutputIsPlain(tree, spec, dir, out);
    PlainBundle(tree', spec', dir', out);
  }

  // A file whose name starts with a bar: its reference is also taken for a block scalar header, which once
  // inlined no longer hides what follows.

  lemma {:induction false} FirstIndexIs(s: string, c: char, i: nat)
    requires i < |s| && s[i] == c && c !in s[..i]
    ensures FirstIndex(s, c) == i
  {
    if i > 0 {
      assert s[0] == s[..i][0];
      assert forall x :: x in s[1..][..i - 1] ==> x in s[..i];
      FirstIndexIs(s[1..], c, i - 1);
    }
  }

  /** A short file name without quotes and fragments. */
  predicate ShortName(name: string)
  {
    (|name| == 1 && name[0] in "ab") || (|name| == 2 && name[0] == '|' && name[1] == 'a')
  }

  lemma NameStrips(name: string)
    requires ShortName(name)
    ensures Strip(" " + name) == name
  {
    assert (" " + name)[1..] == name;
    assert LStrip(name) == name && RStrip(name) == name;
  }

  lemma NoSeparator(name: string)
    requires |name| < 3
    ensures !Contains(name, "://")
  {
  }

  lemma NoHash(name: string)
    requires ShortName(name)
    ensures FirstIndex(name, '#') == |name|
  {
    if |name| == 2 {
      assert name[1..] == ['a'] && ['a'][1..] == [];
    } else {
      assert name[1..] == [];
    }
  }

  lemma NameIsPath(name: string)
    requires ShortName(name)
    ensures Unquote(Unquote(name, '\''), '"') == name && !StartsWith(name, "#")
  {
  }

  function RefTo(name: string): string { REF + (" " + name) }

  lemma RefText(name: string)
    requires ShortName(name)
    ensures
      var text := RefTo(name);
      && |text| == 6 + |name| && text[0] == '$' && text[4] == ':' && ':' !in text[..4]
      && StartsWith(text, REF) && text[5..] == " " + name && text[|text| - 1] == name[|name| - 1]
  {
    assert RefTo(name)[..4] == ['$', 'r', 'e', 'f'];
  }

  lemma StripsToItself(s: string)
    requires s != "" && !White(s[0]) && !White(s[|s| - 1])
    ensures Strip(s) == s && LStrip(s) == s
  {
  }

  lemma RefParses(name: string)
    requires ShortName(name)
    ensures ParseRef(RefTo(name)) == Local(name, "")
  {
    RefText(name);
    NameStrips(name);
    NameIsPath(name);
    NoSeparator(name);
    NoHash(name);
    assert name[..|name|] == name;
  }

  lemma RefOpens(name: string)
    requires ShortName(name)
    ensures Opens(RefTo(name)) == (name[0] == '|')
  {
    RefText(name);
    FirstIndexIs(RefTo(name), ':', 4);
    NameStrips(name);
  }

  lemma RefStrips(name: string)
    requires ShortName(name)
    ensures Strip(RefTo(name)) == LStrip(RefTo(name)) == RefTo(name)
  {
    RefText(name);
    StripsToItself(RefTo(name));
  }

  const BAR_REF := RefTo("|a")
  const NEXT_REF := "  " + RefTo("b")

  /** A fragment that some file can have, under a key that is not itself a reference. */
  predicate Fetchable(fragment: string)
  {
    fragment == "" ||
      (FragmentKey(fragment).Ok? &&
       var line := FragmentKey(fragment).value + ":"; Strip(line) == line && !StartsWith(line, REF))
  }

  /** A stripped line that refers to a file. */
  predicate FileRef(text: string)
  {
    StartsWith(text, REF) && Strip(text) == text && ParseRef(text).Local? && Fetchable(ParseRef(text).fragment)
  }

  /** A file with nothing under the fragment. */
  function EmptyBlock(fragment: string): seq<string>
    requires Fetchable(fragment)
  {
    if fragment == "" then [] else [FragmentKey(fragment).value + ":"]
  }

  /** A reference, and what could be the text of a block scalar it opens. */
  function HidingTree(text: string): Tree
    requires FileRef(text)
  {
    Tree(map["root" := [text, NEXT_REF], "x" := EmptyBlock(ParseRef(text).fragment)], (dir, path) => "x", file => "")
  }

  lemma StripTwice(text: string)
    requires Strip(text) == text
    ensures LStrip(text) == text && IndentOf(text) == 0
  {
    RStripShortens(LStrip(text));
  }

  lemma {:induction false} RStripShortens(s: string)
    ensures |RStrip(s)| <= |s|
  {
    if s != "" && White(s[|s| - 1]) {
      RStripShortens(s[..|s| - 1]);
    }
  }

  /** A line that is a reference both to a file and, by its name, a block scalar header. */
  lemma UntamedLine(text: string)
    requires FileRef(text) && !Tame(text)
    ensures ItemOf(text, None) == Ref(ParseRef(text).path, ParseRef(text).fragment)
    ensures HoldAfter(text, None) == Some(0) && IndentOf(text) == 0
  {
    StripTwice(text);
  }

  lemma NextRefItem()
    ensures ItemOf(NEXT_REF, Some(0)) == Plain && ItemOf(NEXT_REF, None) == Ref("b", "") && IndentOf(NEXT_REF) == 2
  {
    NextRefText();
    RefParses("b");
    RefText("b");
  }

  lemma NextRefText()
    ensures Strip(NEXT_REF) == RefTo("b") && IndentOf(NEXT_REF) == 2
  {
    RefStrips("b");
    assert "  " == Spaces(2);
    LStripSpaces(2, RefTo("b"));
  }

  lemma NextRefIsTame()
    ensures Tame(Strip(NEXT_REF))
  {
    NextRefText();
    RefOpens("b");
  }

  /** Its bundle holds the second reference alive. */
  lemma HiddenIsRevealed(text: string)
    requires FileRef(text) && !Tame(text)
    ensures Bundle(HidingTree(text), "root", "") == Ok([NEXT_REF])
  {
    var tree := HidingTree(text);
    var t := Token("x", ParseRef(text).fragment);
    HidingNodes(text);
    HidingBlock(text);
    GraphAt(tree, t);
    TwoNodes(GraphOf(tree), t, NEXT_REF);
    assert Expand(GraphOf(tree), RootNodes(tree, "root", ""), 1) == Some([NEXT_REF]);
    BundleIsExpansion(tree, "root", "", [NEXT_REF]);
  }

  lemma TwoLineNodes(tree: Tree, a: string, b: string, dir: Dir)
    ensures Nodes(tree, [a, b], None, dir) == [NodeOf(tree, a, None, dir), NodeOf(tree, b, HoldAfter(a, None), dir)]
  {
    assert [a, b][1..] == [b] && [b][1..] == [];
  }

  lemma HidingNodes(text: string)
    requires FileRef(text) && !Tame(text)
    ensures RootNodes(HidingTree(text), "root", "") == [Link(0, Token("x", ParseRef(text).fragment)), Copy(NEXT_REF)]
  {
    UntamedLine(text);
    NextRefItem();
    TwoLineNodes(HidingTree(text), text, NEXT_REF, "");
  }

  lemma HidingBlock(text: string)
    requires FileRef(text)
    ensures Block(HidingTree(text), Token("x", ParseRef(text).fragment)) == Ok([])
  {
    var fragment := ParseRef(text).fragment;
    if fragment != "" {
      var line := FragmentKey(fragment).value + ":";
      assert [line][1..] == [] && Dedented(IndentOf(line) + 2, []) == [];
    }
  }

  lemma TwoNodes(g: Graph, t: Token, line: string)
    requires g(t) == Ok([])
    ensures Expand(g, [Link(0, t), Copy(line)], 1) == Some([line])
  {
    var nodes := [Link(0, t), Copy(line)];
    assert nodes[1..] == [Copy(line)] && [Copy(line)][1..] == [];
    assert Expand(g, [Copy(line)], 1) == Some([line] + []) && [line] + [] == [line];
    assert ExpandNode(g, nodes[0], 1) == Some(Indented(0, []));
    assert Indented(0, []) + [line] == [line];
  }

  lemma LiveOutputFails()
    ensures !AllPlain([NEXT_REF], None) && Bundle(Alone([NEXT_REF]), "out", "").Err?
  {
    NextRefItem();
    OnePlain(NEXT_REF, None);
    LiveFails([NEXT_REF]);
  }

  /** The condition is needed: here the first reference, once inlined, no longer hides the second, which
      the output therefore holds as a live reference; bundling the output fails. */
  lemma BarReferencesBreakTheFixedPoint()
    ensures FileRef(BAR_REF) && Bundle(HidingTree(BAR_REF), "root", "") == Ok([NEXT_REF])
    ensures !AllPlain([NEXT_REF], None) && Bundle(Alone([NEXT_REF]), "out", "").Err?
  {
    RefStrips("|a");
    RefParses("|a");
    RefOpens("|a");
    RefText("|a");
    HiddenIsRevealed(BAR_REF);
    LiveOutputFails();
  }

  /** Bundling is idempotent wherever no reference but `text` may look like a block scalar header. */
  ghost predicate Harmless(text: string)
  {
    forall tree: Tree, spec: FilePath, dir: Dir, tree': Tree, spec': FilePath, dir': Dir ::
      Untamed(tree) <= {text} && Bundle(tree, spec, dir).Ok?
      && spec' in tree'.files && tree'.files[spec'] == Bundle(tree, spec, dir).value
      ==> Bundle(tree', spec', dir') == Bundle(tree, spec, dir)
  }

  lemma HidingTexts(text: string, u: string)
    requires FileRef(text) && u in AllTexts(HidingTree(text))
    ensures u == text || u == Strip(NEXT_REF) || !StartsWith(u, REF)
  {
    var files := HidingTree(text).files;
    var f, i :| f in files && 0 <= i < |files[f]| && u == Strip(files[f][i]);
    assert f == "root" || f == "x";
  }

  lemma HidingTreeIsTame(text: string)
    requires FileRef(text)
    ensures Untamed(HidingTree(text)) <= {text}
  {
    NextRefIsTame();
    forall u | u in Untamed(HidingTree(text))
      ensures u == text
    {
      HidingTexts(text, u);
    }
  }

  /** The condition is exact, reference by reference. */
  lemma HarmlessIffTame(text: string)
    requires FileRef(text)
    ensures Harmless(text) <==> Tame(text)
  {
    if Tame(text) {
      forall tree: Tree, spec: FilePath, dir: Dir, tree': Tree, spec': FilePath, dir': Dir |
        Untamed(tree) <= {text} && Bundle(tree, spec, dir).Ok?
        && spec' in tree'.files && tree'.files[spec'] == Bundle(tree, spec, dir).value
        ensures Bundle(tree', spec', dir') == Bundle(tree, spec, dir)
      {
        assert text !in Untamed(tree);
        BundleIsFixedPoint(tree, spec, dir, Bundle(tree, spec, dir).value, tree', spec', dir');
      }
    } else {
      HidingTreeIsTame(text);
      HiddenIsRevealed(text);
      LiveOutputFails();
      assert Bundle(Alone([NEXT_REF]), "out", "") != Bundle(HidingTree(text), "root", "");
    }
  }
}
