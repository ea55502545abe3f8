/** What one reference stands for, in characters: which file, which lines of it, and which fragments are
    refused. */
module OpenApiReferences {
  import opened Text
  import opened ReferenceGraph
  import opened OpenApiBundle

  // ---------------------------------------------------------------------------------------------
  // The line
  // ---------------------------------------------------------------------------------------------

  /** A path that a reference can name without quotes. */
  predicate PlainPath(p: string)
  {
    p != "" && '#' !in p && !White(p[0]) && p[0] != '\'' && p[0] != '"'
  }

  predicate EndsPlain(s: string)
  {
    s != "" && !White(s[|s| - 1])
  }

  /** A reference, `depth` spaces deep. */
  function Line(depth: nat, value: string): string
  {
    Spaces(depth) + ("$ref: " + value)
  }

  lemma LineStrips(depth: nat, value: string)
    requires EndsPlain(value)
    ensures Strip(Line(depth, value)) == "$ref: " + value && IndentOf(Line(depth, value)) == depth
    ensures StartsWith("$ref: " + value, REF)
  {
    var text := "$ref: " + value;
    assert text[0] == '$' && text[|text| - 1] == value[|value| - 1];
    StripsToItself(text);
    LStripSpaces(depth, text);
    assert text[..5] == "$ref:";
  }

  lemma ValueStrips(value: string)
    requires EndsPlain(value) && !White(value[0])
    ensures Strip(("$ref: " + value)[|REF|..]) == value
  {
    assert ("$ref: " + value)[|REF|..] == " " + value;
    assert (" " + value)[1..] == value;
    assert LStrip(" " + value) == LStrip(value);
    StripsToItself(value);
  }

  lemma NotQuoted(value: string)
    requires value != "" && value[0] != '\'' && value[0] != '"'
    ensures Unquote(Unquote(value, '\''), '"') == value
  {
  }

  lemma ParsesTo(stripped: string, value: string)
    requires StartsWith(stripped, REF) && Strip(stripped[|REF|..]) == value && value != ""
    requires Unquote(Unquote(value, '\''), '"') == value && !StartsWith(value, "#") && !Contains(value, "://")
    ensures ParseRef(stripped) ==
      var i := FirstIndex(value, '#'); if i < |value| then Local(value[..i], value[i + 1..]) else Local(value, "")
  {
  }

  lemma ParsesAs(value: string)
    requires EndsPlain(value) && !White(value[0]) && value[0] != '\'' && value[0] != '"'
    requires value[0] != '#' && !Contains(value, "://") && StartsWith("$ref: " + value, REF)
    ensures ParseRef("$ref: " + value) ==
      var i := FirstIndex(value, '#'); if i < |value| then Local(value[..i], value[i + 1..]) else Local(value, "")
  {
    ValueStrips(value);
    NotQuoted(value);
    NotPrefixed(value);
    ParsesTo("$ref: " + value, value);
  }

  lemma NotPrefixed(value: string)
    requires value != "" && value[0] != '#'
    ensures !StartsWith(value, "#")
  {
  }

  lemma SplitsAtHash(p: string, fragment: string)
    requires '#' !in p
    ensures
      var value := p + ("#" + fragment);
      var i := FirstIndex(value, '#');
      i == |p| < |value| && value[..i] == p && value[i + 1..] == fragment
  {
    FirstIndexSkips(p, '#', fragment);
  }

  lemma ItemOfLine(depth: nat, p: string, fragment: string)
    requires PlainPath(p) && !Contains(p + ("#" + fragment), "://") && (fragment != "" ==> EndsPlain(fragment))
    ensures ItemOf(Line(depth, p + ("#" + fragment)), None) == Ref(p, fragment)
    ensures IndentOf(Line(depth, p + ("#" + fragment))) == depth
  {
    var value := p + ("#" + fragment);
    assert value[0] == p[0] && value[|value| - 1] == if fragment == "" then '#' else fragment[|fragment| - 1];
    LineStrips(depth, value);
    ParsesAs(value);
    SplitsAtHash(p, fragment);
  }

  // ---------------------------------------------------------------------------------------------
  // The fragment
  // ---------------------------------------------------------------------------------------------

  /** What follows the leading hashes and one slash. */
  function Key(rest: string): string
  {
    if rest != "" && rest[0] == '/' then rest[1..] else rest
  }

  lemma {:induction false} HashesDropped(hashes: string, rest: string)
    requires (forall i :: 0 <= i < |hashes| ==> hashes[i] == '#') && (rest != "" ==> rest[0] != '#')
    ensures DropHashes(hashes + rest) == rest
  {
    if hashes == "" {
      assert hashes + rest == rest;
    } else {
      assert (hashes + rest)[1..] == hashes[1..] + rest;
      HashesDropped(hashes[1..], rest);
    }
  }

  /** A fragment is refused exactly when nothing, or a slash, is left. */
  lemma FragmentInCharacters(hashes: string, rest: string)
    requires (forall i :: 0 <= i < |hashes| ==> hashes[i] == '#') && (rest != "" ==> rest[0] != '#')
    ensures FragmentKey(hashes + rest) ==
      if Key(rest) == "" || '/' in Key(rest) then Err(UnsupportedFragment(hashes + rest)) else Ok(Key(rest))
  {
    HashesDropped(hashes, rest);
  }

  // ---------------------------------------------------------------------------------------------
  // The block
  // ---------------------------------------------------------------------------------------------

  /** Line i is the first that is the key and a colon. */
  predicate KeyAt(lines: seq<string>, i: nat, key: string)
  {
    i < |lines| && Strip(lines[i]) == key + ":" && forall j :: 0 <= j < i ==> Strip(lines[j]) != key + ":"
  }

  predicate Under(line: string, depth: nat)
  {
    Strip(line) == "" || IndentOf(line) > depth
  }

  /** A line of a block, `trim` spaces further out: they go, or, where there are fewer, all white space
      before the text. */
  predicate Outdents(out: string, line: string, trim: nat)
  {
    if Spaces(trim) <= line then line == Spaces(trim) + out
    else out == LStrip(line)
  }

  /** Line j of the block is the line j + 1 after line i. */
  predicate LineUnder(block: seq<string>, lines: seq<string>, i: nat, j: nat)
    requires j < |block| && i + 1 + j < |lines|
  {
    Under(lines[i + 1 + j], IndentOf(lines[i])) && Outdents(block[j], lines[i + 1 + j], IndentOf(lines[i]) + 2)
  }

  /** `block` is all that stands under line i, moved out by the depth of that line and two spaces. */
  predicate StandsUnder(block: seq<string>, lines: seq<string>, i: nat)
    requires i < |lines|
  {
    && i + 1 + |block| <= |lines|
    && (forall j :: 0 <= j < |block| ==> LineUnder(block, lines, i, j))
    && (i + 1 + |block| < |lines| ==> !Under(lines[i + 1 + |block|], IndentOf(lines[i])))
  }

  predicate IsBlock(block: seq<string>, lines: seq<string>, key: string, i: nat)
  {
    KeyAt(lines, i, key) && StandsUnder(block, lines, i)
  }

  lemma DedentOutdents(line: string, trim: nat)
    ensures Outdents(Dedent(trim, line), line, trim)
  {
    if Spaces(trim) <= line {
      assert line == Spaces(trim) + line[trim..];
      if line == "" {
        assert Spaces(trim) == "";
      }
    }
  }

  lemma OutdentIsDedent(out: string, line: string, trim: nat)
    requires Outdents(out, line, trim)
    ensures out == Dedent(trim, line)
  {
    if Spaces(trim) <= line {
      assert (Spaces(trim) + out)[trim..] == out;
      if line == "" {
        assert Spaces(trim) == "";
      }
    }
  }

  lemma KeyLineAt(lines: seq<string>, key: string)
    ensures
      var i := KeyLine(lines, key + ":");
      if i < |lines| then KeyAt(lines, i, key) else forall j :: 0 <= j < |lines| ==> Strip(lines[j]) != key + ":"
  {
    KeyLineIsFirst(lines, key + ":");
  }

  lemma KeyAtIsKeyLine(lines: seq<string>, i: nat, key: string)
    requires KeyAt(lines, i, key)
    ensures KeyLine(lines, key + ":") == i
  {
    KeyLineIsFirst(lines, key + ":");
  }

  lemma SameRun(a: nat, b: nat, lines: seq<string>, depth: nat)
    requires a <= |lines| && b <= |lines|
    requires forall j :: 0 <= j < a ==> Inside(lines[j], depth)
    requires forall j :: 0 <= j < b ==> Inside(lines[j], depth)
    requires (a < |lines| ==> !Inside(lines[a], depth)) && (b < |lines| ==> !Inside(lines[b], depth))
    ensures a == b
  {
  }

  lemma RunUnder(block: seq<string>, lines: seq<string>, i: nat)
    requires i < |lines| && StandsUnder(block, lines, i)
    ensures |Body(lines[i + 1..], IndentOf(lines[i]))| == |block|
  {
    var rest, depth := lines[i + 1..], IndentOf(lines[i]);
    BodyIsLongestRun(rest, depth);
    assert forall j :: 0 <= j < |rest| ==> rest[j] == lines[i + 1 + j];
    forall j | 0 <= j < |block|
      ensures Inside(rest[j], depth)
    {
      assert LineUnder(block, lines, i, j);
    }
    SameRun(|block|, |Body(rest, depth)|, rest, depth);
  }

  lemma BodyStandsUnder(lines: seq<string>, i: nat)
    requires i < |lines|
    ensures StandsUnder(Dedented(IndentOf(lines[i]) + 2, Body(lines[i + 1..], IndentOf(lines[i]))), lines, i)
  {
    var rest, depth := lines[i + 1..], IndentOf(lines[i]);
    BodyIsLongestRun(rest, depth);
    assert forall j :: 0 <= j < |rest| ==> rest[j] == lines[i + 1 + j];
    var block := Dedented(depth + 2, Body(rest, depth));
    forall j | 0 <= j < |block|
      ensures LineUnder(block, lines, i, j)
    {
      DedentOutdents(rest[j], depth + 2);
    }
  }

  lemma StandsUnderIsBody(block: seq<string>, lines: seq<string>, i: nat)
    requires i < |lines| && StandsUnder(block, lines, i)
    ensures block == Dedented(IndentOf(lines[i]) + 2, Body(lines[i + 1..], IndentOf(lines[i])))
  {
    var rest, depth := lines[i + 1..], IndentOf(lines[i]);
    BodyIsLongestRun(rest, depth);
    RunUnder(block, lines, i);
    forall j | 0 <= j < |block|
      ensures block[j] == Dedent(depth + 2, Body(rest, depth)[j])
    {
      assert LineUnder(block, lines, i, j);
      assert Body(rest, depth)[j] == rest[j] == lines[i + 1 + j];
      OutdentIsDedent(block[j], lines[i + 1 + j], depth + 2);
    }
  }

  lemma ExtractedIsBlock(lines: seq<string>, key: string)
    ensures ExtractBlock(lines, key).Ok? ==> exists i :: IsBlock(ExtractBlock(lines, key).value, lines, key, i)
    ensures ExtractBlock(lines, key).Err? ==>
      ExtractBlock(lines, key) == Err(MissingKey(key)) && forall j :: 0 <= j < |lines| ==> Strip(lines[j]) != key + ":"
  {
    KeyLineAt(lines, key);
    var i := KeyLine(lines, key + ":");
    if i < |lines| {
      BodyStandsUnder(lines, i);
      assert IsBlock(ExtractBlock(lines, key).value, lines, key, i);
    }
  }

  lemma BlockIsExtracted(lines: seq<string>, key: string, block: seq<string>, i: nat)
    requires IsBlock(block, lines, key, i)
    ensures ExtractBlock(lines, key) == Ok(block)
  {
    KeyAtIsKeyLine(lines, i, key);
    StandsUnderIsBody(block, lines, i);
  }

  /** The block under a key is what stands under the first line that is the key. */
  lemma BlockInCharacters(lines: seq<string>, key: string, block: seq<string>)
    ensures ExtractBlock(lines, key) == Ok(block) <==> exists i :: IsBlock(block, lines, key, i)
    ensures ExtractBlock(lines, key).Err? <==> forall j :: 0 <= j < |lines| ==> Strip(lines[j]) != key + ":"
    ensures ExtractBlock(lines, key).Err? ==> ExtractBlock(lines, key) == Err(MissingKey(key))
  {
    ExtractedIsBlock(lines, key);
    if i: nat :| IsBlock(block, lines, key, i) {
      BlockIsExtracted(lines, key, block, i);
    }
  }

  // ---------------------------------------------------------------------------------------------
  // One reference
  // ---------------------------------------------------------------------------------------------

  /** Some depth of the recursive expansion of these lines, as lines of a file in `dir`, gives `out`. */
  ghost predicate ExpandsTo(tree: Tree, lines: seq<string>, dir: Dir, out: seq<string>)
  {
    exists n: nat :: Expand(GraphOf(tree), Nodes(tree, lines, None, dir), n) == Some(out)
  }

  lemma BundlesAs(tree: Tree, spec: FilePath, dir: Dir, out: seq<string>)
    requires spec in tree.files
    ensures Bundle(tree, spec, dir) == Ok(out) <==> ExpandsTo(tree, tree.files[spec], dir, out)
  {
    BundleIsExpansion(tree, spec, dir, out);
    var g, nodes := GraphOf(tree), Nodes(tree, tree.files[spec], None, dir);
    if n: nat :| Expand(g, RootNodes(tree, spec, dir), n) == Some(out) {
      assert Expand(g, nodes, n) == Some(out);
    }
    if n: nat :| Expand(g, nodes, n) == Some(out) {
      assert Expand(g, RootNodes(tree, spec, dir), n) == Some(out);
    }
  }

  lemma OneNode(tree: Tree, line: string, dir: Dir, p: string, fragment: string)
    requires ItemOf(line, None) == Ref(p, fragment)
    ensures Nodes(tree, [line], None, dir) == [Link(IndentOf(line), Token((tree.resolve)(dir, p), fragment))]
  {
    assert [line][1..] == [];
  }

  lemma ExpandOne(g: Graph, depth: nat, t: Token, n: nat)
    ensures Expand(g, [Link(depth, t)], n) == ExpandNode(g, Link(depth, t), n)
  {
    var nodes := [Link(depth, t)];
    assert nodes[1..] == [];
    if ExpandNode(g, Link(depth, t), n).Some? {
      Nothing(ExpandNode(g, Link(depth, t), n).value);
    }
  }

  /** The expansion of a block, moved in by the depth of the reference. */
  ghost predicate ComesFrom(tree: Tree, block: seq<string>, dir: Dir, depth: nat, out: seq<string>)
  {
    exists inner :: ExpandsTo(tree, block, dir, inner) && out == Indented(depth, inner)
  }

  /** A document of one reference bundles to what its block expands to. */
  lemma ReferenceExpands(tree: Tree, line: string, dir: Dir, p: string, fragment: string, out: seq<string>)
    requires ItemOf(line, None) == Ref(p, fragment)
    ensures
      var f := (tree.resolve)(dir, p);
      var block := Block(tree, Token(f, fragment));
      ExpandsTo(tree, [line], dir, out) <==>
        block.Ok? && ComesFrom(tree, block.value, (tree.parent)(f), IndentOf(line), out)
  {
    var f := (tree.resolve)(dir, p);
    var t, block := Token(f, fragment), Block(tree, Token(f, fragment));
    GraphAt(tree, t);
    if ExpandsTo(tree, [line], dir, out) {
      LinkHasExpansion(tree, line, dir, p, fragment, out);
    }
    if block.Ok? && ComesFrom(tree, block.value, (tree.parent)(f), IndentOf(line), out) {
      var inner :| ExpandsTo(tree, block.value, (tree.parent)(f), inner) && out == Indented(IndentOf(line), inner);
      ExpansionHasLink(tree, line, dir, p, fragment, inner);
    }
  }

  lemma LinkHasExpansion(tree: Tree, line: string, dir: Dir, p: string, fragment: string, out: seq<string>)
    requires ItemOf(line, None) == Ref(p, fragment) && ExpandsTo(tree, [line], dir, out)
    ensures
      var f := (tree.resolve)(dir, p);
      var block := Block(tree, Token(f, fragment));
      block.Ok? && ComesFrom(tree, block.value, (tree.parent)(f), IndentOf(line), out)
  {
    var g, t := GraphOf(tree), Token((tree.resolve)(dir, p), fragment);
    OneNode(tree, line, dir, p, fragment);
    var n: nat :| Expand(g, Nodes(tree, [line], None, dir), n) == Some(out);
    ExpandOne(g, IndentOf(line), t, n);
    GraphAt(tree, t);
    assert ExpandsTo(tree, Block(tree, t).value, (tree.parent)(t.file), Expand(g, g(t).value, n - 1).value);
  }

  lemma ExpansionHasLink(tree: Tree, line: string, dir: Dir, p: string, fragment: string, inner: seq<string>)
    requires ItemOf(line, None) == Ref(p, fragment)
    requires
      var f := (tree.resolve)(dir, p);
      var block := Block(tree, Token(f, fragment));
      block.Ok? && ExpandsTo(tree, block.value, (tree.parent)(f), inner)
    ensures ExpandsTo(tree, [line], dir, Indented(IndentOf(line), inner))
  {
    var g, t := GraphOf(tree), Token((tree.resolve)(dir, p), fragment);
    OneNode(tree, line, dir, p, fragment);
    var n: nat :| Expand(g, Nodes(tree, Block(tree, t).value, None, (tree.parent)(t.file)), n) == Some(inner);
    ExpandOne(g, IndentOf(line), t, n + 1);
    GraphAt(tree, t);
    assert Expand(g, Nodes(tree, [line], None, dir), n + 1) == Some(Indented(IndentOf(line), inner));
  }

  // ---------------------------------------------------------------------------------------------
  // In characters
  // ---------------------------------------------------------------------------------------------

  /** Of a file, what stands under the first line that is the key and a colon gives `out`. */
  ghost predicate KeyGives(tree: Tree, file: FilePath, key: string, depth: nat, out: seq<string>)
    requires file in tree.files
  {
    exists i, block :: IsBlock(block, tree.files[file], key, i) && ComesFrom(tree, block, (tree.parent)(file), depth, out)
  }

  /** A document of one line `$ref: p#/key`: it bundles exactly when the file exists, has a line that is the
      key and a colon, and what stands under the first such line expands; to that expansion. */
  lemma KeyReference(tree: Tree, spec: FilePath, dir: Dir, depth: nat, p: string, key: string, out: seq<string>)
    requires PlainPath(p) && !Contains(p, "://") && EndsPlain(key) && '/' !in key
    requires spec in tree.files && tree.files[spec] == [Line(depth, p + ("#" + ("/" + key)))]
    ensures
      var f := (tree.resolve)(dir, p);
      Bundle(tree, spec, dir) == Ok(out) <==> f in tree.files && KeyGives(tree, f, key, depth, out)
  {
    OneSlash(key);
    NoScheme(p, "/" + key);
    FragmentInCharacters("", "/" + key);
    Nothing("/" + key);
    assert ("/" + key)[1..] == key;
    FragmentReference(tree, spec, dir, depth, p, "/" + key, key, out);
  }

  lemma FragmentReference(
    tree: Tree, spec: FilePath, dir: Dir, depth: nat, p: string, fragment: string, key: string, out: seq<string>)
    requires PlainPath(p) && !Contains(p + ("#" + fragment), "://") && EndsPlain(fragment) && FragmentKey(fragment) == Ok(key)
    requires spec in tree.files && tree.files[spec] == [Line(depth, p + ("#" + fragment))]
    ensures
      var f := (tree.resolve)(dir, p);
      Bundle(tree, spec, dir) == Ok(out) <==> f in tree.files && KeyGives(tree, f, key, depth, out)
  {
    var f := (tree.resolve)(dir, p);
    ItemOfLine(depth, p, fragment);
    BundlesAs(tree, spec, dir, out);
    ReferenceExpands(tree, Line(depth, p + ("#" + fragment)), dir, p, fragment, out);
    if f in tree.files {
      assert Block(tree, Token(f, fragment)) == ExtractBlock(tree.files[f], key);
      ExtractedGives(tree, f, key, depth, out);
    }
  }

  lemma ExtractedGives(tree: Tree, file: FilePath, key: string, depth: nat, out: seq<string>)
    requires file in tree.files
    ensures
      var block := ExtractBlock(tree.files[file], key);
      KeyGives(tree, file, key, depth, out) <==>
        block.Ok? && ComesFrom(tree, block.value, (tree.parent)(file), depth, out)
  {
    var extracted := ExtractBlock(tree.files[file], key);
    if extracted.Ok? {
      BlockInCharacters(tree.files[file], key, extracted.value);
    }
    if i: nat, block :| IsBlock(block, tree.files[file], key, i) && ComesFrom(tree, block, (tree.parent)(file), depth, out) {
      BlockInCharacters(tree.files[file], key, block);
    }
  }

  lemma OneSlash(key: string)
    requires '/' !in key
    ensures !Contains("/" + key, "://")
  {
    var s := "/" + key;
    forall i: nat | i <= |s|
      ensures !OccursAt(s, "://", i)
    {
      if i + 3 <= |s| {
        assert s[i..][2] == s[i + 2] == key[i + 1];
      }
    }
  }

  lemma NoScheme(p: string, fragment: string)
    requires !Contains(p, "://") && !Contains(fragment, "://")
    ensures !Contains(p + ("#" + fragment), "://")
  {
    var s := p + ("#" + fragment);
    if i: nat :| i <= |s| && OccursAt(s, "://", i) {
      assert s[i..][0] == ':' && s[i..][1] == '/' && s[i..][2] == '/';
      assert s[|p|] == '#';
      if i + 3 <= |p| {
        assert p[i..] == s[i..|p|];
        assert OccursAt(p, "://", i);
      } else {
        assert i > |p|;
        assert fragment[i - |p| - 1..] == s[i..];
        assert OccursAt(fragment, "://", i - |p| - 1);
      }
    }
  }

  /** A fragment from which nothing, or a slash, is left after its leading hashes and one slash is refused;
      with any other the document bundles as with `#/` and what is left. */
  lemma FragmentRefused(tree: Tree, spec: FilePath, dir: Dir, depth: nat, p: string, hashes: string, rest: string)
    requires PlainPath(p) && !Contains(p + ("#" + (hashes + rest)), "://") && EndsPlain(hashes + rest)
    requires (forall i :: 0 <= i < |hashes| ==> hashes[i] == '#') && (rest != "" ==> rest[0] != '#')
    requires spec in tree.files && tree.files[spec] == [Line(depth, p + ("#" + (hashes + rest)))]
    ensures
      var f := (tree.resolve)(dir, p);
      if f !in tree.files then Bundle(tree, spec, dir) == Err(MissingFile(f))
      else if Key(rest) == "" || '/' in Key(rest) then Bundle(tree, spec, dir) == Err(UnsupportedFragment(hashes + rest))
      else
        && (forall out :: Bundle(tree, spec, dir) == Ok(out) <==> KeyGives(tree, f, Key(rest), depth, out))
        && ((forall j :: 0 <= j < |tree.files[f]| ==> Strip(tree.files[f][j]) != Key(rest) + ":") ==>
              Bundle(tree, spec, dir) == Err(MissingKey(Key(rest))))
  {
    var f, fragment := (tree.resolve)(dir, p), hashes + rest;
    FragmentInCharacters(hashes, rest);
    ItemOfLine(depth, p, fragment);
    OneReferenceFails(tree, spec, dir, Line(depth, p + ("#" + fragment)), p, fragment);
    if f in tree.files && FragmentKey(fragment).Ok? {
      BlockInCharacters(tree.files[f], Key(rest), []);
      forall out
        ensures Bundle(tree, spec, dir) == Ok(out) <==> KeyGives(tree, f, Key(rest), depth, out)
      {
        FragmentReference(tree, spec, dir, depth, p, fragment, Key(rest), out);
      }
    }
  }

  lemma OneReferenceFails(tree: Tree, spec: FilePath, dir: Dir, line: string, p: string, fragment: string)
    requires spec in tree.files && tree.files[spec] == [line] && ItemOf(line, None) == Ref(p, fragment)
    ensures
      var block := Block(tree, Token((tree.resolve)(dir, p), fragment));
      block.Err? ==> Bundle(tree, spec, dir) == Err(block.error)
  {
    RootTexts(tree, spec);
    GraphIsClosed(tree);
    NodesLinkIn(tree, [line], None, dir);
    GraphAt(tree, Token((tree.resolve)(dir, p), fragment));
    OneNode(tree, line, dir, p, fragment);
    if Block(tree, Token((tree.resolve)(dir, p), fragment)).Err? {
      InlineOneFails(GraphOf(tree), Universe(tree), IndentOf(line), Token((tree.resolve)(dir, p), fragment));
    }
  }

  lemma InlineOneFails(g: Graph, all: set<Token>, depth: nat, t: Token)
    requires Closed(g, all) && LinksIn(g, all, [Link(depth, t)]) && g(t).Err?
    ensures Inline(g, all, [Link(depth, t)], 0, {}) == Err(g(t).error)
  {
    assert [Link(depth, t)][0] == Link(depth, t);
  }

  lemma ItemOfFileLine(depth: nat, p: string)
    requires PlainPath(p) && EndsPlain(p) && !Contains(p, "://")
    ensures ItemOf(Line(depth, p), None) == Ref(p, "") && IndentOf(Line(depth, p)) == depth
  {
    LineStrips(depth, p);
    ParsesAs(p);
    Nothing(p);
    FirstIndexAfter(p, "", '#');
    assert p[..|p|] == p;
  }

  /** Without a fragment the reference stands for the whole file. */
  lemma FileReference(tree: Tree, spec: FilePath, dir: Dir, depth: nat, p: string, out: seq<string>)
    requires PlainPath(p) && EndsPlain(p) && !Contains(p, "://")
    requires spec in tree.files && tree.files[spec] == [Line(depth, p)]
    ensures
      var f := (tree.resolve)(dir, p);
      Bundle(tree, spec, dir) == Ok(out) <==>
        f in tree.files && ComesFrom(tree, tree.files[f], (tree.parent)(f), depth, out)
  {
    ItemOfFileLine(depth, p);
    BundlesAs(tree, spec, dir, out);
    ReferenceExpands(tree, Line(depth, p), dir, p, "", out);
  }
}
