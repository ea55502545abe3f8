/** Which lines of a document are references and which are copied, in characters. */
module OpenApiScan {
  import opened Text
  import opened ReferenceGraph
  import opened OpenApiBundle
  import opened OpenApiReferences

  /** Stripping takes white space from both ends and no more; the indentation is what it takes in front. */
  lemma StripInCharacters(line: string) returns (before: string, after: string)
    ensures line == before + (Strip(line) + after)
    ensures (forall i :: 0 <= i < |before| ==> White(before[i])) && forall i :: 0 <= i < |after| ==> White(after[i])
    ensures Strip(line) != "" ==> !White(Strip(line)[0]) && EndsPlain(Strip(line)) && |before| == IndentOf(line)
  {
    before := LStripInCharacters(line);
    after := RStripInCharacters(LStrip(line));
  }

  lemma {:induction false} LStripInCharacters(s: string) returns (before: string)
    ensures s == before + LStrip(s) && forall i :: 0 <= i < |before| ==> White(before[i])
    ensures LStrip(s) != "" ==> !White(LStrip(s)[0])
  {
    if s == "" || !White(s[0]) {
      before := "";
    } else {
      var rest := LStripInCharacters(s[1..]);
      before := [s[0]] + rest;
    }
  }

  lemma {:induction false} RStripInCharacters(s: string) returns (after: string)
    ensures s == RStrip(s) + after && forall i :: 0 <= i < |after| ==> White(after[i])
    ensures RStrip(s) != "" ==> EndsPlain(RStrip(s)) && RStrip(s)[0] == s[0]
  {
    if s == "" || !White(s[|s| - 1]) {
      after := "";
    } else {
      var rest := RStripInCharacters(s[..|s| - 1]);
      after := rest + [s[|s| - 1]];
    }
  }

  /** The ASCII characters that Python takes for white space. */
  lemma AsciiWhite(c: char)
    requires c as int < 128
    ensures White(c) <==> c == ' ' || 9 <= c as int <= 13 || 28 <= c as int <= 31
  {
  }

  // ---------------------------------------------------------------------------------------------
  // Lines
  // ---------------------------------------------------------------------------------------------

  lemma NoReference(line: string, hold: Option<nat>)
    requires !("$ref:" <= Strip(line))
    ensures ItemOf(line, hold) == Plain
  {
  }

  /** Inside a block scalar everything is text; any other line is read as outside of one. */
  lemma InsideScalar(line: string, at: nat)
    ensures Strip(line) == "" || IndentOf(line) > at ==>
      ItemOf(line, Some(at)) == Plain && HoldAfter(line, Some(at)) == Some(at)
    ensures Strip(line) != "" && IndentOf(line) <= at ==>
      ItemOf(line, Some(at)) == ItemOf(line, None) && HoldAfter(line, Some(at)) == HoldAfter(line, None)
  {
  }

  /** A block scalar begins where `|` or `>` follows the first colon. */
  lemma ScalarBegins(line: string, key: string, value: string)
    requires Strip(line) == key + (":" + value) && ':' !in key
    ensures HoldAfter(line, None) ==
      if Strip(value) != "" && (Strip(value)[0] == '|' || Strip(value)[0] == '>') then Some(IndentOf(line)) else None
  {
    FirstIndexSkips(key, ':', value);
    assert (key + (":" + value))[|key| + 1..] == value;
  }

  lemma NoColonNoScalar(line: string)
    requires ':' !in Strip(line)
    ensures HoldAfter(line, None) == None
  {
    FirstIndexAfter(Strip(line), "", ':');
    Nothing(Strip(line));
  }

  /** A reference to a place in the same document, or with a scheme, is copied. */
  lemma ForeignReference(line: string, value: string, hold: Option<nat>)
    requires Strip(line) == "$ref: " + value && EndsPlain(value) && value[0] !in ['\'', '"'] && !White(value[0])
    requires value[0] == '#' || Contains(value, "://")
    ensures ItemOf(line, hold) == Plain
  {
    ValueStrips(value);
    NotQuoted(value);
    assert value[0] == '#' ==> "#" <= value;
  }

  /** Single or double quotes around the value make no difference. */
  lemma QuotedReference(value: string, quote: char)
    requires EndsPlain(value) && !White(value[0]) && (quote == '\'' || quote == '"')
    requires value[0] !in ['\'', '"'] && value[|value| - 1] !in ['\'', '"']
    requires StartsWith("$ref: " + value, REF) && StartsWith("$ref: " + ([quote] + value + [quote]), REF)
    ensures ParseRef("$ref: " + ([quote] + value + [quote])) == ParseRef("$ref: " + value)
  {
    var quoted := [quote] + value + [quote];
    ValueStrips(value);
    ValueStrips(quoted);
    NotQuoted(value);
    assert quoted[1..|quoted| - 1] == value;
    if quote == '\'' {
      assert Unquote(quoted, '\'') == value && Unquote(value, '"') == value;
    } else {
      assert Unquote(quoted, '\'') == quoted && Unquote(quoted, '"') == value;
    }
  }

  // ---------------------------------------------------------------------------------------------
  // Documents
  // ---------------------------------------------------------------------------------------------

  lemma {:induction false} AllCopied(lines: seq<string>, hold: Option<nat>)
    requires forall i :: 0 <= i < |lines| ==> !("$ref:" <= Strip(lines[i]))
    ensures AllPlain(lines, hold)
  {
    if lines != [] {
      NoReference(lines[0], hold);
      AllCopied(lines[1..], HoldAfter(lines[0], hold));
    }
  }

  /** A document without references is its own bundle. */
  lemma WithoutReferences(tree: Tree, spec: FilePath, dir: Dir)
    requires spec in tree.files && forall i :: 0 <= i < |tree.files[spec]| ==> !("$ref:" <= Strip(tree.files[spec][i]))
    ensures Bundle(tree, spec, dir) == Ok(tree.files[spec])
  {
    AllCopied(tree.files[spec], None);
    PlainBundle(tree, spec, dir, tree.files[spec]);
  }

  lemma {:induction false} ScalarIsPlain(lines: seq<string>, at: nat)
    requires forall i :: 0 <= i < |lines| ==> Strip(lines[i]) == "" || IndentOf(lines[i]) > at
    ensures AllPlain(lines, Some(at))
  {
    if lines != [] {
      InsideScalar(lines[0], at);
      ScalarIsPlain(lines[1..], at);
    }
  }

  /** A document that is one block scalar is its own bundle, whatever its text looks like. */
  lemma ScalarIsCopied(tree: Tree, spec: FilePath, dir: Dir, head: string, body: seq<string>, key: string, value: string)
    requires spec in tree.files && tree.files[spec] == [head] + body
    requires Strip(head) == key + (":" + value) && ':' !in key && key != "$ref"
    requires Strip(value) != "" && (Strip(value)[0] == '|' || Strip(value)[0] == '>')
    requires forall i :: 0 <= i < |body| ==> Strip(body[i]) == "" || IndentOf(body[i]) > IndentOf(head)
    ensures Bundle(tree, spec, dir) == Ok([head] + body)
  {
    ReferenceKey(key, value);
    NoReference(head, None);
    ScalarBegins(head, key, value);
    ScalarIsPlain(body, IndentOf(head));
    assert ([head] + body)[1..] == body;
    PlainBundle(tree, spec, dir, [head] + body);
  }

  lemma ReferenceKey(key: string, value: string)
    requires ':' !in key
    ensures "$ref:" <= key + (":" + value) ==> key == "$ref"
  {
    var text := key + (":" + value);
    FirstIndexSkips(key, ':', value);
    if "$ref:" <= text {
      assert text == "$ref" + (":" + text[5..]);
      FirstIndexSkips("$ref", ':', text[5..]);
      assert key == text[..4];
    }
  }

  /** A reference without a value fails the bundle. */
  lemma EmptyReference(tree: Tree, spec: FilePath, dir: Dir, line: string)
    requires spec in tree.files && tree.files[spec] == [line] && Strip(line) == "$ref:"
    ensures Bundle(tree, spec, dir) == Err(EmptyRef)
  {
    assert "$ref:"[5..] == "";
    assert ItemOf(line, None) == NoValue;
    assert [line][1..] == [];
    RootTexts(tree, spec);
    GraphIsClosed(tree);
    NodesLinkIn(tree, [line], None, dir);
    assert Nodes(tree, [line], None, dir) == [Bad];
    InlineBadFails(GraphOf(tree), Universe(tree));
  }

  lemma InlineBadFails(g: Graph, all: set<Token>)
    requires Closed(g, all) && LinksIn(g, all, [Bad])
    ensures Inline(g, all, [Bad], 0, {}) == Err(EmptyRef)
  {
    assert [Bad][0] == Bad;
  }
}
