/**
 * The documentation generator of src/docgen.ts: `docgenToMd` renders the
 * documentation nodes of one source file as two Markdown strings (one for
 * components, one for hooks), and the script concatenates those strings
 * over the component directories into one document.  The node lists come
 * from the parser of another library and are inputs here.
 */
module Docgen {
  import opened Text

  /** A declared prop: its type name, its default value if any, its description. */
  datatype Prop = Prop(typeName: string, defaultValue: Option<string>, description: string)

  /**
   * One documentation node.  `tags` and `props` hold the entries of the
   * source's objects in key order.
   */
  datatype DocNode = DocNode(
    displayName: string,
    filePath: string,
    description: string,
    tags: seq<(string, string)>,
    props: seq<(string, Prop)>)

  /** A node whose display name starts with `use` is a hook; any other is a component. */
  predicate IsHook(node: DocNode)
  {
    StartsWith(node.displayName, "use")
  }

  // ---------------------------------------------------------------------
  // The text of one entry

  /** The heading line linking to the source file, then the description. */
  function Heading(node: DocNode): string
  {
    "## [" + node.displayName + "](../" + node.filePath + ")\n\n" + node.description + "\n\n"
  }

  /** One `**tag**: value` paragraph. */
  function TagLine(tag: (string, string)): string
  {
    "**" + tag.0 + "**: " + tag.1 + "\n\n"
  }

  /** The tag paragraphs in key order. */
  function TagLines(tags: seq<(string, string)>): string
  {
    if tags == [] then "" else TagLines(tags[..|tags| - 1]) + TagLine(tags[|tags| - 1])
  }

  /** The part common to hooks and components: heading, tags, blank lines. */
  function EntryText(node: DocNode): string
  {
    Heading(node) + TagLines(node.tags) + "\n\n"
  }

  // ---------------------------------------------------------------------
  // The props table

  /**
   * `replaceAll('\n', '<br/>')`: every newline becomes a line-break tag, so
   * the result has no newline, four more characters per newline, and a
   * string without newlines is left alone.
   */
  function Escape(s: string): (r: string)
    ensures '\n' !in r
    ensures |r| == |s| + 4 * Count('\n', s)
    ensures '\n' !in s ==> r == s
  {
    if s == [] then ""
    else (if s[0] == '\n' then "<br/>" else [s[0]]) + Escape(s[1..])
  }

  /** `parts.join(sep)`. */
  function Join(parts: seq<string>, sep: string): string
  {
    if parts == [] then ""
    else if |parts| == 1 then parts[0]
    else Join(parts[..|parts| - 1], sep) + sep + parts[|parts| - 1]
  }

  /** `prop.defaultValue?.value || ''`: a missing or empty default is an empty cell. */
  function DefaultCell(defaultValue: Option<string>): string
  {
    match defaultValue
    case None => ""
    case Some(v) => v
  }

  /** The four cells of a prop's row. */
  function PropCells(prop: (string, Prop)): seq<string>
  {
    [prop.0, prop.1.typeName, DefaultCell(prop.1.defaultValue), Escape(prop.1.description)]
  }

  /** A table row: the cells between bars, `| a | b | c |`. */
  function Row(cells: seq<string>): string
  {
    "| " + Join(cells, " | ") + " |"
  }

  /** `| name | type | default | description |`. */
  function PropRow(prop: (string, Prop)): string
  {
    Row(PropCells(prop))
  }

  function PropRows(props: seq<(string, Prop)>): (rows: seq<string>)
    ensures |rows| == |props|
    ensures forall i :: 0 <= i < |props| ==> rows[i] == PropRow(props[i])
  {
    seq(|props|, i requires 0 <= i < |props| => PropRow(props[i]))
  }

  const TableTitle: string := "### Props"
  const HeaderCells: seq<string> := ["Name", "Type", "Default", "Description"]
  const SeparatorCells: seq<string> := ["----", "----", "-------", "-----------"]

  /** The props section: title, header row, separator row, one row per prop. */
  function PropsTable(props: seq<(string, Prop)>): string
  {
    TableTitle + "\n\n" + Row(HeaderCells) + "\n" + Row(SeparatorCells) + "\n" + Join(PropRows(props), "\n") + "\n\n"
  }

  /** A component's text: its entry, then its props table if it has any prop. */
  function ComponentText(node: DocNode): string
  {
    EntryText(node) + (if |node.props| > 0 then PropsTable(node.props) else "")
  }

  // ---------------------------------------------------------------------
  // The two strings of `docgenToMd`

  /** What a node adds to the components string. */
  function ComponentOut(node: DocNode): string
  {
    if IsHook(node) then "" else ComponentText(node)
  }

  /** What a node adds to the hooks string. */
  function HookOut(node: DocNode): string
  {
    if IsHook(node) then EntryText(node) else ""
  }

  /** The outputs of `out` for the nodes, concatenated in order. */
  function Rendered(nodes: seq<DocNode>, out: DocNode -> string): string
  {
    if nodes == [] then "" else Rendered(nodes[..|nodes| - 1], out) + out(nodes[|nodes| - 1])
  }

  /** The components string of `docgenToMd`. */
  function ComponentsMd(nodes: seq<DocNode>): string
  {
    Rendered(nodes, ComponentOut)
  }

  /** The hooks string of `docgenToMd`. */
  function HooksMd(nodes: seq<DocNode>): string
  {
    Rendered(nodes, HookOut)
  }

  lemma RenderedSnoc(nodes: seq<DocNode>, node: DocNode, out: DocNode -> string)
    ensures Rendered(nodes + [node], out) == Rendered(nodes, out) + out(node)
  {
    assert (nodes + [node])[..|nodes|] == nodes;
  }

  /** Rendering two node lists one after the other renders their concatenation. */
  lemma {:induction false} RenderedAppend(a: seq<DocNode>, b: seq<DocNode>, out: DocNode -> string)
    ensures Rendered(a + b, out) == Rendered(a, out) + Rendered(b, out)
  {
    if b == [] {
      assert a + b == a;
    } else {
      var init := b[..|b| - 1];
      RenderedAppend(a, init, out);
      assert a + b == (a + init) + [b[|b| - 1]];
      RenderedSnoc(a + init, b[|b| - 1], out);
      assert Rendered(b, out) == Rendered(init, out) + out(b[|b| - 1]);
      AppendAssoc(Rendered(a, out), Rendered(init, out), out(b[|b| - 1]));
    }
  }

  lemma AppendAssoc(a: string, b: string, c: string)
    ensures (a + b) + c == a + (b + c)
  {
  }

  /** One more tag paragraph appended to an entry under construction. */
  lemma TagStep(acc: string, before: string, tags: seq<(string, string)>, j: int)
    requires 0 <= j < |tags|
    requires acc == before + TagLines(tags[..j])
    ensures acc + TagLine(tags[j]) == before + TagLines(tags[..j + 1])
  {
    assert tags[..j + 1][..j] == tags[..j];
  }

  /**
   * The statements both branches of `docgenToMd` share: the heading, one
   * paragraph per tag in key order, then a blank line.
   */
  method AppendEntry(acc: string, node: DocNode) returns (r: string)
    ensures r == acc + EntryText(node)
  {
    r := acc + Heading(node);
    ghost var heading := r;
    assert node.tags[..0] == [];
    for j := 0 to |node.tags|
      invariant r == heading + TagLines(node.tags[..j])
    {
      TagStep(r, heading, node.tags, j);
      r := r + TagLine(node.tags[j]);
    }
    assert node.tags[..|node.tags|] == node.tags;
    r := r + "\n\n";
  }

  /** A hook's step of the loop: its entry goes to the hooks string only. */
  lemma HookStep(c: string, h: string, c': string, h': string, node: DocNode)
    requires IsHook(node)
    requires c' == c && h' == h + EntryText(node)
    ensures c' == c + ComponentOut(node) && h' == h + HookOut(node)
  {
  }

  /** A component's step of the loop: its text goes to the components string only. */
  lemma ComponentStep(c: string, h: string, entry: string, c': string, h': string, node: DocNode)
    requires !IsHook(node)
    requires entry == c + EntryText(node)
    requires |node.props| > 0 ==> c' == entry + PropsTable(node.props)
    requires |node.props| == 0 ==> c' == entry
    requires h' == h
    ensures c' == c + ComponentOut(node) && h' == h + HookOut(node)
  {
    if |node.props| > 0 {
      AppendAssoc(c, EntryText(node), PropsTable(node.props));
    }
  }

  /**
   * `docgenToMd`: each node is appended, in order, to the components string
   * or to the hooks string according to its name; a component's props table
   * follows its entry when it has props.
   */
  method DocgenToMd(nodes: seq<DocNode>) returns (components: string, hooks: string)
    ensures components == ComponentsMd(nodes)
    ensures hooks == HooksMd(nodes)
  {
    components, hooks := "", "";
    for i := 0 to |nodes|
      invariant components == ComponentsMd(nodes[..i])
      invariant hooks == HooksMd(nodes[..i])
    {
      var node := nodes[i];
      ghost var c, h := components, hooks;
      if IsHook(node) {
        hooks := AppendEntry(hooks, node);
        HookStep(c, h, components, hooks, node);
      } else {
        components := AppendEntry(components, node);
        ghost var entry := components;
        if |node.props| > 0 {
          components := components + PropsTable(node.props);
        }
        ComponentStep(c, h, entry, components, hooks, node);
      }
      NodeStep(nodes, i, ComponentOut, c, components);
      NodeStep(nodes, i, HookOut, h, hooks);
    }
    assert nodes[..|nodes|] == nodes;
  }

  /** A rendering of the first `i` nodes extended by the next node's output. */
  lemma NodeStep(nodes: seq<DocNode>, i: int, out: DocNode -> string, acc: string, acc': string)
    requires 0 <= i < |nodes|
    requires acc == Rendered(nodes[..i], out)
    requires acc' == acc + out(nodes[i])
    ensures acc' == Rendered(nodes[..i + 1], out)
  {
    assert nodes[..i + 1] == nodes[..i] + [nodes[i]];
    RenderedSnoc(nodes[..i], nodes[i], out);
  }

  // ---------------------------------------------------------------------
  // Properties of the rendering

  /** The nodes satisfying `keep`, in order. */
  function Kept(nodes: seq<DocNode>, keep: DocNode -> bool): seq<DocNode>
  {
    if nodes == [] then []
    else Kept(nodes[..|nodes| - 1], keep) + (if keep(nodes[|nodes| - 1]) then [nodes[|nodes| - 1]] else [])
  }

  lemma {:induction false} KeptMembers(nodes: seq<DocNode>, keep: DocNode -> bool)
    ensures forall n :: n in Kept(nodes, keep) <==> n in nodes && keep(n)
  {
    if nodes != [] {
      KeptMembers(nodes[..|nodes| - 1], keep);
      assert nodes == nodes[..|nodes| - 1] + [nodes[|nodes| - 1]];
    }
  }

  /** A list splits into the nodes kept by a test and those kept by its negation. */
  lemma {:induction false} KeptSplit(nodes: seq<DocNode>, keep: DocNode -> bool, drop: DocNode -> bool)
    requires forall n :: drop(n) == !keep(n)
    ensures |Kept(nodes, keep)| + |Kept(nodes, drop)| == |nodes|
  {
    if nodes != [] {
      KeptSplit(nodes[..|nodes| - 1], keep, drop);
    }
  }

  /** The texts of the nodes, in order. */
  function Texts(nodes: seq<DocNode>, text: DocNode -> string): (r: seq<string>)
    ensures |r| == |nodes|
    ensures forall i :: 0 <= i < |nodes| ==> r[i] == text(nodes[i])
  {
    seq(|nodes|, i requires 0 <= i < |nodes| => text(nodes[i]))
  }

  /**
   * When a node's output is its text if it passes `keep` and nothing
   * otherwise, rendering is concatenating the texts of the kept nodes.
   */
  lemma {:induction false} RenderedIsKeptTexts(nodes: seq<DocNode>, out: DocNode -> string,
                                               keep: DocNode -> bool, text: DocNode -> string)
    requires forall n :: out(n) == if keep(n) then text(n) else ""
    ensures Rendered(nodes, out) == Concat(Texts(Kept(nodes, keep), text))
  {
    if nodes == [] {
      assert Texts([], text) == [];
    } else {
      var init, last := nodes[..|nodes| - 1], nodes[|nodes| - 1];
      RenderedIsKeptTexts(init, out, keep, text);
      var kept := Kept(init, keep);
      assert Rendered(nodes, out) == Rendered(init, out) + out(last);
      if keep(last) {
        assert Kept(nodes, keep) == kept + [last];
        assert Texts(kept + [last], text) == Texts(kept, text) + [text(last)];
        ConcatSnoc(Texts(kept, text), text(last));
        assert Rendered(nodes, out) == Rendered(init, out) + text(last);
      } else {
        assert Kept(nodes, keep) == kept + [];
        assert kept + [] == kept;
        assert Rendered(init, out) + "" == Rendered(init, out);
      }
    }
  }

  predicate IsComponent(node: DocNode)
  {
    !IsHook(node)
  }

  /** The nodes classified as hooks, in order. */
  function HookNodes(nodes: seq<DocNode>): seq<DocNode>
  {
    Kept(nodes, IsHook)
  }

  /** The nodes classified as components, in order. */
  function ComponentNodes(nodes: seq<DocNode>): seq<DocNode>
  {
    Kept(nodes, IsComponent)
  }

  /** Every node is a hook or a component, never both, and none is lost. */
  lemma ClassificationPartitions(nodes: seq<DocNode>)
    ensures forall n :: n in HookNodes(nodes) <==> n in nodes && IsHook(n)
    ensures forall n :: n in ComponentNodes(nodes) <==> n in nodes && !IsHook(n)
    ensures |HookNodes(nodes)| + |ComponentNodes(nodes)| == |nodes|
  {
    KeptMembers(nodes, IsHook);
    KeptMembers(nodes, IsComponent);
    KeptSplit(nodes, IsHook, IsComponent);
  }

  /**
   * The components string is the components' texts in order and the hooks
   * string the hooks' entries in order: no hook reaches the components
   * string, no component the hooks string.
   */
  lemma RenderedByKind(nodes: seq<DocNode>)
    ensures ComponentsMd(nodes) == Concat(Texts(ComponentNodes(nodes), ComponentText))
    ensures HooksMd(nodes) == Concat(Texts(HookNodes(nodes), EntryText))
  {
    RenderedIsKeptTexts(nodes, ComponentOut, IsComponent, ComponentText);
    RenderedIsKeptTexts(nodes, HookOut, IsHook, EntryText);
  }

  /** A hook's text does not depend on its props: hooks never get a table. */
  lemma {:induction false} HooksIgnoreProps(nodes: seq<DocNode>, stripped: seq<DocNode>)
    requires |stripped| == |nodes|
    requires forall i :: 0 <= i < |nodes| ==> stripped[i] == nodes[i].(props := [])
    ensures HooksMd(stripped) == HooksMd(nodes)
  {
    if nodes != [] {
      HooksIgnoreProps(nodes[..|nodes| - 1], stripped[..|nodes| - 1]);
    }
  }

  /** A component gets a props table exactly when it has at least one prop. */
  lemma ComponentTableIffProps(node: DocNode)
    ensures |node.props| > 0 <==> ComponentText(node) != EntryText(node)
    ensures |node.props| > 0 ==> ComponentText(node) == EntryText(node) + PropsTable(node.props)
  {
    if |node.props| > 0 {
      assert |ComponentText(node)| > |EntryText(node)|;
    }
  }

  /** A separator occurs once per gap between parts, when the parts lack it. */
  lemma {:induction false} JoinCount(c: char, parts: seq<string>, sep: string)
    requires parts != []
    requires Count(c, sep) == 1
    requires forall i :: 0 <= i < |parts| ==> c !in parts[i]
    ensures Count(c, Join(parts, sep)) == |parts| - 1
  {
    if |parts| > 1 {
      var init := parts[..|parts| - 1];
      JoinCount(c, init, sep);
      CountAppend(c, Join(init, sep), sep);
      CountAppend(c, Join(init, sep) + sep, parts[|parts| - 1]);
    }
  }

  /**
   * A prop whose name, type and default have no newline (the description's
   * newlines are escaped).  A bar, as in a union type `"a" | "b"`, is allowed.
   */
  predicate OneLineFields(prop: (string, Prop))
  {
    '\n' !in prop.0 && '\n' !in prop.1.typeName && '\n' !in DefaultCell(prop.1.defaultValue)
  }

  /** A prop none of whose four cells holds a bar, so its row keeps four columns. */
  predicate BarFree(prop: (string, Prop))
  {
    '|' !in prop.0 && '|' !in prop.1.typeName && '|' !in DefaultCell(prop.1.defaultValue) && '|' !in prop.1.description
  }

  lemma EscapeKeepsBars(s: string)
    requires '|' !in s
    ensures '|' !in Escape(s)
  {
    if s != [] {
      EscapeKeepsBars(s[1..]);
      assert s[0] in s;
    }
  }

  /** A character in neither the separator nor any part is not in the joined text. */
  lemma {:induction false} JoinFree(c: char, parts: seq<string>, sep: string)
    requires c !in sep
    requires forall i :: 0 <= i < |parts| ==> c !in parts[i]
    ensures c !in Join(parts, sep)
  {
    if |parts| > 1 {
      JoinFree(c, parts[..|parts| - 1], sep);
    }
  }

  /** A row is one line when its cells are, and has one bar more than cells when they have none. */
  lemma RowShape(cells: seq<string>)
    requires cells != []
    ensures (forall i :: 0 <= i < |cells| ==> '\n' !in cells[i]) ==> '\n' !in Row(cells)
    ensures (forall i :: 0 <= i < |cells| ==> '|' !in cells[i]) ==> Count('|', Row(cells)) == |cells| + 1
  {
    if forall i :: 0 <= i < |cells| ==> '\n' !in cells[i] {
      JoinFree('\n', cells, " | ");
    }
    if forall i :: 0 <= i < |cells| ==> '|' !in cells[i] {
      assert Count('|', " | ") == 1;
      JoinCount('|', cells, " | ");
      RowCount('|', "| ", Join(cells, " | "), " |");
    }
  }

  /**
   * A prop's row is one line with exactly four cells: it has no newline when
   * its name, type and default have none, and five bars when no cell has one.
   */
  lemma PropRowShape(prop: (string, Prop))
    ensures OneLineFields(prop) ==> '\n' !in PropRow(prop)
    ensures BarFree(prop) ==> Count('|', PropRow(prop)) == 5
  {
    PropCellsPlain(prop);
    RowShape(PropCells(prop));
  }

  /** A union-typed prop, whose type name holds a bar, still gets a one-line row. */
  lemma UnionTypeRowOneLine()
    ensures var prop := ("size", Prop("\"a\" | \"b\"", None, "d"));
      OneLineFields(prop) && '\n' !in PropRow(prop)
  {
    var prop := ("size", Prop("\"a\" | \"b\"", None, "d"));
    assert '\n' !in prop.1.typeName;
    PropRowShape(prop);
  }

  lemma PropCellsPlain(prop: (string, Prop))
    ensures |PropCells(prop)| == 4
    ensures OneLineFields(prop) ==> forall i :: 0 <= i < 4 ==> '\n' !in PropCells(prop)[i]
    ensures BarFree(prop) ==> forall i :: 0 <= i < 4 ==> '|' !in PropCells(prop)[i]
  {
    if BarFree(prop) {
      EscapeKeepsBars(prop.1.description);
    }
  }

  lemma RowCount(c: char, open: string, inner: string, close: string)
    ensures Count(c, open + inner + close) == Count(c, open) + Count(c, inner) + Count(c, close)
  {
    CountAppend(c, open, inner);
    CountAppend(c, open + inner, close);
  }

  /** Newlines in the table layout, with the rows' text abstracted. */
  lemma TableCount(title: string, header: string, separator: string, body: string)
    requires '\n' !in title && '\n' !in header && '\n' !in separator
    ensures Count('\n', title + "\n\n" + header + "\n" + separator + "\n" + body + "\n\n") == Count('\n', body) + 6
  {
    assert Count('\n', "\n\n") == 2 && Count('\n', "\n") == 1;
    CountAppend('\n', title, "\n\n");
    CountAppend('\n', title + "\n\n", header);
    CountAppend('\n', title + "\n\n" + header, "\n");
    CountAppend('\n', title + "\n\n" + header + "\n", separator);
    CountAppend('\n', title + "\n\n" + header + "\n" + separator, "\n");
    CountAppend('\n', title + "\n\n" + header + "\n" + separator + "\n", body);
    CountAppend('\n', title + "\n\n" + header + "\n" + separator + "\n" + body, "\n\n");
  }

  /** The title, the header row and the separator row are single lines. */
  lemma FixedLinesOneLine()
    ensures '\n' !in TableTitle && '\n' !in Row(HeaderCells) && '\n' !in Row(SeparatorCells)
  {
    FixedCellsOneLine();
    RowShape(HeaderCells);
    RowShape(SeparatorCells);
  }

  lemma FixedCellsOneLine()
    ensures forall i :: 0 <= i < |HeaderCells| ==> '\n' !in HeaderCells[i]
    ensures forall i :: 0 <= i < |SeparatorCells| ==> '\n' !in SeparatorCells[i]
  {
  }

  /** Each prop's row is a single line when no name, type or default has a newline. */
  lemma RowsOneLine(props: seq<(string, Prop)>)
    requires forall i :: 0 <= i < |props| ==> OneLineFields(props[i])
    ensures forall i :: 0 <= i < |PropRows(props)| ==> '\n' !in PropRows(props)[i]
  {
    forall i | 0 <= i < |props| ensures '\n' !in PropRow(props[i]) {
      PropRowShape(props[i]);
    }
  }

  /**
   * The table takes one line per prop plus its fixed lines: title, blank
   * line, header, separator, and the blank line after it.
   */
  lemma PropsTableLines(props: seq<(string, Prop)>)
    requires props != []
    requires forall i :: 0 <= i < |props| ==> OneLineFields(props[i])
    ensures Count('\n', PropsTable(props)) == |props| + 5
  {
    var rows := PropRows(props);
    RowsOneLine(props);
    assert Count('\n', "\n") == 1;
    JoinCount('\n', rows, "\n");
    FixedLinesOneLine();
    TableCount(TableTitle, Row(HeaderCells), Row(SeparatorCells), Join(rows, "\n"));
  }

  // ---------------------------------------------------------------------
  // The document over all component directories

  /** What the existence check and the parser give for one component directory. */
  datatype DirSource =
    | NoSource                   // `<name>/<name>.tsx` does not exist
    | Parsed(nodes: seq<DocNode>)
    | ParseFailure               // the parser throws and the script stops

  datatype ComponentDir = ComponentDir(name: string, source: DirSource)

  /** The nodes of every parsed directory, in listing order. */
  function DirNodes(dirs: seq<ComponentDir>): seq<DocNode>
  {
    if dirs == [] then []
    else
      var last := dirs[|dirs| - 1];
      DirNodes(dirs[..|dirs| - 1]) + (if last.source.Parsed? then last.source.nodes else [])
  }

  predicate AnyParseFailure(dirs: seq<ComponentDir>)
  {
    exists d :: d in dirs && d.source.ParseFailure?
  }

  /** The document written to DOCS.md. */
  function Document(comps: string, hooks: string): string
  {
    "# Components\n\n" + comps + "\n\n# Hooks\n\n" + hooks
  }

  /** One directory more: a parsed one adds the rendering of its nodes, any other nothing. */
  lemma DirStep(dirs: seq<ComponentDir>, i: int, out: DocNode -> string, acc: string, piece: string)
    requires 0 <= i < |dirs| && !dirs[i].source.ParseFailure?
    requires acc == Rendered(DirNodes(dirs[..i]), out)
    requires dirs[i].source.Parsed? ==> piece == Rendered(dirs[i].source.nodes, out)
    requires dirs[i].source.NoSource? ==> piece == ""
    ensures acc + piece == Rendered(DirNodes(dirs[..i + 1]), out)
  {
    assert dirs[..i + 1][..i] == dirs[..i];
    var added := if dirs[i].source.Parsed? then dirs[i].source.nodes else [];
    assert DirNodes(dirs[..i + 1]) == DirNodes(dirs[..i]) + added;
    RenderedAppend(DirNodes(dirs[..i]), added, out);
    if dirs[i].source.NoSource? {
      assert Rendered(added, out) == "";
    }
  }

  /** A directory that parses keeps the prefix free of parse failures. */
  lemma NoFailureStep(dirs: seq<ComponentDir>, i: int)
    requires 0 <= i < |dirs| && !dirs[i].source.ParseFailure?
    requires !AnyParseFailure(dirs[..i])
    ensures !AnyParseFailure(dirs[..i + 1])
  {
    assert dirs[..i + 1] == dirs[..i] + [dirs[i]];
  }

  /**
   * The script: for each component directory in listing order whose source
   * file exists, the two strings of its nodes are appended; the document is
   * then assembled.  A parse failure stops the script, and no document is
   * written.
   */
  method BuildDocs(dirs: seq<ComponentDir>) returns (doc: Option<string>)
    ensures doc == if AnyParseFailure(dirs) then None
      else Some(Document(ComponentsMd(DirNodes(dirs)), HooksMd(DirNodes(dirs))))
  {
    var comps, hooks := "", "";
    for i := 0 to |dirs|
      invariant !AnyParseFailure(dirs[..i])
      invariant comps == Rendered(DirNodes(dirs[..i]), ComponentOut)
      invariant hooks == Rendered(DirNodes(dirs[..i]), HookOut)
    {
      var dir := dirs[i];
      match dir.source {
        case NoSource =>
          DirStep(dirs, i, ComponentOut, comps, "");
          DirStep(dirs, i, HookOut, hooks, "");
          assert comps + "" == comps && hooks + "" == hooks;
        case ParseFailure =>
          assert dir in dirs;
          return None;
        case Parsed(nodes) =>
          var output0, output1 := DocgenToMd(nodes);
          DirStep(dirs, i, ComponentOut, comps, output0);
          DirStep(dirs, i, HookOut, hooks, output1);
          comps := comps + output0;
          hooks := hooks + output1;
      }
      NoFailureStep(dirs, i);
    }
    assert dirs[..|dirs|] == dirs;
    doc := Some(Document(comps, hooks));
  }
}
