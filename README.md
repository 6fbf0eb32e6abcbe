# asterism build core, modelled in Dafny

asterism builds WordPress block themes. This project models three parts of it.

- **The nested-component editor** (`components/NestedComponents.tsx`):
  - the 32-bit string hash `uniqueId`;
  - the `NestedEditor` list editor: add, remove, move, move up/down and update of children, the `maxItems` guard on the add button, and the toolbar index saying which child's popover is open.
- **The theme build steps** (`src/files.ts`):
  - which entries of `./theme` and `./assets` are copied, and where;
  - the block-registration snippet `buildBlocksPhp`;
  - the assembly of `functions.php` / `blocks.php` from the configuration;
  - the companion plugin file.
- **The documentation generator** (`src/docgen.ts`):
  - `docgenToMd`, which renders the parsed component and hook nodes of one file as Markdown;
  - the script that joins those renderings over all component directories into one document.

The model is split into four modules:

- `Text` (`text.dfy`): shared string helpers.
- `NestedComponents` (`nested_components.dfy`).
- `Files` (`files.dfy`).
- `Docgen` (`docgen.dfy`).

## How the model is built

- **Where the code mutates, the model is imperative.**
  - The component's state is the class `NestedEditor`. Its `value` and `toolbar` fields are updated by methods.
  - The loops of `uniqueId`, `copyThemeFiles`, `copyThemeAssets`, `buildBlocksPhp`, `docgenToMd` and the document script are `method`s with loop invariants.
  - Each such method is proved equal to a specification function, and the properties are proved about that function.
- **Inputs stand in for I/O.** Directory listings, file contents and the results of other modules' generators are inputs. Files the build would write are returned as values.
- **Failures are values.**
  - A listing or copy that throws is an `Option` or a `copyOk` predicate.
  - A rejected template read or a throwing post-type generator is a `Result` error.
- **JavaScript number semantics are explicit.**
  - `ToInt32` models `|= 0` and `<<`.
  - Negating the most negative 32-bit value gives 2^31.
  - `toString` is `Decimal`.

## Model

| member | source | states |
|---|---|---|
| NestedComponents.Merge | components/NestedComponents.tsx:98 | Spreading `partialChanges` over a child gives the union of both key sets. Keys in the changes take the new value; every other key keeps the child's value. |
| NestedComponents.Appended | components/NestedComponents.tsx:67-69 | `[...value, x]` is one longer, ends with `x` and keeps every earlier element. |
| NestedComponents.Removed | components/NestedComponents.tsx:71-72 | Filtering out index `atIndex` shortens the list by one exactly when the index is in range. |
| NestedComponents.RemovedIsCut | components/NestedComponents.tsx:71-72 | The filter equals the list with the element at `atIndex` cut out (`value[..i] + value[i+1..]`). An out-of-range index leaves the list unchanged. |
| NestedComponents.Moved | components/NestedComponents.tsx:76-79 | The list after `moveChild`: same length, with the moved child at `toIndex` and the children in between shifted by one towards `fromIndex`. |
| NestedComponents.MovedIsSplice | components/NestedComponents.tsx:76-79 | The moved list equals the two `splice` calls: remove the element at `fromIndex`, then insert it at `toIndex`. |
| NestedComponents.SplicePermutation | components/NestedComponents.tsx:77-79 | Cutting the child out at `fromIndex` and inserting it at `toIndex` in the shortened list keeps the multiset of children. |
| NestedComponents.MovedIsPermutation | components/NestedComponents.tsx:76-79 | Moving keeps the length and the multiset of children. |
| NestedComponents.MovedBack | components/NestedComponents.tsx:76-79 | Moving from `from` to `to` and then back from `to` to `from` restores the list. |
| NestedComponents.MovedToNeighbourIsSwap | components/NestedComponents.tsx:84-94 | Moving to an adjacent index swaps the two neighbours. |
| NestedComponents.ToInt32 | components/NestedComponents.tsx:24-25 | `x \| 0` lies in the signed 32-bit range. |
| NestedComponents.ToInt32Unique | components/NestedComponents.tsx:25 | A value already in range is unchanged by adding any multiple of 2^32 and wrapping. |
| NestedComponents.ToInt32Offset | components/NestedComponents.tsx:25 | Wrapping subtracts a whole number of 2^32. |
| NestedComponents.ToInt32Shift | components/NestedComponents.tsx:24-25 | Wrapping ignores multiples of 2^32, so intermediate wraps do not matter. |
| NestedComponents.ShiftLeft5 | components/NestedComponents.tsx:24 | `h << 5` lies in the signed 32-bit range and equals `32*h` wrapped to 32 bits. |
| NestedComponents.HashStep | components/NestedComponents.tsx:24-25 | `((h << 5) - h + c) \| 0` equals `(31*h + c) \| 0`. |
| NestedComponents.Hash | components/NestedComponents.tsx:20-26 | The loop's hash stays in the signed 32-bit range. |
| NestedComponents.HashIsWrappedPolynomial | components/NestedComponents.tsx:20-26 | The hash equals the base-31 polynomial of the code units, wrapped to 32 bits. |
| NestedComponents.Decimal | components/NestedComponents.tsx:30 | `toString` of a non-negative integer is non-empty. It is all decimal digits, with no leading zero except for 0 itself. |
| NestedComponents.DecimalRoundTrip | components/NestedComponents.tsx:30 | Reading the decimal text back gives the number. |
| NestedComponents.UniqueId | components/NestedComponents.tsx:18-31 | The id is the decimal text of the absolute hash. It has no minus sign and is all digits. Its value is at most 2^31 and equals the absolute value of the wrapped polynomial. |
| NestedComponents.NestedEditor.constructor | components/NestedComponents.tsx:54-64 | Starts with the given children, empty object and limit, and the toolbar closed (-1). |
| NestedComponents.NestedEditor.AddChild | components/NestedComponents.tsx:67-69 | The new value is the old one with a copy of `emptyObject` appended. |
| NestedComponents.NestedEditor.AddEnabled | components/NestedComponents.tsx:153 | The add button is enabled exactly when `value.length >= maxItems` is false. |
| NestedComponents.NestedEditor.ClickAdd | components/NestedComponents.tsx:152-156 | A child is added exactly when the button is enabled (`length < maxItems`); otherwise nothing changes. A list within the limit stays within it. |
| NestedComponents.NestedEditor.RemoveChild | components/NestedComponents.tsx:71-74 | The value is the filtered list, i.e. the list with index `atIndex` cut out, and the toolbar closes. |
| NestedComponents.NestedEditor.MoveChild | components/NestedComponents.tsx:76-82 | The value is the spliced list, a permutation of the old one. The toolbar follows the moved child to `toIndex`. |
| NestedComponents.NestedEditor.MoveUp | components/NestedComponents.tsx:84-88 | It moves exactly when `index > 0`: it swaps the child with the one above and the toolbar follows. Otherwise value and toolbar are unchanged. |
| NestedComponents.NestedEditor.MoveDown | components/NestedComponents.tsx:90-94 | It moves exactly when `index < length - 1`: it swaps the child with the one below and the toolbar follows. Otherwise value and toolbar are unchanged. |
| NestedComponents.NestedEditor.UpdateChild | components/NestedComponents.tsx:96-100 | Same length. The child at `atIndex` becomes its merge with `partialChanges`; every other child is unchanged. |
| NestedComponents.NestedEditor.Focus | components/NestedComponents.tsx:108 | Focusing child `i` opens its toolbar. |
| NestedComponents.NestedEditor.ClosePopover | components/NestedComponents.tsx:113 | Closing the popover closes the toolbar (-1). |
| Files.CopyPlan | src/files.ts:22-29 | One copy per listed entry, in order, from `<dir>/<file>` to `<dest>/<file>`. |
| Files.Without | src/files.ts:22-27 | The listed names that the `forEach` does not skip, in listing order; never more than were listed. |
| Files.WithoutMembers | src/files.ts:27 | The kept names are exactly the listed names other than the skipped one. |
| Files.CopiedBeforeFailure | src/files.ts:22-36 | The copies made are a prefix of the plan and all succeeded. When the prefix is shorter than the plan, the next copy failed: a throw ends `forEach`. |
| Files.CopiedAll | src/files.ts:22-31 | When every copy succeeds, the whole plan is carried out. |
| Files.CopyThemeFiles | src/files.ts:18-37 | The copies equal the failure-truncated plan over the listing without `functions.php`; a failed listing copies nothing. No copy ever targets `<themeDest>/functions.php`. |
| Files.ThemeCopiesNeverGenerated | src/files.ts:26-27 | Whatever prefix of the theme copies is made, none writes the generated `functions.php`. |
| Files.CopyThemeAssets | src/files.ts:42-58 | The copies equal the failure-truncated plan over every listed asset; a failed listing copies nothing. |
| Files.Folders | src/files.ts:125-127 | `filter(isDirectory).map(name)`: the names of the directory entries in listing order, never more than the entries. |
| Files.FoldersMembers | src/files.ts:125-127 | The folder names are exactly the names of directory entries. |
| Files.Registrations | src/files.ts:129-131 | One `register_block_type(__DIR__  . '/blocks/<folder>/block.json');` statement, each on its own line, per folder in order. |
| Files.BlocksPhp | src/files.ts:122-138 | The snippet always starts with the `add_action` opener, and ends with the closer `\n});` exactly when the listing succeeded. |
| Files.BuildBlocksPhp | src/files.ts:122-138 | When the listing succeeds, the snippet is the opener, one registration per folder in listing order, then the closer. When the listing fails, it is the opener alone. Either way it starts with the `add_action` opener. |
| Files.WrappedRoundTrip | src/files.ts:129-131 | The registration statements can be parsed back into exactly the folder names, given that a directory name has no `/`. |
| Files.BlocksPhpRegistersFolders | src/files.ts:122-133 | A successful listing gives a well-formed block that registers exactly its sub-directories, in order. |
| Files.BlocksPhpFailureUnclosed | src/files.ts:122-137 | A failed listing gives an opener with no closer, which is not a well-formed block. |
| Files.ClosedBlocksPhp | src/files.ts:122-137 | The corrected snippet: opener, registrations (none on a failed listing), closer; it always starts with the opener and ends with the closer. |
| Files.ClosedBlocksPhpWellFormed | src/files.ts:122-137 | The corrected snippet is well-formed for every listing and registers exactly the listed folders (none on failure). |
| Files.Enabled | src/files.ts:65-81 | A section is switched on by a truthy `allow`, `exclude`, `advanced?.noGutenbergFrontend`, `noStyle` or `styles` respectively. |
| Files.SectionText | src/files.ts:65-83 | Each enabled section's text starts with a blank line (`\n\n`); the allow-list is generated from `allow` followed by the theme's blocks. |
| Files.SectionOut | src/files.ts:65-83 | What one `if` of the chain adds: the section's text when the configuration enables it, nothing otherwise. |
| Files.SectionsIn | src/files.ts:65-83 | The chain of `if`s over a sequence of sections: each one's output, in that order. |
| Files.EnabledInMembers | src/files.ts:65-83 | A section is kept exactly when it is in the order and switched on by the configuration. |
| Files.EnabledSectionsExact | src/files.ts:65-83 | The appended sections are exactly the enabled ones, each once, in the fixed order allow, exclude, noGutenbergFrontend, noStyle, styles. |
| Files.RankedBySetUnique | src/files.ts:65-83 | Two strictly ordered section lists with the same members are equal, so the section list is determined by the configuration alone. |
| Files.SectionsInIsEnabledText | src/files.ts:65-83 | Running the `if` chain appends exactly the texts of the enabled sections in order. |
| Files.FunctionsBody | src/files.ts:63-85 | The generated body starts with the registration snippet and ends with the script glue. |
| Files.FunctionsBodySections | src/files.ts:63-85 | The generated body is the registration block, then the enabled sections' texts, then the script glue. |
| Files.AppendSections | src/files.ts:65-83 | The `if` chain appends, after its input, the sections' output in the fixed order. Each enabled section is preceded by a blank line. |
| Files.BuildFunctionsPhp | src/files.ts:61-98 | Block-only mode writes `blocks.php` as `<?php\n` plus the body. Otherwise it writes `functions.php` as the template plus the body, or rejects when the template cannot be read. |
| Files.BuildPlugin | src/files.ts:100-120 | With no post types nothing is written. With post types, it writes `<themeFolder>.php` as the opening tag, prologue, blank line and generated post types, or fails with 'Failed to generate post types.'. |
| Docgen.IsHook | src/docgen.ts:35 | A node is a hook exactly when its display name starts with `use`. |
| Docgen.Heading | src/docgen.ts:37 | The heading linking the display name to `../<filePath>`, then the description, each followed by a blank line (same text at line 44). |
| Docgen.TagLine | src/docgen.ts:39 | One `**tag**: value` paragraph followed by a blank line (same text at line 46). |
| Docgen.TagLines | src/docgen.ts:38-40 | One `**tag**: value` paragraph per tag, in key order (the same loop for components at lines 45-47). |
| Docgen.EntryText | src/docgen.ts:37-41 | Heading, the tag paragraphs in key order, then `\n\n`; the same for components at lines 44-48. |
| Docgen.ComponentText | src/docgen.ts:43-60 | A component's entry followed by its props table only when it has at least one prop. |
| Docgen.Escape | src/docgen.ts:57 | `replaceAll('\n','<br/>')` leaves no newline and adds four characters per newline. Text without newlines is unchanged. |
| Docgen.DefaultCell | src/docgen.ts:57 | `prop.defaultValue?.value \|\| ''`: an absent default gives an empty cell. |
| Docgen.Join | src/docgen.ts:58 | `join(sep)`: the parts in order with `sep` between neighbours and none at the ends. |
| Docgen.PropsTable | src/docgen.ts:52-59 | Title, blank line, header row, separator row, the prop rows joined by newlines, then a blank line. |
| Docgen.PropCells | src/docgen.ts:57 | A prop's four cells: its name, its type name, its default or an empty cell, and its description with newlines escaped. |
| Docgen.Row | src/docgen.ts:53-57 | A table row `\| a \| b \| c \|`: the cells between bars, as the header, the separator and every prop row are written. |
| Docgen.PropRow | src/docgen.ts:57 | The row of one prop: the row template over its four cells. |
| Docgen.PropRows | src/docgen.ts:55-58 | One row per prop, in key order. |
| Docgen.ComponentOut | src/docgen.ts:42-60 | What a node adds to `doc[0]`: nothing for a hook, the component text otherwise. |
| Docgen.HookOut | src/docgen.ts:35-41 | What a node adds to `doc[1]`: a hook's entry, nothing for a component. |
| Docgen.ComponentsMd | src/docgen.ts:34-62 | `doc[0]` after the loop: every node's component output, in node order. |
| Docgen.HooksMd | src/docgen.ts:34-62 | `doc[1]` after the loop: every node's hook output, in node order. |
| Docgen.AppendEntry | src/docgen.ts:37-41 | Appends the heading, the tag paragraphs in key order, and the blank lines. |
| Docgen.DocgenToMd | src/docgen.ts:30-65 | The two strings are the component rendering and the hook rendering of the nodes, in node order. |
| Docgen.RenderedAppend | src/docgen.ts:34-62 | Rendering two node lists one after the other renders their concatenation. |
| Docgen.KeptMembers | src/docgen.ts:35 | The filtered nodes are exactly the nodes that satisfy the classification. |
| Docgen.ClassificationPartitions | src/docgen.ts:35-43 | Every node is a hook or a component, never both, and none is lost: the two counts add up to the total. |
| Docgen.RenderedIsKeptTexts | src/docgen.ts:34-62 | A rendering that adds text only for kept nodes is the concatenation of the kept nodes' texts. |
| Docgen.RenderedByKind | src/docgen.ts:34-62 | The components string concatenates the texts of exactly the component nodes. The hooks string concatenates the entries of exactly the hook nodes. |
| Docgen.HooksIgnoreProps | src/docgen.ts:35-41 | The hooks string does not depend on any node's props. |
| Docgen.ComponentTableIffProps | src/docgen.ts:43-60 | A component gets a props table exactly when it has at least one prop, and then the table follows its entry. |
| Docgen.JoinCount | src/docgen.ts:58 | Joining `n` separator-free parts with a one-character separator adds exactly `n - 1` separators. |
| Docgen.RowShape | src/docgen.ts:53-57 | A table row is a single line when no cell has a newline. It has one bar more than cells when no cell has a bar. |
| Docgen.PropRowShape | src/docgen.ts:57 | A prop row is one line when name, type and default have no newline, whatever the description holds and whether or not a field holds a bar. When no field holds a bar, it has the 5 bars of a 4-column row. |
| Docgen.UnionTypeRowOneLine | src/docgen.ts:57 | A prop whose type name is the union `"a" \| "b"` still gets a one-line row. |
| Docgen.PropsTableLines | src/docgen.ts:52-59 | A table of `n` props spans exactly `n + 5` newlines (title, blank, header, separator, `n` rows, blank) whenever no name, type or default has a newline; bars in fields, as in union types, are allowed. |
| Docgen.DirNodes | src/docgen.ts:16-25 | The nodes the script renders: those of every component directory whose `<name>/<name>.tsx` exists (`existsSync`), concatenated in listing order. A directory without that file contributes nothing. |
| Docgen.AnyParseFailure | src/docgen.ts:20 | Whether `parse` throws for some existing source file. The throw is not caught, so it stops the script. |
| Docgen.Document | src/docgen.ts:27 | The document: `# Components`, the component strings, a blank line, `# Hooks`, the hook strings. |
| Docgen.BuildDocs | src/docgen.ts:16-27 | The document joins the component strings and the hook strings of every directory whose source exists, in listing order, under the two headings. A parse failure stops the script without a document. |

## Left out

- Rendering: the JSX of `NestedEditor` (popover placement and anchors, slots, the children render callback, class names) is not modelled. Only the state the handlers change is.
- `onChange` and `setToolbar`: `onChange` hands the new list to the parent and `setToolbar` schedules a React state update. The model applies both at once to its fields. It does not model React re-rendering, or a parent that ignores `onChange`.
- NestedComponents.UniqueId takes the UTF-16 code units of the JSON text. `JSON.stringify` is not part of this model.
- NestedComponents.NestedEditor.MoveChild requires both indices within the list. Its only callers are `moveUp` and `moveDown` (components/NestedComponents.tsx:86, 92). Their guards `index > 0` and `index < value.length - 1`, applied to an index of the list, keep both indices in range. So the out-of-range behaviour of `splice` is not modelled.
- NestedComponents.NestedEditor.MoveUp, MoveDown, UpdateChild and Focus require an index within the list. Their callers are the handlers rendered by `value.map((v, i) => …)` (components/NestedComponents.tsx:105-148), so `i` is always an index of the list. The out-of-range behaviour of index assignment is not modelled.
- NestedComponents.NestedEditor.constructor: a missing `emptyObject` prop defaults to `{}`. That default is left to the caller, who passes the empty map.
- Logging (`log`, `error`, `console.error`, `chalk`) is not modelled. `console.error(ast)` in `docgenToMd` has no effect on the output.
- `path.resolve`: copy sources are kept as relative paths `./theme/<file>` and `./assets/<file>`.
- `getThemeDestination` and `getTheme` (src/asterism.ts) and `getThemeBlocks` (imported from src/blocks.ts at src/files.ts:7, whose definition is not among the source files modelled) are not part of this model; their results are parameters. So are the generators of other files: `generateAllowBlocks`, `generateOmitBlocks`, `blockGutenbergOnClient`, `generateDestyles`, `loadStylesPhp`, `buildJsPhp`, `buildPluginPhp`, `generatePostTypes`.
- File system effects (`readdirSync`, `copySync`, `existsSync`, `Bun.file(...).text()`, `writeThemeFile`, `writePluginFile`, `write`, `rmdirSync`/`mkdirSync` of `./docs`): listings and file contents are inputs, and files to write are returned. Emptying and recreating the docs directory is not modelled.
- Files.CopyThemeFiles and Files.CopyThemeAssets return the copies made. A failure is reported only by the shorter list, not by the logged error. The `async` scheduling is not modelled.
- Files.BuildFunctionsPhp: a rejected template read is the error `TemplateUnreadable`; the original rejects the returned promise.
- The truthiness of configuration fields is modelled as `Option`/`bool`. An empty array counts as present (it is truthy); an empty string for `noStyle`/`styles` would be falsy and must be given as `None`.
- The parser `react-docgen-typescript` is not part of this model. Its node lists are inputs, and `Object.keys` order is the order of the `tags` and `props` sequences.
- Docgen.DefaultCell: only string defaults are modelled. A falsy default value gives an empty cell only when it is absent or the empty string.
- Docgen.PropRowShape and Docgen.PropsTableLines: the one-line and `n + 5` newline claims require a name, type and default without newlines, because the source escapes newlines only in the description. The 5-bar count of Docgen.PropRowShape also requires every cell to be free of `|`, because the source does not escape `|` (a union type such as `"a" | "b"` adds columns to its row).
- `src/blocks.ts` is not part of this model: it runs `wp-scripts build`/`start` as child processes, installs SIGINT handlers that kill them and rebuild, and then calls `buildFunctionsPhp`. Process control is outside what this model describes.
- NestedComponents.NestedEditor.ClickAdd: `maxItems` is modelled as an integer. In the source it is a JavaScript number, and with `NaN` or `undefined` the test `value.length >= maxItems` is false, so the button is never disabled; the model cannot express that case.

## Findings

| source | as written | input that shows it | evidently intended | confidence | as-written member | corrected member |
|---|---|---|---|---|---|---|
| src/files.ts:122-137 | The closing `\n});` is appended inside the `try`. When `readdirSync('./blocks')` throws, the catch only logs, and the function returns the opener `add_action('init', function() {` with no closer. | A theme with no `./blocks` directory: the listing fails, and `functions.php` gets an unclosed `add_action` call, which is a PHP syntax error. | The block is always closed; a failed listing registers no block. | not executed | Files.BlocksPhpFailureUnclosed | Files.ClosedBlocksPhpWellFormed |

`Files.BuildFunctionsPhp` keeps the as-written snippet, so that the generated file matches what the build produces. `Files.ClosedBlocksPhp` is the corrected snippet.
