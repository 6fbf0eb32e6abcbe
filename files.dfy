/**
 * The theme build steps of src/files.ts: which theme and asset entries are
 * copied, the block-registration snippet, the assembly of `functions.php` /
 * `blocks.php`, and the companion plugin file.  Directory listings, file
 * contents and the section generators of other files are inputs; the files
 * to write are returned.
 */
module Files {
  import opened Text

  /**
   * A configuration value that only a section generator reads (style rules,
   * post-type definitions), kept as its JSON text.
   */
  datatype ConfigValue = ConfigValue(json: string)

  /**
   * The theme configuration.  An optional field is `Some` exactly when it is
   * truthy in the source (an empty array is truthy); `noGutenbergFrontend`
   * is the truthiness of `advanced?.noGutenbergFrontend`.
   */
  datatype ThemeConfig = ThemeConfig(
    themeFolder: string,
    textDomain: string,
    allow: Option<seq<string>>,
    exclude: Option<seq<string>>,
    noGutenbergFrontend: bool,
    noStyle: Option<ConfigValue>,
    styles: Option<ConfigValue>,
    postTypes: Option<ConfigValue>,
    isBlockOnly: bool)

  /**
   * The helpers the build calls in other source files, as given functions
   * and values: `generateAllowBlocks`, `generateOmitBlocks`,
   * `blockGutenbergOnClient()`, `generateDestyles`, `loadStylesPhp`,
   * `buildJsPhp()`, `buildPluginPhp()`, `generatePostTypes` (`None` when it
   * throws) and `getThemeBlocks()`.
   */
  datatype Generators = Generators(
    allowBlocks: seq<string> -> string,
    omitBlocks: seq<string> -> string,
    gutenbergOnClient: string,
    destyles: ConfigValue -> string,
    loadStyles: ConfigValue -> string,
    jsPhp: string,
    pluginPhp: string,
    postTypes: (ConfigValue, string) -> Option<string>,
    themeBlocks: seq<string>)

  /** Where a generated file goes: `writeThemeFile` or `writePluginFile`. */
  datatype Target = ThemeDir | PluginDir

  datatype OutputFile = OutputFile(target: Target, name: string, content: string)

  datatype BuildError =
    | TemplateUnreadable   // reading ./theme/functions.php rejected
    | PostTypesFailed      // 'Failed to generate post types.'

  datatype Result<T> = Ok(value: T) | Err(error: BuildError)

  // ---------------------------------------------------------------------
  // Copying theme files and assets

  /** One `copySync(source, destination)`. */
  datatype Copy = Copy(source: string, destination: string)

  /** The theme file that the build generates instead of copying. */
  const GeneratedFile: string := "functions.php"

  /** The directories the theme files and the assets are copied from. */
  const ThemeSource: string := "./theme"
  const AssetsSource: string := "./assets"

  /** Copies of the listed entries of `sourceDir` into `dest`, in listing order. */
  function CopyPlan(sourceDir: string, names: seq<string>, dest: string): (plan: seq<Copy>)
    ensures |plan| == |names|
    ensures forall i :: 0 <= i < |names| ==>
      plan[i] == Copy(sourceDir + "/" + names[i], dest + "/" + names[i])
  {
    seq(|names|, i requires 0 <= i < |names| => Copy(sourceDir + "/" + names[i], dest + "/" + names[i]))
  }

  /** The listed entries other than `skip`, in order (`filter(file => file !== skip)`). */
  function Without(names: seq<string>, skip: string): (kept: seq<string>)
    ensures |kept| <= |names|
  {
    if names == [] then []
    else (if names[0] == skip then [] else [names[0]]) + Without(names[1..], skip)
  }

  /** Exactly the entries other than `skip` are kept. */
  lemma {:induction false} WithoutMembers(names: seq<string>, skip: string)
    ensures forall n :: n in Without(names, skip) <==> n in names && n != skip
  {
    if names != [] {
      WithoutMembers(names[1..], skip);
      assert names == [names[0]] + names[1..];
    }
  }

  lemma {:induction false} WithoutAppend(a: seq<string>, b: seq<string>, skip: string)
    ensures Without(a + b, skip) == Without(a, skip) + Without(b, skip)
  {
    if a == [] {
      assert a + b == b;
    } else {
      assert (a + b)[0] == a[0];
      assert (a + b)[1..] == a[1..] + b;
      WithoutAppend(a[1..], b, skip);
    }
  }

  lemma CopyPlanAppend(sourceDir: string, a: seq<string>, b: seq<string>, dest: string)
    ensures CopyPlan(sourceDir, a + b, dest) == CopyPlan(sourceDir, a, dest) + CopyPlan(sourceDir, b, dest)
  {
  }

  predicate AllCopied(plan: seq<Copy>, copyOk: Copy -> bool)
  {
    forall c :: c in plan ==> copyOk(c)
  }

  /**
   * The copies that happen when `copySync` throws on the first copy for which
   * `copyOk` is false: the throw leaves the `forEach`, so the longest prefix
   * of the plan whose copies succeed.
   */
  function CopiedBeforeFailure(plan: seq<Copy>, copyOk: Copy -> bool): (done: seq<Copy>)
    ensures |done| <= |plan| && done == plan[..|done|]
    ensures AllCopied(done, copyOk)
    ensures |done| < |plan| ==> !copyOk(plan[|done|])
  {
    if plan == [] || !copyOk(plan[0]) then []
    else [plan[0]] + CopiedBeforeFailure(plan[1..], copyOk)
  }

  lemma {:induction false} CopiedBeforeFailureAppend(p: seq<Copy>, q: seq<Copy>, copyOk: Copy -> bool)
    requires AllCopied(p, copyOk)
    ensures CopiedBeforeFailure(p + q, copyOk) == p + CopiedBeforeFailure(q, copyOk)
  {
    if p != [] {
      assert (p + q)[0] == p[0];
      assert (p + q)[1..] == p[1..] + q;
      CopiedBeforeFailureAppend(p[1..], q, copyOk);
    } else {
      assert p + q == q;
    }
  }

  /** When every copy succeeds, the whole plan is carried out. */
  lemma {:induction false} CopiedAll(plan: seq<Copy>, copyOk: Copy -> bool)
    requires AllCopied(plan, copyOk)
    ensures CopiedBeforeFailure(plan, copyOk) == plan
  {
    if plan != [] {
      CopiedAll(plan[1..], copyOk);
    }
  }

  /**
   * `copyThemeFiles`: copies every entry of ./theme to `themeDest`, in
   * listing order, except `functions.php`.  A failed listing copies nothing;
   * a failed copy ends the loop (the error is caught and logged).
   */
  method CopyThemeFiles(listing: Option<seq<string>>, themeDest: string, copyOk: Copy -> bool)
    returns (copied: seq<Copy>)
    ensures copied == if listing.None? then []
      else CopiedBeforeFailure(CopyPlan(ThemeSource, Without(listing.value, GeneratedFile), themeDest), copyOk)
    ensures forall c :: c in copied ==> c.destination != themeDest + "/" + GeneratedFile
  {
    copied := [];
    if listing.None? {
      return;
    }
    var files := listing.value;
    var i := 0;
    while i < |files|
      invariant 0 <= i <= |files|
      invariant copied == CopyPlan(ThemeSource, Without(files[..i], GeneratedFile), themeDest)
      invariant AllCopied(copied, copyOk)
    {
      var file := files[i];
      WithoutAppend(files[..i], [file], GeneratedFile);
      assert files[..i + 1] == files[..i] + [file];
      if file != GeneratedFile {
        var c := Copy(ThemeSource + "/" + file, themeDest + "/" + file);
        if !copyOk(c) {
          CopiesStopAt(ThemeSource, GeneratedFile, files, i, themeDest, copyOk, copied);
          ThemeCopiesNeverGenerated(files, themeDest, copied, copyOk);
          return;
        }
        CopyPlanAppend(ThemeSource, Without(files[..i], GeneratedFile), [file], themeDest);
        copied := copied + [c];
      } else {
        assert Without([file], GeneratedFile) == [];
      }
      i := i + 1;
    }
    assert files[..i] == files;
    CopiedAll(copied, copyOk);
    ThemeCopiesNeverGenerated(files, themeDest, copied, copyOk);
  }

  /** Splitting the listing at a kept entry splits the kept entries there. */
  lemma WithoutAt(files: seq<string>, i: int, skip: string)
    requires 0 <= i < |files| && files[i] != skip
    ensures Without(files, skip) == Without(files[..i], skip) + ([files[i]] + Without(files[i + 1..], skip))
  {
    assert files == files[..i] + ([files[i]] + files[i + 1..]);
    WithoutAppend(files[..i], [files[i]] + files[i + 1..], skip);
    WithoutAppend([files[i]], files[i + 1..], skip);
    assert Without([files[i]], skip) == [files[i]];
  }

  /**
   * Where a copy loop over the entries other than `skip` stops when the copy
   * of entry `i` fails.
   */
  lemma CopiesStopAt(sourceDir: string, skip: string, files: seq<string>, i: int, dest: string,
                     copyOk: Copy -> bool, copied: seq<Copy>)
    requires 0 <= i < |files| && files[i] != skip
    requires copied == CopyPlan(sourceDir, Without(files[..i], skip), dest)
    requires AllCopied(copied, copyOk)
    requires !copyOk(Copy(sourceDir + "/" + files[i], dest + "/" + files[i]))
    ensures copied == CopiedBeforeFailure(CopyPlan(sourceDir, Without(files, skip), dest), copyOk)
  {
    var file := files[i];
    var after := Without(files[i + 1..], skip);
    WithoutAt(files, i, skip);
    CopyPlanAppend(sourceDir, Without(files[..i], skip), [file] + after, dest);
    CopyPlanAppend(sourceDir, [file], after, dest);
    var rest := CopyPlan(sourceDir, [file], dest) + CopyPlan(sourceDir, after, dest);
    assert rest[0] == Copy(sourceDir + "/" + file, dest + "/" + file);
    CopiedBeforeFailureAppend(copied, rest, copyOk);
  }

  /** Different names under the same directory give different paths. */
  lemma DistinctPaths(dir: string, x: string, y: string)
    ensures x != y ==> dir + x != dir + y
  {
    assert (dir + x)[|dir|..] == x && (dir + y)[|dir|..] == y;
  }

  /** No copy of the theme plan writes `functions.php`. */
  lemma ThemePlanSkipsGenerated(files: seq<string>, themeDest: string)
    ensures forall c :: c in CopyPlan(ThemeSource, Without(files, GeneratedFile), themeDest) ==>
      c.destination != themeDest + "/" + GeneratedFile
  {
    var kept := Without(files, GeneratedFile);
    var plan := CopyPlan(ThemeSource, kept, themeDest);
    WithoutMembers(files, GeneratedFile);
    forall i | 0 <= i < |plan|
      ensures plan[i].destination != themeDest + "/" + GeneratedFile
    {
      assert kept[i] in kept;
      DistinctPaths(themeDest + "/", kept[i], GeneratedFile);
    }
  }

  /** Whatever part of the theme plan is carried out, `functions.php` is not written. */
  lemma ThemeCopiesNeverGenerated(files: seq<string>, themeDest: string, copied: seq<Copy>, copyOk: Copy -> bool)
    requires copied == CopiedBeforeFailure(CopyPlan(ThemeSource, Without(files, GeneratedFile), themeDest), copyOk)
    ensures forall c :: c in copied ==> c.destination != themeDest + "/" + GeneratedFile
  {
    var plan := CopyPlan(ThemeSource, Without(files, GeneratedFile), themeDest);
    ThemePlanSkipsGenerated(files, themeDest);
    assert forall c :: c in copied ==> c in plan by {
      assert copied == plan[..|copied|];
    }
  }

  /**
   * `copyThemeAssets`: copies every entry of ./assets to `assetsDest` (the
   * value of `getThemeDestination('/assets')`), in listing order, with no
   * exclusion, under the same failure rules.
   */
  method CopyThemeAssets(listing: Option<seq<string>>, assetsDest: string, copyOk: Copy -> bool)
    returns (copied: seq<Copy>)
    ensures copied == if listing.None? then []
      else CopiedBeforeFailure(CopyPlan(AssetsSource, listing.value, assetsDest), copyOk)
  {
    copied := [];
    if listing.None? {
      return;
    }
    var files := listing.value;
    var plan := CopyPlan(AssetsSource, files, assetsDest);
    var i := 0;
    while i < |files|
      invariant 0 <= i <= |files|
      invariant copied == plan[..i]
      invariant AllCopied(copied, copyOk)
    {
      var file := files[i];
      var c := Copy(AssetsSource + "/" + file, assetsDest + "/" + file);
      if !copyOk(c) {
        assert plan == copied + plan[i..];
        CopiedBeforeFailureAppend(copied, plan[i..], copyOk);
        return;
      }
      copied := copied + [c];
      i := i + 1;
    }
    assert plan[..i] == plan;
    CopiedAll(plan, copyOk);
  }

  // ---------------------------------------------------------------------
  // The block-registration snippet

  /** An entry of `readdirSync('./blocks', { withFileTypes: true })`. */
  datatype DirEntry = DirEntry(name: string, isDirectory: bool)

  const BlocksOpen: string := "\nadd_action('init', function() {"
  const BlocksClose: string := "\n});"
  const RegisterPrefix: string := "\n  register_block_type(__DIR__  . '/blocks/"
  const RegisterSuffix: string := "/block.json');"

  /** The names of the directory entries, in listing order (`filter(isDirectory).map(name)`). */
  function Folders(entries: seq<DirEntry>): (folders: seq<string>)
    ensures |folders| <= |entries|
  {
    if entries == [] then []
    else (if entries[0].isDirectory then [entries[0].name] else []) + Folders(entries[1..])
  }

  /** A name is a folder iff some directory entry of the listing carries it. */
  lemma {:induction false} FoldersMembers(entries: seq<DirEntry>)
    ensures forall f :: f in Folders(entries) <==> exists e :: e in entries && e.isDirectory && e.name == f
  {
    if entries != [] {
      FoldersMembers(entries[1..]);
      assert entries == [entries[0]] + entries[1..];
    }
  }

  lemma {:induction false} FoldersAppend(a: seq<DirEntry>, b: seq<DirEntry>)
    ensures Folders(a + b) == Folders(a) + Folders(b)
  {
    if a == [] {
      assert a + b == b;
    } else {
      assert (a + b)[0] == a[0];
      assert (a + b)[1..] == a[1..] + b;
      FoldersAppend(a[1..], b);
    }
  }

  /** `prefix + item + suffix` for every item, in order. */
  function Wrapped(prefix: string, suffix: string, items: seq<string>): string
  {
    if items == [] then "" else prefix + items[0] + suffix + Wrapped(prefix, suffix, items[1..])
  }

  lemma {:induction false} WrappedSnoc(prefix: string, suffix: string, items: seq<string>, x: string)
    ensures Wrapped(prefix, suffix, items + [x]) == Wrapped(prefix, suffix, items) + prefix + x + suffix
  {
    if items == [] {
      assert items + [x] == [x];
    } else {
      var head := prefix + items[0] + suffix;
      var tail := Wrapped(prefix, suffix, items[1..]);
      var piece := prefix + x + suffix;
      assert (items + [x])[0] == items[0];
      assert (items + [x])[1..] == items[1..] + [x];
      WrappedSnoc(prefix, suffix, items[1..], x);
      calc {
        Wrapped(prefix, suffix, items + [x]);
        head + Wrapped(prefix, suffix, items[1..] + [x]);
        head + (tail + piece);
        (head + tail) + piece;
        Wrapped(prefix, suffix, items) + piece;
      }
    }
  }

  /** Appending one more wrapped item to an accumulator that starts with `open`. */
  lemma ExtendWrapped(acc: string, open: string, prefix: string, suffix: string, items: seq<string>, x: string)
    requires acc == open + Wrapped(prefix, suffix, items)
    ensures acc + prefix + x + suffix == open + Wrapped(prefix, suffix, items + [x])
  {
    WrappedSnoc(prefix, suffix, items, x);
  }

  /** One registration statement `RegisterPrefix + folder + RegisterSuffix` per folder, in order. */
  function Registrations(folders: seq<string>): string
  {
    Wrapped(RegisterPrefix, RegisterSuffix, folders)
  }

  /**
   * The text `buildBlocksPhp` returns for a listing (`None` when
   * `readdirSync` throws): the closing `});` is inside the `try`, so a
   * failed listing leaves only the opener.
   */
  function BlocksPhp(listing: Option<seq<DirEntry>>): (php: string)
    ensures StartsWith(php, BlocksOpen)
    ensures listing.Some? <==> EndsWith(php, BlocksClose)
  {
    match listing
    case None => BlocksOpen
    case Some(entries) => BlocksOpen + Registrations(Folders(entries)) + BlocksClose
  }

  /** `buildBlocksPhp`: the accumulator, one `+=` per folder, then the closer. */
  method BuildBlocksPhp(listing: Option<seq<DirEntry>>) returns (php: string)
    ensures php == BlocksPhp(listing)
    ensures StartsWith(php, BlocksOpen)
  {
    php := BlocksOpen;
    if listing.Some? {
      var folders := Folders(listing.value);
      for i := 0 to |folders|
        invariant php == BlocksOpen + Registrations(folders[..i])
      {
        ExtendWrapped(php, BlocksOpen, RegisterPrefix, RegisterSuffix, folders[..i], folders[i]);
        assert folders[..i + 1] == folders[..i] + [folders[i]];
        php := php + RegisterPrefix + folders[i] + RegisterSuffix;
      }
      assert folders[..|folders|] == folders;
      php := php + BlocksClose;
    }
  }

  /** Position of the first `c` in `s`, or `|s|` when there is none. */
  function IndexOf(s: string, c: char): (k: nat)
    ensures k <= |s| && c !in s[..k]
    ensures k < |s| ==> s[k] == c
  {
    if s == [] then 0 else if s[0] == c then 0 else 1 + IndexOf(s[1..], c)
  }

  /**
   * Reads the items back out of a run of `prefix + item + suffix` texts; an
   * item ends at the first `/`.  `None` when the text is not such a run.
   */
  function ParseWrapped(prefix: string, suffix: string, s: string): Option<seq<string>>
    requires |prefix| > 0
    decreases |s|
  {
    if s == [] then Some([])
    else if !StartsWith(s, prefix) then None
    else
      var rest := s[|prefix|..];
      var k := IndexOf(rest, '/');
      var after := rest[k..];
      if !StartsWith(after, suffix) then None
      else
        match ParseWrapped(prefix, suffix, after[|suffix|..])
        case None => None
        case Some(items) => Some([rest[..k]] + items)
  }

  /** A directory entry's name never contains the path separator. */
  predicate IsEntryName(name: string)
  {
    '/' !in name
  }

  lemma IndexOfSeparator(item: string, suffix: string, tail: string)
    requires IsEntryName(item) && |suffix| > 0 && suffix[0] == '/'
    ensures IndexOf(item + suffix + tail, '/') == |item|
  {
    var s := item + suffix + tail;
    assert s[|item|] == '/';
    assert forall i :: 0 <= i < |item| ==> s[i] == item[i];
  }

  /** Reading a run back gives the items, provided the suffix starts at a `/` no item contains. */
  lemma {:induction false} WrappedRoundTrip(prefix: string, suffix: string, items: seq<string>)
    requires |prefix| > 0 && |suffix| > 0 && suffix[0] == '/'
    requires forall f :: f in items ==> IsEntryName(f)
    ensures ParseWrapped(prefix, suffix, Wrapped(prefix, suffix, items)) == Some(items)
  {
    if items != [] {
      var f := items[0];
      var tail := Wrapped(prefix, suffix, items[1..]);
      var s := Wrapped(prefix, suffix, items);
      assert s == prefix + (f + suffix + tail);
      assert StartsWith(s, prefix);
      var rest := s[|prefix|..];
      assert rest == f + suffix + tail;
      IndexOfSeparator(f, suffix, tail);
      assert rest[..|f|] == f;
      var after := rest[|f|..];
      assert after == suffix + tail;
      assert StartsWith(after, suffix);
      assert after[|suffix|..] == tail;
      WrappedRoundTrip(prefix, suffix, items[1..]);
      assert [f] + items[1..] == items;
    }
  }

  /** The text between `open` and `close`, when `s` has that shape. */
  function Between(open: string, close: string, s: string): Option<string>
  {
    if |s| < |open| + |close| || !StartsWith(s, open) || s[|s| - |close|..] != close then None
    else Some(s[|open|..|s| - |close|])
  }

  lemma BetweenEnclosed(open: string, close: string, middle: string)
    ensures Between(open, close, open + middle + close) == Some(middle)
  {
    var s := open + middle + close;
    assert s[..|open|] == open;
    assert s[|s| - |close|..] == close;
    assert s[|open|..|s| - |close|] == middle;
  }

  /**
   * Reads a registration block back: the opener, a run of registration
   * statements, the closer.  `None` when the text is not such a block.
   */
  function ParseBlocksPhp(s: string): Option<seq<string>>
  {
    match Between(BlocksOpen, BlocksClose, s)
    case None => None
    case Some(middle) => ParseWrapped(RegisterPrefix, RegisterSuffix, middle)
  }

  /** The registration texts satisfy what reading them back needs. */
  lemma RegistrationShape()
    ensures |RegisterPrefix| > 0 && |RegisterSuffix| > 0 && RegisterSuffix[0] == '/'
  {
  }

  /** The block of a listing of `folders`, as evidently intended, reads back as exactly those folders. */
  lemma ClosedBlockRoundTrip(folders: seq<string>)
    requires forall f :: f in folders ==> IsEntryName(f)
    ensures ParseBlocksPhp(BlocksOpen + Registrations(folders) + BlocksClose) == Some(folders)
  {
    BetweenEnclosed(BlocksOpen, BlocksClose, Registrations(folders));
    RegistrationShape();
    WrappedRoundTrip(RegisterPrefix, RegisterSuffix, folders);
  }

  /**
   * A listed directory yields a well-formed block that registers exactly its
   * sub-directories, once each, in listing order.
   */
  lemma BlocksPhpRegistersFolders(entries: seq<DirEntry>)
    requires forall e :: e in entries ==> IsEntryName(e.name)
    ensures ParseBlocksPhp(BlocksPhp(Some(entries))) == Some(Folders(entries))
  {
    FoldersMembers(entries);
    ClosedBlockRoundTrip(Folders(entries));
  }

  /** A failed listing yields an opener with no closer: not a well-formed block. */
  lemma BlocksPhpFailureUnclosed()
    ensures ParseBlocksPhp(BlocksPhp(None)) == None
  {
    assert |BlocksClose| > 0;
  }

  /** The block as evidently intended: a failed listing gives an empty, closed block. */
  function ClosedBlocksPhp(listing: Option<seq<DirEntry>>): (php: string)
    ensures StartsWith(php, BlocksOpen) && EndsWith(php, BlocksClose)
  {
    BlocksOpen + Registrations(if listing.None? then [] else Folders(listing.value)) + BlocksClose
  }

  /** The intended block is always well-formed and registers exactly the listed folders. */
  lemma ClosedBlocksPhpWellFormed(listing: Option<seq<DirEntry>>)
    requires listing.Some? ==> forall e :: e in listing.value ==> IsEntryName(e.name)
    ensures ParseBlocksPhp(ClosedBlocksPhp(listing)) == Some(if listing.None? then [] else Folders(listing.value))
  {
    if listing.Some? {
      FoldersMembers(listing.value);
    }
    ClosedBlockRoundTrip(if listing.None? then [] else Folders(listing.value));
  }

  // ---------------------------------------------------------------------
  // functions.php / blocks.php

  /** The optional sections of the generated file. */
  datatype Section = Allow | Exclude | NoGutenbergFrontend | NoStyle | Styles

  /** The fixed order in which the sections are appended. */
  const SectionOrder: seq<Section> := [Allow, Exclude, NoGutenbergFrontend, NoStyle, Styles]

  function Rank(s: Section): nat
  {
    match s
    case Allow => 0
    case Exclude => 1
    case NoGutenbergFrontend => 2
    case NoStyle => 3
    case Styles => 4
  }

  /** Whether the configuration switches a section on. */
  predicate Enabled(theme: ThemeConfig, s: Section)
  {
    match s
    case Allow => theme.allow.Some?
    case Exclude => theme.exclude.Some?
    case NoGutenbergFrontend => theme.noGutenbergFrontend
    case NoStyle => theme.noStyle.Some?
    case Styles => theme.styles.Some?
  }

  /** The enabled sections, kept in the order of `order`. */
  function EnabledIn(theme: ThemeConfig, order: seq<Section>): (ss: seq<Section>)
  {
    if order == [] then []
    else
      var last := order[|order| - 1];
      EnabledIn(theme, order[..|order| - 1]) + (if Enabled(theme, last) then [last] else [])
  }

  lemma {:induction false} EnabledInMembers(theme: ThemeConfig, order: seq<Section>)
    ensures forall s :: s in EnabledIn(theme, order) <==> s in order && Enabled(theme, s)
  {
    if order != [] {
      EnabledInMembers(theme, order[..|order| - 1]);
      assert order == order[..|order| - 1] + [order[|order| - 1]];
    }
  }

  /** The sections that appear in the generated file, in the order they appear. */
  function EnabledSections(theme: ThemeConfig): seq<Section>
  {
    EnabledIn(theme, SectionOrder)
  }

  predicate StrictlyRanked(ss: seq<Section>)
  {
    forall i, j :: 0 <= i < j < |ss| ==> Rank(ss[i]) < Rank(ss[j])
  }

  /**
   * A section appears iff its configuration field is set, each at most once,
   * and always in the fixed order, whatever subset is enabled.
   */
  lemma EnabledSectionsExact(theme: ThemeConfig)
    ensures forall s :: s in EnabledSections(theme) <==> Enabled(theme, s)
    ensures StrictlyRanked(EnabledSections(theme))
  {
    var ss := EnabledSections(theme);
    forall s ensures s in SectionOrder {
      match s
      case Allow => assert SectionOrder[0] == s;
      case Exclude => assert SectionOrder[1] == s;
      case NoGutenbergFrontend => assert SectionOrder[2] == s;
      case NoStyle => assert SectionOrder[3] == s;
      case Styles => assert SectionOrder[4] == s;
    }
    assert StrictlyRanked(SectionOrder);
    EnabledInMembers(theme, SectionOrder);
    EnabledInKeepsRanking(theme, SectionOrder);
  }

  lemma {:induction false} EnabledInKeepsRanking(theme: ThemeConfig, order: seq<Section>)
    requires StrictlyRanked(order)
    ensures StrictlyRanked(EnabledIn(theme, order))
  {
    if order != [] {
      var init := EnabledIn(theme, order[..|order| - 1]);
      EnabledInKeepsRanking(theme, order[..|order| - 1]);
      EnabledInMembers(theme, order[..|order| - 1]);
      forall s | s in init ensures Rank(s) < Rank(order[|order| - 1]) {
        var k :| 0 <= k < |order| - 1 && order[k] == s;
      }
    }
  }

  /**
   * The ordering is forced: any strictly ranked list of sections with the
   * same members as the enabled ones is the enabled list.
   */
  lemma {:induction false} RankedBySetUnique(a: seq<Section>, b: seq<Section>)
    requires StrictlyRanked(a) && StrictlyRanked(b)
    requires forall s :: s in a <==> s in b
    ensures a == b
  {
    if a != [] {
      assert a[0] in b;
    }
    if b != [] {
      assert b[0] in a;
    }
    if a != [] {
      RankedFirstIsLeast(a, b[0]);
      RankedFirstIsLeast(b, a[0]);
      RankInjective(a[0], b[0]);
      forall s ensures s in a[1..] <==> s in b[1..] {
        RankedTailMembers(a, s);
        RankedTailMembers(b, s);
      }
      RankedTail(a);
      RankedTail(b);
      RankedBySetUnique(a[1..], b[1..]);
      assert a == [a[0]] + a[1..] && b == [b[0]] + b[1..];
    }
  }

  lemma RankedFirstIsLeast(a: seq<Section>, s: Section)
    requires StrictlyRanked(a) && s in a
    ensures Rank(a[0]) <= Rank(s)
  {
    var k :| 0 <= k < |a| && a[k] == s;
  }

  lemma RankedTailMembers(a: seq<Section>, s: Section)
    requires StrictlyRanked(a) && a != []
    ensures s in a[1..] <==> s in a && s != a[0]
  {
    if s in a[1..] {
      var k :| 0 <= k < |a[1..]| && a[1..][k] == s;
      assert a[k + 1] == s;
    }
    if s in a && s != a[0] {
      var k :| 0 <= k < |a| && a[k] == s;
      assert a[1..][k - 1] == s;
    }
  }

  lemma RankInjective(s: Section, t: Section)
    requires Rank(s) == Rank(t)
    ensures s == t
  {
  }

  lemma RankedTail(a: seq<Section>)
    requires a != [] && StrictlyRanked(a)
    ensures StrictlyRanked(a[1..])
  {
    forall i, j | 0 <= i < j < |a[1..]| ensures Rank(a[1..][i]) < Rank(a[1..][j]) {
      assert a[1..][i] == a[i + 1] && a[1..][j] == a[j + 1];
    }
  }

  /**
   * The text a section contributes, separator included.  The allow-list is
   * generated from `allow` followed by the discovered blocks.
   */
  function SectionText(theme: ThemeConfig, gen: Generators, s: Section): (text: string)
    requires Enabled(theme, s)
    ensures StartsWith(text, "\n\n")
  {
    "\n\n" +
    match s
    case Allow => gen.allowBlocks(theme.allow.value + gen.themeBlocks)
    case Exclude => gen.omitBlocks(theme.exclude.value)
    case NoGutenbergFrontend => gen.gutenbergOnClient
    case NoStyle => gen.destyles(theme.noStyle.value)
    case Styles => gen.loadStyles(theme.styles.value)
  }

  function SectionsText(theme: ThemeConfig, gen: Generators, ss: seq<Section>): string
    requires forall s :: s in ss ==> Enabled(theme, s)
  {
    if ss == [] then "" else SectionText(theme, gen, ss[0]) + SectionsText(theme, gen, ss[1..])
  }

  lemma {:induction false} SectionsTextSnoc(theme: ThemeConfig, gen: Generators, ss: seq<Section>, s: Section)
    requires forall t :: t in ss ==> Enabled(theme, t)
    requires Enabled(theme, s)
    ensures SectionsText(theme, gen, ss + [s]) == SectionsText(theme, gen, ss) + SectionText(theme, gen, s)
  {
    if ss != [] {
      assert (ss + [s])[1..] == ss[1..] + [s];
      SectionsTextSnoc(theme, gen, ss[1..], s);
    }
  }

  /** What a section adds to the file: its text when enabled, nothing otherwise. */
  function SectionOut(theme: ThemeConfig, gen: Generators, s: Section): string
  {
    if Enabled(theme, s) then SectionText(theme, gen, s) else ""
  }

  /**
   * The sections of `order` rendered one after another, each enabled one
   * contributing its text and each disabled one nothing.
   */
  function SectionsIn(theme: ThemeConfig, gen: Generators, order: seq<Section>): string
  {
    if order == [] then ""
    else
      var last := order[|order| - 1];
      SectionsIn(theme, gen, order[..|order| - 1]) + SectionOut(theme, gen, last)
  }

  /** Rendering the order section by section is rendering the enabled sections. */
  lemma {:induction false} SectionsInIsEnabledText(theme: ThemeConfig, gen: Generators, order: seq<Section>)
    ensures forall s :: s in EnabledIn(theme, order) ==> Enabled(theme, s)
    ensures SectionsIn(theme, gen, order) == SectionsText(theme, gen, EnabledIn(theme, order))
  {
    EnabledInMembers(theme, order);
    if order != [] {
      var init := order[..|order| - 1];
      var last := order[|order| - 1];
      SectionsInIsEnabledText(theme, gen, init);
      if Enabled(theme, last) {
        SectionsTextSnoc(theme, gen, EnabledIn(theme, init), last);
        assert EnabledIn(theme, order) == EnabledIn(theme, init) + [last];
      } else {
        assert EnabledIn(theme, order) == EnabledIn(theme, init) + [];
        assert EnabledIn(theme, init) + [] == EnabledIn(theme, init);
      }
      assert SectionsIn(theme, gen, order) == SectionsIn(theme, gen, init) + SectionOut(theme, gen, last);
    }
  }

  /** One more section: its text is appended iff it is enabled. */
  lemma SectionsSnoc(theme: ThemeConfig, gen: Generators, order: seq<Section>, s: Section)
    ensures SectionsIn(theme, gen, order + [s]) == SectionsIn(theme, gen, order) + SectionOut(theme, gen, s)
  {
    assert (order + [s])[..|order|] == order;
  }

  /**
   * One `if` of the chain: `after` is `before` with the section's text
   * appended when the section is enabled, and `before` otherwise.
   */
  lemma AppendedSection(before: string, after: string, theme: ThemeConfig, gen: Generators, s: Section)
    requires Enabled(theme, s) ==> after == before + "\n\n" + SectionText(theme, gen, s)[2..]
    requires !Enabled(theme, s) ==> after == before
    ensures after == before + SectionOut(theme, gen, s)
  {
    if Enabled(theme, s) {
      var t := SectionText(theme, gen, s);
      assert t == "\n\n" + t[2..];
    }
  }

  /** The chain of five appends renders the fixed order of sections. */
  lemma SectionsInOrder(theme: ThemeConfig, gen: Generators, acc: string,
                        out1: string, out2: string, out3: string, out4: string, out: string)
    requires out1 == acc + SectionOut(theme, gen, Allow)
    requires out2 == out1 + SectionOut(theme, gen, Exclude)
    requires out3 == out2 + SectionOut(theme, gen, NoGutenbergFrontend)
    requires out4 == out3 + SectionOut(theme, gen, NoStyle)
    requires out == out4 + SectionOut(theme, gen, Styles)
    ensures out == acc + SectionsIn(theme, gen, SectionOrder)
  {
    assert acc == acc + SectionsIn(theme, gen, []);
    SectionsStepAcc(theme, gen, acc, [], Allow, acc, out1);
    assert [] + [Allow] == [Allow];
    SectionsStepAcc(theme, gen, acc, [Allow], Exclude, out1, out2);
    assert [Allow] + [Exclude] == [Allow, Exclude];
    SectionsStepAcc(theme, gen, acc, [Allow, Exclude], NoGutenbergFrontend, out2, out3);
    assert [Allow, Exclude] + [NoGutenbergFrontend] == [Allow, Exclude, NoGutenbergFrontend];
    SectionsStepAcc(theme, gen, acc, [Allow, Exclude, NoGutenbergFrontend], NoStyle, out3, out4);
    assert [Allow, Exclude, NoGutenbergFrontend] + [NoStyle] == [Allow, Exclude, NoGutenbergFrontend, NoStyle];
    SectionsStepAcc(theme, gen, acc, [Allow, Exclude, NoGutenbergFrontend, NoStyle], Styles, out4, out);
    assert [Allow, Exclude, NoGutenbergFrontend, NoStyle] + [Styles] == SectionOrder;
  }

  lemma SectionsStepAcc(theme: ThemeConfig, gen: Generators, acc: string, order: seq<Section>, s: Section,
                        before: string, after: string)
    requires before == acc + SectionsIn(theme, gen, order)
    requires after == before + SectionOut(theme, gen, s)
    ensures after == acc + SectionsIn(theme, gen, order + [s])
  {
    SectionsSnoc(theme, gen, order, s);
    AccStep(acc, SectionsIn(theme, gen, order), SectionOut(theme, gen, s), SectionsIn(theme, gen, order + [s]));
  }

  /** Appending two pieces to an accumulator appends their concatenation. */
  lemma AccStep(acc: string, x: string, y: string, z: string)
    requires z == x + y
    ensures (acc + x) + y == acc + z
  {
  }

  /**
   * The generated part of the file: the registration block, the enabled
   * sections in the fixed order, then the script glue with no separator.
   */
  function FunctionsBody(theme: ThemeConfig, gen: Generators, blocksPhp: string): (body: string)
    ensures StartsWith(body, blocksPhp) && EndsWith(body, gen.jsPhp)
  {
    blocksPhp + SectionsIn(theme, gen, SectionOrder) + gen.jsPhp
  }

  /** The body holds exactly the enabled sections' texts, in the fixed order. */
  lemma FunctionsBodySections(theme: ThemeConfig, gen: Generators, blocksPhp: string)
    ensures forall s :: s in EnabledSections(theme) ==> Enabled(theme, s)
    ensures FunctionsBody(theme, gen, blocksPhp) ==
      blocksPhp + SectionsText(theme, gen, EnabledSections(theme)) + gen.jsPhp
  {
    SectionsInIsEnabledText(theme, gen, SectionOrder);
  }

  /**
   * The chain of `if`s of `buildFunctionsPhp` that appends, after the
   * registration block, each enabled section preceded by a blank line.
   */
  method AppendSections(theme: ThemeConfig, gen: Generators, acc: string) returns (out: string)
    ensures out == acc + SectionsIn(theme, gen, SectionOrder)
  {
    out := acc;
    if theme.allow.Some? {
      out := out + "\n\n" + gen.allowBlocks(theme.allow.value + gen.themeBlocks);
    }
    AppendedSection(acc, out, theme, gen, Allow);
    ghost var out1 := out;
    if theme.exclude.Some? {
      out := out + "\n\n" + gen.omitBlocks(theme.exclude.value);
    }
    AppendedSection(out1, out, theme, gen, Exclude);
    ghost var out2 := out;
    if theme.noGutenbergFrontend {
      out := out + "\n\n" + gen.gutenbergOnClient;
    }
    AppendedSection(out2, out, theme, gen, NoGutenbergFrontend);
    ghost var out3 := out;
    if theme.noStyle.Some? {
      out := out + "\n\n" + gen.destyles(theme.noStyle.value);
    }
    AppendedSection(out3, out, theme, gen, NoStyle);
    ghost var out4 := out;
    if theme.styles.Some? {
      out := out + "\n\n" + gen.loadStyles(theme.styles.value);
    }
    AppendedSection(out4, out, theme, gen, Styles);
    SectionsInOrder(theme, gen, acc, out1, out2, out3, out4, out);
  }

  /**
   * `buildFunctionsPhp`: in block-only mode `blocks.php` holds the opening
   * tag and the generated body, and the template is never read; otherwise
   * `functions.php` holds the template followed by the body, and a template
   * that cannot be read rejects the build.
   */
  method BuildFunctionsPhp(theme: ThemeConfig, gen: Generators, blocksListing: Option<seq<DirEntry>>,
                           template: Option<string>)
    returns (r: Result<OutputFile>)
    ensures var body := FunctionsBody(theme, gen, BlocksPhp(blocksListing));
      r == if theme.isBlockOnly then Ok(OutputFile(ThemeDir, "blocks.php", "<?php\n" + body))
           else if template.None? then Err(TemplateUnreadable)
           else Ok(OutputFile(ThemeDir, "functions.php", template.value + body))
  {
    var functionsPhp := BuildBlocksPhp(blocksListing);
    functionsPhp := AppendSections(theme, gen, functionsPhp);
    functionsPhp := functionsPhp + gen.jsPhp;

    if theme.isBlockOnly {
      functionsPhp := "<?php\n" + functionsPhp;
      return Ok(OutputFile(ThemeDir, "blocks.php", functionsPhp));
    } else {
      if template.None? {
        return Err(TemplateUnreadable);
      }
      functionsPhp := template.value + functionsPhp;
      return Ok(OutputFile(ThemeDir, "functions.php", functionsPhp));
    }
  }

  // ---------------------------------------------------------------------
  // The companion plugin

  /**
   * `buildPlugin`: with no post types, nothing is written (`Ok(None)`); with
   * post types, the plugin file `<themeFolder>.php` holds the opening tag,
   * the plugin prologue and the generated post types; a failing generator
   * raises 'Failed to generate post types.' before anything is written.
   */
  method BuildPlugin(theme: ThemeConfig, gen: Generators) returns (r: Result<Option<OutputFile>>)
    ensures theme.postTypes.None? ==> r == Ok(None)
    ensures theme.postTypes.Some? && gen.postTypes(theme.postTypes.value, theme.textDomain).None? ==>
      r == Err(PostTypesFailed)
    ensures theme.postTypes.Some? && gen.postTypes(theme.postTypes.value, theme.textDomain).Some? ==>
      r == Ok(Some(OutputFile(PluginDir, theme.themeFolder + ".php",
        "<?php\n" + gen.pluginPhp + "\n\n" + gen.postTypes(theme.postTypes.value, theme.textDomain).value)))
  {
    var pluginPhp := "<?php\n" + gen.pluginPhp;
    if theme.postTypes.Some? {
      var generated := gen.postTypes(theme.postTypes.value, theme.textDomain);
      if generated.None? {
        return Err(PostTypesFailed);
      }
      pluginPhp := pluginPhp + "\n\n" + generated.value;
      return Ok(Some(OutputFile(PluginDir, theme.themeFolder + ".php", pluginPhp)));
    } else {
      return Ok(None);
    }
  }
}
