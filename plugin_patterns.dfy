/** The VS Code extension's pattern export: every plugin's `config/patterns_*.yml`
    document is flattened into one ordered list of pattern records. File reading and
    YAML loading happen outside; the documents come in already parsed, and the
    directory listings come in the order the file system enumerated them. */
module PluginPatterns {
  import opened Basics
  import opened Text

  /** One entry of a category list; a field the YAML entry lacks is `None` (`undefined`). */
  datatype Entry = Entry(handler: Option<string>, pattern: Option<string>, scope: Option<string>)

  /** A category of the document's `patterns` mapping, in `Object.keys` order. */
  datatype Category = Category(name: string, entries: seq<Entry>)

  /** A parsed document: `None` when the document is empty or has no (truthy) `patterns`. */
  type Doc = Option<seq<Category>>

  /** One exported record: the entry's fields, tagged with its plugin and category. */
  datatype PluginPattern = PluginPattern(
    plugin: string, category: string,
    handler: Option<string>, pattern: Option<string>, scope: Option<string>)

  /** A file of a plugin's `config` directory and its parsed content. */
  datatype ConfigFile = ConfigFile(name: string, doc: Doc)

  /** An entry of the plugins directory; `config` is `None` when `config/` does not exist. */
  datatype PluginDir = PluginDir(name: string, isDirectory: bool, config: Option<seq<ConfigFile>>)

  function MakeRecord(plugin: string, category: string, e: Entry): PluginPattern {
    PluginPattern(plugin, category, e.handler, e.pattern, e.scope)
  }

  /** The records of one category, in entry order. */
  function Tag(plugin: string, c: Category): (r: seq<PluginPattern>)
    ensures |r| == |c.entries|
    ensures forall j :: 0 <= j < |r| ==> r[j] == MakeRecord(plugin, c.name, c.entries[j])
  {
    seq(|c.entries|, j requires 0 <= j < |c.entries| => MakeRecord(plugin, c.name, c.entries[j]))
  }

  /** The records of a list of categories: category order, then entry order. */
  function Flatten(plugin: string, cats: seq<Category>): seq<PluginPattern> {
    if cats == [] then [] else Tag(plugin, cats[0]) + Flatten(plugin, cats[1..])
  }

  /** What `extractPatternsFromYml` returns for a document. */
  function Extract(plugin: string, doc: Doc): seq<PluginPattern> {
    if doc.None? then [] else Flatten(plugin, doc.value)
  }

  /** Number of entries over all categories. */
  function TotalEntries(cats: seq<Category>): nat {
    if cats == [] then 0 else |cats[0].entries| + TotalEntries(cats[1..])
  }

  lemma {:induction false} FlattenAppend(plugin: string, a: seq<Category>, b: seq<Category>)
    ensures Flatten(plugin, a + b) == Flatten(plugin, a) + Flatten(plugin, b)
  {
    if a != [] {
      assert (a + b)[0] == a[0] && (a + b)[1..] == a[1..] + b;
      FlattenAppend(plugin, a[1..], b);
    } else {
      assert a + b == b;
    }
  }

  /** A missing document, or one without `patterns`, yields no record. */
  lemma ExtractMissing(plugin: string)
    ensures Extract(plugin, None) == []
  {
  }

  /** The record count is the sum of the entry-list lengths. */
  lemma {:induction false} FlattenCount(plugin: string, cats: seq<Category>)
    ensures |Flatten(plugin, cats)| == TotalEntries(cats)
  {
    if cats != [] {
      FlattenCount(plugin, cats[1..]);
    }
  }

  /** Entry `j` of category `i` sits after every entry of the earlier categories, and is
      that entry's fields tagged with the plugin and the category name. */
  lemma {:induction false} FlattenAt(plugin: string, cats: seq<Category>, i: nat, j: nat)
    requires i < |cats| && j < |cats[i].entries|
    ensures TotalEntries(cats[..i]) + j < |Flatten(plugin, cats)|
    ensures Flatten(plugin, cats)[TotalEntries(cats[..i]) + j]
            == MakeRecord(plugin, cats[i].name, cats[i].entries[j])
  {
    FlattenCount(plugin, cats[1..]);
    if i > 0 {
      assert cats[1..][..i - 1] == cats[..i][1..];
      FlattenAt(plugin, cats[1..], i - 1, j);
    }
  }

  /** `extractPatternsFromYml`: the nested loops over categories and entries. */
  method ExtractPatternsFromYml(doc: Doc, plugin: string) returns (patterns: seq<PluginPattern>)
    ensures patterns == Extract(plugin, doc)
  {
    patterns := [];
    if doc.None? {
      return;
    }
    var cats := doc.value;
    var i := 0;
    while i < |cats|
      invariant 0 <= i <= |cats|
      invariant patterns == Flatten(plugin, cats[..i])
    {
      var entries := cats[i].entries;
      var j := 0;
      while j < |entries|
        invariant 0 <= j <= |entries|
        invariant patterns == Flatten(plugin, cats[..i]) + Tag(plugin, cats[i])[..j]
      {
        patterns := patterns + [MakeRecord(plugin, cats[i].name, entries[j])];
        assert Tag(plugin, cats[i])[..j + 1] == Tag(plugin, cats[i])[..j] + [Tag(plugin, cats[i])[j]];
        j := j + 1;
      }
      assert cats[..i + 1] == cats[..i] + [cats[i]];
      FlattenAppend(plugin, cats[..i], [cats[i]]);
      assert Flatten(plugin, [cats[i]]) == Tag(plugin, cats[i]);
      assert Tag(plugin, cats[i])[..j] == Tag(plugin, cats[i]);
      i := i + 1;
    }
    assert cats[..i] == cats;
  }

  /** The file filter of the export: `patterns_` prefix and `.yml` suffix. */
  predicate IsPatternFile(name: string) {
    StartsWith(name, "patterns_") && EndsWith(name, ".yml")
  }

  /** The records of a plugin's `config` files, in listing order, skipping other files. */
  function FromFiles(plugin: string, files: seq<ConfigFile>): seq<PluginPattern> {
    if files == [] then []
    else (if IsPatternFile(files[0].name) then Extract(plugin, files[0].doc) else [])
         + FromFiles(plugin, files[1..])
  }

  /** What one entry of the plugins directory contributes. */
  function Contribution(p: PluginDir): seq<PluginPattern> {
    if p.isDirectory && p.config.Some? then FromFiles(p.name, p.config.value) else []
  }

  /** The exported list: every plugin's contribution, in enumeration order. */
  function Aggregate(plugins: seq<PluginDir>): seq<PluginPattern> {
    if plugins == [] then [] else Contribution(plugins[0]) + Aggregate(plugins[1..])
  }

  lemma {:induction false} FromFilesAppend(plugin: string, a: seq<ConfigFile>, b: seq<ConfigFile>)
    ensures FromFiles(plugin, a + b) == FromFiles(plugin, a) + FromFiles(plugin, b)
  {
    if a != [] {
      assert (a + b)[0] == a[0] && (a + b)[1..] == a[1..] + b;
      FromFilesAppend(plugin, a[1..], b);
    } else {
      assert a + b == b;
    }
  }

  /** Contributions are appended in enumeration order: the records of a prefix of the
      plugin list are a prefix of the records of the whole list. */
  lemma {:induction false} AggregateAppend(a: seq<PluginDir>, b: seq<PluginDir>)
    ensures Aggregate(a + b) == Aggregate(a) + Aggregate(b)
  {
    if a != [] {
      assert (a + b)[0] == a[0] && (a + b)[1..] == a[1..] + b;
      AggregateAppend(a[1..], b);
    } else {
      assert a + b == b;
    }
  }

  /** A file whose name fails the filter is never read: removing it changes nothing. */
  lemma OnlyPatternFilesRead(plugin: string, a: seq<ConfigFile>, f: ConfigFile, b: seq<ConfigFile>)
    requires !IsPatternFile(f.name)
    ensures FromFiles(plugin, a + [f] + b) == FromFiles(plugin, a + b)
  {
    FromFilesAppend(plugin, a + [f], b);
    FromFilesAppend(plugin, a, [f]);
    FromFilesAppend(plugin, a, b);
  }

  /** A plugin without a `config` directory, or a plain file, contributes nothing and
      does not disturb the others. */
  lemma SkippedPlugin(a: seq<PluginDir>, p: PluginDir, b: seq<PluginDir>)
    requires !p.isDirectory || p.config.None?
    ensures Aggregate(a + [p] + b) == Aggregate(a) + Aggregate(b)
  {
    AggregateAppend(a + [p], b);
    AggregateAppend(a, [p]);
  }

  /** The inner loop of `main`: the records of the pattern files of one `config` directory. */
  method ReadConfigFiles(plugin: string, files: seq<ConfigFile>) returns (patterns: seq<PluginPattern>)
    ensures patterns == FromFiles(plugin, files)
  {
    patterns := [];
    var j := 0;
    while j < |files|
      invariant 0 <= j <= |files|
      invariant patterns == FromFiles(plugin, files[..j])
    {
      assert files[..j + 1] == files[..j] + [files[j]];
      FromFilesAppend(plugin, files[..j], [files[j]]);
      if IsPatternFile(files[j].name) {
        var more := ExtractPatternsFromYml(files[j].doc, plugin);
        patterns := patterns + more;
      }
      j := j + 1;
    }
    assert files[..j] == files;
  }

  /** One more plugin adds its contribution at the end. */
  lemma AggregateSnoc(ps: seq<PluginDir>, p: PluginDir)
    ensures Aggregate(ps + [p]) == Aggregate(ps) + Contribution(p)
  {
    AggregateAppend(ps, [p]);
    assert [p][1..] == [];
    assert Aggregate([p]) == Contribution(p) + Aggregate([]);
  }

  /** `main`'s aggregation loop over the entries of the plugins directory. */
  method CollectPluginPatterns(plugins: seq<PluginDir>) returns (allPatterns: seq<PluginPattern>)
    ensures allPatterns == Aggregate(plugins)
  {
    allPatterns := [];
    var i := 0;
    while i < |plugins|
      invariant 0 <= i <= |plugins|
      invariant allPatterns == Aggregate(plugins[..i])
    {
      var p := plugins[i];
      assert plugins[..i + 1] == plugins[..i] + [p];
      AggregateSnoc(plugins[..i], p);
      if p.isDirectory && p.config.Some? {
        var patterns := ReadConfigFiles(p.name, p.config.value);
        allPatterns := allPatterns + patterns;
      }
      i := i + 1;
    }
    assert plugins[..i] == plugins;
  }
}
