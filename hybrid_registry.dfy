/** The hybrid pattern registry: the core and plugin pattern sections merged into one
    table, the helpers the handlers use to record what a matched line asks for, and
    the selection of (pattern, handler) rules. YAML loading happens outside: the
    documents come in parsed, in the order the plugin directories were enumerated. */
module HybridRegistry {
  import opened Basics
  import opened Text
  import opened OrderedDict
  import opened PyValue

  // ----- section merge -----

  /** Section name to the list of its entries. */
  type Sections = ODict<string, seq<Value>>

  function Section(d: Sections, name: string): seq<Value> {
    GetOr(d, name, [])
  }

  /** `d.setdefault(section, []).extend(items)`. */
  function Extend(d: Sections, section: string, items: seq<Value>): (r: Sections)
    ensures Section(r, section) == Section(d, section) + items
    ensures forall k :: k != section ==> Get(r, k) == Get(d, k)
    ensures Keys(r) == if HasKey(d, section) then Keys(d) else Keys(d) + [section]
  {
    var r := Set(d, section, Section(d, section) + items);
    GetSetSame(d, section, Section(d, section) + items);
    forall k | k != section ensures Get(r, k) == Get(d, k) {
      GetSetOther(d, section, Section(d, section) + items, k);
    }
    r
  }

  /** `for section, entries in patterns.items(): d.setdefault(section, []).extend(entries)`. */
  function MergeEntries(d: Sections, patterns: ODict<string, Value>): Result<Sections>
    decreases |patterns|
  {
    if patterns == [] then Ok(d)
    else
      var items :- Iterate(patterns[0].1);
      MergeEntries(Extend(d, patterns[0].0, items), patterns[1..])
  }

  /** `yaml.safe_load(f).get("patterns", {})`, whose `.items()` is then iterated. */
  function DocPatterns(doc: Value): Result<ODict<string, Value>> {
    if !doc.VDict? then Fail(NoAttribute(doc, "get"))
    else
      var p := GetOr(doc.entries, "patterns", VDict([]));
      if p.VDict? then Ok(p.entries) else Fail(NoAttribute(p, "items"))
  }

  /** The plugin sections after reading the documents `docs` in order, starting from `d`. */
  function PluginSectionsFrom(d: Sections, docs: seq<Value>): Result<Sections>
    decreases |docs|
  {
    if docs == [] then Ok(d)
    else
      var patterns :- DocPatterns(docs[0]);
      var d' :- MergeEntries(d, patterns);
      PluginSectionsFrom(d', docs[1..])
  }

  /** What iterating over `v` gives, or nothing when `v` is not iterable. */
  function ItemsOf(v: Value): seq<Value> {
    if Iterate(v).Ok? then Iterate(v).value else []
  }

  /** The items that one document's `patterns` adds to section `k`: those of every entry
      named `k`, in order. */
  function AddedItems(patterns: ODict<string, Value>, k: string): seq<Value>
    decreases |patterns|
  {
    if patterns == [] then []
    else (if patterns[0].0 == k then ItemsOf(patterns[0].1) else []) + AddedItems(patterns[1..], k)
  }

  /** The items that the documents add to section `k`, document after document. */
  function DocsItems(docs: seq<Value>, k: string): seq<Value>
    decreases |docs|
  {
    if docs == [] then []
    else
      var p := DocPatterns(docs[0]);
      (if p.Ok? then AddedItems(p.value, k) else []) + DocsItems(docs[1..], k)
  }

  /** Merging one document's `patterns` appends, to each section, exactly the items that
      the document lists under that section's name. */
  lemma {:induction false} MergeEntriesAt(d: Sections, patterns: ODict<string, Value>, k: string)
    ensures MergeEntries(d, patterns).Ok? ==>
              Section(MergeEntries(d, patterns).value, k) == Section(d, k) + AddedItems(patterns, k)
    decreases |patterns|
  {
    if patterns != [] {
      var it := Iterate(patterns[0].1);
      if it.Ok? {
        var d' := Extend(d, patterns[0].0, it.value);
        MergeEntriesAt(d', patterns[1..], k);
        if patterns[0].0 != k {
          assert Get(d', k) == Get(d, k);
        } else {
          assert Section(d', k) == Section(d, k) + ItemsOf(patterns[0].1);
        }
      }
    }
  }

  /** In a mapping with distinct keys, the items added to section `k` are those of the
      entry for `k`, or none when the document does not mention `k`. */
  lemma {:induction false} AddedItemsOne(patterns: ODict<string, Value>, k: string)
    requires OrderedDict.Valid(patterns)
    ensures AddedItems(patterns, k) == if HasKey(patterns, k) then ItemsOf(Get(patterns, k).value) else []
    decreases |patterns|
  {
    if patterns != [] {
      TailValid(patterns);
      AddedItemsOne(patterns[1..], k);
      assert Keys(patterns) == [patterns[0].0] + Keys(patterns[1..]);
      if patterns[0].0 == k {
        assert Keys(patterns)[0] == k;
        assert !HasKey(patterns[1..], k);
      }
    }
  }

  /** A merge that succeeds iterated every entry: the items of a mentioned section come
      from a successful `list(entries)`. */
  lemma {:induction false} MergeEntriesIterated(d: Sections, patterns: ODict<string, Value>, k: string)
    requires MergeEntries(d, patterns).Ok? && HasKey(patterns, k)
    ensures Iterate(Get(patterns, k).value).Ok?
    decreases |patterns|
  {
    assert Keys(patterns) == [patterns[0].0] + Keys(patterns[1..]);
    if patterns[0].0 != k {
      MergeEntriesIterated(Extend(d, patterns[0].0, Iterate(patterns[0].1).value), patterns[1..], k);
    }
  }

  /** The plugin sections are, section by section, the starting entries followed by the
      items every document adds, in document order: nothing dropped, nothing reordered. */
  lemma {:induction false} PluginSectionsAt(d: Sections, docs: seq<Value>, k: string)
    ensures PluginSectionsFrom(d, docs).Ok? ==>
              Section(PluginSectionsFrom(d, docs).value, k) == Section(d, k) + DocsItems(docs, k)
    decreases |docs|
  {
    if docs != [] {
      var p := DocPatterns(docs[0]);
      if p.Ok? {
        var m := MergeEntries(d, p.value);
        MergeEntriesAt(d, p.value, k);
        if m.Ok? {
          PluginSectionsAt(m.value, docs[1..], k);
          assert PluginSectionsFrom(d, docs) == PluginSectionsFrom(m.value, docs[1..]);
          assert DocsItems(docs, k) == AddedItems(p.value, k) + DocsItems(docs[1..], k);
        }
      }
    }
  }

  /** Merging keeps every section name once. */
  lemma {:induction false} MergeEntriesValid(d: Sections, patterns: ODict<string, Value>)
    requires OrderedDict.Valid(d)
    ensures MergeEntries(d, patterns).Ok? ==> OrderedDict.Valid(MergeEntries(d, patterns).value)
    decreases |patterns|
  {
    if patterns != [] {
      var it := Iterate(patterns[0].1);
      if it.Ok? {
        SetValid(d, patterns[0].0, Section(d, patterns[0].0) + it.value);
        MergeEntriesValid(Extend(d, patterns[0].0, it.value), patterns[1..]);
      }
    }
  }

  /** The plugin sections hold every section name once. */
  lemma {:induction false} PluginSectionsValid(d: Sections, docs: seq<Value>)
    requires OrderedDict.Valid(d)
    ensures PluginSectionsFrom(d, docs).Ok? ==> OrderedDict.Valid(PluginSectionsFrom(d, docs).value)
    decreases |docs|
  {
    if docs != [] {
      var p := DocPatterns(docs[0]);
      if p.Ok? {
        MergeEntriesValid(d, p.value);
        var m := MergeEntries(d, p.value);
        if m.Ok? {
          PluginSectionsValid(m.value, docs[1..]);
        }
      }
    }
  }

  /** A section that no document mentions keeps exactly its entries. */
  lemma {:induction false} MergeEntriesOther(d: Sections, patterns: ODict<string, Value>, k: string)
    requires !HasKey(patterns, k)
    ensures MergeEntries(d, patterns).Ok? ==> Get(MergeEntries(d, patterns).value, k) == Get(d, k)
    decreases |patterns|
  {
    if patterns != [] {
      assert Keys(patterns) == [patterns[0].0] + Keys(patterns[1..]);
      var it := Iterate(patterns[0].1);
      if it.Ok? {
        MergeEntriesOther(Extend(d, patterns[0].0, it.value), patterns[1..], k);
      }
    }
  }

  /** `plugin_patterns` after every document: each section holds exactly the items the
      documents list under its name, in document order, and each name is there once. */
  lemma PluginPatterns(docs: seq<Value>)
    requires PluginSectionsFrom([], docs).Ok?
    ensures OrderedDict.Valid(PluginSectionsFrom([], docs).value)
    ensures forall k :: Section(PluginSectionsFrom([], docs).value, k) == DocsItems(docs, k)
  {
    PluginSectionsValid([], docs);
    forall k ensures Section(PluginSectionsFrom([], docs).value, k) == DocsItems(docs, k) {
      PluginSectionsAt([], docs, k);
    }
  }

  /** The loop over the plugin documents that builds `plugin_patterns`. */
  method LoadPluginPatterns(docs: seq<Value>) returns (r: Result<Sections>)
    ensures r == PluginSectionsFrom([], docs)
    ensures r.Ok? ==> OrderedDict.Valid(r.value)
  {
    var pluginPatterns: Sections := [];
    var i := 0;
    while i < |docs|
      invariant 0 <= i <= |docs|
      invariant PluginSectionsFrom(pluginPatterns, docs[i..]) == PluginSectionsFrom([], docs)
    {
      assert docs[i..][0] == docs[i] && docs[i..][1..] == docs[i + 1..];
      var patterns := DocPatterns(docs[i]);
      if patterns.Fail? {
        return Fail(patterns.exc);
      }
      var merged := MergeDocEntries(pluginPatterns, patterns.value);
      if merged.Fail? {
        return Fail(merged.exc);
      }
      pluginPatterns := merged.value;
      i := i + 1;
    }
    assert docs[i..] == [];
    PluginSectionsValid([], docs);
    assert PluginSectionsFrom([], docs) == Ok(pluginPatterns);
    return Ok(pluginPatterns);
  }

  /** The inner loop of the plugin documents: each section's items extend `plugin_patterns`. */
  method MergeDocEntries(d: Sections, entries: ODict<string, Value>) returns (r: Result<Sections>)
    ensures r == MergeEntries(d, entries)
  {
    var sections := d;
    var j := 0;
    while j < |entries|
      invariant 0 <= j <= |entries|
      invariant MergeEntries(sections, entries[j..]) == MergeEntries(d, entries)
    {
      assert entries[j..][0] == entries[j] && entries[j..][1..] == entries[j + 1..];
      var items := Iterate(entries[j].1);
      if items.Fail? {
        return Fail(items.exc);
      }
      sections := Extend(sections, entries[j].0, items.value);
      j := j + 1;
    }
    assert entries[j..] == [];
    return Ok(sections);
  }

  /** `ALL_PATTERNS`: `actions` and `validations` from the core files, then every plugin
      section merged in its first-seen order. */
  function AllPatterns(actions: Value, validations: Value, plugin: Sections): Result<Sections> {
    var a :- Iterate(actions);
    var v :- Iterate(validations);
    Ok(MergeSections([("actions", a), ("validations", v)], plugin))
  }

  /** `for section, entries in plugin.items(): d.setdefault(section, []).extend(entries)`. */
  function MergeSections(d: Sections, plugin: Sections): Sections
    decreases |plugin|
  {
    if plugin == [] then d else MergeSections(Extend(d, plugin[0].0, plugin[0].1), plugin[1..])
  }

  lemma {:induction false} MergeSectionsAt(d: Sections, plugin: Sections, k: string)
    requires Valid(plugin)
    ensures Section(MergeSections(d, plugin), k) == Section(d, k) + Section(plugin, k)
    ensures HasKey(d, k) ==> HasKey(MergeSections(d, plugin), k)
    decreases |plugin|
  {
    if plugin != [] {
      TailValid(plugin);
      var d' := Extend(d, plugin[0].0, plugin[0].1);
      MergeSectionsAt(d', plugin[1..], k);
      if plugin[0].0 != k {
        assert Get(d', k) == Get(d, k);
      } else {
        assert Section(plugin[1..], k) == [];
      }
    }
  }

  lemma {:induction false} MergeSectionsKeys(d: Sections, plugin: Sections)
    ensures |MergeSections(d, plugin)| >= |d|
    ensures Keys(MergeSections(d, plugin))[..|d|] == Keys(d)
    decreases |plugin|
  {
    if plugin != [] {
      var d' := Extend(d, plugin[0].0, plugin[0].1);
      MergeSectionsKeys(d', plugin[1..]);
      ExtendKeys(d, plugin[0].0, plugin[0].1);
      PrefixOfPrefix(Keys(MergeSections(d', plugin[1..])), Keys(d'), Keys(d));
    }
  }

  lemma ExtendKeys(d: Sections, section: string, items: seq<Value>)
    ensures |Extend(d, section, items)| >= |d| && Keys(Extend(d, section, items))[..|d|] == Keys(d)
  {
    var ks := Keys(d);
    if !HasKey(d, section) {
      assert (ks + [section])[..|d|] == ks;
    } else {
      assert ks[..|d|] == ks;
    }
  }

  /** The merged `actions` section is the core actions followed by the plugins' `actions`
      entries, likewise for `validations`, and those two sections come first. */
  lemma MergedCoreSections(actions: Value, validations: Value, plugin: Sections)
    requires Valid(plugin)
    requires AllPatterns(actions, validations, plugin).Ok?
    ensures var all := AllPatterns(actions, validations, plugin).value;
      && Section(all, "actions") == Iterate(actions).value + Section(plugin, "actions")
      && Section(all, "validations") == Iterate(validations).value + Section(plugin, "validations")
      && |all| >= 2 && all[0].0 == "actions" && all[1].0 == "validations"
  {
    var d: Sections := [("actions", Iterate(actions).value), ("validations", Iterate(validations).value)];
    MergeSectionsAt(d, plugin, "actions");
    MergeSectionsAt(d, plugin, "validations");
    MergeSectionsKeys(d, plugin);
    var all := MergeSections(d, plugin);
    assert Keys(all)[..2] == ["actions", "validations"];
    assert Keys(all)[0] == all[0].0 && Keys(all)[1] == all[1].0;
  }

  /** `ALL_PATTERNS` from the plugin documents: `actions` and `validations` hold the core
      entries followed by the plugin items for them, and every other section holds
      exactly the plugin items listed under its name, in document order. */
  lemma AllPatternsFromDocs(actions: Value, validations: Value, docs: seq<Value>)
    requires PluginSectionsFrom([], docs).Ok?
    requires AllPatterns(actions, validations, PluginSectionsFrom([], docs).value).Ok?
    ensures var all := AllPatterns(actions, validations, PluginSectionsFrom([], docs).value).value;
      && Section(all, "actions") == Iterate(actions).value + DocsItems(docs, "actions")
      && Section(all, "validations") == Iterate(validations).value + DocsItems(docs, "validations")
      && forall k :: k != "actions" && k != "validations" ==> Section(all, k) == DocsItems(docs, k)
  {
    var plugin := PluginSectionsFrom([], docs).value;
    PluginPatterns(docs);
    MergedCoreSections(actions, validations, plugin);
    var d: Sections := [("actions", Iterate(actions).value), ("validations", Iterate(validations).value)];
    forall k | k != "actions" && k != "validations"
      ensures Section(MergeSections(d, plugin), k) == DocsItems(docs, k)
    {
      MergeSectionsAt(d, plugin, k);
      assert Section(d, k) == [];
    }
  }

  // ----- the helpers that store what a handler extracted -----

  /** The argument of `_set_dict_value` at its call sites: a mapping, or a path string. */
  datatype DictArg = Mapping(m: ODict<string, Value>) | Text(t: string) {
    function AsValue(): Value {
      match this
      case Mapping(m) => VDict(m)
      case Text(t) => VStr(t)
    }
  }

  /** The list a field holds, or the empty list `_add_to_list` starts from. */
  function ListAt(fields: ODict<string, Value>, key: string): seq<Value>
    requires !HasKey(fields, key) || Get(fields, key).value.VList?
  {
    if HasKey(fields, key) then Get(fields, key).value.items else []
  }

  /** `_add_to_list`: a missing field becomes `[value]`, a list gets `value` appended once,
      and any other current value has no `append`. Objects and dicts behave alike. */
  function AddedToList(fields: ODict<string, Value>, key: string, value: Value)
    : (r: Result<ODict<string, Value>>)
    ensures r.Fail? <==> HasKey(fields, key) && !Get(fields, key).value.VList?
    ensures r.Ok? ==> Get(r.value, key) == Some(VList(ListAt(fields, key) + [value]))
    ensures r.Ok? ==> forall k :: k != key ==> Get(r.value, k) == Get(fields, k)
    ensures r.Ok? ==> Keys(r.value) == if HasKey(fields, key) then Keys(fields) else Keys(fields) + [key]
  {
    var cur: Option<Value> := Get(fields, key);
    match cur
    case None => assert ListAt(fields, key) + [value] == [value]; Stored(fields, key, VList([value]))
    case Some(VList(xs)) => Stored(fields, key, VList(xs + [value]))
    case Some(v) => Fail(NoAttribute(v, "append"))
  }

  /** `fields[key] = v`, with what that means for every key. */
  function Stored(fields: ODict<string, Value>, key: string, v: Value): (r: Result<ODict<string, Value>>)
    ensures r.Ok? && Get(r.value, key) == Some(v)
    ensures forall k :: k != key ==> Get(r.value, k) == Get(fields, k)
    ensures Keys(r.value) == if HasKey(fields, key) then Keys(fields) else Keys(fields) + [key]
  {
    GetSetSame(fields, key, v);
    forall k | k != key ensures Get(Set(fields, key, v), k) == Get(fields, k) {
      GetSetOther(fields, key, v, k);
    }
    Ok(Set(fields, key, v))
  }

  /** `value not in current` followed by `current.append(value)`: the membership test of
      the current value's type, then `append`, which only a list has. */
  function AddIfAbsent(current: Value, value: Value): (r: Result<Value>)
    ensures current.VList? ==> r.Ok? && r.value.VList?
    ensures current.VList? && value in current.items ==> r == Ok(current)
    ensures current.VList? && value !in current.items ==> r == Ok(VList(current.items + [value]))
  {
    var present :- PyContains(current, value);
    if present then Ok(current)
    else if current.VList? then Ok(VList(current.items + [value]))
    else Fail(NoAttribute(current, "append"))
  }

  /** `_add_to_list_if_not_exists`: a missing field starts as `[]`. */
  function AddedIfNotExists(fields: ODict<string, Value>, key: string, value: Value)
    : (r: Result<ODict<string, Value>>)
    ensures !HasKey(fields, key) ==> r.Ok? && Get(r.value, key) == Some(VList([value]))
    ensures r.Ok? ==> forall k :: k != key ==> Get(r.value, k) == Get(fields, k)
  {
    var current := GetOr(fields, key, VList([]));
    assert [] + [value] == [value];
    var updated :- AddIfAbsent(current, value);
    Stored(fields, key, updated)
  }

  /** A list that holds `value` already is left as it is; otherwise `value` is appended
      exactly once. A list without duplicates keeps none. */
  lemma AddIfNotExistsList(fields: ODict<string, Value>, key: string, value: Value)
    requires HasKey(fields, key) && Get(fields, key).value.VList?
    ensures var xs := Get(fields, key).value.items;
      var r := AddedIfNotExists(fields, key, value);
      && r.Ok?
      && Get(r.value, key) == Some(VList(if value in xs then xs else xs + [value]))
      && (Distinct(xs) ==> Distinct(Get(r.value, key).value.items))
  {
    var xs := Get(fields, key).value.items;
    if value !in xs {
      forall i, j | 0 <= i < j < |xs + [value]| && Distinct(xs)
        ensures (xs + [value])[i] != (xs + [value])[j]
      {
        if j == |xs| {
          assert xs[i] in xs;
        }
      }
    }
  }

  /** `_set_dict_value` on a `dict` target. A mapping is merged into the current mapping
      (a missing field starts as `{}`); a non-mapping replaces the field; merging into a
      field that holds something other than a dict has no `update`. */
  function SetDictValueInDict(fields: ODict<string, Value>, key: string, value: DictArg)
    : (r: Result<ODict<string, Value>>)
    ensures value.Text? ==> r.Ok? && Get(r.value, key) == Some(VStr(value.t))
    ensures value.Mapping? && !HasKey(fields, key) ==> r.Ok? && Get(r.value, key) == Some(VDict(Update([], value.m)))
    ensures value.Mapping? && HasKey(fields, key) ==>
      if Get(fields, key).value.VDict?
      then r.Ok? && Get(r.value, key) == Some(VDict(Update(Get(fields, key).value.entries, value.m)))
      else r.Fail?
    ensures r.Ok? ==> forall k :: k != key ==> Get(r.value, k) == Get(fields, k)
  {
    match value
    case Text(t) => Stored(fields, key, VStr(t))
    case Mapping(m) =>
      var current := GetOr(fields, key, VDict([]));
      if current.VDict? then Stored(fields, key, VDict(Update(current.entries, m)))
      else Fail(NoAttribute(current, "update"))
  }

  /** `dict.update(arg)` for the two kinds of value `_set_dict_value` receives: a mapping
      adds its pairs; a string is a sequence of one-character strings, which are not
      key/value pairs, so only the empty string is accepted. */
  function DictUpdate(current: ODict<string, Value>, value: DictArg): (r: Result<ODict<string, Value>>)
    ensures value.Mapping? ==> r == Ok(Update(current, value.m))
    ensures value == Text("") ==> r == Ok(current)
    ensures value.Text? && value.t != "" ==>
              r == Fail(PairLengthError(0, 1))
  {
    match value
    case Mapping(m) => PyValue.DictUpdate(current, VDict(m))
    case Text(t) => DictUpdateString(current, t); PyValue.DictUpdate(current, VStr(t))
  }

  /** `_set_dict_value` on an object target: an attribute that holds a dict is updated
      in place, any other attribute (or a missing one) is set to the value. */
  function SetDictValueOnObject(attrs: ODict<string, Value>, key: string, value: DictArg)
    : (r: Result<ODict<string, Value>>)
    ensures HasKey(attrs, key) && Get(attrs, key).value.VDict? && value.Mapping? ==>
      r.Ok? && Get(r.value, key) == Some(VDict(Update(Get(attrs, key).value.entries, value.m)))
    ensures !(HasKey(attrs, key) && Get(attrs, key).value.VDict?) ==>
      r.Ok? && Get(r.value, key) == Some(value.AsValue())
    ensures r.Ok? ==> forall k :: k != key ==> Get(r.value, k) == Get(attrs, k)
  {
    var cur: Option<Value> := Get(attrs, key);
    match cur
    case Some(VDict(e)) =>
      var merged :- DictUpdate(e, value);
      Stored(attrs, key, VDict(merged))
    case _ => Stored(attrs, key, value.AsValue())
  }

  // ----- _handle_sql_script_text -----

  predicate SChar(c: char) { c == 's' || c == 'S' || c == '\U{17f}' }
  predicate QChar(c: char) { c == 'q' || c == 'Q' }
  predicate LChar(c: char) { c == 'l' || c == 'L' }

  /** `.sql` at position `p` of `w`, compared ignoring case as Python's `re.I` does
      (which lets the long s, U+017F, stand for `s`). */
  predicate SqlAt(w: string, p: int) {
    0 <= p && p + 4 <= |w| && w[p] == '.' && SChar(w[p + 1]) && QChar(w[p + 2]) && LChar(w[p + 3])
  }

  /** The last position `p` with `1 <= p <= hi` where `.sql` occurs. */
  function LastSqlAt(w: string, hi: int): (r: Option<nat>)
    ensures r.Some? ==> 1 <= r.value <= hi && SqlAt(w, r.value)
    ensures r.Some? ==> forall p :: r.value < p <= hi ==> !SqlAt(w, p)
    ensures r.None? ==> forall p :: 1 <= p <= hi ==> !SqlAt(w, p)
    decreases hi
  {
    if hi < 1 then None else if SqlAt(w, hi) then Some(hi) else LastSqlAt(w, hi - 1)
  }

  /** What `\S+\.sql` finds in one run of non-whitespace: the greedy `\S+` backs off to
      the last `.sql` that has at least one character before it. */
  function SqlMatch(w: string): (r: Option<string>)
    ensures r.Some? ==> |r.value| >= 5 && StartsWith(w, r.value) && SqlAt(r.value, |r.value| - 4)
    ensures r.Some? ==> forall p :: |r.value| - 4 < p <= |w| - 4 ==> !SqlAt(w, p)
    ensures r.None? <==> forall p :: 1 <= p <= |w| - 4 ==> !SqlAt(w, p)
  {
    match LastSqlAt(w, |w| - 4)
    case None => None
    case Some(p) => Some(w[..p + 4])
  }

  /** `re.findall(r"\S+\.sql", text, re.I)`: at most one match per whitespace-separated
      word, since a match cannot cross whitespace and the next search starts after it. */
  function FindSqlScripts(text: string): seq<string> {
    MatchesIn(SplitWhitespace(text))
  }

  function MatchesIn(words: seq<string>): seq<string> {
    if words == [] then []
    else (match SqlMatch(words[0]) case Some(m) => [m] case None => []) + MatchesIn(words[1..])
  }

  /** The scripts `paths` added one by one to the value under `sql_scripts`. */
  function AddAll(current: Value, paths: seq<string>): Result<Value>
    decreases |paths|
  {
    if paths == [] then Ok(current)
    else
      var next :- AddIfAbsent(current, VStr(paths[0]));
      AddAll(next, paths[1..])
  }

  /** `_handle_sql_script_text(text, actions)`: the `sql_scripts` field is looked up only
      when a script is found, on a dict (`actions[...]`); a missing field is a KeyError. */
  function SqlScriptsAdded(isDict: bool, fields: ODict<string, Value>, text: string)
    : Result<ODict<string, Value>>
  {
    var scripts := FindSqlScripts(text);
    if scripts == [] then Ok(fields)
    else if !isDict then Fail(TypeError("'ShtestFile' object is not subscriptable"))
    else if !HasKey(fields, "sql_scripts") then Fail(KeyError("sql_scripts"))
    else
      var v :- AddAll(Get(fields, "sql_scripts").value, scripts);
      Stored(fields, "sql_scripts", v)
  }

  lemma {:induction false} AddAllList(xs: seq<Value>, paths: seq<string>)
    ensures AddAll(VList(xs), paths).Ok? && AddAll(VList(xs), paths).value.VList?
    ensures var ys := AddAll(VList(xs), paths).value.items;
      && xs <= ys
      && (forall i :: 0 <= i < |paths| ==> VStr(paths[i]) in ys)
      && (Distinct(xs) ==> Distinct(ys))
    decreases |paths|
  {
    if paths != [] {
      var x := VStr(paths[0]);
      var next := if x in xs then xs else xs + [x];
      assert AddIfAbsent(VList(xs), x) == Ok(VList(next));
      if Distinct(xs) && x !in xs {
        forall i, j | 0 <= i < j < |next| ensures next[i] != next[j] {
          if j == |xs| {
            assert xs[i] in xs;
          }
        }
      }
      AddAllList(next, paths[1..]);
      var ys := AddAll(VList(next), paths[1..]).value.items;
      assert x in next;
      forall i | 0 <= i < |paths| ensures VStr(paths[i]) in ys {
        if i > 0 {
          assert paths[i] == paths[1..][i - 1];
        }
      }
    }
  }

  /** A script already listed is never added again: a duplicate-free `sql_scripts` list
      stays duplicate-free, keeps its entries first, and ends up holding every script. */
  lemma SqlScriptsNoDuplicates(fields: ODict<string, Value>, text: string)
    requires HasKey(fields, "sql_scripts") && Get(fields, "sql_scripts").value.VList?
    requires Distinct(Get(fields, "sql_scripts").value.items)
    ensures var r := SqlScriptsAdded(true, fields, text);
      && r.Ok? && HasKey(r.value, "sql_scripts") && Get(r.value, "sql_scripts").value.VList?
      && Distinct(Get(r.value, "sql_scripts").value.items)
      && Get(fields, "sql_scripts").value.items <= Get(r.value, "sql_scripts").value.items
      && forall p :: p in FindSqlScripts(text) ==> VStr(p) in Get(r.value, "sql_scripts").value.items
  {
    var scripts := FindSqlScripts(text);
    if scripts != [] {
      AddAllList(Get(fields, "sql_scripts").value.items, scripts);
    }
  }

  /** The object the helpers mutate: a legacy `dict`, or an object whose attributes
      are its fields. */
  class Target {
    var isDict: bool
    var fields: ODict<string, Value>

    constructor (isDict: bool, fields: ODict<string, Value>)
      ensures this.isDict == isDict && this.fields == fields
    {
      this.isDict := isDict;
      this.fields := fields;
    }

    /** The stored fields after an operation whose effect is `r`: the new fields when it
        succeeded, the old ones when it raised. */
    static predicate Applied(o: Outcome, r: Result<ODict<string, Value>>,
                             before: ODict<string, Value>, after: ODict<string, Value>) {
      match r
      case Ok(f) => o == Pass && after == f
      case Fail(e) => o == Raise(e) && after == before
    }

    method Apply(r: Result<ODict<string, Value>>) returns (o: Outcome)
      modifies this
      ensures isDict == old(isDict)
      ensures Applied(o, r, old(fields), fields)
    {
      if r.Ok? {
        fields := r.value;
        o := Pass;
      } else {
        o := Raise(r.exc);
      }
    }

    method AddToList(key: string, value: Value) returns (o: Outcome)
      modifies this
      ensures isDict == old(isDict)
      ensures Applied(o, AddedToList(old(fields), key, value), old(fields), fields)
    {
      o := Apply(AddedToList(fields, key, value));
    }

    method AddToListIfNotExists(key: string, value: Value) returns (o: Outcome)
      modifies this
      ensures isDict == old(isDict)
      ensures Applied(o, AddedIfNotExists(old(fields), key, value), old(fields), fields)
    {
      o := Apply(AddedIfNotExists(fields, key, value));
    }

    method SetDictValue(key: string, value: DictArg) returns (o: Outcome)
      modifies this
      ensures isDict == old(isDict)
      ensures Applied(o, if old(isDict) then SetDictValueInDict(old(fields), key, value)
                         else SetDictValueOnObject(old(fields), key, value), old(fields), fields)
    {
      if isDict {
        o := Apply(SetDictValueInDict(fields, key, value));
      } else {
        o := Apply(SetDictValueOnObject(fields, key, value));
      }
    }

    /** `_handle_sql_script_text(text, self)`: the loop over the scripts found. */
    method HandleSqlScriptText(text: string) returns (o: Outcome)
      modifies this
      ensures isDict == old(isDict)
      ensures Applied(o, SqlScriptsAdded(old(isDict), old(fields), text), old(fields), fields)
    {
      var scripts := FindSqlScripts(text);
      if scripts == [] {
        return Pass;
      }
      if !isDict {
        return Raise(TypeError("'ShtestFile' object is not subscriptable"));
      }
      if !HasKey(fields, "sql_scripts") {
        return Raise(KeyError("sql_scripts"));
      }
      var current := Get(fields, "sql_scripts").value;
      var i := 0;
      while i < |scripts|
        invariant 0 <= i <= |scripts|
        invariant AddAll(current, scripts[i..]) == AddAll(Get(fields, "sql_scripts").value, scripts)
      {
        assert scripts[i..][0] == scripts[i] && scripts[i..][1..] == scripts[i + 1..];
        var next := AddIfAbsent(current, VStr(scripts[i]));
        if next.Fail? {
          return Raise(next.exc);
        }
        current := next.value;
        i := i + 1;
      }
      o := Apply(Stored(fields, "sql_scripts", current));
    }
  }

  // ----- load_rules -----

  /** A rule: the pattern text to compile and the name of its handler. */
  datatype Rule = Rule(pattern: Value, handler: string)

  /** `entry.get("pattern") or entry.get("phrase")`. */
  function PatternText(entry: ODict<string, Value>): (r: Value)
    ensures Truthy(r) <==> Truthy(DictGet(entry, "pattern")) || Truthy(DictGet(entry, "phrase"))
    ensures Truthy(DictGet(entry, "pattern")) ==> r == DictGet(entry, "pattern")
    ensures !Truthy(DictGet(entry, "pattern")) ==> r == DictGet(entry, "phrase")
  {
    Or(DictGet(entry, "pattern"), DictGet(entry, "phrase"))
  }

  /** The rule one entry contributes: none when it has neither `pattern` nor `phrase`;
      otherwise its handler must be registered. */
  function RuleOf(entry: Value, handlers: set<string>): (r: Result<Option<Rule>>)
    ensures !entry.VDict? ==> r.Fail?
    ensures entry.VDict? && !Truthy(PatternText(entry.entries)) ==> r == Ok(None)
    ensures r.Ok? && r.value.Some? ==>
      entry.VDict? && r.value.value.pattern == PatternText(entry.entries)
      && Truthy(r.value.value.pattern) && r.value.value.handler in handlers
      && DictGet(entry.entries, "handler") == VStr(r.value.value.handler)
    ensures entry.VDict? && Truthy(PatternText(entry.entries)) ==>
      var h := DictGet(entry.entries, "handler");
      && (!HasKey(entry.entries, "handler") ==> r == Fail(KeyError("handler")))
      && (h.VStr? && h.s !in handlers ==> r == Fail(KeyError(h.s)))
      && (!Hashable(h) ==> r.Fail? && r.exc.TypeError?)
  {
    if !entry.VDict? then Fail(NoAttribute(entry, "get"))
    else
      var text := PatternText(entry.entries);
      if !Truthy(text) then Ok(None)
      else
        var h: Option<Value> := Get(entry.entries, "handler");
        match h
        case None => Fail(KeyError("handler"))
        case Some(VStr(h)) => if h in handlers then Ok(Some(Rule(text, h))) else Fail(KeyError(h))
        case Some(v) =>
          if Hashable(v) then Fail(KeyError(TypeName(v)))
          else Fail(TypeError("unhashable type: '" + TypeName(v) + "'"))
  }

  /** Every entry of every section, in section order. */
  function AllEntries(all: Sections): seq<Value> {
    if all == [] then [] else all[0].1 + AllEntries(all[1..])
  }

  /** The rules that `entries` add to `rules`, stopping at the first error. */
  function RulesFrom(rules: seq<Rule>, entries: seq<Value>, handlers: set<string>): Result<seq<Rule>>
    decreases |entries|
  {
    if entries == [] then Ok(rules)
    else
      var r :- RuleOf(entries[0], handlers);
      RulesFrom(rules + (if r.Some? then [r.value] else []), entries[1..], handlers)
  }

  lemma RulesFromFail(rules: seq<Rule>, entries: seq<Value>, handlers: set<string>)
    requires entries != [] && RuleOf(entries[0], handlers).Fail?
    ensures RulesFrom(rules, entries, handlers) == Fail(RuleOf(entries[0], handlers).exc)
  {
  }

  lemma RulesFromOk(rules: seq<Rule>, entries: seq<Value>, handlers: set<string>)
    requires entries != [] && RuleOf(entries[0], handlers).Ok?
    ensures var r := RuleOf(entries[0], handlers).value;
      RulesFrom(rules, entries, handlers) == RulesFrom(rules + (if r.Some? then [r.value] else []), entries[1..], handlers)
  {
  }

  /** The rule one entry calls for: one for a mapping with a pattern or a phrase,
      carrying that text and the name its `handler` field gives. */
  function SelectedOf(e: Value): seq<Rule> {
    if e.VDict? && Truthy(PatternText(e.entries)) && DictGet(e.entries, "handler").VStr?
    then [Rule(PatternText(e.entries), DictGet(e.entries, "handler").s)]
    else []
  }

  /** The rules the entries call for, in entry order. */
  function SelectedRules(entries: seq<Value>): seq<Rule> {
    if entries == [] then [] else SelectedOf(entries[0]) + SelectedRules(entries[1..])
  }

  /** An entry that does not fail contributes the rule it calls for, with a registered
      handler. */
  lemma RuleOfSelected(e: Value, handlers: set<string>)
    requires RuleOf(e, handlers).Ok?
    ensures var r := RuleOf(e, handlers).value;
      (if r.Some? then [r.value] else []) == SelectedOf(e)
      && (r.Some? ==> r.value.handler in handlers)
  {
    if e.VDict? && Truthy(PatternText(e.entries)) {
      var h := Get(e.entries, "handler");
      assert DictGet(e.entries, "handler") == h.value;
      assert h.value.VStr? && h.value.s in handlers;
    }
  }

  /** When collecting succeeds, it appends exactly the selected rules to the rules already
      collected, and every one of them names a registered handler. */
  lemma {:induction false} RulesFromCount(rules: seq<Rule>, entries: seq<Value>, handlers: set<string>)
    ensures var r := RulesFrom(rules, entries, handlers);
      r.Ok? ==> r.value == rules + SelectedRules(entries)
    decreases |entries|
  {
    if entries != [] {
      if RuleOf(entries[0], handlers).Ok? {
        RulesFromCount(rules + SelectedOf(entries[0]), entries[1..], handlers);
        RulesFromSelected(rules, entries, handlers);
        RulesFromStep(RulesFrom(rules, entries, handlers), rules, entries);
      } else {
        RulesFromFail(rules, entries, handlers);
      }
    }
  }

  /** The rules of the first entry, then those of the rest, are the rules of all. */
  lemma RulesFromStep(r: Result<seq<Rule>>, rules: seq<Rule>, entries: seq<Value>)
    requires entries != []
    requires r.Ok? ==> r.value == rules + SelectedOf(entries[0]) + SelectedRules(entries[1..])
    ensures r.Ok? ==> r.value == rules + SelectedRules(entries)
  {
    assert SelectedRules(entries) == SelectedOf(entries[0]) + SelectedRules(entries[1..]);
    AppendAssoc(rules, SelectedOf(entries[0]), SelectedRules(entries[1..]));
  }

  /** An entry that does not fail adds the rule it calls for. */
  lemma RulesFromSelected(rules: seq<Rule>, entries: seq<Value>, handlers: set<string>)
    requires entries != [] && RuleOf(entries[0], handlers).Ok?
    ensures RulesFrom(rules, entries, handlers) == RulesFrom(rules + SelectedOf(entries[0]), entries[1..], handlers)
  {
    RuleOfSelected(entries[0], handlers);
    RulesFromOk(rules, entries, handlers);
  }

  /** Every rule names a registered handler. */
  predicate Registered(rs: seq<Rule>, handlers: set<string>) {
    forall k :: 0 <= k < |rs| ==> rs[k].handler in handlers
  }

  /** When collecting succeeds, every selected rule names a registered handler. */
  lemma {:induction false} RulesFromRegistered(rules: seq<Rule>, entries: seq<Value>, handlers: set<string>)
    ensures RulesFrom(rules, entries, handlers).Ok? ==> Registered(SelectedRules(entries), handlers)
    decreases |entries|
  {
    if entries != [] {
      if RuleOf(entries[0], handlers).Ok? {
        RulesFromRegistered(rules + SelectedOf(entries[0]), entries[1..], handlers);
        RegisteredStep(rules, entries, handlers);
      } else {
        RulesFromFail(rules, entries, handlers);
      }
    }
  }

  lemma RegisteredStep(rules: seq<Rule>, entries: seq<Value>, handlers: set<string>)
    requires entries != [] && RuleOf(entries[0], handlers).Ok?
    requires RulesFrom(rules + SelectedOf(entries[0]), entries[1..], handlers).Ok? ==>
               Registered(SelectedRules(entries[1..]), handlers)
    ensures RulesFrom(rules, entries, handlers).Ok? ==> Registered(SelectedRules(entries), handlers)
  {
    RulesFromSelected(rules, entries, handlers);
    SelectedOfRegistered(entries[0], handlers);
    assert SelectedRules(entries) == SelectedOf(entries[0]) + SelectedRules(entries[1..]);
    if RulesFrom(rules, entries, handlers).Ok? {
      RegisteredAppend(SelectedOf(entries[0]), SelectedRules(entries[1..]), handlers);
    }
  }

  lemma SelectedOfRegistered(e: Value, handlers: set<string>)
    requires RuleOf(e, handlers).Ok?
    ensures Registered(SelectedOf(e), handlers)
  {
    RuleOfSelected(e, handlers);
  }

  lemma RegisteredAppend(a: seq<Rule>, b: seq<Rule>, handlers: set<string>)
    requires Registered(a, handlers) && Registered(b, handlers)
    ensures Registered(a + b, handlers)
  {
    forall k | 0 <= k < |a + b| ensures (a + b)[k].handler in handlers {
      if k >= |a| {
        assert (a + b)[k] == b[k - |a|];
      }
    }
  }

  /** What `load_rules()` returns when no entry fails: exactly the rules the entries of
      all sections call for, in order, each with a registered handler. */
  lemma LoadRulesSelected(all: Sections, handlers: set<string>)
    requires RulesFrom([], AllEntries(all), handlers).Ok?
    ensures RulesFrom([], AllEntries(all), handlers).value == SelectedRules(AllEntries(all))
    ensures Registered(SelectedRules(AllEntries(all)), handlers)
  {
    RulesFromCount([], AllEntries(all), handlers);
    RulesFromRegistered([], AllEntries(all), handlers);
  }

  /** `load_rules()`: the nested loops over the sections and their entries. */
  method LoadRules(all: Sections, handlers: set<string>) returns (r: Result<seq<Rule>>)
    ensures r == RulesFrom([], AllEntries(all), handlers)
  {
    var rules: seq<Rule> := [];
    var i := 0;
    while i < |all|
      invariant 0 <= i <= |all|
      invariant RulesFrom(rules, AllEntries(all[i..]), handlers) == RulesFrom([], AllEntries(all), handlers)
    {
      ghost var later := AllEntries(all[i + 1..]);
      assert all[i..][0] == all[i] && all[i..][1..] == all[i + 1..];
      var entries := all[i].1;
      assert AllEntries(all[i..]) == entries[0..] + later;
      var j := 0;
      while j < |entries|
        invariant 0 <= j <= |entries|
        invariant RulesFrom(rules, entries[j..] + later, handlers) == RulesFrom([], AllEntries(all), handlers)
      {
        ghost var rest := entries[j..] + later;
        SliceStep(entries, j, later);
        var rule := RuleOf(entries[j], handlers);
        if rule.Fail? {
          RulesFromFail(rules, rest, handlers);
          return Fail(rule.exc);
        }
        RulesFromOk(rules, rest, handlers);
        if rule.value.Some? {
          rules := rules + [rule.value.value];
        } else {
          assert rules + [] == rules;
        }
        j := j + 1;
      }
      SliceDone(entries, later);
      i := i + 1;
    }
    return Ok(rules);
  }
}
