/** The command loader: merging the core and plugin pattern lists, locating a plugin's
    pattern file, merging the handler requirements, and the `PatternRegistry` that maps a
    phrase to its canonical entry. Directory listings and parsed YAML documents are
    inputs; `re.match` is an oracle. */
module CommandLoader {
  import opened Basics
  import opened Text
  import opened OrderedDict
  import opened PyValue

  // ----- merge_yaml_lists -----

  /** `merged.extend(p)` for each plugin list in turn, starting from `acc`. */
  function MergeFrom(acc: seq<Value>, plugins: seq<Value>): Result<seq<Value>>
    decreases |plugins|
  {
    if plugins == [] then Ok(acc)
    else
      var items :- Iterate(plugins[0]);
      MergeFrom(acc + items, plugins[1..])
  }

  /** `merge_yaml_lists(core_list, plugin_lists)`. */
  function MergedLists(core: Value, plugins: seq<Value>): Result<seq<Value>> {
    var start :- Iterate(core);
    MergeFrom(start, plugins)
  }

  predicate AllLists(vs: seq<Value>) {
    forall i :: 0 <= i < |vs| ==> vs[i].VList?
  }

  function ConcatItems(vs: seq<Value>): seq<Value>
    requires AllLists(vs)
  {
    if vs == [] then [] else vs[0].items + ConcatItems(vs[1..])
  }

  /** On lists, the merge is the core list followed by each plugin list in order. */
  lemma {:induction false} MergeFromLists(acc: seq<Value>, plugins: seq<Value>)
    requires AllLists(plugins)
    ensures MergeFrom(acc, plugins) == Ok(acc + ConcatItems(plugins))
    decreases |plugins|
  {
    if plugins != [] {
      MergeFromLists(acc + plugins[0].items, plugins[1..]);
      assert acc + plugins[0].items + ConcatItems(plugins[1..]) == acc + ConcatItems(plugins);
    } else {
      assert acc + [] == acc;
    }
  }

  lemma MergedListsOfLists(core: seq<Value>, plugins: seq<Value>)
    requires AllLists(plugins)
    ensures MergedLists(VList(core), plugins) == Ok(core + ConcatItems(plugins))
  {
    MergeFromLists(core, plugins);
  }

  method MergeYamlLists(core: Value, pluginLists: seq<Value>) returns (r: Result<seq<Value>>)
    ensures r == MergedLists(core, pluginLists)
  {
    var start := Iterate(core);
    if start.Fail? {
      return Fail(start.exc);
    }
    var merged := start.value;
    var i := 0;
    while i < |pluginLists|
      invariant 0 <= i <= |pluginLists|
      invariant MergeFrom(merged, pluginLists[i..]) == MergedLists(core, pluginLists)
    {
      assert pluginLists[i..][0] == pluginLists[i] && pluginLists[i..][1..] == pluginLists[i + 1..];
      var items := Iterate(pluginLists[i]);
      if items.Fail? {
        return Fail(items.exc);
      }
      merged := merged + items.value;
      i := i + 1;
    }
    return Ok(merged);
  }

  // ----- find_plugin_yaml -----

  /** The first candidate present in the directory listing. */
  function FirstExisting(candidates: seq<string>, listing: seq<string>): (r: Option<string>)
    ensures r.Some? ==> r.value in candidates && r.value in listing
    ensures r.None? <==> forall i :: 0 <= i < |candidates| ==> candidates[i] !in listing
  {
    if candidates == [] then None
    else if candidates[0] in listing then Some(candidates[0])
    else
      var r := FirstExisting(candidates[1..], listing);
      assert forall i :: 1 <= i < |candidates| ==> candidates[i] == candidates[1..][i - 1];
      r
  }

  /** A listed file that the last step of `find_plugin_yaml` accepts. */
  predicate KindFile(fname: string, kind: string) {
    EndsWith(fname, ".yml") && Contains(fname, kind)
  }

  function KindFiles(listing: seq<string>, kind: string): (r: seq<string>)
    ensures forall f :: f in r <==> f in listing && KindFile(f, kind)
  {
    if listing == [] then []
    else (if KindFile(listing[0], kind) then [listing[0]] else []) + KindFiles(listing[1..], kind)
  }

  function PluginYamlCandidates(plugin: string, kind: string, config: Option<seq<string>>): seq<string> {
    ["patterns_" + kind + ".yml", "patterns_" + plugin + ".yml"]
    + (if config.Some? then KindFiles(config.value, kind) else [])
  }

  /** `find_plugin_yaml(plugin, kind)`, with the `config` directory's listing (`None` when
      it does not exist); the result is the file name found in that directory. */
  function FindPluginYaml(plugin: string, kind: string, config: Option<seq<string>>): Option<string> {
    if config.None? then None
    else FirstExisting(PluginYamlCandidates(plugin, kind, config), config.value)
  }

  /** `patterns_{kind}.yml` wins, then `patterns_{plugin}.yml`, then the first listed
      `.yml` whose name contains the kind; with none of these there is no file. */
  lemma FindPluginYamlOrder(plugin: string, kind: string, listing: seq<string>)
    ensures var r := FindPluginYaml(plugin, kind, Some(listing));
      var first := "patterns_" + kind + ".yml";
      var second := "patterns_" + plugin + ".yml";
      && (first in listing ==> r == Some(first))
      && (first !in listing && second in listing ==> r == Some(second))
      && (first !in listing && second !in listing ==>
            r == FirstExisting(KindFiles(listing, kind), listing))
      && (r.None? <==> first !in listing && second !in listing
                       && forall f :: f in listing ==> !KindFile(f, kind))
  {
    var first := "patterns_" + kind + ".yml";
    var second := "patterns_" + plugin + ".yml";
    var cands := PluginYamlCandidates(plugin, kind, Some(listing));
    var kf := KindFiles(listing, kind);
    assert cands == [first, second] + kf;
    assert cands[0] == first && cands[1..] == [second] + kf && ([second] + kf)[1..] == kf;
    if first !in listing {
      assert FirstExisting(cands, listing) == FirstExisting([second] + kf, listing);
      if second !in listing {
        assert FirstExisting([second] + kf, listing) == FirstExisting(kf, listing);
        if kf != [] {
          assert kf[0] in listing;
        }
        if exists f :: f in listing && KindFile(f, kind) {
          var f :| f in listing && KindFile(f, kind);
          assert f in kf;
        }
      }
    }
  }

  /** `find_handler_requirements_yaml`: `.yml` before `.yaml`. */
  function FindHandlerRequirementsYaml(config: Option<seq<string>>): Option<string> {
    if config.None? then None
    else FirstExisting(["handler_requirements.yml", "handler_requirements.yaml"], config.value)
  }

  // ----- load_and_merge_handler_requirements -----

  /** `requirements.update(reqs)` for a loaded document, skipped when it is falsy (no
      file, or an empty document). */
  function AddRequirements(acc: ODict<string, Value>, doc: Value): (r: Result<ODict<string, Value>>)
    ensures !Truthy(doc) ==> r == Ok(acc)
    ensures doc.VDict? ==> r == Ok(Update(acc, doc.entries))
    ensures doc.VStr? && doc.s != "" ==>
              r == Fail(PairLengthError(0, 1))
    ensures (doc.VBool? || doc.VInt?) && Truthy(doc) ==>
              r == Fail(TypeError("'" + TypeName(doc) + "' object is not iterable"))
  {
    if !Truthy(doc) then Ok(acc)
    else
      DictUpdateString(acc, if doc.VStr? then doc.s else "");
      DictUpdate(acc, doc)
  }

  /** The requirements after applying `docs` in order: the core document first, then every
      plugin's in enumeration order. */
  function RequirementsFrom(acc: ODict<string, Value>, docs: seq<Value>): Result<ODict<string, Value>>
    decreases |docs|
  {
    if docs == [] then Ok(acc)
    else
      var next :- AddRequirements(acc, docs[0]);
      RequirementsFrom(next, docs[1..])
  }

  method LoadAndMergeHandlerRequirements(docs: seq<Value>) returns (r: Result<ODict<string, Value>>)
    ensures r == RequirementsFrom([], docs)
  {
    var requirements: ODict<string, Value> := [];
    var i := 0;
    while i < |docs|
      invariant 0 <= i <= |docs|
      invariant RequirementsFrom(requirements, docs[i..]) == RequirementsFrom([], docs)
    {
      assert docs[i..][0] == docs[i] && docs[i..][1..] == docs[i + 1..];
      if Truthy(docs[i]) {
        var updated := DictUpdate(requirements, docs[i]);
        if updated.Fail? {
          return Fail(updated.exc);
        }
        requirements := updated.value;
      }
      i := i + 1;
    }
    return Ok(requirements);
  }

  /** A requirements document: a mapping with distinct keys, or nothing. */
  predicate ReqDoc(doc: Value) {
    !Truthy(doc) || (doc.VDict? && Valid(doc.entries))
  }

  /** The value of `k` in the last document that defines it. */
  function LastDefinition(docs: seq<Value>, k: string): Option<Value>
    requires forall i :: 0 <= i < |docs| ==> ReqDoc(docs[i])
  {
    if docs == [] then None
    else
      var last := docs[|docs| - 1];
      if last.VDict? && HasKey(last.entries, k) then Get(last.entries, k)
      else LastDefinition(docs[..|docs| - 1], k)
  }

  lemma {:induction false} RequirementsSnoc(acc: ODict<string, Value>, docs: seq<Value>, doc: Value)
    ensures RequirementsFrom(acc, docs + [doc])
         == (var r :- RequirementsFrom(acc, docs); AddRequirements(r, doc))
    decreases |docs|
  {
    if docs == [] {
      assert docs + [doc] == [doc];
    } else {
      assert (docs + [doc])[0] == docs[0] && (docs + [doc])[1..] == docs[1..] + [doc];
      var next := AddRequirements(acc, docs[0]);
      if next.Ok? {
        RequirementsSnoc(next.value, docs[1..], doc);
      }
    }
  }

  /** Later documents override earlier keys: each key holds its value from the last
      document that defines it (plugins after core), and no merge fails. */
  lemma {:induction false} LaterOverrides(docs: seq<Value>, k: string)
    requires forall i :: 0 <= i < |docs| ==> ReqDoc(docs[i])
    ensures RequirementsFrom([], docs).Ok?
    ensures Get(RequirementsFrom([], docs).value, k) == LastDefinition(docs, k)
    decreases |docs|
  {
    if docs != [] {
      var init := docs[..|docs| - 1];
      var last := docs[|docs| - 1];
      assert docs == init + [last];
      LaterOverrides(init, k);
      OverrideStep(init, last, k);
    }
  }

  /** One more document: its keys override, the others keep their last definition. */
  lemma OverrideStep(init: seq<Value>, last: Value, k: string)
    requires forall i :: 0 <= i < |init| ==> ReqDoc(init[i])
    requires ReqDoc(last)
    requires RequirementsFrom([], init).Ok?
    requires Get(RequirementsFrom([], init).value, k) == LastDefinition(init, k)
    ensures RequirementsFrom([], init + [last]).Ok?
    ensures Get(RequirementsFrom([], init + [last]).value, k) == LastDefinition(init + [last], k)
  {
    var docs := init + [last];
    assert docs[..|docs| - 1] == init && docs[|docs| - 1] == last;
    RequirementsSnoc([], init, last);
    if Truthy(last) {
      GetUpdate(RequirementsFrom([], init).value, last.entries, k);
    }
  }

  // ----- PatternRegistry -----

  /** `_normalize(phrase)`: a mapping stands for its `pattern` (or `phrase`); `None` is
      the empty string; a string is lower-cased and stripped; nothing else has `lower`. */
  function Normalize(v: Value): (r: Result<string>)
    ensures v == VNone ==> r == Ok("")
    ensures v.VStr? ==> r == Ok(Strip(Lower(v.s)))
    ensures r.Ok? ==> IsStripped(r.value)
  {
    var p := if v.VDict? then Or(DictGet(v.entries, "pattern"), DictGet(v.entries, "phrase")) else v;
    match p
    case VNone => Ok("")
    case VStr(s) => Ok(Strip(Lower(s)))
    case _ => Fail(NoAttribute(p, "lower"))
  }

  /** The characters whose presence makes an alias a regular expression. */
  const RegexChars: string := ".*+?^$[](){}|\\"

  /** `any(c in alias for c in RegexChars)`: stops at the first hit; a value that does
      not support `in` raises at the first test. */
  function AnyIn(alias: Value, cs: string): Result<bool>
    decreases |cs|
  {
    if cs == [] then Ok(false)
    else
      var hit :- PyContains(alias, VStr([cs[0]]));
      if hit then Ok(true) else AnyIn(alias, cs[1..])
  }

  function IsRegex(alias: Value): Result<bool> {
    AnyIn(alias, RegexChars)
  }

  lemma {:induction false} AnyInString(s: string, cs: string)
    ensures AnyIn(VStr(s), cs) == Ok(exists i :: 0 <= i < |cs| && HasChar(s, cs[i]))
    decreases |cs|
  {
    if cs != [] {
      AnyInString(s, cs[1..]);
      ContainsOne(s, cs[0]);
      assert forall i :: 1 <= i < |cs| ==> cs[i] == cs[1..][i - 1];
    }
  }

  /** A string alias is a regular expression exactly when it contains one of
      `.*+?^$[](){}|\`. */
  lemma IsRegexString(s: string)
    ensures IsRegex(VStr(s)) == Ok(exists c :: c in RegexChars && HasChar(s, c))
  {
    AnyInString(s, RegexChars);
  }

  /** A `canonicals` record. */
  datatype Canon = Canon(phrase: Value, handler: Value, scope: Value)

  /** What `_load_patterns` returns. */
  datatype Table = Table(
    canonicals: ODict<string, Canon>,
    aliasMap: ODict<string, Value>,
    regexAliases: seq<(Value, Value)>)

  /** One alias of an entry whose canonical phrase is `phrase`. */
  function AddAlias(t: Table, alias: Value, phrase: Value): Result<Table> {
    var aliasStr := if alias.VDict? then DictGet(alias.entries, "pattern") else alias;
    if !Truthy(aliasStr) then Ok(t)
    else
      var n :- Normalize(aliasStr);
      var isRe :- IsRegex(aliasStr);
      Ok(t.(aliasMap := Set(t.aliasMap, n, phrase),
            regexAliases := if isRe then t.regexAliases + [(aliasStr, phrase)] else t.regexAliases))
  }

  function AddAliases(t: Table, aliases: seq<Value>, phrase: Value): Result<Table>
    decreases |aliases|
  {
    if aliases == [] then Ok(t)
    else
      var t' :- AddAlias(t, aliases[0], phrase);
      AddAliases(t', aliases[1..], phrase)
  }

  /** One entry of `_load_patterns`' loop: an entry without `phrase`/`pattern` is skipped;
      otherwise its canonical record is stored (the scope defaulting to "global" when the
      key is absent) and its aliases follow. */
  function AddEntry(t: Table, entry: Value): (r: Result<Table>)
    ensures entry.VDict? && !Truthy(Or(DictGet(entry.entries, "phrase"), DictGet(entry.entries, "pattern")))
            ==> r == Ok(t)
  {
    if !entry.VDict? then Fail(NoAttribute(entry, "get"))
    else
      var e := entry.entries;
      var phrase := Or(DictGet(e, "phrase"), DictGet(e, "pattern"));
      if !Truthy(phrase) then Ok(t)
      else
        var scope := GetOr(e, "scope", VStr("global"));
        var n :- Normalize(phrase);
        var t1 := t.(canonicals := Set(t.canonicals, n, Canon(phrase, DictGet(e, "handler"), scope)));
        var aliases :- Iterate(GetOr(e, "aliases", VList([])));
        AddAliases(t1, aliases, phrase)
  }

  function LoadFrom(t: Table, data: seq<Value>): Result<Table>
    decreases |data|
  {
    if data == [] then Ok(t)
    else
      var t' :- AddEntry(t, data[0]);
      LoadFrom(t', data[1..])
  }

  const EmptyTable := Table([], [], [])

  /** `_load_patterns(data)`: the loop over the entries and their aliases. */
  method LoadPatterns(data: seq<Value>) returns (r: Result<Table>)
    ensures r == LoadFrom(EmptyTable, data)
  {
    var t := EmptyTable;
    var i := 0;
    while i < |data|
      invariant 0 <= i <= |data|
      invariant LoadFrom(t, data[i..]) == LoadFrom(EmptyTable, data)
    {
      assert data[i..][0] == data[i] && data[i..][1..] == data[i + 1..];
      var entry := data[i];
      if !entry.VDict? {
        return Fail(NoAttribute(entry, "get"));
      }
      var e := entry.entries;
      var phrase := Or(DictGet(e, "phrase"), DictGet(e, "pattern"));
      if Truthy(phrase) {
        var scope := GetOr(e, "scope", VStr("global"));
        var n := Normalize(phrase);
        if n.Fail? {
          return Fail(n.exc);
        }
        t := t.(canonicals := Set(t.canonicals, n.value, Canon(phrase, DictGet(e, "handler"), scope)));
        var aliases := Iterate(GetOr(e, "aliases", VList([])));
        if aliases.Fail? {
          return Fail(aliases.exc);
        }
        var j := 0;
        ghost var t1 := t;
        while j < |aliases.value|
          invariant 0 <= j <= |aliases.value|
          invariant AddAliases(t, aliases.value[j..], phrase) == AddAliases(t1, aliases.value, phrase)
        {
          var alias := aliases.value[j];
          assert aliases.value[j..][0] == alias && aliases.value[j..][1..] == aliases.value[j + 1..];
          var next := AddAlias(t, alias, phrase);
          if next.Fail? {
            return Fail(next.exc);
          }
          t := next.value;
          j := j + 1;
        }
      }
      i := i + 1;
    }
    return Ok(t);
  }

  /** A canonical phrase that the table can look up. */
  predicate Resolves(canonicals: ODict<string, Canon>, canonical: Value) {
    Normalize(canonical).Ok? && HasKey(canonicals, Normalize(canonical).value)
  }

  /** Every alias, plain or regular, leads to a stored canonical record. */
  predicate Closed(t: Table) {
    (forall p :: p in t.aliasMap ==> Resolves(t.canonicals, p.1))
    && (forall p :: p in t.regexAliases ==> Resolves(t.canonicals, p.1))
  }

  /** A pair of `Set(d, k, v)` is `(k, v)` or a pair of `d`. */
  lemma {:induction false} SetMembers<K, V>(d: ODict<K, V>, k: K, v: V, p: (K, V))
    requires p in Set(d, k, v)
    ensures p == (k, v) || p in d
  {
    if d != [] && d[0].0 != k {
      if p != d[0] {
        assert p in Set(d[1..], k, v);
        SetMembers(d[1..], k, v, p);
      }
    } else if d != [] {
      if p != (k, v) {
        assert p in d[1..];
      }
    }
  }

  lemma AddAliasClosed(t: Table, alias: Value, phrase: Value)
    requires Closed(t) && Resolves(t.canonicals, phrase)
    ensures AddAlias(t, alias, phrase).Ok? ==>
      Closed(AddAlias(t, alias, phrase).value)
      && AddAlias(t, alias, phrase).value.canonicals == t.canonicals
  {
    var aliasStr := if alias.VDict? then DictGet(alias.entries, "pattern") else alias;
    if Truthy(aliasStr) && Normalize(aliasStr).Ok? && IsRegex(aliasStr).Ok? {
      var n := Normalize(aliasStr).value;
      var m := Set(t.aliasMap, n, phrase);
      var rs := if IsRegex(aliasStr).value then t.regexAliases + [(aliasStr, phrase)] else t.regexAliases;
      assert AddAlias(t, alias, phrase) == Ok(t.(aliasMap := m, regexAliases := rs));
      AliasEntriesClosed(t, n, aliasStr, phrase, IsRegex(aliasStr).value);
    }
  }

  /** Registering one alias of a phrase that resolves keeps the table closed. */
  lemma AliasEntriesClosed(t: Table, n: string, aliasStr: Value, phrase: Value, isRe: bool)
    requires Closed(t) && Resolves(t.canonicals, phrase)
    ensures Closed(t.(aliasMap := Set(t.aliasMap, n, phrase),
                      regexAliases := if isRe then t.regexAliases + [(aliasStr, phrase)] else t.regexAliases))
  {
    var m := Set(t.aliasMap, n, phrase);
    forall p | p in m ensures Resolves(t.canonicals, p.1) {
      SetMembers(t.aliasMap, n, phrase, p);
    }
    var rs := if isRe then t.regexAliases + [(aliasStr, phrase)] else t.regexAliases;
    forall p | p in rs ensures Resolves(t.canonicals, p.1) {
      if p !in t.regexAliases {
        assert p == (aliasStr, phrase);
      }
    }
  }

  lemma {:induction false} AddAliasesClosed(t: Table, aliases: seq<Value>, phrase: Value)
    requires Closed(t) && Resolves(t.canonicals, phrase)
    ensures AddAliases(t, aliases, phrase).Ok? ==>
      Closed(AddAliases(t, aliases, phrase).value)
      && AddAliases(t, aliases, phrase).value.canonicals == t.canonicals
    decreases |aliases|
  {
    if aliases != [] {
      AddAliasClosed(t, aliases[0], phrase);
      var n := AddAlias(t, aliases[0], phrase);
      if n.Ok? {
        AddAliasesClosed(n.value, aliases[1..], phrase);
      }
    }
  }

  /** After one entry the table is still closed. */
  lemma AddEntryClosed(t: Table, entry: Value)
    requires Closed(t)
    ensures AddEntry(t, entry).Ok? ==> Closed(AddEntry(t, entry).value)
  {
    if entry.VDict? {
      var e := entry.entries;
      var phrase := Or(DictGet(e, "phrase"), DictGet(e, "pattern"));
      if Truthy(phrase) && Normalize(phrase).Ok? {
        var n := Normalize(phrase).value;
        var t1 := t.(canonicals := Set(t.canonicals, n, Canon(phrase, DictGet(e, "handler"), GetOr(e, "scope", VStr("global")))));
        assert forall k :: HasKey(t.canonicals, k) ==> HasKey(t1.canonicals, k);
        assert Closed(t1) && Resolves(t1.canonicals, phrase);
        var aliases := Iterate(GetOr(e, "aliases", VList([])));
        if aliases.Ok? {
          AddAliasesClosed(t1, aliases.value, phrase);
        }
      }
    }
  }

  /** Aliases never touch the canonical records. */
  lemma {:induction false} AddAliasesKeep(t: Table, aliases: seq<Value>, phrase: Value)
    ensures AddAliases(t, aliases, phrase).Ok? ==> AddAliases(t, aliases, phrase).value.canonicals == t.canonicals
    decreases |aliases|
  {
    if aliases != [] {
      var n := AddAlias(t, aliases[0], phrase);
      if n.Ok? {
        AddAliasesKeep(n.value, aliases[1..], phrase);
      }
    }
  }

  /** An entry with a phrase (or a pattern) is stored under its normalized phrase with its
      handler and its scope, "global" when the entry names none. */
  lemma AddEntryStored(t: Table, entry: Value)
    requires entry.VDict? && Truthy(Or(DictGet(entry.entries, "phrase"), DictGet(entry.entries, "pattern")))
    requires AddEntry(t, entry).Ok?
    ensures var e := entry.entries;
            var phrase := Or(DictGet(e, "phrase"), DictGet(e, "pattern"));
            Normalize(phrase).Ok?
            && Get(AddEntry(t, entry).value.canonicals, Normalize(phrase).value)
               == Some(Canon(phrase, DictGet(e, "handler"), GetOr(e, "scope", VStr("global"))))
  {
    var e := entry.entries;
    var phrase := Or(DictGet(e, "phrase"), DictGet(e, "pattern"));
    var n := Normalize(phrase).value;
    var c := Canon(phrase, DictGet(e, "handler"), GetOr(e, "scope", VStr("global")));
    var t1 := t.(canonicals := Set(t.canonicals, n, c));
    var aliases := Iterate(GetOr(e, "aliases", VList([]))).value;
    AddAliasesKeep(t1, aliases, phrase);
    GetSetSame(t.canonicals, n, c);
  }

  /** Every table `_load_patterns` builds is closed. */
  lemma {:induction false} LoadFromClosed(t: Table, data: seq<Value>)
    requires Closed(t)
    ensures LoadFrom(t, data).Ok? ==> Closed(LoadFrom(t, data).value)
    decreases |data|
  {
    if data != [] {
      AddEntryClosed(t, data[0]);
      var n := AddEntry(t, data[0]);
      if n.Ok? {
        LoadFromClosed(n.value, data[1..]);
      }
    }
  }

  /** What `re.match(regex, phrase)` does: a match, no match, a `re.error` (caught), or
      another exception (which propagates). */
  datatype MatchOutcome = Matched | NotMatched | ReError | Raised(exc: Exc)

  /** `canonicals[_normalize(canonical)]`. */
  function LookupCanon(t: Table, canonical: Value): (r: Result<Canon>)
    ensures Resolves(t.canonicals, canonical) ==> r == Ok(Get(t.canonicals, Normalize(canonical).value).value)
  {
    var n :- Normalize(canonical);
    match Get(t.canonicals, n)
    case Some(c) => Ok(c)
    case None => Fail(KeyError(n))
  }

  /** The regex aliases tried in order; the first that matches decides. */
  function RegexLookup(t: Table, rs: seq<(Value, Value)>, phrase: Value,
                       reMatch: (Value, Value) -> MatchOutcome): Result<Option<Canon>>
    decreases |rs|
  {
    if rs == [] then Ok(None)
    else
      match reMatch(rs[0].0, phrase)
      case Matched => var c :- LookupCanon(t, rs[0].1); Ok(Some(c))
      case Raised(e) => Fail(e)
      case _ => RegexLookup(t, rs[1..], phrase, reMatch)
  }

  /** The lookup `canonize_action` and `canonize_validation` share: the exact canonical
      first, then the alias map, then the regex aliases in order, else nothing. */
  function Canonize(t: Table, phrase: Value, reMatch: (Value, Value) -> MatchOutcome)
    : (r: Result<Option<Canon>>)
    ensures Normalize(phrase).Ok? && HasKey(t.canonicals, Normalize(phrase).value) ==>
      r == Ok(Get(t.canonicals, Normalize(phrase).value))
    ensures Normalize(phrase).Ok? && !HasKey(t.canonicals, Normalize(phrase).value)
            && HasKey(t.aliasMap, Normalize(phrase).value) ==>
      r == (var c :- LookupCanon(t, Get(t.aliasMap, Normalize(phrase).value).value); Ok(Some(c)))
    ensures Normalize(phrase).Ok? && !HasKey(t.canonicals, Normalize(phrase).value)
            && !HasKey(t.aliasMap, Normalize(phrase).value) ==>
      r == RegexLookup(t, t.regexAliases, phrase, reMatch)
  {
    var norm :- Normalize(phrase);
    if HasKey(t.canonicals, norm) then Ok(Get(t.canonicals, norm))
    else if HasKey(t.aliasMap, norm) then
      var c :- LookupCanon(t, Get(t.aliasMap, norm).value);
      Ok(Some(c))
    else RegexLookup(t, t.regexAliases, phrase, reMatch)
  }

  /** When no regex alias matches (a `re.error` counts as no match), the result is None. */
  lemma {:induction false} RegexLookupNone(t: Table, rs: seq<(Value, Value)>, phrase: Value,
                                           reMatch: (Value, Value) -> MatchOutcome)
    requires forall i :: 0 <= i < |rs| ==> reMatch(rs[i].0, phrase) in {NotMatched, ReError}
    ensures RegexLookup(t, rs, phrase, reMatch) == Ok(None)
    decreases |rs|
  {
    if rs != [] {
      assert reMatch(rs[0].0, phrase) in {NotMatched, ReError};
      assert forall i :: 1 <= i < |rs| ==> rs[i] == rs[1..][i - 1];
      RegexLookupNone(t, rs[1..], phrase, reMatch);
    }
  }

  /** On a closed table the alias lookups never raise KeyError: only `_normalize` on the
      phrase and the regex engine can raise. */
  lemma {:induction false} RegexLookupClosed(t: Table, rs: seq<(Value, Value)>, phrase: Value,
                                             reMatch: (Value, Value) -> MatchOutcome)
    requires forall p :: p in rs ==> Resolves(t.canonicals, p.1)
    ensures RegexLookup(t, rs, phrase, reMatch).Fail? ==>
      exists i :: 0 <= i < |rs| && reMatch(rs[i].0, phrase) == Raised(RegexLookup(t, rs, phrase, reMatch).exc)
    decreases |rs|
  {
    if rs != [] {
      var m := reMatch(rs[0].0, phrase);
      var r := RegexLookup(t, rs, phrase, reMatch);
      if m.Matched? {
        assert rs[0] in rs;
        assert r.Ok?;
      } else if m.Raised? {
        assert r == Fail(m.exc);
      } else {
        var tail := rs[1..];
        assert r == RegexLookup(t, tail, phrase, reMatch);
        assert forall p :: p in tail ==> p in rs;
        RegexLookupClosed(t, tail, phrase, reMatch);
        if r.Fail? {
          var i :| 0 <= i < |tail| && reMatch(tail[i].0, phrase) == Raised(r.exc);
          assert rs[i + 1] == tail[i];
        }
      }
    }
  }

  lemma CanonizeClosed(t: Table, phrase: Value, reMatch: (Value, Value) -> MatchOutcome)
    requires Closed(t) && Normalize(phrase).Ok?
    ensures Canonize(t, phrase, reMatch).Fail? ==>
      exists i :: 0 <= i < |t.regexAliases|
        && reMatch(t.regexAliases[i].0, phrase) == Raised(Canonize(t, phrase, reMatch).exc)
  {
    var norm := Normalize(phrase).value;
    if !HasKey(t.canonicals, norm) && HasKey(t.aliasMap, norm) {
      var v := Get(t.aliasMap, norm).value;
      var i :| 0 <= i < |t.aliasMap| && t.aliasMap[i] == (norm, v);
      assert t.aliasMap[i] in t.aliasMap;
    }
    RegexLookupClosed(t, t.regexAliases, phrase, reMatch);
  }

  /** `canonize_action(phrase)`: the canonical phrase and its handler. */
  function CanonizeAction(t: Table, phrase: Value, reMatch: (Value, Value) -> MatchOutcome)
    : Result<Option<(Value, Value)>>
  {
    var c :- Canonize(t, phrase, reMatch);
    Ok(if c.Some? then Some((c.value.phrase, c.value.handler)) else None)
  }

  /** `canonize_validation(phrase)`: also the scope stored with the canonical record. */
  function CanonizeValidation(t: Table, phrase: Value, reMatch: (Value, Value) -> MatchOutcome)
    : Result<Option<(Value, Value, Value)>>
  {
    var c :- Canonize(t, phrase, reMatch);
    Ok(if c.Some? then Some((c.value.phrase, c.value.handler, c.value.scope)) else None)
  }

  /** `PatternRegistry(actions_list, validations_list)`. */
  datatype PatternRegistry = PatternRegistry(actions: Table, validations: Table)

  function NewPatternRegistry(actionsList: seq<Value>, validationsList: seq<Value>)
    : (r: Result<PatternRegistry>)
    ensures r.Ok? ==> Closed(r.value.actions) && Closed(r.value.validations)
  {
    LoadFromClosed(EmptyTable, actionsList);
    LoadFromClosed(EmptyTable, validationsList);
    var a :- LoadFrom(EmptyTable, actionsList);
    var v :- LoadFrom(EmptyTable, validationsList);
    Ok(PatternRegistry(a, v))
  }
}
