/** The plugin system: plugins that add a grammar, an AST builder or a matcher, and the
    `PluginRegistry` that keeps them by name and installs them into a host's registries. */
module Plugins {
  import opened Basics
  import opened OrderedDict
  import Grammar
  import Matchers

  /** What a plugin adds: nothing (the base class), a grammar class, a builder class or a
      matcher object. */
  datatype PluginKind =
    | BasePlugin
    | GrammarPlugin(grammarClass: Grammar.ClassRef)
    | AstBuilderPlugin(builderClass: Grammar.ClassRef)
    | MatcherPlugin(matcher: Matchers.Matcher)

  /** A plugin: name, version (`"1.0.0"` by default) and kind. */
  datatype Plugin = Plugin(name: string, version: string, kind: PluginKind)

  const DefaultVersion: string := "1.0.0"

  /** The registries a plugin installs into: the `registry` argument of `install`. */
  class Host {
    const grammarRegistry: Grammar.Registry
    const astBuilderRegistry: Grammar.Registry
    const matcherRegistry: Matchers.MatcherRegistry

    constructor (g: Grammar.Registry, a: Grammar.Registry, m: Matchers.MatcherRegistry)
      ensures grammarRegistry == g && astBuilderRegistry == a && matcherRegistry == m
    {
      grammarRegistry := g;
      astBuilderRegistry := a;
      matcherRegistry := m;
    }

    /** Three separate registries, each well formed. */
    predicate Valid()
      reads this, grammarRegistry, astBuilderRegistry
    {
      grammarRegistry != astBuilderRegistry && grammarRegistry.Valid() && astBuilderRegistry.Valid()
    }
  }

  /** The `KeyError` of `install` and `uninstall`. */
  function NotFound(name: string): Exc {
    KeyError("Plugin '" + name + "' not found")
  }

  class PluginRegistry {
    var plugins: ODict<string, Plugin>

    /** A table with distinct names, each plugin stored under its own name. */
    ghost predicate Valid()
      reads this
    {
      OrderedDict.Valid(plugins)
      && forall n :: OrderedDict.Get(plugins, n).Some? ==> OrderedDict.Get(plugins, n).value.name == n
    }

    constructor ()
      ensures plugins == [] && Valid()
    {
      plugins := [];
    }

    /** `register`: stored under its name; the same name again replaces the entry in place. */
    method Register(plugin: Plugin)
      requires Valid()
      modifies this
      ensures Valid() && plugins == Set(old(plugins), plugin.name, plugin)
      ensures Get(plugin.name) == Some(plugin)
      ensures List() == if HasKey(old(plugins), plugin.name) then old(List()) else old(List()) + [plugin.name]
    {
      SetValid(plugins, plugin.name, plugin);
      GetSetSame(plugins, plugin.name, plugin);
      forall n | n != plugin.name
        ensures OrderedDict.Get(Set(plugins, plugin.name, plugin), n) == OrderedDict.Get(plugins, n)
      {
        GetSetOther(plugins, plugin.name, plugin, n);
      }
      plugins := Set(plugins, plugin.name, plugin);
    }

    /** `unregister`: removed when present, nothing happens otherwise. */
    method Unregister(name: string)
      requires Valid()
      modifies this
      ensures Valid() && Get(name) == None
      ensures !HasKey(old(plugins), name) ==> plugins == old(plugins)
      ensures forall n :: n != name ==> Get(n) == old(Get(n))
    {
      if HasKey(plugins, name) {
        RemoveValid(plugins, name);
        forall n | n != name ensures OrderedDict.Get(Remove(plugins, name), n) == OrderedDict.Get(plugins, n) {
          GetRemoveOther(plugins, name, n);
        }
        plugins := Remove(plugins, name);
      }
    }

    /** `get`: `None` for an absent name. */
    function Get(name: string): (r: Option<Plugin>)
      reads this
      ensures r.None? <==> !HasKey(plugins, name)
    {
      OrderedDict.Get(plugins, name)
    }

    /** `list`: exactly the registered names. */
    function List(): (names: seq<string>)
      reads this
      ensures forall n :: n in names <==> HasKey(plugins, n)
    {
      Keys(plugins)
    }

    /** `install(name, registry)`: an unknown name raises `KeyError`; the base class raises
        `NotImplementedError`; the others register their class or matcher in the host. */
    method Install(name: string, host: Host) returns (o: Outcome)
      requires Valid() && host.Valid()
      modifies host.grammarRegistry, host.astBuilderRegistry, host.matcherRegistry
      ensures host.Valid()
      ensures !HasKey(plugins, name) ==> o == Raise(NotFound(name))
      ensures !HasKey(plugins, name) || Get(name).value.kind.BasePlugin? ==>
                unchanged(host.grammarRegistry, host.astBuilderRegistry, host.matcherRegistry)
      ensures Get(name).Some? && Get(name).value.kind.BasePlugin? ==>
                o == Raise(NotImplementedError("Subclasses must implement install()"))
      ensures Get(name).Some? && Get(name).value.kind.GrammarPlugin? ==>
                var cls := Get(name).value.kind.grammarClass;
                unchanged(host.astBuilderRegistry, host.matcherRegistry)
                && host.grammarRegistry.defaultName == old(host.grammarRegistry.defaultName)
                && (cls.conforms ==> (o == Pass
                      && host.grammarRegistry.entries == Set(old(host.grammarRegistry.entries), name, cls)
                      && host.grammarRegistry.Get(name) == Ok(cls)))
                && (!cls.conforms ==> (host.grammarRegistry.entries == old(host.grammarRegistry.entries)
                      && o == Raise(ValueError(host.grammarRegistry.noun + " class must inherit from " + host.grammarRegistry.base))))
      ensures Get(name).Some? && Get(name).value.kind.AstBuilderPlugin? ==>
                var cls := Get(name).value.kind.builderClass;
                unchanged(host.grammarRegistry, host.matcherRegistry)
                && host.astBuilderRegistry.defaultName == old(host.astBuilderRegistry.defaultName)
                && (cls.conforms ==> (o == Pass
                      && host.astBuilderRegistry.entries == Set(old(host.astBuilderRegistry.entries), name, cls)
                      && host.astBuilderRegistry.Get(name) == Ok(cls)))
                && (!cls.conforms ==> (host.astBuilderRegistry.entries == old(host.astBuilderRegistry.entries)
                      && o == Raise(ValueError(host.astBuilderRegistry.noun + " class must inherit from " + host.astBuilderRegistry.base))))
      ensures Get(name).Some? && Get(name).value.kind.MatcherPlugin? ==>
                var m := Get(name).value.kind.matcher;
                unchanged(host.grammarRegistry, host.astBuilderRegistry)
                && host.matcherRegistry.matchers == Set(old(host.matcherRegistry.matchers), Matchers.KeyOf(m), m)
                && host.matcherRegistry.Get(Matchers.KeyOf(m)) == Some(m) && o == Pass
    {
      var found := Get(name);
      if found.None? {
        return Raise(NotFound(name));
      }
      assert found.value.name == name;
      o := InstallPlugin(found.value, host);
    }

    /** The `install` of the plugin's own class, run on the host: the registry of its kind
        gets the entry, the other two stay as they are. */
    static method InstallPlugin(plugin: Plugin, host: Host) returns (o: Outcome)
      requires host.Valid()
      modifies host.grammarRegistry, host.astBuilderRegistry, host.matcherRegistry
      ensures host.Valid()
      ensures plugin.kind.BasePlugin? ==>
                unchanged(host.grammarRegistry, host.astBuilderRegistry, host.matcherRegistry)
                && o == Raise(NotImplementedError("Subclasses must implement install()"))
      ensures plugin.kind.GrammarPlugin? ==>
                var cls := plugin.kind.grammarClass;
                unchanged(host.astBuilderRegistry, host.matcherRegistry)
                && host.grammarRegistry.defaultName == old(host.grammarRegistry.defaultName)
                && (cls.conforms ==> (o == Pass
                      && host.grammarRegistry.entries == Set(old(host.grammarRegistry.entries), plugin.name, cls)
                      && host.grammarRegistry.Get(plugin.name) == Ok(cls)))
                && (!cls.conforms ==> (host.grammarRegistry.entries == old(host.grammarRegistry.entries)
                      && o == Raise(ValueError(host.grammarRegistry.noun + " class must inherit from " + host.grammarRegistry.base))))
      ensures plugin.kind.AstBuilderPlugin? ==>
                var cls := plugin.kind.builderClass;
                unchanged(host.grammarRegistry, host.matcherRegistry)
                && host.astBuilderRegistry.defaultName == old(host.astBuilderRegistry.defaultName)
                && (cls.conforms ==> (o == Pass
                      && host.astBuilderRegistry.entries == Set(old(host.astBuilderRegistry.entries), plugin.name, cls)
                      && host.astBuilderRegistry.Get(plugin.name) == Ok(cls)))
                && (!cls.conforms ==> (host.astBuilderRegistry.entries == old(host.astBuilderRegistry.entries)
                      && o == Raise(ValueError(host.astBuilderRegistry.noun + " class must inherit from " + host.astBuilderRegistry.base))))
      ensures plugin.kind.MatcherPlugin? ==>
                var m := plugin.kind.matcher;
                unchanged(host.grammarRegistry, host.astBuilderRegistry)
                && host.matcherRegistry.matchers == Set(old(host.matcherRegistry.matchers), Matchers.KeyOf(m), m)
                && host.matcherRegistry.Get(Matchers.KeyOf(m)) == Some(m) && o == Pass
    {
      match plugin.kind {
        case BasePlugin =>
          o := Raise(NotImplementedError("Subclasses must implement install()"));
        case GrammarPlugin(cls) =>
          o := host.grammarRegistry.Register(plugin.name, cls);
        case AstBuilderPlugin(cls) =>
          o := host.astBuilderRegistry.Register(plugin.name, cls);
        case MatcherPlugin(m) =>
          host.matcherRegistry.Register(m);
          o := Pass;
      }
    }

    /** `uninstall(name, registry)`: an unknown name raises `KeyError`, the base class
        `NotImplementedError`; the others do nothing. */
    function Uninstall(name: string): (o: Outcome)
      reads this
      ensures !HasKey(plugins, name) ==> o == Raise(NotFound(name))
      ensures Get(name).Some? ==> (o.Raise? <==> Get(name).value.kind.BasePlugin?)
    {
      var found := Get(name);
      if found.None? then Raise(NotFound(name))
      else UninstallPlugin(found.value)
    }

    /** The `uninstall` of the plugin's own class: the base class raises, the others
        leave the host as it is. */
    static function UninstallPlugin(plugin: Plugin): (o: Outcome)
      ensures o.Raise? <==> plugin.kind.BasePlugin?
      ensures plugin.kind.BasePlugin? ==> o == Raise(NotImplementedError("Subclasses must implement uninstall()"))
    {
      if plugin.kind.BasePlugin? then Raise(NotImplementedError("Subclasses must implement uninstall()"))
      else Pass
    }
  }
}
