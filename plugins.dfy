/** The plugin manager: discovering plugin names in a directory listing,
    loading plugins into its table and the registry, registering modules by
    type, and the plugin template generator. Importing a plugin and finding
    its class by reflection are not modelled: `classes` maps each name whose
    import yields a module class to that class. */
module Plugins {
  import opened Wrappers
  import opened Text
  import opened Registry

  // ---------------------------------------------------------------------
  // Discovery
  // ---------------------------------------------------------------------

  /** One entry of the plugins directory: its name and whether it is a
      directory. */
  datatype Entry = Entry(name: string, isDir: bool)

  /** The plugin name an entry stands for: a directory not starting with
      "__" by its name, any other entry ending in ".py" and not starting
      with "__" by its name without ".py"; nothing for the rest. */
  function PluginName(e: Entry): (r: Option<string>)
    ensures r.Some? <==> !StartsWith(e.name, "__") && (e.isDir || EndsWith(e.name, ".py"))
    ensures r.Some? && e.isDir ==> r.value == e.name
    ensures r.Some? && !e.isDir ==> r.value + ".py" == e.name
  {
    if e.isDir && !StartsWith(e.name, "__") then Some(e.name)
    else if EndsWith(e.name, ".py") && !StartsWith(e.name, "__") then
      assert e.name == e.name[..|e.name| - 3] + e.name[|e.name| - 3..];
      Some(e.name[..|e.name| - 3])
    else None
  }

  /** Package markers and caches are skipped; plugin packages and modules are
      named; other files are ignored. A directory is named as it is, even
      one whose name ends in ".py". */
  lemma PluginNameExamples()
    ensures PluginName(Entry("__init__.py", false)).None?
    ensures PluginName(Entry("__pycache__", true)).None?
    ensures PluginName(Entry("youtube_ingestor", true)) == Some("youtube_ingestor")
    ensures PluginName(Entry("helpers.py", false)) == Some("helpers")
    ensures PluginName(Entry("notes.py", true)) == Some("notes.py")
    ensures PluginName(Entry("README.md", false)).None?
  {
    assert StartsWith("__init__.py", "__");
    assert StartsWith("__pycache__", "__");
    assert !StartsWith("youtube_ingestor", "__") by { assert "youtube_ingestor"[0] == 'y'; }
    assert !StartsWith("helpers.py", "__") by { assert "helpers.py"[0] == 'h'; }
    assert EndsWith("helpers.py", ".py");
    assert "helpers.py"[..7] == "helpers";
    assert !StartsWith("notes.py", "__") by { assert "notes.py"[0] == 'n'; }
    assert !EndsWith("README.md", ".py") by { assert "README.md"[8] == 'd'; }
  }

  /** The names of a listing, in listing order. */
  function DiscoveredNames(listing: seq<Entry>): seq<string> {
    if listing == [] then []
    else
      var n := |listing| - 1;
      DiscoveredNames(listing[..n]) + (match PluginName(listing[n]) case Some(x) => [x] case None => [])
  }

  /** What discover_plugins returns: nothing for a missing directory. */
  function Discovered(listing: Option<seq<Entry>>): seq<string> {
    if listing.None? then [] else DiscoveredNames(listing.value)
  }

  /** Discovery preserves listing order: the names of two listings one after
      the other are the names of the first, then those of the second. */
  lemma {:induction false} DiscoveredNamesAppend(a: seq<Entry>, b: seq<Entry>)
    ensures DiscoveredNames(a + b) == DiscoveredNames(a) + DiscoveredNames(b)
    decreases |b|
  {
    if b != [] {
      var n := |b| - 1;
      assert (a + b)[..|a + b| - 1] == a + b[..n];
      DiscoveredNamesAppend(a, b[..n]);
    } else {
      assert a + b == a;
    }
  }

  /** A name is discovered exactly when some entry of the listing stands for
      it. */
  lemma {:induction false} DiscoveredNamesMembers(listing: seq<Entry>, x: string)
    ensures x in DiscoveredNames(listing) <==> exists i :: 0 <= i < |listing| && PluginName(listing[i]) == Some(x)
  {
    if listing != [] {
      var n := |listing| - 1;
      var init := listing[..n];
      DiscoveredNamesMembers(init, x);
      assert forall i :: 0 <= i < n ==> init[i] == listing[i];
      if PluginName(listing[n]) != Some(x) && x !in DiscoveredNames(init) {
        assert forall i :: 0 <= i < |listing| ==> PluginName(listing[i]) != Some(x) by {
          forall i | 0 <= i < |listing|
            ensures PluginName(listing[i]) != Some(x)
          {
            if i < n {
              assert init[i] == listing[i];
            }
          }
        }
      }
    }
  }

  /** discover_plugins over a listing, `None` when the directory does not
      exist. */
  method DiscoverPlugins(listing: Option<seq<Entry>>) returns (plugins: seq<string>)
    ensures plugins == Discovered(listing)
  {
    plugins := [];
    if listing.None? {
      return;
    }
    var entries := listing.value;
    var i := 0;
    while i < |entries|
      invariant 0 <= i <= |entries|
      invariant plugins == DiscoveredNames(entries[..i])
    {
      assert entries[..i + 1][..i] == entries[..i];
      var e := entries[i];
      if e.isDir && !StartsWith(e.name, "__") {
        plugins := plugins + [e.name];
      } else if EndsWith(e.name, ".py") && !StartsWith(e.name, "__") {
        plugins := plugins + [e.name[..|e.name| - 3]];
      }
      i := i + 1;
    }
    assert entries[..i] == entries;
  }

  // ---------------------------------------------------------------------
  // Registration
  // ---------------------------------------------------------------------

  datatype Kind = Ingestor | Processor | Exporter

  /** The table a loaded plugin goes to: `can_handle` is checked first, then
      `can_process`, then `can_export`; a module with none of them is
      registered nowhere. */
  function RegistrationKind(m: Module): (k: Option<Kind>)
    ensures k == Some(Ingestor) <==> m.canHandle
    ensures k == Some(Processor) <==> !m.canHandle && m.canProcess
    ensures k == Some(Exporter) <==> !m.canHandle && !m.canProcess && m.canExport
    ensures k.None? <==> !m.canHandle && !m.canProcess && !m.canExport
  {
    if m.canHandle then Some(Ingestor)
    else if m.canProcess then Some(Processor)
    else if m.canExport then Some(Exporter)
    else None
  }

  /** A table after a module of kind `kind` was loaded under `name`. */
  function Registered(table: map<string, Module>, kind: Kind, name: string, m: Module): map<string, Module> {
    if RegistrationKind(m) == Some(kind) then table[name := m] else table
  }

  /** Whether loading a name succeeds: its import yields a class whose
      initialize returns true. */
  predicate Loads(name: string, classes: map<string, Module>) {
    name in classes && classes[name].initializes
  }

  /** What load_all_plugins returns: every listed name that loads, with its
      module. */
  function LoadedOf(names: seq<string>, classes: map<string, Module>): (loaded: map<string, Module>)
    ensures forall n :: n in loaded <==> n in names && Loads(n, classes)
    ensures forall n :: n in loaded ==> n in classes && loaded[n] == classes[n]
  {
    map n | n in names && Loads(n, classes) :: classes[n]
  }

  /** The modules of a kind among the loaded ones. */
  function OfKind(loaded: map<string, Module>, kind: Kind): (r: map<string, Module>)
    ensures forall n :: n in r <==> n in loaded && RegistrationKind(loaded[n]) == Some(kind)
    ensures forall n :: n in r ==> r[n] == loaded[n]
  {
    map n | n in loaded && RegistrationKind(loaded[n]) == Some(kind) :: loaded[n]
  }

  /** One more name tried: the loaded table grows by it exactly when it
      loads. */
  lemma LoadedOfStep(names: seq<string>, classes: map<string, Module>, i: nat)
    requires i < |names|
    ensures LoadedOf(names[..i + 1], classes) ==
              if Loads(names[i], classes) then LoadedOf(names[..i], classes)[names[i] := classes[names[i]]]
              else LoadedOf(names[..i], classes)
  {
    assert names[..i + 1] == names[..i] + [names[i]];
  }

  /** Adding a loaded module to the loaded table adds it to the modules of
      its kind and of no other kind. */
  lemma OfKindStep(loaded: map<string, Module>, name: string, m: Module, kind: Kind)
    requires name in loaded ==> loaded[name] == m
    ensures OfKind(loaded[name := m], kind) ==
              if RegistrationKind(m) == Some(kind) then OfKind(loaded, kind)[name := m] else OfKind(loaded, kind)
  {
  }

  /** Updating the right-hand side of a union updates the union. */
  lemma UnionUpdate(a: map<string, Module>, b: map<string, Module>, name: string, m: Module)
    ensures (a + b)[name := m] == a + b[name := m]
  {
  }

  class PluginManager {
    var loadedPlugins: map<string, Module>
    const registry: ModuleRegistry

    /** A new manager has no loaded plugins and a new, empty registry. */
    constructor ()
      ensures loadedPlugins == map[] && fresh(registry)
      ensures registry.ingestors == map[] && registry.processors == map[]
      ensures registry.exporters == map[] && registry.analyzers == map[]
    {
      loadedPlugins := map[];
      registry := new ModuleRegistry();
    }

    /** load_plugin: a name whose class initializes is added to the loaded
        plugins and to the registry table of its kind; any failure returns
        `None` and changes nothing. */
    method LoadPlugin(name: string, classes: map<string, Module>) returns (r: Option<Module>)
      modifies this, registry
      ensures r == if Loads(name, classes) then Some(classes[name]) else None
      ensures r.None? ==> loadedPlugins == old(loadedPlugins)
      ensures r.Some? ==> loadedPlugins == old(loadedPlugins)[name := r.value]
      ensures r.None? ==> registry.ingestors == old(registry.ingestors) &&
                          registry.processors == old(registry.processors) &&
                          registry.exporters == old(registry.exporters)
      ensures r.Some? ==> registry.ingestors == Registered(old(registry.ingestors), Ingestor, name, r.value) &&
                          registry.processors == Registered(old(registry.processors), Processor, name, r.value) &&
                          registry.exporters == Registered(old(registry.exporters), Exporter, name, r.value)
      ensures registry.analyzers == old(registry.analyzers)
    {
      if name !in classes {
        return None;
      }
      var instance := classes[name];
      if !instance.initializes {
        return None;
      }
      loadedPlugins := loadedPlugins[name := instance];
      if instance.canHandle {
        registry.RegisterIngestor(name, instance);
      } else if instance.canProcess {
        registry.RegisterProcessor(name, instance);
      } else if instance.canExport {
        registry.RegisterExporter(name, instance);
      }
      r := Some(instance);
    }

    /** load_all_plugins: exactly the discovered names that load, each
        added to the loaded plugins and to the registry table of its kind. */
    method LoadAllPlugins(listing: Option<seq<Entry>>, classes: map<string, Module>) returns (loaded: map<string, Module>)
      modifies this, registry
      ensures loaded == LoadedOf(Discovered(listing), classes)
      ensures loadedPlugins == old(loadedPlugins) + loaded
      ensures registry.ingestors == old(registry.ingestors) + OfKind(loaded, Ingestor)
      ensures registry.processors == old(registry.processors) + OfKind(loaded, Processor)
      ensures registry.exporters == old(registry.exporters) + OfKind(loaded, Exporter)
      ensures registry.analyzers == old(registry.analyzers)
    {
      var names := DiscoverPlugins(listing);
      loaded := map[];
      var i := 0;
      while i < |names|
        invariant 0 <= i <= |names|
        invariant loaded == LoadedOf(names[..i], classes)
        invariant loadedPlugins == old(loadedPlugins) + loaded
        invariant registry.ingestors == old(registry.ingestors) + OfKind(loaded, Ingestor)
        invariant registry.processors == old(registry.processors) + OfKind(loaded, Processor)
        invariant registry.exporters == old(registry.exporters) + OfKind(loaded, Exporter)
        invariant registry.analyzers == old(registry.analyzers)
      {
        var name := names[i];
        LoadedOfStep(names, classes, i);
        ghost var before := loaded;
        var plugin := LoadPlugin(name, classes);
        if plugin.Some? {
          loaded := loaded[name := plugin.value];
          UnionUpdate(old(loadedPlugins), before, name, plugin.value);
          OfKindStep(before, name, plugin.value, Ingestor);
          OfKindStep(before, name, plugin.value, Processor);
          OfKindStep(before, name, plugin.value, Exporter);
          UnionUpdate(old(registry.ingestors), OfKind(before, Ingestor), name, plugin.value);
          UnionUpdate(old(registry.processors), OfKind(before, Processor), name, plugin.value);
          UnionUpdate(old(registry.exporters), OfKind(before, Exporter), name, plugin.value);
        }
        i := i + 1;
      }
      assert names[..i] == names;
    }

    /** register_plugin_module: the table named by the type gets the
        module; an unknown type registers nothing. */
    method RegisterPluginModule(name: string, moduleType: string, m: Module)
      modifies registry
      ensures registry.ingestors == if moduleType == "ingestor" then old(registry.ingestors)[name := m] else old(registry.ingestors)
      ensures registry.processors == if moduleType == "processor" then old(registry.processors)[name := m] else old(registry.processors)
      ensures registry.exporters == if moduleType == "exporter" then old(registry.exporters)[name := m] else old(registry.exporters)
      ensures registry.analyzers == if moduleType == "analyzer" then old(registry.analyzers)[name := m] else old(registry.analyzers)
    {
      if moduleType == "ingestor" {
        registry.RegisterIngestor(name, m);
      } else if moduleType == "processor" {
        registry.RegisterProcessor(name, m);
      } else if moduleType == "exporter" {
        registry.RegisterExporter(name, m);
      } else if moduleType == "analyzer" {
        registry.analyzers := registry.analyzers[name := m];
      }
    }
  }

  // ---------------------------------------------------------------------
  // Templates and the plugin list
  // ---------------------------------------------------------------------

  /** A generated plugin source: the code for a kind of plugin under a
      name, or the one-line comment for an unknown type. The code's text
      (which title-cases the name) is not modelled. */
  datatype Template = Code(kind: Kind, pluginName: string) | UnknownType(text: string)

  function KindName(k: Kind): string {
    match k
    case Ingestor => "ingestor"
    case Processor => "processor"
    case Exporter => "exporter"
  }

  /** create_plugin_template. */
  function CreatePluginTemplate(pluginName: string, pluginType: string): (t: Template)
    ensures t.Code? <==> pluginType in ["ingestor", "processor", "exporter"]
    ensures t.Code? ==> KindName(t.kind) == pluginType && t.pluginName == pluginName
    ensures t.UnknownType? ==> t.text == "# Unknown plugin type: " + pluginType
  {
    if pluginType == "ingestor" then Code(Ingestor, pluginName)
    else if pluginType == "processor" then Code(Processor, pluginName)
    else if pluginType == "exporter" then Code(Exporter, pluginName)
    else UnknownType("# Unknown plugin type: " + pluginType)
  }

  /** "analyzer" is a plugin type for registration but has no template. */
  lemma AnalyzerHasNoTemplate(pluginName: string)
    ensures CreatePluginTemplate(pluginName, "analyzer") == UnknownType("# Unknown plugin type: analyzer")
  {
    assert "analyzer" !in ["ingestor", "processor", "exporter"];
  }

  /** get_available_plugins: every discovered name marked "Available". */
  method GetAvailablePlugins(listing: Option<seq<Entry>>) returns (available: map<string, string>)
    ensures forall n :: n in available <==> n in Discovered(listing)
    ensures forall n :: n in available ==> available[n] == "Available"
  {
    var names := DiscoverPlugins(listing);
    available := map n | n in names :: "Available";
  }
}
