/** The module registry: four name-to-module tables (ingestors, processors,
    exporters, analyzers) that registration updates in place. Modules are
    values here: what the plugin manager needs to know of one is which
    capability methods it has and what its initialize returns. */
module Registry {
  import opened Wrappers

  /** A loaded module: its class name, whether it has `can_handle`,
      `can_process` and `can_export`, and the outcome of its initialize
      (false also when initialize raises). */
  datatype Module = Module(className: string, canHandle: bool, canProcess: bool, canExport: bool, initializes: bool)

  /** `d.get(name)` on one of the tables. */
  function Get(table: map<string, Module>, name: string): (r: Option<Module>)
    ensures r.Some? <==> name in table
    ensures r.Some? ==> r.value == table[name]
  {
    if name in table then Some(table[name]) else None
  }

  /** A registration is seen by the next lookup of its name, replaces an
      earlier one under that name, and leaves every other name alone. */
  lemma GetAfterPut(table: map<string, Module>, name: string, m: Module, other: string)
    ensures Get(table[name := m], name) == Some(m)
    ensures other != name ==> Get(table[name := m], other) == Get(table, other)
    ensures (table[name := m])[name := m] == table[name := m]
    ensures name in table ==> |table[name := m]| == |table|
    ensures name !in table ==> |table[name := m]| == |table| + 1
  {
    if name !in table {
      assert table[name := m].Keys == table.Keys + {name};
    } else {
      assert table[name := m].Keys == table.Keys;
    }
  }

  class ModuleRegistry {
    var ingestors: map<string, Module>
    var processors: map<string, Module>
    var exporters: map<string, Module>
    var analyzers: map<string, Module>

    /** A new registry has four empty tables. */
    constructor ()
      ensures ingestors == map[] && processors == map[] && exporters == map[] && analyzers == map[]
    {
      ingestors := map[];
      processors := map[];
      exporters := map[];
      analyzers := map[];
    }

    /** register_ingestor: only the ingestor table changes. */
    method RegisterIngestor(name: string, m: Module)
      modifies this
      ensures ingestors == old(ingestors)[name := m]
      ensures processors == old(processors) && exporters == old(exporters) && analyzers == old(analyzers)
      ensures GetIngestor(name) == Some(m)
      ensures old(ingestors).Keys <= ingestors.Keys
    {
      ingestors := ingestors[name := m];
    }

    /** register_processor: only the processor table changes. */
    method RegisterProcessor(name: string, m: Module)
      modifies this
      ensures processors == old(processors)[name := m]
      ensures ingestors == old(ingestors) && exporters == old(exporters) && analyzers == old(analyzers)
      ensures GetProcessor(name) == Some(m)
      ensures old(processors).Keys <= processors.Keys
    {
      processors := processors[name := m];
    }

    /** register_exporter: only the exporter table changes. */
    method RegisterExporter(name: string, m: Module)
      modifies this
      ensures exporters == old(exporters)[name := m]
      ensures ingestors == old(ingestors) && processors == old(processors) && analyzers == old(analyzers)
      ensures GetExporter(name) == Some(m)
      ensures old(exporters).Keys <= exporters.Keys
    {
      exporters := exporters[name := m];
    }

    /** get_ingestor. */
    function GetIngestor(name: string): (r: Option<Module>)
      reads this
      ensures r.Some? <==> name in ingestors
      ensures r.Some? ==> r.value == ingestors[name]
    {
      Get(ingestors, name)
    }

    /** get_processor. */
    function GetProcessor(name: string): (r: Option<Module>)
      reads this
      ensures r.Some? <==> name in processors
      ensures r.Some? ==> r.value == processors[name]
    {
      Get(processors, name)
    }

    /** get_exporter. */
    function GetExporter(name: string): (r: Option<Module>)
      reads this
      ensures r.Some? <==> name in exporters
      ensures r.Some? ==> r.value == exporters[name]
    {
      Get(exporters, name)
    }

    /** get_all_ingestors: a copy. A map is a value, so nothing done to the
        copy can reach the registry's table. */
    method GetAllIngestors() returns (copy: map<string, Module>)
      ensures copy == ingestors
    {
      copy := ingestors;
    }

    /** get_all_processors: a copy. */
    method GetAllProcessors() returns (copy: map<string, Module>)
      ensures copy == processors
    {
      copy := processors;
    }

    /** get_all_exporters: a copy. */
    method GetAllExporters() returns (copy: map<string, Module>)
      ensures copy == exporters
    {
      copy := exporters;
    }
  }
}
