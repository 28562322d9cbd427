/** The exporter's declarations: the liveness gauge, the gauges of the three
    query definitions with their label names, the ordered registry of query
    definitions, and the `name{label,...}` signature the documentation mode
    prints for each gauge, with the parse that recovers a declaration from it. */
module Metrics {
  import opened Strings
  import opened Gauges

  datatype Option<T> = None | Some(value: T)

  const Up := Descriptor("up", "UP Status", [])
  const LocalTime := Descriptor("mssql_instance_local_time", "Number of seconds since epoch on local instance", [])
  const Connections := Descriptor("mssql_connections", "Number of active connections", ["database", "state"])
  const IoStall := Descriptor("mssql_io_stall", "Wait time (ms) of stall since last restart", ["database", "type"])
  const IoStallTotal := Descriptor("mssql_io_stall_total", "Wait time (ms) of stall since last restart", ["database"])

  /** A query definition's gauges, in the order of its `metrics` object's keys.
      Its SQL text is opaque to the exporter and is not part of this model. */
  datatype QueryDefinition = QueryDefinition(metrics: seq<Descriptor>)

  const LocalTimeQuery := QueryDefinition([LocalTime])
  const ConnectionsQuery := QueryDefinition([Connections])
  const IoStallQuery := QueryDefinition([IoStall, IoStallTotal])

  /** The exported list of query definitions. */
  function Registry(): (r: seq<QueryDefinition>)
    ensures |r| == 3
  {
    [LocalTimeQuery, ConnectionsQuery, IoStallQuery]
  }

  /** The gauges of `defs`, query definition by query definition. */
  function Declared(defs: seq<QueryDefinition>): (ds: seq<Descriptor>)
    ensures forall i, d :: 0 <= i < |defs| && d in defs[i].metrics ==> d in ds
    ensures forall d :: d in ds ==> exists i :: 0 <= i < |defs| && d in defs[i].metrics
    decreases |defs|
  {
    if |defs| == 0 then []
    else defs[0].metrics + Declared(defs[1..])
  }

  function Names(ds: seq<Descriptor>): (names: seq<string>)
    ensures |names| == |ds|
    ensures forall i :: 0 <= i < |ds| ==> names[i] == ds[i].name
  {
    seq(|ds|, i requires 0 <= i < |ds| => ds[i].name)
  }

  predicate Distinct(xs: seq<string>)
  {
    forall i, j :: 0 <= i < j < |xs| ==> xs[i] != xs[j]
  }

  /** The registry holds the three query definitions in the order local time, connections,
      I/O stall; with the liveness gauge, the five exported names are pairwise distinct. */
  lemma RegistryNames()
    ensures Declared(Registry()) == [LocalTime, Connections, IoStall, IoStallTotal]
    ensures Names([Up] + Declared(Registry()))
         == ["up", "mssql_instance_local_time", "mssql_connections", "mssql_io_stall", "mssql_io_stall_total"]
    ensures Distinct(Names([Up] + Declared(Registry())))
  {
    var ds := [Up] + Declared(Registry());
    assert Declared(Registry()) == [LocalTime, Connections, IoStall, IoStallTotal] by {
      assert Registry()[1..] == [ConnectionsQuery, IoStallQuery];
      assert Registry()[1..][1..] == [IoStallQuery];
      assert Registry()[1..][1..][1..] == [];
    }
    assert ds == [Up, LocalTime, Connections, IoStall, IoStallTotal];
  }

  /** The signature line of the documentation mode: the bare name when there are no label
      names, otherwise the name followed by the label names, comma separated, in braces. */
  function Signature(d: Descriptor): (s: string)
    ensures |d.labelNames| == 0 ==> s == d.name
    ensures |d.labelNames| > 0 ==> |s| > |d.name| + 1 && s[..|d.name|] == d.name
                                   && s[|d.name|] == '{' && s[|s| - 1] == '}'
  {
    if |d.labelNames| > 0 then d.name + "{" + Join(d.labelNames, ',') + "}" else d.name
  }

  /** The position of the first `c` in `s`. */
  function FirstIndex(s: string, c: char): (i: nat)
    requires c in s
    ensures i < |s| && s[i] == c && c !in s[..i]
  {
    if s[0] == c then 0
    else
      var i := 1 + FirstIndex(s[1..], c);
      assert s[..i] == [s[0]] + s[1..][..i - 1];
      i
  }

  /** Reads a signature back into a gauge name and its label names: everything before the
      first brace is the name; the text between that brace and a closing brace at the end
      is split at commas. A brace that is not closed at the end is malformed. */
  function ParseSignature(s: string): (r: Option<(string, seq<string>)>)
    ensures r.Some? && '{' !in s ==> r.value == (s, [])
    ensures r.Some? && '{' in s ==> |r.value.1| > 0 && '{' !in r.value.0
  {
    if '{' !in s then Some((s, []))
    else
      var i := FirstIndex(s, '{');
      if i < |s| - 1 && s[|s| - 1] == '}' then Some((s[..i], Split(s[i + 1..|s| - 1], ',')))
      else None
  }

  /** A name free of `{` and label names free of `,` can be read back from the signature. */
  predicate Documentable(d: Descriptor)
  {
    '{' !in d.name && forall i :: 0 <= i < |d.labelNames| ==> ',' !in d.labelNames[i]
  }

  /** The signature loses nothing: parsing it gives back the gauge's name and label names. */
  lemma SignatureRoundTrip(d: Descriptor)
    requires Documentable(d)
    ensures ParseSignature(Signature(d)) == Some((d.name, d.labelNames))
  {
    if |d.labelNames| > 0 {
      var joined := Join(d.labelNames, ',');
      var s := d.name + "{" + joined + "}";
      var n := |d.name|;
      assert s[n] == '{';
      assert s[..n] == d.name;
      var i := FirstIndex(s, '{');
      assert i == n;
      assert s[i + 1..|s| - 1] == joined;
      SplitJoin(d.labelNames, ',');
    }
  }

  /** Two documentable gauges with the same signature have the same name and label names. */
  lemma SignatureInjective(d: Descriptor, e: Descriptor)
    requires Documentable(d) && Documentable(e)
    requires Signature(d) == Signature(e)
    ensures d.name == e.name && d.labelNames == e.labelNames
  {
    SignatureRoundTrip(d);
    SignatureRoundTrip(e);
  }

  /** Each documentable declaration's signature parses back to its name and label names. */
  lemma SignaturesRoundTrip(ds: seq<Descriptor>)
    requires forall i :: 0 <= i < |ds| ==> Documentable(ds[i])
    ensures forall i :: 0 <= i < |ds| ==> ParseSignature(Signature(ds[i])) == Some((ds[i].name, ds[i].labelNames))
  {
    forall i | 0 <= i < |ds|
      ensures ParseSignature(Signature(ds[i])) == Some((ds[i].name, ds[i].labelNames))
    {
      SignatureRoundTrip(ds[i]);
    }
  }

  /** The signature lines of the documentation mode, query definition by query definition:
      one line per declared gauge, and when the declarations are documentable each line reads
      back as its gauge's name and label names. */
  function Documentation(defs: seq<QueryDefinition>): (lines: seq<string>)
    ensures |lines| == |Declared(defs)|
    ensures forall i :: 0 <= i < |lines| ==> lines[i] == Signature(Declared(defs)[i])
    ensures (forall i :: 0 <= i < |Declared(defs)| ==> Documentable(Declared(defs)[i])) ==>
              forall i :: 0 <= i < |lines| ==>
                ParseSignature(lines[i]) == Some((Declared(defs)[i].name, Declared(defs)[i].labelNames))
  {
    var ds := Declared(defs);
    if forall i :: 0 <= i < |ds| ==> Documentable(ds[i]) then
      SignaturesRoundTrip(ds);
      seq(|ds|, i requires 0 <= i < |ds| => Signature(ds[i]))
    else
      seq(|ds|, i requires 0 <= i < |ds| => Signature(ds[i]))
  }

  lemma RegistryDocumentable()
    ensures Documentable(LocalTime) && Documentable(Connections)
    ensures Documentable(IoStall) && Documentable(IoStallTotal)
  {
    assert forall i :: 0 <= i < |Connections.labelNames| ==> ',' !in Connections.labelNames[i];
    assert forall i :: 0 <= i < |IoStall.labelNames| ==> ',' !in IoStall.labelNames[i];
  }

  /** Every gauge of the registry is documented, in registry order, by a line from which its
      name and label names can be read back. */
  lemma DocumentationRecoversRegistry()
    ensures |Documentation(Registry())| == 4
    ensures forall i :: 0 <= i < 4 ==>
              ParseSignature(Documentation(Registry())[i])
              == Some((Declared(Registry())[i].name, Declared(Registry())[i].labelNames))
  {
    RegistryNames();
    RegistryDocumentable();
    var ds := Declared(Registry());
    assert forall i :: 0 <= i < |ds| ==> Documentable(ds[i]);
  }
}
