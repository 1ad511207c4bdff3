/**
 The specifications of the machines in an expanded lab: clones are hidden and closed, unless what is given
 for them says otherwise.
 */
module MirrorSpecs {
  import opened Topologies
  import opened MirrorTopology
  import opened MirrorAddressing
  import opened MirrorFacts

  datatype Value = Flag(on: bool) | Given(text: string)

  type Spec = map<string, Value>

  type Specs = map<Name, Spec>

  function SpecOf(specs: Specs, m: Name): Spec {
    if m in specs then specs[m] else map[]
  }

  /** The specification made for the clone of `m` */
  function CloneSpec(specs: Specs, extra: Specs, m: Name): Spec {
    (SpecOf(specs, m) - {"bridged", "color"})["hidden" := Flag(true)]["allow_connection" := Flag(false)] + SpecOf(extra, m)
  }

  /** `full` holds what is given, and specifications of their own for the other clones of `machines`. */
  ghost predicate Expands(full: Specs, specs: Specs, machines: seq<Name>, s: string, extra: Specs) {
    && (forall x :: x in full <==> x in specs || exists m :: m in machines && m + s == x)
    && (forall x :: x in specs ==> full[x] == specs[x])
    && (forall m :: m in machines && m + s !in specs ==> full[m + s] == CloneSpec(specs, extra, m))
  }

  lemma NothingExpanded(specs: Specs, machines: seq<Name>, s: string, extra: Specs)
    ensures Expands(specs, specs, machines[..0], s, extra)
  {
  }

  lemma ExpandsNext(full: Specs, specs: Specs, machines: seq<Name>, m: Name, s: string, extra: Specs)
    requires Expands(full, specs, machines, s, extra)
    ensures Expands(if m + s in full then full else full[m + s := CloneSpec(specs, extra, m)], specs, machines + [m], s, extra)
  {
    hide CloneSpec;
    assert forall x :: x in machines + [m] <==> x in machines || x == m;
    forall m2 | m2 in machines && m2 + s == m + s
      ensures m2 == m
    {
      SuffixInjective(m2, m, s);
    }
  }

  /** The specifications of `expand_topology` */
  method ExpandSpecs(t: Topology, specs: Specs, s: string, extra: Specs) returns (full: Specs)
    ensures Expands(full, specs, Machines(t), s, extra)
  {
    var byNet := ListMachines(t);
    var machines := byNet.keys;
    MachinesByNetKeys(t);
    full := specs;
    hide Expands, CloneSpec, Machines, MachinesByNet;
    NothingExpanded(specs, machines, s, extra);
    for k := 0 to |machines|
      invariant Expands(full, specs, machines[..k], s, extra)
    {
      var clone := machines[k] + s;
      ExpandsNext(full, specs, machines[..k], machines[k], s, extra);
      assert machines[..k] + [machines[k]] == machines[..k + 1];
      if clone in full {
        continue;
      }
      full := full[clone := CloneSpec(specs, extra, machines[k])];
    }
    assert machines[..|machines|] == machines;
  }

  // ----- what the documentation promises -----

  predicate Closed(spec: Spec) {
    && "hidden" in spec && spec["hidden"] == Flag(true)
    && "allow_connection" in spec && spec["allow_connection"] == Flag(false)
    && "bridged" !in spec
  }

  /** What is given for a clone leaves it closed. */
  predicate KeepsClosed(given: Spec) {
    && ("hidden" in given ==> given["hidden"] == Flag(true))
    && ("allow_connection" in given ==> given["allow_connection"] == Flag(false))
    && "bridged" !in given
  }

  /** A clone is hidden, without connections and not bridged exactly when what is given for it does not
      say otherwise: a whole specification under its name, or else entries that override the made one. */
  lemma ClonesAreClosed(t: Topology, specs: Specs, s: string, extra: Specs, full: Specs, m: Name)
    requires Expands(full, specs, Machines(t), s, extra) && m in Machines(t)
    ensures m + s in full
    ensures Closed(full[m + s]) <==> if m + s in specs then Closed(specs[m + s]) else KeepsClosed(SpecOf(extra, m))
  {
  }

  /** Key by key, the specification that is made for a clone: what is given to override, else hidden and without
      connections, not bridged and without a color, and in everything else like the original. */
  lemma ClonesAre(t: Topology, specs: Specs, s: string, extra: Specs, full: Specs, m: Name, key: string)
    requires Expands(full, specs, Machines(t), s, extra) && m in Machines(t) && m + s !in specs
    ensures m + s in full
    ensures var clone := full[m + s];
      if m in extra && key in extra[m] then key in clone && clone[key] == extra[m][key]
      else if key == "hidden" then key in clone && clone[key] == Flag(true)
      else if key == "allow_connection" then key in clone && clone[key] == Flag(false)
      else if key == "bridged" || key == "color" then key !in clone
      else (key in clone <==> m in specs && key in specs[m]) && (key in clone ==> clone[key] == specs[m][key])
  {
    hide CloneSpec, Machines;
    MadeSpec(specs, extra, m, key);
  }

  lemma MadeSpec(specs: Specs, extra: Specs, m: Name, key: string)
    ensures var clone := CloneSpec(specs, extra, m);
      if m in extra && key in extra[m] then key in clone && clone[key] == extra[m][key]
      else if key == "hidden" then key in clone && clone[key] == Flag(true)
      else if key == "allow_connection" then key in clone && clone[key] == Flag(false)
      else if key == "bridged" || key == "color" then key !in clone
      else (key in clone <==> m in specs && key in specs[m]) && (key in clone ==> clone[key] == specs[m][key])
  {
  }

  /** A clone that must not get what its original has */
  lemma OverrideIsUsed(m: Name)
    requires m != ""
    ensures CloneSpec(map[m := map["x11_host" := Flag(true)]], map[m := map["x11_host" := Flag(false)]], m)
         == map["x11_host" := Flag(false), "hidden" := Flag(true), "allow_connection" := Flag(false)]
  {
  }

  /** The machines of the lab keep their specifications, none included, exactly when those that have none
      are not named like a clone; with fresh names there are no others. */
  lemma OriginalsAreKept(t: Topology, specs: Specs, s: string, extra: Specs, full: Specs)
    requires Expands(full, specs, Machines(t), s, extra)
    ensures (forall x :: x in Machines(t) ==> (x in full <==> x in specs))
       <==> forall m, x :: m in Machines(t) && x in Machines(t) && m + s == x ==> x in specs
    ensures Fresh(t, s) ==> forall x :: x in Machines(t) ==> (x in full <==> x in specs) && SpecOf(full, x) == SpecOf(specs, x)
  {
    if Fresh(t, s) {
      forall m, x | m in Machines(t) && x in Machines(t)
        ensures m + s != x
      {
        MachinesAre(t, m);
        MachinesAre(t, x);
      }
    }
  }

  /** A bridge given for a clone stays. */
  lemma GivenBridgeStays(m: Name)
    ensures !Closed(CloneSpec(map[], map[m := map["bridged" := Flag(true)]], m))
  {
  }
}
