/** parseEndpointOutput: one endpoint listing (the output of an endpoint lookup for a
    single address) becomes an EndpointData record, or nothing when the listing names
    no VLAN or no path.

    The loop body first runs its patterns over the line and then updates its state from
    what they found; the model keeps the two apart. Observe is the first half (None for a
    skipped line), Step the second, and ScanAll folds Step over the observations of all
    lines: first-wins VLAN and address, the set of paths in insertion order and the two
    path-keyed maps. */
module EndpointParser {
  import opened Text
  import opened Patterns
  import Ordered
  import opened Records

  /** The loop state of parseEndpointOutput. "" is the unset VLAN or address. */
  datatype EndpointScan = EndpointScan(
    vlan: string,
    defaultIp: string,
    paths: seq<string>,
    nodes: map<string, string>,
    ips: map<string, string>)

  const EmptyScan := EndpointScan("", "", [], map[], map[])

  /** What the patterns find on one line: its address (or ""), the vlan-<digits> token,
      the node and eth interface, and the VPC path. */
  datatype LineFacts = LineFacts(ip: string, vlan: Option<string>, eth: Option<(string, string)>, vpc: Option<string>)

  /** What the patterns guarantee about their findings. */
  predicate WellFormed(f: LineFacts) {
    && (f.vlan.Some? ==> f.vlan.value != [] && AllDigits(f.vlan.value))
    && (f.eth.Some? ==> f.vlan.Some? && f.eth.value.0 != [] && f.eth.value.1 != [])
    && (f.vpc.Some? ==> f.vpc.value != [])
  }

  /** Blank lines and the table header are skipped. */
  predicate IsSkippedLine(line: string) {
    Trim(line) == [] || (Contains(line, "Node") && Contains(line, "Interface"))
  }

  /** The address written on a line, or "". */
  function LineIp(line: string): (r: string)
    ensures r == "" <==> BoundedIpv4(line).None?
  {
    match BoundedIpv4(line)
    case Some(ip) => ip
    case None => ""
  }

  /** The patterns of the loop body applied to one line; None for a skipped line. */
  function Observe(line: string): (r: Option<LineFacts>)
    ensures r.None? <==> IsSkippedLine(line)
    ensures r.Some? ==> WellFormed(r.value)
  {
    if IsSkippedLine(line) then None
    else Some(LineFacts(LineIp(line), VlanDigits(line), NodeInterface(line), EndpointVpcPath(line)))
  }

  predicate AllWellFormed(obs: seq<Option<LineFacts>>) {
    forall k :: 0 <= k < |obs| && obs[k].Some? ==> WellFormed(obs[k].value)
  }

  function Observations(lines: seq<string>): seq<Option<LineFacts>>
  {
    seq(|lines|, k requires 0 <= k < |lines| => Observe(lines[k]))
  }

  lemma ObservationsWellFormed(lines: seq<string>)
    ensures AllWellFormed(Observations(lines))
  {
  }

  /** The state update of the loop body, in the order of its statements: first-wins
      address and VLAN, then the eth path with its node and address, then the VPC path
      with its address. A skipped line changes nothing. */
  function Step(st: EndpointScan, o: Option<LineFacts>): EndpointScan
  {
    match o
    case None => st
    case Some(f) =>
      var defaultIp := if f.ip != "" && st.defaultIp == "" then f.ip else st.defaultIp;
      var vlan := if f.vlan.Some? && st.vlan == "" then f.vlan.value else st.vlan;
      var afterEth :=
        match f.eth
        case Some((node, iface)) =>
          EndpointScan(vlan, defaultIp, Ordered.AddUnique(st.paths, iface), st.nodes[iface := node],
                       if f.ip != "" then st.ips[iface := f.ip] else st.ips)
        case None => EndpointScan(vlan, defaultIp, st.paths, st.nodes, st.ips);
      match f.vpc
      case Some(p) =>
        afterEth.(paths := Ordered.AddUnique(afterEth.paths, p),
                  ips := if f.ip != "" then afterEth.ips[p := f.ip] else afterEth.ips)
      case None => afterEth
  }

  /** What the loop keeps true: the paths are distinct, both maps are keyed by known
      paths, and a recorded node implies a recorded VLAN. */
  ghost predicate Invariant(st: EndpointScan) {
    && Ordered.NoDup(st.paths)
    && (forall k :: k in st.nodes ==> k in st.paths)
    && (forall k :: k in st.ips ==> k in st.paths)
    && (st.nodes != map[] ==> st.vlan != "")
    && AllDigits(st.vlan)
  }

  lemma StepKeepsInvariant(st: EndpointScan, o: Option<LineFacts>)
    requires Invariant(st)
    requires o.Some? ==> WellFormed(o.value)
    ensures Invariant(Step(st, o))
  {
  }

  /** The state after the loop has run over all observations. */
  function ScanAll(obs: seq<Option<LineFacts>>): (r: EndpointScan)
    ensures AllWellFormed(obs) ==> Invariant(r)
  {
    if obs == [] then EmptyScan
    else
      var st := ScanAll(obs[..|obs| - 1]);
      if AllWellFormed(obs) then
        assert AllWellFormed(obs[..|obs| - 1]) by {
          assert forall k :: 0 <= k < |obs| - 1 ==> obs[..|obs| - 1][k] == obs[k];
        }
        StepKeepsInvariant(st, obs[|obs| - 1]);
        Step(st, obs[|obs| - 1])
      else Step(st, obs[|obs| - 1])
  }

  /** The state after the loop has run over all of `lines`. */
  function ScanLines(lines: seq<string>): (r: EndpointScan)
    ensures Invariant(r)
  {
    ObservationsWellFormed(lines);
    ScanAll(Observations(lines))
  }

  /** The loop followed by the final test: a record when a VLAN and at least one path were seen. */
  function ParseEndpointLines(lines: seq<string>): (r: Option<EndpointData>)
    ensures r.Some? ==> r.value.vlan != "" && AllDigits(r.value.vlan) && r.value.paths != [] && r.value.pod == ""
    ensures r.Some? ==> Ordered.NoDup(r.value.paths)
    ensures r.Some? ==> forall k :: k in r.value.pathsWithNodes ==> k in r.value.paths
    ensures r.Some? ==> forall k :: k in r.value.pathsWithIPs ==> k in r.value.paths
  {
    var st := ScanLines(lines);
    if st.vlan != "" && |st.paths| > 0 then
      Some(EndpointData(st.vlan, st.defaultIp, st.paths, "", st.nodes, st.ips))
    else None
  }

  /** parseEndpointOutput(input) */
  function ParseEndpointOutput(input: string): (r: Option<EndpointData>)
    ensures r.Some? ==> r.value.vlan != "" && AllDigits(r.value.vlan) && r.value.paths != [] && r.value.pod == ""
    ensures r.Some? ==> Ordered.NoDup(r.value.paths)
    ensures r.Some? ==> forall k :: k in r.value.pathsWithNodes ==> k in r.value.paths
    ensures r.Some? ==> forall k :: k in r.value.pathsWithIPs ==> k in r.value.paths
  {
    ParseEndpointLines(SplitLines(Trim(input)))
  }

  // ---------------------------------------------------------------- reference definitions

  /** The VLAN digits an observation offers. */
  function VlanOf(o: Option<LineFacts>): Option<string> { if o.Some? then o.value.vlan else None }

  /** The address an observation offers, or "". */
  function IpOf(o: Option<LineFacts>): string { if o.Some? then o.value.ip else "" }

  /** The paths an observation adds, eth port first. */
  function PathsOf(o: Option<LineFacts>): seq<string>
  {
    match o
    case None => []
    case Some(f) =>
      (match f.eth case Some((_, iface)) => [iface] case None => [])
      + (match f.vpc case Some(p) => [p] case None => [])
  }

  /** The (path, node) pairs an observation sets. */
  function NodePairsOf(o: Option<LineFacts>): seq<(string, string)>
  {
    match o
    case None => []
    case Some(f) => match f.eth case Some((node, iface)) => [(iface, node)] case None => []
  }

  /** The (path, address) pairs an observation sets: one per path it adds, when it has an address. */
  function IpPairsOf(o: Option<LineFacts>): seq<(string, string)>
  {
    match o
    case None => []
    case Some(f) =>
      if f.ip == "" then []
      else
        (match f.eth case Some((_, iface)) => [(iface, f.ip)] case None => [])
        + (match f.vpc case Some(p) => [(p, f.ip)] case None => [])
  }

  function AllPaths(obs: seq<Option<LineFacts>>): seq<string>
  {
    if obs == [] then [] else AllPaths(obs[..|obs| - 1]) + PathsOf(obs[|obs| - 1])
  }

  function AllNodePairs(obs: seq<Option<LineFacts>>): seq<(string, string)>
  {
    if obs == [] then [] else AllNodePairs(obs[..|obs| - 1]) + NodePairsOf(obs[|obs| - 1])
  }

  function AllIpPairs(obs: seq<Option<LineFacts>>): seq<(string, string)>
  {
    if obs == [] then [] else AllIpPairs(obs[..|obs| - 1]) + IpPairsOf(obs[|obs| - 1])
  }

  // ---------------------------------------------------------------- properties of the fold

  /** The last observation sets the VLAN only while none is known. */
  lemma ScanVlanLast(obs: seq<Option<LineFacts>>)
    requires obs != []
    ensures var before := ScanAll(obs[..|obs| - 1]).vlan; var v := VlanOf(obs[|obs| - 1]);
      ScanAll(obs).vlan == (if v.Some? && before == "" then v.value else before)
  {
  }

  /** The last observation sets the default address only while none is known. */
  lemma ScanIpLast(obs: seq<Option<LineFacts>>)
    requires obs != []
    ensures var before := ScanAll(obs[..|obs| - 1]).defaultIp; var ip := IpOf(obs[|obs| - 1]);
      ScanAll(obs).defaultIp == (if ip != "" && before == "" then ip else before)
  {
  }

  /** An observation without a usable VLAN capture. */
  predicate NoVlan(o: Option<LineFacts>) {
    VlanOf(o).None? || VlanOf(o) == Some("")
  }

  /** The VLAN is the one of the first observation that carries a non-empty vlan capture. */
  lemma {:induction false} ScanVlanFirstWins(obs: seq<Option<LineFacts>>)
    ensures ScanAll(obs).vlan == "" <==> forall k :: 0 <= k < |obs| ==> NoVlan(obs[k])
    ensures ScanAll(obs).vlan != "" ==>
      exists k :: 0 <= k < |obs| && VlanOf(obs[k]) == Some(ScanAll(obs).vlan) && forall m :: 0 <= m < k ==> NoVlan(obs[m])
  {
    if obs != [] {
      var init := obs[..|obs| - 1];
      var last := obs[|obs| - 1];
      ScanVlanFirstWins(init);
      ScanVlanLast(obs);
      var v := ScanAll(obs).vlan;
      if ScanAll(init).vlan != "" {
        var k :| 0 <= k < |init| && VlanOf(init[k]) == Some(ScanAll(init).vlan) && forall m :: 0 <= m < k ==> NoVlan(init[m]);
        assert obs[k] == init[k];
        forall m | 0 <= m < k ensures NoVlan(obs[m]) { assert obs[m] == init[m]; }
      } else if !NoVlan(last) {
        forall m | 0 <= m < |init| ensures NoVlan(obs[m]) { assert obs[m] == init[m]; }
        assert VlanOf(obs[|init|]) == Some(v);
      } else {
        forall m | 0 <= m < |obs| ensures NoVlan(obs[m]) {
          if m < |init| { assert obs[m] == init[m]; }
        }
      }
    }
  }

  /** The default address is the one of the first observation that carries one. */
  lemma {:induction false} ScanIpFirstWins(obs: seq<Option<LineFacts>>)
    ensures ScanAll(obs).defaultIp == "" <==> forall k :: 0 <= k < |obs| ==> IpOf(obs[k]) == ""
    ensures ScanAll(obs).defaultIp != "" ==>
      exists k :: 0 <= k < |obs| && IpOf(obs[k]) == ScanAll(obs).defaultIp
                  && forall m :: 0 <= m < k ==> IpOf(obs[m]) == ""
  {
    if obs != [] {
      var init := obs[..|obs| - 1];
      ScanIpFirstWins(init);
      ScanIpLast(obs);
      assert forall k :: 0 <= k < |init| ==> init[k] == obs[k];
      if ScanAll(init).defaultIp != "" {
        var k :| 0 <= k < |init| && IpOf(init[k]) == ScanAll(init).defaultIp
                 && forall m :: 0 <= m < k ==> IpOf(init[m]) == "";
        assert IpOf(obs[k]) == ScanAll(obs).defaultIp;
      }
    }
  }

  /** One step adds the observation's paths to the Set of paths. */
  lemma StepPaths(st: EndpointScan, o: Option<LineFacts>)
    ensures Step(st, o).paths == Ordered.AddAll(st.paths, PathsOf(o))
  {
    var ps := PathsOf(o);
    if |ps| == 2 {
      assert ps[..1] == [ps[0]] && ps[..1][..0] == [];
      assert Ordered.AddAll(st.paths, ps[..1]) == Ordered.AddUnique(st.paths, ps[0]);
    } else if |ps| == 1 {
      assert ps[..0] == [];
    }
  }

  /** One step sets the observation's (path, node) pair on pathsWithNodes. */
  lemma StepNodes(st: EndpointScan, o: Option<LineFacts>)
    ensures Step(st, o).nodes == Ordered.PutAll(st.nodes, NodePairsOf(o))
  {
    if NodePairsOf(o) != [] {
      assert NodePairsOf(o)[..0] == [];
    }
  }

  /** One step sets the observation's (path, address) pairs on pathsWithIPs. */
  lemma StepIps(st: EndpointScan, o: Option<LineFacts>)
    ensures Step(st, o).ips == Ordered.PutAll(st.ips, IpPairsOf(o))
  {
    match o
    case None =>
    case Some(f) =>
      if f.ip == "" {
        assert IpPairsOf(o) == [];
      } else {
        match (f.eth, f.vpc)
        case (Some((_, iface)), Some(p)) =>
          assert IpPairsOf(o) == [(iface, f.ip), (p, f.ip)];
          Ordered.PutAllTwo(st.ips, (iface, f.ip), (p, f.ip));
        case (Some((_, iface)), None) =>
          assert IpPairsOf(o) == [(iface, f.ip)];
          Ordered.PutAllOne(st.ips, (iface, f.ip));
        case (None, Some(p)) =>
          assert IpPairsOf(o) == [(p, f.ip)];
          Ordered.PutAllOne(st.ips, (p, f.ip));
        case (None, None) =>
          assert IpPairsOf(o) == [];
      }
  }

  /** The paths are the distinct paths of all observations, in the order of first appearance. */
  lemma {:induction false} ScanPathsFirstSeen(obs: seq<Option<LineFacts>>)
    ensures Ordered.FirstSeenOrder(ScanAll(obs).paths, AllPaths(obs))
  {
    if obs != [] {
      var init := obs[..|obs| - 1];
      var o := obs[|obs| - 1];
      ScanPathsFirstSeen(init);
      StepPaths(ScanAll(init), o);
      Ordered.AddAllFirstSeen(ScanAll(init).paths, AllPaths(init), PathsOf(o));
    }
  }

  /** pathsWithNodes is the Map filled by every (path, node) pair in line order. */
  lemma {:induction false} ScanNodesLastWins(obs: seq<Option<LineFacts>>)
    ensures ScanAll(obs).nodes == Ordered.LastWins(AllNodePairs(obs))
  {
    if obs != [] {
      var init := obs[..|obs| - 1];
      var o := obs[|obs| - 1];
      ScanNodesLastWins(init);
      StepNodes(ScanAll(init), o);
      Ordered.LastWinsAppend(AllNodePairs(init), NodePairsOf(o));
    }
  }

  /** pathsWithIPs is the Map filled by every (path, address) pair in line order. */
  lemma {:induction false} ScanIpsLastWins(obs: seq<Option<LineFacts>>)
    ensures ScanAll(obs).ips == Ordered.LastWins(AllIpPairs(obs))
  {
    if obs != [] {
      var init := obs[..|obs| - 1];
      var o := obs[|obs| - 1];
      ScanIpsLastWins(init);
      StepIps(ScanAll(init), o);
      Ordered.LastWinsAppend(AllIpPairs(init), IpPairsOf(o));
    }
  }

  lemma {:induction false} AllPathsContain(obs: seq<Option<LineFacts>>, k: nat)
    requires k < |obs|
    ensures forall p :: p in PathsOf(obs[k]) ==> p in AllPaths(obs)
  {
    var init := obs[..|obs| - 1];
    if k < |obs| - 1 {
      AllPathsContain(init, k);
      assert init[k] == obs[k];
    }
  }

  // ---------------------------------------------------------------- properties of the parser

  /** No record exactly when no kept line names a VLAN or no kept line names a path. */
  lemma ParseEndpointNullIff(lines: seq<string>)
    ensures ParseEndpointLines(lines).None? <==>
      (forall k :: 0 <= k < |lines| ==> VlanOf(Observe(lines[k])).None?) || AllPaths(Observations(lines)) == []
  {
    var obs := Observations(lines);
    ObservationsWellFormed(lines);
    ObservedVlans(lines);
    ScanVlanNoneIff(obs);
    ScanPathsEmptyIff(obs);
  }

  lemma ObservedVlans(lines: seq<string>)
    ensures (forall k :: 0 <= k < |lines| ==> VlanOf(Observations(lines)[k]).None?)
       <==> (forall k :: 0 <= k < |lines| ==> VlanOf(Observe(lines[k])).None?)
  {
    var obs := Observations(lines);
    forall k | 0 <= k < |lines| ensures obs[k] == Observe(lines[k]) {
    }
  }

  /** The loop's path list is empty exactly when no observation offers a path. */
  lemma ScanPathsEmptyIff(obs: seq<Option<LineFacts>>)
    ensures ScanAll(obs).paths == [] <==> AllPaths(obs) == []
  {
    ScanPathsFirstSeen(obs);
    var ps := ScanAll(obs).paths;
    if ps != [] { assert ps[0] in AllPaths(obs); }
    if AllPaths(obs) != [] { assert AllPaths(obs)[0] in ps; }
  }

  /** On observations of real lines the VLAN stays unset exactly when no line offers one. */
  lemma ScanVlanNoneIff(obs: seq<Option<LineFacts>>)
    requires AllWellFormed(obs)
    ensures ScanAll(obs).vlan == "" <==> forall k :: 0 <= k < |obs| ==> VlanOf(obs[k]).None?
  {
    ScanVlanFirstWins(obs);
    forall k | 0 <= k < |obs| ensures NoVlan(obs[k]) <==> VlanOf(obs[k]).None? {
      if obs[k].Some? { assert WellFormed(obs[k].value); }
    }
  }

  /** A kept line with a node and an eth interface also carries a VLAN, so it alone makes
      the parse succeed. */
  lemma EthPathGivesRecord(lines: seq<string>, k: nat)
    requires k < |lines| && Observe(lines[k]).Some? && Observe(lines[k]).value.eth.Some?
    ensures ParseEndpointLines(lines).Some?
  {
    var obs := Observations(lines);
    ParseEndpointNullIff(lines);
    assert VlanOf(Observe(lines[k])).Some?;
    AllPathsContain(obs, k);
    assert Observe(lines[k]).value.eth.value.1 in AllPaths(obs);
  }

  /** The record's VLAN and address are the first ones the kept lines offer. */
  lemma ParseEndpointFirstWins(lines: seq<string>)
    requires ParseEndpointLines(lines).Some?
    ensures var d := ParseEndpointLines(lines).value; var obs := Observations(lines);
      && (exists k :: 0 <= k < |obs| && VlanOf(obs[k]) == Some(d.vlan)
                      && forall m :: 0 <= m < k ==> VlanOf(obs[m]).None?)
      && (d.ip == "" <==> forall k :: 0 <= k < |obs| ==> IpOf(obs[k]) == "")
      && (d.ip != "" ==> exists k :: 0 <= k < |obs| && IpOf(obs[k]) == d.ip
                                     && forall m :: 0 <= m < k ==> IpOf(obs[m]) == "")
  {
    var obs := Observations(lines);
    var st := ScanAll(obs);
    assert ParseEndpointLines(lines).value.vlan == st.vlan && ParseEndpointLines(lines).value.ip == st.defaultIp;
    ScanVlanFirstKept(obs);
    ScanIpFirstWins(obs);
  }

  /** On observations of real lines a usable VLAN capture is simply a present one. */
  lemma ScanVlanFirstKept(obs: seq<Option<LineFacts>>)
    requires AllWellFormed(obs) && ScanAll(obs).vlan != ""
    ensures exists k :: 0 <= k < |obs| && VlanOf(obs[k]) == Some(ScanAll(obs).vlan)
                        && forall m :: 0 <= m < k ==> VlanOf(obs[m]).None?
  {
    ScanVlanFirstWins(obs);
    var k :| 0 <= k < |obs| && VlanOf(obs[k]) == Some(ScanAll(obs).vlan) && forall m :: 0 <= m < k ==> NoVlan(obs[m]);
    forall m | 0 <= m < k ensures VlanOf(obs[m]).None? {
      if obs[m].Some? { assert WellFormed(obs[m].value); }
    }
  }

  /** The record's paths are the distinct paths of the kept lines in first-seen order,
      and its two maps are filled last-wins from the lines' pairs. */
  lemma ParseEndpointCollections(lines: seq<string>)
    requires ParseEndpointLines(lines).Some?
    ensures var d := ParseEndpointLines(lines).value; var obs := Observations(lines);
      && Ordered.FirstSeenOrder(d.paths, AllPaths(obs))
      && d.pathsWithNodes == Ordered.LastWins(AllNodePairs(obs))
      && d.pathsWithIPs == Ordered.LastWins(AllIpPairs(obs))
  {
    var obs := Observations(lines);
    ScanPathsFirstSeen(obs);
    ScanNodesLastWins(obs);
    ScanIpsLastWins(obs);
  }
}
