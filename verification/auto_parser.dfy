/** parseApicEndpointsAuto: the bulk endpoint listing of a whole fabric becomes one
    AutoModeEndpoint per endpoint row. Rows do not repeat their VLAN and EPG; the parser
    remembers the last vlan-<digits> token and the last "AEPg :" value it has seen and
    stamps them on every row that follows.

    As for the single-endpoint listing, the patterns applied to a line (AutoObserve) are
    kept apart from the state update (AutoStep). */
module AutoParser {
  import opened Text
  import opened Patterns
  import Ordered
  import opened Records

  /** What the patterns find on one line. `path` is the VPC group name if there is one,
      else the eth port; `epg` is the trimmed AEPg value. */
  datatype AutoFacts = AutoFacts(
    vlan: Option<string>,
    encap: Option<string>,
    epg: Option<string>,
    mac: Option<string>,
    ip: Option<string>,
    path: Option<string>)

  /** What the patterns guarantee: the encap token is "vlan-" (in any case) followed by
      exactly the VLAN digits. */
  predicate AutoWellFormed(f: AutoFacts) {
    && (f.vlan.Some? ==> f.vlan.value != [] && AllDigits(f.vlan.value))
    && (f.encap.Some? <==> f.vlan.Some?)
    && (f.encap.Some? ==> |f.encap.value| > 5 && LowerString(f.encap.value[..5]) == "vlan-" && f.encap.value[5..] == f.vlan.value)
    && (f.mac.Some? ==> |f.mac.value| == 17)
    && (f.ip.Some? ==> f.ip.value != [])
    && (f.path.Some? ==> f.path.value != [])
  }

  /** The VPC pattern is tried before the eth pattern. */
  function RowPath(line: string): (r: Option<string>)
    ensures VpcGroup(line).Some? ==> r == VpcGroup(line)
    ensures VpcGroup(line).None? ==> r == EthPort(line)
    ensures r.Some? ==> r.value != []
  {
    match VpcGroup(line)
    case Some(p) => Some(p)
    case None => EthPort(line)
  }

  function AutoObserve(line: string): (r: AutoFacts)
    ensures AutoWellFormed(r)
  {
    var epg := match AepgValue(line) case Some(v) => Some(Trim(v)) case None => None;
    AutoFacts(VlanDigits(line), VlanEncap(line), epg, MacAddress(line), DottedQuad(line), RowPath(line))
  }

  predicate AllAutoWellFormed(obs: seq<AutoFacts>) {
    forall k :: 0 <= k < |obs| ==> AutoWellFormed(obs[k])
  }

  function AutoObservations(lines: seq<string>): (r: seq<AutoFacts>)
    ensures |r| == |lines| && forall k :: 0 <= k < |lines| ==> r[k] == AutoObserve(lines[k])
    ensures AllAutoWellFormed(r)
  {
    seq(|lines|, k requires 0 <= k < |lines| => AutoObserve(lines[k]))
  }

  /** What every emitted endpoint satisfies. */
  ghost predicate GoodEndpoint(e: AutoModeEndpoint) {
    && e.ip != [] && |e.mac| == 17 && e.path != []
    && e.vlan != [] && AllDigits(e.vlan)
    && |e.encap| > 5 && LowerString(e.encap[..5]) == "vlan-" && e.encap[5..] == e.vlan
  }

  /** The endpoint a line yields in the context (cv, ce): only a line with a MAC address,
      an IPv4 address and a path, and only once some VLAN is known. Without its own
      vlan token the encap is made up from the current VLAN. */
  function Row(f: AutoFacts, cv: string, ce: string): (r: Option<AutoModeEndpoint>)
    ensures r.Some? <==> f.mac.Some? && f.ip.Some? && f.path.Some? && cv != ""
    ensures r.Some? ==> r.value.vlan == cv && r.value.epg == ce
    ensures r.Some? ==> r.value.ip == f.ip.value && r.value.mac == f.mac.value && r.value.path == f.path.value
    ensures r.Some? && AutoWellFormed(f) && AllDigits(cv) && (f.vlan.Some? ==> cv == f.vlan.value) ==> GoodEndpoint(r.value)
  {
    if f.mac.Some? && f.ip.Some? && f.path.Some? && cv != "" then
      var encap := match f.encap case Some(e) => e case None => "vlan-" + cv;
      assert f.encap.None? ==> encap[..5] == "vlan-" && encap[5..] == cv;
      Some(AutoModeEndpoint(f.ip.value, f.mac.value, f.path.value, cv, encap, ce))
    else None
  }

  /** The loop state: current VLAN, current EPG, endpoints so far. */
  datatype AutoScan = AutoScan(vlan: string, epg: string, out: seq<AutoModeEndpoint>)

  /** The loop body: update the context first, then emit the line's endpoint. */
  function AutoStep(st: AutoScan, f: AutoFacts): AutoScan
  {
    var cv := if f.vlan.Some? then f.vlan.value else st.vlan;
    var ce := if f.epg.Some? then f.epg.value else st.epg;
    AutoScan(cv, ce, st.out + Emit(Row(f, cv, ce)))
  }

  /** The endpoint pushed for one line, if any. */
  function Emit(o: Option<AutoModeEndpoint>): seq<AutoModeEndpoint>
  {
    match o case Some(e) => [e] case None => []
  }

  function AutoScanAll(obs: seq<AutoFacts>): (r: AutoScan)
    ensures AllAutoWellFormed(obs) ==> AllDigits(r.vlan) && forall e :: e in r.out ==> GoodEndpoint(e)
  {
    if obs == [] then AutoScan("", "", [])
    else
      var init := obs[..|obs| - 1];
      assert AllAutoWellFormed(obs) ==> AllAutoWellFormed(init) by {
        assert forall k :: 0 <= k < |init| ==> init[k] == obs[k];
      }
      AutoStep(AutoScanAll(init), obs[|obs| - 1])
  }

  /** The endpoints of all lines. */
  function ParseAutoLines(lines: seq<string>): (r: seq<AutoModeEndpoint>)
    ensures forall e :: e in r ==> GoodEndpoint(e)
  {
    AutoScanAll(AutoObservations(lines)).out
  }

  /** parseApicEndpointsAuto(input) */
  function ParseApicEndpointsAuto(input: string): (r: seq<AutoModeEndpoint>)
    ensures forall e :: e in r ==> GoodEndpoint(e)
  {
    ParseAutoLines(SplitLines(Trim(input)))
  }

  // ---------------------------------------------------------------- the context, independently

  /** The VLAN of the most recent line with a vlan token, or "" before the first one. */
  function CurrentVlan(obs: seq<AutoFacts>): (r: string)
    ensures (forall k :: 0 <= k < |obs| ==> obs[k].vlan.None?) ==> r == ""
    ensures (exists k :: 0 <= k < |obs| && obs[k].vlan.Some?) ==>
      exists k :: 0 <= k < |obs| && obs[k].vlan == Some(r) && forall m :: k < m < |obs| ==> obs[m].vlan.None?
  {
    if obs == [] then ""
    else
      var init := obs[..|obs| - 1];
      assert forall k :: 0 <= k < |init| ==> init[k] == obs[k];
      match obs[|obs| - 1].vlan
      case Some(v) => v
      case None => CurrentVlan(init)
  }

  /** The trimmed value of the most recent "AEPg :" line, or "" before the first one. */
  function CurrentEpg(obs: seq<AutoFacts>): (r: string)
    ensures (forall k :: 0 <= k < |obs| ==> obs[k].epg.None?) ==> r == ""
    ensures (exists k :: 0 <= k < |obs| && obs[k].epg.Some?) ==>
      exists k :: 0 <= k < |obs| && obs[k].epg == Some(r) && forall m :: k < m < |obs| ==> obs[m].epg.None?
  {
    if obs == [] then ""
    else
      var init := obs[..|obs| - 1];
      assert forall k :: 0 <= k < |init| ==> init[k] == obs[k];
      match obs[|obs| - 1].epg
      case Some(v) => v
      case None => CurrentEpg(init)
  }

  /** The endpoint line k yields in the context of the lines up to and including it. */
  function RowAt(obs: seq<AutoFacts>, k: nat): Option<AutoModeEndpoint>
    requires k < |obs|
  {
    Row(obs[k], CurrentVlan(obs[..k + 1]), CurrentEpg(obs[..k + 1]))
  }

  /** What every line yields, each in the context of the lines up to and including it. */
  function RowsOf(obs: seq<AutoFacts>): (r: seq<Option<AutoModeEndpoint>>)
    ensures |r| == |obs| && forall k :: 0 <= k < |obs| ==> r[k] == RowAt(obs, k)
  {
    seq(|obs|, k requires 0 <= k < |obs| => RowAt(obs, k))
  }

  /** The loop's context is the most recent VLAN and EPG. */
  lemma {:induction false} AutoScanContext(obs: seq<AutoFacts>)
    ensures AutoScanAll(obs).vlan == CurrentVlan(obs)
    ensures AutoScanAll(obs).epg == CurrentEpg(obs)
  {
    if obs != [] {
      AutoScanContext(obs[..|obs| - 1]);
    }
  }

  /** A line's context depends only on the lines before it. */
  lemma RowsOfPrefix(obs: seq<AutoFacts>, n: nat)
    requires n <= |obs|
    ensures RowsOf(obs[..n]) == RowsOf(obs)[..n]
  {
    forall k | 0 <= k < n ensures RowAt(obs[..n], k) == RowAt(obs, k) {
      assert obs[..n][..k + 1] == obs[..k + 1];
    }
  }

  /** The output, line by line: every line contributes the endpoint it yields in the
      context of the lines before it and itself, in line order. */
  lemma {:induction false} AutoRowsInOrder(obs: seq<AutoFacts>)
    ensures AutoScanAll(obs).out == Ordered.Somes(RowsOf(obs))
  {
    if obs != [] {
      AutoRowsInOrder(obs[..|obs| - 1]);
      AutoScanLast(obs);
      RowsOfLast(obs);
    }
  }

  /** The last line pushes the endpoint it yields in the context of all lines. */
  lemma AutoScanLast(obs: seq<AutoFacts>)
    requires obs != []
    ensures AutoScanAll(obs).out == AutoScanAll(obs[..|obs| - 1]).out + Emit(RowAt(obs, |obs| - 1))
  {
    AutoScanContext(obs);
    assert obs[..|obs|] == obs;
  }

  lemma RowsOfLast(obs: seq<AutoFacts>)
    requires obs != []
    ensures Ordered.Somes(RowsOf(obs)) == Ordered.Somes(RowsOf(obs[..|obs| - 1])) + Emit(RowAt(obs, |obs| - 1))
  {
    var n := |obs| - 1;
    var rs := RowsOf(obs);
    RowsOfPrefix(obs, n);
    assert Ordered.Somes(rs) == Ordered.Somes(rs[..n]) + Emit(rs[n]);
  }

  /** Appending lines never changes the endpoints found so far. */
  lemma AutoPrefixStable(lines: seq<string>, n: nat)
    requires n <= |lines|
    ensures ParseAutoLines(lines[..n]) <= ParseAutoLines(lines)
  {
    var obs := AutoObservations(lines);
    assert AutoObservations(lines[..n]) == obs[..n];
    AutoRowsInOrder(obs[..n]);
    AutoRowsInOrder(obs);
    RowsOfPrefix(obs, n);
    Ordered.SomesPrefix(RowsOf(obs), n);
  }
}
