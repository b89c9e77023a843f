/** src/App.tsx without its rendering: the list of validation entries and how the user
    edits it, the manual and the automatic validation handlers, the CSV export of every
    path that is not allowed, and the count shown in the header. The clock (Date.now and
    the ISO date of the file name) is a parameter; the download itself is left out, the
    exporter returns the text and the file name it would hand over. */
module App {
  import opened Text
  import opened Patterns
  import Ordered
  import opened Records
  import EndpointParser
  import MoqueryParser
  import AutoParser
  import opened Reconcile

  /** One row of the entry list. */
  datatype Entry = Entry(
    id: string,
    endpointInput: string,
    epgName: string,
    results: Option<seq<ValidationResult>>,
    endpointData: Option<EndpointData>)

  /** An entry has results exactly when it has endpoint data; every handler keeps this. */
  predicate Consistent(entries: seq<Entry>) {
    forall k :: 0 <= k < |entries| ==> (entries[k].results.Some? <==> entries[k].endpointData.Some?)
  }

  const InitialEntries: seq<Entry> := [Entry("1", "", "", None, None)]

  // ---------------------------------------------------------------- editing the entry list

  /** addEntry: a blank entry with id `now` at the end. */
  function AddEntry(entries: seq<Entry>, now: string): (r: seq<Entry>)
    ensures |r| == |entries| + 1 && r[..|entries|] == entries
    ensures r[|entries|] == Entry(now, "", "", None, None)
    ensures Consistent(entries) ==> Consistent(r)
  {
    entries + [Entry(now, "", "", None, None)]
  }

  /** removeEntry: drop the entries with that id, unless only one entry is left; the
      others keep their order. */
  function RemoveEntry(entries: seq<Entry>, id: string): (r: seq<Entry>)
    ensures |entries| <= 1 ==> r == entries
    ensures |entries| > 1 ==> forall e :: e in r <==> e in entries && e.id != id
    ensures |entries| > 1 ==> r == Ordered.Filter(entries, (e: Entry) => e.id != id)
    ensures Consistent(entries) ==> Consistent(r)
  {
    if |entries| > 1 then Ordered.Filter(entries, (e: Entry) => e.id != id) else entries
  }

  function Ids(entries: seq<Entry>): (r: seq<string>)
    ensures |r| == |entries| && forall k :: 0 <= k < |entries| ==> r[k] == entries[k].id
  {
    seq(|entries|, k requires 0 <= k < |entries| => entries[k].id)
  }

  /** With distinct ids the list never becomes empty. */
  lemma RemoveEntryKeepsOne(entries: seq<Entry>, id: string)
    requires entries != [] && Ordered.NoDup(Ids(entries))
    ensures RemoveEntry(entries, id) != []
  {
    if |entries| > 1 {
      var k := if entries[0].id != id then 0 else 1;
      assert entries[k] in RemoveEntry(entries, id);
    }
  }

  /** With a repeated id it can: the guard counts entries, not ids. */
  lemma RemoveEntryWithRepeatedIds()
    ensures RemoveEntry([Entry("1", "", "", None, None), Entry("1", "", "", None, None)], "1") == []
  {
    var e := Entry("1", "", "", None, None);
    var r := RemoveEntry([e, e], "1");
    assert forall x :: x in r ==> x.id != "1";
    assert e !in r;
  }

  datatype Field = EndpointInputField | EpgNameField

  /** updateEntry: set one text field of the entries with that id; nothing else changes
      (in particular results computed from the old text are kept). */
  function UpdateEntry(entries: seq<Entry>, id: string, field: Field, value: string): (r: seq<Entry>)
    ensures |r| == |entries|
    ensures forall k :: 0 <= k < |r| && entries[k].id != id ==> r[k] == entries[k]
    ensures forall k :: 0 <= k < |r| && entries[k].id == id ==>
      && r[k].id == id && r[k].results == entries[k].results && r[k].endpointData == entries[k].endpointData
      && r[k].endpointInput == (if field == EndpointInputField then value else entries[k].endpointInput)
      && r[k].epgName == (if field == EpgNameField then value else entries[k].epgName)
    ensures Consistent(entries) ==> Consistent(r)
  {
    seq(|entries|, k requires 0 <= k < |entries| =>
      var e := entries[k];
      if e.id != id then e
      else match field
        case EndpointInputField => e.(endpointInput := value)
        case EpgNameField => e.(epgName := value))
  }

  // ---------------------------------------------------------------- the application state

  datatype Mode = Manual | Automatic

  /** The state the handlers read and write. */
  datatype AppState = AppState(
    moqueryInput: string,
    apicRawInput: string,
    entries: seq<Entry>,
    pathAttachments: seq<PathAttachment>,
    autoEndpoints: seq<AutoModeEndpoint>,
    error: Option<string>)

  const MoqueryError := "Unable to parse moquery data. Please check your input."
  const EndpointError := "Unable to parse APIC endpoint data. Please check your input."
  const NothingToExport := "No validation issues to export."

  // ---------------------------------------------------------------- manual validation

  lemma DigitIsNotBlank(s: string)
    ensures HasDigit(s) ==> Trim(s) != []
  {
    if HasDigit(s) {
      TrimEmptyIffAllSpace(s);
      var i :| 0 <= i < |s| && IsDigit(s[i]);
      assert !IsSpace(s[i]);
    }
  }

  /** One entry in manual mode: it is validated only when its endpoint text is not blank
      and parses, and its EPG name holds a digit; the VLAN is then the one the EPG name
      implies, not the one of the endpoint text. Otherwise the entry is returned as is. */
  function ValidateEntry(e: Entry, moq: seq<PathAttachment>): (r: Entry)
    ensures r.id == e.id && r.endpointInput == e.endpointInput && r.epgName == e.epgName
    ensures (e.results.Some? <==> e.endpointData.Some?) ==> (r.results.Some? <==> r.endpointData.Some?)
    ensures (|| Trim(e.endpointInput) == []
             || EndpointParser.ParseEndpointOutput(e.endpointInput).None?
             || !HasDigit(e.epgName)) ==> r == e
    ensures Trim(e.endpointInput) != [] && EndpointParser.ParseEndpointOutput(e.endpointInput).Some? && HasDigit(e.epgName) ==>
      && r.endpointData.Some? && r.results.Some?
      && r.endpointData.value == EndpointParser.ParseEndpointOutput(e.endpointInput).value.(vlan := r.endpointData.value.vlan)
      && r.endpointData.value.vlan == ExtractVlanFromEpg(e.epgName)
      && r.results.value == ValidateVlanAllowances(r.endpointData.value, moq)
  {
    DigitIsNotBlank(e.epgName);
    if Trim(e.endpointInput) == [] then e
    else match EndpointParser.ParseEndpointOutput(e.endpointInput)
      case None => e
      case Some(parsed) =>
        if Trim(e.epgName) == [] then e
        else
          var vlan := ExtractVlanFromEpg(e.epgName);
          if vlan == "" then e
          else
            var ed := parsed.(vlan := vlan);
            e.(results := Some(ValidateVlanAllowances(ed, moq)), endpointData := Some(ed))
  }

  /** handleValidateManual */
  function HandleValidateManual(st: AppState): (r: AppState)
    ensures r.moqueryInput == st.moqueryInput && r.apicRawInput == st.apicRawInput
    ensures MoqueryParser.ParseMoqueryOutput(st.moqueryInput) == [] ==> r == st.(error := Some(MoqueryError))
    ensures MoqueryParser.ParseMoqueryOutput(st.moqueryInput) != [] ==>
      && r.pathAttachments == MoqueryParser.ParseMoqueryOutput(st.moqueryInput)
      && r.error == st.error && r.autoEndpoints == st.autoEndpoints
      && |r.entries| == |st.entries|
      && forall k :: 0 <= k < |r.entries| ==> r.entries[k] == ValidateEntry(st.entries[k], r.pathAttachments)
    ensures Consistent(st.entries) ==> Consistent(r.entries)
  {
    var parsed := MoqueryParser.ParseMoqueryOutput(st.moqueryInput);
    if |parsed| == 0 then st.(error := Some(MoqueryError))
    else
      st.(pathAttachments := parsed, entries := ValidateEntries(st.entries, parsed))
  }

  /** Every entry validated against the same attachments. */
  function ValidateEntries(entries: seq<Entry>, moq: seq<PathAttachment>): (r: seq<Entry>)
    ensures |r| == |entries| && forall k :: 0 <= k < |r| ==> r[k] == ValidateEntry(entries[k], moq)
    ensures Consistent(entries) ==> Consistent(r)
  {
    var r := seq(|entries|, k requires 0 <= k < |entries| => ValidateEntry(entries[k], moq));
    assert Consistent(entries) ==> Consistent(r) by {
      if Consistent(entries) {
        forall k | 0 <= k < |r| ensures r[k].results.Some? <==> r[k].endpointData.Some? {
          assert entries[k].results.Some? <==> entries[k].endpointData.Some?;
        }
      }
    }
    r
  }

  // ---------------------------------------------------------------- automatic validation

  /** groupedByVlan: a Map from VLAN to its endpoints, keys in insertion order. */
  datatype Groups = Groups(keys: seq<string>, members: map<string, seq<AutoModeEndpoint>>)

  function AddToGroup(g: Groups, e: AutoModeEndpoint): Groups
  {
    if e.vlan in g.members then Groups(g.keys, g.members[e.vlan := g.members[e.vlan] + [e]])
    else Groups(g.keys + [e.vlan], g.members[e.vlan := [e]])
  }

  function GroupByVlan(eps: seq<AutoModeEndpoint>): (r: Groups)
    ensures forall v :: v in r.members <==> v in r.keys
    ensures forall v :: v in r.members ==> r.members[v] != []
  {
    if eps == [] then Groups([], map[]) else AddToGroup(GroupByVlan(eps[..|eps| - 1]), eps[|eps| - 1])
  }

  /** The VLANs of the endpoints, in order, repetitions included. */
  function Vlans(eps: seq<AutoModeEndpoint>): (r: seq<string>)
    ensures |r| == |eps| && forall k :: 0 <= k < |eps| ==> r[k] == eps[k].vlan
  {
    if eps == [] then [] else Vlans(eps[..|eps| - 1]) + [eps[|eps| - 1].vlan]
  }

  /** The endpoints on VLAN v, in order. */
  function OnVlanEndpoints(eps: seq<AutoModeEndpoint>, v: string): (r: seq<AutoModeEndpoint>)
    ensures forall e :: e in r ==> e in eps && e.vlan == v
  {
    if eps == [] then []
    else OnVlanEndpoints(eps[..|eps| - 1], v) + (if eps[|eps| - 1].vlan == v then [eps[|eps| - 1]] else [])
  }

  /** The groups are the VLANs in order of first appearance ... */
  lemma {:induction false} GroupKeys(eps: seq<AutoModeEndpoint>)
    ensures GroupByVlan(eps).keys == Ordered.Distinct(Vlans(eps))
  {
    if eps != [] {
      var init := eps[..|eps| - 1];
      var e := eps[|eps| - 1];
      GroupKeys(init);
      Ordered.DistinctSnoc(Vlans(init), e.vlan);
    }
  }

  /** ... each with its endpoints in order. */
  lemma {:induction false} GroupMembers(eps: seq<AutoModeEndpoint>, v: string)
    ensures v in GroupByVlan(eps).members ==> GroupByVlan(eps).members[v] == OnVlanEndpoints(eps, v)
    ensures v !in GroupByVlan(eps).members ==> OnVlanEndpoints(eps, v) == []
  {
    if eps != [] {
      var init := eps[..|eps| - 1];
      var e := eps[|eps| - 1];
      GroupMembers(init, v);
      var g := GroupByVlan(init);
      assert GroupByVlan(eps) == AddToGroup(g, e);
      if e.vlan == v {
        assert OnVlanEndpoints(eps, v) == OnVlanEndpoints(init, v) + [e];
        if v in g.members {
          assert GroupByVlan(eps).members[v] == g.members[v] + [e];
        } else {
          assert GroupByVlan(eps).members[v] == [] + [e];
        }
      } else {
        assert OnVlanEndpoints(eps, v) == OnVlanEndpoints(init, v) + [];
        assert GroupByVlan(eps).members == g.members[e.vlan := GroupByVlan(eps).members[e.vlan]];
      }
    }
  }

  function PathsOf(eps: seq<AutoModeEndpoint>): (r: seq<string>)
    ensures |r| == |eps| && forall k :: 0 <= k < |eps| ==> r[k] == eps[k].path
  {
    seq(|eps|, k requires 0 <= k < |eps| => eps[k].path)
  }

  function PathIpPairs(eps: seq<AutoModeEndpoint>): (r: seq<(string, string)>)
    ensures |r| == |eps| && forall k :: 0 <= k < |eps| ==> r[k] == (eps[k].path, eps[k].ip)
  {
    seq(|eps|, k requires 0 <= k < |eps| => (eps[k].path, eps[k].ip))
  }

  /** The endpoint data of one VLAN group: its distinct paths in order of first
      appearance, the address of its first endpoint, and for each path the address of
      the last endpoint on it. */
  function GroupEndpointData(vlan: string, group: seq<AutoModeEndpoint>): (r: EndpointData)
    requires group != []
    ensures r.vlan == vlan && r.ip == group[0].ip && r.pod == "" && r.pathsWithNodes == map[]
    ensures Ordered.NoDup(r.paths) && forall p :: p in r.paths <==> exists e :: e in group && e.path == p
    ensures Ordered.FirstSeenOrder(r.paths, PathsOf(group))
    ensures forall p :: p in r.pathsWithIPs <==> p in r.paths
  {
    var paths := Ordered.Distinct(PathsOf(group));
    Ordered.DistinctFirstSeen(PathsOf(group));
    GroupPaths(group);
    var ips := Ordered.LastWins(PathIpPairs(group));
    GroupIpKeys(group);
    EndpointData(vlan, group[0].ip, paths, "", map[], ips)
  }

  lemma GroupPaths(group: seq<AutoModeEndpoint>)
    ensures forall p :: p in Ordered.Distinct(PathsOf(group)) <==> exists e :: e in group && e.path == p
  {
    var ps := PathsOf(group);
    forall p ensures p in ps <==> exists e :: e in group && e.path == p {
      if p in ps {
        var k :| 0 <= k < |ps| && ps[k] == p;
        assert group[k] in group;
      }
      if exists e :: e in group && e.path == p {
        var e :| e in group && e.path == p;
        var k :| 0 <= k < |group| && group[k] == e;
        assert ps[k] == p;
      }
    }
  }

  lemma GroupIpKeys(group: seq<AutoModeEndpoint>)
    ensures forall p :: p in Ordered.LastWins(PathIpPairs(group)) <==> p in Ordered.Distinct(PathsOf(group))
  {
    var qs := PathIpPairs(group);
    var ps := PathsOf(group);
    forall p ensures p in Ordered.LastWins(qs) <==> p in ps {
      Ordered.LastWinsSpec(qs, p);
      if p in ps {
        var k :| 0 <= k < |ps| && ps[k] == p;
        assert qs[k].0 == p;
      }
    }
  }

  /** The candidate EPG names of a group: the names the attachment query lists for its
      VLAN, else the EPG of its first endpoint, else VLAN<vlan>. */
  function CandidateEpgs(vlan: string, group: seq<AutoModeEndpoint>, epgsByVlan: map<string, seq<string>>): (r: seq<string>)
    requires group != []
    ensures vlan in epgsByVlan ==> r == epgsByVlan[vlan]
    ensures vlan !in epgsByVlan && group[0].epg != "" ==> r == [group[0].epg]
    ensures vlan !in epgsByVlan && group[0].epg == "" ==> r == ["VLAN" + vlan]
  {
    if vlan in epgsByVlan then epgsByVlan[vlan]
    else [if group[0].epg != "" then group[0].epg else "VLAN" + vlan]
  }

  /** The entry for one VLAN group; its id is the clock reading followed by the group's
      index. Its EPG name is the best-scoring candidate, else the first candidate when it
      is not empty, else VLAN<vlan>; it is never empty and, when some candidate is chosen,
      it is one of the candidates. */
  function AutoEntry(vlan: string, group: seq<AutoModeEndpoint>, idx: nat, moq: seq<PathAttachment>,
                     epgsByVlan: map<string, seq<string>>, now: string): (r: Entry)
    requires group != []
    ensures r.id == now + NatToString(idx) && r.endpointInput == ""
    ensures r.endpointData == Some(GroupEndpointData(vlan, group))
    ensures r.results == Some(ValidateVlanAllowances(r.endpointData.value, moq))
    ensures r.epgName != ""
    ensures var list := CandidateEpgs(vlan, group, epgsByVlan);
            var best := SelectBestEpgMatch(group[0].ip, list, GroupEndpointData(vlan, group).paths);
      && (best != "" ==> r.epgName == best && r.epgName in list)
      && (best == "" && list != [] && list[0] != "" ==> r.epgName == list[0])
      && (best == "" && (list == [] || list[0] == "") ==> r.epgName == "VLAN" + vlan)
  {
    var ed := GroupEndpointData(vlan, group);
    var list := CandidateEpgs(vlan, group, epgsByVlan);
    var best := SelectBestEpgMatch(group[0].ip, list, ed.paths);
    var name := if best != "" then best else if list != [] && list[0] != "" then list[0] else "VLAN" + vlan;
    Entry(now + NatToString(idx), "", name, Some(ValidateVlanAllowances(ed, moq)), Some(ed))
  }

  /** The entries of automatic mode: one per VLAN, in order of first appearance. */
  function AutoEntries(eps: seq<AutoModeEndpoint>, moq: seq<PathAttachment>, epgsByVlan: map<string, seq<string>>, now: string): (r: seq<Entry>)
    ensures |r| == |GroupByVlan(eps).keys|
    ensures forall k :: 0 <= k < |r| ==> r[k].endpointData.Some? && r[k].endpointData.value.vlan == GroupByVlan(eps).keys[k]
    ensures forall k :: 0 <= k < |r| ==> r[k].epgName != "" && r[k].results.Some? && r[k].endpointInput == ""
    ensures forall k :: 0 <= k < |r| ==> r[k].id == now + NatToString(k)
  {
    var g := GroupByVlan(eps);
    var r := seq(|g.keys|, k requires 0 <= k < |g.keys| => AutoEntry(g.keys[k], g.members[g.keys[k]], k, moq, epgsByVlan, now));
    forall k | 0 <= k < |r|
      ensures && r[k].endpointData.Some? && r[k].endpointData.value.vlan == g.keys[k]
              && r[k].epgName != "" && r[k].results.Some? && r[k].endpointInput == ""
              && r[k].id == now + NatToString(k)
    {
      AutoEntryShape(g.keys[k], g.members[g.keys[k]], k, moq, epgsByVlan, now, r[k]);
    }
    r
  }

  lemma AutoEntryShape(vlan: string, group: seq<AutoModeEndpoint>, idx: nat, moq: seq<PathAttachment>,
                       epgsByVlan: map<string, seq<string>>, now: string, e: Entry)
    requires group != [] && e == AutoEntry(vlan, group, idx, moq, epgsByVlan, now)
    ensures && e.endpointData.Some? && e.endpointData.value.vlan == vlan
            && e.epgName != "" && e.results.Some? && e.endpointInput == ""
            && e.id == now + NatToString(idx)
  {
  }

  /** One entry per VLAN, in order of first appearance; entry k is built from the
      endpoints of the k-th VLAN. */
  lemma AutoEntriesGroups(eps: seq<AutoModeEndpoint>, moq: seq<PathAttachment>, epgsByVlan: map<string, seq<string>>, now: string, k: nat)
    requires k < |Ordered.Distinct(Vlans(eps))|
    ensures |AutoEntries(eps, moq, epgsByVlan, now)| == |Ordered.Distinct(Vlans(eps))|
    ensures var v := Ordered.Distinct(Vlans(eps))[k];
      && OnVlanEndpoints(eps, v) != []
      && AutoEntries(eps, moq, epgsByVlan, now)[k] == AutoEntry(v, OnVlanEndpoints(eps, v), k, moq, epgsByVlan, now)
  {
    var g := GroupByVlan(eps);
    GroupKeys(eps);
    var v := g.keys[k];
    GroupMembers(eps, v);
    AutoEntriesAt(eps, moq, epgsByVlan, now, k);
  }

  lemma AutoEntriesAt(eps: seq<AutoModeEndpoint>, moq: seq<PathAttachment>, epgsByVlan: map<string, seq<string>>, now: string, k: nat)
    requires k < |GroupByVlan(eps).keys|
    ensures var g := GroupByVlan(eps);
      && g.keys[k] in g.members && g.members[g.keys[k]] != []
      && AutoEntries(eps, moq, epgsByVlan, now)[k] == AutoEntry(g.keys[k], g.members[g.keys[k]], k, moq, epgsByVlan, now)
  {
  }

  /** handleValidateAuto */
  function HandleValidateAuto(st: AppState, now: string): (r: AppState)
    ensures r.moqueryInput == st.moqueryInput && r.apicRawInput == st.apicRawInput
    ensures MoqueryParser.ParseMoqueryOutput(st.moqueryInput) == [] ==> r == st.(error := Some(MoqueryError))
    ensures MoqueryParser.ParseMoqueryOutput(st.moqueryInput) != [] && AutoParser.ParseApicEndpointsAuto(st.apicRawInput) == [] ==>
      r == st.(error := Some(EndpointError))
    ensures MoqueryParser.ParseMoqueryOutput(st.moqueryInput) != [] && AutoParser.ParseApicEndpointsAuto(st.apicRawInput) != [] ==>
      && r.pathAttachments == MoqueryParser.ParseMoqueryOutput(st.moqueryInput)
      && r.autoEndpoints == AutoParser.ParseApicEndpointsAuto(st.apicRawInput)
      && r.error == st.error
      && r.entries == AutoEntries(r.autoEndpoints, r.pathAttachments, MoqueryParser.ExtractEpgNamesFromMoquery(st.moqueryInput), now)
    ensures Consistent(st.entries) ==> Consistent(r.entries)
  {
    var parsed := MoqueryParser.ParseMoqueryOutput(st.moqueryInput);
    if |parsed| == 0 then st.(error := Some(MoqueryError))
    else
      var eps := AutoParser.ParseApicEndpointsAuto(st.apicRawInput);
      if |eps| == 0 then st.(error := Some(EndpointError))
      else
        var epgsByVlan := MoqueryParser.ExtractEpgNamesFromMoquery(st.moqueryInput);
        st.(pathAttachments := parsed, autoEndpoints := eps, entries := AutoEntries(eps, parsed, epgsByVlan, now))
  }

  /** handleValidate: clear the error, then run the handler of the current mode. The
      error shown afterwards is that of the failing parse, or none when validation ran. */
  function HandleValidate(st: AppState, mode: Mode, now: string): (r: AppState)
    ensures Consistent(st.entries) ==> Consistent(r.entries)
    ensures r.moqueryInput == st.moqueryInput && r.apicRawInput == st.apicRawInput
    ensures MoqueryParser.ParseMoqueryOutput(st.moqueryInput) == [] ==>
      r == st.(error := Some(MoqueryError))
    ensures mode == Automatic && MoqueryParser.ParseMoqueryOutput(st.moqueryInput) != []
            && AutoParser.ParseApicEndpointsAuto(st.apicRawInput) == [] ==>
      r == st.(error := Some(EndpointError))
    ensures mode == Manual && MoqueryParser.ParseMoqueryOutput(st.moqueryInput) != [] ==>
      && r.error.None? && r.pathAttachments == MoqueryParser.ParseMoqueryOutput(st.moqueryInput)
      && r.entries == ValidateEntries(st.entries, r.pathAttachments)
      && r.autoEndpoints == st.autoEndpoints
    ensures mode == Automatic && MoqueryParser.ParseMoqueryOutput(st.moqueryInput) != []
            && AutoParser.ParseApicEndpointsAuto(st.apicRawInput) != [] ==>
      && r.error.None? && r.pathAttachments == MoqueryParser.ParseMoqueryOutput(st.moqueryInput)
      && r.autoEndpoints == AutoParser.ParseApicEndpointsAuto(st.apicRawInput)
      && r.entries == AutoEntries(r.autoEndpoints, r.pathAttachments, MoqueryParser.ExtractEpgNamesFromMoquery(st.moqueryInput), now)
  {
    var cleared := st.(error := None);
    match mode
    case Manual => HandleValidateManual(cleared)
    case Automatic => HandleValidateAuto(cleared, now)
  }

  /** Automatic mode gives every entry a distinct id. */
  lemma AutoIdsDistinct(eps: seq<AutoModeEndpoint>, moq: seq<PathAttachment>, epgsByVlan: map<string, seq<string>>, now: string)
    ensures Ordered.NoDup(Ids(AutoEntries(eps, moq, epgsByVlan, now)))
  {
    var r := AutoEntries(eps, moq, epgsByVlan, now);
    forall i, j | 0 <= i < j < |r| ensures r[i].id != r[j].id {
      assert r[i].id[|now|..] == NatToString(i);
      assert r[j].id[|now|..] == NatToString(j);
      assert DigitsValue(r[i].id[|now|..]) != DigitsValue(r[j].id[|now|..]);
    }
  }

  /** Each automatic entry's endpoint data: the endpoints of its VLAN, the address of the
      first of them, and for each path the address of the last endpoint on that path. */
  lemma AutoEntryEndpoints(eps: seq<AutoModeEndpoint>, moq: seq<PathAttachment>, epgsByVlan: map<string, seq<string>>, now: string, k: nat)
    requires k < |Ordered.Distinct(Vlans(eps))|
    ensures |AutoEntries(eps, moq, epgsByVlan, now)| == |Ordered.Distinct(Vlans(eps))|
    ensures var v := Ordered.Distinct(Vlans(eps))[k];
      var ed := AutoEntries(eps, moq, epgsByVlan, now)[k].endpointData.value;
      && ed.vlan == v
      && (forall p :: p in ed.paths <==> exists e :: e in eps && e.vlan == v && e.path == p)
      && (exists i :: 0 <= i < |eps| && eps[i].vlan == v && ed.ip == eps[i].ip && forall j :: 0 <= j < i ==> eps[j].vlan != v)
      && (forall p :: p in ed.pathsWithIPs ==> Ordered.LastWrite(PathIpPairs(OnVlanEndpoints(eps, v)), p, ed.pathsWithIPs[p]))
  {
    var v := Ordered.Distinct(Vlans(eps))[k];
    var group := OnVlanEndpoints(eps, v);
    AutoEntriesGroups(eps, moq, epgsByVlan, now, k);
    var ed := AutoEntries(eps, moq, epgsByVlan, now)[k].endpointData.value;
    OnVlanMembers(eps, v);
    OnVlanFirst(eps, v);
    forall p | p in ed.pathsWithIPs ensures Ordered.LastWrite(PathIpPairs(group), p, ed.pathsWithIPs[p]) {
      Ordered.LastWinsSpec(PathIpPairs(group), p);
    }
  }

  lemma {:induction false} OnVlanMembers(eps: seq<AutoModeEndpoint>, v: string)
    ensures forall e :: e in OnVlanEndpoints(eps, v) <==> e in eps && e.vlan == v
  {
    if eps != [] {
      OnVlanMembers(eps[..|eps| - 1], v);
      assert eps == eps[..|eps| - 1] + [eps[|eps| - 1]];
    }
  }

  /** The first endpoint of a group is the first endpoint on that VLAN. */
  lemma {:induction false} OnVlanFirst(eps: seq<AutoModeEndpoint>, v: string)
    requires OnVlanEndpoints(eps, v) != []
    ensures exists i :: 0 <= i < |eps| && eps[i] == OnVlanEndpoints(eps, v)[0] && eps[i].vlan == v
                        && forall j :: 0 <= j < i ==> eps[j].vlan != v
  {
    var init := eps[..|eps| - 1];
    if OnVlanEndpoints(init, v) != [] {
      OnVlanFirst(init, v);
      var i :| 0 <= i < |init| && init[i] == OnVlanEndpoints(init, v)[0] && init[i].vlan == v
               && forall j :: 0 <= j < i ==> init[j].vlan != v;
      OnVlanFirstShift(eps, v, i);
    } else {
      OnVlanNone(init, v);
      assert forall j :: 0 <= j < |eps| - 1 ==> eps[j] == init[j];
      OnVlanFirstIsLast(eps, v);
    }
  }

  /** The first endpoint on v among all but the last is the first among all. */
  lemma OnVlanFirstShift(eps: seq<AutoModeEndpoint>, v: string, i: nat)
    requires eps != [] && i < |eps| - 1
    requires var init := eps[..|eps| - 1];
      && OnVlanEndpoints(init, v) != [] && init[i] == OnVlanEndpoints(init, v)[0] && init[i].vlan == v
      && forall j :: 0 <= j < i ==> init[j].vlan != v
    ensures OnVlanEndpoints(eps, v) != [] && eps[i] == OnVlanEndpoints(eps, v)[0] && eps[i].vlan == v
    ensures forall j :: 0 <= j < i ==> eps[j].vlan != v
  {
    var init := eps[..|eps| - 1];
    var last := eps[|eps| - 1];
    var tail := if last.vlan == v then [last] else [];
    assert OnVlanEndpoints(eps, v) == OnVlanEndpoints(init, v) + tail;
    assert eps[i] == init[i];
    assert forall j :: 0 <= j < i ==> eps[j] == init[j];
  }

  /** When no earlier endpoint is on v, the first endpoint on v is the last one. */
  lemma OnVlanFirstIsLast(eps: seq<AutoModeEndpoint>, v: string)
    requires OnVlanEndpoints(eps, v) != []
    requires forall j :: 0 <= j < |eps| - 1 ==> eps[j].vlan != v
    ensures eps[|eps| - 1] == OnVlanEndpoints(eps, v)[0] && eps[|eps| - 1].vlan == v
  {
    var init := eps[..|eps| - 1];
    assert forall j :: 0 <= j < |init| ==> init[j] == eps[j];
    OnVlanNoneIff(init, v);
    var last := eps[|eps| - 1];
    assert OnVlanEndpoints(eps, v) == OnVlanEndpoints(init, v) + (if last.vlan == v then [last] else []);
    assert forall j :: 0 <= j < |eps| - 1 ==> eps[j] == init[j];
  }

  lemma OnVlanNoneIff(eps: seq<AutoModeEndpoint>, v: string)
    requires forall j :: 0 <= j < |eps| ==> eps[j].vlan != v
    ensures OnVlanEndpoints(eps, v) == []
  {
    OnVlanMembers(eps, v);
  }

  lemma OnVlanNone(eps: seq<AutoModeEndpoint>, v: string)
    requires OnVlanEndpoints(eps, v) == []
    ensures forall j :: 0 <= j < |eps| ==> eps[j].vlan != v
  {
    OnVlanMembers(eps, v);
    assert forall j :: 0 <= j < |eps| ==> eps[j] in eps;
  }

  // ---------------------------------------------------------------- export

  /** determinePodByNode: nodes 300 to 399 are in pod-1, every other node (and a node
      that does not start with a digit) in pod-2. */
  function PodByNode(node: string): (r: string)
    ensures r == "pod-1" || r == "pod-2"
    ensures r == "pod-1" <==> LeadingInt(node).Some? && 300 <= LeadingInt(node).value < 400
  {
    match LeadingInt(node)
    case Some(n) => if 300 <= n < 400 then "pod-1" else if 400 <= n < 500 then "pod-2" else "pod-2"
    case None => "pod-2"
  }

  /** The EPG column: the name as is when it already starts with "EPG-" in any case,
      else with "EPG-" in front. */
  function FormatEpg(name: string): (r: string)
    ensures StartsWith(UpperString(r), "EPG-")
    ensures StartsWith(UpperString(name), "EPG-") ==> r == name
    ensures !StartsWith(UpperString(name), "EPG-") ==> r == "EPG-" + name
  {
    if StartsWith(UpperString(name), "EPG-") then name
    else
      assert UpperString("EPG-" + name)[..4] == "EPG-";
      "EPG-" + name
  }

  lemma FormatEpgIdempotent(name: string)
    ensures FormatEpg(FormatEpg(name)) == FormatEpg(name)
  {
  }

  predicate SameNormalizedPath(a: PathAttachment, path: string) {
    NormalizePathName(a.path) == NormalizePathName(path)
  }

  /** No attachment has the same normalised path. */
  predicate NoExactMatch(path: string, atts: seq<PathAttachment>) {
    forall j :: 0 <= j < |atts| ==> !SameNormalizedPath(atts[j], path)
  }

  /** The configuration path of one path that is not allowed: the first attachment with
      the same normalised path; else a VPC name <digits>-<digits>-VPC with the pod of
      its first node; else a path starting with <digits>- or <digits>/; else the node
      the endpoint listing gave for the path; else node XXX in pod-2. */
  function ExportPath(path: string, atts: seq<PathAttachment>, nodes: map<string, string>): (r: string)
  {
    match Ordered.Find(atts, (a: PathAttachment) => SameNormalizedPath(a, path))
    case Some(a) => a.fullPath
    case None =>
      match DigitNodePair(path)
      case Some((n1, n2)) => PodByNode(n1) + "/protpaths-" + n1 + "-" + n2 + "/pathep-[" + path + "]"
      case None =>
        match LeadingNode(path, IsDigit)
        case Some(node) => PodByNode(node) + "/paths-" + node + "/pathep-[" + path + "]"
        case None =>
          if path in nodes then PodByNode(nodes[path]) + "/paths-" + nodes[path] + "/pathep-[" + path + "]"
          else "pod-2/paths-XXX/pathep-[" + path + "]"
  }

  /** A VPC name <n1>-<n2>-VPC without an exact match: the pair of nodes in the pod of n1. */
  lemma ExportVpcPath(path: string, atts: seq<PathAttachment>, nodes: map<string, string>)
    requires NoExactMatch(path, atts) && DigitNodePair(path).Some?
    ensures var (n1, n2) := DigitNodePair(path).value;
      ExportPath(path, atts, nodes) == PodByNode(n1) + "/protpaths-" + n1 + "-" + n2 + "/pathep-[" + path + "]"
  {
  }

  /** A path starting with <node>- or <node>/ and no VPC name: that node in its pod. */
  lemma ExportLeadingNodePath(path: string, atts: seq<PathAttachment>, nodes: map<string, string>)
    requires NoExactMatch(path, atts) && DigitNodePair(path).None? && LeadingNode(path, IsDigit).Some?
    ensures var node := LeadingNode(path, IsDigit).value;
      ExportPath(path, atts, nodes) == PodByNode(node) + "/paths-" + node + "/pathep-[" + path + "]"
  {
  }

  /** A path with no node in its name: the node the endpoint listing recorded for it. */
  lemma ExportRecordedNodePath(path: string, atts: seq<PathAttachment>, nodes: map<string, string>)
    requires NoExactMatch(path, atts) && DigitNodePair(path).None? && LeadingNode(path, IsDigit).None?
    requires path in nodes
    ensures ExportPath(path, atts, nodes) == PodByNode(nodes[path]) + "/paths-" + nodes[path] + "/pathep-[" + path + "]"
  {
  }

  /** The exporter takes the FIRST attachment with the same normalised path. */
  lemma ExportUsesFirstExactMatch(path: string, atts: seq<PathAttachment>, nodes: map<string, string>)
    requires exists a :: a in atts && SameNormalizedPath(a, path)
    ensures exists k :: (0 <= k < |atts| && SameNormalizedPath(atts[k], path)
      && (forall j :: 0 <= j < k ==> !SameNormalizedPath(atts[j], path))
      && ExportPath(path, atts, nodes) == atts[k].fullPath)
  {
    var p := (a: PathAttachment) => SameNormalizedPath(a, path);
    var a :| a in atts && SameNormalizedPath(a, path);
    var i :| 0 <= i < |atts| && atts[i] == a;
    assert p(atts[i]);
    var found := Ordered.Find(atts, p);
    assert found.Some?;
    assert ExportPath(path, atts, nodes) == found.value.fullPath;
  }

  /** generateCSV takes the LAST one, so the two disagree when two attachments share a
      normalised path but not a fullPath. */
  lemma ExportAndGenerateCsvDisagree(path: string, a: PathAttachment, b: PathAttachment, nodes: map<string, string>, pod: string)
    requires SameNormalizedPath(a, path) && SameNormalizedPath(b, path) && a.fullPath != b.fullPath
    ensures ExportPath(path, [a, b], nodes) == a.fullPath
    ensures CsvPath(path, PathIndex([a, b]), [a, b], pod) == b.fullPath
  {
    ExportUsesFirstExactMatch(path, [a, b], nodes);
    CsvUsesLastExactMatch(path, [a, b], pod);
  }

  /** Without an exact match, a path with no node in its name and none recorded falls
      back to node XXX in pod-2. */
  lemma ExportUnresolvable(path: string, atts: seq<PathAttachment>, nodes: map<string, string>)
    requires forall a :: a in atts ==> !SameNormalizedPath(a, path)
    requires DigitNodePair(path).None? && LeadingNode(path, IsDigit).None? && path !in nodes
    ensures ExportPath(path, atts, nodes) == "pod-2/paths-XXX/pathep-[" + path + "]"
  {
    var p := (a: PathAttachment) => SameNormalizedPath(a, path);
    assert forall j :: 0 <= j < |atts| ==> !p(atts[j]) by {
      forall j | 0 <= j < |atts| ensures !p(atts[j]) { assert atts[j] in atts; }
    }
  }

  /** The VLAN column: the VLAN the EPG name implies, else the entry's VLAN. */
  function ExportVlan(e: Entry): (r: string)
    requires e.endpointData.Some?
    ensures HasDigit(e.epgName) ==> r == ExtractVlanFromEpg(e.epgName)
    ensures !HasDigit(e.epgName) ==> r == e.endpointData.value.vlan
  {
    var v := ExtractVlanFromEpg(e.epgName);
    if v != "" then v else e.endpointData.value.vlan
  }

  /** One row of the export: the VLAN column, the EPG column and the configuration path. */
  function ExportRow(e: Entry, path: string, atts: seq<PathAttachment>): string
    requires e.endpointData.Some?
  {
    ExportVlan(e) + "," + FormatEpg(e.epgName) + "," + ExportPath(path, atts, e.endpointData.value.pathsWithNodes)
  }

  /** The rows one entry contributes: row k is that of its k-th result that is not
      allowed; an entry without results or endpoint data contributes none. */
  function EntryRows(e: Entry, atts: seq<PathAttachment>): (r: seq<string>)
    ensures e.results.Some? && e.endpointData.Some? ==> |r| == |NotAllowedPaths(e.results.value)|
    ensures e.results.None? || e.endpointData.None? ==> r == []
  {
    if e.results.Some? && e.endpointData.Some? then
      var paths := NotAllowedPaths(e.results.value);
      seq(|paths|, k requires 0 <= k < |paths| => ExportRow(e, paths[k], atts))
    else []
  }

  /** Row k of an entry is the row of its k-th result that is not allowed. */
  lemma EntryRowsAt(e: Entry, atts: seq<PathAttachment>)
    requires e.results.Some? && e.endpointData.Some?
    ensures var f := Ordered.Filter(e.results.value, IsNotAllowed);
      forall k :: 0 <= k < |f| ==> EntryRows(e, atts)[k] == ExportRow(e, f[k].path, atts)
  {
  }

  /** allRows: the rows of every entry, entry by entry. */
  function ExportRows(entries: seq<Entry>, atts: seq<PathAttachment>): seq<string>
  {
    Ordered.FlatMap(entries, (e: Entry) => EntryRows(e, atts))
  }

  /** The rows of two lists of entries are the rows of the first followed by those of the
      second: entries are exported in order and independently of each other. */
  lemma ExportRowsConcat(a: seq<Entry>, b: seq<Entry>, atts: seq<PathAttachment>)
    ensures ExportRows(a + b, atts) == ExportRows(a, atts) + ExportRows(b, atts)
  {
    Ordered.FlatMapConcat(a, b, (e: Entry) => EntryRows(e, atts));
  }

  /** A single entry contributes its own rows. */
  lemma ExportRowsSingle(e: Entry, atts: seq<PathAttachment>)
    ensures ExportRows([e], atts) == EntryRows(e, atts)
  {
    Ordered.FlatMapSingle(e, (e: Entry) => EntryRows(e, atts));
  }

  datatype Export = ExportFailed(message: string) | Download(csv: string, filename: string)

  /** handleExportAllCSV; isoDate is new Date().toISOString(). */
  function ExportAllCsv(entries: seq<Entry>, atts: seq<PathAttachment>, isoDate: string): (r: Export)
    ensures r.ExportFailed? <==> ExportRows(entries, atts) == []
    ensures r.ExportFailed? ==> r.message == NothingToExport
    ensures r.Download? ==> r.csv == CsvHeader + "\n" + Join(ExportRows(entries, atts), "\n")
    ensures r.Download? ==> StartsWith(r.filename, "vlan-validation-")
  {
    var rows := ExportRows(entries, atts);
    if |rows| == 0 then ExportFailed(NothingToExport)
    else Download(CsvHeader + "\n" + Join(rows, "\n"), "vlan-validation-" + TakeUntil(isoDate, 'T') + ".csv")
  }

  /** No text the export copies into a row holds a newline. */
  predicate ExportInputsOneLine(entries: seq<Entry>, atts: seq<PathAttachment>) {
    && (forall a :: a in atts ==> OneLine(a.fullPath))
    && forall e :: e in entries ==> EntryOneLine(e)
  }

  predicate EntryOneLine(e: Entry) {
    && OneLine(e.epgName)
    && (e.endpointData.Some? ==>
          && OneLine(e.endpointData.value.vlan)
          && forall p :: p in e.endpointData.value.pathsWithNodes ==> OneLine(e.endpointData.value.pathsWithNodes[p]))
    && (e.results.Some? ==> forall v :: v in e.results.value ==> OneLine(v.path))
  }

  /** When no input carries a newline, the downloaded file splits into the header line
      followed by one line per row. */
  lemma ExportAllCsvLines(entries: seq<Entry>, atts: seq<PathAttachment>, isoDate: string)
    requires ExportInputsOneLine(entries, atts)
    ensures var r := ExportAllCsv(entries, atts, isoDate);
      r.Download? ==> SplitLines(r.csv) == [CsvHeader] + ExportRows(entries, atts)
  {
    var r := ExportAllCsv(entries, atts, isoDate);
    if r.Download? {
      var rows := ExportRows(entries, atts);
      ExportRowsOneLine(entries, atts);
      HeaderOneLine();
      SplitHeaderAndRows(r.csv, CsvHeader, rows);
      assert SplitLines(r.csv) == [CsvHeader] + rows;
    }
  }

  lemma {:induction false} ExportRowsOneLine(entries: seq<Entry>, atts: seq<PathAttachment>)
    requires ExportInputsOneLine(entries, atts)
    ensures forall k :: 0 <= k < |ExportRows(entries, atts)| ==> OneLine(ExportRows(entries, atts)[k])
    decreases |entries|
  {
    if entries != [] {
      var init, last := entries[..|entries| - 1], entries[|entries| - 1];
      assert ExportInputsOneLine(init, atts) by {
        forall e | e in init ensures EntryOneLine(e) { assert e in entries; }
      }
      ExportRowsOneLine(init, atts);
      assert last in entries;
      EntryRowsOneLine(last, atts);
      assert ExportRows(entries, atts) == ExportRows(init, atts) + EntryRows(last, atts);
    }
  }

  lemma EntryRowsOneLine(e: Entry, atts: seq<PathAttachment>)
    requires EntryOneLine(e) && forall a :: a in atts ==> OneLine(a.fullPath)
    ensures forall k :: 0 <= k < |EntryRows(e, atts)| ==> OneLine(EntryRows(e, atts)[k])
  {
    if e.results.Some? && e.endpointData.Some? {
      var f := Ordered.Filter(e.results.value, IsNotAllowed);
      var rows := EntryRows(e, atts);
      EntryRowsAt(e, atts);
      ExportVlanOneLine(e);
      FormatEpgOneLine(e.epgName);
      forall k | 0 <= k < |rows| ensures OneLine(rows[k]) {
        assert f[k] in f;
        ExportPathOneLine(f[k].path, atts, e.endpointData.value.pathsWithNodes);
        CommaRowOneLine(ExportVlan(e), FormatEpg(e.epgName), ExportPath(f[k].path, atts, e.endpointData.value.pathsWithNodes));
      }
    }
  }

  lemma ExportVlanOneLine(e: Entry)
    requires e.endpointData.Some? && OneLine(e.endpointData.value.vlan)
    ensures OneLine(ExportVlan(e))
  {
    if HasDigit(e.epgName) {
      AllDigitsOneLine(ExtractVlanFromEpg(e.epgName));
    }
  }

  lemma FormatEpgOneLine(name: string)
    requires OneLine(name)
    ensures OneLine(FormatEpg(name))
  {
    assert OneLine("EPG-") by {
      forall k | 0 <= k < 4 ensures "EPG-"[k] != '\n' { }
    }
  }

  lemma ExportPathOneLine(path: string, atts: seq<PathAttachment>, nodes: map<string, string>)
    requires OneLine(path) && forall a :: a in atts ==> OneLine(a.fullPath)
    requires forall p :: p in nodes ==> OneLine(nodes[p])
    ensures OneLine(ExportPath(path, atts, nodes))
  {
    if !NoExactMatch(path, atts) {
      var k :| 0 <= k < |atts| && SameNormalizedPath(atts[k], path);
      assert atts[k] in atts;
      ExportUsesFirstExactMatch(path, atts, nodes);
    } else {
      var tail := "/pathep-[" + path + "]";
      assert OneLine(tail) by { LiteralsOneLine(); }
      LiteralsOneLine();
      if DigitNodePair(path).Some? {
        var (n1, n2) := DigitNodePair(path).value;
        ExportVpcPath(path, atts, nodes);
        AllDigitsOneLine(n1);
        AllDigitsOneLine(n2);
      } else if LeadingNode(path, IsDigit).Some? {
        ExportLeadingNodePath(path, atts, nodes);
        AllDigitsOneLine(LeadingNode(path, IsDigit).value);
      } else if path in nodes {
        ExportRecordedNodePath(path, atts, nodes);
      } else {
        ExportUnresolvable(path, atts, nodes);
      }
    }
  }

  /** The fixed pieces of a constructed path hold no newline. */
  lemma LiteralsOneLine()
    ensures OneLine("pod-1") && OneLine("pod-2") && OneLine("/protpaths-") && OneLine("-")
    ensures OneLine("/paths-") && OneLine("/pathep-[") && OneLine("]") && OneLine("pod-2/paths-XXX/pathep-[")
  {
  }

  lemma AllDigitsOneLine(s: string)
    requires AllDigits(s)
    ensures OneLine(s)
  {
  }

  /** The file name holds the date part of the ISO timestamp. */
  lemma ExportFileName(entries: seq<Entry>, atts: seq<PathAttachment>, date: string, time: string)
    requires ExportRows(entries, atts) != [] && 'T' !in date
    ensures ExportAllCsv(entries, atts, date + "T" + time).filename == "vlan-validation-" + date + ".csv"
  {
    var iso := date + "T" + time;
    var t := TakeUntil(iso, 'T');
    assert iso[|date|] == 'T';
    assert forall k :: 0 <= k < |date| ==> iso[k] == date[k] && iso[k] != 'T';
    assert t == date;
  }

  // ---------------------------------------------------------------- the header count

  /** totalNotAllowed: the number of results that are not allowed, over all entries. */
  function TotalNotAllowed(entries: seq<Entry>): nat
  {
    if entries == [] then 0
    else
      var e := entries[|entries| - 1];
      TotalNotAllowed(entries[..|entries| - 1]) + (if e.results.Some? then |Ordered.Filter(e.results.value, IsNotAllowed)| else 0)
  }

  /** The count is zero exactly when no entry has a result that is not allowed. */
  lemma {:induction false} TotalNotAllowedZero(entries: seq<Entry>)
    ensures TotalNotAllowed(entries) == 0 <==>
      forall k :: 0 <= k < |entries| && entries[k].results.Some? ==> NoneNotAllowed(entries[k].results.value)
    decreases |entries|
  {
    if entries != [] {
      var init, e := entries[..|entries| - 1], entries[|entries| - 1];
      TotalNotAllowedZero(init);
      if e.results.Some? {
        var f := Ordered.Filter(e.results.value, IsNotAllowed);
        assert f == [] <==> NoneNotAllowed(e.results.value) by {
          if f != [] { assert f[0] in f; }
        }
      }
      assert forall k :: 0 <= k < |init| ==> init[k] == entries[k];
    }
  }

  predicate NoneNotAllowed(results: seq<ValidationResult>) {
    forall v :: v in results ==> !IsNotAllowed(v)
  }

  /** On consistent entries the export has exactly one row per counted result, and so
      reports that there is nothing to export exactly when the count is zero. */
  lemma {:induction false} ExportRowCount(entries: seq<Entry>, atts: seq<PathAttachment>)
    requires Consistent(entries)
    ensures |ExportRows(entries, atts)| == TotalNotAllowed(entries)
  {
    if entries != [] {
      var init := entries[..|entries| - 1];
      var e := entries[|entries| - 1];
      assert Consistent(init) by {
        forall k | 0 <= k < |init| ensures init[k].results.Some? <==> init[k].endpointData.Some? {
          assert init[k] == entries[k];
        }
      }
      ExportRowCount(init, atts);
    }
  }

  lemma ExportFailsIffNothingCounted(entries: seq<Entry>, atts: seq<PathAttachment>, isoDate: string)
    requires Consistent(entries)
    ensures ExportAllCsv(entries, atts, isoDate).ExportFailed? <==> TotalNotAllowed(entries) == 0
  {
    ExportRowCount(entries, atts);
  }
}
