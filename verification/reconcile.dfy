/** The reconciler of src/utils/apicParser.ts: which endpoint paths are allowed on the
    endpoint's VLAN, which EPG name fits an endpoint best, which VLAN an EPG name
    implies, and the CSV of configuration paths that generateCSV writes for the paths
    that are not allowed. */
module Reconcile {
  import opened Text
  import opened Patterns
  import Ordered
  import opened Records
  import Scan

  // ---------------------------------------------------------------- validateVlanAllowances

  /** The Map from normalised path to attachment, filled in order (the last attachment
      with a given normalised path wins). */
  function PathIndex(atts: seq<PathAttachment>): map<string, PathAttachment>
  {
    Ordered.LastWins(IndexPairs(atts))
  }

  function IndexPairs(atts: seq<PathAttachment>): (r: seq<(string, PathAttachment)>)
    ensures |r| == |atts| && forall k :: 0 <= k < |atts| ==> r[k] == (NormalizePathName(atts[k].path), atts[k])
  {
    seq(|atts|, k requires 0 <= k < |atts| => (NormalizePathName(atts[k].path), atts[k]))
  }

  /** A normalised path is a key of the index exactly when some attachment has it. */
  lemma PathIndexKeys(atts: seq<PathAttachment>, n: string)
    ensures n in PathIndex(atts) <==> exists a :: a in atts && NormalizePathName(a.path) == n
  {
    var kvs := IndexPairs(atts);
    Ordered.LastWinsSpec(kvs, n);
    if n in PathIndex(atts) {
      var i :| 0 <= i < |kvs| && kvs[i].0 == n;
      assert atts[i] in atts;
    } else {
      forall a | a in atts ensures NormalizePathName(a.path) != n {
        var i :| 0 <= i < |atts| && atts[i] == a;
        assert kvs[i].0 == NormalizePathName(a.path);
      }
    }
  }

  /** The attachments on VLAN v. */
  function OnVlan(atts: seq<PathAttachment>, v: string): (r: seq<PathAttachment>)
    ensures forall a :: a in r <==> a in atts && a.vlan == v
  {
    Ordered.Filter(atts, (a: PathAttachment) => a.vlan == v)
  }

  /** Whether an endpoint path is allowed: its normalised form is a key of the index of
      the attachments on the endpoint's VLAN. */
  predicate IsAllowed(path: string, vlan: string, atts: seq<PathAttachment>)
  {
    NormalizePathName(path) in PathIndex(OnVlan(atts, vlan))
  }

  lemma IsAllowedSpec(path: string, vlan: string, atts: seq<PathAttachment>)
    ensures IsAllowed(path, vlan, atts) <==>
      exists a :: a in atts && a.vlan == vlan && NormalizePathName(a.path) == NormalizePathName(path)
  {
    PathIndexKeys(OnVlan(atts, vlan), NormalizePathName(path));
  }

  function Verdict(path: string, allowed: bool): ValidationResult
  {
    ValidationResult(path, true, allowed, if allowed then Allowed else NotAllowed)
  }

  /** validateVlanAllowances(endpointData, pathAttachments): one result per endpoint path,
      in order. A path is allowed exactly when an attachment on the endpoint's VLAN has
      the same normalised path. */
  function ValidateVlanAllowances(ed: EndpointData, atts: seq<PathAttachment>): (r: seq<ValidationResult>)
    ensures |r| == |ed.paths|
    ensures forall i :: 0 <= i < |r| ==> r[i].path == ed.paths[i] && r[i].hasActiveEndpoint
    ensures forall i :: 0 <= i < |r| ==> (r[i].status == Allowed <==> r[i].isVlanAllowed)
    ensures forall i :: 0 <= i < |r| ==> (r[i].isVlanAllowed <==>
      exists a :: a in atts && a.vlan == ed.vlan && NormalizePathName(a.path) == NormalizePathName(ed.paths[i]))
  {
    var r := Verdicts(ed.paths, ed.vlan, atts);
    forall i | 0 <= i < |r|
      ensures r[i].isVlanAllowed <==>
        exists a :: a in atts && a.vlan == ed.vlan && NormalizePathName(a.path) == NormalizePathName(ed.paths[i])
    {
      IsAllowedSpec(ed.paths[i], ed.vlan, atts);
    }
    r
  }

  function Verdicts(paths: seq<string>, vlan: string, atts: seq<PathAttachment>): (r: seq<ValidationResult>)
    ensures |r| == |paths| && forall i :: 0 <= i < |paths| ==> r[i] == Verdict(paths[i], IsAllowed(paths[i], vlan, atts))
  {
    seq(|paths|, i requires 0 <= i < |paths| => Verdict(paths[i], IsAllowed(paths[i], vlan, atts)))
  }

  /** Attachments on other VLANs never change the verdicts. */
  lemma ValidateIgnoresOtherVlans(ed: EndpointData, atts: seq<PathAttachment>, extra: PathAttachment)
    requires extra.vlan != ed.vlan
    ensures ValidateVlanAllowances(ed, atts + [extra]) == ValidateVlanAllowances(ed, atts)
  {
    var r1 := ValidateVlanAllowances(ed, atts + [extra]);
    var r2 := ValidateVlanAllowances(ed, atts);
    forall i | 0 <= i < |r1| ensures r1[i] == r2[i] {
      var p := ed.paths[i];
      var q := NormalizePathName(p);
      if r2[i].isVlanAllowed {
        var a :| a in atts && a.vlan == ed.vlan && NormalizePathName(a.path) == q;
        assert a in atts + [extra];
      }
      if r1[i].isVlanAllowed {
        var a :| a in atts + [extra] && a.vlan == ed.vlan && NormalizePathName(a.path) == q;
        assert a in atts;
      }
    }
  }

  // ---------------------------------------------------------------- selectBestEpgMatch

  /** The part of the address before its last dot; substring(0, -1) is "". */
  function AddressPrefix(ip: string): (r: string)
    ensures '.' !in ip ==> r == ""
    ensures '.' in ip ==> r + "." <= ip && '.' !in ip[|r| + 1..]
  {
    var d := LastIndexOf(ip, '.');
    if d < 0 then "" else ip[..d]
  }

  /** +10 when the name contains the address up to its last dot, +5 when it contains a
      dotted quad. */
  function Score(ip: string, epg: string): (r: nat)
    ensures r >= 10 <==> Contains(epg, AddressPrefix(ip))
    ensures r == 5 || r == 15 <==> DottedQuad(epg).Some?
    ensures r <= 15
  {
    (if Contains(epg, AddressPrefix(ip)) then 10 else 0) + (if DottedQuad(epg).Some? then 5 else 0)
  }

  /** An address without a dot gives every name the +10. */
  lemma DotlessAddressScoresAll(ip: string, epg: string)
    requires '.' !in ip
    ensures Score(ip, epg) >= 10
  {
    assert LitAt(epg, 0, "");
  }

  /** The score of every candidate, in order. */
  function Scores(ip: string, xs: seq<string>): (r: seq<nat>)
    ensures |r| == |xs| && forall k :: 0 <= k < |xs| ==> r[k] == Score(ip, xs[k])
  {
    seq(|xs|, k requires 0 <= k < |xs| => Score(ip, xs[k]))
  }

  /** The loop of selectBestEpgMatch over candidates xs with scores sc, starting from
      (first, 0): a candidate replaces the best so far only when it scores strictly higher. */
  function BestSoFar(first: string, xs: seq<string>, sc: seq<nat>): (r: (string, nat))
    requires |sc| == |xs|
    ensures forall j :: 0 <= j < |xs| ==> sc[j] <= r.1
    ensures r.1 == 0 ==> r.0 == first
    ensures r.1 > 0 ==> exists k :: 0 <= k < |xs| && xs[k] == r.0 && sc[k] == r.1
                                    && forall j :: 0 <= j < k ==> sc[j] < r.1
  {
    if xs == [] then (first, 0)
    else
      var n := |xs| - 1;
      var prev := BestSoFar(first, xs[..n], sc[..n]);
      assert forall j :: 0 <= j < n ==> xs[..n][j] == xs[j] && sc[..n][j] == sc[j];
      if sc[n] > prev.1 then (xs[n], sc[n]) else prev
  }

  /** Candidate k scores highest, and strictly higher than every candidate before it. */
  ghost predicate FirstBest(sc: seq<nat>, k: int) {
    && 0 <= k < |sc|
    && (forall j :: 0 <= j < |sc| ==> sc[j] <= sc[k])
    && (forall j :: 0 <= j < k ==> sc[j] < sc[k])
  }

  lemma BestSoFarIsFirstBest(xs: seq<string>, sc: seq<nat>)
    requires xs != [] && |sc| == |xs|
    ensures exists k :: FirstBest(sc, k) && xs[k] == BestSoFar(xs[0], xs, sc).0
  {
    var best := BestSoFar(xs[0], xs, sc);
    if best.1 == 0 {
      assert FirstBest(sc, 0);
    } else {
      var k :| 0 <= k < |xs| && xs[k] == best.0 && sc[k] == best.1
               && forall j :: 0 <= j < k ==> sc[j] < best.1;
      assert FirstBest(sc, k);
    }
  }

  /** selectBestEpgMatch(endpointIp, epgList, allPaths); allPaths is not used. The result
      is the first candidate whose score (Scores) is the highest. */
  function SelectBestEpgMatch(ip: string, epgs: seq<string>, allPaths: seq<string>): (r: string)
    ensures epgs == [] ==> r == ""
    ensures |epgs| == 1 ==> r == epgs[0]
    ensures epgs != [] ==> (exists k :: FirstBest(Scores(ip, epgs), k) && epgs[k] == r)
  {
    if epgs == [] then ""
    else if |epgs| == 1 then
      assert FirstBest([Score(ip, epgs[0])], 0);
      assert Scores(ip, epgs) == [Score(ip, epgs[0])];
      epgs[0]
    else
      var sc := Scores(ip, epgs);
      BestSoFarIsFirstBest(epgs, sc);
      BestSoFar(epgs[0], epgs, sc).0
  }

  // ---------------------------------------------------------------- extractVlanFromEpg

  /** extractVlanFromEpg(epgName): VLAN<digits> (any case), else the first three digits
      in a row, else the first run of digits, else "". */
  function ExtractVlanFromEpg(name: string): (r: string)
    ensures r == "" <==> !HasDigit(name)
    ensures r != "" ==> DigitSubstring(name, r)
    ensures VlanWord(name).Some? ==> r == VlanWord(name).value
    ensures VlanWord(name).None? && ThreeDigits(name).Some? ==> r == ThreeDigits(name).value
    ensures VlanWord(name).None? && ThreeDigits(name).None? && HasDigit(name) ==> FirstDigitRun(name, r)
  {
    match VlanWord(name)
    case Some(d) => d
    case None =>
      match ThreeDigits(name)
      case Some(d) => d
      case None =>
        match DigitRun(name)
        case Some(d) => d
        case None => ""
  }

  /** The leftmost whole run of digits is unique, so FirstDigitRun is an independent
      definition of what DigitRun finds. */
  lemma FirstDigitRunUnique(s: string, d: string, e: string)
    requires FirstDigitRun(s, d) && FirstDigitRun(s, e)
    ensures d == e
  {
    var i: nat :| DigitRunFrom(s, i, d);
    var k: nat :| DigitRunFrom(s, k, e);
    assert IsDigit(s[i]) by { assert s[i] == d[0]; }
    assert IsDigit(s[k]) by { assert s[k] == e[0]; }
    assert i == k;
  }

  /** Hence, for a name with digits but neither a VLAN word nor three digits in a row,
      the VLAN is exactly the leftmost whole run of digits. */
  lemma ExtractVlanFromDigitRun(name: string, d: string)
    requires VlanWord(name).None? && ThreeDigits(name).None? && FirstDigitRun(name, d)
    ensures ExtractVlanFromEpg(name) == d
  {
    var i: nat :| DigitRunFrom(name, i, d);
    assert IsDigit(name[i]) by { assert name[i] == d[0]; }
    FirstDigitRunUnique(name, ExtractVlanFromEpg(name), d);
  }

  lemma VlanWordFirst(s: string, i: nat, d: string)
    requires VlanWordAt(s, i) == Some(d) && forall j :: 0 <= j < i ==> VlanWordAt(s, j).None?
    ensures VlanWord(s) == Some(d)
  {
    var at := (j: nat) => VlanWordAt(s, j);
    assert at(i).Some?;
    assert Scan.Leftmost(s, at).value.0 == i;
  }

  lemma ThreeDigitsFirst(s: string, i: nat, d: string)
    requires ThreeDigitsAt(s, i) == Some(d) && forall j :: 0 <= j < i ==> ThreeDigitsAt(s, j).None?
    ensures ThreeDigits(s) == Some(d)
  {
    var at := (j: nat) => ThreeDigitsAt(s, j);
    assert at(i).Some?;
    assert Scan.Leftmost(s, at).value.0 == i;
  }

  lemma NoVlanWord(s: string)
    requires forall j :: 0 <= j < |s| ==> ToLower(s[j]) != 'v'
    ensures VlanWord(s).None?
  {
    var at := (j: nat) => VlanWordAt(s, j);
    assert LowerString("VLAN")[0] == 'v';
    forall j | 0 <= j <= |s| ensures at(j).None? {
      NoVlanWordAt(s, j);
    }
  }

  lemma NoVlanWordAt(s: string, j: nat)
    requires j < |s| ==> ToLower(s[j]) != 'v'
    ensures VlanWordAt(s, j).None?
  {
    if j + 4 <= |s| {
      assert LowerString(s[j..j + 4])[0] == ToLower(s[j]);
      assert LowerString("VLAN")[0] == 'v';
    }
  }

  /** "EPG-VLAN623-X" names VLAN 623 through its VLAN word. */
  lemma ExtractVlanFromVlanWord()
    ensures ExtractVlanFromEpg("EPG-VLAN623-X") == "623"
  {
    var s := "EPG-VLAN623-X";
    assert s[4..8] == "VLAN";
    assert LowerString("VLAN") == "vlan";
    assert IsDigit(s[8]) && IsDigit(s[9]) && IsDigit(s[10]) && !IsDigit(s[11]);
    assert DigitsEnd(s, 8) == Some(11);
    assert s[8..11] == "623";
    forall j | 0 <= j < 4 ensures VlanWordAt(s, j).None? {
      assert LowerString(s[j..j + 4])[0] == ToLower(s[j]);
    }
    VlanWordFirst(s, 4, "623");
  }

  /** "EPG-610-ABC" has no VLAN word and names VLAN 610 through its three digits. */
  lemma ExtractVlanFromThreeDigits()
    ensures ExtractVlanFromEpg("EPG-610-ABC") == "610"
  {
    NoVlanWordIn610();
    ThreeDigitsIn610();
  }

  lemma NoVlanWordIn610()
    ensures VlanWord("EPG-610-ABC").None?
  {
    var s := "EPG-610-ABC";
    forall j | 0 <= j < |s| ensures ToLower(s[j]) != 'v' {
      assert s[j] != 'v' && s[j] != 'V';
    }
    NoVlanWord(s);
  }

  lemma ThreeDigitsIn610()
    ensures ThreeDigits("EPG-610-ABC") == Some("610")
  {
    var s := "EPG-610-ABC";
    assert IsDigit(s[4]) && IsDigit(s[5]) && IsDigit(s[6]);
    assert s[4..7] == "610";
    forall j | 0 <= j < 4 ensures ThreeDigitsAt(s, j).None? {
      assert !IsDigit(s[j]);
    }
    ThreeDigitsFirst(s, 4, "610");
  }

  // ---------------------------------------------------------------- generateCSV

  predicate IsNotAllowed(v: ValidationResult) { v.status == NotAllowed }

  /** results.filter(r => r.status === 'not_allowed').map(r => r.path), in one pass. */
  function NotAllowedPaths(results: seq<ValidationResult>): (r: seq<string>)
    ensures r == ResultPaths(Ordered.Filter(results, IsNotAllowed))
    ensures forall p :: p in r <==> exists v :: v in results && IsNotAllowed(v) && v.path == p
  {
    if results == [] then []
    else
      var init := results[..|results| - 1];
      var last := results[|results| - 1];
      var r := NotAllowedPaths(init) + (if IsNotAllowed(last) then [last.path] else []);
      ResultPathsConcat(Ordered.Filter(init, IsNotAllowed), if IsNotAllowed(last) then [last] else []);
      r
  }

  /** The path of every result, in order (Array.prototype.map). */
  function ResultPaths(vs: seq<ValidationResult>): (r: seq<string>)
    ensures |r| == |vs| && forall k :: 0 <= k < |vs| ==> r[k] == vs[k].path
  {
    seq(|vs|, k requires 0 <= k < |vs| => vs[k].path)
  }

  lemma ResultPathsConcat(a: seq<ValidationResult>, b: seq<ValidationResult>)
    ensures ResultPaths(a + b) == ResultPaths(a) + ResultPaths(b)
  {
  }

  /** The pod of the first attachment on the VLAN, else "pod-1". */
  function DefaultPod(vlan: string, atts: seq<PathAttachment>): (r: string)
    ensures (exists k :: 0 <= k < |atts| && atts[k].vlan == vlan) ==>
      exists k :: 0 <= k < |atts| && atts[k].vlan == vlan && r == atts[k].pod && forall j :: 0 <= j < k ==> atts[j].vlan != vlan
    ensures (forall k :: 0 <= k < |atts| ==> atts[k].vlan != vlan) ==> r == "pod-1"
  {
    match Ordered.Find(atts, (a: PathAttachment) => a.vlan == vlan)
    case Some(a) => a.pod
    case None => "pod-1"
  }

  /** The pod of the first attachment whose fullPath names the same VPC node pair. */
  function VpcPod(n1: string, n2: string, atts: seq<PathAttachment>, fallback: string): (r: string)
    ensures r == fallback || exists a :: a in atts && ProtpathsNodes(a.fullPath) == Some((n1, n2)) && r == a.pod
    ensures (exists k :: 0 <= k < |atts| && ProtpathsNodes(atts[k].fullPath) == Some((n1, n2))) ==>
      exists k :: 0 <= k < |atts| && ProtpathsNodes(atts[k].fullPath) == Some((n1, n2)) && r == atts[k].pod
        && forall j :: 0 <= j < k ==> ProtpathsNodes(atts[j].fullPath) != Some((n1, n2))
    ensures (forall k :: 0 <= k < |atts| ==> ProtpathsNodes(atts[k].fullPath) != Some((n1, n2))) ==> r == fallback
  {
    match Ordered.Find(atts, (a: PathAttachment) => ProtpathsNodes(a.fullPath) == Some((n1, n2)))
    case Some(a) => a.pod
    case None => fallback
  }

  /** The pod of the first attachment whose fullPath names the same single node. */
  function NodePod(node: string, atts: seq<PathAttachment>, fallback: string): (r: string)
    ensures r == fallback || exists a :: a in atts && PathsNode(a.fullPath) == Some(node) && r == a.pod
    ensures (exists k :: 0 <= k < |atts| && PathsNode(atts[k].fullPath) == Some(node)) ==>
      exists k :: 0 <= k < |atts| && PathsNode(atts[k].fullPath) == Some(node) && r == atts[k].pod
        && forall j :: 0 <= j < k ==> PathsNode(atts[j].fullPath) != Some(node)
    ensures (forall k :: 0 <= k < |atts| ==> PathsNode(atts[k].fullPath) != Some(node)) ==> r == fallback
  {
    match Ordered.Find(atts, (a: PathAttachment) => PathsNode(a.fullPath) == Some(node))
    case Some(a) => a.pod
    case None => fallback
  }

  /** The configuration path generateCSV writes for one path that is not allowed. */
  function CsvPath(path: string, index: map<string, PathAttachment>, atts: seq<PathAttachment>, defaultPod: string): string
  {
    var n := NormalizePathName(path);
    if n in index then index[n].fullPath
    else match NodeXPair(path)
      case Some((n1, n2)) => VpcPod(n1, n2, atts, defaultPod) + "/protpaths-" + n1 + "-" + n2 + "/pathep-[" + path + "]"
      case None =>
        match LeadingNode(path, IsNodeChar)
        case Some(node) => NodePod(node, atts, defaultPod) + "/paths-" + node + "/pathep-[" + path + "]"
        case None => defaultPod + "/paths-XXX/pathep-[" + path + "]"
  }

  const CsvHeader := "VLAN,EPG,PATH"

  /** generateCSV(vlan, epg, results, endpointData, pathAttachments); endpointData is not used. */
  function GenerateCsv(vlan: string, epg: string, results: seq<ValidationResult>, ed: EndpointData, atts: seq<PathAttachment>): (r: string)
    ensures StartsWith(r, CsvHeader + "\n")
  {
    CsvHeader + "\n" + Join(CsvRows(vlan, epg, results, atts), "\n")
  }

  /** The data rows of the CSV file, one per result that is not allowed. */
  function CsvRows(vlan: string, epg: string, results: seq<ValidationResult>, atts: seq<PathAttachment>): seq<string>
  {
    var paths := NotAllowedPaths(results);
    seq(|paths|, i requires 0 <= i < |paths| => CsvRow(vlan, epg, paths[i], atts))
  }

  /** One data row: the VLAN, the EPG and the configuration path of a path. */
  function CsvRow(vlan: string, epg: string, path: string, atts: seq<PathAttachment>): string
  {
    vlan + "," + epg + "," + CsvPath(path, PathIndex(atts), atts, DefaultPod(vlan, atts))
  }

  /** When no input carries a newline, line 0 of the file is the header and line k + 1
      is the row of the k-th result that is not allowed: the VLAN, the EPG and the
      configuration path of that result's path. With no such result the file ends in an
      empty line. */
  lemma GenerateCsvLines(vlan: string, epg: string, results: seq<ValidationResult>, ed: EndpointData, atts: seq<PathAttachment>)
    requires OneLine(vlan) && OneLine(epg)
    requires forall v :: v in results ==> OneLine(v.path)
    requires forall a :: a in atts ==> OneLine(a.fullPath) && OneLine(a.pod)
    ensures var lines := SplitLines(GenerateCsv(vlan, epg, results, ed, atts));
            var f := Ordered.Filter(results, IsNotAllowed);
      && lines[0] == CsvHeader
      && (f == [] ==> lines == [CsvHeader, ""])
      && (f != [] ==> |lines| == |f| + 1)
      && forall k :: 0 <= k < |f| && k + 1 < |lines| ==> lines[k + 1] == CsvRow(vlan, epg, f[k].path, atts)
  {
    var rows := CsvRows(vlan, epg, results, atts);
    CsvRowsOneLine(vlan, epg, results, atts);
    HeaderOneLine();
    SplitHeaderAndRows(GenerateCsv(vlan, epg, results, ed, atts), CsvHeader, rows);
    CsvRowsAt(vlan, epg, results, atts);
  }

  lemma CsvRowsAt(vlan: string, epg: string, results: seq<ValidationResult>, atts: seq<PathAttachment>)
    ensures var f := Ordered.Filter(results, IsNotAllowed);
      && |CsvRows(vlan, epg, results, atts)| == |f|
      && forall k :: 0 <= k < |f| ==> CsvRows(vlan, epg, results, atts)[k] == CsvRow(vlan, epg, f[k].path, atts)
  {
  }

  lemma CsvRowsOneLine(vlan: string, epg: string, results: seq<ValidationResult>, atts: seq<PathAttachment>)
    requires OneLine(vlan) && OneLine(epg)
    requires forall v :: v in results ==> OneLine(v.path)
    requires forall a :: a in atts ==> OneLine(a.fullPath) && OneLine(a.pod)
    ensures forall k :: 0 <= k < |CsvRows(vlan, epg, results, atts)| ==> OneLine(CsvRows(vlan, epg, results, atts)[k])
  {
    var index := PathIndex(atts);
    var pod := DefaultPod(vlan, atts);
    var paths := NotAllowedPaths(results);
    var rows := CsvRows(vlan, epg, results, atts);
    DefaultPodOneLine(vlan, atts);
    PathIndexValues(atts);
    NotAllowedPathsOneLine(results);
    forall i | 0 <= i < |rows| ensures OneLine(rows[i]) {
      assert rows[i] == CsvRow(vlan, epg, paths[i], atts);
      CsvPathOneLine(paths[i], index, atts, pod);
      CommaRowOneLine(vlan, epg, CsvPath(paths[i], index, atts, pod));
    }
  }

  lemma HeaderOneLine()
    ensures OneLine(CsvHeader)
  {
    forall k | 0 <= k < |CsvHeader| ensures CsvHeader[k] != '\n' { }
  }

  lemma NotAllowedPathsOneLine(results: seq<ValidationResult>)
    requires forall v :: v in results ==> OneLine(v.path)
    ensures forall i :: 0 <= i < |NotAllowedPaths(results)| ==> OneLine(NotAllowedPaths(results)[i])
  {
    var f := Ordered.Filter(results, IsNotAllowed);
    forall i | 0 <= i < |NotAllowedPaths(results)| ensures OneLine(NotAllowedPaths(results)[i]) {
      assert f[i] in f;
    }
  }

  lemma DefaultPodOneLine(vlan: string, atts: seq<PathAttachment>)
    requires forall a :: a in atts ==> OneLine(a.pod)
    ensures OneLine(DefaultPod(vlan, atts))
  {
    if exists k :: 0 <= k < |atts| && atts[k].vlan == vlan {
      var k :| 0 <= k < |atts| && atts[k].vlan == vlan && DefaultPod(vlan, atts) == atts[k].pod;
      assert atts[k] in atts;
    }
  }

  /** The configuration path of a path without newlines is one line. */
  lemma CsvPathOneLine(path: string, index: map<string, PathAttachment>, atts: seq<PathAttachment>, pod: string)
    requires OneLine(path) && OneLine(pod)
    requires forall n :: n in index ==> OneLine(index[n].fullPath)
    requires forall a :: a in atts ==> OneLine(a.fullPath) && OneLine(a.pod)
    ensures OneLine(CsvPath(path, index, atts, pod))
  {
    if NormalizePathName(path) !in index {
      match NodeXPair(path)
      case Some((n1, n2)) =>
        var vp := VpcPod(n1, n2, atts, pod);
        assert OneLine(vp);
        ProtpathsOneLine(vp, n1, n2, path);
      case None =>
        match LeadingNode(path, IsNodeChar)
        case Some(node) =>
          var np := NodePod(node, atts, pod);
          assert OneLine(np);
          PathsOneLine(np, node, path);
        case None =>
          PathsOneLine(pod, "XXX", path);
    }
  }

  /** Every attachment the index stores is one of the attachments. */
  lemma PathIndexValues(atts: seq<PathAttachment>)
    ensures forall n :: n in PathIndex(atts) ==> PathIndex(atts)[n] in atts
  {
    forall n | n in PathIndex(atts) ensures PathIndex(atts)[n] in atts {
      PathIndexLastWins(atts, n);
    }
  }

  lemma ProtpathsOneLine(pod: string, n1: string, n2: string, path: string)
    requires OneLine(pod) && OneLine(path)
    requires forall k :: 0 <= k < |n1| ==> IsNodeChar(n1[k])
    requires forall k :: 0 <= k < |n2| ==> IsNodeChar(n2[k])
    ensures OneLine(pod + "/protpaths-" + n1 + "-" + n2 + "/pathep-[" + path + "]")
  {
  }

  lemma PathsOneLine(pod: string, node: string, path: string)
    requires OneLine(pod) && OneLine(path) && OneLine(node)
    ensures OneLine(pod + "/paths-" + node + "/pathep-[" + path + "]")
  {
  }

  /** The attachment stored under a normalised path is the last one with that path
      (the Map is overwritten in order). */
  lemma PathIndexLastWins(atts: seq<PathAttachment>, n: string)
    requires n in PathIndex(atts)
    ensures exists k :: (0 <= k < |atts| && NormalizePathName(atts[k].path) == n && PathIndex(atts)[n] == atts[k]
      && (forall j :: k < j < |atts| ==> NormalizePathName(atts[j].path) != n))
  {
    var kvs := IndexPairs(atts);
    Ordered.LastWinsSpec(kvs, n);
    var k :| 0 <= k < |kvs| && kvs[k] == (n, PathIndex(atts)[n]) && forall j :: k < j < |kvs| ==> kvs[j].0 != n;
    assert atts[k] == PathIndex(atts)[n];
  }

  /** An exactly matching attachment decides the path: the last one with that
      normalised path gives its fullPath. */
  lemma CsvUsesLastExactMatch(path: string, atts: seq<PathAttachment>, defaultPod: string)
    requires exists a :: a in atts && NormalizePathName(a.path) == NormalizePathName(path)
    ensures exists k :: (0 <= k < |atts| && NormalizePathName(atts[k].path) == NormalizePathName(path)
      && (forall j :: k < j < |atts| ==> NormalizePathName(atts[j].path) != NormalizePathName(path))
      && CsvPath(path, PathIndex(atts), atts, defaultPod) == atts[k].fullPath)
  {
    var n := NormalizePathName(path);
    PathIndexKeys(atts, n);
    PathIndexLastWins(atts, n);
    assert CsvPath(path, PathIndex(atts), atts, defaultPod) == PathIndex(atts)[n].fullPath;
  }

  /** Without an exact match, a VPC-shaped path is written under protpaths with its node pair. */
  lemma CsvVpcFallback(path: string, atts: seq<PathAttachment>, defaultPod: string)
    requires forall a :: a in atts ==> NormalizePathName(a.path) != NormalizePathName(path)
    requires NodeXPair(path).Some?
    ensures var (n1, n2) := NodeXPair(path).value;
      CsvPath(path, PathIndex(atts), atts, defaultPod)
        == VpcPod(n1, n2, atts, defaultPod) + "/protpaths-" + n1 + "-" + n2 + "/pathep-[" + path + "]"
  {
    PathIndexKeys(atts, NormalizePathName(path));
  }

  /** Without an exact match or a node pair, a path starting with a node is written under
      paths with that node, in the pod of the first attachment on the same node. */
  lemma CsvLeadingNodePath(path: string, atts: seq<PathAttachment>, defaultPod: string)
    requires forall a :: a in atts ==> NormalizePathName(a.path) != NormalizePathName(path)
    requires NodeXPair(path).None? && LeadingNode(path, IsNodeChar).Some?
    ensures var node := LeadingNode(path, IsNodeChar).value;
      CsvPath(path, PathIndex(atts), atts, defaultPod) == NodePod(node, atts, defaultPod) + "/paths-" + node + "/pathep-[" + path + "]"
  {
    PathIndexKeys(atts, NormalizePathName(path));
  }

  /** A path that matches nothing at all is written under paths-XXX in the default pod. */
  lemma CsvUnresolvable(path: string, atts: seq<PathAttachment>, defaultPod: string)
    requires forall a :: a in atts ==> NormalizePathName(a.path) != NormalizePathName(path)
    requires NodeXPair(path).None? && LeadingNode(path, IsNodeChar).None?
    ensures CsvPath(path, PathIndex(atts), atts, defaultPod) == defaultPod + "/paths-XXX/pathep-[" + path + "]"
  {
    PathIndexKeys(atts, NormalizePathName(path));
  }

}
