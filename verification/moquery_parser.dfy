/** parseMoqueryOutput and extractEpgNamesFromMoquery: the output of a query for the
    static path attachments of EPGs becomes a list of PathAttachment records, and a
    table from VLAN to the names of the EPGs that use it. */
module MoqueryParser {
  import opened Text
  import opened Patterns
  import Ordered
  import opened Records

  /** The VLAN of an attachment line with EPG name `epg`: the line's own vlan-<digits>
      token, else VLAN<digits> in the EPG name, else the first three digits in a row in
      the EPG name, else none (""). Both parsers resolve the VLAN this way. */
  function ResolveVlan(line: string, epg: string): (r: string)
    ensures r == "" || AllDigits(r)
    ensures r == "" <==> VlanDigits(line).None? && VlanWord(epg).None? && ThreeDigits(epg).None?
    ensures VlanDigits(line).None? && r != "" ==> DigitSubstring(epg, r)
    ensures VlanDigits(line).Some? ==> r == VlanDigits(line).value
    ensures VlanDigits(line).None? && VlanWord(epg).Some? ==> r == VlanWord(epg).value
    ensures VlanDigits(line).None? && VlanWord(epg).None? && ThreeDigits(epg).Some? ==> r == ThreeDigits(epg).value
  {
    match VlanDigits(line)
    case Some(d) => d
    case None =>
      match VlanWord(epg)
      case Some(d) => d
      case None =>
        match ThreeDigits(epg)
        case Some(d) => d
        case None => ""
  }

  /** The fullPath of an attachment: pod, node identifier and interface put back
      together, with "protpaths-" for a VPC and "paths-" for a single switch. */
  function FullPath(pod: string, vpc: bool, nodes: string, path: string): (r: string)
    ensures |r| > |pod| && r[..|pod|] == pod && r[|r| - 1] == ']'
  {
    pod + (if vpc then "/protpaths-" else "/paths-") + nodes + "/pathep-[" + path + "]"
  }

  /** What an attachment record promises: a VLAN of digits, non-empty EPG, path and
      node identifier, a pod named pod-<digits>, and the fullPath built from them. */
  ghost predicate WellFormedAttachment(a: PathAttachment) {
    && a.vlan != [] && AllDigits(a.vlan)
    && a.epg != [] && a.path != []
    && |a.pod| > 4 && LowerString(a.pod[..4]) == "pod-" && AllDigits(a.pod[4..])
    && exists vpc: bool, nodes: string :: nodes != [] && a.fullPath == FullPath(a.pod, vpc, nodes, a.path)
  }

  /** The loop body of parseMoqueryOutput for one line: the VPC pattern first, then the
      single-switch one; a record only when a VLAN resolves. */
  function ParseAttachmentLine(line: string): (r: Option<PathAttachment>)
    ensures r.Some? ==> WellFormedAttachment(r.value)
    ensures r.Some? <==> Trim(line) != [] && LineDn(line).Some? && ResolveVlan(line, LineDn(line).value.1.epg) != ""
    ensures r.Some? ==> RecordOf(line, LineDn(line).value.0, LineDn(line).value.1, r.value)
  {
    if Trim(line) == [] then None
    else
      var vpc := DnProtpaths(line).Some?;
      var m := if vpc then DnProtpaths(line) else DnPaths(line);
      match m
      case None => None
      case Some(dn) =>
        var vlan := ResolveVlan(line, dn.epg);
        var fullPath := FullPath(dn.pod, vpc, dn.nodes, dn.path);
        if vlan != "" && dn.path != "" then Some(PathAttachment(vlan, dn.epg, dn.path, fullPath, dn.pod))
        else None
  }

  /** The DN a line carries: the protpaths form when it matches (true), else the paths
      form (false). */
  function LineDn(line: string): (r: Option<(bool, DnMatch)>)
    ensures r.Some? && r.value.0 <==> DnProtpaths(line).Some?
    ensures r.Some? && r.value.0 ==> r.value.1 == DnProtpaths(line).value
    ensures r.Some? && !r.value.0 ==> DnProtpaths(line).None? && DnPaths(line) == Some(r.value.1)
    ensures r.None? <==> DnProtpaths(line).None? && DnPaths(line).None?
  {
    match DnProtpaths(line)
    case Some(dn) => Some((true, dn))
    case None =>
      match DnPaths(line)
      case Some(dn) => Some((false, dn))
      case None => None
  }

  /** The record a matched line yields: the EPG, pod and interface of its DN, the VLAN
      resolved from the line and the EPG, and the fullPath rebuilt from the captures. */
  ghost predicate RecordOf(line: string, vpc: bool, dn: DnMatch, a: PathAttachment) {
    && a.vlan == ResolveVlan(line, dn.epg)
    && a.epg == dn.epg
    && a.path == dn.path
    && a.pod == dn.pod
    && a.fullPath == FullPath(dn.pod, vpc, dn.nodes, dn.path)
  }

  /** The outcome of the loop body on every line. */
  function Attempts(lines: seq<string>): (r: seq<Option<PathAttachment>>)
    ensures |r| == |lines| && forall k :: 0 <= k < |lines| ==> r[k] == ParseAttachmentLine(lines[k])
  {
    seq(|lines|, k requires 0 <= k < |lines| => ParseAttachmentLine(lines[k]))
  }

  /** The attachments of all lines, in line order, without deduplication. */
  function ParseMoqueryLines(lines: seq<string>): (r: seq<PathAttachment>)
    ensures |r| <= |lines|
    ensures forall a :: a in r ==> WellFormedAttachment(a)
    ensures forall a :: a in r <==> FromSomeLine(lines, a)
  {
    AttemptsMembers(lines);
    Ordered.Somes(Attempts(lines))
  }

  /** Some line of `lines` yields the record a. */
  ghost predicate FromSomeLine(lines: seq<string>, a: PathAttachment) {
    exists k :: 0 <= k < |lines| && ParseAttachmentLine(lines[k]) == Some(a)
  }

  lemma AttemptsMembers(lines: seq<string>)
    ensures forall a :: Some(a) in Attempts(lines) <==> FromSomeLine(lines, a)
  {
    var os := Attempts(lines);
    forall a | Some(a) in os ensures exists k :: 0 <= k < |lines| && ParseAttachmentLine(lines[k]) == Some(a) {
      var k :| 0 <= k < |os| && os[k] == Some(a);
    }
  }

  /** parseMoqueryOutput(input) */
  function ParseMoqueryOutput(input: string): (r: seq<PathAttachment>)
    ensures forall a :: a in r ==> WellFormedAttachment(a)
    ensures forall a :: a in r <==> FromSomeLine(SplitLines(Trim(input)), a)
  {
    ParseMoqueryLines(SplitLines(Trim(input)))
  }

  lemma AttemptsConcat(a: seq<string>, b: seq<string>)
    ensures Attempts(a + b) == Attempts(a) + Attempts(b)
  {
    forall k | 0 <= k < |a + b| ensures Attempts(a + b)[k] == (Attempts(a) + Attempts(b))[k] {
      if k < |a| { assert (a + b)[k] == a[k]; } else { assert (a + b)[k] == b[k - |a|]; }
    }
  }

  /** Lines contribute independently and in order: the records of two blocks of lines
      are the records of the first block followed by those of the second. */
  lemma ParseMoqueryConcat(a: seq<string>, b: seq<string>)
    ensures ParseMoqueryLines(a + b) == ParseMoqueryLines(a) + ParseMoqueryLines(b)
  {
    AttemptsConcat(a, b);
    Ordered.SomesConcat(Attempts(a), Attempts(b));
  }

  /** Each line gives at most one record, and a blank line or one matching neither
      pattern gives none. */
  lemma ParseMoquerySingleLine(line: string)
    ensures ParseMoqueryLines([line]) == (match ParseAttachmentLine(line) case Some(a) => [a] case None => [])
    ensures Trim(line) == [] || (DnProtpaths(line).None? && DnPaths(line).None?) ==> ParseMoqueryLines([line]) == []
  {
    assert Attempts([line]) == [ParseAttachmentLine(line)];
    assert Attempts([line])[..0] == [];
  }

  /** The number of records is at most the number of non-blank lines. */
  function NonBlankCount(lines: seq<string>): nat
  {
    if lines == [] then 0 else NonBlankCount(lines[..|lines| - 1]) + (if Trim(lines[|lines| - 1]) == [] then 0 else 1)
  }

  lemma {:induction false} ParseMoqueryCount(lines: seq<string>)
    ensures |ParseMoqueryLines(lines)| <= NonBlankCount(lines)
  {
    if lines != [] {
      var init := lines[..|lines| - 1];
      var last := lines[|lines| - 1];
      ParseMoqueryCount(init);
      Ordered.InitLast(lines);
      ParseMoqueryConcat(init, [last]);
      SingleLineCount(last);
      NonBlankStep(lines);
    }
  }

  lemma NonBlankStep(lines: seq<string>)
    requires lines != []
    ensures NonBlankCount(lines) == NonBlankCount(lines[..|lines| - 1]) + (if Trim(lines[|lines| - 1]) == [] then 0 else 1)
  {
  }

  lemma SingleLineCount(line: string)
    ensures |ParseMoqueryLines([line])| <= (if Trim(line) == [] then 0 else 1)
  {
    ParseMoquerySingleLine(line);
  }

  // ---------------------------------------------------------------- EPG names by VLAN

  /** The (VLAN, EPG name) pair a line contributes to extractEpgNamesFromMoquery: the
      EPG segment /epg-NAME/ and the VLAN resolved as above. */
  function EpgEntry(line: string): (r: Option<(string, string)>)
    ensures r.Some? ==> r.value.0 != [] && AllDigits(r.value.0) && r.value.1 != []
    ensures r.Some? ==> Trim(line) != [] && EpgSegment(line) == Some(r.value.1)
    ensures r.Some? ==> r.value.0 == ResolveVlan(line, r.value.1)
    ensures r.Some? <==> Trim(line) != [] && EpgSegment(line).Some? && EpgSegment(line).value != []
                         && ResolveVlan(line, EpgSegment(line).value) != ""
  {
    if Trim(line) == [] then None
    else match EpgSegment(line)
      case None => None
      case Some(epg) =>
        var vlan := ResolveVlan(line, epg);
        if vlan != "" && epg != "" then Some((vlan, epg)) else None
  }

  function EpgEntries(lines: seq<string>): (r: seq<Option<(string, string)>>)
    ensures |r| == |lines| && forall k :: 0 <= k < |lines| ==> r[k] == EpgEntry(lines[k])
  {
    seq(|lines|, k requires 0 <= k < |lines| => EpgEntry(lines[k]))
  }

  /** The loop body: create the VLAN's list if needed, then append the name unless it is
      already there. */
  function AddEpg(m: map<string, seq<string>>, e: Option<(string, string)>): map<string, seq<string>>
  {
    match e
    case None => m
    case Some((vlan, epg)) =>
      var list := if vlan in m then m[vlan] else [];
      m[vlan := Ordered.AddUnique(list, epg)]
  }

  function EpgsByVlan(es: seq<Option<(string, string)>>): (r: map<string, seq<string>>)
    ensures forall v :: v in r ==> Ordered.NoDup(r[v]) && r[v] != []
  {
    if es == [] then map[] else AddEpg(EpgsByVlan(es[..|es| - 1]), es[|es| - 1])
  }

  /** extractEpgNamesFromMoquery(input) */
  function ExtractEpgNamesFromMoquery(input: string): (r: map<string, seq<string>>)
    ensures forall v :: v in r ==> Ordered.NoDup(r[v]) && r[v] != []
  {
    EpgsByVlan(EpgEntries(SplitLines(Trim(input))))
  }

  /** The EPG names paired with VLAN v, in line order, repetitions included. */
  function NamesFor(es: seq<Option<(string, string)>>, v: string): seq<string>
  {
    if es == [] then []
    else
      var last := match es[|es| - 1] case Some((w, epg)) => (if w == v then [epg] else []) case None => [];
      NamesFor(es[..|es| - 1], v) + last
  }

  lemma AddEpgAt(m: map<string, seq<string>>, e: Option<(string, string)>, v: string)
    ensures e.None? || e.value.0 != v ==> (v in AddEpg(m, e) <==> v in m) && (v in m ==> AddEpg(m, e)[v] == m[v])
    ensures e.Some? && e.value.0 == v ==>
      v in AddEpg(m, e) && AddEpg(m, e)[v] == Ordered.AddUnique(if v in m then m[v] else [], e.value.1)
  {
  }

  /** The table holds exactly the VLANs some line resolves, and each VLAN's list is its
      names with repetitions removed, in the order of first appearance. */
  lemma {:induction false} EpgsByVlanSpec(es: seq<Option<(string, string)>>, v: string)
    ensures v in EpgsByVlan(es) <==> NamesFor(es, v) != []
    ensures v in EpgsByVlan(es) ==> EpgsByVlan(es)[v] == Ordered.Distinct(NamesFor(es, v))
  {
    if es != [] {
      var init := es[..|es| - 1];
      var e := es[|es| - 1];
      EpgsByVlanSpec(init, v);
      var m := EpgsByVlan(init);
      assert EpgsByVlan(es) == AddEpg(m, e);
      AddEpgAt(m, e, v);
      var names := NamesFor(init, v);
      if e.Some? && e.value.0 == v {
        assert NamesFor(es, v) == names + [e.value.1];
        var list := if v in m then m[v] else [];
        assert list == Ordered.Distinct(names) by {
          if names == [] { assert Ordered.Distinct(names) == []; }
        }
        Ordered.DistinctSnoc(names, e.value.1);
        assert EpgsByVlan(es)[v] == Ordered.Distinct(NamesFor(es, v));
      } else {
        assert NamesFor(es, v) == names + [];
        assert names == NamesFor(es, v);
      }
    }
  }

  /** Hence every list names the EPGs of its VLAN once each, in first-seen order. */
  lemma EpgListsFirstSeen(input: string, v: string)
    requires v in ExtractEpgNamesFromMoquery(input)
    ensures Ordered.FirstSeenOrder(ExtractEpgNamesFromMoquery(input)[v], NamesFor(EpgEntries(SplitLines(Trim(input))), v))
  {
    var es := EpgEntries(SplitLines(Trim(input)));
    EpgsByVlanSpec(es, v);
    Ordered.DistinctFirstSeen(NamesFor(es, v));
  }
}
