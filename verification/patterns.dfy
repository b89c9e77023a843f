/** The regular expressions of the parsers, each written out as a matcher at one
    start position (`...At`) and located with Scan.Leftmost.

    A greedy quantifier over a character class that is followed by a character
    outside that class can only succeed by taking the whole run, so most
    quantifiers below are maximal runs (Text.RunEnd). Where a pattern needs
    backtracking (vpc\s+([\d-]+-VPC-...), \d{1,3}, \s*([^\n]+) and \s+.*vlan-)
    the comment at the matcher says which choice the backtracking settles on.
    The i flag is ASCII case folding (LitAtCI); without it literals are exact. */
module Patterns {
  import opened Text
  import opened Scan

  predicate IsNotSlash(c: char) { c != '/' }
  predicate IsNotCloseBracket(c: char) { c != ']' }
  predicate IsNotNewline(c: char) { c != '\n' }
  predicate IsDigitOrDash(c: char) { IsDigit(c) || c == '-' }
  /** [\d()X] */
  predicate IsNodeChar(c: char) { IsDigit(c) || c == '(' || c == ')' || c == 'X' }
  /** [\d()X] under the i flag */
  predicate IsNodeCharCI(c: char) { IsNodeChar(c) || c == 'x' }
  /** [\d()X-] under the i flag */
  predicate IsVpcNodeCharCI(c: char) { IsNodeCharCI(c) || c == '-' }

  /** A regular-expression \b at position i, given that s[i] is a word character. */
  predicate BoundaryBefore(s: string, i: nat) { i == 0 || (i <= |s| && !IsWordChar(s[i - 1])) }
  /** A regular-expression \b at position j, given that s[j - 1] is a word character. */
  predicate BoundaryAfter(s: string, j: nat) { j >= |s| || !IsWordChar(s[j]) }

  function Lit(s: string, i: nat, t: string, ci: bool): bool { if ci then LitAtCI(s, i, t) else LitAt(s, i, t) }

  /** The end of a non-empty run of digits starting at i. */
  function DigitsEnd(s: string, i: nat): (r: Option<nat>)
    ensures r.Some? ==> i < r.value <= |s| && AllDigits(s[i..r.value])
    ensures r.Some? ==> r.value == |s| || !IsDigit(s[r.value])
    ensures r.None? <==> !(i < |s| && IsDigit(s[i]))
  {
    if i < |s| && IsDigit(s[i]) then
      var e := RunEnd(s, i, IsDigit);
      Some(e)
    else None
  }

  // ---------------------------------------------------------------- /vlan-(\d+)/i

  /** /vlan-(\d+)/i at i: the digits. */
  function VlanTokenAt(s: string, i: nat): (r: Option<string>)
    ensures r.Some? ==> r.value != [] && AllDigits(r.value) && LitAtCI(s, i, "vlan-")
    ensures r.Some? ==> i + 5 + |r.value| <= |s| && s[i + 5 .. i + 5 + |r.value|] == r.value
    ensures r.Some? <==> LitAtCI(s, i, "vlan-") && DigitsEnd(s, i + 5).Some?
  {
    if LitAtCI(s, i, "vlan-") then
      match DigitsEnd(s, i + 5)
      case Some(e) => Some(s[i + 5 .. e])
      case None => None
    else None
  }

  /** The leftmost vlan-<digits> token: its position and digits. */
  function VlanToken(s: string): (r: Option<(nat, string)>)
    ensures r.Some? ==> VlanTokenAt(s, r.value.0) == Some(r.value.1)
  {
    var at := (i: nat) => VlanTokenAt(s, i);
    var m := Leftmost(s, at);
    assert m.Some? ==> at(m.value.0) == Some(m.value.1);
    m
  }

  /** line.match(/vlan-(\d+)/i)?.[1] */
  function VlanDigits(s: string): (r: Option<string>)
    ensures r.Some? ==> r.value != [] && AllDigits(r.value)
  {
    match VlanToken(s)
    case Some((_, d)) => Some(d)
    case None => None
  }

  /** line.match(/(vlan-\d+)/i)?.[1]: the same token with its "vlan-" as written. */
  function VlanEncap(s: string): (r: Option<string>)
    ensures r.Some? <==> VlanDigits(s).Some?
    ensures r.Some? ==> |r.value| > 5 && LowerString(r.value[..5]) == "vlan-" && r.value[5..] == VlanDigits(s).value
  {
    match VlanToken(s)
    case Some((i, d)) =>
      var e := s[i .. i + 5] + d;
      assert e[..5] == s[i .. i + 5] && e[5..] == d;
      Some(e)
    case None => None
  }

  /** Some position carries a vlan-<digits> token exactly when the leftmost search finds one. */
  lemma VlanDigitsFound(s: string, k: nat)
    requires VlanTokenAt(s, k).Some?
    ensures VlanDigits(s).Some?
  {
    var at := (i: nat) => VlanTokenAt(s, i);
    assert at(k).Some?;
  }

  // ---------------------------------------------------------------- EPG-name VLANs

  /** /VLAN(\d+)/i at i: the digits. */
  function VlanWordAt(s: string, i: nat): (r: Option<string>)
    ensures r.Some? ==> r.value != [] && AllDigits(r.value)
    ensures r.Some? ==> i + 4 + |r.value| <= |s| && s[i + 4 .. i + 4 + |r.value|] == r.value
  {
    if LitAtCI(s, i, "VLAN") then
      match DigitsEnd(s, i + 4)
      case Some(e) => Some(s[i + 4 .. e])
      case None => None
    else None
  }

  /** /(\d{3})/ at i */
  function ThreeDigitsAt(s: string, i: nat): (r: Option<string>)
    ensures r.Some? ==> |r.value| == 3 && AllDigits(r.value)
    ensures r.Some? ==> i + 3 <= |s| && s[i .. i + 3] == r.value
  {
    if i + 3 <= |s| && IsDigit(s[i]) && IsDigit(s[i + 1]) && IsDigit(s[i + 2]) then Some(s[i .. i + 3]) else None
  }

  /** /(\d+)/ at i */
  function DigitRunAt(s: string, i: nat): (r: Option<string>)
    ensures r.Some? ==> r.value != [] && AllDigits(r.value)
    ensures r.Some? ==> i + |r.value| <= |s| && s[i .. i + |r.value|] == r.value
    ensures r.Some? <==> i < |s| && IsDigit(s[i])
    ensures r.Some? ==> i + |r.value| == |s| || !IsDigit(s[i + |r.value|])
  {
    match DigitsEnd(s, i)
    case Some(e) => Some(s[i .. e])
    case None => None
  }

  /** A digit string that occurs in s. */
  ghost predicate DigitSubstring(s: string, d: string) {
    d != [] && AllDigits(d) && Contains(s, d)
  }

  /** name.match(/VLAN(\d+)/i)?.[1] */
  function VlanWord(s: string): (r: Option<string>)
    ensures r.Some? ==> DigitSubstring(s, r.value)
  {
    match Leftmost(s, i => VlanWordAt(s, i))
    case Some((i, d)) => assert VlanWordAt(s, i) == Some(d); assert LitAt(s, i + 4, d); Some(d)
    case None => None
  }

  /** name.match(/(\d{3})/)?.[1] */
  function ThreeDigits(s: string): (r: Option<string>)
    ensures r.Some? ==> DigitSubstring(s, r.value) && |r.value| == 3
  {
    match Leftmost(s, i => ThreeDigitsAt(s, i))
    case Some((i, d)) => assert ThreeDigitsAt(s, i) == Some(d); assert LitAt(s, i, d); Some(d)
    case None => None
  }

  /** d is the leftmost run of digits in s, taken whole: it starts at the first digit of s
      and ends at a non-digit or at the end. */
  ghost predicate FirstDigitRun(s: string, d: string) {
    exists i: nat :: DigitRunFrom(s, i, d)
  }

  /** d is the whole run of digits at i, and no digit comes before i. */
  ghost predicate DigitRunFrom(s: string, i: nat, d: string) {
    && i + |d| <= |s| && s[i .. i + |d|] == d && d != [] && AllDigits(d)
    && (forall j :: 0 <= j < i ==> !IsDigit(s[j]))
    && (i + |d| == |s| || !IsDigit(s[i + |d|]))
  }

  /** name.match(/(\d+)/)?.[1] */
  function DigitRun(s: string): (r: Option<string>)
    ensures r.Some? ==> DigitSubstring(s, r.value) && FirstDigitRun(s, r.value)
    ensures r.None? <==> !HasDigit(s)
  {
    var at := (i: nat) => DigitRunAt(s, i);
    match Leftmost(s, at)
    case Some((i, d)) =>
      assert at(i) == Some(d);
      assert LitAt(s, i, d);
      assert forall j :: 0 <= j < i ==> !IsDigit(s[j]) by {
        forall j | 0 <= j < i ensures !IsDigit(s[j]) { assert at(j).None?; }
      }
      assert DigitRunFrom(s, i, d);
      Some(d)
    case None =>
      assert forall k :: 0 <= k < |s| ==> !IsDigit(s[k]) by {
        forall k | 0 <= k < |s| ensures !IsDigit(s[k]) { assert at(k).None?; }
      }
      None
  }

  lemma DigitSubstringHasDigit(s: string, d: string)
    requires DigitSubstring(s, d)
    ensures HasDigit(s)
  {
    var i :| 0 <= i <= |s| && LitAt(s, i, d);
    assert IsDigit(s[i]) by { assert s[i] == d[0]; }
  }

  // ---------------------------------------------------------------- addresses

  /** \d{1,3} followed by something that is not a digit: the greedy quantifier
      can only succeed with the whole digit run, and only if it is at most 3 long. */
  function OctetEnd(s: string, i: nat): (r: Option<nat>)
    ensures r.Some? ==> i < r.value <= i + 3 && r.value <= |s| && AllDigits(s[i..r.value])
    ensures r.Some? ==> r.value == |s| || !IsDigit(s[r.value])
  {
    match DigitsEnd(s, i)
    case Some(e) => if e - i <= 3 then Some(e) else None
    case None => None
  }

  function DotThen(s: string, j: nat, next: (string, nat) -> Option<nat>): (r: Option<nat>)
  {
    if j < |s| && s[j] == '.' then next(s, j + 1) else None
  }

  /** /\b(\d{1,3}\.\d{1,3}\.\d{1,3}\.\d{1,3})\b/ at i */
  function BoundedIpv4At(s: string, i: nat): (r: Option<string>)
    ensures r.Some? ==> r.value != []
  {
    if !BoundaryBefore(s, i) then None
    else match OctetEnd(s, i)
      case None => None
      case Some(a) => match DotThen(s, a, OctetEnd)
        case None => None
        case Some(b) => match DotThen(s, b, OctetEnd)
          case None => None
          case Some(c) => match DotThen(s, c, OctetEnd)
            case None => None
            case Some(d) => if BoundaryAfter(s, d) then Some(s[i..d]) else None
  }

  /** line.match(/\b(\d{1,3}\.\d{1,3}\.\d{1,3}\.\d{1,3})\b/)?.[1] */
  function BoundedIpv4(s: string): (r: Option<string>)
    ensures r.Some? ==> r.value != []
  {
    match Leftmost(s, i => BoundedIpv4At(s, i))
    case Some((i, ip)) => assert BoundedIpv4At(s, i) == Some(ip); Some(ip)
    case None => None
  }

  /** /(\d+\.\d+\.\d+\.\d+)/ at i */
  function DottedQuadAt(s: string, i: nat): (r: Option<string>)
    ensures r.Some? ==> r.value != []
  {
    match DigitsEnd(s, i)
    case None => None
    case Some(a) => match DotThen(s, a, DigitsEnd)
      case None => None
      case Some(b) => match DotThen(s, b, DigitsEnd)
        case None => None
        case Some(c) => match DotThen(s, c, DigitsEnd)
          case None => None
          case Some(d) => Some(s[i..d])
  }

  /** line.match(/(\d+\.\d+\.\d+\.\d+)/)?.[1] */
  function DottedQuad(s: string): (r: Option<string>)
    ensures r.Some? ==> r.value != []
  {
    match Leftmost(s, i => DottedQuadAt(s, i))
    case Some((_, ip)) => Some(ip)
    case None => None
  }

  /** Six pairs of hexadecimal digits separated by colons, at i. */
  function MacAddressAt(s: string, i: nat): (r: Option<string>)
    ensures r.Some? ==> |r.value| == 17
  {
    if i + 17 <= |s| && forall k :: 0 <= k < 17 ==> (if k % 3 == 2 then s[i + k] == ':' else IsHexDigit(s[i + k]))
    then Some(s[i .. i + 17]) else None
  }

  /** line.match(/([0-9A-Fa-f]{2}:...:[0-9A-Fa-f]{2})/)?.[1] */
  function MacAddress(s: string): (r: Option<string>)
    ensures r.Some? ==> |r.value| == 17
  {
    match Leftmost(s, i => MacAddressAt(s, i))
    case Some((_, m)) => Some(m)
    case None => None
  }

  // ---------------------------------------------------------------- AEPg : <value>

  /** The last position in [lo, hi) that is not a newline. */
  function LastNonNewline(s: string, lo: nat, hi: nat): (r: Option<nat>)
    requires lo <= hi <= |s|
    ensures r.Some? ==> lo <= r.value < hi && s[r.value] != '\n'
    decreases hi
  {
    if hi <= lo then None else if s[hi - 1] != '\n' then Some(hi - 1) else LastNonNewline(s, lo, hi - 1)
  }

  /** /AEPg\s*:\s*([^\n]+)/i at i. After the colon the greedy \s* first takes the whole
      white-space run; if a character other than a newline follows, the capture runs
      from there to the next newline. Otherwise the run reaches the end of the text and
      \s* gives back characters until the last non-newline one, which is captured alone. */
  function AepgValueAt(s: string, i: nat): (r: Option<string>)
    ensures r.Some? ==> r.value != []
  {
    if !LitAtCI(s, i, "AEPg") then None
    else
      var p := RunEnd(s, i + 4, IsSpace);
      if !(p < |s| && s[p] == ':') then None
      else
        var q := RunEnd(s, p + 1, IsSpace);
        if q < |s| then Some(s[q .. RunEnd(s, q, IsNotNewline)])
        else match LastNonNewline(s, p + 1, q)
          case Some(t) => Some(s[t .. t + 1])
          case None => None
  }

  /** line.match(/AEPg\s*:\s*([^\n]+)/i)?.[1] */
  function AepgValue(s: string): Option<string>
  {
    match Leftmost(s, i => AepgValueAt(s, i))
    case Some((_, v)) => Some(v)
    case None => None
  }

  // ---------------------------------------------------------------- node + interface

  /** A vlan-<digit> token (case-insensitive) starts at p. */
  predicate VlanDigitAt(s: string, p: nat) { VlanTokenAt(s, p).Some? }

  /** The tail \s+.*vlan-(\d+) of the node/interface pattern, where s[d] (d < p) is the
      white space that begins \s+, `seenNonSpace` says whether s[d+1..p] holds a character
      other than white space, and the search continues at p. A line terminator may be
      crossed only inside \s+, that is, before the first character other than white space. */
  function VlanReachable(s: string, p: nat, seenNonSpace: bool): (r: bool)
    ensures r ==> exists k :: p <= k < |s| && VlanTokenAt(s, k).Some?
    decreases |s| - p
  {
    if p >= |s| then false
    else if VlanDigitAt(s, p) then true
    else if IsLineTerminator(s[p]) && seenNonSpace then false
    else VlanReachable(s, p + 1, seenNonSpace || !IsSpace(s[p]))
  }

  /** /(\d+)\s+(eth\d+\/\d+)\s+.*vlan-(\d+)/i at i: node and interface. Every greedy run
      up to the interface is followed by a character outside its class, so it is maximal. */
  function NodeInterfaceAt(s: string, i: nat): (r: Option<(string, string)>)
    ensures r.Some? ==> r.value.0 != [] && AllDigits(r.value.0) && r.value.1 != []
    ensures r.Some? ==> exists k :: 0 <= k < |s| && VlanTokenAt(s, k).Some?
  {
    match DigitsEnd(s, i)
    case None => None
    case Some(a) =>
      var b := RunEnd(s, a, IsSpace);
      if b == a || !LitAtCI(s, b, "eth") then None
      else match DigitsEnd(s, b + 3)
        case None => None
        case Some(c) =>
          if !(c < |s| && s[c] == '/') then None
          else match DigitsEnd(s, c + 1)
            case None => None
            case Some(d) =>
              if d < |s| && IsSpace(s[d]) && VlanReachable(s, d + 1, false)
              then Some((s[i..a], s[b..d])) else None
  }

  /** line.match(/(\d+)\s+(eth\d+\/\d+)\s+.*vlan-(\d+)/i): node and interface. */
  function NodeInterface(s: string): (r: Option<(string, string)>)
    ensures r.Some? ==> r.value.0 != [] && AllDigits(r.value.0) && r.value.1 != []
    ensures r.Some? ==> VlanDigits(s).Some?
  {
    match Leftmost(s, i => NodeInterfaceAt(s, i))
    case Some((i, m)) =>
      assert NodeInterfaceAt(s, i) == Some(m);
      var k :| 0 <= k < |s| && VlanTokenAt(s, k).Some?;
      VlanDigitsFound(s, k);
      Some(m)
    case None => None
  }

  // ---------------------------------------------------------------- VPC group names

  /** C+-C+-VPC-C+-C+-PG at i for a class C without '-': the end of the match. */
  function VpcShapeAt(s: string, i: nat, cls: char -> bool, ci: bool): (r: Option<nat>)
    requires forall c :: cls(c) ==> c != '-'
    ensures r.Some? ==> i < r.value <= |s|
  {
    if !(i < |s| && cls(s[i])) then None
    else
      var a := RunEnd(s, i, cls);
      if !(a < |s| && s[a] == '-') then None
      else
        var b := RunEnd(s, a + 1, cls);
        if b == a + 1 || !Lit(s, b, "-VPC-", ci) then None
        else
          var c := RunEnd(s, b + 5, cls);
          if !(c > b + 5 && c < |s| && s[c] == '-') then None
          else
            var d := RunEnd(s, c + 1, cls);
            if d == c + 1 || !Lit(s, d, "-PG", ci) then None
            else Some(d + 3)
  }

  /** /vpc\s+([\d-]+-VPC-[\d-]+-PG)/i at i. [\d-]+ first takes the whole run of digits and
      dashes; the "-VPC-" that must follow starts with '-' and continues with a letter, so
      backtracking succeeds only by giving back exactly the run's last character, which
      must be '-' (and likewise before "-PG"). */
  function VpcKeywordAt(s: string, i: nat): (r: Option<string>)
    ensures r.Some? ==> r.value != []
  {
    if !LitAtCI(s, i, "vpc") then None
    else
      var w := RunEnd(s, i + 3, IsSpace);
      if w == i + 3 then None
      else
        var r1 := RunEnd(s, w, IsDigitOrDash);
        if !(r1 >= w + 2 && s[r1 - 1] == '-' && LitAtCI(s, r1, "VPC-")) then None
        else
          var u := r1 + 4;
          var r2 := RunEnd(s, u, IsDigitOrDash);
          if !(r2 >= u + 2 && s[r2 - 1] == '-' && LitAtCI(s, r2, "PG")) then None
          else Some(s[w .. r2 + 2])
  }

  /** /\b([\d]+-[\d]+-VPC-[\d]+-[\d]+-PG)\b/i at i */
  function VpcBoundedAt(s: string, i: nat): (r: Option<string>)
    ensures r.Some? ==> r.value != []
  {
    if !BoundaryBefore(s, i) then None
    else match VpcShapeAt(s, i, IsDigit, true)
      case Some(e) => if BoundaryAfter(s, e) then Some(s[i..e]) else None
      case None => None
  }

  /** /([\d]+-[\d]+-VPC-[\d]+-[\d]+-PG)/i at i */
  function VpcLooseAt(s: string, i: nat): (r: Option<string>)
    ensures r.Some? ==> r.value != []
  {
    match VpcShapeAt(s, i, IsDigit, true)
    case Some(e) => Some(s[i..e])
    case None => None
  }

  /** The VPC path of an endpoint line: the first of the three VPC patterns that matches. */
  function EndpointVpcPath(s: string): (r: Option<string>)
    ensures r.Some? ==> r.value != []
  {
    match Leftmost(s, i => VpcKeywordAt(s, i))
    case Some((_, p)) => Some(p)
    case None =>
      match Leftmost(s, i => VpcBoundedAt(s, i))
      case Some((_, p)) => Some(p)
      case None =>
        match Leftmost(s, i => VpcLooseAt(s, i))
        case Some((_, p)) => Some(p)
        case None => None
  }

  /** /([\d()X]+-[\d()X]+-VPC-[\d()X]+-[\d()X]+-PG)/ at i (case-sensitive) */
  function VpcGroupAt(s: string, i: nat): (r: Option<string>)
    ensures r.Some? ==> r.value != []
  {
    match VpcShapeAt(s, i, IsNodeChar, false)
    case Some(e) => Some(s[i..e])
    case None => None
  }

  /** line.match(/([\d()X]+-[\d()X]+-VPC-[\d()X]+-[\d()X]+-PG)/)?.[1] */
  function VpcGroup(s: string): (r: Option<string>)
    ensures r.Some? ==> r.value != []
  {
    match Leftmost(s, i => VpcGroupAt(s, i))
    case Some((_, p)) => Some(p)
    case None => None
  }

  /** /(eth\d+\/\d+)/ at i (case-sensitive) */
  function EthPortAt(s: string, i: nat): (r: Option<string>)
    ensures r.Some? ==> r.value != []
  {
    if !LitAt(s, i, "eth") then None
    else match DigitsEnd(s, i + 3)
      case None => None
      case Some(a) =>
        if !(a < |s| && s[a] == '/') then None
        else match DigitsEnd(s, a + 1)
          case Some(b) => Some(s[i..b])
          case None => None
  }

  /** line.match(/(eth\d+\/\d+)/)?.[1] */
  function EthPort(s: string): (r: Option<string>)
    ensures r.Some? ==> r.value != []
  {
    match Leftmost(s, i => EthPortAt(s, i))
    case Some((_, p)) => Some(p)
    case None => None
  }

  // ---------------------------------------------------------------- distinguished names

  /** The captures of the path-attachment distinguished-name pattern. */
  datatype DnMatch = DnMatch(epg: string, pod: string, nodes: string, path: string)

  /** dn\s*:\s*uni/tn-[^/]+/ap-[^/]+/epg-([^/]+)/rspathAtt-[topology/ at i (i flag):
      the bounds of the EPG capture; the pattern continues at the end bound plus 21. */
  function DnHeadAt(s: string, i: nat): (r: Option<(nat, nat)>)
    ensures r.Some? ==> r.value.0 < r.value.1 && r.value.1 + 21 <= |s|
  {
    if !LitAtCI(s, i, "dn") then None
    else
      var p1 := RunEnd(s, i + 2, IsSpace);
      if !(p1 < |s| && s[p1] == ':') then None
      else
        var p2 := RunEnd(s, p1 + 1, IsSpace);
        if !LitAtCI(s, p2, "uni/tn-") then None
        else
          var p3 := RunEnd(s, p2 + 7, IsNotSlash);
          if p3 == p2 + 7 || !LitAtCI(s, p3, "/ap-") then None
          else
            var p4 := RunEnd(s, p3 + 4, IsNotSlash);
            if p4 == p3 + 4 || !LitAtCI(s, p4, "/epg-") then None
            else
              var e := RunEnd(s, p4 + 5, IsNotSlash);
              if e == p4 + 5 || !LitAtCI(s, e, "/rspathAtt-[topology/") then None
              else Some((p4 + 5, e))
  }

  /** (pod-\d+)/KIND-(N+)/pathep-[([^\]]+)]] at q (i flag), where KIND is "protpaths" and
      N is [\d()X-] when `vpc` holds, and KIND is "paths" and N is [\d()X] otherwise:
      the pod, the node identifier and the path. */
  function DnTargetAt(s: string, q: nat, vpc: bool): (r: Option<(string, string, string)>)
    ensures r.Some? ==> r.value.1 != [] && r.value.2 != []
    ensures r.Some? ==> |r.value.0| > 4 && LowerString(r.value.0[..4]) == "pod-" && AllDigits(r.value.0[4..])
  {
    if !LitAtCI(s, q, "pod-") then None
    else match DigitsEnd(s, q + 4)
      case None => None
      case Some(q2) =>
        var kind := if vpc then "/protpaths-" else "/paths-";
        if !LitAtCI(s, q2, kind) then None
        else
          var n1 := q2 + |kind|;
          var n2 := RunEnd(s, n1, if vpc then IsVpcNodeCharCI else IsNodeCharCI);
          if n2 == n1 || !LitAtCI(s, n2, "/pathep-[") then None
          else
            var t := RunEnd(s, n2 + 9, IsNotCloseBracket);
            if t == n2 + 9 || !LitAt(s, t, "]]") then None
            else
              assert s[q..q2][..4] == s[q .. q + 4];
              assert s[q..q2][4..] == s[q + 4 .. q2];
              Some((s[q..q2], s[n1..n2], s[n2 + 9 .. t]))
  }

  /** The whole distinguished-name pattern at i. */
  function DnAt(s: string, i: nat, vpc: bool): (r: Option<DnMatch>)
    ensures r.Some? ==> r.value.epg != [] && r.value.nodes != [] && r.value.path != []
    ensures r.Some? ==> |r.value.pod| > 4 && LowerString(r.value.pod[..4]) == "pod-" && AllDigits(r.value.pod[4..])
  {
    match DnHeadAt(s, i)
    case None => None
    case Some((e1, e2)) =>
      match DnTargetAt(s, e2 + 21, vpc)
      case None => None
      case Some((pod, nodes, path)) => Some(DnMatch(s[e1..e2], pod, nodes, path))
  }

  /** The path-attachment pattern with protpaths-<n1>-<n2> (a VPC). */
  function DnProtpaths(s: string): (r: Option<DnMatch>)
    ensures r.Some? ==> r.value.epg != [] && r.value.nodes != [] && r.value.path != []
    ensures r.Some? ==> |r.value.pod| > 4 && LowerString(r.value.pod[..4]) == "pod-" && AllDigits(r.value.pod[4..])
  {
    match Leftmost(s, i => DnAt(s, i, true))
    case Some((i, m)) => assert DnAt(s, i, true) == Some(m); Some(m)
    case None => None
  }

  /** The path-attachment pattern with paths-<node> (a single switch). */
  function DnPaths(s: string): (r: Option<DnMatch>)
    ensures r.Some? ==> r.value.epg != [] && r.value.nodes != [] && r.value.path != []
    ensures r.Some? ==> |r.value.pod| > 4 && LowerString(r.value.pod[..4]) == "pod-" && AllDigits(r.value.pod[4..])
  {
    match Leftmost(s, i => DnAt(s, i, false))
    case Some((i, m)) => assert DnAt(s, i, false) == Some(m); Some(m)
    case None => None
  }

  /** /\/epg-([^\/]+)\// at i (case-sensitive) */
  function EpgSegmentAt(s: string, i: nat): (r: Option<string>)
    ensures r.Some? ==> r.value != []
  {
    if !LitAt(s, i, "/epg-") then None
    else
      var e := RunEnd(s, i + 5, IsNotSlash);
      if e > i + 5 && e < |s| then Some(s[i + 5 .. e]) else None
  }

  /** line.match(/\/epg-([^\/]+)\//)?.[1] */
  function EpgSegment(s: string): (r: Option<string>)
    ensures r.Some? ==> r.value != []
  {
    match Leftmost(s, i => EpgSegmentAt(s, i))
    case Some((_, e)) => Some(e)
    case None => None
  }

  // ---------------------------------------------------------------- node numbers in paths

  /** /(C+)-(C+)-VPC/ at i, for a class C without '-' (case-sensitive). */
  function NodePairAt(s: string, i: nat, cls: char -> bool): (r: Option<(string, string)>)
    requires forall c :: cls(c) ==> c != '-'
    ensures r.Some? ==> r.value.0 != [] && r.value.1 != []
    ensures r.Some? ==> forall k :: 0 <= k < |r.value.0| ==> cls(r.value.0[k])
    ensures r.Some? ==> forall k :: 0 <= k < |r.value.1| ==> cls(r.value.1[k])
  {
    if !(i < |s| && cls(s[i])) then None
    else
      var a := RunEnd(s, i, cls);
      if !(a < |s| && s[a] == '-') then None
      else
        var b := RunEnd(s, a + 1, cls);
        if b == a + 1 || !LitAt(s, b, "-VPC") then None
        else Some((s[i..a], s[a + 1 .. b]))
  }

  /** pathName.match(/([\d()X]+)-([\d()X]+)-VPC/) */
  function NodeXPair(s: string): (r: Option<(string, string)>)
    ensures r.Some? ==> r.value.0 != [] && r.value.1 != []
    ensures r.Some? ==> forall k :: 0 <= k < |r.value.0| ==> IsNodeChar(r.value.0[k])
    ensures r.Some? ==> forall k :: 0 <= k < |r.value.1| ==> IsNodeChar(r.value.1[k])
  {
    match Leftmost(s, i => NodePairAt(s, i, IsNodeChar))
    case Some((i, m)) => assert NodePairAt(s, i, IsNodeChar) == Some(m); Some(m)
    case None => None
  }

  /** result.path.match(/(\d+)-(\d+)-VPC/) */
  function DigitNodePair(s: string): (r: Option<(string, string)>)
    ensures r.Some? ==> r.value.0 != [] && AllDigits(r.value.0) && r.value.1 != [] && AllDigits(r.value.1)
  {
    match Leftmost(s, i => NodePairAt(s, i, IsDigit))
    case Some((i, m)) => assert NodePairAt(s, i, IsDigit) == Some(m); Some(m)
    case None => None
  }

  /** /^(C+)[-\/]/ for a class C without '-' and '/'. */
  function LeadingNode(s: string, cls: char -> bool): (r: Option<string>)
    ensures r.Some? ==> r.value != [] && forall k :: 0 <= k < |r.value| ==> cls(r.value[k])
  {
    if !(|s| > 0 && cls(s[0])) then None
    else
      var a := RunEnd(s, 0, cls);
      if a < |s| && (s[a] == '-' || s[a] == '/') then Some(s[..a]) else None
  }

  /** fullPath.match(/protpaths-([\d()X]+)-([\d()X]+)/) at i */
  function ProtpathsNodesAt(s: string, i: nat): Option<(string, string)>
  {
    if !LitAt(s, i, "protpaths-") then None
    else
      var a := RunEnd(s, i + 10, IsNodeChar);
      if !(a > i + 10 && a < |s| && s[a] == '-') then None
      else
        var b := RunEnd(s, a + 1, IsNodeChar);
        if b == a + 1 then None else Some((s[i + 10 .. a], s[a + 1 .. b]))
  }

  function ProtpathsNodes(s: string): Option<(string, string)>
  {
    match Leftmost(s, i => ProtpathsNodesAt(s, i))
    case Some((_, m)) => Some(m)
    case None => None
  }

  /** fullPath.match(/paths-([\d()X]+)\//) at i */
  function PathsNodeAt(s: string, i: nat): Option<string>
  {
    if !LitAt(s, i, "paths-") then None
    else
      var a := RunEnd(s, i + 6, IsNodeChar);
      if a > i + 6 && a < |s| && s[a] == '/' then Some(s[i + 6 .. a]) else None
  }

  function PathsNode(s: string): Option<string>
  {
    match Leftmost(s, i => PathsNodeAt(s, i))
    case Some((_, m)) => Some(m)
    case None => None
  }
}
