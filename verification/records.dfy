/** The record types of src/utils/apicParser.ts and the path-name normalisation
    that every comparison of paths goes through. */
module Records {
  import opened Text
  import Ordered

  /** One path attachment from the path-attachment query output. */
  datatype PathAttachment = PathAttachment(vlan: string, epg: string, path: string, fullPath: string, pod: string)

  /** One endpoint lookup. pathsWithNodes and pathsWithIPs are optional in the source;
      an absent map is the empty map here, since callers only ask has/get of them. */
  datatype EndpointData = EndpointData(
    vlan: string,
    ip: string,
    paths: seq<string>,
    pod: string,
    pathsWithNodes: map<string, string>,
    pathsWithIPs: map<string, string>)

  datatype Status = Allowed | NotAllowed

  datatype ValidationResult = ValidationResult(path: string, hasActiveEndpoint: bool, isVlanAllowed: bool, status: Status)

  /** One endpoint row of the bulk endpoint output. */
  datatype AutoModeEndpoint = AutoModeEndpoint(ip: string, mac: string, path: string, vlan: string, encap: string, epg: string)

  predicate IsBracket(c: char) { c == '[' || c == ']' }
  predicate NotBracket(c: char) { !IsBracket(c) }

  /** .replace(/[\[\]]/g, ''): the string with every square bracket removed, the other
      characters kept in order. */
  function RemoveBrackets(s: string): (r: string)
    ensures forall k :: 0 <= k < |r| ==> !IsBracket(r[k])
    ensures (forall k :: 0 <= k < |s| ==> !IsBracket(s[k])) ==> r == s
    ensures |r| <= |s|
  {
    if s == [] then []
    else RemoveBrackets(s[..|s| - 1]) + (if IsBracket(s[|s| - 1]) then [] else [s[|s| - 1]])
  }

  /** Removing brackets from a concatenation removes them from each part. */
  lemma {:induction false} RemoveBracketsConcat(a: string, b: string)
    ensures RemoveBrackets(a + b) == RemoveBrackets(a) + RemoveBrackets(b)
    decreases |b|
  {
    if b == [] {
      assert a + b == a;
    } else {
      var init := b[..|b| - 1];
      RemoveBracketsConcat(a, init);
      assert (a + b)[..|a + b| - 1] == a + init;
      assert (a + b)[|a + b| - 1] == b[|b| - 1];
    }
  }

  /** A bracket is removed; any other character is kept. */
  lemma RemoveBracketsSingle(c: char)
    ensures RemoveBrackets([c]) == if IsBracket(c) then [] else [c]
  {
    assert [c][..0] == [];
  }

  /** Removing brackets keeps exactly the characters that are not brackets, in order. */
  lemma {:induction false} RemoveBracketsIsFilter(s: string)
    ensures RemoveBrackets(s) == Ordered.Filter(s, NotBracket)
    decreases |s|
  {
    if s != [] {
      RemoveBracketsIsFilter(s[..|s| - 1]);
    }
  }

  /** normalizePathName: trim, drop square brackets, lower-case. */
  function NormalizePathName(path: string): (r: string)
    ensures forall k :: 0 <= k < |r| ==> !IsBracket(r[k]) && !IsUpper(r[k])
  {
    LowerString(RemoveBrackets(Trim(path)))
  }

  /** The normalised name is the lower-cased non-bracket characters of the trimmed path. */
  lemma NormalizePathNameIsFilter(path: string)
    ensures NormalizePathName(path) == LowerString(Ordered.Filter(Trim(path), NotBracket))
  {
    RemoveBracketsIsFilter(Trim(path));
  }

  /** On a path without brackets the normalisation is idempotent. */
  lemma NormalizeIdempotentWithoutBrackets(path: string)
    requires forall k :: 0 <= k < |path| ==> !IsBracket(path[k])
    ensures NormalizePathName(NormalizePathName(path)) == NormalizePathName(path)
  {
    var t := Trim(path);
    TrimKeepsNoBracket(path);
    LowerKeepsShape(t);
    LowerIdempotent(t);
    NormalizeFixedPoint(LowerString(t));
  }

  /** Lower-casing keeps a string free of brackets and of surrounding space. */
  lemma LowerKeepsShape(t: string)
    requires forall k :: 0 <= k < |t| ==> !IsBracket(t[k])
    requires t == [] || (!IsSpace(t[0]) && !IsSpace(t[|t| - 1]))
    ensures var n := LowerString(t);
      && (forall k :: 0 <= k < |n| ==> !IsBracket(n[k]))
      && (n == [] || (!IsSpace(n[0]) && !IsSpace(n[|n| - 1])))
  {
  }

  /** A lower-case string without brackets or surrounding space is its own normal form. */
  lemma NormalizeFixedPoint(n: string)
    requires forall k :: 0 <= k < |n| ==> !IsBracket(n[k])
    requires n == [] || (!IsSpace(n[0]) && !IsSpace(n[|n| - 1]))
    requires LowerString(n) == n
    ensures NormalizePathName(n) == n
  {
    TrimOfUntrimmed(n);
  }

  lemma TrimKeepsNoBracket(s: string)
    requires forall k :: 0 <= k < |s| ==> !IsBracket(s[k])
    ensures forall k :: 0 <= k < |Trim(s)| ==> !IsBracket(Trim(s)[k])
  {
    var t := Trim(s);
    var i, j :| 0 <= i <= j <= |s| && t == s[i..j] && AllSpace(s[..i]) && AllSpace(s[j..]);
    assert forall k :: 0 <= k < |t| ==> t[k] == s[i + k];
  }

  lemma LowerIdempotent(s: string)
    ensures LowerString(LowerString(s)) == LowerString(s)
  {
  }

  lemma TrimOfUntrimmed(s: string)
    requires s == [] || (!IsSpace(s[0]) && !IsSpace(s[|s| - 1]))
    ensures Trim(s) == s
  {
  }

  /** The normalisation is not idempotent in general: "[ a ]" becomes " a ", and that becomes "a". */
  lemma NormalizeNotIdempotent()
    ensures NormalizePathName("[ a ]") == " a "
    ensures NormalizePathName(" a ") == "a"
  {
    TrimOfUntrimmed("[ a ]");
    RemoveBracketsExample();
    assert LowerString(" a ") == " a ";
    TrimExample();
    assert RemoveBrackets("a") == "a";
    assert LowerString("a") == "a";
  }

  lemma RemoveBracketsExample()
    ensures RemoveBrackets("[ a ]") == " a "
  {
    assert "[ a ]"[..4] == "[ a ";
    assert "[ a "[..3] == "[ a";
    assert "[ a"[..2] == "[ ";
    assert "[ "[..1] == "[";
    assert RemoveBrackets("[") == "";
    assert RemoveBrackets("[ ") == " ";
    assert RemoveBrackets("[ a") == " a";
    assert RemoveBrackets("[ a ") == " a ";
  }

  lemma TrimExample()
    ensures Trim(" a ") == "a"
  {
    var t := Trim(" a ");
    var i, j :| 0 <= i <= j <= 3 && t == " a "[i..j] && AllSpace(" a "[..i]) && AllSpace(" a "[j..]);
    assert !IsSpace('a');
    assert i <= 1 && j >= 2;
    assert t != [] ;
  }
}
