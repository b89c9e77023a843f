/** The data behind the matrix view of src/components/MatrixTable.tsx: the VLAN columns,
    one row per (IP, interface) key, and in each row the status of every VLAN that hit
    it. The row sort (locale-aware collation) is not modelled: rows stay in the order
    their keys first appear. */
module Matrix {
  import opened Text
  import opened Patterns
  import Ordered
  import opened Records
  import App

  /** One entry as the matrix receives it: only entries with results, with the VLAN of
      their endpoint data. */
  datatype MatrixEntry = MatrixEntry(vlan: string, epgName: string, results: seq<ValidationResult>, endpointData: EndpointData)

  /** An entry that has been validated: it has results and endpoint data. */
  predicate IsValidated(e: App.Entry) { e.results.Some? && e.endpointData.Some? }

  function AsMatrixEntry(e: App.Entry): MatrixEntry
    requires IsValidated(e)
  {
    MatrixEntry(e.endpointData.value.vlan, e.epgName, e.results.value, e.endpointData.value)
  }

  /** The entries that have results and endpoint data, in order, each with the VLAN of
      its endpoint data; every such entry is there and nothing else is. */
  function MatrixEntries(entries: seq<App.Entry>): (r: seq<MatrixEntry>)
    ensures var f := Ordered.Filter(entries, IsValidated);
      |r| == |f| && forall k :: 0 <= k < |f| ==> IsValidated(f[k]) && r[k] == AsMatrixEntry(f[k])
    ensures forall e :: e in entries && IsValidated(e) ==> AsMatrixEntry(e) in r
    ensures forall m :: m in r ==> exists e :: e in entries && IsValidated(e) && m == AsMatrixEntry(e)
  {
    var f := Ordered.Filter(entries, IsValidated);
    assert forall k :: 0 <= k < |f| ==> f[k] in f;
    var r := seq(|f|, k requires 0 <= k < |f| => AsMatrixEntry(f[k]));
    assert forall e :: e in entries && IsValidated(e) ==> AsMatrixEntry(e) in r by {
      forall e | e in entries && IsValidated(e) ensures AsMatrixEntry(e) in r {
        var k :| 0 <= k < |f| && f[k] == e;
        assert r[k] == AsMatrixEntry(e);
      }
    }
    r
  }

  // ---------------------------------------------------------------- the VLAN columns

  /** parseInt of a VLAN; the parsers only produce digit strings, any other VLAN sorts as 0. */
  function VlanKey(v: string): nat
  {
    match LeadingInt(v) case Some(n) => n case None => 0
  }

  ghost predicate SortedBy(s: seq<string>, key: string -> nat) {
    forall i, j :: 0 <= i < j < |s| ==> key(s[i]) <= key(s[j])
  }

  ghost predicate SortedByKey(s: seq<string>) {
    forall i, j :: 0 <= i < j < |s| ==> VlanKey(s[i]) <= VlanKey(s[j])
  }

  /** Insert x after every element whose key is not larger (a stable insertion). */
  function Insert(x: string, s: seq<string>, key: string -> nat): (r: seq<string>)
    ensures |r| == |s| + 1
    ensures multiset(r) == multiset(s) + multiset{x}
    ensures forall y :: y in r <==> y == x || y in s
  {
    if s == [] then [x]
    else if key(s[0]) <= key(x) then
      assert s == [s[0]] + s[1..];
      [s[0]] + Insert(x, s[1..], key)
    else
      [x] + s
  }

  lemma {:induction false} InsertSorted(x: string, s: seq<string>, key: string -> nat)
    requires SortedBy(s, key)
    ensures SortedBy(Insert(x, s, key), key)
    ensures s != [] ==> Insert(x, s, key)[0] == x || Insert(x, s, key)[0] == s[0]
  {
    if s != [] && key(s[0]) <= key(x) {
      var t := s[1..];
      assert SortedBy(t, key) by {
        forall i, j | 0 <= i < j < |t| ensures key(t[i]) <= key(t[j]) { assert t[i] == s[i + 1] && t[j] == s[j + 1]; }
      }
      InsertSorted(x, t, key);
      var rest := Insert(x, t, key);
      assert key(s[0]) <= key(rest[0]) by { if t != [] { assert s[1] == t[0]; } }
      var r := [s[0]] + rest;
      assert Insert(x, s, key) == r;
      forall i, j | 0 <= i < j < |r| ensures key(r[i]) <= key(r[j]) {
        assert r[j] == rest[j - 1];
        if i > 0 {
          assert r[i] == rest[i - 1];
        } else if j > 1 {
          assert key(rest[0]) <= key(rest[j - 1]);
        }
      }
    } else if s != [] {
      SortedPrepend(x, s, key);
    }
  }

  /** An element with a smaller key than the head of a sorted sequence goes in front. */
  lemma SortedPrepend(x: string, s: seq<string>, key: string -> nat)
    requires SortedBy(s, key) && s != [] && key(x) < key(s[0])
    ensures SortedBy([x] + s, key)
  {
    var r := [x] + s;
    forall i, j | 0 <= i < j < |r| ensures key(r[i]) <= key(r[j]) {
      assert r[j] == s[j - 1];
      if i > 0 {
        assert r[i] == s[i - 1];
      } else {
        assert key(s[0]) <= key(s[j - 1]);
      }
    }
  }

  /** Insertion sort by key: a stable, ascending permutation. */
  function SortBy(xs: seq<string>, key: string -> nat): (r: seq<string>)
    ensures multiset(r) == multiset(xs)
    ensures SortedBy(r, key)
  {
    if xs == [] then []
    else
      var init := xs[..|xs| - 1];
      assert xs == init + [xs[|xs| - 1]];
      InsertSorted(xs[|xs| - 1], SortBy(init, key), key);
      Insert(xs[|xs| - 1], SortBy(init, key), key)
  }

  /** The sort of the VLAN columns, by numeric value. */
  function SortVlans(xs: seq<string>): (r: seq<string>)
    ensures multiset(r) == multiset(xs)
    ensures SortedByKey(r)
  {
    SortBy(xs, VlanKey)
  }

  /** Whether an element falls in the key class c. */
  function KeyIs(key: string -> nat, c: nat): string -> bool
  {
    x => key(x) == c
  }

  /** The elements of key c, in their order in xs. */
  function WithKey(xs: seq<string>, key: string -> nat, c: nat): seq<string>
  {
    Ordered.Filter(xs, KeyIs(key, c))
  }

  /** No element of key c leaves nothing in its class. */
  lemma {:induction false} WithKeyNone(xs: seq<string>, key: string -> nat, c: nat)
    requires forall k :: 0 <= k < |xs| ==> key(xs[k]) != c
    ensures WithKey(xs, key, c) == []
  {
    if xs != [] {
      WithKeyNone(xs[..|xs| - 1], key, c);
    }
  }

  /** Insertion into a sorted sequence puts x after every element of its own key. */
  lemma {:induction false} InsertWithKey(x: string, s: seq<string>, key: string -> nat, c: nat)
    requires SortedBy(s, key)
    ensures WithKey(Insert(x, s, key), key, c) == WithKey(s, key, c) + (if key(x) == c then [x] else [])
  {
    if s == [] {
      Ordered.FilterSingle(x, KeyIs(key, c));
      assert Insert(x, s, key) == [x];
    } else if key(s[0]) <= key(x) {
      var t := s[1..];
      assert SortedBy(t, key) by {
        forall i, j | 0 <= i < j < |t| ensures key(t[i]) <= key(t[j]) { assert t[i] == s[i + 1] && t[j] == s[j + 1]; }
      }
      InsertWithKey(x, t, key, c);
      InsertWithKeyStep(x, s, key, c);
    } else {
      InsertWithKeyFront(x, s, key, c);
    }
  }

  /** The case of InsertWithKey where the head stays in front. */
  lemma InsertWithKeyStep(x: string, s: seq<string>, key: string -> nat, c: nat)
    requires s != [] && key(s[0]) <= key(x)
    requires WithKey(Insert(x, s[1..], key), key, c) == WithKey(s[1..], key, c) + (if key(x) == c then [x] else [])
    ensures WithKey(Insert(x, s, key), key, c) == WithKey(s, key, c) + (if key(x) == c then [x] else [])
  {
    var p, t := KeyIs(key, c), s[1..];
    var rest := Insert(x, t, key);
    var head := Ordered.Filter([s[0]], p);
    assert WithKey(Insert(x, s, key), key, c) == head + WithKey(rest, key, c) by {
      assert Insert(x, s, key) == [s[0]] + rest;
      Ordered.FilterConcat([s[0]], rest, p);
    }
    assert WithKey(s, key, c) == head + WithKey(t, key, c) by {
      assert s == [s[0]] + t;
      Ordered.FilterConcat([s[0]], t, p);
    }
  }

  /** The case of InsertWithKey where x goes in front of a sorted sequence with larger keys. */
  lemma InsertWithKeyFront(x: string, s: seq<string>, key: string -> nat, c: nat)
    requires SortedBy(s, key) && s != [] && key(x) < key(s[0])
    ensures WithKey(Insert(x, s, key), key, c) == WithKey(s, key, c) + (if key(x) == c then [x] else [])
  {
    var p := KeyIs(key, c);
    assert Insert(x, s, key) == [x] + s;
    Ordered.FilterConcat([x], s, p);
    Ordered.FilterSingle(x, p);
    if key(x) == c {
      forall k | 0 <= k < |s| ensures key(s[k]) != c { assert key(s[0]) <= key(s[k]); }
      WithKeyNone(s, key, c);
    }
  }

  /** SortBy is stable: the elements of each key keep their input order. */
  lemma {:induction false} SortByStable(xs: seq<string>, key: string -> nat, c: nat)
    ensures WithKey(SortBy(xs, key), key, c) == WithKey(xs, key, c)
  {
    if xs != [] {
      var init, last := xs[..|xs| - 1], xs[|xs| - 1];
      SortByStable(init, key, c);
      InsertWithKey(last, SortBy(init, key), key, c);
    }
  }

  /** Array.prototype.sort is stable, so VLANs of equal numeric value ("0100", "100") keep their order. */
  lemma SortVlansStable(xs: seq<string>, c: nat)
    ensures WithKey(SortVlans(xs), VlanKey, c) == WithKey(xs, VlanKey, c)
  {
    SortByStable(xs, VlanKey, c);
  }

  function EntryVlans(ms: seq<MatrixEntry>): (r: seq<string>)
    ensures |r| == |ms| && forall k :: 0 <= k < |ms| ==> r[k] == ms[k].vlan
  {
    seq(|ms|, k requires 0 <= k < |ms| => ms[k].vlan)
  }

  /** allVlans: the distinct VLANs of the entries in ascending numeric order. */
  function AllVlans(ms: seq<MatrixEntry>): (r: seq<string>)
    ensures SortedByKey(r)
    ensures forall v :: v in r <==> exists m :: m in ms && m.vlan == v
    ensures Ordered.NoDup(r)
  {
    var d := Ordered.Distinct(EntryVlans(ms));
    var r := SortVlans(d);
    assert forall v :: v in r <==> v in d by {
      forall v ensures v in r <==> v in d { assert v in r <==> v in multiset(r); }
    }
    assert forall v :: v in d <==> exists m :: m in ms && m.vlan == v by {
      forall v ensures v in d <==> exists m :: m in ms && m.vlan == v {
        if v in EntryVlans(ms) {
          var k :| 0 <= k < |ms| && EntryVlans(ms)[k] == v;
          assert ms[k] in ms;
        }
        if exists m :: m in ms && m.vlan == v {
          var m :| m in ms && m.vlan == v;
          var k :| 0 <= k < |ms| && ms[k] == m;
          assert EntryVlans(ms)[k] == v;
        }
      }
    }
    NoDupPermutation(d, r);
    r
  }

  /** The VLAN columns of one numeric value appear in the order they are first seen. */
  lemma AllVlansStable(ms: seq<MatrixEntry>, c: nat)
    ensures WithKey(AllVlans(ms), VlanKey, c) == WithKey(Ordered.Distinct(EntryVlans(ms)), VlanKey, c)
  {
    SortVlansStable(Ordered.Distinct(EntryVlans(ms)), c);
  }

  /** A rearrangement of a sequence without repetitions has none. */
  lemma NoDupPermutation(a: seq<string>, b: seq<string>)
    requires Ordered.NoDup(a) && multiset(a) == multiset(b)
    ensures Ordered.NoDup(b)
  {
    forall x ensures multiset(b)[x] <= 1 {
      NoDupCount(a, x);
    }
    forall i, j | 0 <= i < j < |b| ensures b[i] != b[j] {
      CountTwo(b, i, j);
    }
  }

  lemma {:induction false} NoDupCount(a: seq<string>, x: string)
    requires Ordered.NoDup(a)
    ensures multiset(a)[x] <= 1
  {
    if a != [] {
      var init := a[..|a| - 1];
      assert a == init + [a[|a| - 1]];
      NoDupCount(init, x);
      if a[|a| - 1] == x {
        assert x !in init;
      }
    }
  }

  lemma CountTwo(b: seq<string>, i: int, j: int)
    requires 0 <= i < j < |b| && multiset(b)[b[i]] <= 1
    ensures b[i] != b[j]
  {
    var x := b[i];
    assert b == b[..j] + [b[j]] + b[j + 1..];
    assert b[..j][i] == x;
    assert multiset(b)[x] >= multiset(b[..j])[x] + multiset([b[j]])[x];
  }

  // ---------------------------------------------------------------- the rows

  /** The IP of a row: the endpoint's IP for this path when the path is mapped (even to
      ""), else the entry's IP; when that is empty, the first dotted quad in the EPG name;
      else "". */
  function RowIp(m: MatrixEntry, path: string): (r: string)
    ensures var ip := if path in m.endpointData.pathsWithIPs then m.endpointData.pathsWithIPs[path] else m.endpointData.ip;
      && (ip != "" ==> r == ip)
      && (ip == "" && DottedQuad(m.epgName).Some? ==> r == DottedQuad(m.epgName).value)
      && (ip == "" && DottedQuad(m.epgName).None? ==> r == "")
    ensures r == "" <==> (DottedQuad(m.epgName).None? &&
      (if path in m.endpointData.pathsWithIPs then m.endpointData.pathsWithIPs[path] else m.endpointData.ip) == "")
  {
    var ip := if path in m.endpointData.pathsWithIPs then m.endpointData.pathsWithIPs[path] else m.endpointData.ip;
    if ip != "" then ip
    else match DottedQuad(m.epgName)
      case Some(q) => q
      case None => ""
  }

  /** The row key `${ip}|${path}`. */
  function RowKey(ip: string, path: string): string { ip + "|" + path }

  /** An IP without '|' (every IP the parsers produce) makes the key determine the row. */
  lemma RowKeyInjective(ip1: string, path1: string, ip2: string, path2: string)
    requires '|' !in ip1 && '|' !in ip2 && RowKey(ip1, path1) == RowKey(ip2, path2)
    ensures ip1 == ip2 && path1 == path2
  {
    var k := RowKey(ip1, path1);
    assert k[|ip1|] == '|' && k[|ip2|] == '|';
    assert forall i :: 0 <= i < |ip1| ==> k[i] == ip1[i];
    assert forall i :: 0 <= i < |ip2| ==> k[i] == ip2[i];
    assert forall i :: 0 <= i < |ip1| ==> k[i] != '|';
    assert forall i :: 0 <= i < |ip2| ==> k[i] != '|';
    assert ip1 == k[..|ip1|] == ip2;
    assert path1 == k[|ip1| + 1..] == path2;
  }

  /** One (entry, result) pair of the double loop. */
  datatype Hit = Hit(key: string, ip: string, path: string, vlan: string, status: Status)

  function EntryHits(m: MatrixEntry): (r: seq<Hit>)
    ensures |r| == |m.results|
    ensures forall k :: 0 <= k < |r| ==> (r[k].vlan == m.vlan && r[k].path == m.results[k].path
      && r[k].status == m.results[k].status && r[k].ip == RowIp(m, m.results[k].path)
      && r[k].key == RowKey(r[k].ip, r[k].path))
  {
    seq(|m.results|, k requires 0 <= k < |m.results| =>
      var ip := RowIp(m, m.results[k].path);
      Hit(RowKey(ip, m.results[k].path), ip, m.results[k].path, m.vlan, m.results[k].status))
  }

  function Hits(ms: seq<MatrixEntry>): (r: seq<Hit>)
    ensures forall h :: h in r ==> exists m :: m in ms && m.vlan == h.vlan
  {
    if ms == [] then []
    else
      var init := ms[..|ms| - 1];
      var m := ms[|ms| - 1];
      var prev := Hits(init);
      var more := EntryHits(m);
      assert forall h :: h in more ==> h.vlan == m.vlan;
      prev + more
  }

  function ResultCount(ms: seq<MatrixEntry>): nat
  {
    if ms == [] then 0 else ResultCount(ms[..|ms| - 1]) + |ms[|ms| - 1].results|
  }

  lemma {:induction false} HitsCount(ms: seq<MatrixEntry>)
    ensures |Hits(ms)| == ResultCount(ms)
  {
    if ms != [] {
      HitsCount(ms[..|ms| - 1]);
    }
  }

  /** PathRow */
  datatype PathRow = PathRow(ip: string, iface: string, vlans: map<string, Status>)

  /** pathRowsMap: keys in insertion order and the rows. */
  datatype RowTable = RowTable(keys: seq<string>, rows: map<string, PathRow>)

  /** The loop body: create the row on the first hit of its key, then set the VLAN's status. */
  function AddHit(t: RowTable, h: Hit): RowTable
  {
    var row := if h.key in t.rows then t.rows[h.key] else PathRow(h.ip, h.path, map[]);
    RowTable(if h.key in t.rows then t.keys else t.keys + [h.key], t.rows[h.key := row.(vlans := row.vlans[h.vlan := h.status])])
  }

  function BuildRows(hits: seq<Hit>): (r: RowTable)
    ensures forall k :: k in r.rows <==> k in r.keys
  {
    if hits == [] then RowTable([], map[]) else AddHit(BuildRows(hits[..|hits| - 1]), hits[|hits| - 1])
  }

  function HitKeys(hits: seq<Hit>): (r: seq<string>)
    ensures |r| == |hits| && forall k :: 0 <= k < |hits| ==> r[k] == hits[k].key
  {
    if hits == [] then [] else HitKeys(hits[..|hits| - 1]) + [hits[|hits| - 1].key]
  }

  /** The (VLAN, status) writes to the row with key k, in order. */
  function Cells(hits: seq<Hit>, k: string): seq<(string, Status)>
  {
    if hits == [] then []
    else
      var h := hits[|hits| - 1];
      Cells(hits[..|hits| - 1], k) + (if h.key == k then [(h.vlan, h.status)] else [])
  }

  /** One row per distinct key, in order of first appearance. */
  lemma {:induction false} RowKeysFirstSeen(hits: seq<Hit>)
    ensures BuildRows(hits).keys == Ordered.Distinct(HitKeys(hits))
  {
    if hits != [] {
      RowKeysFirstSeen(hits[..|hits| - 1]);
      Ordered.DistinctSnoc(HitKeys(hits[..|hits| - 1]), hits[|hits| - 1].key);
    }
  }

  /** A row's cells are the writes to its key, the last write to a VLAN winning. */
  lemma {:induction false} RowCells(hits: seq<Hit>, k: string)
    ensures k in BuildRows(hits).rows <==> Cells(hits, k) != []
    ensures k in BuildRows(hits).rows ==> BuildRows(hits).rows[k].vlans == Ordered.LastWins(Cells(hits, k))
  {
    if hits != [] {
      var init := hits[..|hits| - 1];
      var h := hits[|hits| - 1];
      RowCells(init, k);
      var t := BuildRows(init);
      assert BuildRows(hits) == AddHit(t, h);
      if h.key == k {
        var cs := Cells(init, k);
        assert Cells(hits, k) == cs + [(h.vlan, h.status)];
        Ordered.LastWinsSnoc(cs, h.vlan, h.status);
        if k !in t.rows {
          assert cs == [];
        }
      } else {
        assert Cells(hits, k) == Cells(init, k) + [];
        assert Cells(hits, k) == Cells(init, k);
        assert k in BuildRows(hits).rows ==> k in t.rows && BuildRows(hits).rows[k] == t.rows[k];
      }
    }
  }

  /** A row's IP and interface are those of the first hit of its key. */
  lemma {:induction false} RowFirstHit(hits: seq<Hit>, k: string)
    requires k in BuildRows(hits).rows
    ensures exists i :: (0 <= i < |hits| && hits[i].key == k && (forall j :: 0 <= j < i ==> hits[j].key != k)
      && BuildRows(hits).rows[k].ip == hits[i].ip && BuildRows(hits).rows[k].iface == hits[i].path)
  {
    var init := hits[..|hits| - 1];
    var h := hits[|hits| - 1];
    var t := BuildRows(init);
    assert BuildRows(hits) == AddHit(t, h);
    if k in t.rows {
      RowFirstHit(init, k);
      var i :| 0 <= i < |init| && init[i].key == k && (forall j :: 0 <= j < i ==> init[j].key != k)
               && t.rows[k].ip == init[i].ip && t.rows[k].iface == init[i].path;
      assert hits[i] == init[i];
      assert forall j :: 0 <= j < i ==> hits[j] == init[j];
    } else {
      RowKeysAbsent(init, k);
      assert forall j :: 0 <= j < |init| ==> hits[j] == init[j];
    }
  }

  lemma {:induction false} RowKeysAbsent(hits: seq<Hit>, k: string)
    requires k !in BuildRows(hits).rows
    ensures forall j :: 0 <= j < |hits| ==> hits[j].key != k
  {
    if hits != [] {
      var init := hits[..|hits| - 1];
      RowKeysAbsent(init, k);
      assert forall j :: 0 <= j < |init| ==> hits[j] == init[j];
    }
  }

  lemma {:induction false} CellsVlans(hits: seq<Hit>, k: string)
    ensures forall c :: c in Cells(hits, k) ==> exists h :: h in hits && h.vlan == c.0
  {
    if hits != [] {
      var init := hits[..|hits| - 1];
      CellsVlans(init, k);
      forall c | c in Cells(hits, k) ensures exists h :: h in hits && h.vlan == c.0 {
        if c in Cells(init, k) {
          var h :| h in init && h.vlan == c.0;
          assert h in hits;
        } else {
          assert hits[|hits| - 1] in hits;
        }
      }
    }
  }

  /** Every VLAN a row holds is a column. */
  lemma RowVlansAreColumns(ms: seq<MatrixEntry>, k: string, v: string)
    requires k in BuildRows(Hits(ms)).rows && v in BuildRows(Hits(ms)).rows[k].vlans
    ensures v in AllVlans(ms)
  {
    var hits := Hits(ms);
    RowCells(hits, k);
    Ordered.LastWinsSpec(Cells(hits, k), v);
    var i :| 0 <= i < |Cells(hits, k)| && Cells(hits, k)[i].0 == v;
    CellsVlans(hits, k);
    assert Cells(hits, k)[i] in Cells(hits, k);
  }

  /** The matrix: the columns and the rows in order of first appearance, or nothing at
      all when either is empty. */
  datatype View = View(vlans: seq<string>, rows: seq<PathRow>)

  function MatrixView(ms: seq<MatrixEntry>): (r: Option<View>)
    ensures r.Some? ==> r.value.vlans == AllVlans(ms) && r.value.vlans != [] && r.value.rows != []
    ensures r.Some? ==> var t := BuildRows(Hits(ms));
      |r.value.rows| == |t.keys| && forall i :: 0 <= i < |t.keys| ==> t.keys[i] in t.rows && r.value.rows[i] == t.rows[t.keys[i]]
  {
    var t := BuildRows(Hits(ms));
    var rows := seq(|t.keys|, i requires 0 <= i < |t.keys| => t.rows[t.keys[i]]);
    var vlans := AllVlans(ms);
    if |rows| == 0 || |vlans| == 0 then None else Some(View(vlans, rows))
  }

  /** The matrix is shown exactly when some entry has a result, and never has more rows
      than there are results. */
  lemma MatrixShownIff(ms: seq<MatrixEntry>)
    ensures MatrixView(ms).Some? <==> ResultCount(ms) > 0
    ensures MatrixView(ms).Some? ==> |MatrixView(ms).value.rows| <= ResultCount(ms)
  {
    var hits := Hits(ms);
    HitsCount(ms);
    RowsNonEmpty(hits);
    if hits != [] {
      VlansNonEmpty(ms, hits[0]);
    }
  }

  lemma RowsNonEmpty(hits: seq<Hit>)
    ensures BuildRows(hits).keys != [] <==> hits != []
    ensures |BuildRows(hits).keys| <= |hits|
  {
    RowKeysFirstSeen(hits);
    if hits != [] {
      HitKeysMembers(hits);
      assert hits[0].key in Ordered.Distinct(HitKeys(hits));
    }
  }

  lemma VlansNonEmpty(ms: seq<MatrixEntry>, h: Hit)
    requires h in Hits(ms)
    ensures AllVlans(ms) != []
  {
    var m :| m in ms && m.vlan == h.vlan;
    assert m.vlan in AllVlans(ms);
  }

  lemma {:induction false} HitKeysMembers(hits: seq<Hit>)
    ensures forall i :: 0 <= i < |hits| ==> hits[i].key in HitKeys(hits)
  {
    if hits != [] {
      var init := hits[..|hits| - 1];
      HitKeysMembers(init);
      assert forall i :: 0 <= i < |init| ==> hits[i] == init[i];
      assert HitKeys(hits) == HitKeys(init) + [hits[|hits| - 1].key];
    }
  }
}
