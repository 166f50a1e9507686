/**
  tools/oofem2part.py, writePartition and the loop that calls it: one input file for every partition.
  A record is told by the number of its node or element; the fixed header and bottom parts are left out.
 */
module PartitionFiles {
  import opened Partition

  /** A node record, copied as it is or with the partitions sharing the node appended. */
  datatype NodeRecord = Copied(node: nat) | Extended(node: nat, shared: set<int>)

  datatype File = File(ndofman: nat, nelem: nat, nodes: seq<NodeRecord>, elements: seq<nat>)

  // What one file holds

  ghost function RecordOf(j: nat, status: Status, parts: set<int>): NodeRecord {
    if status == Shared then Extended(j, parts) else Copied(j)
  }

  /** The records of the nodes below n that have this status and belong to partition i, in order. */
  ghost function Records(i: int, wanted: Status, statuses: seq<Status>, parts: seq<set<int>>,
        n: nat): (s: seq<NodeRecord>)
    requires n <= |statuses| == |parts|
  {
    if n == 0 then []
    else
      var before := Records(i, wanted, statuses, parts, n - 1);
      if statuses[n - 1] != wanted || i !in parts[n - 1] then before
      else before + [RecordOf(n - 1, wanted, parts[n - 1])]
  }

  ghost function NodeRecords(i: int, statuses: seq<Status>, parts: seq<set<int>>, n: nat): seq<NodeRecord>
    requires n <= |statuses| == |parts|
  {
    Records(i, Local, statuses, parts, n) + Records(i, Shared, statuses, parts, n)
  }

  ghost function Elements(i: int, elemPart: seq<int>): (s: seq<nat>) {
    if elemPart == [] then []
    else
      var k := |elemPart| - 1;
      var before := Elements(i, elemPart[..k]);
      if elemPart[k] == i then before + [k] else before
  }

  ghost predicate IsFile(f: File, i: int, elemPart: seq<int>, statuses: seq<Status>, parts: seq<set<int>>) {
    && |statuses| == |parts|
    && f.nodes == NodeRecords(i, statuses, parts, |parts|)
    && f.elements == Elements(i, elemPart)
    && f.ndofman == |f.nodes|
    && f.nelem == |f.elements|
  }

  /** writePartition: the counts are made before the records are written. */
  method WritePartition(i: int, elemPart: seq<int>, statuses: array<Status>, partitions: array<set<int>>)
    returns (f: File)
    requires statuses.Length == partitions.Length
    ensures IsFile(f, i, elemPart, statuses[..], partitions[..])
    ensures forall a, b :: 0 <= a < b < |f.nodes| ==>
      || (f.nodes[a].Copied? && f.nodes[b].Extended?)
      || ((f.nodes[a].Copied? <==> f.nodes[b].Copied?) && f.nodes[a].node < f.nodes[b].node)
    ensures forall a, b :: 0 <= a < b < |f.elements| ==> f.elements[a] < f.elements[b]
  {
    var n := statuses.Length;
    ghost var st, pt := statuses[..], partitions[..];
    var nloc, nshd := 0, 0;
    var j := 0;
    while j < n
      invariant 0 <= j <= n
      invariant nloc == |Records(i, Local, st, pt, j)| && nshd == |Records(i, Shared, st, pt, j)|
    {
      if statuses[j] == Local && i in partitions[j] { nloc := nloc + 1; }
      if statuses[j] == Shared && i in partitions[j] { nshd := nshd + 1; }
      j := j + 1;
    }
    var local, shared, elements := [], [], [];
    j := 0;
    while j < n
      invariant 0 <= j <= n && local == Records(i, Local, st, pt, j)
    {
      if statuses[j] == Local && i in partitions[j] { local := local + [Copied(j)]; }
      j := j + 1;
    }
    j := 0;
    while j < n
      invariant 0 <= j <= n && shared == Records(i, Shared, st, pt, j)
    {
      if statuses[j] == Shared && i in partitions[j] { shared := shared + [Extended(j, partitions[j])]; }
      j := j + 1;
    }
    j := 0;
    while j < |elemPart|
      invariant 0 <= j <= |elemPart| && elements == Elements(i, elemPart[..j])
      invariant |elements| == multiset(elemPart[..j])[i]
    {
      assert elemPart[..j + 1] == elemPart[..j] + [elemPart[j]];
      assert elemPart[..j + 1][..j] == elemPart[..j];
      if elemPart[j] == i { elements := elements + [j]; }
      j := j + 1;
    }
    assert elemPart[..|elemPart|] == elemPart;
    f := File(nloc + nshd, multiset(elemPart)[i], local + shared, elements);
    FileOrder(f, i, elemPart, st, pt);
  }

  /** The whole output: what the main program writes after the call of metis. */
  method WriteAll(nparts: nat, M: Mesh, elemPart: seq<int>)
    returns (files: seq<File>, statuses: array<Status>, partitions: array<set<int>>)
    requires Valid(M, elemPart)
    ensures statuses.Length == partitions.Length == |M.masters|
    ensures IsOutput(files, nparts, M, elemPart, statuses[..], partitions[..])
  {
    statuses, partitions := ClassifyNodes(M, elemPart);
    ghost var st, pt := statuses[..], partitions[..];
    assert Classified(M, elemPart, st, pt);
    files := [];
    var i := 0;
    while i < nparts
      invariant 0 <= i <= nparts && |files| == i
      invariant st == statuses[..] && pt == partitions[..]
      invariant forall k :: 0 <= k < i ==> IsFile(files[k], k, elemPart, st, pt)
    {
      hide IsFile, Classified;
      var f := WritePartition(i, elemPart, statuses, partitions);
      files := files + [f];
      i := i + 1;
    }
  }

  ghost predicate IsOutput(files: seq<File>, nparts: nat, M: Mesh, elemPart: seq<int>, statuses: seq<Status>,
        parts: seq<set<int>>)
    requires Valid(M, elemPart)
  {
    && |files| == nparts && |statuses| == |parts| == |M.masters|
    && Classified(M, elemPart, statuses, parts)
    && (forall k :: 0 <= k < nparts ==> IsFile(files[k], k, elemPart, statuses, parts))
  }

  // Who is in a file

  /** How often the record of node j occurs. */
  ghost function Times(records: seq<NodeRecord>, j: nat): nat {
    if records == [] then 0
    else Times(records[..|records| - 1], j) + if records[|records| - 1].node == j then 1 else 0
  }

  lemma {:induction false} TimesConcat(r: seq<NodeRecord>, s: seq<NodeRecord>, j: nat)
    ensures Times(r + s, j) == Times(r, j) + Times(s, j)
  {
    if s == [] {
      assert r + s == r;
    } else {
      var k := |s| - 1;
      assert (r + s)[..|r + s| - 1] == r + s[..k];
      TimesConcat(r, s[..k], j);
    }
  }

  lemma TimesSnoc(r: seq<NodeRecord>, x: NodeRecord, j: nat)
    ensures Times(r + [x], j) == Times(r, j) + if x.node == j then 1 else 0
  {
    assert (r + [x])[..|r + [x]| - 1] == r;
  }

  lemma {:induction false} RecordsTimes(i: int, wanted: Status, statuses: seq<Status>, parts: seq<set<int>>, n: nat,
        j: nat)
    requires n <= |statuses| == |parts| && j < |parts|
    ensures Times(Records(i, wanted, statuses, parts, n), j) ==
      if j < n && statuses[j] == wanted && i in parts[j] then 1 else 0
  {
    hide Times;
    if n == 0 {
      TimesNone(j);
    } else {
      RecordsTimes(i, wanted, statuses, parts, n - 1, j);
      TimesSnoc(Records(i, wanted, statuses, parts, n - 1), RecordOf(n - 1, wanted, parts[n - 1]), j);
    }
  }

  lemma TimesNone(j: nat)
    ensures Times([], j) == 0
  {
  }

  lemma {:induction false} RecordsAre(i: int, wanted: Status, statuses: seq<Status>, parts: seq<set<int>>, n: nat,
        r: NodeRecord)
    requires n <= |statuses| == |parts| && r in Records(i, wanted, statuses, parts, n)
    ensures r.node < n && statuses[r.node] == wanted && i in parts[r.node]
    ensures r == RecordOf(r.node, wanted, parts[r.node])
  {
    if r in Records(i, wanted, statuses, parts, n - 1) {
      RecordsAre(i, wanted, statuses, parts, n - 1, r);
    }
  }

  /** Node j is in file i once if i is among its partitions, and not at all otherwise. */
  lemma NodeInFile(f: File, i: int, elemPart: seq<int>, statuses: seq<Status>, parts: seq<set<int>>, j: nat)
    requires IsFile(f, i, elemPart, statuses, parts) && j < |parts| && statuses[j] != Undef
    ensures Times(f.nodes, j) == if i in parts[j] then 1 else 0
    ensures RecordOf(j, statuses[j], parts[j]) in f.nodes <==> i in parts[j]
  {
    var n := |parts|;
    var local, shared := Records(i, Local, statuses, parts, n), Records(i, Shared, statuses, parts, n);
    RecordsTimes(i, Local, statuses, parts, n, j);
    RecordsTimes(i, Shared, statuses, parts, n, j);
    TimesConcat(local, shared, j);
    var r := RecordOf(j, statuses[j], parts[j]);
    if i in parts[j] {
      RecordsHave(i, statuses[j], statuses, parts, n, j);
      assert r in local || r in shared;
    } else if r in local {
      RecordsAre(i, Local, statuses, parts, n, r);
    } else if r in shared {
      RecordsAre(i, Shared, statuses, parts, n, r);
    }
  }

  lemma {:induction false} RecordsHave(i: int, wanted: Status, statuses: seq<Status>, parts: seq<set<int>>, n: nat,
        j: nat)
    requires j < n <= |statuses| == |parts| && statuses[j] == wanted && i in parts[j]
    ensures RecordOf(j, wanted, parts[j]) in Records(i, wanted, statuses, parts, n)
  {
    if j < n - 1 {
      RecordsHave(i, wanted, statuses, parts, n - 1, j);
    }
  }

  lemma {:induction false} ElementsHave(i: int, elemPart: seq<int>, e: nat)
    ensures multiset(Elements(i, elemPart))[e] == if e < |elemPart| && elemPart[e] == i then 1 else 0
  {
    if elemPart != [] {
      var k := |elemPart| - 1;
      ElementsHave(i, elemPart[..k], e);
    }
  }

  /** The records of one status ascend. */
  lemma {:induction false} RecordsAscend(i: int, wanted: Status, statuses: seq<Status>, parts: seq<set<int>>, n: nat)
    requires n <= |statuses| == |parts|
    ensures Ascends(Records(i, wanted, statuses, parts, n), n)
  {
    if n > 0 {
      RecordsAscend(i, wanted, statuses, parts, n - 1);
    }
  }

  ghost predicate Ascends(s: seq<NodeRecord>, n: nat) {
    && (forall a :: 0 <= a < |s| ==> s[a].node < n)
    && forall a, b :: 0 <= a < b < |s| ==> s[a].node < s[b].node
  }

  lemma {:induction false} ElementsAscend(i: int, elemPart: seq<int>)
    ensures forall a :: 0 <= a < |Elements(i, elemPart)| ==> Elements(i, elemPart)[a] < |elemPart|
    ensures forall a, b :: 0 <= a < b < |Elements(i, elemPart)| ==> Elements(i, elemPart)[a] < Elements(i, elemPart)[b]
  {
    if elemPart != [] {
      ElementsAscend(i, elemPart[..|elemPart| - 1]);
    }
  }

  /** The order of a file: first the local nodes, then the shared ones, then the elements, each by their numbers. */
  lemma FileOrder(f: File, i: int, elemPart: seq<int>, statuses: seq<Status>, parts: seq<set<int>>)
    requires IsFile(f, i, elemPart, statuses, parts)
    ensures forall a, b :: 0 <= a < b < |f.nodes| ==>
      || (f.nodes[a].Copied? && f.nodes[b].Extended?)
      || ((f.nodes[a].Copied? <==> f.nodes[b].Copied?) && f.nodes[a].node < f.nodes[b].node)
    ensures forall a, b :: 0 <= a < b < |f.elements| ==> f.elements[a] < f.elements[b]
  {
    hide Records;
    var n := |parts|;
    var local, shared := Records(i, Local, statuses, parts, n), Records(i, Shared, statuses, parts, n);
    RecordsAscend(i, Local, statuses, parts, n);
    RecordsAscend(i, Shared, statuses, parts, n);
    ElementsAscend(i, elemPart);
    forall a | 0 <= a < |local| ensures local[a].Copied? {
      RecordsAre(i, Local, statuses, parts, n, local[a]);
    }
    forall a | 0 <= a < |shared| ensures shared[a].Extended? {
      RecordsAre(i, Shared, statuses, parts, n, shared[a]);
    }
  }

  /** The records of a file and their contents, one way and the other, and the counts in front of them. */
  lemma FileContents(f: File, i: int, elemPart: seq<int>, statuses: seq<Status>, parts: seq<set<int>>)
    requires IsFile(f, i, elemPart, statuses, parts)
    ensures forall j: nat :: Copied(j) in f.nodes <==> j < |parts| && statuses[j] == Local && i in parts[j]
    ensures forall j: nat, s :: Extended(j, s) in f.nodes <==>
      j < |parts| && statuses[j] == Shared && i in parts[j] && s == parts[j]
    ensures forall e: nat :: e in f.elements <==> e < |elemPart| && elemPart[e] == i
    ensures f.ndofman == |f.nodes| && f.nelem == |f.elements|
  {
    hide Records;
    var n := |parts|;
    forall r: NodeRecord | r in f.nodes
      ensures r.node < n && i in parts[r.node] && r == RecordOf(r.node, statuses[r.node], parts[r.node])
      ensures statuses[r.node] != Undef
    {
      if r in Records(i, Local, statuses, parts, n) {
        RecordsAre(i, Local, statuses, parts, n, r);
      } else {
        RecordsAre(i, Shared, statuses, parts, n, r);
      }
    }
    forall j: nat | j < n && statuses[j] != Undef && i in parts[j]
      ensures RecordOf(j, statuses[j], parts[j]) in f.nodes
    {
      RecordsHave(i, statuses[j], statuses, parts, n, j);
    }
    forall e: nat ensures e in f.elements <==> e < |elemPart| && elemPart[e] == i {
      ElementsHave(i, elemPart, e);
    }
  }

  // All files together

  /** Every element is written once, to the file of its partition. */
  lemma ElementsOnce(files: seq<File>, nparts: nat, M: Mesh, elemPart: seq<int>, statuses: seq<Status>,
        parts: seq<set<int>>, e: nat, k: nat)
    requires Valid(M, elemPart) && IsOutput(files, nparts, M, elemPart, statuses, parts)
    requires e < |elemPart| && k < nparts
    ensures multiset(files[k].elements)[e] == if k == elemPart[e] then 1 else 0
  {
    ElementsHave(k, elemPart, e);
  }

  /** A node is in file k exactly if an ascending chain of masters leads to it from a node of an element of file k. */
  lemma NodeInFileByChain(files: seq<File>, nparts: nat, M: Mesh, elemPart: seq<int>, statuses: seq<Status>,
        parts: seq<set<int>>, k: nat, j: nat)
    requires Valid(M, elemPart) && IsOutput(files, nparts, M, elemPart, statuses, parts)
    requires k < nparts && j < |M.masters|
    ensures Times(files[k].nodes, j) == 1 <==> exists s: nat, p, e ::
      Ascending(M.masters, p, s, j, |M.masters|) && s < |M.connectivity| && e in M.connectivity[s] && elemPart[e] == k
    ensures Times(files[k].nodes, j) <= 1
  {
    hide Sources, Ascending, Times, IsFile;
    var n := |M.masters|;
    NodeInFile(files[k], k, elemPart, statuses, parts, j);
    ClassifiedElements(M, elemPart, statuses, parts, j, k);
    if k in parts[j] {
      var s, e :| s in Sources(M.masters, j, n) && s < |M.connectivity| && e in M.connectivity[s] && elemPart[e] == k;
      SourcesAreChains(M.masters, s, j);
    }
    forall s: nat, p, e |
      Ascending(M.masters, p, s, j, n) && s < |M.connectivity| && e in M.connectivity[s] && elemPart[e] == k
      ensures k in parts[j]
    {
      SourcesAreChains(M.masters, s, j);
    }
  }

  /** A file that has an element has its nodes. */
  lemma ElementsHaveTheirNodes(files: seq<File>, nparts: nat, M: Mesh, elemPart: seq<int>, statuses: seq<Status>,
        parts: seq<set<int>>, k: nat, e: nat, j: nat)
    requires Valid(M, elemPart) && IsOutput(files, nparts, M, elemPart, statuses, parts)
    requires k < nparts && j < |M.connectivity| && e in M.connectivity[j] && e in files[k].elements
    ensures Times(files[k].nodes, j) == 1
  {
    var n := |M.masters|;
    var own := Owns(M, elemPart, n);
    ElementsHave(k, elemPart, e);
    assert elemPart[e] == k;
    var l :| 0 <= l < |M.connectivity[j]| && M.connectivity[j][l] == e;
    assert k in own[j];
    SourcesBound(M.masters, j, n);
    OwnGathered(own, Sources(M.masters, j, n), j);
    NodeInFile(files[k], k, elemPart, statuses, parts, j);
  }

  /** A file that has a node has its masters, when the order of the nodes is one the sweep can serve. */
  lemma NodesHaveTheirMasters(files: seq<File>, nparts: nat, M: Mesh, elemPart: seq<int>, statuses: seq<Status>,
        parts: seq<set<int>>, k: nat, j: nat, m: nat)
    requires Valid(M, elemPart) && IsOutput(files, nparts, M, elemPart, statuses, parts) && Covered(M.masters)
    requires k < nparts && j < |M.masters| && m in M.masters[j] && Times(files[k].nodes, j) == 1
    ensures Times(files[k].nodes, m) == 1
  {
    var n := |M.masters|;
    NodeInFile(files[k], k, elemPart, statuses, parts, j);
    NodeInFile(files[k], k, elemPart, statuses, parts, m);
    assert Sources(M.masters, j, n) <= Sources(M.masters, m, n);
  }

  /** Files that share a node write the same record for it; the partitions it lists are exactly the files it is in. */
  lemma SharedRecordsAgree(files: seq<File>, nparts: nat, M: Mesh, elemPart: seq<int>, statuses: seq<Status>,
        parts: seq<set<int>>, k: nat, l: nat, r: NodeRecord)
    requires Valid(M, elemPart) && IsOutput(files, nparts, M, elemPart, statuses, parts)
    requires k < nparts && l < nparts && r in files[k].nodes
    ensures r in files[l].nodes <==> Times(files[l].nodes, r.node) == 1
    ensures r.Extended? ==> (r in files[l].nodes <==> l in r.shared)
    ensures r.Copied? ==> (r in files[l].nodes <==> l == k)
  {
    var n := |M.masters|;
    var j := r.node;
    if r in Records(k, Local, statuses, parts, n) {
      RecordsAre(k, Local, statuses, parts, n, r);
    } else {
      RecordsAre(k, Shared, statuses, parts, n, r);
    }
    NodeInFile(files[k], k, elemPart, statuses, parts, j);
    NodeInFile(files[l], l, elemPart, statuses, parts, j);
    if r.Copied? {
      assert parts[j] == {k} by { Singleton(parts[j], k); }
    }
  }

  lemma Singleton(s: set<int>, k: int)
    requires |s| == 1 && k in s
    ensures s == {k}
  {
    forall a | a in s ensures a == k {
      Grows({k, a}, s - {k, a});
      assert {k, a} + (s - {k, a}) == s;
    }
  }

  // Totals

  ghost function NodeTotal(files: seq<File>): nat {
    if files == [] then 0 else NodeTotal(files[..|files| - 1]) + files[|files| - 1].ndofman
  }

  ghost function ElementTotal(files: seq<File>): nat {
    if files == [] then 0 else ElementTotal(files[..|files| - 1]) + files[|files| - 1].nelem
  }

  ghost function SizeTotal(parts: seq<set<int>>): nat {
    if parts == [] then 0 else SizeTotal(parts[..|parts| - 1]) + |parts[|parts| - 1]|
  }

  /** How many of the partitions below k are in the set. */
  ghost function Below(s: set<int>, k: nat): nat {
    if k == 0 then 0 else Below(s, k - 1) + if k - 1 in s then 1 else 0
  }

  lemma {:induction false} BelowIsSize(s: set<int>, k: nat)
    requires forall a :: a in s ==> 0 <= a < k
    ensures Below(s, k) == |s|
  {
    if k > 0 {
      var t := s - {k - 1};
      BelowIsSize(t, k - 1);
      BelowAgrees(s, t, k - 1);
    } else {
      assert forall a :: a !in s;
      assert s == {};
    }
  }

  lemma {:induction false} BelowAgrees(s: set<int>, t: set<int>, k: nat)
    requires forall a :: 0 <= a < k ==> (a in s <==> a in t)
    ensures Below(s, k) == Below(t, k)
  {
    if k > 0 {
      BelowAgrees(s, t, k - 1);
    }
  }

  /** Node records of the first k files that concern the first n nodes. */
  ghost function Written(k: nat, statuses: seq<Status>, parts: seq<set<int>>, n: nat): nat
    requires n <= |statuses| == |parts|
  {
    if k == 0 then 0 else Written(k - 1, statuses, parts, n) + |NodeRecords(k - 1, statuses, parts, n)|
  }

  lemma {:induction false} OneMoreNode(k: nat, statuses: seq<Status>, parts: seq<set<int>>, n: nat)
    requires n < |statuses| == |parts| && statuses[n] != Undef
    ensures Written(k, statuses, parts, n + 1) == Written(k, statuses, parts, n) + Below(parts[n], k)
  {
    if k > 0 {
      OneMoreNode(k - 1, statuses, parts, n);
    }
  }

  lemma {:induction false} WrittenIsSizes(k: nat, statuses: seq<Status>, parts: seq<set<int>>, n: nat)
    requires n <= |statuses| == |parts|
    requires forall j :: 0 <= j < |parts| ==> statuses[j] != Undef && forall a :: a in parts[j] ==> 0 <= a < k
    ensures Written(k, statuses, parts, n) == SizeTotal(parts[..n])
  {
    if n == 0 {
      WrittenNothing(k, statuses, parts);
    } else {
      WrittenIsSizes(k, statuses, parts, n - 1);
      OneMoreNode(k, statuses, parts, n - 1);
      BelowIsSize(parts[n - 1], k);
      assert parts[..n][..n - 1] == parts[..n - 1];
    }
  }

  lemma {:induction false} WrittenNothing(k: nat, statuses: seq<Status>, parts: seq<set<int>>)
    requires |statuses| == |parts|
    ensures Written(k, statuses, parts, 0) == 0
  {
    if k > 0 {
      WrittenNothing(k - 1, statuses, parts);
    }
  }

  lemma {:induction false} FilesWrite(files: seq<File>, elemPart: seq<int>, statuses: seq<Status>, parts: seq<set<int>>)
    requires |statuses| == |parts|
    requires forall k :: 0 <= k < |files| ==> IsFile(files[k], k, elemPart, statuses, parts)
    ensures NodeTotal(files) == Written(|files|, statuses, parts, |parts|)
    ensures ElementTotal(files) == Assigned(elemPart, |files|)
  {
    if files != [] {
      FilesWrite(files[..|files| - 1], elemPart, statuses, parts);
    }
  }

  /** Element records of the first k files. */
  ghost function Assigned(elemPart: seq<int>, k: nat): nat {
    if k == 0 then 0 else Assigned(elemPart, k - 1) + |Elements(k - 1, elemPart)|
  }

  lemma {:induction false} OneMoreElement(elemPart: seq<int>, k: nat)
    requires elemPart != []
    ensures var l := |elemPart| - 1;
      Assigned(elemPart, k) == Assigned(elemPart[..l], k) + if 0 <= elemPart[l] < k then 1 else 0
  {
    if k > 0 {
      OneMoreElement(elemPart, k - 1);
    }
  }

  lemma {:induction false} AssignedAll(elemPart: seq<int>, k: nat)
    requires forall e :: 0 <= e < |elemPart| ==> 0 <= elemPart[e] < k
    ensures Assigned(elemPart, k) == |elemPart|
  {
    if elemPart == [] {
      AssignedNothing(k);
    } else {
      AssignedAll(elemPart[..|elemPart| - 1], k);
      OneMoreElement(elemPart, k);
    }
  }

  lemma {:induction false} AssignedNothing(k: nat)
    ensures Assigned([], k) == 0
  {
    if k > 0 {
      AssignedNothing(k - 1);
    }
  }

  lemma PartitionsExist(nparts: nat, M: Mesh, elemPart: seq<int>, x: nat)
    requires Valid(M, elemPart) && x < |M.masters|
    requires forall e :: 0 <= e < |elemPart| ==> 0 <= elemPart[e] < nparts
    ensures forall a :: a in Gather(Owns(M, elemPart, |M.masters|), Sources(M.masters, x, |M.masters|)) ==>
      0 <= a < nparts
  {
  }

  /**
    Conservation: the counts the files announce add up to the number of elements, and to the sizes of the
    partition sets.
   */
  lemma Conservation(files: seq<File>, nparts: nat, M: Mesh, elemPart: seq<int>, statuses: seq<Status>,
        parts: seq<set<int>>)
    requires Valid(M, elemPart) && IsOutput(files, nparts, M, elemPart, statuses, parts)
    requires forall e :: 0 <= e < |elemPart| ==> 0 <= elemPart[e] < nparts
    ensures ElementTotal(files) == |elemPart|
    ensures NodeTotal(files) == SizeTotal(parts)
  {
    FilesWrite(files, elemPart, statuses, parts);
    AssignedAll(elemPart, nparts);
    forall x: nat | x < |M.masters| ensures forall a :: a in parts[x] ==> 0 <= a < nparts {
      PartitionsExist(nparts, M, elemPart, x);
    }
    WrittenIsSizes(nparts, statuses, parts, |parts|);
    assert parts[..|parts|] == parts;
  }
}
