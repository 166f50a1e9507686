/**
  tools/oofem2part.py, classifyNodes: which partitions each node belongs to, and whether it is shared.
  Nodes and elements are numbered as the script numbers them after parsing, from 0.
 */
module Partition {

  datatype Status = Undef | Local | Shared

  /** What parsing leaves behind: the elements around each node and the masters of each node. */
  datatype Mesh = Mesh(connectivity: seq<seq<nat>>, masters: seq<seq<nat>>)

  ghost predicate Valid(M: Mesh, elemPart: seq<int>) {
    && |M.connectivity| == |M.masters|
    && (forall i, j :: 0 <= i < |M.connectivity| && 0 <= j < |M.connectivity[i]| ==> M.connectivity[i][j] < |elemPart|)
    && ValidMasters(M.masters)
  }

  ghost predicate ValidMasters(masters: seq<seq<nat>>) {
    forall i, m :: 0 <= i < |masters| && m in masters[i] ==> m < |masters|
  }

  /** The partitions of the elements around a node. */
  function Own(elements: seq<nat>, elemPart: seq<int>): set<int>
    requires forall j :: 0 <= j < |elements| ==> elements[j] < |elemPart|
  {
    set j | 0 <= j < |elements| :: elemPart[elements[j]]
  }

  ghost function Owns(M: Mesh, elemPart: seq<int>, n: nat): (f: seq<set<int>>)
    requires Valid(M, elemPart) && n <= |M.connectivity|
    ensures |f| == n && forall i :: 0 <= i < n ==> f[i] == Own(M.connectivity[i], elemPart)
  {
    if n == 0 then [] else Owns(M, elemPart, n - 1) + [Own(M.connectivity[n - 1], elemPart)]
  }

  // Where partitions come from

  /** The nodes whose partitions have reached node x once nodes 0..k-1 have been swept. */
  ghost function Sources(masters: seq<seq<nat>>, x: nat, k: nat): (s: set<nat>)
    requires k <= |masters|
    decreases k
  {
    if k == 0 then {x}
    else Sources(masters, x, k - 1) + (if x in masters[k - 1] then Sources(masters, k - 1, k - 1) else {})
  }

  /** Partition a is among the own partitions of a node exactly if one of the elements around it is in a. */
  lemma OwnsElements(M: Mesh, elemPart: seq<int>, x: nat, a: int)
    requires Valid(M, elemPart) && x < |M.masters|
    ensures a in Owns(M, elemPart, |M.masters|)[x] <==> exists e :: e in M.connectivity[x] && elemPart[e] == a
    ensures Owns(M, elemPart, |M.masters|)[x] == {} <==> M.connectivity[x] == []
  {
    var elements := M.connectivity[x];
    if e :| e in elements && elemPart[e] == a {
      var j :| 0 <= j < |elements| && elements[j] == e;
    }
    if elements != [] {
      assert elemPart[elements[0]] in Own(elements, elemPart);
    }
  }

  /** All partitions of the given nodes. */
  ghost function Gather(own: seq<set<int>>, s: set<nat>): set<int> {
    set i, a | i in s && i < |own| && a in own[i] :: a
  }

  ghost predicate NoneIsolated(own: seq<set<int>>, s: set<nat>) {
    forall i :: i in s && i < |own| ==> own[i] != {}
  }

  /** Sources while node i hands its partitions to its masters, the first j of them served. */
  ghost function Midway(masters: seq<seq<nat>>, x: nat, i: nat, j: nat): set<nat>
    requires i < |masters| && j <= |masters[i]|
  {
    Sources(masters, x, i) + (if x in masters[i][..j] then Sources(masters, i, i) else {})
  }

  lemma {:induction false} SourcesBound(masters: seq<seq<nat>>, x: nat, k: nat)
    requires ValidMasters(masters) && k <= |masters| && x < |masters|
    ensures x in Sources(masters, x, k) && forall s :: s in Sources(masters, x, k) ==> s < |masters|
    decreases k
  {
    if k > 0 {
      SourcesBound(masters, x, k - 1);
      SourcesBound(masters, k - 1, k - 1);
    }
  }

  /** Status and partitions of a node, told by its sources. */
  ghost predicate Told(own: seq<set<int>>, s: set<nat>, status: Status, parts: set<int>) {
    && parts == Gather(own, s)
    && status != Undef
    && (status == Local <==> |parts| == 1 && NoneIsolated(own, s))
  }

  lemma GatherUnion(own: seq<set<int>>, s: set<nat>, t: set<nat>)
    ensures Gather(own, s + t) == Gather(own, s) + Gather(own, t)
    ensures NoneIsolated(own, s + t) <==> NoneIsolated(own, s) && NoneIsolated(own, t)
  {
  }

  lemma Larger(a: set<int>, b: set<int>)
    ensures |a + b| >= |a| && |a + b| >= |b|
    ensures !(b <= a) ==> |a + b| > |a|
  {
    assert |a + b| >= |a| by { Grows(a, b); }
    assert b + a == a + b;
    Grows(b, a);
    if e :| e in b && e !in a {
      assert a + b == (a + {e}) + (b - {e});
      Grows(a + {e}, b - {e});
    } else {
      forall e | e in b ensures e in a {
      }
    }
  }

  lemma Grows(a: set<int>, b: set<int>)
    ensures |a + b| >= |a|
  {
    assert a + b == a + (b - a);
  }

  lemma OwnGathered(own: seq<set<int>>, s: set<nat>, i: nat)
    requires i in s && i < |own|
    ensures own[i] <= Gather(own, s)
    ensures NoneIsolated(own, s) ==> |Gather(own, s)| >= 1
  {
    forall a | a in own[i] ensures a in Gather(own, s) {
    }
    if own[i] != {} {
      var a :| a in own[i];
      Grows({a}, Gather(own, s) - {a});
      assert {a} + (Gather(own, s) - {a}) == Gather(own, s);
    }
  }

  /** Node i hands its partitions to its master m. */
  lemma HandOver(own: seq<set<int>>, s: set<nat>, statusS: Status, partsS: set<int>, t: set<nat>, statusT: Status,
        partsT: set<int>, i: nat, m: nat)
    requires Told(own, s, statusS, partsS) && Told(own, t, statusT, partsT)
    requires i in s && i < |own| && m in t && m < |own|
    ensures if statusS == Local && partsS <= partsT then Told(own, t + s, statusT, partsT)
            else Told(own, t + s, Shared, partsT + partsS)
  {
    GatherUnion(own, t, s);
    Larger(partsT, partsS);
    OwnGathered(own, s, i);
    OwnGathered(own, t, m);
    if statusS == Local && partsS <= partsT {
      assert partsT + partsS == partsT;
    }
  }

  /** Status and partitions of every node, as ClassifyNodes leaves them. */
  ghost predicate Classified(M: Mesh, elemPart: seq<int>, statuses: seq<Status>, parts: seq<set<int>>)
    requires Valid(M, elemPart) && |statuses| == |parts| == |M.masters|
  {
    forall x: nat :: x < |M.masters| ==>
      Told(Owns(M, elemPart, |M.masters|), Sources(M.masters, x, |M.masters|), statuses[x], parts[x])
  }

  /** The classification, over the mesh itself. */
  lemma ClassifiedElements(M: Mesh, elemPart: seq<int>, statuses: seq<Status>, parts: seq<set<int>>, x: nat, a: int)
    requires Valid(M, elemPart) && |statuses| == |parts| == |M.masters| && x < |M.masters|
    requires Classified(M, elemPart, statuses, parts)
    ensures a in parts[x] <==> exists s, e ::
      s in Sources(M.masters, x, |M.masters|) && s < |M.connectivity| && e in M.connectivity[s] && elemPart[e] == a
    ensures statuses[x] == Local <==> (|parts[x]| == 1 &&
      forall s :: s in Sources(M.masters, x, |M.masters|) && s < |M.connectivity| ==> M.connectivity[s] != [])
    ensures statuses[x] == Local || statuses[x] == Shared
  {
    hide Sources, Owns;
    var n := |M.masters|;
    var own, sources := Owns(M, elemPart, n), Sources(M.masters, x, n);
    assert Told(own, sources, statuses[x], parts[x]);
    forall s | s in sources && s < n
      ensures a in own[s] <==> exists e :: e in M.connectivity[s] && elemPart[e] == a
      ensures own[s] == {} <==> M.connectivity[s] == []
    {
      OwnsElements(M, elemPart, s, a);
    }
  }

  // The sweep

  /** classifyNodes; the masters of every node come as data instead of from its record. */
  method ClassifyNodes(M: Mesh, elemPart: seq<int>) returns (statuses: array<Status>, partitions: array<set<int>>)
    requires Valid(M, elemPart)
    ensures fresh(statuses) && fresh(partitions) && statuses.Length == partitions.Length == |M.masters|
    ensures forall x: nat :: x < |M.masters| ==>
      Told(Owns(M, elemPart, |M.masters|), Sources(M.masters, x, |M.masters|), statuses[x], partitions[x])
    ensures forall x: nat, a :: x < |M.masters| ==> (a in partitions[x] <==> exists s, e ::
      s in Sources(M.masters, x, |M.masters|) && s < |M.connectivity| && e in M.connectivity[s] && elemPart[e] == a)
    ensures forall x: nat :: x < |M.masters| ==> (statuses[x] == Local <==> (|partitions[x]| == 1 &&
      forall s :: s in Sources(M.masters, x, |M.masters|) && s < |M.connectivity| ==> M.connectivity[s] != []))
  {
    var n := |M.masters|;
    statuses, partitions := OwnPartitions(M, elemPart);
    assert forall x: nat :: Sources(M.masters, x, 0) == {x};
    hide Sources, Told;
    ghost var own := Owns(M, elemPart, n);
    var inode := 0;
    while inode < n
      invariant 0 <= inode <= n && statuses.Length == partitions.Length == n
      invariant forall x: nat :: x < n ==> Told(own, Sources(M.masters, x, inode), statuses[x], partitions[x])
    {
      ServeMasters(M.masters, own, inode, statuses, partitions);
      inode := inode + 1;
    }
    AllClassifiedElements(M, elemPart, statuses[..], partitions[..]);
  }

  lemma AllClassifiedElements(M: Mesh, elemPart: seq<int>, statuses: seq<Status>, parts: seq<set<int>>)
    requires Valid(M, elemPart) && |statuses| == |parts| == |M.masters| && Classified(M, elemPart, statuses, parts)
    ensures forall x: nat, a :: x < |M.masters| ==> (a in parts[x] <==> exists s, e ::
      s in Sources(M.masters, x, |M.masters|) && s < |M.connectivity| && e in M.connectivity[s] && elemPart[e] == a)
    ensures forall x: nat :: x < |M.masters| ==> (statuses[x] == Local <==> (|parts[x]| == 1 &&
      forall s :: s in Sources(M.masters, x, |M.masters|) && s < |M.connectivity| ==> M.connectivity[s] != []))
  {
    hide Sources, Classified;
    forall x: nat, a | x < |M.masters| ensures a in parts[x] <==> exists s, e ::
      s in Sources(M.masters, x, |M.masters|) && s < |M.connectivity| && e in M.connectivity[s] && elemPart[e] == a
    {
      ClassifiedElements(M, elemPart, statuses, parts, x, a);
    }
    forall x: nat | x < |M.masters| ensures statuses[x] == Local <==> (|parts[x]| == 1 &&
      forall s :: s in Sources(M.masters, x, |M.masters|) && s < |M.connectivity| ==> M.connectivity[s] != [])
    {
      ClassifiedElements(M, elemPart, statuses, parts, x, 0);
    }
  }

  /** The first loop: every node with the partitions of its own elements. */
  method OwnPartitions(M: Mesh, elemPart: seq<int>) returns (statuses: array<Status>, partitions: array<set<int>>)
    requires Valid(M, elemPart)
    ensures fresh(statuses) && fresh(partitions) && statuses.Length == partitions.Length == |M.masters|
    ensures forall x: nat :: x < |M.masters| ==>
      Told(Owns(M, elemPart, |M.masters|), {x}, statuses[x], partitions[x])
    ensures forall x: nat, a :: x < |M.masters| ==>
      (a in partitions[x] <==> exists e :: e in M.connectivity[x] && elemPart[e] == a)
    ensures forall x: nat :: x < |M.masters| ==> statuses[x] == if |partitions[x]| == 1 then Local else Shared
  {
    var n := |M.masters|;
    statuses, partitions := new Status[n](_ => Undef), new set<int>[n](_ => {});
    ghost var own := Owns(M, elemPart, n);
    var i := 0;
    while i < n
      invariant 0 <= i <= n
      invariant forall x: nat :: x < i ==> Told(own, {x}, statuses[x], partitions[x])
    {
      var parts: set<int> := {};
      var j := 0;
      while j < |M.connectivity[i]|
        invariant 0 <= j <= |M.connectivity[i]|
        invariant parts == set l | 0 <= l < j :: elemPart[M.connectivity[i][l]]
      {
        parts := parts + {elemPart[M.connectivity[i][j]]};
        j := j + 1;
      }
      partitions[i] := parts;
      statuses[i] := if |parts| == 1 then Local else Shared;
      OwnTold(own, i);
      i := i + 1;
    }
    AllOwnElements(M, elemPart, statuses[..], partitions[..]);
  }

  lemma OwnTold(own: seq<set<int>>, i: nat)
    requires i < |own|
    ensures Told(own, {i}, if |own[i]| == 1 then Local else Shared, own[i])
  {
    OwnGathered(own, {i}, i);
    forall a | a in Gather(own, {i}) ensures a in own[i] {
    }
  }

  /** Partitions and status of a node that has been handed nothing. */
  lemma OwnElements(M: Mesh, elemPart: seq<int>, x: nat, a: int, status: Status, parts: set<int>)
    requires Valid(M, elemPart) && x < |M.masters| && Told(Owns(M, elemPart, |M.masters|), {x}, status, parts)
    ensures |M.connectivity| == |M.masters| && forall e :: e in M.connectivity[x] ==> e < |elemPart|
    ensures a in parts <==> exists e :: e in M.connectivity[x] && elemPart[e] == a
    ensures status == if |parts| == 1 then Local else Shared
  {
    var own := Owns(M, elemPart, |M.masters|);
    OwnsElements(M, elemPart, x, a);
    assert parts == own[x] by {
      OwnTold(own, x);
    }
  }

  lemma AllOwnElements(M: Mesh, elemPart: seq<int>, statuses: seq<Status>, parts: seq<set<int>>)
    requires Valid(M, elemPart) && |statuses| == |parts| == |M.masters|
    requires forall x: nat :: x < |M.masters| ==> Told(Owns(M, elemPart, |M.masters|), {x}, statuses[x], parts[x])
    ensures forall x: nat, a :: x < |M.masters| ==>
      (a in parts[x] <==> exists e :: e in M.connectivity[x] && elemPart[e] == a)
    ensures forall x: nat :: x < |M.masters| ==> statuses[x] == if |parts[x]| == 1 then Local else Shared
  {
    hide Told;
    forall x: nat, a | x < |M.masters|
      ensures a in parts[x] <==> exists e :: e in M.connectivity[x] && elemPart[e] == a
    {
      OwnElements(M, elemPart, x, a, statuses[x], parts[x]);
    }
    forall x: nat | x < |M.masters| ensures statuses[x] == if |parts[x]| == 1 then Local else Shared {
      OwnElements(M, elemPart, x, 0, statuses[x], parts[x]);
    }
  }

  /** The inner loop over the masters of one node. */
  method ServeMasters(masters: seq<seq<nat>>, ghost own: seq<set<int>>, inode: nat, statuses: array<Status>,
        partitions: array<set<int>>)
    requires ValidMasters(masters) && inode < |masters| == |own| == statuses.Length == partitions.Length
    requires forall x: nat :: x < |own| ==> Told(own, Sources(masters, x, inode), statuses[x], partitions[x])
    modifies statuses, partitions
    ensures forall x: nat :: x < |own| ==> Told(own, Sources(masters, x, inode + 1), statuses[x], partitions[x])
  {
    hide Told, Sources;
    var j := 0;
    SourcesBound(masters, inode, inode);
    MidwayStarts(masters, inode);
    while j < |masters[inode]|
      invariant 0 <= j <= |masters[inode]|
      invariant forall x: nat :: x < |own| ==> Told(own, Midway(masters, x, inode, j), statuses[x], partitions[x])
    {
      var m := masters[inode][j];
      assert m in masters[inode];
      MidwayStep(masters, inode, j);
      SourcesBound(masters, m, inode);
      HandOver(own, Midway(masters, inode, inode, j), statuses[inode], partitions[inode],
               Midway(masters, m, inode, j), statuses[m], partitions[m], inode, m);
      if statuses[inode] == Local {
        if partitions[inode] <= partitions[m] {
        } else {
          statuses[m] := Shared;
          partitions[m] := partitions[m] + partitions[inode];
        }
      } else {
        statuses[m] := Shared;
        partitions[m] := partitions[m] + partitions[inode];
      }
      j := j + 1;
    }
    MidwayEnds(masters, inode);
  }

  lemma MidwayStarts(masters: seq<seq<nat>>, i: nat)
    requires i < |masters|
    ensures forall x: nat :: Midway(masters, x, i, 0) == Sources(masters, x, i)
  {
  }

  lemma MidwayEnds(masters: seq<seq<nat>>, i: nat)
    requires i < |masters|
    ensures forall x: nat :: Midway(masters, x, i, |masters[i]|) == Sources(masters, x, i + 1)
  {
    assert masters[i][..|masters[i]|] == masters[i];
  }

  /** Serving master m adds the sources of node i to its own, and leaves the others alone. */
  lemma MidwayStep(masters: seq<seq<nat>>, i: nat, j: nat)
    requires i < |masters| && j < |masters[i]|
    ensures var m := masters[i][j];
      && Midway(masters, m, i, j + 1) == Midway(masters, m, i, j) + Midway(masters, i, i, j)
      && forall x: nat :: x != m ==> Midway(masters, x, i, j + 1) == Midway(masters, x, i, j)
  {
    assert masters[i][..j + 1] == masters[i][..j] + [masters[i][j]];
  }

  // Ascending chains of masters

  /** Each node of the chain has the next among its masters. */
  ghost predicate Chain(masters: seq<seq<nat>>, p: seq<nat>) {
    p != [] && forall j: nat :: j + 1 < |p| ==> p[j] < |masters| && p[j + 1] in masters[p[j]]
  }

  /** A chain from s to x whose slaves, all but the last node, ascend and stay below k. */
  ghost predicate Ascending(masters: seq<seq<nat>>, p: seq<nat>, s: nat, x: nat, k: nat) {
    && Chain(masters, p) && p[0] == s && p[|p| - 1] == x
    && (forall j: nat :: j + 2 < |p| ==> p[j] < p[j + 1])
    && (|p| > 1 ==> p[|p| - 2] < k)
  }

  lemma {:induction false} SourcesGrow(masters: seq<seq<nat>>, x: nat, k: nat, l: nat)
    requires k <= l <= |masters|
    ensures Sources(masters, x, k) <= Sources(masters, x, l)
    decreases l - k
  {
    if k < l {
      SourcesGrow(masters, x, k + 1, l);
    }
  }

  lemma {:induction false} ChainIsSource(masters: seq<seq<nat>>, p: seq<nat>, s: nat, x: nat, k: nat)
    requires Ascending(masters, p, s, x, k) && k <= |masters|
    ensures s in Sources(masters, x, k)
    decreases |p|
  {
    if |p| == 1 {
      SourcesGrow(masters, x, 0, k);
    } else {
      var l, q := p[|p| - 2], p[..|p| - 1];
      assert p[|p| - 2 + 1] in masters[l];
      assert Chain(masters, q) by {
        forall j: nat | j + 1 < |q| ensures q[j] < |masters| && q[j + 1] in masters[q[j]] {
          assert p[j + 1] in masters[p[j]];
        }
      }
      assert |q| > 1 ==> p[|p| - 3] < p[|p| - 3 + 1];
      ChainIsSource(masters, q, s, l, l);
      SourcesGrow(masters, x, l + 1, k);
    }
  }

  lemma {:induction false} SourceHasChain(masters: seq<seq<nat>>, s: nat, x: nat, k: nat) returns (p: seq<nat>)
    requires k <= |masters| && s in Sources(masters, x, k)
    ensures Ascending(masters, p, s, x, k)
    decreases k
  {
    if k == 0 {
      p := [x];
    } else if s in Sources(masters, x, k - 1) {
      p := SourceHasChain(masters, s, x, k - 1);
    } else {
      var q := SourceHasChain(masters, s, k - 1, k - 1);
      p := q + [x];
      forall j: nat | j + 1 < |p| ensures p[j] < |masters| && p[j + 1] in masters[p[j]] {
        if j + 1 < |q| {
          assert q[j + 1] in masters[q[j]];
        }
      }
      forall j: nat | j + 2 < |p| ensures p[j] < p[j + 1] {
        if j + 2 < |q| {
          assert q[j] < q[j + 1];
        }
      }
    }
  }

  /** The sources of a node are the starts of the ascending chains that end in it. */
  lemma SourcesAreChains(masters: seq<seq<nat>>, s: nat, x: nat)
    ensures s in Sources(masters, x, |masters|) <==> exists p :: Ascending(masters, p, s, x, |masters|)
  {
    if s in Sources(masters, x, |masters|) {
      var p := SourceHasChain(masters, s, x, |masters|);
    }
    if p :| Ascending(masters, p, s, x, |masters|) {
      ChainIsSource(masters, p, s, x, |masters|);
    }
  }

  // The least closure

  /** A family of partition sets: it contains the own sets, and every master has all its slaves have. */
  ghost predicate ClosedFamily(masters: seq<seq<nat>>, own: seq<set<int>>, F: seq<set<int>>) {
    && |F| == |own| == |masters|
    && (forall i: nat :: i < |own| ==> own[i] <= F[i])
    && Propagated(masters, F)
  }

  ghost predicate Propagated(masters: seq<seq<nat>>, F: seq<set<int>>)
    requires |F| == |masters|
  {
    forall i: nat, m: nat :: i < |masters| && m in masters[i] && m < |F| ==> F[i] <= F[m]
  }

  /** What ClassifyNodes computes, as a family. */
  ghost function Swept(masters: seq<seq<nat>>, own: seq<set<int>>, n: nat): (F: seq<set<int>>)
    requires n <= |masters|
    ensures |F| == n && forall x: nat :: x < n ==> F[x] == Gather(own, Sources(masters, x, |masters|))
  {
    if n == 0 then [] else Swept(masters, own, n - 1) + [Gather(own, Sources(masters, n - 1, |masters|))]
  }

  lemma {:induction false} SourcesBelow(masters: seq<seq<nat>>, own: seq<set<int>>, F: seq<set<int>>, s: nat, x: nat,
        k: nat)
    requires ValidMasters(masters) && ClosedFamily(masters, own, F) && x < |masters| && k <= |masters|
    requires s in Sources(masters, x, k)
    ensures s < |own| && own[s] <= F[x]
    decreases k
  {
    if k > 0 {
      if s in Sources(masters, x, k - 1) {
        SourcesBelow(masters, own, F, s, x, k - 1);
      } else {
        SourcesBelow(masters, own, F, s, k - 1, k - 1);
        assert F[k - 1] <= F[x];
      }
    }
  }

  /** The sweep never gives a node more than the closure must. */
  lemma SweepBelowClosure(masters: seq<seq<nat>>, own: seq<set<int>>, F: seq<set<int>>, x: nat)
    requires ValidMasters(masters) && ClosedFamily(masters, own, F) && x < |masters|
    ensures own[x] <= Swept(masters, own, |masters|)[x] <= F[x]
  {
    var n := |masters|;
    SourcesBound(masters, x, n);
    OwnGathered(own, Sources(masters, x, n), x);
    forall a | a in Gather(own, Sources(masters, x, n)) ensures a in F[x] {
      var s :| s in Sources(masters, x, n) && s < |own| && a in own[s];
      SourcesBelow(masters, own, F, s, x, n);
    }
  }

  /** Whatever chain leads from s to x, an ascending one does as well. */
  ghost predicate Covered(masters: seq<seq<nat>>) {
    forall i: nat, m: nat :: i < |masters| && m in masters[i] ==>
      Sources(masters, i, |masters|) <= Sources(masters, m, |masters|)
  }

  lemma CoveredSuffices(masters: seq<seq<nat>>, own: seq<set<int>>)
    requires ValidMasters(masters) && Covered(masters) && |own| == |masters|
    ensures ClosedFamily(masters, own, Swept(masters, own, |masters|))
  {
    var n := |masters|;
    var F := Swept(masters, own, n);
    forall i: nat | i < n ensures own[i] <= F[i] {
      SourcesBound(masters, i, n);
      OwnGathered(own, Sources(masters, i, n), i);
    }
    forall i: nat, m: nat | i < n && m in masters[i] && m < n ensures F[i] <= F[m] {
      assert Sources(masters, i, n) <= Sources(masters, m, n);
    }
  }

  /** One marked node, everything else in partition 0. */
  ghost function Marked(n: nat, s: nat): (own: seq<set<int>>)
    ensures |own| == n && forall i: nat :: i < n ==> own[i] == {if i == s then 1 else 0}
  {
    if n == 0 then [] else Marked(n - 1, s) + [{if n - 1 == s then 1 else 0}]
  }

  /** A closure that starts from one marked node shows where its partition went. */
  lemma MarkArrives(masters: seq<seq<nat>>, i: nat, m: nat, s: nat)
    requires ValidMasters(masters) && i < |masters| && m in masters[i] && s in Sources(masters, i, |masters|)
    requires ClosedFamily(masters, Marked(|masters|, s), Swept(masters, Marked(|masters|, s), |masters|))
    ensures s in Sources(masters, m, |masters|)
  {
    hide Sources, Swept, Marked;
    var n := |masters|;
    var own := Marked(n, s);
    var F := Swept(masters, own, n);
    SourcesBound(masters, i, n);
    SourcesBound(masters, m, n);
    OwnGathered(own, Sources(masters, i, n), s);
    assert 1 in F[i] && F[i] <= F[m];
    var k :| k in Sources(masters, m, n) && k < n && 1 in own[k];
  }

  lemma CoveredNecessary(masters: seq<seq<nat>>)
    requires ValidMasters(masters)
    requires forall own: seq<set<int>> :: |own| == |masters| && (forall i: nat :: i < |own| ==> own[i] != {}) ==>
      ClosedFamily(masters, own, Swept(masters, own, |masters|))
    ensures Covered(masters)
  {
    hide Sources, Swept, Marked, ClosedFamily;
    var n := |masters|;
    forall i: nat, m: nat, s: nat | i < n && m in masters[i] && s in Sources(masters, i, n)
      ensures s in Sources(masters, m, n)
    {
      assert ClosedFamily(masters, Marked(n, s), Swept(masters, Marked(n, s), n));
      MarkArrives(masters, i, m, s);
    }
  }

  /** The sweep gives the least closure for every mesh with these masters exactly when they are covered. */
  lemma LeastClosureExactly(masters: seq<seq<nat>>)
    requires ValidMasters(masters)
    ensures Covered(masters) <==>
      forall own: seq<set<int>> :: |own| == |masters| && (forall i: nat :: i < |own| ==> own[i] != {}) ==>
        ClosedFamily(masters, own, Swept(masters, own, |masters|))
  {
    if Covered(masters) {
      forall own: seq<set<int>> | |own| == |masters| && (forall i: nat :: i < |own| ==> own[i] != {})
        ensures ClosedFamily(masters, own, Swept(masters, own, |masters|))
      {
        CoveredSuffices(masters, own);
      }
    } else if forall own: seq<set<int>> :: |own| == |masters| && (forall i: nat :: i < |own| ==> own[i] != {}) ==>
        ClosedFamily(masters, own, Swept(masters, own, |masters|)) {
      CoveredNecessary(masters);
    }
  }

  /** A master that is itself a slave comes after its own slaves. */
  ghost predicate Ordered(masters: seq<seq<nat>>) {
    forall s: nat, i: nat :: s < |masters| && i < |masters| && i in masters[s] && masters[i] != [] ==> s < i
  }

  lemma {:induction false} NoLateSources(masters: seq<seq<nat>>, i: nat, k: nat)
    requires Ordered(masters) && i <= k <= |masters| && i < |masters| && masters[i] != []
    ensures Sources(masters, i, k) == Sources(masters, i, i)
    decreases k
  {
    if k > i {
      NoLateSources(masters, i, k - 1);
    }
  }

  /** Ordered masters are covered. */
  lemma OrderedIsCovered(masters: seq<seq<nat>>)
    requires ValidMasters(masters) && Ordered(masters)
    ensures Covered(masters)
  {
    var n := |masters|;
    forall i: nat, m: nat | i < n && m in masters[i] ensures Sources(masters, i, n) <= Sources(masters, m, n) {
      NoLateSources(masters, i, n);
      SourcesGrow(masters, m, i + 1, n);
    }
  }

  lemma {:induction false} CoveredChain(masters: seq<seq<nat>>, p: seq<nat>)
    requires ValidMasters(masters) && Covered(masters) && Chain(masters, p) && p[|p| - 1] < |masters|
    ensures p[0] in Sources(masters, p[|p| - 1], |masters|)
    decreases |p|
  {
    var n := |masters|;
    if |p| == 1 {
      SourcesBound(masters, p[0], n);
    } else {
      var q := p[..|p| - 1];
      var i, m := q[|q| - 1], p[|p| - 1];
      assert p[|p| - 2 + 1] in masters[i];
      assert Chain(masters, q) by {
        forall j: nat | j + 1 < |q| ensures q[j] < |masters| && q[j + 1] in masters[q[j]] {
          assert p[j + 1] in masters[p[j]];
        }
      }
      CoveredChain(masters, q);
    }
  }

  /** Covered, in terms of chains: every chain of masters starts in a source of its end. */
  lemma CoveredByChains(masters: seq<seq<nat>>)
    requires ValidMasters(masters)
    ensures Covered(masters) <==>
      forall p :: Chain(masters, p) && p[|p| - 1] < |masters| ==> p[0] in Sources(masters, p[|p| - 1], |masters|)
  {
    var n := |masters|;
    if Covered(masters) {
      forall p | Chain(masters, p) && p[|p| - 1] < n ensures p[0] in Sources(masters, p[|p| - 1], n) {
        CoveredChain(masters, p);
      }
    } else if forall p :: Chain(masters, p) && p[|p| - 1] < n ==> p[0] in Sources(masters, p[|p| - 1], n) {
      forall i: nat, m: nat, s | i < n && m in masters[i] && s in Sources(masters, i, n)
        ensures s in Sources(masters, m, n)
      {
        var q := SourceHasChain(masters, s, i, n);
        var p := q + [m];
        forall j: nat | j + 1 < |p| ensures p[j] < n && p[j + 1] in masters[p[j]] {
          if j + 1 < |q| {
            assert q[j + 1] in masters[q[j]];
          }
        }
        assert Chain(masters, p);
      }
    }
  }

  /** Node 0 hands to node 2, then node 1 hands to node 0. */
  lemma LateSlaveSources()
    ensures var masters: seq<seq<nat>> := [[2], [0], []];
      Sources(masters, 0, 3) == {0, 1} && Sources(masters, 2, 3) == {2, 0}
  {
    var masters: seq<seq<nat>> := [[2], [0], []];
    assert Sources(masters, 0, 0) == {0} && Sources(masters, 1, 0) == {1} && Sources(masters, 2, 0) == {2};
    assert Sources(masters, 0, 1) == {0} && Sources(masters, 1, 1) == {1} && Sources(masters, 2, 1) == {2, 0};
    assert Sources(masters, 0, 2) == {0, 1} && Sources(masters, 2, 2) == {2, 0};
  }

  /** Node 2 then misses the partition of node 1, although it is a master of its master: the order matters. */
  lemma LateSlave()
    ensures var masters: seq<seq<nat>>, own: seq<set<int>> := [[2], [0], []], [{0}, {1}, {0}];
      && ValidMasters(masters) && !Ordered(masters) && !Covered(masters)
      && !ClosedFamily(masters, own, Swept(masters, own, 3))
  {
    hide Sources;
    var masters: seq<seq<nat>>, own: seq<set<int>> := [[2], [0], []], [{0}, {1}, {0}];
    LateSlaveSources();
    assert 0 in masters[1] && masters[0] != [] && 2 in masters[0];
    assert 1 in Sources(masters, 0, 3) && 1 !in Sources(masters, 2, 3);
    var F := Swept(masters, own, 3);
    assert 1 in F[0] by { assert 1 in own[1]; }
    assert 1 !in F[2];
    assert !(F[0] <= F[2]);
  }

  /** A slave in no element makes its master shared, although the master has one partition. */
  lemma IsolatedSlave()
    ensures var masters, own := [[1], []], [{}, {5}];
      ValidMasters(masters) && Told(own, Sources(masters, 1, 2), Shared, {5})
  {
    var masters: seq<seq<nat>>, own: seq<set<int>> := [[1], []], [{}, {5}];
    assert Sources(masters, 0, 0) == {0} && Sources(masters, 1, 0) == {1};
    assert Sources(masters, 1, 1) == {1, 0};
    assert Sources(masters, 1, 2) == {1, 0};
    assert Gather(own, {1, 0}) == {5} by {
      OwnGathered(own, {1, 0}, 1);
    }
    assert own[0] == {};
  }

  /** With every node in some element, the status tells whether the set has one member. */
  lemma StatusTellsSize(own: seq<set<int>>, s: set<nat>, status: Status, parts: set<int>)
    requires Told(own, s, status, parts) && forall i :: 0 <= i < |own| ==> own[i] != {}
    ensures status == (if |parts| == 1 then Local else Shared)
  {
  }

  lemma InSomeElement(M: Mesh, elemPart: seq<int>)
    requires Valid(M, elemPart) && forall x: nat :: x < |M.connectivity| ==> M.connectivity[x] != []
    ensures forall x: nat :: x < |M.masters| ==> Owns(M, elemPart, |M.masters|)[x] != {}
  {
    forall x: nat | x < |M.masters| ensures Own(M.connectivity[x], elemPart) != {} {
      assert elemPart[M.connectivity[x][0]] in Own(M.connectivity[x], elemPart);
    }
  }

  /**
    The classification as a whole: with every node in some element and slaves before the masters that are slaves
    themselves, the partition sets are the least closed family, and LOCAL are exactly the nodes with one partition.
   */
  lemma LeastClassification(M: Mesh, elemPart: seq<int>, statuses: seq<Status>, parts: seq<set<int>>)
    requires Valid(M, elemPart) && |statuses| == |parts| == |M.masters| && Classified(M, elemPart, statuses, parts)
    requires Ordered(M.masters) && forall x: nat :: x < |M.connectivity| ==> M.connectivity[x] != []
    ensures ClosedFamily(M.masters, Owns(M, elemPart, |M.masters|), parts)
    ensures forall F :: ClosedFamily(M.masters, Owns(M, elemPart, |M.masters|), F) ==>
      forall x: nat :: x < |parts| ==> parts[x] <= F[x]
    ensures forall x: nat :: x < |parts| ==> statuses[x] == if |parts[x]| == 1 then Local else Shared
  {
    hide Sources, Covered, Ordered, Propagated, Gather;
    var n := |M.masters|;
    var own := Owns(M, elemPart, n);
    InSomeElement(M, elemPart);
    OrderedIsCovered(M.masters);
    CoveredSuffices(M.masters, own);
    SweptIs(M, elemPart, statuses, parts);
    forall F, x: nat | ClosedFamily(M.masters, own, F) && x < n ensures parts[x] <= F[x] {
      SweepBelowClosure(M.masters, own, F, x);
    }
    forall x: nat | x < n ensures statuses[x] == if |parts[x]| == 1 then Local else Shared {
      StatusTellsSize(own, Sources(M.masters, x, n), statuses[x], parts[x]);
    }
  }

  lemma SweptIs(M: Mesh, elemPart: seq<int>, statuses: seq<Status>, parts: seq<set<int>>)
    requires Valid(M, elemPart) && |statuses| == |parts| == |M.masters| && Classified(M, elemPart, statuses, parts)
    ensures parts == Swept(M.masters, Owns(M, elemPart, |M.masters|), |M.masters|)
  {
    hide Sources, Gather;
    var F := Swept(M.masters, Owns(M, elemPart, |M.masters|), |M.masters|);
    forall x: nat | x < |M.masters| ensures parts[x] == F[x] {
    }
  }
}
