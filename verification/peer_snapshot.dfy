/**
 The browse-result snapshot a controller publishes: keep the results whose
 endpoint is a named service, make a peer of each, and sort by name.
 */
module PeerSnapshot {
  import opened Wrappers
  import opened DiscoveredPeers

  /** Swift's `String <` restricted to lexicographic order on characters. */
  predicate NameLess(a: string, b: string)
    decreases |a|
  {
    |b| > 0 && (|a| == 0 || a[0] < b[0] || (a[0] == b[0] && NameLess(a[1..], b[1..])))
  }

  lemma {:induction false} NameLessIrreflexive(a: string)
    ensures !NameLess(a, a)
    decreases |a|
  {
    if |a| > 0 {
      NameLessIrreflexive(a[1..]);
    }
  }

  lemma {:induction false} NameLessTransitive(a: string, b: string, c: string)
    requires NameLess(a, b) && NameLess(b, c)
    ensures NameLess(a, c)
    decreases |a|
  {
    if |a| > 0 && a[0] == b[0] && b[0] == c[0] {
      NameLessTransitive(a[1..], b[1..], c[1..]);
    }
  }

  lemma {:induction false} NameLessTotal(a: string, b: string)
    ensures a == b || NameLess(a, b) || NameLess(b, a)
    decreases |a|
  {
    if |a| > 0 && |b| > 0 && a[0] == b[0] {
      NameLessTotal(a[1..], b[1..]);
      if a[1..] == b[1..] {
        assert a == [a[0]] + a[1..] && b == [b[0]] + b[1..];
      }
    }
  }

  /** "Not less than" is transitive, which is what sortedness chains rely on. */
  lemma NotLessTransitive(a: string, b: string, c: string)
    requires !NameLess(c, b) && !NameLess(b, a)
    ensures !NameLess(c, a)
  {
    if NameLess(c, a) {
      NameLessTotal(a, b);
      if NameLess(a, b) {
        NameLessTransitive(c, a, b);
      }
    }
  }

  lemma NameLessAsymmetric(a: string, b: string)
    requires NameLess(a, b)
    ensures !NameLess(b, a)
  {
    if NameLess(b, a) {
      NameLessTransitive(a, b, a);
      NameLessIrreflexive(a);
    }
  }

  /** No peer is followed by one whose name sorts strictly before it. */
  predicate SortedByName(ps: seq<DiscoveredPeer>) {
    forall i, j :: 0 <= i < j < |ps| ==> !NameLess(ps[j].name, ps[i].name)
  }

  /** The `compactMap` closure: a peer for a service endpoint, nothing otherwise. */
  function PeerOf(e: Endpoint): (r: Option<DiscoveredPeer>)
    ensures r.Some? <==> e.Service?
    ensures r.Some? ==> r.value == MakePeer(e.name, e)
  {
    match e
    case Service(name, _, _, _) => Some(MakePeer(name, e))
    case _ => None
  }

  /** A peer as `PeerOf` builds it. */
  predicate IsServicePeer(p: DiscoveredPeer) {
    p.endpoint.Service? && p == MakePeer(p.endpoint.name, p.endpoint)
  }

  function ServicePeers(results: seq<Endpoint>): (ps: seq<DiscoveredPeer>)
    ensures |ps| <= |results|
  {
    if results == [] then []
    else
      var rest := ServicePeers(results[1..]);
      match PeerOf(results[0])
      case Some(p) => [p] + rest
      case None => rest
  }

  /** Each service result contributes its peer as many times as it occurs. */
  lemma {:induction false} ServicePeersCount(results: seq<Endpoint>, p: DiscoveredPeer)
    ensures multiset(ServicePeers(results))[p] == if IsServicePeer(p) then multiset(results)[p.endpoint] else 0
    decreases |results|
  {
    if results != [] {
      ServicePeersCount(results[1..], p);
      assert results == [results[0]] + results[1..];
      assert multiset(results) == multiset{results[0]} + multiset(results[1..]);
    }
  }

  /** `Insert` places `p` before the first peer that does not sort before it. */
  function Insert(p: DiscoveredPeer, ps: seq<DiscoveredPeer>): (r: seq<DiscoveredPeer>)
    requires SortedByName(ps)
    ensures multiset(r) == multiset(ps) + multiset{p}
    ensures SortedByName(r)
    decreases |ps|
  {
    if ps == [] then [p]
    else if !NameLess(ps[0].name, p.name) then
      InsertFront(p, ps);
      [p] + ps
    else
      var r' := Insert(p, ps[1..]);
      InsertBehind(p, ps, r');
      assert ps == [ps[0]] + ps[1..];
      [ps[0]] + r'
  }

  lemma InsertFront(p: DiscoveredPeer, ps: seq<DiscoveredPeer>)
    requires SortedByName(ps) && ps != [] && !NameLess(ps[0].name, p.name)
    ensures SortedByName([p] + ps)
  {
    var r := [p] + ps;
    forall i, j | 0 <= i < j < |r| ensures !NameLess(r[j].name, r[i].name) {
      if i == 0 && j > 1 {
        NotLessTransitive(p.name, ps[0].name, ps[j - 1].name);
      }
    }
  }

  lemma InsertBehind(p: DiscoveredPeer, ps: seq<DiscoveredPeer>, r': seq<DiscoveredPeer>)
    requires SortedByName(ps) && ps != [] && NameLess(ps[0].name, p.name)
    requires SortedByName(r') && multiset(r') == multiset(ps[1..]) + multiset{p}
    ensures SortedByName([ps[0]] + r')
  {
    var r := [ps[0]] + r';
    forall i, j | 0 <= i < j < |r| ensures !NameLess(r[j].name, r[i].name) {
      if i == 0 {
        var x := r'[j - 1];
        assert x in multiset(r');
        if x == p {
          NameLessAsymmetric(ps[0].name, p.name);
        } else {
          assert x in multiset(ps[1..]);
          var k :| 0 <= k < |ps[1..]| && ps[1..][k] == x;
          assert ps[k + 1] == x;
        }
      }
    }
  }

  /** Insertion sort by name; stable, so peers with equal names keep their order. */
  function SortByName(ps: seq<DiscoveredPeer>): (r: seq<DiscoveredPeer>)
    ensures multiset(r) == multiset(ps)
    ensures SortedByName(r)
    decreases |ps|
  {
    if ps == [] then []
    else
      assert ps == [ps[0]] + ps[1..];
      Insert(ps[0], SortByName(ps[1..]))
  }

  /** `handleBrowseResults`: the snapshot stored and published for a browse result set. */
  function Snapshot(results: seq<Endpoint>): (ps: seq<DiscoveredPeer>)
    ensures SortedByName(ps)
  {
    SortByName(ServicePeers(results))
  }

  /** The snapshot holds exactly the peers of the service results. */
  lemma SnapshotMembers(results: seq<Endpoint>, p: DiscoveredPeer)
    ensures p in Snapshot(results) <==> IsServicePeer(p) && p.endpoint in results
  {
    var ps := Snapshot(results);
    ServicePeersCount(results, p);
    assert p in ps <==> multiset(ps)[p] > 0;
  }

  /** Every peer of the snapshot is named after its service endpoint. */
  lemma SnapshotNamesAreServiceNames(results: seq<Endpoint>, p: DiscoveredPeer)
    requires p in Snapshot(results)
    ensures p.endpoint.Service? && p.id == p.name == p.endpoint.name && p.endpoint in results
  {
    SnapshotMembers(results, p);
  }

  /** The snapshot holds each service result once per occurrence. */
  lemma SnapshotCounts(results: seq<Endpoint>, p: DiscoveredPeer)
    ensures multiset(Snapshot(results))[p] == if IsServicePeer(p) then multiset(results)[p.endpoint] else 0
  {
    ServicePeersCount(results, p);
  }

  /** No two distinct service results share a name. */
  predicate UniqueServiceNames(results: seq<Endpoint>) {
    forall i, j ::
      (0 <= i < |results| && 0 <= j < |results| && results[i].Service? && results[j].Service?
       && results[i].name == results[j].name) ==> results[i] == results[j]
  }

  predicate UniqueNames(ps: seq<DiscoveredPeer>) {
    forall i, j :: 0 <= i < |ps| && 0 <= j < |ps| && ps[i].name == ps[j].name ==> ps[i] == ps[j]
  }

  /** Two name-sorted sequences with the same peers and no name clashes are equal. */
  lemma {:induction false} SortedUnique(a: seq<DiscoveredPeer>, b: seq<DiscoveredPeer>)
    requires SortedByName(a) && SortedByName(b)
    requires multiset(a) == multiset(b) && UniqueNames(a)
    ensures a == b
    decreases |a|
  {
    if a == [] {
      assert |b| == |multiset(b)| == 0;
    } else {
      assert |b| == |multiset(b)| == |multiset(a)| == |a|;
      SortedHeadsAgree(a, b);
      SameTails(a, b);
      assert UniqueNames(a[1..]) && SortedByName(a[1..]) && SortedByName(b[1..]);
      SortedUnique(a[1..], b[1..]);
      assert a == [a[0]] + a[1..] && b == [b[0]] + b[1..];
    }
  }

  lemma SortedHeadsAgree(a: seq<DiscoveredPeer>, b: seq<DiscoveredPeer>)
    requires SortedByName(a) && SortedByName(b) && a != [] && b != []
    requires multiset(a) == multiset(b) && UniqueNames(a)
    ensures a[0] == b[0]
  {
    assert a[0] in multiset(b) && b[0] in multiset(a);
    var i :| 0 <= i < |b| && b[i] == a[0];
    var j :| 0 <= j < |a| && a[j] == b[0];
    assert j == 0 || !NameLess(b[0].name, a[0].name);
    assert i == 0 || !NameLess(a[0].name, b[0].name);
    NameLessTotal(a[0].name, b[0].name);
  }

  lemma SameTails(a: seq<DiscoveredPeer>, b: seq<DiscoveredPeer>)
    requires a != [] && b != [] && a[0] == b[0] && multiset(a) == multiset(b)
    ensures multiset(a[1..]) == multiset(b[1..])
  {
    assert a == [a[0]] + a[1..] && b == [b[0]] + b[1..];
    assert multiset(a) == multiset{a[0]} + multiset(a[1..]);
    assert multiset(b) == multiset{b[0]} + multiset(b[1..]);
    forall x ensures multiset(a[1..])[x] == multiset(b[1..])[x] {
      assert multiset(a)[x] == multiset{a[0]}[x] + multiset(a[1..])[x];
      assert multiset(b)[x] == multiset{b[0]}[x] + multiset(b[1..])[x];
    }
  }

  /**
   The snapshot does not depend on the order in which the result set is
   enumerated, provided no two service results share a name.
   */
  lemma SnapshotOrderIndependent(r1: seq<Endpoint>, r2: seq<Endpoint>)
    requires multiset(r1) == multiset(r2)
    requires UniqueServiceNames(r1)
    ensures Snapshot(r1) == Snapshot(r2)
  {
    var s1 := Snapshot(r1);
    var s2 := Snapshot(r2);
    forall p ensures multiset(s1)[p] == multiset(s2)[p] {
      SnapshotCounts(r1, p);
      SnapshotCounts(r2, p);
    }
    assert multiset(s1) == multiset(s2);
    forall i, j | 0 <= i < |s1| && 0 <= j < |s1| && s1[i].name == s1[j].name ensures s1[i] == s1[j] {
      assert s1[i] in s1 && s1[j] in s1;
      SnapshotMembers(r1, s1[i]);
      SnapshotMembers(r1, s1[j]);
      var ki :| 0 <= ki < |r1| && r1[ki] == s1[i].endpoint;
      var kj :| 0 <= kj < |r1| && r1[kj] == s1[j].endpoint;
    }
    SortedUnique(s1, s2);
  }

  /**
   Results are not deduplicated by name: two service results with the same
   name (say, seen on two interfaces) yield two peers sharing one `id`.
   */
  lemma SameNameResultsBothKept(e1: Endpoint, e2: Endpoint)
    requires e1.Service? && e2.Service? && e1.name == e2.name && e1 != e2
    ensures |Snapshot([e1, e2])| == 2
    ensures Snapshot([e1, e2])[0].id == Snapshot([e1, e2])[1].id == e1.name
    ensures Snapshot([e1, e2])[0] != Snapshot([e1, e2])[1]
  {
    var s := Snapshot([e1, e2]);
    assert ServicePeers([e1, e2]) == [MakePeer(e1.name, e1), MakePeer(e2.name, e2)];
    assert |s| == |multiset(s)| == 2;
    assert s[0] in s && s[1] in s;
    SnapshotCounts([e1, e2], s[0]);
    assert multiset([e1, e2])[s[0].endpoint] == 1;
  }
}
