/** The order of a full refresh (internal/usecase/publish.go): parents before their children. */
module RefreshOrder {
  import opened NodeIds

  function Rank(id: string): (r: nat)
    ensures r <= 3
  {
    if id == CONNECTION_ROOT then 0
    else if id == NODE_ROOT then 1
    else if IsGroup(id) then 2
    else 3
  }

  predicate SortedByRank(s: seq<string>) {
    forall i, j :: 0 <= i < j < |s| ==> Rank(s[i]) <= Rank(s[j])
  }

  /** The elements of one rank, in order. */
  function OfRank(s: seq<string>, r: nat): seq<string> {
    if s == [] then []
    else if Rank(s[0]) == r then [s[0]] + OfRank(s[1..], r)
    else OfRank(s[1..], r)
  }

  /** out is s sorted by rank, and elements of the same rank have kept their order. */
  ghost predicate StablySorts(s: seq<string>, out: seq<string>) {
    SortedByRank(out) && forall r: nat :: OfRank(out, r) == OfRank(s, r)
  }

  lemma {:induction false} OfRankAppend(a: seq<string>, b: seq<string>, r: nat)
    ensures OfRank(a + b, r) == OfRank(a, r) + OfRank(b, r)
  {
    hide Rank;
    if a == [] {
      assert a + b == b;
    } else {
      assert (a + b)[1..] == a[1..] + b;
      OfRankAppend(a[1..], b, r);
    }
  }

  /** Exchanging neighbours of different ranks moves no element past another of its rank. */
  lemma SwapKeepsRanks(s: seq<string>, j: nat, r: nat)
    requires 0 < j < |s| && Rank(s[j - 1]) != Rank(s[j])
    ensures OfRank(s[j - 1 := s[j]][j := s[j - 1]], r) == OfRank(s, r)
  {
    var a, x, y, b := s[..j - 1], s[j - 1], s[j], s[j + 1..];
    assert s == a + ([x, y] + b);
    assert s[j - 1 := y][j := x] == a + ([y, x] + b);
    OfRankAppend(a, [x, y] + b, r);
    OfRankAppend(a, [y, x] + b, r);
    assert ([x, y] + b)[1..] == [y] + b && ([y] + b)[1..] == b;
    assert ([y, x] + b)[1..] == [x] + b && ([x] + b)[1..] == b;
  }

  // --- the stable order is the only one -----------------------------------------------

  lemma {:induction false} NoneOfRank(s: seq<string>, r: nat)
    requires forall i :: 0 <= i < |s| ==> Rank(s[i]) != r
    ensures OfRank(s, r) == []
  {
    if s != [] {
      NoneOfRank(s[1..], r);
    }
  }

  lemma FrontOfRanks(x: string, r: nat, a: seq<string>, b: seq<string>, c: seq<string>, d: seq<string>)
    requires r <= 3 && (r > 0 ==> a == []) && (r > 1 ==> b == []) && (r > 2 ==> c == [])
    ensures [x] + (a + b + c + d) ==
            (if r == 0 then [x] + a else a) + (if r == 1 then [x] + b else b) +
            (if r == 2 then [x] + c else c) + (if r == 3 then [x] + d else d)
  {
  }

  /** A sequence sorted by rank is its ranks one after the other. */
  lemma {:induction false} SortedIsRanks(s: seq<string>)
    requires SortedByRank(s)
    ensures s == OfRank(s, 0) + OfRank(s, 1) + OfRank(s, 2) + OfRank(s, 3)
  {
    hide Rank;
    if s != [] {
      var rest := s[1..];
      SortedIsRanks(rest);
      var r := Rank(s[0]);
      if r > 0 { NoneOfRank(rest, 0); }
      if r > 1 { NoneOfRank(rest, 1); }
      if r > 2 { NoneOfRank(rest, 2); }
      assert s == [s[0]] + rest;
      FrontOfRanks(s[0], r, OfRank(rest, 0), OfRank(rest, 1), OfRank(rest, 2), OfRank(rest, 3));
    }
  }

  /** So the library's stable sort and the loop below cannot differ. */
  lemma StableSortUnique(s: seq<string>, out: seq<string>, out': seq<string>)
    requires StablySorts(s, out) && StablySorts(s, out')
    ensures out == out'
  {
    SortedIsRanks(out);
    SortedIsRanks(out');
  }

  lemma {:induction false} RanksCount(s: seq<string>, x: string)
    ensures multiset(s)[x] == multiset(OfRank(s, Rank(x)))[x]
  {
    if s != [] {
      RanksCount(s[1..], x);
      assert s == [s[0]] + s[1..];
    }
  }

  /** Nothing is lost or doubled by it either. */
  lemma StableSortPermutes(s: seq<string>, out: seq<string>)
    requires StablySorts(s, out)
    ensures multiset(out) == multiset(s)
  {
    forall x: string ensures multiset(out)[x] == multiset(s)[x] {
      RanksCount(s, x);
      RanksCount(out, x);
    }
  }

  /** orderedBranches: a copy, sorted in place; the input keeps its order. */
  method OrderedBranches(nodeIds: seq<string>) returns (out: seq<string>)
    ensures StablySorts(nodeIds, out) && multiset(out) == multiset(nodeIds)
  {
    var a := new string[|nodeIds|](i requires 0 <= i < |nodeIds| => nodeIds[i]);
    assert a[..] == nodeIds;
    for i := 0 to a.Length
      invariant SortedByRank(a[..i])
      invariant forall r: nat :: OfRank(a[..], r) == OfRank(nodeIds, r)
    {
      Insert(a, i, nodeIds);
    }
    assert a[..a.Length] == a[..];
    StableSortPermutes(nodeIds, a[..]);
    return a[..];
  }

  /** One element sinks to its place among those before it. */
  method Insert(a: array<string>, i: nat, ghost nodeIds: seq<string>)
    requires i < a.Length && SortedByRank(a[..i])
    requires forall r: nat :: OfRank(a[..], r) == OfRank(nodeIds, r)
    modifies a
    ensures SortedByRank(a[..i + 1])
    ensures forall r: nat :: OfRank(a[..], r) == OfRank(nodeIds, r)
  {
    var j := i;
    while j > 0 && Rank(a[j]) < Rank(a[j - 1])
      invariant j <= i
      invariant forall p, q :: 0 <= p < q <= i && q != j ==> Rank(a[p]) <= Rank(a[q])
      invariant forall r: nat :: OfRank(a[..], r) == OfRank(nodeIds, r)
    {
      ghost var before := a[..];
      a[j - 1], a[j] := a[j], a[j - 1];
      assert a[..] == before[j - 1 := before[j]][j := before[j - 1]];
      forall r: nat {
        SwapKeepsRanks(before, j, r);
      }
      j := j - 1;
    }
  }

  // --- parents ------------------------------------------------------------------------

  /** The nodes above a node, nearest first. */
  function Ancestors(id: string): seq<string> {
    var p := ParseInstanceId(id);
    if id == CONNECTION_ROOT then []
    else if id == NODE_ROOT then [CONNECTION_ROOT]
    else if IsGroup(id) then [NODE_ROOT, CONNECTION_ROOT]
    else if p.Instance? then [GroupForKind(p.kind), NODE_ROOT, CONNECTION_ROOT]
    else []
  }

  /** What is above what: the connection over Docker over the four groups over the instances of each. */
  lemma AncestorsAre(kind: string, dockerId: string)
    requires KnownKind(kind) && ValidDockerId(dockerId)
    ensures Ancestors("") == [] && Ancestors("docker") == [""]
    ensures Ancestors("docker/containers") == Ancestors("docker/images") == ["docker", ""]
    ensures Ancestors("docker/volumes") == Ancestors("docker/networks") == ["docker", ""]
    ensures Ancestors(InstanceId(kind, dockerId)) == ["docker/" + kind + "s", "docker", ""]
  {
    ParseExact(InstanceId(kind, dockerId), kind, dockerId);
    FixedIdsAreNoInstances(InstanceId(kind, dockerId));
    assert "docker/" + "container" + "s" == "docker/containers" && "docker/" + "image" + "s" == "docker/images";
    assert "docker/" + "volume" + "s" == "docker/volumes" && "docker/" + "network" + "s" == "docker/networks";
  }

  /** The four ranks, which nothing else tells apart. */
  lemma RanksAre(id: string)
    ensures Rank(id) == (
      if id == "" then 0 else if id == "docker" then 1
      else if id in ["docker/containers", "docker/images", "docker/volumes", "docker/networks"] then 2 else 3)
  {
  }

  lemma AncestorsRankLower(id: string, above: string)
    requires above in Ancestors(id)
    ensures Rank(above) < Rank(id)
  {
    var p := ParseInstanceId(id);
    if p.Instance? {
      ParseExact(id, p.kind, p.dockerId);
      FixedIdsAreNoInstances(id);
    }
  }

  /** In a full refresh no node comes before one that is above it. */
  lemma ParentsFirst(s: seq<string>, out: seq<string>, i: nat, j: nat)
    requires StablySorts(s, out) && i < j < |out|
    ensures out[j] !in Ancestors(out[i])
  {
    if out[j] in Ancestors(out[i]) {
      AncestorsRankLower(out[i], out[j]);
    }
  }

  /**
   refreshAll, for any order the observed set is walked in; `gone` says at which visits the session is
   found to have closed. What is refreshed is a front of the order, all of it unless the session went.
   */
  method RefreshAll(observed: seq<string>, gone: nat -> bool) returns (refreshed: seq<string>)
    ensures exists out :: StablySorts(observed, out) && refreshed <= out &&
              (refreshed == out || gone(|refreshed|))
    ensures forall i, j :: 0 <= i < j < |refreshed| ==> refreshed[j] !in Ancestors(refreshed[i])
    ensures forall i :: 0 <= i < |refreshed| ==> !gone(i)
  {
    hide StablySorts, Ancestors;
    refreshed := [];
    var out := OrderedBranches(observed);
    forall i, j | 0 <= i < j < |out| ensures out[j] !in Ancestors(out[i]) {
      ParentsFirst(observed, out, i, j);
    }
    for i := 0 to |out|
      invariant refreshed == out[..i] && forall k :: 0 <= k < i ==> !gone(k)
    {
      if gone(i) {
        return;
      }
      refreshed := refreshed + [out[i]];
    }
  }
}
