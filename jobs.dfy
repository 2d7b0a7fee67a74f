/**
 * The backend's job query: the links of packages in the queue whose plugin
 * is not occupied and whose status is online, queued or reconnected, ordered
 * by (packageorder, linkorder), at most five of them.
 */
module Jobs {
  import opened Tables
  import opened Status
  import opened SqlList

  /** `LIMIT 5` of the job query. */
  const JobLimit := 5

  /** A link that passes the filter, with the two columns it is sorted by. */
  datatype Cand = Cand(porder: int, lorder: int, id: int)

  /** `ORDER BY p.packageorder, l.linkorder` as a total preorder. */
  predicate KeyLe(a: Cand, b: Cand)
  {
    a.porder < b.porder || (a.porder == b.porder && a.lorder <= b.lorder)
  }

  predicate Sorted(s: seq<Cand>)
  {
    forall i, j :: 0 <= i < j < |s| ==> KeyLe(s[i], s[j])
  }

  /** `l.status IN (2, 3, 6)`. */
  predicate Workable(status: int)
  {
    status == Online || status == Queued || status == Reconnected
  }

  /** The package row a link joins with (`INNER JOIN packages ON l.package = p.id`). */
  function PackageOf(packages: seq<PackageRow>, l: LinkRow): (r: Option<PackageRow>)
    ensures r.Some? ==> r.value in packages && r.value.id == l.scope
    ensures r.None? ==> forall i :: 0 <= i < |packages| ==> packages[i].id != l.scope
  {
    match Find(packages, l.scope)
    case None => None
    case Some(i) => Some(packages[i])
  }

  /** The WHERE clause, with the plugin exclusion read as set membership. */
  predicate Eligible(packages: seq<PackageRow>, occ: seq<string>, l: LinkRow)
  {
    && PackageOf(packages, l).Some?
    && PackageOf(packages, l).value.scope == Queue
    && l.data.plugin !in occ
    && Workable(l.data.status)
  }

  function CandOf(packages: seq<PackageRow>, l: LinkRow): Cand
    requires PackageOf(packages, l).Some?
  {
    Cand(PackageOf(packages, l).value.order, l.order, l.id)
  }

  /** The joined and filtered rows, in table order. */
  function Candidates(links: seq<LinkRow>, packages: seq<PackageRow>, occ: seq<string>): seq<Cand>
  {
    if links == [] then []
    else
      var l := links[|links| - 1];
      Candidates(links[..|links| - 1], packages, occ)
        + (if Eligible(packages, occ, l) then [CandOf(packages, l)] else [])
  }

  /** Exactly the eligible links become candidates. */
  lemma {:induction false} CandidatesMembers(links: seq<LinkRow>, packages: seq<PackageRow>, occ: seq<string>, c: Cand)
    ensures c in Candidates(links, packages, occ)
        <==> exists i :: 0 <= i < |links| && Eligible(packages, occ, links[i]) && c == CandOf(packages, links[i])
  {
    if links != [] {
      var n := |links|;
      var pre := links[..n - 1];
      CandidatesMembers(pre, packages, occ, c);
      if exists i :: 0 <= i < |pre| && Eligible(packages, occ, pre[i]) && c == CandOf(packages, pre[i]) {
        var i :| 0 <= i < |pre| && Eligible(packages, occ, pre[i]) && c == CandOf(packages, pre[i]);
        assert links[i] == pre[i];
      }
      if exists i :: 0 <= i < n && Eligible(packages, occ, links[i]) && c == CandOf(packages, links[i]) {
        var i :| 0 <= i < n && Eligible(packages, occ, links[i]) && c == CandOf(packages, links[i]);
        if i < n - 1 {
          assert pre[i] == links[i];
        }
      }
    }
  }

  predicate IdsAscending(s: seq<Cand>)
  {
    forall a, b :: 0 <= a < b < |s| ==> s[a].id < s[b].id
  }

  /** Candidate ids grow along the table, as the link ids do. */
  lemma {:induction false} CandidatesIdsIncreasing(links: seq<LinkRow>, packages: seq<PackageRow>, occ: seq<string>)
    requires IdsIncreasing(links)
    ensures IdsAscending(Candidates(links, packages, occ))
  {
    if links != [] {
      var n := |links|;
      var pre := links[..n - 1];
      CandidatesIdsIncreasing(pre, packages, occ);
      var cs := Candidates(pre, packages, occ);
      forall t | 0 <= t < |cs|
        ensures cs[t].id < links[n - 1].id
      {
        CandidatesMembers(pre, packages, occ, cs[t]);
        var i :| 0 <= i < |pre| && Eligible(packages, occ, pre[i]) && cs[t] == CandOf(packages, pre[i]);
        assert pre[i] == links[i];
      }
    }
  }

  // ---------------------------------------------------------------------------
  // ORDER BY

  /** One step of ORDER BY: a candidate placed before the first larger key. */
  function Insert(c: Cand, s: seq<Cand>): (r: seq<Cand>)
    ensures |r| == |s| + 1
    ensures multiset(r) == multiset(s) + multiset{c}
  {
    if s == [] then [c]
    else if KeyLe(c, s[0]) then [c] + s
    else
      assert s == [s[0]] + s[1..];
      [s[0]] + Insert(c, s[1..])
  }

  /** Inserting into a sorted sequence keeps it sorted. */
  lemma {:induction false} InsertSorted(c: Cand, s: seq<Cand>)
    requires Sorted(s)
    ensures Sorted(Insert(c, s))
  {
    if s != [] && !KeyLe(c, s[0]) {
      var t := Insert(c, s[1..]);
      InsertSorted(c, s[1..]);
      assert s == [s[0]] + s[1..];
      forall j | 0 <= j < |t|
        ensures KeyLe(s[0], t[j])
      {
        assert t[j] in multiset(t);
        if t[j] != c {
          assert t[j] in multiset(s[1..]);
          var u :| 0 <= u < |s[1..]| && s[1..][u] == t[j];
          assert s[u + 1] == t[j];
        }
      }
      var r := [s[0]] + t;
      forall a, b | 0 <= a < b < |r|
        ensures KeyLe(r[a], r[b])
      {
        if a > 0 {
          assert r[a] == t[a - 1] && r[b] == t[b - 1];
        } else {
          assert r[b] == t[b - 1];
        }
      }
    }
  }

  /** The candidates in ascending key order. */
  function Sort(s: seq<Cand>): (r: seq<Cand>)
    ensures multiset(r) == multiset(s)
    ensures Sorted(r)
  {
    if s == [] then []
    else
      assert s == [s[0]] + s[1..];
      var t := Sort(s[1..]);
      InsertSorted(s[0], t);
      Insert(s[0], t)
  }

  function Min(a: int, b: int): int
  {
    if a < b then a else b
  }

  /** ORDER BY then LIMIT 5. */
  function Batch(cs: seq<Cand>): seq<Cand>
  {
    Sort(cs)[..Min(JobLimit, |cs|)]
  }

  function Ids(cs: seq<Cand>): (ids: seq<int>)
    ensures |ids| == |cs|
    ensures forall k :: 0 <= k < |cs| ==> ids[k] == cs[k].id
  {
    if cs == [] then [] else [cs[0].id] + Ids(cs[1..])
  }

  /** The ids the job query returns. */
  function JobQuery(links: seq<LinkRow>, packages: seq<PackageRow>, occ: seq<string>): seq<int>
  {
    Ids(Batch(Candidates(links, packages, occ)))
  }

  /** In a sorted sequence everything after a cut sorts no earlier than the last element before it. */
  lemma {:induction false} SortedCut(s: seq<Cand>, k: nat)
    requires Sorted(s) && 0 < k <= |s|
    ensures forall c :: c in multiset(s[k..]) ==> KeyLe(s[k - 1], c)
  {
    forall c | c in multiset(s[k..])
      ensures KeyLe(s[k - 1], c)
    {
      assert c in s[k..];
      var j :| 0 <= j < |s[k..]| && s[k..][j] == c;
      assert s[k + j] == c;
    }
  }

  /** Any candidate the batch leaves out sorts no earlier than the batch's last one. */
  lemma {:induction false} BatchLeavesLater(cs: seq<Cand>)
    ensures var b := Batch(cs);
      forall c :: c in multiset(cs) - multiset(b) ==> |b| > 0 && KeyLe(b[|b| - 1], c)
  {
    var s, k := Sort(cs), Min(JobLimit, |cs|);
    var b := s[..k];
    assert multiset(cs) == multiset(b) + multiset(s[k..]) by {
      assert s == b + s[k..];
    }
    if k > 0 {
      SortedCut(s, k);
    }
  }

  /**
   * The batch holds at most five candidates, in key order; only candidates
   * are in it; when there are fewer than five it holds all of them, and any
   * candidate left out sorts no earlier than the batch's last one.
   */
  lemma {:induction false} BatchSpec(cs: seq<Cand>)
    ensures var b := Batch(cs);
      && |b| == Min(JobLimit, |cs|)
      && Sorted(b)
      && multiset(b) <= multiset(cs)
      && (|cs| <= JobLimit ==> multiset(b) == multiset(cs))
      && (forall c :: c in multiset(cs) - multiset(b) ==> KeyLe(b[|b| - 1], c))
  {
    var s, k := Sort(cs), Min(JobLimit, |cs|);
    var b := s[..k];
    assert multiset(s) == multiset(b) + multiset(s[k..]) by {
      assert s == b + s[k..];
    }
    if |cs| <= JobLimit {
      assert b == s;
    }
    BatchLeavesLater(cs);
  }

  /** Every id the job query returns belongs to a link that passes the filter. */
  lemma {:induction false} JobQueryEligible(links: seq<LinkRow>, packages: seq<PackageRow>, occ: seq<string>)
    ensures var ids := JobQuery(links, packages, occ);
      && |ids| <= JobLimit
      && forall k :: 0 <= k < |ids| ==>
           exists i :: 0 <= i < |links| && links[i].id == ids[k] && Eligible(packages, occ, links[i])
  {
    var cs := Candidates(links, packages, occ);
    var b := Batch(cs);
    BatchSpec(cs);
    forall k | 0 <= k < |b|
      ensures exists i :: 0 <= i < |links| && links[i].id == b[k].id && Eligible(packages, occ, links[i])
    {
      assert b[k] in multiset(cs);
      CandidatesMembers(links, packages, occ, b[k]);
    }
  }

  /** A sequence of candidates with pairwise distinct ids. */
  predicate DistinctIds(s: seq<Cand>)
  {
    forall a, b :: 0 <= a < b < |s| ==> s[a].id != s[b].id
  }

  /** A sequence with distinct ids holds each candidate at most once. */
  lemma {:induction false} DistinctIdsOnce(s: seq<Cand>, c: Cand)
    requires DistinctIds(s)
    ensures multiset(s)[c] <= 1
  {
    if s != [] {
      assert s == [s[0]] + s[1..];
      DistinctIdsOnce(s[1..], c);
      if s[0] == c {
        forall j | 0 <= j < |s[1..]|
          ensures s[1..][j] != c
        {
          assert s[0].id != s[j + 1].id;
        }
      }
    }
  }

  /** A candidate at two positions occurs twice. */
  lemma {:induction false} TwiceAt(s: seq<Cand>, p: nat, q: nat)
    requires p < q < |s| && s[p] == s[q]
    ensures multiset(s)[s[p]] >= 2
  {
    assert s == s[..p] + [s[p]] + s[p + 1..q] + [s[q]] + s[q + 1..];
  }

  /** Drawing candidates from a sequence with distinct ids gives distinct ids. */
  lemma {:induction false} DistinctIdsSub(s: seq<Cand>, t: seq<Cand>)
    requires DistinctIds(s) && multiset(t) <= multiset(s)
    ensures DistinctIds(t)
  {
    forall a, b | 0 <= a < b < |t|
      ensures t[a].id != t[b].id
    {
      assert t[a] in multiset(s) && t[b] in multiset(s);
      if t[a] == t[b] {
        TwiceAt(t, a, b);
        DistinctIdsOnce(s, t[a]);
      } else {
        var i :| 0 <= i < |s| && s[i] == t[a];
        var j :| 0 <= j < |s| && s[j] == t[b];
        assert i != j;
        if i > j {
          assert s[j].id != s[i].id;
        }
      }
    }
  }

  /** The query never returns one link twice. */
  lemma {:induction false} JobQueryDistinct(links: seq<LinkRow>, packages: seq<PackageRow>, occ: seq<string>)
    requires IdsIncreasing(links)
    ensures var ids := JobQuery(links, packages, occ);
      forall a, b :: 0 <= a < b < |ids| ==> ids[a] != ids[b]
  {
    var cs := Candidates(links, packages, occ);
    CandidatesIdsIncreasing(links, packages, occ);
    assert DistinctIds(cs) by {
      forall a, b | 0 <= a < b < |cs|
        ensures cs[a].id != cs[b].id
      {
        assert cs[a].id < cs[b].id;
      }
    }
    BatchSpec(cs);
    DistinctIdsSub(cs, Batch(cs));
  }

  /**
   * After restartPackage every link of a queued package whose plugin is not
   * occupied is a candidate for the job query again, and the query's
   * candidates of the other packages are those of before.
   */
  lemma {:induction false} RestartedAreCandidates(links: seq<LinkRow>, packages: seq<PackageRow>, occ: seq<string>, package: int)
    requires Find(packages, package).Some? && packages[Find(packages, package).value].scope == Queue
    ensures var r := RestartScopeRows(links, package);
      forall i :: 0 <= i < |r| && r[i].scope == package && r[i].data.plugin !in occ ==> Eligible(packages, occ, r[i])
    ensures var r := RestartScopeRows(links, package);
      forall i :: 0 <= i < |r| && r[i].scope != package ==> r[i] == links[i]
  {
    var r := RestartScopeRows(links, package);
    forall i | 0 <= i < |r| && r[i].scope == package && r[i].data.plugin !in occ
      ensures Eligible(packages, occ, r[i])
    {
      assert r[i].scope == links[i].scope;
      assert r[i].data.status == Queued;
      assert PackageOf(packages, r[i]) == Some(packages[Find(packages, package).value]);
    }
  }

  /**
   * The list the backend builds for the occupied plugins "A" and "B" names
   * the single plugin A'B, so a queued link of plugin "A" is still handed
   * out; read as a set of plugins, the exclusion withholds it.
   */
  lemma {:induction false} AsWrittenHandsOutOccupied()
    ensures var links := [Row(1, 7, 0, LinkData("u", "u", Queued, "A"))];
      var packages := [Row(7, Queue, 0, PackageData("p", "p"))];
      && ParseList(AsWrittenList(["A", "B"])) == Some(["A'B"])
      && JobQuery(links, packages, ["A'B"]) == [1]
      && JobQuery(links, packages, ["A", "B"]) == []
  {
    AsWrittenMergesTwo("A", "B");
    assert "A" + [Quote] + "B" == "A'B";
    var links := [Row(1, 7, 0, LinkData("u", "u", Queued, "A"))];
    var packages := [Row(7, Queue, 0, PackageData("p", "p"))];
    assert Find(packages, 7) == Some(0);
    assert links[..0] == [];
    assert Candidates(links, packages, ["A'B"]) == [Cand(0, 0, 1)];
    assert Candidates(links, packages, ["A", "B"]) == [];
  }
}
