/**
 * The per-exclusion-set batch cache of `FileHandler.getJob`: each tuple of
 * occupied plugins maps to a list of job ids stored reversed and popped from
 * its end, with the marker "empty" standing for an exhausted query.
 */
module JobCache {
  import opened Tables

  /** An entry of a cached batch: a link id, or the string "empty". */
  datatype Entry = Job(id: int) | EmptyMark

  type Cache = map<seq<string>, seq<Entry>>

  /**
   * The outcome of one getJob call: the new cache, the id handed to getFile
   * (None when the popped entry was the marker or nothing was popped), and
   * whether the backend query was run.
   */
  datatype Step = Step(cache: Cache, handed: Option<int>, queried: bool)

  /** `jobs.reverse()` on the query's ids, as cache entries. */
  function Stack(ids: seq<int>): (r: seq<Entry>)
    ensures |r| == |ids|
    ensures forall k :: 0 <= k < |ids| ==> r[k] == Job(ids[|ids| - 1 - k])
  {
    if ids == [] then [] else Stack(ids[1..]) + [Job(ids[0])]
  }

  /** `list.pop()`: the last entry, as the id it names. */
  function Handed(e: Entry): Option<int>
  {
    if e.EmptyMark? then None else Some(e.id)
  }

  /**
   * One call of getJob for the occupied plugins `occ`, where `query` is what
   * the backend's job query returns at that moment.
   *  - a non-empty batch: pop its last entry;
   *  - an empty batch: query again; no result appends the marker and hands
   *    out nothing, otherwise the reversed result is stored and popped;
   *  - no batch: drop every other batch, store the reversed result and pop;
   *    without a result the marker is appended and popped at once, and the
   *    lookup of "empty" finds no file.
   */
  function Dispatch(cache: Cache, occ: seq<string>, query: seq<int>): Step
  {
    if occ in cache then
      var l := cache[occ];
      if l != [] then Step(cache[occ := l[..|l| - 1]], Handed(l[|l| - 1]), false)
      else if query == [] then Step(cache[occ := [EmptyMark]], None, true)
      else
        var s := Stack(query);
        Step(cache[occ := s[..|s| - 1]], Some(query[0]), true)
    else
      var s := Stack(query);
      if query == [] then Step(map[occ := []], None, true)
      else Step(map[occ := s[..|s| - 1]], Some(query[0]), true)
  }

  /** Popping the reversed ids hands out the first and leaves the rest reversed. */
  lemma {:induction false} StackPop(ids: seq<int>)
    requires ids != []
    ensures var s := Stack(ids);
      s[|s| - 1] == Job(ids[0]) && s[..|s| - 1] == Stack(ids[1..])
  {
  }

  /** A call for a new `occ` discards every other batch; a known `occ` leaves them alone. */
  lemma {:induction false} DispatchOthers(cache: Cache, occ: seq<string>, query: seq<int>)
    ensures var r := Dispatch(cache, occ, query).cache;
      && occ in r
      && (occ !in cache ==> r.Keys == {occ})
      && (occ in cache ==> r.Keys == cache.Keys && forall k :: k in cache && k != occ ==> r[k] == cache[k])
  {
  }

  /** A batch of an earlier query, still cached, hands out its next id without querying again. */
  lemma {:induction false} DispatchPops(cache: Cache, occ: seq<string>, query: seq<int>, ids: seq<int>)
    requires occ in cache && cache[occ] == Stack(ids) && ids != []
    ensures Dispatch(cache, occ, query) == Step(cache[occ := Stack(ids[1..])], Some(ids[0]), false)
  {
    StackPop(ids);
  }

  /** `n` successive calls with the same query result. */
  function Run(cache: Cache, occ: seq<string>, query: seq<int>, n: nat): (Cache, seq<Option<int>>)
    decreases n
  {
    if n == 0 then (cache, [])
    else
      var st := Dispatch(cache, occ, query);
      var (c, hs) := Run(st.cache, occ, query, n - 1);
      (c, [st.handed] + hs)
  }

  /** Each id as a handed-out job. */
  function Somes(ids: seq<int>): (r: seq<Option<int>>)
    ensures |r| == |ids| && forall k :: 0 <= k < |ids| ==> r[k] == Some(ids[k])
  {
    if ids == [] then [] else [Some(ids[0])] + Somes(ids[1..])
  }

  /** A cached batch is drained in the order the query returned it, leaving its list empty. */
  lemma {:induction false} Drain(cache: Cache, occ: seq<string>, query: seq<int>, ids: seq<int>)
    requires occ in cache && cache[occ] == Stack(ids)
    ensures Run(cache, occ, query, |ids|) == (cache[occ := []], Somes(ids))
    decreases |ids|
  {
    if ids == [] {
      assert cache[occ := []] == cache;
    } else {
      DispatchPops(cache, occ, query, ids);
      var next := cache[occ := Stack(ids[1..])];
      Drain(next, occ, query, ids[1..]);
      assert next[occ := []] == cache[occ := []];
    }
  }

  /**
   * Starting without a batch for `occ`, as after any change, |q| calls hand
   * out the query's ids q[0], q[1], ... in its order, each once; the batch is
   * then empty and the next call queries again.
   */
  lemma {:induction false} FirstBatchInOrder(cache: Cache, occ: seq<string>, q: seq<int>)
    requires occ !in cache && q != []
    ensures var (c, hs) := Run(cache, occ, q, |q|);
      && hs == Somes(q)
      && c == map[occ := []]
      && Dispatch(c, occ, q).queried
  {
    var st := Dispatch(cache, occ, q);
    StackPop(q);
    assert st == Step(map[occ := Stack(q[1..])], Some(q[0]), true);
    Drain(st.cache, occ, q, q[1..]);
    assert [Some(q[0])] + Somes(q[1..]) == Somes(q);
    assert map[occ := Stack(q[1..])][occ := []] == map[occ := []];
  }

  /** A batch made only of markers (or none at all). */
  predicate OnlyMarkers(cache: Cache, occ: seq<string>)
  {
    occ in cache ==> forall k :: 0 <= k < |cache[occ]| ==> cache[occ][k] == EmptyMark
  }

  /** While the query finds nothing no job is handed out, and only markers stay cached. */
  lemma {:induction false} EmptyQueryNoWork(cache: Cache, occ: seq<string>)
    requires OnlyMarkers(cache, occ)
    ensures var st := Dispatch(cache, occ, []);
      st.handed == None && OnlyMarkers(st.cache, occ)
  {
  }

  /**
   * With nothing to do the calls alternate: one queries and caches the
   * marker, the next pops the marker without querying and hands out nothing.
   */
  lemma {:induction false} EmptyAlternates(cache: Cache, occ: seq<string>, q: seq<int>)
    requires occ in cache && cache[occ] == []
    ensures Dispatch(cache, occ, []) == Step(cache[occ := [EmptyMark]], None, true)
    ensures Dispatch(cache[occ := [EmptyMark]], occ, q) == Step(cache, None, false)
  {
    assert cache[occ := [EmptyMark]][occ := []] == cache;
  }

  /** After `change` empties the cache, the next call runs the query. */
  lemma {:induction false} ClearedCacheQueries(occ: seq<string>, q: seq<int>)
    ensures Dispatch(map[], occ, q).queried
    ensures q != [] ==> Dispatch(map[], occ, q).handed == Some(q[0])
  {
  }
}
