/**
 * The fourteen named download states and their integer codes, as stored in
 * the `status` column of `links`.
 */
module Status {
  import opened Tables

  /** The status names, each at the index that is its code. */
  const Names: seq<string> := [
    "finished", "offline", "online", "queued", "checking", "waiting", "reconnected",
    "starting", "failed", "aborted", "decrypting", "custom", "downloading", "processing"]

  /** The name-to-code dictionary. */
  const StatusMap: map<string, int> := map[
    "finished" := 0, "offline" := 1, "online" := 2, "queued" := 3, "checking" := 4,
    "waiting" := 5, "reconnected" := 6, "starting" := 7, "failed" := 8, "aborted" := 9,
    "decrypting" := 10, "custom" := 11, "downloading" := 12, "processing" := 13]

  const Finished := 0
  const Online := 2
  const Reconnected := 6

  /** `statusMap[name]`: the code of a known name; an unknown name raises KeyError, here None. */
  function Code(name: string): (r: Option<int>)
    ensures r.Some? <==> name in Names
    ensures r.Some? ==> 0 <= r.value < |Names| && Names[r.value] == name
  {
    NamesIndexStatusMap();
    if name in StatusMap then Some(StatusMap[name]) else None
  }

  /** The codes are exactly 0 .. 13, one per name, and Names is the inverse of StatusMap. */
  lemma {:induction false} NamesIndexStatusMap()
    ensures |Names| == 14
    ensures forall k :: 0 <= k < |Names| ==> Names[k] in StatusMap && StatusMap[Names[k]] == k
    ensures forall n :: n in StatusMap <==> n in Names
    ensures forall n :: n in StatusMap ==> 0 <= StatusMap[n] < |Names| && Names[StatusMap[n]] == n
  {
  }

  /** Each code names one status: looking its name up gives the code back. */
  lemma {:induction false} CodeOfName(k: int)
    requires 0 <= k < |Names|
    ensures Code(Names[k]) == Some(k)
  {
    NamesIndexStatusMap();
  }

  /** Distinct names have distinct codes. */
  lemma {:induction false} CodeInjective(a: string, b: string)
    requires Code(a).Some? && Code(b).Some? && a != b
    ensures Code(a).value != Code(b).value
  {
  }

  /** The codes the rest of the model relies on. */
  lemma {:induction false} KnownCodes()
    ensures Code("finished") == Some(Finished)
    ensures Code("online") == Some(Online)
    ensures Code("queued") == Some(Queued)
    ensures Code("reconnected") == Some(Reconnected)
  {
    CodeOfName(0);
    CodeOfName(2);
    CodeOfName(3);
    CodeOfName(6);
  }
}
