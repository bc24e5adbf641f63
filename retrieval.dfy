/**
 * What both retrievers share: the post-filtering of search positions against the
 * metadata list, and the ways a load or a query can fail.
 */
module Retrieval {
  import opened Wrappers
  import opened Records

  /** `index.search(embedding, k)`: the positions of the one result row, or the failure it raises. */
  type IndexSearch = (Vector, int) -> Result<seq<int>, string>

  datatype InitError =
    | ModelInitFailed(reason: string)
    | IndexLoadFailed(reason: string)
    | MetadataLoadFailed(reason: string)

  datatype QueryError =
    | EmbedFailed(reason: string)
    | SearchFailed(reason: string)

  /** The default number of neighbours a query asks for. */
  const DefaultK: int := 3

  /** A search position the result loop accepts: in range, and its record has "content". */
  predicate Usable(metadata: seq<Record>, i: int)
  {
    0 <= i < |metadata| && ContentKey in metadata[i]
  }

  /**
   * The records the result loop of `query` appends, in search order; an out-of-range
   * position (FAISS pads with -1) or a record without "content" is logged and passed over.
   */
  function KeptRecords(metadata: seq<Record>, positions: seq<int>): seq<Record>
  {
    if positions == [] then []
    else
      (if Usable(metadata, positions[0]) then [metadata[positions[0]]] else [])
      + KeptRecords(metadata, positions[1..])
  }

  /** The outcome of a query once the text has been embedded (or has failed to be). */
  function QueryOutcome(embedded: Result<Vector, string>, search: IndexSearch, k: int, metadata: seq<Record>)
    : Result<seq<Record>, QueryError>
  {
    match embedded
    case Failure(e) => Failure(EmbedFailed(e))
    case Success(v) =>
      match search(v, k)
      case Failure(e) => Failure(SearchFailed(e))
      case Success(positions) => Success(KeptRecords(metadata, positions))
  }

  /**
   * `origin` traces `results` back to the search positions: result j is the metadata
   * record of the usable position origin[j], and the origins strictly increase, so the
   * results keep search order.
   */
  ghost predicate TracesTo(metadata: seq<Record>, positions: seq<int>, results: seq<Record>, origin: seq<nat>)
  {
    && |origin| == |results|
    && (forall j :: 0 <= j < |origin| ==>
          && origin[j] < |positions|
          && Usable(metadata, positions[origin[j]])
          && results[j] == metadata[positions[origin[j]]])
    && (forall j, j' :: 0 <= j < j' < |origin| ==> origin[j] < origin[j'])
  }

  /** Each returned record is the metadata entry of a usable position, in search order. */
  lemma {:induction false} KeptRecordsOrigins(metadata: seq<Record>, positions: seq<int>) returns (origin: seq<nat>)
    ensures TracesTo(metadata, positions, KeptRecords(metadata, positions), origin)
  {
    if positions == [] {
      origin := [];
    } else {
      var rest := KeptRecordsOrigins(metadata, positions[1..]);
      origin := OriginsStep(metadata, positions, rest);
    }
  }

  /** One step of the trace: the head position's record, if kept, comes first. */
  lemma OriginsStep(metadata: seq<Record>, positions: seq<int>, rest: seq<nat>) returns (origin: seq<nat>)
    requires positions != []
    requires TracesTo(metadata, positions[1..], KeptRecords(metadata, positions[1..]), rest)
    ensures TracesTo(metadata, positions, KeptRecords(metadata, positions), origin)
  {
    var tail := positions[1..];
    var kept := KeptRecords(metadata, tail);
    var shifted := ShiftedOrigins(metadata, positions, kept, rest);
    if Usable(metadata, positions[0]) {
      assert KeptRecords(metadata, positions) == [metadata[positions[0]]] + kept;
      origin := [0] + shifted;
      forall j | 0 < j < |origin|
        ensures origin[j] == shifted[j - 1] && KeptRecords(metadata, positions)[j] == kept[j - 1]
      {
      }
    } else {
      assert KeptRecords(metadata, positions) == kept;
      origin := shifted;
    }
  }

  /** A trace into the tail of the positions, shifted by one, is a trace into all of them. */
  lemma ShiftedOrigins(metadata: seq<Record>, positions: seq<int>, results: seq<Record>, rest: seq<nat>)
    returns (shifted: seq<nat>)
    requires positions != []
    requires TracesTo(metadata, positions[1..], results, rest)
    ensures TracesTo(metadata, positions, results, shifted)
    ensures |shifted| == |rest| && forall j :: 0 <= j < |rest| ==> shifted[j] == rest[j] + 1
  {
    shifted := seq(|rest|, j requires 0 <= j < |rest| => rest[j] + 1);
    forall j | 0 <= j < |shifted|
      ensures positions[shifted[j]] == positions[1..][rest[j]]
    {
    }
  }

  /** Every returned record carries "content". */
  lemma KeptRecordsHaveContent(metadata: seq<Record>, positions: seq<int>)
    ensures forall d :: d in KeptRecords(metadata, positions) ==> ContentKey in d
  {
    var origin := KeptRecordsOrigins(metadata, positions);
    forall d | d in KeptRecords(metadata, positions)
      ensures ContentKey in d
    {
      var j :| 0 <= j < |KeptRecords(metadata, positions)| && KeptRecords(metadata, positions)[j] == d;
      assert Usable(metadata, positions[origin[j]]);
    }
  }

  /** Every usable position's record is returned. */
  lemma {:induction false} KeptRecordsComplete(metadata: seq<Record>, positions: seq<int>, k: nat)
    requires k < |positions| && Usable(metadata, positions[k])
    ensures metadata[positions[k]] in KeptRecords(metadata, positions)
  {
    if k > 0 {
      KeptRecordsComplete(metadata, positions[1..], k - 1);
    }
  }

  /**
   * There are never more results than positions, and exactly as many when every
   * position is usable; skipped positions only shorten the list.
   */
  lemma {:induction false} KeptRecordsCount(metadata: seq<Record>, positions: seq<int>)
    ensures |KeptRecords(metadata, positions)| <= |positions|
    ensures |KeptRecords(metadata, positions)| == |positions|
        <==> forall k :: 0 <= k < |positions| ==> Usable(metadata, positions[k])
  {
    if positions != [] {
      KeptRecordsCount(metadata, positions[1..]);
      if forall k :: 0 <= k < |positions| ==> Usable(metadata, positions[k]) {
        assert forall k :: 0 <= k < |positions[1..]| ==> Usable(metadata, positions[1..][k]);
      } else if Usable(metadata, positions[0]) {
        var k :| 0 <= k < |positions| && !Usable(metadata, positions[k]);
        assert !Usable(metadata, positions[1..][k - 1]);
      }
    }
  }

  /** A failed embedding or a failed search reaches the caller unchanged; a successful query never fails. */
  lemma QueryFailures(embedded: Result<Vector, string>, search: IndexSearch, k: int, metadata: seq<Record>)
    ensures var r := QueryOutcome(embedded, search, k, metadata);
      && (embedded.Failure? ==> r == Failure(EmbedFailed(embedded.error)))
      && (embedded.Success? && search(embedded.value, k).Failure? ==>
            r == Failure(SearchFailed(search(embedded.value, k).error)))
      && (r.Success? <==> embedded.Success? && search(embedded.value, k).Success?)
  {
  }
}
