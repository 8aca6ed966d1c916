/**
  The refresh cache of `fetch_table_rows`: the process-wide memo of the last
  parsed table, served while it is non-empty and younger than the TTL.
  The clock reading `now` and the outcome of the HTTP request are inputs.
 */
module RefreshCache {
  import opened Wrappers
  import opened Records
  import opened Extractor

  /** Seconds a non-empty row list is served without fetching again. */
  const CacheTtl: real := 60.0

  /** A failed request: the connection or timeout error, or a non-success HTTP status. */
  datatype FetchError = RequestFailed

  /** What the request to the statistics page produced, once it is made. */
  datatype Response = Failed(error: FetchError) | Received(doc: Document)

  /** The memo's two fields, `{ts, rows}`. */
  datatype CacheState = CacheState(ts: real, rows: seq<PlayerRecord>)

  /** The memo at process start. */
  const Initial: CacheState := CacheState(0.0, [])

  /** The memo answers the call at time `now` without a fetch. */
  predicate Serves(s: CacheState, now: real) {
    |s.rows| > 0 && now - s.ts < CacheTtl
  }

  /** One call: the memo afterwards, what the caller gets, and whether the page was fetched. */
  datatype Outcome = Outcome(state: CacheState, result: Result<seq<PlayerRecord>, FetchError>, fetched: bool)

  /** One call of `fetch_table_rows` at time `now`, as a transition of the memo. */
  function Refresh(s: CacheState, now: real, response: Response): (o: Outcome)
    ensures o.fetched <==> !Serves(s, now)
    ensures !o.fetched ==> o.result == Success(s.rows) && o.state == s
    ensures o.fetched && response.Failed? ==> o.result == Failure(response.error) && o.state == s
    ensures o.fetched && response.Received? && response.doc == [] ==> o.result == Success([]) && o.state == s
    ensures o.fetched && response.Received? && response.doc != [] ==>
              o.result == Success(TableRecords(TargetTable(response.doc).value.rows))
              && o.state == CacheState(now, o.result.value)
  {
    if Serves(s, now) then Outcome(s, Success(s.rows), false)
    else match response
      case Failed(e) => Outcome(s, Failure(e), true)
      case Received(doc) =>
        match TargetTable(doc)
        case None => Outcome(s, Success([]), true)
        case Some(t) =>
          var rows := TableRecords(t.rows);
          Outcome(CacheState(now, rows), Success(rows), true)
  }

  /** The memo changes only by a successful parse, which replaces both fields and stamps them with `now`. */
  lemma ReplacedTogether(s: CacheState, now: real, response: Response)
    ensures var o := Refresh(s, now, response);
      o.state == s || (o.fetched && response.Received? && o.state == CacheState(now, o.result.value))
  {
  }

  /** A second call within the TTL of a refresh that produced rows is answered from the memo. */
  lemma HitWithinTtl(s: CacheState, now: real, response: Response, later: real, response': Response)
    requires var o := Refresh(s, now, response); o.fetched && o.result.Success? && o.result.value != []
    requires later - now < CacheTtl
    ensures var o := Refresh(s, now, response);
      Refresh(o.state, later, response') == Outcome(o.state, o.result, false)
  {
  }

  /** After a failed fetch the memo is still stale at every later call, so that call fetches again. */
  lemma FailureRetries(s: CacheState, now: real, e: FetchError, later: real, response': Response)
    requires !Serves(s, now)
    requires now <= later
    ensures Refresh(s, now, Failed(e)).state == s
    ensures Refresh(Refresh(s, now, Failed(e)).state, later, response').fetched
  {
  }

  /** A page without tables yields no rows and leaves the memo as it was. */
  lemma NoTableLeavesMemo(s: CacheState, now: real)
    requires !Serves(s, now)
    ensures Refresh(s, now, Received([])) == Outcome(s, Success([]), true)
  {
  }

  /** An empty memo is never served, whatever the time. */
  lemma EmptyMemoFetches(ts: real, now: real, response: Response)
    ensures Refresh(CacheState(ts, []), now, response).fetched
  {
  }

  /** The cache object of the running bot. */
  class Cache {
    var ts: real
    var rows: seq<PlayerRecord>

    constructor ()
      ensures State() == Initial
    {
      ts := 0.0;
      rows := [];
    }

    function State(): CacheState
      reads this
    {
      CacheState(ts, rows)
    }

    /**
      `fetch_table_rows`: serve the memo when it is fresh; otherwise use the
      response of the request, pick the target table, extract its rows and
      store them with `now`. `fetched` tells whether the request was made.
     */
    method FetchTableRows(now: real, response: Response)
      returns (result: Result<seq<PlayerRecord>, FetchError>, fetched: bool)
      modifies this
      ensures Outcome(State(), result, fetched) == Refresh(old(State()), now, response)
      ensures fetched <==> !Serves(old(State()), now)
      ensures !fetched ==> result == Success(old(rows)) && unchanged(this)
      ensures unchanged(this) || (fetched && response.Received? && ts == now && result == Success(rows))
    {
      if |rows| > 0 && now - ts < CacheTtl {
        return Success(rows), false;
      }
      fetched := true;
      match response {
        case Failed(e) =>
          return Failure(e), fetched;
        case Received(doc) =>
          var target := SelectTarget(doc);
          if target == None {
            return Success([]), fetched;
          }
          var extracted := ExtractRows(target.value);
          rows := extracted;
          ts := now;
          result := Success(extracted);
      }
    }
  }
}
