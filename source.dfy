/**
 * The database client, seen from one paged query: each `execute` call
 * answers with the next reply of a fixed result stream. A reply carries a
 * batch of rows and the paging state to resume from, absent on the last
 * batch. Once the stream is used up every further call answers with no
 * rows and no paging state.
 */
module RowSource {
  import opened Options

  /** The part of a result set the paginator reads: its rows and its paging state. */
  datatype FetchResult<R> = FetchResult(rows: seq<R>, pageState: Option<string>)

  /** The query options of one `execute` call that the paginator sets: resume point and fetch size. */
  datatype Request = Request(pageState: Option<string>, fetchSize: nat)

  /** The reply to the i-th call (0-based) on a stream whose replies are `script`. */
  function ReplyAt<R>(script: seq<FetchResult<R>>, i: nat): FetchResult<R> {
    if i < |script| then script[i] else FetchResult([], None)
  }

  class Source<R> {
    /** The replies the server gives, in order. */
    const script: seq<FetchResult<R>>
    /** How many calls have been answered. */
    var served: nat
    /** The requests received so far, in order. */
    ghost var sent: seq<Request>

    ghost predicate Valid()
      reads this
    {
      served == |sent|
    }

    constructor (replies: seq<FetchResult<R>>)
      ensures Valid()
      ensures script == replies && sent == []
    {
      script := replies;
      served := 0;
      sent := [];
    }

    /** Answers one request with the next reply of the stream and records the request. */
    method Execute(request: Request) returns (result: FetchResult<R>)
      requires Valid()
      modifies this
      ensures Valid()
      ensures result == ReplyAt(script, old(served))
      ensures sent == old(sent) + [request]
    {
      result := if served < |script| then script[served] else FetchResult([], None);
      served := served + 1;
      sent := sent + [request];
    }
  }
}
