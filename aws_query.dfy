/**
 * The query stage of the AWS Config inventory plugin
 * (GD/custom/plugins/inventory/aws_config.py): one aggregate select, then one
 * more request per continuation token, accumulating every page's results.
 *
 * The aggregator is a parameter `select`: the response (or the client error
 * raised) for a request. It is a function because the aggregator's contents
 * are taken to be fixed for the duration of one run.
 */
module AwsQuery {
  import opened Wrappers

  type Token = string

  /** The keyword arguments of `select_aggregate_resource_config`. */
  datatype Request = Request(expression: string, aggregatorName: string, limit: nat, nextToken: Option<Token>)

  /** A page: its `Results` and, when more results remain, its `NextToken`. */
  datatype Response = Response(results: seq<string>, nextToken: Option<Token>)

  /** A client error raised by the call (access denied, unknown aggregator, ...). */
  datatype ApiError = ApiError(code: string)

  /** The page size asked for on every request. */
  const PageLimit: nat := 100

  /** The select expression, verbatim. */
  const ConfigQuery: string :=
    "\n        SELECT \n" +
    "            resourceId,\n" +
    "            accountId,\n" +
    "            awsRegion,\n" +
    "            configuration.state.name,\n" +
    "            configuration.instanceType,\n" +
    "            configuration.publicDnsName,\n" +
    "            configuration.privateIpAddress,\n" +
    "            configuration.privateDnsName,\n" +
    "            configuration.platform,\n" +
    "            availabilityZone,\n" +
    "            tags.tag,\n" +
    "            tags.value,\n" +
    "            tags.key\n" +
    "        WHERE \n" +
    "            resourceType = 'AWS::EC2::Instance'\n" +
    "        "

  /** Every request uses the same expression, aggregator and page size; only the token varies. */
  function RequestFor(aggregator: string, token: Option<Token>): (req: Request)
    ensures req.expression == ConfigQuery && req.aggregatorName == aggregator
    ensures req.limit == 100 && req.nextToken == token
  {
    Request(ConfigQuery, aggregator, PageLimit, token)
  }

  /**
   * Starting from a request carrying `token`, the aggregator answers with an
   * error or with a page without a continuation token within `fuel` requests.
   */
  predicate Exhausts(select: Request -> Result<Response, ApiError>, aggregator: string, token: Option<Token>, fuel: nat)
    decreases fuel
  {
    fuel > 0 &&
    match select(RequestFor(aggregator, token))
    case Failure(_) => true
    case Success(resp) => resp.nextToken.None? || Exhausts(select, aggregator, resp.nextToken, fuel - 1)
  }

  /** What following the continuation tokens from `token` yields: all results in order, or the first error. */
  function Collect(select: Request -> Result<Response, ApiError>, aggregator: string, token: Option<Token>, fuel: nat)
    : Result<seq<string>, ApiError>
    requires Exhausts(select, aggregator, token, fuel)
    decreases fuel
  {
    match select(RequestFor(aggregator, token))
    case Failure(e) => Failure(e)
    case Success(resp) =>
      if resp.nextToken.None? then Success(resp.results)
      else match Collect(select, aggregator, resp.nextToken, fuel - 1)
        case Failure(e) => Failure(e)
        case Success(rest) => Success(resp.results + rest)
  }

  /** Every request in `reqs` was answered with a page. */
  predicate AllAnswered(select: Request -> Result<Response, ApiError>, reqs: seq<Request>)
  {
    forall i :: 0 <= i < |reqs| ==> select(reqs[i]).Success?
  }

  /**
   * `reqs` is the sequence of requests the loop issues when the first carries
   * `token`: each later request carries the token of the previous page.
   */
  predicate ChainedFrom(select: Request -> Result<Response, ApiError>, aggregator: string, token: Option<Token>, reqs: seq<Request>)
  {
    |reqs| >= 1 && reqs[0] == RequestFor(aggregator, token) &&
    forall i :: 0 <= i < |reqs| - 1 ==>
      select(reqs[i]).Success? && select(reqs[i]).value.nextToken.Some? &&
      reqs[i + 1] == RequestFor(aggregator, select(reqs[i]).value.nextToken)
  }

  /** The last request was answered with an error or with a page that has no continuation token. */
  predicate Stopped(select: Request -> Result<Response, ApiError>, reqs: seq<Request>)
    requires |reqs| >= 1
  {
    var last := select(reqs[|reqs| - 1]);
    last.Failure? || last.value.nextToken.None?
  }

  /** The concatenation of the pages' results, in request order. */
  function Gathered(select: Request -> Result<Response, ApiError>, reqs: seq<Request>): seq<string>
    requires AllAnswered(select, reqs)
  {
    if reqs == [] then []
    else Gathered(select, reqs[..|reqs| - 1]) + select(reqs[|reqs| - 1]).value.results
  }

  /** What a stopped chain of requests yields: the error of its last request, or everything gathered. */
  function Outcome(select: Request -> Result<Response, ApiError>, reqs: seq<Request>): Result<seq<string>, ApiError>
    requires |reqs| >= 1 && AllAnswered(select, reqs[..|reqs| - 1])
  {
    var last := select(reqs[|reqs| - 1]);
    if last.Failure? then Failure(last.error) else Success(Gathered(select, reqs))
  }

  lemma {:induction false} GatheredCons(select: Request -> Result<Response, ApiError>, reqs: seq<Request>)
    requires |reqs| >= 1 && AllAnswered(select, reqs)
    ensures AllAnswered(select, reqs[1..])
    ensures Gathered(select, reqs) == select(reqs[0]).value.results + Gathered(select, reqs[1..])
    decreases |reqs|
  {
    var n := |reqs|;
    if n > 1 {
      assert reqs[..n - 1][1..] == reqs[1..][..n - 2];
      GatheredCons(select, reqs[..n - 1]);
    } else {
      assert reqs[..0] == [] && reqs[1..] == [];
    }
  }

  /**
   * The loop's stopped chain of requests determines the outcome: it is what
   * `Collect` yields, whatever bound the chain was known to end within.
   */
  lemma {:induction false} ChainYieldsCollect(
    select: Request -> Result<Response, ApiError>, aggregator: string, token: Option<Token>, fuel: nat, reqs: seq<Request>)
    requires Exhausts(select, aggregator, token, fuel)
    requires ChainedFrom(select, aggregator, token, reqs) && Stopped(select, reqs)
    ensures AllAnswered(select, reqs[..|reqs| - 1])
    ensures Collect(select, aggregator, token, fuel) == Outcome(select, reqs)
    decreases fuel
  {
    var n := |reqs|;
    var done := reqs[..n - 1];
    assert AllAnswered(select, done) by {
      forall i | 0 <= i < |done| ensures select(done[i]).Success? {
        assert done[i] == reqs[i];
      }
    }
    var first := select(reqs[0]);
    if n == 1 {
      assert done == [];
      if first.Success? {
        assert Gathered(select, reqs) == first.value.results;
      }
    } else {
      var resp := first.value;
      var rest := reqs[1..];
      assert ChainedFrom(select, aggregator, resp.nextToken, rest) by {
        forall i | 0 <= i < |rest| - 1
          ensures select(rest[i]).Success? && select(rest[i]).value.nextToken.Some? &&
                  rest[i + 1] == RequestFor(aggregator, select(rest[i]).value.nextToken)
        {
          assert rest[i] == reqs[i + 1] && rest[i + 1] == reqs[i + 2];
        }
      }
      assert rest[|rest| - 1] == reqs[n - 1];
      ChainYieldsCollect(select, aggregator, resp.nextToken, fuel - 1, rest);
      assert rest[..|rest| - 1] == reqs[1..n - 1];
      if select(reqs[n - 1]).Success? {
        GatheredCons(select, reqs);
      }
    }
  }

  /**
   * The pagination loop: request the first page, then, while the last page
   * carries a NextToken, request again with that token; extend the result
   * list with every page. Also returns the requests it issued.
   */
  method FetchAll(select: Request -> Result<Response, ApiError>, aggregator: string, ghost fuel: nat)
    returns (r: Result<seq<string>, ApiError>, ghost requests: seq<Request>)
    requires Exhausts(select, aggregator, None, fuel)
    ensures ChainedFrom(select, aggregator, None, requests) && Stopped(select, requests)
    ensures AllAnswered(select, requests[..|requests| - 1])
    ensures r == Outcome(select, requests)
    ensures r == Collect(select, aggregator, None, fuel)
  {
    var req := RequestFor(aggregator, None);
    var resp := select(req);
    requests := [req];
    if resp.Failure? {
      r := Failure(resp.error);
      ChainYieldsCollect(select, aggregator, None, fuel, requests);
      return;
    }
    var all := resp.value.results;
    assert requests[..0] == [];
    ghost var remaining: nat := fuel - 1;
    while resp.value.nextToken.Some?
      invariant ChainedFrom(select, aggregator, None, requests)
      invariant resp == select(requests[|requests| - 1]) && resp.Success?
      invariant AllAnswered(select, requests)
      invariant all == Gathered(select, requests)
      invariant resp.value.nextToken.Some? ==> Exhausts(select, aggregator, resp.value.nextToken, remaining)
      decreases remaining
    {
      req := RequestFor(aggregator, resp.value.nextToken);
      var previous := requests;
      resp := select(req);
      requests := requests + [req];
      assert requests[..|requests| - 1] == previous;
      if resp.Failure? {
        r := Failure(resp.error);
        ChainYieldsCollect(select, aggregator, None, fuel, requests);
        return;
      }
      all := all + resp.value.results;
      remaining := remaining - 1;
    }
    r := Success(all);
    ChainYieldsCollect(select, aggregator, None, fuel, requests);
  }
}
