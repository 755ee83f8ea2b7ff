/**
 * The detail fetcher of main.py (`fetchPokemonData`, `getPokemonData`): one
 * request per summary record, each giving a payload or `None`, gathered in
 * request order, then the `None` results filtered out.
 *
 * The detail endpoint is abstracted as a total function from a URL to its
 * response; the concurrency of the fan-out is not modelled, only the
 * position-preserving sequence of outcomes it produces.
 */
module Details {
  import opened Options
  import opened Listing

  /** A `{"name": ...}` reference inside a detail payload. */
  datatype NamedRef = NamedRef(name: string)

  /** One element of a payload's `types` list: `{"type": {"name": ...}}`. */
  datatype TypeSlot = TypeSlot(typeRef: NamedRef)

  /** One element of a payload's `abilities` list: `{"ability": {"name": ...}}`. */
  datatype AbilitySlot = AbilitySlot(abilityRef: NamedRef)

  /** The fields of a detail payload that main.py reads. */
  datatype Payload = Payload(id: int, name: string, types: seq<TypeSlot>, abilities: seq<AbilitySlot>)

  /** A detail response: its HTTP status and, when it succeeded, the decoded payload. */
  datatype DetailResponse = DetailResponse(status: int, body: Payload)

  /** `GET url` on the detail endpoint. */
  type DetailEndpoint = string -> DetailResponse

  /** `fetchPokemonData(session, url)`: the payload on status 200, otherwise `None`. */
  function FetchDetail(endpoint: DetailEndpoint, url: string): (r: Option<Payload>)
    ensures r.Some? <==> endpoint(url).status == OK
    ensures r.Some? ==> r.value == endpoint(url).body
  {
    var response := endpoint(url);
    if response.status == OK then Some(response.body) else None
  }

  /** `asyncio.gather` over one request per summary: one outcome per summary, in input order. */
  function Gather(endpoint: DetailEndpoint, summaries: seq<Summary>): (r: seq<Option<Payload>>)
    ensures |r| == |summaries|
    ensures forall i :: 0 <= i < |r| ==> (r[i].Some? <==> endpoint(summaries[i].url).status == OK)
    ensures forall i :: 0 <= i < |r| && r[i].Some? ==> r[i].value == endpoint(summaries[i].url).body
  {
    seq(|summaries|, i requires 0 <= i < |summaries| => FetchDetail(endpoint, summaries[i].url))
  }

  /**
   * `filter(lambda pokemon: pokemon is not None, ...)`: the present payloads.
   * Exactly one entry is lost per `None`.
   */
  function Successes(outcomes: seq<Option<Payload>>): (r: seq<Payload>)
    ensures |r| == |outcomes| - multiset(outcomes)[None]
  {
    if outcomes == [] then []
    else
      assert outcomes == [outcomes[0]] + outcomes[1..];
      Present(outcomes[0]) + Successes(outcomes[1..])
  }

  /** The payload of one outcome, if there is one. */
  function Present(o: Option<Payload>): seq<Payload>
  {
    if o.Some? then [o.value] else []
  }

  /** Every present payload survives the filter, and nothing else does. */
  lemma {:induction false} SuccessesMembers(outcomes: seq<Option<Payload>>, x: Payload)
    ensures x in Successes(outcomes) <==> Some(x) in outcomes
  {
    if outcomes != [] {
      SuccessesMembers(outcomes[1..], x);
      assert outcomes == [outcomes[0]] + outcomes[1..];
    }
  }

  /** The filter keeps order: it distributes over concatenation. */
  lemma {:induction false} SuccessesAppend(a: seq<Option<Payload>>, b: seq<Option<Payload>>)
    ensures Successes(a + b) == Successes(a) + Successes(b)
  {
    if a != [] {
      calc {
        Successes(a + b);
        { assert (a + b)[0] == a[0] && (a + b)[1..] == a[1..] + b; }
        Present(a[0]) + Successes(a[1..] + b);
        { SuccessesAppend(a[1..], b); }
        Present(a[0]) + (Successes(a[1..]) + Successes(b));
        Successes(a) + Successes(b);
      }
    } else {
      assert a + b == b;
    }
  }

  /** On a single outcome the filter keeps the payload or drops the `None`. */
  lemma SuccessesSingle(o: Option<Payload>)
    ensures Successes([o]) == if o.Some? then [o.value] else []
  {
    assert [o][1..] == [];
  }

  /** Where no request failed, the filter returns every payload, in order. */
  lemma {:induction false} SuccessesAllPresent(outcomes: seq<Option<Payload>>)
    requires forall i :: 0 <= i < |outcomes| ==> outcomes[i].Some?
    ensures |Successes(outcomes)| == |outcomes|
    ensures forall i :: 0 <= i < |outcomes| ==> Successes(outcomes)[i] == outcomes[i].value
  {
    if outcomes != [] {
      SuccessesAllPresent(outcomes[1..]);
    }
  }

  /** The indices of the summaries whose detail request failed. */
  ghost function FailedIndices(endpoint: DetailEndpoint, summaries: seq<Summary>): set<nat>
  {
    set i: nat | i < |summaries| && endpoint(summaries[i].url).status != OK
  }

  /** `getPokemonData(urls)`: the payloads of the successful detail requests, in request order. */
  function FetchAll(endpoint: DetailEndpoint, summaries: seq<Summary>): (r: seq<Payload>)
    ensures |r| <= |summaries|
  {
    Successes(Gather(endpoint, summaries))
  }

  /** Gathering two batches of requests is gathering each batch, in order. */
  lemma GatherAppend(endpoint: DetailEndpoint, s: seq<Summary>, t: seq<Summary>)
    ensures Gather(endpoint, s + t) == Gather(endpoint, s) + Gather(endpoint, t)
  {
  }

  /**
   * The payloads come back in request order: fetching two batches of
   * summaries returns the first batch's payloads, then the second's.
   */
  lemma FetchAllAppend(endpoint: DetailEndpoint, s: seq<Summary>, t: seq<Summary>)
    ensures FetchAll(endpoint, s + t) == FetchAll(endpoint, s) + FetchAll(endpoint, t)
  {
    GatherAppend(endpoint, s, t);
    SuccessesAppend(Gather(endpoint, s), Gather(endpoint, t));
  }

  /** A single request contributes its payload on status 200 and nothing otherwise. */
  lemma FetchAllSingle(endpoint: DetailEndpoint, s: Summary)
    ensures FetchAll(endpoint, [s]) ==
      if endpoint(s.url).status == OK then [endpoint(s.url).body] else []
  {
    SuccessesSingle(FetchDetail(endpoint, s.url));
  }

  lemma GatherSnoc(endpoint: DetailEndpoint, summaries: seq<Summary>)
    requires summaries != []
    ensures Gather(endpoint, summaries) ==
      Gather(endpoint, summaries[..|summaries| - 1]) + [FetchDetail(endpoint, summaries[|summaries| - 1].url)]
  {
  }

  lemma FailedSnoc(endpoint: DetailEndpoint, summaries: seq<Summary>)
    requires summaries != []
    ensures |FailedIndices(endpoint, summaries)| ==
      |FailedIndices(endpoint, summaries[..|summaries| - 1])| + (if endpoint(summaries[|summaries| - 1].url).status == OK then 0 else 1)
  {
    var init := summaries[..|summaries| - 1];
    if endpoint(summaries[|summaries| - 1].url).status == OK {
      assert FailedIndices(endpoint, summaries) == FailedIndices(endpoint, init);
    } else {
      assert FailedIndices(endpoint, summaries) == FailedIndices(endpoint, init) + {|init|};
    }
  }

  /** The fetched list is as long as the summary list minus the failed requests. */
  lemma {:induction false} FetchAllCount(endpoint: DetailEndpoint, summaries: seq<Summary>)
    ensures |FetchAll(endpoint, summaries)| == |summaries| - |FailedIndices(endpoint, summaries)|
    decreases |summaries|
  {
    if summaries != [] {
      var init := summaries[..|summaries| - 1];
      var outcome := FetchDetail(endpoint, summaries[|summaries| - 1].url);
      FetchAllCount(endpoint, init);
      GatherSnoc(endpoint, summaries);
      SuccessesAppend(Gather(endpoint, init), [outcome]);
      SuccessesSingle(outcome);
      FailedSnoc(endpoint, summaries);
    } else {
      assert FailedIndices(endpoint, summaries) == {};
    }
  }

  /** The fetched list holds exactly the bodies of the successful responses. */
  lemma FetchAllMembers(endpoint: DetailEndpoint, summaries: seq<Summary>, x: Payload)
    ensures x in FetchAll(endpoint, summaries) <==>
      exists i :: 0 <= i < |summaries| && endpoint(summaries[i].url) == DetailResponse(OK, x)
  {
    var outcomes := Gather(endpoint, summaries);
    SuccessesMembers(outcomes, x);
    if x in FetchAll(endpoint, summaries) {
      var i :| 0 <= i < |outcomes| && outcomes[i] == Some(x);
      assert endpoint(summaries[i].url) == DetailResponse(OK, x);
    }
    if exists i :: 0 <= i < |summaries| && endpoint(summaries[i].url) == DetailResponse(OK, x) {
      var i :| 0 <= i < |summaries| && endpoint(summaries[i].url) == DetailResponse(OK, x);
      assert outcomes[i] == Some(x);
    }
  }
}
