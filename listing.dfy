/**
 * The listing fetcher of main.py (`getPokemonUrl`): request pages of summary
 * records at increasing offsets and concatenate them, stopping at the first
 * failed response or the first page shorter than the page size.
 *
 * The remote listing endpoint is abstracted as a total function from the
 * query's offset and limit to the response it would give.
 */
module Listing {
  /** One entry of a listing page: a name and the URL of its detail record. */
  datatype Summary = Summary(name: string, url: string)

  /** A listing response: its HTTP status and, when it succeeded, the page's `results`. */
  datatype Response = Response(status: int, results: seq<Summary>)

  /** The only status main.py treats as success. */
  const OK: int := 200

  /** `GET url?offset=O&limit=L`, as a function of (O, L). */
  type Endpoint = (nat, nat) -> Response

  /** The offset of the `k`-th request: `pageStart` advanced by `pageSize` once per earlier request. */
  function Offset(pageSize: nat, pageStart: nat, k: nat): nat
  {
    if k == 0 then pageStart else Offset(pageSize, pageStart, k - 1) + pageSize
  }

  /** Request `k` goes to offset `pageStart + k * pageSize`. */
  lemma {:induction false} OffsetIs(pageSize: nat, pageStart: nat, k: nat)
    ensures Offset(pageSize, pageStart, k) == pageStart + k * pageSize
  {
    if k > 0 {
      OffsetIs(pageSize, pageStart, k - 1);
      assert (k - 1) * pageSize + pageSize == k * pageSize;
    }
  }

  /** The response to the `k`-th request of a fetch starting at `pageStart`. */
  function PageAt(endpoint: Endpoint, pageSize: nat, pageStart: nat, k: nat): Response
  {
    endpoint(Offset(pageSize, pageStart, k), pageSize)
  }

  /** A response that ends the loop: a failure, or a page shorter than `pageSize`. */
  predicate IsLast(r: Response, pageSize: nat)
  {
    r.status != OK || |r.results| < pageSize
  }

  /** The first `n` requests all returned full pages, so none of them ended the loop. */
  ghost predicate FullPages(endpoint: Endpoint, pageSize: nat, pageStart: nat, n: nat)
  {
    forall k: nat :: k < n ==> !IsLast(PageAt(endpoint, pageSize, pageStart, k), pageSize)
  }

  /** What one response adds to the accumulated list: its results if it succeeded, else nothing. */
  function Kept(r: Response): seq<Summary>
  {
    if r.status == OK then r.results else []
  }

  /** The in-order concatenation of what the first `n` requests contributed. */
  function Collected(endpoint: Endpoint, pageSize: nat, pageStart: nat, n: nat): seq<Summary>
  {
    if n == 0 then []
    else Collected(endpoint, pageSize, pageStart, n - 1) + Kept(PageAt(endpoint, pageSize, pageStart, n - 1))
  }

  /**
   * The first request, from the `k`-th on, whose response ends the loop;
   * request `last` is known to end it.
   */
  function StopIndexFrom(endpoint: Endpoint, pageSize: nat, pageStart: nat, k: nat, last: nat): (r: nat)
    requires k <= last && IsLast(PageAt(endpoint, pageSize, pageStart, last), pageSize)
    ensures k <= r <= last && IsLast(PageAt(endpoint, pageSize, pageStart, r), pageSize)
    ensures forall j: nat :: k <= j < r ==> !IsLast(PageAt(endpoint, pageSize, pageStart, j), pageSize)
    decreases last - k
  {
    if IsLast(PageAt(endpoint, pageSize, pageStart, k), pageSize) then k
    else StopIndexFrom(endpoint, pageSize, pageStart, k + 1, last)
  }

  /**
   * The index of the request that ends the loop: every earlier request
   * returned a full page, and this one failed or came back short.
   */
  function StopIndex(endpoint: Endpoint, pageSize: nat, pageStart: nat, last: nat): (r: nat)
    requires IsLast(PageAt(endpoint, pageSize, pageStart, last), pageSize)
    ensures r <= last
    ensures FullPages(endpoint, pageSize, pageStart, r)
    ensures IsLast(PageAt(endpoint, pageSize, pageStart, r), pageSize)
  {
    StopIndexFrom(endpoint, pageSize, pageStart, 0, last)
  }

  /**
   * `getPokemonUrl(url, pageSize, pageStart)`. The ghost `last` is the index of
   * some request whose response is a failure or a short page: the loop stops
   * there at the latest, and without such a page the source loops forever.
   * The result is everything the requests up to the stopping one contributed,
   * in order. `requested` records the offset of every request issued.
   */
  method FetchListing(endpoint: Endpoint, pageSize: nat, pageStart: nat, ghost last: nat)
    returns (data: seq<Summary>, ghost requested: seq<nat>)
    requires IsLast(PageAt(endpoint, pageSize, pageStart, last), pageSize)
    ensures data == Collected(endpoint, pageSize, pageStart, StopIndex(endpoint, pageSize, pageStart, last) + 1)
    ensures |requested| == StopIndex(endpoint, pageSize, pageStart, last) + 1
    ensures forall k {:trigger requested[k]} :: 0 <= k < |requested| ==> requested[k] == Offset(pageSize, pageStart, k)
  {
    ghost var stop := StopIndex(endpoint, pageSize, pageStart, last);
    data := [];
    requested := [];
    var offset := pageStart;
    while true
      invariant offset == Offset(pageSize, pageStart, |requested|)
      invariant |requested| <= stop
      invariant forall k {:trigger requested[k]} :: 0 <= k < |requested| ==> requested[k] == Offset(pageSize, pageStart, k)
      invariant data == Collected(endpoint, pageSize, pageStart, |requested|)
      decreases stop - |requested|
    {
      ghost var n := |requested|;
      var response := endpoint(offset, pageSize);
      assert response == PageAt(endpoint, pageSize, pageStart, n);
      requested := requested + [offset];
      if response.status == OK {
        data := data + response.results;
        assert data == Collected(endpoint, pageSize, pageStart, n + 1);
        if |response.results| < pageSize {
          StopsAtFirstLast(endpoint, pageSize, pageStart, last, n);
          return;
        } else {
          StopsAtFirstLast(endpoint, pageSize, pageStart, last, n);
          offset := offset + pageSize;
        }
      } else {
        assert data == Collected(endpoint, pageSize, pageStart, n + 1);
        StopsAtFirstLast(endpoint, pageSize, pageStart, last, n);
        return;
      }
    }
  }

  /** Up to the stopping index, a request ends the loop exactly when it is the stopping one. */
  lemma StopsAtFirstLast(endpoint: Endpoint, pageSize: nat, pageStart: nat, last: nat, n: nat)
    requires IsLast(PageAt(endpoint, pageSize, pageStart, last), pageSize)
    requires n <= StopIndex(endpoint, pageSize, pageStart, last)
    ensures IsLast(PageAt(endpoint, pageSize, pageStart, n), pageSize) <==> n == StopIndex(endpoint, pageSize, pageStart, last)
  {
  }

  /** Only one request can be the first that ends the loop. */
  lemma StopIndexUnique(endpoint: Endpoint, pageSize: nat, pageStart: nat, n: nat, m: nat)
    requires FullPages(endpoint, pageSize, pageStart, n) && IsLast(PageAt(endpoint, pageSize, pageStart, n), pageSize)
    requires FullPages(endpoint, pageSize, pageStart, m) && IsLast(PageAt(endpoint, pageSize, pageStart, m), pageSize)
    ensures n == m
  {
  }

  /**
   * While every page is full, `n` requests have collected at least
   * `n * pageSize` entries (exactly that many when no page is longer than
   * the limit it was asked for).
   */
  lemma {:induction false} CollectedLength(endpoint: Endpoint, pageSize: nat, pageStart: nat, n: nat)
    requires FullPages(endpoint, pageSize, pageStart, n)
    ensures |Collected(endpoint, pageSize, pageStart, n)| >= n * pageSize
    ensures (forall k: nat :: k < n ==> |PageAt(endpoint, pageSize, pageStart, k).results| <= pageSize) ==>
              |Collected(endpoint, pageSize, pageStart, n)| == n * pageSize
  {
    if n > 0 {
      assert !IsLast(PageAt(endpoint, pageSize, pageStart, n - 1), pageSize);
      CollectedLength(endpoint, pageSize, pageStart, n - 1);
      assert (n - 1) * pageSize + pageSize == n * pageSize;
    }
  }

  /** The accumulated list only grows: earlier results are a prefix of later ones. */
  lemma {:induction false} CollectedGrows(endpoint: Endpoint, pageSize: nat, pageStart: nat, m: nat, n: nat)
    requires m <= n
    ensures Collected(endpoint, pageSize, pageStart, m) <= Collected(endpoint, pageSize, pageStart, n)
    decreases n
  {
    if m < n {
      CollectedGrows(endpoint, pageSize, pageStart, m, n - 1);
    }
  }

  /** A failed request ends the loop and contributes nothing: the result is the earlier pages. */
  lemma FailureKeepsEarlierPages(endpoint: Endpoint, pageSize: nat, pageStart: nat, n: nat)
    requires PageAt(endpoint, pageSize, pageStart, n).status != OK
    ensures IsLast(PageAt(endpoint, pageSize, pageStart, n), pageSize)
    ensures Collected(endpoint, pageSize, pageStart, n + 1) == Collected(endpoint, pageSize, pageStart, n)
  {
  }

  function Min(a: nat, b: nat): nat
  {
    if a <= b then a else b
  }

  /**
   * A listing endpoint that always succeeds and serves `items`: the window of
   * at most `limit` entries starting at `offset`.
   */
  function Serving(items: seq<Summary>): Endpoint
  {
    (offset: nat, limit: nat) =>
      Response(OK, items[Min(offset, |items|)..Min(offset + limit, |items|)])
  }

  lemma {:induction false} ServingPrefix(items: seq<Summary>, pageSize: nat, n: nat)
    requires n * pageSize <= |items|
    ensures FullPages(Serving(items), pageSize, 0, n)
    ensures Collected(Serving(items), pageSize, 0, n) == items[..n * pageSize]
  {
    if n > 0 {
      ServingPrefix(items, pageSize, n - 1);
      var page := PageAt(Serving(items), pageSize, 0, n - 1);
      var lo := (n - 1) * pageSize;
      OffsetIs(pageSize, 0, n - 1);
      assert lo + pageSize == n * pageSize;
      assert Min(lo, |items|) == lo && Min(lo + pageSize, |items|) == n * pageSize;
      assert page == Serving(items)(lo, pageSize);
      assert page.results == items[(n - 1) * pageSize..n * pageSize];
      assert items[..n * pageSize] == items[..(n - 1) * pageSize] + items[(n - 1) * pageSize..n * pageSize];
      forall k: nat | k < n ensures !IsLast(PageAt(Serving(items), pageSize, 0, k), pageSize) {
        if k < n - 1 {
          assert FullPages(Serving(items), pageSize, 0, n - 1);
        }
      }
    }
  }

  /** The request at index N / pageSize is the one that returns the short remainder. */
  lemma ServingLastPage(items: seq<Summary>, pageSize: nat, q: nat)
    requires pageSize > 0 && q == |items| / pageSize
    ensures FullPages(Serving(items), pageSize, 0, q)
    ensures IsLast(PageAt(Serving(items), pageSize, 0, q), pageSize)
    ensures Collected(Serving(items), pageSize, 0, q + 1) == items
    ensures |items| % pageSize == 0 ==> PageAt(Serving(items), pageSize, 0, q).results == []
  {
    var lo := q * pageSize;
    assert lo <= |items| < lo + pageSize && (|items| % pageSize == 0 ==> lo == |items|) by {
      DivisionBounds(|items|, pageSize);
    }
    var page := PageAt(Serving(items), pageSize, 0, q);
    assert page == Response(OK, items[lo..]) by {
      OffsetIs(pageSize, 0, q);
      assert page == Serving(items)(lo, pageSize);
      assert Min(lo, |items|) == lo && Min(lo + pageSize, |items|) == |items|;
    }
    ServingPrefix(items, pageSize, q);
    assert items == items[..lo] + items[lo..];
  }

  /**
   * Fetching from offset 0 an endpoint that always succeeds and holds N
   * entries: the loop ends at request N / pageSize (counting from 0), so it
   * issues N / pageSize + 1 requests, collects exactly the N entries, and on
   * an exact multiple of pageSize its last request returns an empty page.
   */
  lemma ServingEverything(items: seq<Summary>, pageSize: nat, n: nat)
    requires pageSize > 0
    requires FullPages(Serving(items), pageSize, 0, n) && IsLast(PageAt(Serving(items), pageSize, 0, n), pageSize)
    ensures n == |items| / pageSize
    ensures Collected(Serving(items), pageSize, 0, n + 1) == items
    ensures |items| % pageSize == 0 ==> PageAt(Serving(items), pageSize, 0, n).results == []
  {
    ServingLastPage(items, pageSize, |items| / pageSize);
    StopIndexUnique(Serving(items), pageSize, 0, n, |items| / pageSize);
  }

  lemma DivisionBounds(a: nat, b: nat)
    requires b > 0
    ensures (a / b) * b <= a < (a / b) * b + b
    ensures a % b == 0 ==> (a / b) * b == a
  {
  }
}
