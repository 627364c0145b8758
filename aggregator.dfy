/**
 * The `HttpRequestAggregator` object: it fetches every URI of its batch,
 * counts the fetches in flight, files each completion into the response
 * store by status code, and aggregates and reports on the store.
 *
 * The event loop is modelled by the sequence of completions it delivers:
 * `RunLoop` hands them to `HandleRequest` in arrival order until the stop
 * signal fires.
 */
module Aggregator {
  import opened Wrappers
  import opened PyStr
  import opened Sorting
  import opened Responses
  import opened Aggregation

  /** The part of the HTTP request the model keeps: the stripped URL and the method. */
  datatype Request = Request(url: string, httpMethod: string)

  /**
   * One call of the transport's `fetch`: the request it was given (None for a
   * method other than GET) and the in-flight count at the moment of the call.
   */
  datatype Fetch = Fetch(request: Option<Request>, inFlight: int)

  /**
   * The request `fetch_requests` builds for one URI: a request exactly for
   * GET, whose URL is the URI with its surrounding whitespace cut off.
   */
  function RequestFor(uri: string, httpMethod: string): (r: Option<Request>)
    ensures r.Some? <==> httpMethod == "GET"
    ensures r.Some? ==> r.value.httpMethod == "GET"
    ensures r.Some? ==> var u := r.value.url;
              && (u == [] || (!IsSpace(u[0]) && !IsSpace(u[|u| - 1])))
              && LeadingSpaces(uri) + |u| <= |uri|
              && u == uri[LeadingSpaces(uri)..LeadingSpaces(uri) + |u|]
              && (forall i :: LeadingSpaces(uri) + |u| <= i < |uri| ==> IsSpace(uri[i]))
  {
    if httpMethod == "GET" then Some(Request(Strip(uri), httpMethod)) else None
  }

  /**
   * What the loop of `failed_requests` collects from the keys `ks`, in
   * order: each key whose decimal form does not start with '2', with its bucket.
   */
  function FailedBuckets(ks: seq<int>, buckets: map<int, seq<Record>>, success: int -> bool): (r: seq<(int, seq<Record>)>)
    requires Listed(ks, buckets)
    decreases |ks|
  {
    if ks == [] then []
    else
      var last := ks[|ks| - 1];
      FailedBuckets(ks[..|ks| - 1], buckets, success) + (if success(last) then [] else [(last, buckets[last])])
  }

  /** One more key: the loop step of `failed_requests`. */
  lemma FailedBucketsSnoc(ks: seq<int>, i: nat, buckets: map<int, seq<Record>>, success: int -> bool)
    requires Listed(ks, buckets) && i < |ks|
    ensures Listed(ks[..i], buckets) && Listed(ks[..i + 1], buckets)
    ensures FailedBuckets(ks[..i + 1], buckets, success)
            == FailedBuckets(ks[..i], buckets, success) + (if success(ks[i]) then [] else [(ks[i], buckets[ks[i]])])
  {
    assert ks[..i + 1][..i] == ks[..i];
  }

  /** Each collected entry is a listed key that is not a success, with its bucket unchanged. */
  lemma {:induction false} FailedBucketsEntries(ks: seq<int>, buckets: map<int, seq<Record>>, success: int -> bool)
    requires Listed(ks, buckets)
    ensures var r := FailedBuckets(ks, buckets, success);
            forall i :: 0 <= i < |r| ==> r[i].0 in ks && !success(r[i].0) && r[i].1 == buckets[r[i].0]
    decreases |ks|
  {
    if ks != [] {
      var pre := ks[..|ks| - 1];
      assert Listed(pre, buckets);
      FailedBucketsEntries(pre, buckets, success);
      var last := ks[|ks| - 1];
      var p := FailedBuckets(pre, buckets, success);
      var r := FailedBuckets(ks, buckets, success);
      assert p == FailedBuckets(pre, buckets, success);
      assert r == p + (if success(last) then [] else [(last, buckets[last])]);
      forall i | 0 <= i < |r| ensures r[i].0 in ks && !success(r[i].0) && r[i].1 == buckets[r[i].0] {
        if i < |p| {
          assert r[i] == p[i] && p[i].0 in pre;
        }
      }
    }
  }

  /** Over keys in ascending order, the collected entries are in ascending order. */
  lemma {:induction false} FailedBucketsAscending(ks: seq<int>, buckets: map<int, seq<Record>>, success: int -> bool)
    requires Listed(ks, buckets) && StrictlyAscending(ks)
    ensures var r := FailedBuckets(ks, buckets, success);
            forall i, j :: 0 <= i < j < |r| ==> r[i].0 < r[j].0
    decreases |ks|
  {
    if ks != [] {
      var pre := ks[..|ks| - 1];
      assert Listed(pre, buckets);
      FailedBucketsAscending(pre, buckets, success);
      FailedBucketsEntries(pre, buckets, success);
      var last := ks[|ks| - 1];
      var p := FailedBuckets(pre, buckets, success);
      var r := FailedBuckets(ks, buckets, success);
      assert p == FailedBuckets(pre, buckets, success);
      assert r == p + (if success(last) then [] else [(last, buckets[last])]);
      assert forall c :: c in pre ==> c < last;
      forall i, j | 0 <= i < j < |r| ensures r[i].0 < r[j].0 {
        assert r[i] == p[i] && p[i].0 in pre;
        if j < |p| {
          assert r[j] == p[j];
        }
      }
    }
  }

  /** Every listed key that is not a success is collected. */
  lemma {:induction false} FailedBucketsComplete(ks: seq<int>, buckets: map<int, seq<Record>>, success: int -> bool)
    requires Listed(ks, buckets)
    ensures var r := FailedBuckets(ks, buckets, success);
            forall c :: c in ks && !success(c) ==> exists i :: 0 <= i < |r| && r[i].0 == c
    decreases |ks|
  {
    if ks != [] {
      var n := |ks|;
      var pre := ks[..n - 1];
      assert Listed(pre, buckets);
      FailedBucketsComplete(pre, buckets, success);
      var p := FailedBuckets(pre, buckets, success);
      var r := FailedBuckets(ks, buckets, success);
      assert p == FailedBuckets(pre, buckets, success);
      assert r == p + (if success(ks[n - 1]) then [] else [(ks[n - 1], buckets[ks[n - 1]])]);
      forall c | c in ks && !success(c)
        ensures exists i :: 0 <= i < |r| && r[i].0 == c
      {
        if c == ks[n - 1] {
          assert r[|r| - 1].0 == c;
        } else {
          assert c in pre;
          var i :| 0 <= i < |p| && p[i].0 == c;
          assert r[i] == p[i];
        }
      }
      assert r == FailedBuckets(ks, buckets, success);
    }
  }

  /**
   * What `failed_requests` collects over the sorted keys of a well-formed
   * store: strictly ascending codes, each a stored code that does not start
   * with '2' paired with its bucket, and every such code present.
   */
  lemma FailedSortedKeys(s: Store, r: seq<(int, seq<Record>)>)
    requires s.Valid() && Listed(Sorted(s.codes), s.buckets)
    requires r == FailedBuckets(Sorted(s.codes), s.buckets, StartsWithTwo)
    ensures forall i, j :: 0 <= i < j < |r| ==> r[i].0 < r[j].0
    ensures forall i :: 0 <= i < |r| ==> r[i].0 in s.buckets && !StartsWithTwo(r[i].0) && r[i].1 == s.buckets[r[i].0]
    ensures forall c :: c in s.buckets && !StartsWithTwo(c) ==> exists i :: 0 <= i < |r| && r[i].0 == c
  {
    var keys := Sorted(s.codes);
    FailedBucketsEntries(keys, s.buckets, StartsWithTwo);
    FailedBucketsAscending(keys, s.buckets, StartsWithTwo);
    FailedBucketsComplete(keys, s.buckets, StartsWithTwo);
  }

  /**
   * The loop of `failed_requests` over the keys `ks` in the order given:
   * skips each code whose decimal form starts with '2' and collects every
   * other code with its bucket.
   */
  method CollectFailed(ks: seq<int>, buckets: map<int, seq<Record>>) returns (r: seq<(int, seq<Record>)>)
    requires Listed(ks, buckets)
    ensures r == FailedBuckets(ks, buckets, StartsWithTwo)
  {
    r := [];
    for i := 0 to |ks|
      invariant Listed(ks[..i], buckets)
      invariant r == FailedBuckets(ks[..i], buckets, StartsWithTwo)
    {
      var code := ks[i];
      FailedBucketsSnoc(ks, i, buckets, StartsWithTwo);
      if StartsWithTwo(code) {
      } else {
        r := r + [(code, buckets[code])];
      }
    }
    assert ks[..|ks|] == ks;
  }

  class HttpRequestAggregator {
    var counter: int
    // Set by `__init__` and never reassigned afterwards.
    const authUsername: Option<string>
    const authPassword: Option<string>
    const httpMethod: string
    const urisToProcess: seq<string>
    const totalUris: Option<int>
    var masterUris: seq<string>
    var urisProcessed: int
    var lastReturn: Option<string>
    var responses: Store
    /** `bytes.decode("utf-8")`: None where the bytes are not valid UTF-8. */
    const decode: Bytes -> Option<string>

    /** The number of fetches issued over the object's lifetime. */
    ghost var dispatched: int
    /** The value of `urisProcessed` when the current store was started. */
    ghost var runStart: int

    /**
     * Every fetch issued is either still in flight or processed, and the
     * store holds one record per completion of the current run.
     */
    ghost predicate Valid()
      reads this
    {
      && responses.Valid()
      && counter + urisProcessed == dispatched
      && responses.Total() == urisProcessed - runStart
    }

    /**
     * `__init__`: sets the fields, then runs `process()`, whose completions
     * are `arrivals`.
     */
    constructor (uris: seq<string>, authUsername: Option<string>, authPassword: Option<string>,
                 httpMethod: string, decode: Bytes -> Option<string>, arrivals: seq<Response>)
      ensures Valid()
      ensures this.authUsername == authUsername && this.authPassword == authPassword
      ensures this.httpMethod == httpMethod && this.decode == decode
      ensures masterUris == uris && urisToProcess == uris && totalUris == None
      ensures lastReturn == None
      ensures var n := if 1 <= |uris| <= |arrivals| then |uris| else |arrivals|;
                && counter == |uris| - n && urisProcessed == n
                && responses == DeliverAll(Empty, arrivals[..n])
    {
      counter := 0;
      this.authUsername := authUsername;
      this.authPassword := authPassword;
      this.httpMethod := httpMethod;
      this.decode := decode;
      masterUris := uris;
      urisToProcess := uris;
      totalUris := None;
      urisProcessed := 0;
      lastReturn := None;
      responses := Empty;
      dispatched := 0;
      runStart := 0;
      new;
      var fetches, delivered, released := Process(arrivals);
      assert delivered == if 1 <= |uris| <= |arrivals| then |uris| else |arrivals|;
      assert counter == |uris| - delivered && urisProcessed == delivered;
    }

    /** `reset_master_uris`: replaces the master list and touches nothing else. */
    method ResetMasterUris(uris: seq<string>)
      modifies this`masterUris
      ensures old(Valid()) ==> Valid()
      ensures masterUris == uris
      ensures responses == old(responses)
      ensures lastReturn == old(lastReturn) && counter == old(counter)
    {
      masterUris := uris;
    }

    /**
     * `process`: empties the store and the cache, then fetches every URI of
     * `urisToProcess` and runs the event loop over `arrivals`.
     */
    method Process(arrivals: seq<Response>) returns (fetches: seq<Fetch>, delivered: nat, released: bool)
      requires Valid()
      modifies this`responses, this`lastReturn, this`counter, this`urisProcessed
      modifies this`dispatched, this`runStart
      ensures Valid()
      ensures lastReturn == None
      ensures |fetches| == |urisToProcess|
      ensures forall k :: 0 <= k < |fetches| ==>
                fetches[k] == Fetch(RequestFor(urisToProcess[k], httpMethod), old(counter) + k + 1)
      ensures released <==> 1 <= old(counter) + |urisToProcess| <= |arrivals|
      ensures delivered == if released then old(counter) + |urisToProcess| else |arrivals|
      ensures counter == old(counter) + |urisToProcess| - delivered
      ensures urisProcessed == old(urisProcessed) + delivered
      ensures responses == DeliverAll(Empty, arrivals[..delivered])
    {
      responses := Empty;
      lastReturn := None;
      runStart := urisProcessed;
      fetches, delivered, released := FetchRequests(arrivals);
    }

    /**
     * `fetch_requests`: for each URI in order, raises the in-flight count and
     * then issues its fetch; then runs the event loop.
     */
    method FetchRequests(arrivals: seq<Response>) returns (fetches: seq<Fetch>, delivered: nat, released: bool)
      requires Valid()
      modifies this`responses, this`counter, this`urisProcessed, this`dispatched
      ensures Valid()
      ensures |fetches| == |urisToProcess|
      ensures forall k :: 0 <= k < |fetches| ==>
                fetches[k] == Fetch(RequestFor(urisToProcess[k], httpMethod), old(counter) + k + 1)
      ensures released <==> 1 <= old(counter) + |urisToProcess| <= |arrivals|
      ensures delivered == if released then old(counter) + |urisToProcess| else |arrivals|
      ensures counter == old(counter) + |urisToProcess| - delivered
      ensures urisProcessed == old(urisProcessed) + delivered
      ensures responses == DeliverAll(old(responses), arrivals[..delivered])
    {
      fetches := IssueFetches();
      delivered, released := RunLoop(arrivals);
    }

    /** The loop of `fetch_requests`: one increment of the in-flight count and one fetch per URI. */
    method IssueFetches() returns (fetches: seq<Fetch>)
      requires Valid()
      modifies this`counter, this`dispatched
      ensures Valid()
      ensures counter == old(counter) + |urisToProcess|
      ensures |fetches| == |urisToProcess|
      ensures forall k :: 0 <= k < |fetches| ==>
                fetches[k] == Fetch(RequestFor(urisToProcess[k], httpMethod), old(counter) + k + 1)
    {
      fetches := [];
      for i := 0 to |urisToProcess|
        invariant Valid()
        invariant counter == old(counter) + i
        invariant |fetches| == i
        invariant forall k :: 0 <= k < i ==>
                    fetches[k] == Fetch(RequestFor(urisToProcess[k], httpMethod), old(counter) + k + 1)
      {
        counter := counter + 1;
        dispatched := dispatched + 1;
        fetches := fetches + [Fetch(RequestFor(urisToProcess[i], httpMethod), counter)];
      }
    }

    /**
     * `IOLoop.start()`: hands the completions to `handle_request` in arrival
     * order until one of them signals stop. The loop is released exactly when
     * the in-flight count reaches zero within the arrivals, and then after
     * exactly that many completions; when it is not (nothing in flight, or
     * too few arrivals), the original keeps waiting.
     */
    method RunLoop(arrivals: seq<Response>) returns (delivered: nat, released: bool)
      requires Valid()
      modifies this`responses, this`counter, this`urisProcessed
      ensures Valid()
      ensures released <==> 1 <= old(counter) <= |arrivals|
      ensures delivered == if released then old(counter) else |arrivals|
      ensures counter == old(counter) - delivered
      ensures urisProcessed == old(urisProcessed) + delivered
      ensures responses == DeliverAll(old(responses), arrivals[..delivered])
    {
      delivered, released := 0, false;
      while delivered < |arrivals| && !released
        invariant Valid()
        invariant 0 <= delivered <= |arrivals|
        invariant counter == old(counter) - delivered
        invariant urisProcessed == old(urisProcessed) + delivered
        invariant released <==> delivered >= 1 && counter == 0
        invariant !released ==> !(1 <= old(counter) <= delivered)
        invariant responses == DeliverAll(old(responses), arrivals[..delivered])
        decreases |arrivals| - delivered
      {
        DeliverAllSnoc(old(responses), arrivals, delivered);
        released := HandleRequest(arrivals[delivered]);
        delivered := delivered + 1;
      }
    }

    /**
     * `handle_request`: files one completion under its status code, lowers
     * the in-flight count and raises the processed count by one each, and
     * signals stop exactly when the in-flight count reaches zero.
     */
    method HandleRequest(response: Response) returns (stop: bool)
      requires Valid()
      modifies this`responses, this`counter, this`urisProcessed
      ensures Valid()
      ensures responses == old(responses).Deliver(response)
      ensures counter == old(counter) - 1 && urisProcessed == old(urisProcessed) + 1
      ensures counter + urisProcessed == old(counter) + old(urisProcessed)
      ensures stop <==> counter == 0
    {
      ghost var before := responses;
      DeliverAppendsOne(before, response);
      if response.code !in responses.buckets {
        responses := responses.Put(response.code, []);
      }
      ghost var created := responses;
      assert created == if response.code in before.buckets then before else before.Put(response.code, []);
      if response.code != 200 {
        responses := responses.Put(response.code, responses.buckets[response.code] + [UrlOnly(response.effectiveUrl)]);
      } else {
        responses := responses.Put(response.code, responses.buckets[response.code] + [Full(response)]);
      }
      assert responses == created.Put(response.code, created.buckets[response.code] + [RecordOf(response)]);
      counter := counter - 1;
      urisProcessed := urisProcessed + 1;
      stop := counter == 0;
    }

    /** `responses_summary`: one `"code: n\n"` line per bucket, in key order. */
    method ResponsesSummary() returns (s: string)
      requires Valid()
      ensures s == Summary(responses.codes, responses.buckets)
    {
      var codes, buckets := responses.codes, responses.buckets;
      s := "";
      for i := 0 to |codes|
        invariant Listed(codes[..i], buckets)
        invariant s == Summary(codes[..i], buckets)
      {
        var code := codes[i];
        SummarySnoc(codes, buckets, i);
        s := s + Line(code, |buckets[code]|) + "\n";
      }
      assert codes[..|codes|] == codes;
    }

    /**
     * `failed_requests`: the buckets whose code's decimal form does not start
     * with '2', each with its records, in strictly ascending code order.
     */
    method FailedRequests() returns (r: seq<(int, seq<Record>)>)
      requires Valid()
      ensures forall i, j :: 0 <= i < j < |r| ==> r[i].0 < r[j].0
      ensures forall i :: 0 <= i < |r| ==>
                r[i].0 in responses.buckets && !StartsWithTwo(r[i].0) && r[i].1 == responses.buckets[r[i].0]
      ensures forall c :: c in responses.buckets && !StartsWithTwo(c) ==>
                exists i :: 0 <= i < |r| && r[i].0 == c
    {
      var keys := Sorted(responses.codes);
      assert Listed(keys, responses.buckets) by {
        forall i | 0 <= i < |keys| ensures keys[i] in responses.buckets {
          assert keys[i] in keys;
        }
      }
      r := CollectFailed(keys, responses.buckets);
      FailedSortedKeys(responses, r);
    }

    /**
     * The per-item fallback after a decode error: decodes each body again and
     * re-raises on the first that fails; when all of them decode it builds
     * its list and returns nothing.
     */
    method DecodeEach(records: seq<Record>) returns (outcome: Outcome)
      requires AllFull(records)
      ensures (forall i :: 0 <= i < |records| ==> decode(records[i].response.body).Some?) ==> outcome == ReturnedNone
      ensures (exists i :: 0 <= i < |records| && decode(records[i].response.body).None?) ==> outcome == Raised(DecodeError)
    {
      var l: seq<string> := [];
      for i := 0 to |records|
        invariant forall k :: 0 <= k < i ==> decode(records[k].response.body).Some?
      {
        var t := decode(records[i].response.body);
        if t.None? {
          return Raised(DecodeError);
        }
        l := l + [Bracket(t.value)];
      }
      return ReturnedNone;
    }

    /**
     * `return_data_as_json`: the cached value when there is one; otherwise
     * the aggregate of the store, which is cached only when it is returned.
     */
    method ReturnDataAsJson() returns (outcome: Outcome)
      requires Valid()
      modifies this`lastReturn
      ensures Valid()
      ensures old(lastReturn).Some? ==> outcome == Returned(old(lastReturn).value) && lastReturn == old(lastReturn)
      ensures old(lastReturn).None? ==> outcome == Aggregate(responses, decode)
      ensures old(lastReturn).None? ==> lastReturn == if outcome.Returned? then Some(outcome.text) else None
    {
      if lastReturn.Some? {
        return Returned(lastReturn.value);
      }
      if 200 !in responses.buckets {
        return Raised(NoSuccessfulResponses);
      }
      var records := responses.buckets[200];
      assert forall i :: 0 <= i < |records| ==> Classified(200, records[i]);
      assert forall i :: 0 <= i < |records| ==> Bodies(records)[i] == records[i].response.body;
      var texts := DecodeAll(decode, Bodies(records));
      if texts.Some? {
        lastReturn := Some(Bracket(Join(texts.value, ',')));
        return Returned(lastReturn.value);
      }
      outcome := DecodeEach(records);
    }

    /** `return_data(JSON=False)`: the aggregate with its brackets dropped, split on commas. */
    method ReturnDataFragments() returns (r: Result<seq<string>, Error>)
      requires Valid()
      modifies this`lastReturn
      ensures old(lastReturn).Some? ==> r == Success(Fragments(old(lastReturn).value)) && lastReturn == old(lastReturn)
      ensures Valid()
      ensures old(lastReturn).None? ==> r == FragmentsOf(Aggregate(responses, decode))
      ensures old(lastReturn).None? ==>
                lastReturn == if Aggregate(responses, decode).Returned? then Some(Aggregate(responses, decode).text) else None
    {
      var outcome := ReturnDataAsJson();
      match outcome
      case Returned(t) => r := Success(Fragments(t));
      case ReturnedNone => r := Failure(NoneAggregate);
      case Raised(e) => r := Failure(e);
    }

    /** Memoisation: a second aggregation without an intervening run agrees with the first. */
    method AggregateTwice() returns (first: Outcome, second: Outcome)
      requires Valid()
      modifies this`lastReturn
      ensures second == first
      ensures first.Returned? ==> lastReturn == Some(first.text)
      ensures !first.Returned? ==> lastReturn == None
    {
      first := ReturnDataAsJson();
      second := ReturnDataAsJson();
    }
  }

  /**
   * `reset_master_uris` does not redirect the next run: `process` still
   * fetches the URIs given to the constructor.
   */
  method ResetThenProcess(agg: HttpRequestAggregator, uris: seq<string>, arrivals: seq<Response>)
    returns (fetches: seq<Fetch>)
    requires agg.Valid()
    modifies agg
    ensures agg.masterUris == uris
    ensures |fetches| == |agg.urisToProcess|
    ensures forall k :: 0 <= k < |fetches| ==>
              fetches[k].request == RequestFor(agg.urisToProcess[k], agg.httpMethod)
  {
    agg.ResetMasterUris(uris);
    var delivered, released;
    fetches, delivered, released := agg.Process(arrivals);
  }
}
