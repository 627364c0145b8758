# HTTP request aggregator: a Dafny model

This project models the bookkeeping core of `HttpRequestAggregator`
(`http_request_aggregator/__init__.py`). The object fans out one GET fetch per
URI of its batch and counts the fetches in flight. It files every completion
into a response store keyed by status code. The store keeps the whole response
for code 200 and only the effective URL for any other code. When the in-flight
count falls to zero, the event loop is stopped. The object then offers:

- a per-code summary;
- the list of failed buckets, sorted by code;
- a memoised aggregate of the 200 bodies as one JSON array text;
- a "fragment" view of that aggregate, split on commas.

The model has six modules, one file each:

- `Wrappers` (`wrappers.dfy`): `Option` and `Result`.
- `PyStr` (`pystr.dfy`): the Python string operations the code relies on. These
  are `sep.join`, `str.split`, `str.strip`, the slice `s[1:-1]`, `str(int)` and
  `startswith('2')`.
- `Sorting` (`sorting.dfy`): `sorted()` over the distinct keys of a dictionary.
- `Responses` (`responses.dfy`): the response, the stored record, and the store.
  The store is an insertion-ordered dictionary, written as the list of codes in
  first-seen order plus the map from each code to its bucket. The file also holds
  the effect of one completion (`Deliver`) and the summary text.
- `Aggregation` (`aggregation.dfy`): the outcome of aggregating an uncached store,
  and the fragment mode.
- `Aggregator` (`aggregator.dfy`): the class itself. Its fields are the ones the
  source assigns. The ones only `__init__` sets (credentials, method, the list
  to process, `total_uris`) are `const`. Its methods are proved against the
  functions above. Ghost fields `dispatched` and `runStart` carry two invariants:
  - `counter + urisProcessed` equals the number of fetches issued;
  - the store holds one record per completion of the current run.

How the environment is represented:

- **The event loop.** Its run is a sequence of completions, `arrivals`. `RunLoop`
  hands them to `HandleRequest` in order until the stop signal fires.
- **The transport.** Each `fetch` call appears as a `Fetch` value. It holds the
  request (or `None`) and the in-flight count at the moment of the call.
- **UTF-8 decoding.** It is the constructor parameter `decode: Bytes -> Option<string>`,
  kept in a `const` field. `None` means the bytes are not valid UTF-8.

Several behaviours of the code differ from what a reader would expect, and the
model follows the code in each:

- **Non-GET methods.** One would expect a configuration error raised before any
  fetch. The code builds a `None` request and still calls `fetch` with it
  (`RequestFor`).
- **Empty batch.** One would expect `process()` to return at once with an empty
  store. The code starts the event loop with nothing in flight, and nothing ever
  stops it. `RunLoop` reports `released == false` whenever the count does not
  reach zero within the arrivals.
- **No 200 bucket.** The `KeyError` is swallowed, so the local list is never bound.
  The resulting error is re-raised at line 104. The model calls this outcome
  `Raised(NoSuccessfulResponses)`.
- **Decode fallback.** The fallback re-raises on the first body that does not
  decode. If every body decodes, it returns `None` without caching anything
  (`DecodeEach`).
- **`reset_master_uris`.** It writes only `_master_uris`. A later `process()` still
  fetches the list given to the constructor (`ResetThenProcess`).

## Model

| member | source | states |
|---|---|---|
| `PyStr.Join` | http_request_aggregator/__init__.py:93 | `sep.join(parts)` is "" for no parts and otherwise starts with the first part |
| `PyStr.Split` | http_request_aggregator/__init__.py:113 | `s.split(sep)` always yields at least one piece; no piece holds the separator; joining the pieces with the separator gives `s` back |
| `PyStr.SplitJoin` | http_request_aggregator/__init__.py:93 | Splitting `sep.join(parts)` on `sep` gives `parts` back when there is at least one part and no part holds `sep` |
| `PyStr.SplitLength` | http_request_aggregator/__init__.py:113 | `s.split(sep)` has exactly one more piece than `s` has separators |
| `PyStr.JoinCount` | http_request_aggregator/__init__.py:93 | The separators in `sep.join(parts)` are those inside the parts plus one between each two parts |
| `PyStr.TerminatedJoin` | http_request_aggregator/__init__.py:70-73 | Ending every line with a newline gives the same text as joining the lines with newlines after appending one empty line |
| `PyStr.Strip` | http_request_aggregator/__init__.py:48 | `uri.strip()` is a contiguous window of the URI that neither starts nor ends with whitespace; only whitespace lies outside it |
| `PyStr.Inner` | http_request_aggregator/__init__.py:113 | `s[1:-1]` is `s` without its first and last characters, or empty when `s` has fewer than two |
| `PyStr.DecString` | http_request_aggregator/__init__.py:72 | `str(n)` is non-empty; it starts with '-' exactly when `n` is negative; all its other characters are digits |
| `PyStr.DigitsRoundTrip` | http_request_aggregator/__init__.py:72 | Reading back the decimal digits of `n` gives `n`, so a summary line carries the exact count |
| `PyStr.StartsWithTwoBand` | http_request_aggregator/__init__.py:119 | For a (k+1)-digit `n`, `str(n).startswith('2')` holds exactly when 2·10^k ≤ n < 3·10^k (so 2, 20..29, 200..299 and 2000..2999) |
| `PyStr.StartsWithTwo` | http_request_aggregator/__init__.py:119 | `str(code).startswith('2')` holds only for codes of at least 2; negative codes start with '-', and 0 and 1 with their own digit |
| `PyStr.ThreeDigitCodes` | http_request_aggregator/__init__.py:119 | Among three-digit status codes, exactly 200..299 start with '2' |
| `Sorting.Sorted` | http_request_aggregator/__init__.py:118 | `sorted(keys)` over distinct keys is strictly ascending, has the same length and holds exactly the same keys |
| `Responses.DeliverAppendsOne` | http_request_aggregator/__init__.py:56-62 | One completion with code c: bucket c is created only if absent, and a new code goes last in key order. Bucket c gets exactly one record appended: the response if c == 200, its effective URL otherwise. Every other bucket is unchanged. The record count rises by one. The store stays well formed |
| `Responses.DeliverAllBuckets` | http_request_aggregator/__init__.py:56-62 | After a run of completions, each bucket holds exactly the records of its code in arrival order, and the record count grows by the number of completions |
| `Responses.Line` | http_request_aggregator/__init__.py:72 | The text `f"{code}: {len(responses)}"` of one summary line holds no newline |
| `Responses.Summary` | http_request_aggregator/__init__.py:70-73 | The summary is empty exactly when the store has no key; otherwise it ends with a newline |
| `Responses.SummaryLines` | http_request_aggregator/__init__.py:68-73 | Splitting the summary on newlines gives one `"code: n"` line per bucket, in key order, where n is the bucket's size, followed by nothing |
| `Aggregation.DecodeAll` | http_request_aggregator/__init__.py:93 | The fast-path decode succeeds exactly when every body decodes; it then gives one text per body, in bucket order |
| `Aggregation.Aggregate` | http_request_aggregator/__init__.py:82-105 | An uncached aggregation raises `NoSuccessfulResponses` exactly when there is no 200 bucket. It returns a text exactly when the bucket exists and every body decodes. It never yields `None`, because with fixed body bytes the fallback always re-raises |
| `Aggregation.Fragments` | http_request_aggregator/__init__.py:113 | Fragment mode always yields at least one fragment; joining the fragments with commas gives the aggregate without its brackets |
| `Aggregation.FragmentsOf` | http_request_aggregator/__init__.py:113 | Fragment mode succeeds exactly on a returned text, with at least one fragment that rejoins to the text without its brackets. Slicing a `None` aggregate is the error `NoneAggregate`. An aggregation error propagates unchanged |
| `Aggregation.FragmentsOfJoin` | http_request_aggregator/__init__.py:93 | On `"[" + ",".join(texts) + "]"`, fragment mode yields one fragment per text plus one per comma inside the texts; it gives `texts` back exactly when no text holds a comma |
| `Aggregation.AggregateFragments` | http_request_aggregator/__init__.py:113 | When aggregation returns a text, fragment mode yields one fragment per 200 record plus one per comma in the bodies; it gives back exactly the decoded bodies, in order, exactly when no body holds a comma |
| `Aggregator.RequestFor` | http_request_aggregator/__init__.py:47-52 | A request is built exactly for the method "GET". Its URL is a contiguous window of the URI that neither starts nor ends with whitespace, and only whitespace lies outside it, so it is `uri.strip()` |
| `Aggregator.CollectFailed` | http_request_aggregator/__init__.py:118-122 | The loop of `failed_requests` over the keys in the order given collects `FailedBuckets`: each code that does not start with '2', with its bucket |
| `Aggregator.FailedSortedKeys` | http_request_aggregator/__init__.py:118-122 | Over the sorted keys of a well-formed store, the collected codes are strictly ascending. Each is a stored code that does not start with '2', paired with its unchanged bucket. Every such code is collected |
| `Aggregator.FailedBucketsSnoc` | http_request_aggregator/__init__.py:118-122 | One loop step of `failed_requests` appends (code, bucket) exactly when the code is not a success |
| `Aggregator.FailedBucketsEntries` | http_request_aggregator/__init__.py:118-122 | Every entry collected is a stored code that does not start with '2', paired with its bucket unchanged |
| `Aggregator.FailedBucketsAscending` | http_request_aggregator/__init__.py:118-122 | Over ascending keys, the collected codes are strictly ascending |
| `Aggregator.FailedBucketsComplete` | http_request_aggregator/__init__.py:118-122 | Every key that does not start with '2' is collected |
| `Aggregator.HttpRequestAggregator.constructor` | http_request_aggregator/__init__.py:19-31 | Sets the fields, with the master list and the list to process both set to `uris`, then runs one `process()`. It ends with an empty cache, and a store holding exactly the completions the event loop delivered |
| `Aggregator.HttpRequestAggregator.ResetMasterUris` | http_request_aggregator/__init__.py:33-35 | Replaces `masterUris` and changes nothing else: the list to process, the store, the cache and the counter stay as they were |
| `Aggregator.HttpRequestAggregator.Process` | http_request_aggregator/__init__.py:37-41 | Clears the cache and runs on an empty store. The store ends holding exactly the delivered completions. The fetches are those of `fetch_requests` |
| `Aggregator.HttpRequestAggregator.FetchRequests` | http_request_aggregator/__init__.py:43-54 | One fetch per URI of the list to process, in order; GET gives a request for the stripped URI and any other method gives `None`. The counter is raised once per URI, and the k-th fetch sees the count already raised k+1 times. Then the loop runs |
| `Aggregator.HttpRequestAggregator.IssueFetches` | http_request_aggregator/__init__.py:45-53 | One fetch per URI of the list to process, in order, each with `RequestFor` of that URI. The counter is raised once per URI, and the k-th fetch sees the count already raised k+1 times |
| `Aggregator.HttpRequestAggregator.RunLoop` | http_request_aggregator/__init__.py:54 | The loop is released exactly when the in-flight count c satisfies 1 ≤ c ≤ the number of arrivals, and then after exactly c completions. Counter, processed count and store change accordingly |
| `Aggregator.HttpRequestAggregator.HandleRequest` | http_request_aggregator/__init__.py:56-66 | Files the completion as `Deliver` does. It lowers `counter` by one and raises `urisProcessed` by one, so their sum is kept. It signals stop exactly when the counter reaches zero |
| `Aggregator.HttpRequestAggregator.ResponsesSummary` | http_request_aggregator/__init__.py:68-73 | Returns the summary text of the store, one line per bucket in key order (its meaning is `SummaryLines`) |
| `Aggregator.HttpRequestAggregator.FailedRequests` | http_request_aggregator/__init__.py:116-123 | Returns (code, bucket) pairs in strictly ascending code order. It includes exactly the stored codes whose decimal form does not start with '2', each with its bucket unchanged |
| `Aggregator.HttpRequestAggregator.DecodeEach` | http_request_aggregator/__init__.py:95-103 | The per-item fallback re-raises the decode error when some body does not decode, and returns `None` when every body decodes |
| `Aggregator.HttpRequestAggregator.ReturnDataAsJson` | http_request_aggregator/__init__.py:79-105 | A cached value is returned unchanged. Otherwise the result is `Aggregate` of the store, and the cache is set exactly when a text is returned; errors and `None` leave it empty |
| `Aggregator.HttpRequestAggregator.ReturnDataFragments` | http_request_aggregator/__init__.py:107-113 | `return_data(JSON=False)` gives the fragments of the cached or freshly aggregated text. Aggregation errors propagate, and a `None` aggregate is an error. On an empty cache, the aggregate text is cached exactly when it is returned |
| `Aggregator.HttpRequestAggregator.AggregateTwice` | http_request_aggregator/__init__.py:79-81 | Two aggregations with no run in between give the same outcome (with fixed body bytes), and a returned text is left in the cache; when the first call does not return a text, the cache stays empty |
| `Aggregator.ResetThenProcess` | http_request_aggregator/__init__.py:26 | After `reset_master_uris(new)`, `process()` still fetches the URIs given to the constructor, in order |

## Left out

- The Tornado event loop (`IOLoop.start`/`stop`) and `AsyncHTTPClient.fetch` are transport plumbing. The loop is the `arrivals` sequence, and each fetch is only recorded as a `Fetch` value. `arrivals` is not tied to the fetches issued. The model lets it run past the fetches in flight: when the count never reaches zero, every listed completion is handled, including completions for fetches never issued. For example, an empty batch with one arrival ends with `counter == -1` and that response stored, where the original receives no callback at all.
- The module-level client configuration (user agent) and the logging setup are side effects with no bearing on the state. So are all `logger` calls.
- `HTTPRequest` construction details are a foreign call. The model keeps only the stripped URL and the method; it drops auth, timeouts and the user agent. The auth fields are stored but not used further.
- `json.loads` in `return_data(JSON=True)` and `json.dumps` in `aggregated_responses_json` are library JSON parsing and serialisation. The model has no JSON grammar.
- UTF-8 decoding is the abstract parameter `decode`, not a real codec.
- Response bodies are given bytes, not the consumable `resp.buffer` stream. In the original, a second `read()` of a consumed buffer yields empty bytes. So the fallback can see different bytes than the fast path, and its `None` result is reachable after a failed fast path. With fixed bytes it is not.
- `Aggregation.Aggregate`: never yields `None`. This is a consequence of the fixed-bytes model above; the source can return `None` through stream consumption.
- `Aggregator.HttpRequestAggregator.constructor`: when the stop signal never fires (an empty batch, or too few completions), the original never returns from `__init__`. The model returns, with the loop not released and `counter == |uris| - |arrivals|`.
- `Aggregator.HttpRequestAggregator.AggregateTwice`: the equality of the two outcomes holds only with fixed body bytes. In the original, a failed first call drains the buffers, so a second call can decode the drained (empty) bodies, cache a text such as `"[,]"` and return it.
- Aliasing is not modelled. The source stores the caller's `uris` list object itself, so the caller's later mutations of that list show through. `seq` values do not alias.
- `total_uris` is set to `None` and never read; it is kept as a field with no behaviour.
- Concurrency: completions are processed one at a time by the single event-loop thread, so each `HandleRequest` is one atomic step.
