/**
 * The response store: a dictionary from status code to the records received
 * with that code, kept in arrival order. A Python dictionary remembers the order
 * in which its keys were first inserted, so the store is the sequence of codes
 * in that order together with the map from each code to its bucket.
 */
module Responses {
  import opened PyStr
  import opened Sorting

  newtype byte = x: int | 0 <= x < 256
  type Bytes = seq<byte>

  /** What a finished fetch hands to the completion callback. */
  datatype Response = Response(code: int, effectiveUrl: string, body: Bytes)

  /** One entry of a bucket: the whole response for code 200, only the effective URL otherwise. */
  datatype Record = Full(response: Response) | UrlOnly(url: string)

  /** What `handle_request` appends for a response. */
  function RecordOf(r: Response): Record
  {
    if r.code != 200 then UrlOnly(r.effectiveUrl) else Full(r)
  }

  /** The records bucket `code` may hold. */
  ghost predicate Classified(code: int, rec: Record)
  {
    if code == 200 then rec.Full? && rec.response.code == 200 else rec.UrlOnly?
  }

  /** Every code of `codes` has a bucket. */
  predicate Listed(codes: seq<int>, buckets: map<int, seq<Record>>)
  {
    forall i :: 0 <= i < |codes| ==> codes[i] in buckets
  }

  /** The number of records in the buckets of `codes`. */
  function SumCounts(codes: seq<int>, buckets: map<int, seq<Record>>): nat
    requires Listed(codes, buckets)
    decreases |codes|
  {
    if codes == [] then 0
    else SumCounts(codes[..|codes| - 1], buckets) + |buckets[codes[|codes| - 1]]|
  }

  datatype Store = Store(codes: seq<int>, buckets: map<int, seq<Record>>) {

    /**
     * The keys are listed once each, no bucket is empty (a bucket is created
     * together with its first record), and each bucket holds only records of
     * its own kind.
     */
    ghost predicate Valid()
    {
      && Distinct(codes)
      && (forall c :: c in buckets <==> c in codes)
      && Listed(codes, buckets)
      && (forall c :: c in buckets ==> |buckets[c]| >= 1)
      && (forall c, i :: c in buckets && 0 <= i < |buckets[c]| ==> Classified(c, buckets[c][i]))
    }

    /** The bucket of `code`, empty where the dictionary has no such key. */
    function Bucket(code: int): seq<Record>
    {
      if code in buckets then buckets[code] else []
    }

    /** `d[code] = records`: an existing key keeps its place, a new one goes last. */
    function Put(code: int, records: seq<Record>): Store
    {
      Store(if code in buckets then codes else codes + [code], buckets[code := records])
    }

    /** The store update of one `handle_request`: create the bucket if missing, then append. */
    function Deliver(r: Response): Store
    {
      var s := if r.code in buckets then this else Put(r.code, []);
      s.Put(r.code, s.buckets[r.code] + [RecordOf(r)])
    }

    /** The number of records stored, over all buckets. */
    function Total(): nat
      requires Listed(codes, buckets)
    {
      SumCounts(codes, buckets)
    }
  }

  /** `{}` */
  const Empty: Store := Store([], map[])

  /** The store after `rs` arrive, one `handle_request` each, in order. */
  function DeliverAll(s: Store, rs: seq<Response>): Store
    decreases |rs|
  {
    if rs == [] then s else DeliverAll(s, rs[..|rs| - 1]).Deliver(rs[|rs| - 1])
  }

  /** One more arrival: the step of the event loop. */
  lemma DeliverAllSnoc(s: Store, rs: seq<Response>, i: nat)
    requires i < |rs|
    ensures DeliverAll(s, rs[..i + 1]) == DeliverAll(s, rs[..i]).Deliver(rs[i])
  {
    assert rs[..i + 1][..i] == rs[..i];
  }

  /** The records `rs` produce for bucket `code`, in arrival order. */
  function RecordsWithCode(rs: seq<Response>, code: int): seq<Record>
    decreases |rs|
  {
    if rs == [] then []
    else RecordsWithCode(rs[..|rs| - 1], code)
         + (if rs[|rs| - 1].code == code then [RecordOf(rs[|rs| - 1])] else [])
  }

  lemma {:induction false} SumCountsFrame(codes: seq<int>, b1: map<int, seq<Record>>, b2: map<int, seq<Record>>)
    requires Listed(codes, b1) && Listed(codes, b2)
    requires forall i :: 0 <= i < |codes| ==> |b1[codes[i]]| == |b2[codes[i]]|
    ensures SumCounts(codes, b1) == SumCounts(codes, b2)
    decreases |codes|
  {
    if codes != [] {
      SumCountsFrame(codes[..|codes| - 1], b1, b2);
    }
  }

  /** Appending one record to one listed bucket adds one to the count. */
  lemma {:induction false} SumCountsBump(codes: seq<int>, b: map<int, seq<Record>>, k: int, x: Record)
    requires Distinct(codes) && k in codes
    requires Listed(codes, b)
    ensures SumCounts(codes, b[k := b[k] + [x]]) == SumCounts(codes, b) + 1
    decreases |codes|
  {
    var n := |codes|;
    var pre := codes[..n - 1];
    assert forall c :: c in pre ==> c in codes;
    if codes[n - 1] == k {
      assert k !in pre;
      SumCountsFrame(pre, b[k := b[k] + [x]], b);
    } else {
      assert k in pre;
      SumCountsBump(pre, b, k, x);
    }
  }

  lemma DeliverValid(s: Store, r: Response)
    requires s.Valid()
    ensures s.Deliver(r).Valid()
  {
    var t := s.Deliver(r);
    var k := r.code;
    if k !in s.buckets {
      assert t.codes == s.codes + [k];
      assert Distinct(t.codes) by {
        forall i, j | 0 <= i < j < |t.codes| ensures t.codes[i] != t.codes[j] {
          if j == |s.codes| {
            assert t.codes[i] == s.codes[i];
          }
        }
      }
    }
    assert forall c :: c in t.buckets <==> c in t.codes;
    forall c, i | c in t.buckets && 0 <= i < |t.buckets[c]| ensures Classified(c, t.buckets[c][i]) {
      if c == k && i == |t.buckets[c]| - 1 {
        assert t.buckets[c][i] == RecordOf(r);
      } else if c == k {
        assert t.buckets[c][i] == s.buckets[c][i];
      }
    }
  }

  lemma DeliverListed(s: Store, r: Response)
    requires Listed(s.codes, s.buckets)
    ensures Listed(s.Deliver(r).codes, s.Deliver(r).buckets)
  {
  }

  lemma DeliverCount(s: Store, r: Response)
    requires Distinct(s.codes) && Listed(s.codes, s.buckets)
    requires forall c :: c in s.buckets ==> c in s.codes
    ensures Listed(s.Deliver(r).codes, s.Deliver(r).buckets)
    ensures s.Deliver(r).Total() == s.Total() + 1
  {
    DeliverListed(s, r);
    var k, x := r.code, RecordOf(r);
    if k in s.buckets {
      assert s.Deliver(r) == Store(s.codes, s.buckets[k := s.buckets[k] + [x]]);
      SumCountsBump(s.codes, s.buckets, k, x);
    } else {
      var bs := s.buckets[k := []];
      var cs := s.codes + [k];
      assert s.Deliver(r) == Store(cs, bs[k := bs[k] + [x]]);
      NewKeyCount(s.codes, s.buckets, k);
      assert Distinct(cs);
      SumCountsBump(cs, bs, k, x);
    }
  }

  lemma NewKeyCount(codes: seq<int>, b: map<int, seq<Record>>, k: int)
    requires Listed(codes, b) && k !in codes
    ensures Listed(codes + [k], b[k := []])
    ensures SumCounts(codes + [k], b[k := []]) == SumCounts(codes, b)
  {
    var cs := codes + [k];
    var bs := b[k := []];
    SumCountsFrame(codes, bs, b);
    assert cs[..|codes|] == codes;
  }

  /**
   * One completion: bucket `r.code` is created only if it was missing, gets
   * exactly one record appended (the response for 200, its effective URL
   * otherwise), every other bucket stays as it was, and the record count goes
   * up by one.
   */
  lemma DeliverAppendsOne(s: Store, r: Response)
    requires s.Valid()
    ensures s.Deliver(r).Valid()
    ensures r.code in s.buckets ==> s.Deliver(r).codes == s.codes
    ensures r.code !in s.buckets ==> s.Deliver(r).codes == s.codes + [r.code]
    ensures s.Deliver(r).Bucket(r.code) == s.Bucket(r.code) + [RecordOf(r)]
    ensures forall c :: c != r.code ==> s.Deliver(r).Bucket(c) == s.Bucket(c)
    ensures s.Deliver(r).Total() == s.Total() + 1
  {
    DeliverValid(s, r);
    DeliverCount(s, r);
    var t := s.Deliver(r);
    assert t.Bucket(r.code) == s.Bucket(r.code) + [RecordOf(r)];
    forall c | c != r.code
      ensures t.Bucket(c) == s.Bucket(c)
    {
      assert c in t.buckets <==> c in s.buckets;
    }
  }

  /**
   * A run of completions: the store stays well formed, each bucket receives
   * exactly the records of its code in arrival order, and the record count
   * grows by the number of completions.
   */
  lemma {:induction false} DeliverAllBuckets(s: Store, rs: seq<Response>)
    requires s.Valid()
    ensures DeliverAll(s, rs).Valid()
    ensures forall c :: DeliverAll(s, rs).Bucket(c) == s.Bucket(c) + RecordsWithCode(rs, c)
    ensures DeliverAll(s, rs).Total() == s.Total() + |rs|
    decreases |rs|
  {
    if rs != [] {
      var pre := rs[..|rs| - 1];
      DeliverAllBuckets(s, pre);
      DeliverAppendsOne(DeliverAll(s, pre), rs[|rs| - 1]);
    }
  }

  /** The line of the summary for one bucket, without its newline: `f"{code}: {n}"`. */
  function Line(code: int, count: nat): (r: string)
    ensures '\n' !in r
  {
    DecString(code) + ": " + DecString(count)
  }

  /** The summary's lines, one per key in key order. */
  function Lines(codes: seq<int>, buckets: map<int, seq<Record>>): seq<string>
    requires Listed(codes, buckets)
  {
    seq(|codes|, i requires 0 <= i < |codes| => Line(codes[i], |buckets[codes[i]]|))
  }

  /** What `responses_summary` accumulates: one `"code: n\n"` per key, in key order. */
  function Summary(codes: seq<int>, buckets: map<int, seq<Record>>): (r: string)
    requires Listed(codes, buckets)
    ensures r == "" <==> codes == []
    ensures r != "" ==> r[|r| - 1] == '\n'
  {
    Terminated(Lines(codes, buckets), '\n')
  }

  /** One more key: the loop step of `responses_summary`. */
  lemma SummarySnoc(codes: seq<int>, buckets: map<int, seq<Record>>, i: nat)
    requires Listed(codes, buckets) && i < |codes|
    ensures Listed(codes[..i], buckets) && Listed(codes[..i + 1], buckets)
    ensures Summary(codes[..i + 1], buckets)
            == Summary(codes[..i], buckets) + Line(codes[i], |buckets[codes[i]]|) + "\n"
  {
    var done := codes[..i + 1];
    assert Listed(done, buckets);
    assert Lines(done, buckets) == Lines(codes[..i], buckets) + [Line(codes[i], |buckets[codes[i]]|)];
  }

  /**
   * Reading the summary back line by line gives one `"code: n"` line per key,
   * in key order, and nothing after the final newline.
   */
  lemma SummaryLines(codes: seq<int>, buckets: map<int, seq<Record>>)
    requires Listed(codes, buckets)
    ensures Split(Summary(codes, buckets), '\n') == Lines(codes, buckets) + [""]
  {
    var ls := Lines(codes, buckets) + [""];
    forall i | 0 <= i < |ls|
      ensures '\n' !in ls[i]
    {
    }
    TerminatedJoin(Lines(codes, buckets), '\n');
    SplitJoin(ls, '\n');
  }
}
