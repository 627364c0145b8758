/**
 * What `return_data_as_json` computes from the 200 bucket, and what the
 * fragment mode of `return_data` makes of it.
 */
module Aggregation {
  import opened Wrappers
  import opened PyStr
  import opened Responses

  /** The errors aggregation raises to its caller. */
  datatype Error =
    | NoSuccessfulResponses  // no 200 bucket: the local list stays unbound and that error is re-raised
    | DecodeError            // a body is not valid UTF-8: the decode error is re-raised
    | NoneAggregate          // the fragment mode slices the None the fallback returns

  /** How one call of `return_data_as_json` ends. */
  datatype Outcome = Returned(text: string) | ReturnedNone | Raised(error: Error)

  /** `"[%s]" % s` */
  function Bracket(s: string): string
  {
    "[" + s + "]"
  }

  predicate AllFull(records: seq<Record>)
  {
    forall i :: 0 <= i < |records| ==> records[i].Full?
  }

  /** The bodies of the 200 records, in bucket order. */
  function Bodies(records: seq<Record>): seq<Bytes>
    requires AllFull(records)
  {
    seq(|records|, i requires 0 <= i < |records| => records[i].response.body)
  }

  /**
   * The list comprehension of the fast path: every body decoded, in order, or
   * None as soon as one body does not decode.
   */
  function DecodeAll(decode: Bytes -> Option<string>, bodies: seq<Bytes>): (r: Option<seq<string>>)
    ensures r.Some? <==> forall i :: 0 <= i < |bodies| ==> decode(bodies[i]).Some?
    ensures r.Some? ==> |r.value| == |bodies|
    ensures r.Some? ==> forall i :: 0 <= i < |bodies| ==> r.value[i] == decode(bodies[i]).value
    decreases |bodies|
  {
    if bodies == [] then Some([])
    else match decode(bodies[0])
      case None => None
      case Some(t) =>
        match DecodeAll(decode, bodies[1..])
        case None => None
        case Some(ts) => Some([t] + ts)
  }

  /**
   * The result of aggregating a store whose cache is empty: no 200 bucket
   * raises, a body that does not decode raises, and otherwise the decoded
   * bodies, in bucket order, joined with commas inside brackets.
   */
  function Aggregate(store: Store, decode: Bytes -> Option<string>): (r: Outcome)
    requires store.Valid()
    ensures r == Raised(NoSuccessfulResponses) <==> 200 !in store.buckets
    ensures r.Returned? <==> 200 in store.buckets
                             && forall i :: 0 <= i < |store.buckets[200]| ==>
                                  decode(store.buckets[200][i].response.body).Some?
    ensures r != ReturnedNone
  {
    if 200 !in store.buckets then Raised(NoSuccessfulResponses)
    else
      var records := store.buckets[200];
      assert forall i :: 0 <= i < |records| ==> Classified(200, records[i]);
      assert forall i :: 0 <= i < |records| ==> Bodies(records)[i] == records[i].response.body;
      match DecodeAll(decode, Bodies(records))
      case Some(texts) => Returned(Bracket(Join(texts, ',')))
      case None => Raised(DecodeError)
  }

  /** Fragment mode: `[f"{r}" for r in s[1:-1].split(',')]`. */
  function Fragments(s: string): (r: seq<string>)
    ensures |r| >= 1
    ensures Join(r, ',') == Inner(s)
  {
    Split(Inner(s), ',')
  }

  /** The fragment mode of `return_data` on the outcome of `return_data_as_json`. */
  function FragmentsOf(o: Outcome): (r: Result<seq<string>, Error>)
    ensures r.Success? <==> o.Returned?
    ensures r.Success? ==> |r.value| >= 1 && Join(r.value, ',') == Inner(o.text)
    ensures o.ReturnedNone? ==> r == Failure(NoneAggregate)
    ensures o.Raised? ==> r == Failure(o.error)
  {
    match o
    case Returned(t) => Success(Fragments(t))
    case ReturnedNone => Failure(NoneAggregate)
    case Raised(e) => Failure(e)
  }

  lemma {:induction false} CountPositive(s: string, c: char)
    requires c in s
    ensures Count(s, c) > 0
    decreases |s|
  {
    if s[0] != c {
      CountPositive(s[1..], c);
    }
  }

  lemma {:induction false} CountAllZero(parts: seq<string>, c: char)
    ensures CountAll(parts, c) == 0 <==> forall i :: 0 <= i < |parts| ==> c !in parts[i]
    decreases |parts|
  {
    if parts != [] {
      CountAllZero(parts[1..], c);
      if c in parts[0] {
        CountPositive(parts[0], c);
      } else {
        CountAbsent(parts[0], c);
      }
      assert forall i :: 1 <= i < |parts| ==> parts[i] == parts[1..][i - 1];
    }
  }

  /**
   * Fragment mode undoes the aggregation's join exactly when no body holds a
   * comma; every comma inside a body adds one more fragment.
   */
  lemma FragmentsOfJoin(texts: seq<string>)
    requires |texts| >= 1
    ensures |Fragments(Bracket(Join(texts, ',')))| == |texts| + CountAll(texts, ',')
    ensures Fragments(Bracket(Join(texts, ','))) == texts <==> forall i :: 0 <= i < |texts| ==> ',' !in texts[i]
  {
    var j := Join(texts, ',');
    assert Inner(Bracket(j)) == j;
    SplitLength(j, ',');
    JoinCount(texts, ',');
    CountAllZero(texts, ',');
    if forall i :: 0 <= i < |texts| ==> ',' !in texts[i] {
      SplitJoin(texts, ',');
    }
  }

  /**
   * When aggregation succeeds, fragment mode gives one fragment per 200
   * record plus one per comma inside the bodies, and gives back exactly the
   * decoded bodies, in bucket order, when none of them holds a comma.
   */
  lemma AggregateFragments(store: Store, decode: Bytes -> Option<string>)
    requires store.Valid() && Aggregate(store, decode).Returned?
    ensures var records := store.buckets[200];
            assert forall i :: 0 <= i < |records| ==> Classified(200, records[i]);
            var texts := DecodeAll(decode, Bodies(records)).value;
            && |Fragments(Aggregate(store, decode).text)| == |records| + CountAll(texts, ',')
            && (Fragments(Aggregate(store, decode).text) == texts
                <==> forall i :: 0 <= i < |texts| ==> ',' !in texts[i])
  {
    var records := store.buckets[200];
    assert forall i :: 0 <= i < |records| ==> Classified(200, records[i]);
    var texts := DecodeAll(decode, Bodies(records)).value;
    FragmentsOfJoin(texts);
  }
}
