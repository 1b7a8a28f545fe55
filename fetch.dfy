/** What the service makes of the backend's answer to a page request
    (`fetchRecordsFromApi`): a transport failure escapes as an error, a missing body reads
    as no records, and missing elements of the body are dropped. */
module Fetch {
  import opened Wrappers
  import opened TimeRecords

  /** The backend's answer to `GET /records`: either the call throws (connection refused,
      timeout, unreadable body), or it returns a possibly missing array whose elements may
      themselves be missing. */
  datatype Response = Thrown | Returned(body: Option<seq<Option<TimeRecord>>>)

  /** The failure that reaches the caller of a read when the backend call throws. */
  datatype FetchError = BackendUnavailable

  /** The present elements of `xs`, in their original order. */
  function DropNulls(xs: seq<Option<TimeRecord>>): (r: seq<TimeRecord>)
    ensures |r| <= |xs|
    ensures forall t :: t in r <==> Some(t) in xs
    decreases |xs|
  {
    if xs == [] then []
    else
      var rest := DropNulls(xs[1..]);
      assert xs == [xs[0]] + xs[1..];
      match xs[0]
      case None => rest
      case Some(t) => [t] + rest
  }

  /** The records a page read yields for a given backend answer. */
  function FetchRecordsFromApi(response: Response): (r: Result<seq<TimeRecord>, FetchError>)
    ensures r.Failure? <==> response.Thrown?
    ensures response == Returned(None) ==> r == Success([])
    ensures response.Returned? && response.body.Some? ==>
      r.Success? && |r.value| <= |response.body.value| &&
      forall t :: t in r.value <==> Some(t) in response.body.value
  {
    match response
    case Thrown => Failure(BackendUnavailable)
    case Returned(None) => Success([])
    case Returned(Some(elements)) => Success(DropNulls(elements))
  }

  /** Dropping missing elements keeps order: it distributes over concatenation. */
  lemma {:induction false} DropNullsAppend(xs: seq<Option<TimeRecord>>, ys: seq<Option<TimeRecord>>)
    ensures DropNulls(xs + ys) == DropNulls(xs) + DropNulls(ys)
    decreases |xs|
  {
    if xs == [] {
      assert xs + ys == ys;
    } else {
      DropNullsAppend(xs[1..], ys);
      assert (xs + ys)[0] == xs[0];
      assert (xs + ys)[1..] == xs[1..] + ys;
    }
  }

  /** A body with no missing element comes back whole, element by element. */
  lemma {:induction false} DropNullsKeepsPresent(xs: seq<Option<TimeRecord>>)
    requires forall i :: 0 <= i < |xs| ==> xs[i].Some?
    ensures |DropNulls(xs)| == |xs|
    ensures forall i :: 0 <= i < |xs| ==> DropNulls(xs)[i] == xs[i].value
    decreases |xs|
  {
    if xs != [] {
      DropNullsKeepsPresent(xs[1..]);
    }
  }

  /** A read yields an empty page exactly when the backend returns and either the body is
      missing or all of its elements are. */
  lemma EmptyOnlyWhenNothingPresent(response: Response)
    ensures FetchRecordsFromApi(response) == Success([]) <==>
      response.Returned? &&
      (response.body.None? ||
       forall i :: 0 <= i < |response.body.value| ==> response.body.value[i].None?)
  {
    match response
    case Thrown =>
    case Returned(None) =>
    case Returned(Some(elements)) =>
      if DropNulls(elements) != [] {
        assert DropNulls(elements)[0] in DropNulls(elements);
      }
  }
}
