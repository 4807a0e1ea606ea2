/** The helper extensions of AdventOfCode/Common/Extensions.cs: folding a
    collection of results, appending to a success, and rule validation. */
module Extensions {
  import opened Optional
  import opened Errors
  import opened Results

  const ExtensionsFile := "AdventOfCode/Common/Extensions.cs"

  /** One step of the fold in `Flatten` (Extensions.cs:43-63); `None` is the
      fold's `default` seed. The first failure starts a new error with the
      given id and message, holding the whole input as its value; later
      failures are nested into it; successes after a failure change nothing. */
  function FlattenStep<T>(id: string, message: string, shown: Payload,
                          total: Option<Result<seq<T>>>, r: Result<T>): Result<seq<T>>
  {
    match total
    case None =>
      (match r
       case Success(v) => Success([v])
       case Failure(e, _) => Failure(Error(Some(id), [message], Some(shown), [e], Origin(ExtensionsFile, 60, "Flatten")), None))
    case Some(Success(vs)) =>
      (match r
       case Success(v) => Add(Success(vs), r)
       case Failure(e, _) => Failure(Error(Some(id), [message], Some(shown), [e], Origin(ExtensionsFile, 49, "Flatten")), None))
    case Some(Failure(acc, cause)) =>
      (match r
       case Success(_) => Failure(acc, cause)
       case Failure(e, _) => Failure(acc.(nested := acc.nested + [e]), cause))
  }

  /** `results.Flatten(id, message)` (Extensions.cs:39-64); `shown` is the
      input as the error's offending value. An empty input leaves the fold at
      its seed: no result at all. */
  function Flatten<T>(rs: seq<Result<T>>, id: string, message: string, shown: Payload): Option<Result<seq<T>>>
  {
    if rs == [] then None
    else Some(FlattenStep(id, message, shown, Flatten(rs[..|rs| - 1], id, message, shown), rs[|rs| - 1]))
  }

  /** `Flatten` gives the values in input order when every element succeeds,
      and otherwise one error with the given id and message nesting every
      failing element's error in input order. */
  lemma {:induction false} FlattenSpec<T>(rs: seq<Result<T>>, id: string, message: string, shown: Payload)
    ensures Flatten(rs, id, message, shown).None? <==> rs == []
    ensures rs != [] ==> (Flatten(rs, id, message, shown).value.Success? <==> AllSucceed(rs))
    ensures rs != [] && AllSucceed(rs) ==> Flatten(rs, id, message, shown).value.value == Values(rs)
    ensures rs != [] && !AllSucceed(rs) ==>
              var e := Flatten(rs, id, message, shown).value.error;
              && e.id == Some(id) && e.messages == [message] && e.value == Some(shown)
              && e.nested == FailedErrors(rs)
  {
    if rs != [] {
      var p := rs[..|rs| - 1];
      FlattenSpec(p, id, message, shown);
      assert AllSucceed(rs) <==> AllSucceed(p) && rs[|rs| - 1].Success? by {
        assert forall i | 0 <= i < |p| :: p[i] == rs[i];
      }
    }
  }

  /** `success.Add(s)` (Extensions.cs:72-73): the values with `s`'s value
      appended at the end. */
  function Add<T>(success: Result<seq<T>>, s: Result<T>): (r: Result<seq<T>>)
    requires success.Success? && s.Success?
    ensures r.Success? && |r.value| == |success.value| + 1
    ensures r.value[..|success.value|] == success.value && r.value[|success.value|] == s.value
  {
    Success(success.value + [s.value])
  }

  /** `value.Success()` (Extensions.cs:81-82). */
  function Succeed<T>(value: T): (r: Result<T>)
    ensures Await(r) == Returned(value)
  {
    Success(value)
  }

  /** A rule: a predicate that fires on a bad value, and its message. */
  type Validator<!T> = (T -> bool, string)

  /** The messages of the validators whose predicate holds for `value`, in
      validator order (the `Where`/`Select` of Extensions.cs:96-99). */
  function Firing<T>(value: T, validators: seq<Validator<T>>): (messages: seq<string>)
    ensures |messages| <= |validators|
  {
    if validators == [] then []
    else (if validators[0].0(value) then [validators[0].1] else []) + Firing(value, validators[1..])
  }

  /** Reference definition: each validator's message where it fires, filtered. */
  function Marked<T>(value: T, validators: seq<Validator<T>>): seq<Option<string>>
  {
    seq(|validators|, i requires 0 <= i < |validators| =>
      if validators[i].0(value) then Some(validators[i].1) else None)
  }

  lemma {:induction false} FiringIsFilter<T>(value: T, validators: seq<Validator<T>>)
    ensures Firing(value, validators) == Present(Marked(value, validators))
    ensures Firing(value, validators) == [] <==> forall i | 0 <= i < |validators| :: !validators[i].0(value)
  {
    if validators != [] {
      FiringIsFilter(value, validators[1..]);
      assert Marked(value, validators)[1..] == Marked(value, validators[1..]);
      assert forall i | 1 <= i < |validators| :: validators[i] == validators[1..][i - 1];
    }
  }

  /** `value.Validate(id, validators)` (Extensions.cs:91-104): the value
      unchanged when no rule fires, otherwise one error with the id, the
      messages of exactly the rules that fire, in order, and the value. */
  function Validate<T>(value: T, id: string, validators: seq<Validator<T>>, shown: Payload): (r: Result<T>)
    ensures r.Success? <==> forall i | 0 <= i < |validators| :: !validators[i].0(value)
    ensures r.Success? ==> r.value == value
    ensures r.Failure? ==>
              && r.error.id == Some(id) && r.error.messages == Present(Marked(value, validators))
              && r.error.value == Some(shown) && r.error.nested == []
  {
    FiringIsFilter(value, validators);
    var messages := Firing(value, validators);
    if |messages| > 0 then Failure(Error(Some(id), messages, Some(shown), [], Origin(ExtensionsFile, 102, "Validate")), None)
    else Succeed(value)
  }

  /** `dictionary.ContainsKeyAndValue(key)` (Extensions.cs:112-115); a missing
      value is C#'s null. */
  function ContainsKeyAndValue<K, V>(dictionary: map<K, Option<V>>, key: K): bool
  {
    key in dictionary && dictionary[key].Some?
  }

  /** Storing a value under a key decides the check there by whether the
      value is present; every other key answers as before. */
  lemma ContainsAfterStore<K, V>(dictionary: map<K, Option<V>>, key: K, value: Option<V>, other: K)
    ensures ContainsKeyAndValue(dictionary[key := value], key) <==> value.Some?
    ensures other != key ==>
              ContainsKeyAndValue(dictionary[key := value], other) == ContainsKeyAndValue(dictionary, other)
  {
  }
}
