/** `Result<T>` with its two cases, the three awaiters that let an async
    method `await` results, the async method builder that turns the method
    body back into a result, and the `Result.From` helpers
    (AdventOfCode/Common/Result.cs). */
module Results {
  import opened Optional
  import opened Strings
  import opened Errors

  const ResultFile := "AdventOfCode/Common/Result.cs"

  /** A value, or an error with the value that caused it. */
  datatype Result<+T> = Success(value: T) | Failure(error: Error, cause: Option<Payload>)

  /** `var (value, error) = result` (Result.cs:26-43): exactly one of the two
      is present, the value on success and the error on failure. */
  function Deconstruct<T>(r: Result<T>): (parts: (Option<T>, Option<Error>))
    ensures parts.0.Some? <==> parts.1.None?
    ensures parts.0.Some? <==> r.Success?
    ensures r.Success? ==> parts.0.value == r.value
    ensures r.Failure? ==> parts.1.value == r.error
  {
    match r
    case Success(v) => (Some(v), None)
    case Failure(e, _) => (None, Some(e))
  }

  /** `new Error(id, nested: [e])`: an error that only names where `e` came from. */
  function Tag(id: string, e: Error, origin: Origin): Error
  {
    Error(Some(id), [], None, [e], origin)
  }

  /** A tagged error renders as a line "[id]: " with the original error
      rendered two columns deeper beneath it. */
  lemma TagRender(id: string, e: Error, origin: Origin, indent: nat)
    ensures Render(Tag(id, e, origin), indent) == Pad(indent) + "[" + id + "]: " + "\n" + Render(e, indent + 2)
  {
    var t := Tag(id, e, origin);
    var r := Render(e, indent + 2);
    var h := "[" + id + "]: ";
    assert MessageText([], indent) == "";
    assert Head(t, indent) == Pad(indent) + h by {
      assert h + "" == h;
    }
    assert RenderNested(t, indent) == [r];
    assert Join("\n", [r]) == r;
    assert Pad(indent) + h == Pad(indent) + "[" + id + "]: ";
  }

  /** Tagging adds exactly one error to the tree. */
  lemma TagSize(id: string, e: Error, origin: Origin)
    ensures Size(Tag(id, e, origin)) == Size(e) + 1
  {
    var t := Tag(id, e, origin);
    assert SizesNested(t) == [Size(e)];
    assert Sum([Size(e)]) == Size(e) + Sum([]);
  }

  /** `await result` (ResultAwaiter.GetResult, Result.cs:127-133): the value
      of a success; a failure short-circuits with its error. */
  function Await<T>(r: Result<T>): (o: Outcome<T>)
    ensures o.Returned? <==> r.Success?
    ensures r.Success? ==> o.value == r.value
    ensures r.Failure? ==> o.exception == ErrorException(r.error)
  {
    match r
    case Success(v) => Returned(v)
    case Failure(e, _) => Threw(ErrorException(e))
  }

  /** `await (id, result)` (ImplicitResultAwaiter.GetResult, Result.cs:304-310):
      as `Await`, but the error is first nested under the id. */
  function AwaitTagged<T>(id: string, r: Result<T>): (o: Outcome<T>)
    ensures o.Returned? <==> r.Success?
    ensures r.Success? ==> o.value == r.value
    ensures r.Failure? ==> o.exception == ErrorException(Tag(id, r.error, Origin(ResultFile, 308, "GetResult")))
  {
    match r
    case Success(v) => Returned(v)
    case Failure(e, _) => Threw(ErrorException(Tag(id, e, Origin(ResultFile, 308, "GetResult"))))
  }

  /** What the async method builder makes of a method body that returned or
      threw: `SetResult` (Result.cs:408-409) wraps the value in a success,
      `SetException` (Result.cs:388-400) turns the awaiters' short-circuit into
      a failure and rethrows every other exception. */
  function Settle<T>(body: Outcome<T>): Outcome<Result<T>>
  {
    match body
    case Returned(v) => Returned(Success(v))
    case Threw(ErrorException(e)) => Returned(Failure(e, None))
    case Threw(x) => Threw(x)
  }

  /** ResultAsyncMethodBuilder (Result.cs:342-459): the result it holds. */
  class ResultBuilder<T> {
    /** The "task": no result until the method body completes. */
    var task: Option<Result<T>>

    constructor ()
      ensures task == None
    {
      task := None;
    }

    /** `SetResult(result)` (Result.cs:408-409). */
    method SetResult(result: T)
      modifies this
      ensures task == Some(Success(result))
    {
      task := Some(Success(result));
    }

    /** `SetException(exception)` (Result.cs:388-400): the awaiters'
        short-circuit becomes a failure; any other exception is handed back
        to be rethrown, and the `Task` is left as it was. */
    method SetException(exception: Exception) returns (rethrown: Option<Exception>)
      modifies this
      ensures exception.ErrorException? ==> task == Some(Failure(exception.error, None)) && rethrown == None
      ensures !exception.ErrorException? ==> task == old(task) && rethrown == Some(exception)
    {
      if exception.ErrorException? {
        task := Some(Failure(exception.error, None));
        rethrown := None;
      } else {
        rethrown := Some(exception);
      }
    }
  }

  /** An async method returning `Result<T>`: the body runs to completion or
      throws, and a fresh builder receives what happened. */
  method RunAsync<T>(body: Outcome<T>) returns (r: Outcome<Result<T>>)
    ensures r == Settle(body)
    ensures r.Returned? <==> body.Returned? || body.exception.ErrorException?
  {
    var builder := new ResultBuilder<T>();
    match body
    case Returned(v) =>
      builder.SetResult(v);
      r := Returned(builder.task.value);
    case Threw(x) =>
      var rethrown := builder.SetException(x);
      if rethrown.Some? {
        r := Threw(rethrown.value);
      } else {
        r := Returned(builder.task.value);
      }
  }

  /** `await r;` followed by the rest of an async method, `k`. */
  function Bind<T, U>(r: Result<T>, k: T -> Outcome<U>): Outcome<Result<U>>
  {
    Settle(Then(Await(r), k))
  }

  /** Awaiting a success continues with its value. */
  lemma BindSuccess<T, U>(v: T, k: T -> Outcome<U>)
    ensures Bind(Success(v), k) == Settle(k(v))
  {
  }

  /** Awaiting a failure ends the method with that failure's error, whatever
      follows; the offending value is not carried over. */
  lemma BindFailure<T, U>(e: Error, cause: Option<Payload>, k: T -> Outcome<U>)
    ensures Bind(Failure(e, cause), k) == Returned(Failure(e, None))
  {
  }

  /** `return await r;` gives back r, less a failure's offending value. */
  lemma BindReturn<T>(r: Result<T>)
    ensures Bind(r, (v: T) => Returned(v)) == Returned(if r.Success? then r else Failure(r.error, None))
  {
  }

  /** Only the short-circuit is caught: any other exception leaves the method. */
  lemma SettleRethrows<T>(x: Exception)
    requires !x.ErrorException?
    ensures Settle<T>(Threw(x)) == Threw(x)
  {
  }

  /** `Result.From(id, result)` (Result.cs:476-484): a success is kept, a
      failure's error is nested under the id. */
  function From<T>(id: string, r: Result<T>): (t: Result<T>)
    ensures t.Success? <==> r.Success?
    ensures r.Success? ==> t == r
    ensures r.Failure? ==> t == Failure(Tag(id, r.error, Origin(ResultFile, 482, "From")), None)
  {
    match r
    case Success(_) => r
    case Failure(e, _) => Failure(Tag(id, e, Origin(ResultFile, 482, "From")), None)
  }

  /** `Result.From(id, action)` (Result.cs:468-471): run the action, then tag
      its result; an exception from the action passes through. */
  function FromAction<T>(id: string, action: () -> Outcome<Result<T>>): (o: Outcome<Result<T>>)
    ensures action().Returned? ==> o == Returned(From(id, action().value))
    ensures action().Threw? ==> o == Threw(action().exception)
  {
    Then(action(), (r: Result<T>) => Returned(From(id, r)))
  }

  /** The tagged error of a failing slot of `Result.From((id, r), ...)`,
      nothing for a succeeding one. */
  function Tagged<T>(id: string, r: Result<T>): (es: seq<Error>)
  {
    if r.Failure? then [Tag(id, r.error, Origin(ResultFile, 482, "From"))] else []
  }

  /** `Result.From((id1, r1), (id2, r2))` (Result.cs:491-501): every slot is
      evaluated; the tuple of values when both succeed, otherwise one failure
      holding the tagged errors of the failing slots in slot order. */
  /** The error half of `var (v, e) = Result.From(id, r)`, as a list. */
  lemma SlotTagged<T>(id: string, r: Result<T>)
    ensures Present([Deconstruct(From(id, r)).1]) == Tagged(id, r)
  {
    assert [Deconstruct(From(id, r)).1][1..] == [];
  }

  lemma PresentSeven<E>(e1: Option<E>, e2: Option<E>, e3: Option<E>, e4: Option<E>,
                        e5: Option<E>, e6: Option<E>, e7: Option<E>)
    ensures Present([e1, e2, e3, e4, e5, e6, e7])
            == Present([e1]) + Present([e2]) + Present([e3]) + Present([e4])
               + Present([e5]) + Present([e6]) + Present([e7])
  {
    assert [e1, e2, e3, e4, e5, e6, e7] == [e1] + [e2] + [e3] + [e4] + [e5] + [e6] + [e7];
    PresentConcat([e1] + [e2] + [e3] + [e4] + [e5] + [e6], [e7]);
    PresentConcat([e1] + [e2] + [e3] + [e4] + [e5], [e6]);
    PresentConcat([e1] + [e2] + [e3] + [e4], [e5]);
    PresentConcat([e1] + [e2] + [e3], [e4]);
    PresentConcat([e1] + [e2], [e3]);
    PresentConcat([e1], [e2]);
  }

  function From2<T1, T2>(id1: string, r1: Result<T1>, id2: string, r2: Result<T2>): (t: Result<(T1, T2)>)
    ensures t.Success? <==> r1.Success? && r2.Success?
    ensures t.Success? ==> t.value == (r1.value, r2.value)
    ensures t.Failure? ==> t.error.id == None && t.error.messages == [] && t.cause == None
    ensures t.Failure? ==> t.error.nested == Tagged(id1, r1) + Tagged(id2, r2)
  {
    var (v1, e1) := Deconstruct(From(id1, r1));
    var (v2, e2) := Deconstruct(From(id2, r2));
    if e1.Some? || e2.Some? then
      assert Present([e1, e2]) == Tagged(id1, r1) + Tagged(id2, r2) by {
        assert [e1, e2] == [e1] + [e2];
        PresentConcat([e1], [e2]);
        SlotTagged(id1, r1);
        SlotTagged(id2, r2);
      }
      Failure(Error(None, [], None, Present([e1, e2]), Origin(ResultFile, 499, "From")), None)
    else
      Success((v1.value, v2.value))
  }

  /** `Result.From` over seven slots (Result.cs:508-528), as `From2`. */
  function From7<T1, T2, T3, T4, T5, T6, T7>(
    id1: string, r1: Result<T1>, id2: string, r2: Result<T2>, id3: string, r3: Result<T3>,
    id4: string, r4: Result<T4>, id5: string, r5: Result<T5>, id6: string, r6: Result<T6>,
    id7: string, r7: Result<T7>): (t: Result<(T1, T2, T3, T4, T5, T6, T7)>)
    ensures t.Success? <==> r1.Success? && r2.Success? && r3.Success? && r4.Success?
                            && r5.Success? && r6.Success? && r7.Success?
    ensures t.Success? ==> t.value == (r1.value, r2.value, r3.value, r4.value, r5.value, r6.value, r7.value)
    ensures t.Failure? ==> t.error.id == None && t.error.messages == [] && t.cause == None
    ensures t.Failure? ==>
              t.error.nested == Tagged(id1, r1) + Tagged(id2, r2) + Tagged(id3, r3)
                                + Tagged(id4, r4) + Tagged(id5, r5) + Tagged(id6, r6) + Tagged(id7, r7)
  {
    var (v1, e1) := Deconstruct(From(id1, r1));
    var (v2, e2) := Deconstruct(From(id2, r2));
    var (v3, e3) := Deconstruct(From(id3, r3));
    var (v4, e4) := Deconstruct(From(id4, r4));
    var (v5, e5) := Deconstruct(From(id5, r5));
    var (v6, e6) := Deconstruct(From(id6, r6));
    var (v7, e7) := Deconstruct(From(id7, r7));
    if e1.Some? || e2.Some? || e3.Some? || e4.Some? || e5.Some? || e6.Some? || e7.Some? then
      var slots := [e1, e2, e3, e4, e5, e6, e7];
      assert Present(slots) == Tagged(id1, r1) + Tagged(id2, r2) + Tagged(id3, r3)
              + Tagged(id4, r4) + Tagged(id5, r5) + Tagged(id6, r6) + Tagged(id7, r7) by {
        PresentSeven(e1, e2, e3, e4, e5, e6, e7);
        SlotTagged(id1, r1);
        SlotTagged(id2, r2);
        SlotTagged(id3, r3);
        SlotTagged(id4, r4);
        SlotTagged(id5, r5);
        SlotTagged(id6, r6);
        SlotTagged(id7, r7);
      }
      Failure(Error(None, [], None, Present(slots), Origin(ResultFile, 526, "From")), None)
    else
      Success((v1.value, v2.value, v3.value, v4.value, v5.value, v6.value, v7.value))
  }

  /** Every result is a success. */
  predicate AllSucceed<T>(rs: seq<Result<T>>)
  {
    forall i | 0 <= i < |rs| :: rs[i].Success?
  }

  /** The values of the successes, in order. */
  function Values<T>(rs: seq<Result<T>>): (vs: seq<T>)
    ensures AllSucceed(rs) ==> |vs| == |rs| && forall i | 0 <= i < |rs| :: vs[i] == rs[i].value
  {
    if rs == [] then []
    else
      var p := rs[..|rs| - 1];
      assert AllSucceed(rs) ==> AllSucceed(p) by {
        assert forall i | 0 <= i < |p| :: p[i] == rs[i];
      }
      Values(p) + (if rs[|rs| - 1].Success? then [rs[|rs| - 1].value] else [])
  }

  /** The errors of the failures, in order. */
  function FailedErrors<T>(rs: seq<Result<T>>): (es: seq<Error>)
    ensures es == [] <==> AllSucceed(rs)
  {
    if rs == [] then []
    else
      var p := rs[..|rs| - 1];
      assert AllSucceed(rs) <==> AllSucceed(p) && rs[|rs| - 1].Success? by {
        assert forall i | 0 <= i < |p| :: p[i] == rs[i];
      }
      FailedErrors(p) + (if rs[|rs| - 1].Failure? then [rs[|rs| - 1].error] else [])
  }

  /** One step of the fold in the collection awaiter as written
      (EnumerableResultAwaiter.GetResult, Result.cs:201-222); `None` is the
      fold's `default` seed. When two failures meet, the new one's own data
      replaces the accumulated failure. */
  function CollectStepAsWritten<T>(total: Option<Result<seq<T>>>, r: Result<T>): Result<seq<T>>
  {
    match total
    case None =>
      (match r
       case Success(v) => Success([v])
       case Failure(e, _) => Failure(Error(None, [], None, [e], Origin(ResultFile, 219, "GetResult")), None))
    case Some(Success(vs)) =>
      (match r
       case Success(v) => Success(vs + [v])
       case Failure(e, _) => Failure(Error(None, [], None, [e], Origin(ResultFile, 207, "GetResult")), None))
    case Some(Failure(acc, cause)) =>
      (match r
       case Success(_) => Failure(acc, cause)
       case Failure(e, _) =>
         Failure(Error(e.id, e.messages, e.value, e.nested + [e], Origin(ResultFile, 212, "GetResult")), None))
  }

  /** The left fold of the awaiter as written; `None` for no elements. */
  function CollectAsWritten<T>(rs: seq<Result<T>>): Option<Result<seq<T>>>
  {
    if rs == [] then None
    else Some(CollectStepAsWritten(CollectAsWritten(rs[..|rs| - 1]), rs[|rs| - 1]))
  }

  /** `await results` on a collection, as written (Result.cs:199-230): an
      empty collection leaves the fold at null, whose `GetType()` throws; a
      failure is thrown as the bare error rather than as the short-circuit
      `ErrorException`. */
  function AwaitAllAsWritten<T>(rs: seq<Result<T>>): Outcome<seq<T>>
  {
    match CollectAsWritten(rs)
    case None => Threw(NullReference)
    case Some(Success(vs)) => Returned(vs)
    case Some(Failure(e, _)) => Threw(BareError(e))
  }

  /** One step of the corrected fold: a further failure's error is nested
      into the accumulated failure, as `Flatten` does (Extensions.cs:54). */
  function CollectStep<T>(total: Option<Result<seq<T>>>, r: Result<T>): Result<seq<T>>
  {
    match total
    case None =>
      (match r
       case Success(v) => Success([v])
       case Failure(e, _) => Failure(Error(None, [], None, [e], Origin(ResultFile, 219, "GetResult")), None))
    case Some(Success(vs)) =>
      (match r
       case Success(v) => Success(vs + [v])
       case Failure(e, _) => Failure(Error(None, [], None, [e], Origin(ResultFile, 207, "GetResult")), None))
    case Some(Failure(acc, cause)) =>
      (match r
       case Success(_) => Failure(acc, cause)
       case Failure(e, _) => Failure(acc.(nested := acc.nested + [e]), cause))
  }

  function Collect<T>(rs: seq<Result<T>>): Option<Result<seq<T>>>
  {
    if rs == [] then None
    else Some(CollectStep(Collect(rs[..|rs| - 1]), rs[|rs| - 1]))
  }

  /** The corrected fold collects every value when all succeed, and every
      failing element's error, in order, when any fails. */
  lemma {:induction false} CollectSpec<T>(rs: seq<Result<T>>)
    ensures Collect(rs).None? <==> rs == []
    ensures rs != [] ==> (Collect(rs).value.Success? <==> AllSucceed(rs))
    ensures rs != [] && AllSucceed(rs) ==> Collect(rs).value.value == Values(rs)
    ensures rs != [] && !AllSucceed(rs) ==>
              var e := Collect(rs).value.error;
              e.id == None && e.messages == [] && e.value == None && e.nested == FailedErrors(rs)
  {
    if rs != [] {
      var p := rs[..|rs| - 1];
      CollectSpec(p);
      assert AllSucceed(rs) <==> AllSucceed(p) && rs[|rs| - 1].Success? by {
        assert forall i | 0 <= i < |p| :: p[i] == rs[i];
      }
    }
  }

  /** `await results` on a collection, corrected: the values of an empty or
      all-successful collection; otherwise the short-circuit with one error
      holding every failing element's error, in order. */
  function AwaitAll<T>(rs: seq<Result<T>>): (o: Outcome<seq<T>>)
    ensures AllSucceed(rs) ==> o == Returned(Values(rs))
    ensures !AllSucceed(rs) ==> o.Threw? && o.exception.ErrorException?
    ensures !AllSucceed(rs) ==>
              var e := o.exception.error;
              e.id == None && e.messages == [] && e.value == None && e.nested == FailedErrors(rs)
  {
    CollectSpec(rs);
    match Collect(rs)
    case None => Returned([])
    case Some(Success(vs)) => Returned(vs)
    case Some(Failure(e, _)) => Threw(ErrorException(e))
  }

  /** In an async method, awaiting a collection either continues with all
      the values or ends the method with a failure listing every failing
      element's error. */
  lemma AwaitAllInAsync<T, U>(rs: seq<Result<T>>, k: seq<T> -> Outcome<U>)
    ensures AllSucceed(rs) ==> Settle(Then(AwaitAll(rs), k)) == Settle(k(Values(rs)))
    ensures !AllSucceed(rs) ==>
              var o := Settle(Then(AwaitAll(rs), k));
              o.Returned? && o.value.Failure? && o.value.error.nested == FailedErrors(rs)
  {
  }

  /** An async method whose whole body awaits a collection: the values as a
      success when every element succeeded, element by element; otherwise a
      failure listing every failing element's error. */
  lemma SettleAll<T>(rs: seq<Result<T>>)
    ensures Settle(AwaitAll(rs)).Returned?
    ensures AllSucceed(rs) ==> Settle(AwaitAll(rs)).value == Success(Values(rs))
    ensures AllSucceed(rs) ==> forall i | 0 <= i < |rs| :: rs[i] == Success(Values(rs)[i])
    ensures !AllSucceed(rs) ==>
              Settle(AwaitAll(rs)).value.Failure? && Settle(AwaitAll(rs)).value.error.nested == FailedErrors(rs)
  {
    var o := AwaitAll(rs);
    if AllSucceed(rs) {
      var vs := Values(rs);
      assert o == Returned(vs);
      assert Settle(o) == Returned(Success(vs));
      forall i | 0 <= i < |rs| ensures rs[i] == Success(vs[i]) {
        assert vs[i] == rs[i].value;
      }
    } else {
      assert o.Threw? && o.exception.ErrorException?;
      assert Settle(o) == Returned(Failure(o.exception.error, None));
    }
  }

  /** As written, a failing element sinks the fold: the result stays a failure. */
  lemma {:induction false} CollectAsWrittenFails<T>(rs: seq<Result<T>>)
    requires !AllSucceed(rs)
    ensures CollectAsWritten(rs).Some? && CollectAsWritten(rs).value.Failure?
  {
    var p := rs[..|rs| - 1];
    if rs[|rs| - 1].Success? {
      assert !AllSucceed(p) by {
        var i :| 0 <= i < |rs| && rs[i].Failure?;
        assert p[i] == rs[i];
      }
      CollectAsWrittenFails(p);
    }
  }

  /** As written, awaiting a collection with a failing element inside an
      async method does not end in a failure: the bare error escapes the
      builder, whatever follows the await. */
  lemma AwaitAllAsWrittenEscapes<T, U>(rs: seq<Result<T>>, k: seq<T> -> Outcome<U>)
    requires !AllSucceed(rs)
    ensures Settle(Then(AwaitAllAsWritten(rs), k)).Threw?
    ensures Settle(Then(AwaitAllAsWritten(rs), k)).exception.BareError?
  {
    CollectAsWrittenFails(rs);
  }

  /** As written, awaiting an empty collection throws; corrected, it gives
      no values. */
  lemma AwaitAllEmpty<T>()
    ensures AwaitAllAsWritten<T>([]) == Threw(NullReference)
    ensures AwaitAll<T>([]) == Returned([])
  {
  }

  /** As written, when two failures meet only the later one survives; the
      corrected fold keeps both. */
  lemma CollectDropsEarlierFailure<T>(e1: Error, e2: Error)
    ensures CollectAsWritten<T>([Failure(e1, None), Failure(e2, None)])
            == Some(Failure(Error(e2.id, e2.messages, e2.value, e2.nested + [e2], Origin(ResultFile, 212, "GetResult")), None))
    ensures Collect<T>([Failure(e1, None), Failure(e2, None)]).value.error.nested == [e1, e2]
  {
    var rs: seq<Result<T>> := [Failure(e1, None), Failure(e2, None)];
    assert rs[..1] == [Failure(e1, None)];
    assert rs[..1][..0] == [];
    assert Collect(rs[..1]) == Some(Failure(Error(None, [], None, [e1], Origin(ResultFile, 219, "GetResult")), None));
  }

  /** A concrete pair of failures whose first error disappears as written. */
  lemma CollectDropsEarlierFailureExample()
    ensures var e1 := Error(Some("0"), ["a"], None, [], Origin("", 0, ""));
            var e2 := Error(Some("1"), ["b"], None, [], Origin("", 0, ""));
            var kept := CollectAsWritten<int>([Failure(e1, None), Failure(e2, None)]).value.error;
            kept != e1 && e1 !in kept.nested
  {
    var e1 := Error(Some("0"), ["a"], None, [], Origin("", 0, ""));
    var e2 := Error(Some("1"), ["b"], None, [], Origin("", 0, ""));
    CollectDropsEarlierFailure<int>(e1, e2);
    assert e1 != e2;
  }

  /** Where the input is non-empty and every element succeeds, the awaiter as
      written and the corrected one agree. */
  lemma {:induction false} CollectAgreesOnSuccess<T>(rs: seq<Result<T>>)
    requires AllSucceed(rs)
    ensures CollectAsWritten(rs) == Collect(rs)
    ensures rs != [] ==> AwaitAllAsWritten(rs) == AwaitAll(rs)
  {
    if rs != [] {
      var p := rs[..|rs| - 1];
      assert AllSucceed(p) by { assert forall i | 0 <= i < |p| :: p[i] == rs[i]; }
      CollectAgreesOnSuccess(p);
      CollectSpec(rs);
    }
  }
}
