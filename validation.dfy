/** `Validate.All`: check several results at once, with no short-circuit,
    and gather their errors under one new error
    (AdventOfCode/Common/Validate.cs). */
module Validation {
  import opened Optional
  import opened Errors
  import opened Results

  const ValidateFile := "AdventOfCode/Common/Validate.cs"

  /** The error of a failing result, nothing for a success. */
  function Failed<T>(r: Result<T>): (es: seq<Error>)
    ensures es == [] <==> r.Success?
  {
    if r.Failure? then [r.error] else []
  }

  /** `new Error(id, message)[e1, e2]` as written: the indexer is handed one
      entry per slot, null for a succeeding one. */
  function Gather<T>(id: string, message: string, slots: seq<Option<Error>>, line: int): (o: Outcome<Result<T>>)
    ensures None in slots ==> o == Threw(NullReference)
    ensures None !in slots ==>
              o == Returned(Failure(Error(Some(id), [message], None, Present(slots), Origin(ValidateFile, line, "All")), None))
  {
    var created := Create(Some(id), Some([message]), None, None, Origin(ValidateFile, line, "All"));
    assert created == Returned(Error(Some(id), [message], None, [], Origin(ValidateFile, line, "All")));
    var nested := Nest(created.value, Some(slots));
    assert None !in slots ==> nested.Returned? && nested.value.nested == Present(slots) by {
      assert [] + Present(slots) == Present(slots);
    }
    match nested
    case Returned(e) => Returned(Failure(e, None))
    case Threw(x) => Threw(x)
  }

  /** `Validate.All(id, message, r1, r2)` as written (Validate.cs:16-28). */
  function All2AsWritten<T1, T2>(id: string, message: string, r1: Result<T1>, r2: Result<T2>)
    : Outcome<Result<(T1, T2)>>
  {
    var (v1, e1) := Deconstruct(r1);
    var (v2, e2) := Deconstruct(r2);
    if e1.Some? || e2.Some? then
      Gather(id, message, [e1, e2], 26)
    else
      Returned(Success((v1.value, v2.value)))
  }

  /** `Validate.All` with two results, keeping only the errors of the
      failing slots: every slot is checked; the pair of values when both
      succeed, otherwise one error with the given id and message nesting the
      failing slots' errors, untagged, in slot order. */
  function All2<T1, T2>(id: string, message: string, r1: Result<T1>, r2: Result<T2>): (t: Result<(T1, T2)>)
    ensures t.Success? <==> r1.Success? && r2.Success?
    ensures t.Success? ==> t.value == (r1.value, r2.value)
    ensures t.Failure? ==> t.error.id == Some(id) && t.error.messages == [message] && t.cause == None
    ensures t.Failure? ==> t.error.nested == Failed(r1) + Failed(r2)
  {
    var (v1, e1) := Deconstruct(r1);
    var (v2, e2) := Deconstruct(r2);
    if e1.Some? || e2.Some? then
      Failure(Error(Some(id), [message], None, Failed(r1) + Failed(r2), Origin(ValidateFile, 26, "All")), None)
    else
      Success((v1.value, v2.value))
  }

  /** As written, a mix of failing and succeeding slots ends in a null
      reference: the error constructor renders the null entry. Where every
      slot fails, or none does, the two agree. */
  lemma All2AsWrittenSpec<T1, T2>(id: string, message: string, r1: Result<T1>, r2: Result<T2>)
    ensures r1.Success? != r2.Success? ==> All2AsWritten(id, message, r1, r2) == Threw(NullReference)
    ensures r1.Success? == r2.Success? ==> All2AsWritten(id, message, r1, r2) == Returned(All2(id, message, r1, r2))
  {
    var e1, e2 := Deconstruct(r1).1, Deconstruct(r2).1;
    if r1.Failure? || r2.Failure? {
      assert All2AsWritten(id, message, r1, r2) == Gather(id, message, [e1, e2], 26);
      if r1.Failure? && r2.Failure? {
        assert [e1, e2] == [e1] + [e2];
        PresentConcat([e1], [e2]);
        SlotFailed(r1);
        SlotFailed(r2);
      } else {
        assert None in [e1, e2];
      }
    }
  }

  /** One failing check next to one passing check, with no null in sight in
      the inputs, already throws as written. */
  lemma All2AsWrittenExample()
    ensures var e := Error(Some("0"), ["Unknown row type 'X'."], None, [], Origin("", 0, ""));
            All2AsWritten<int, int>("Ticket", "invalid", Failure(e, None), Success(5)) == Threw(NullReference)
  {
    var e := Error(Some("0"), ["Unknown row type 'X'."], None, [], Origin("", 0, ""));
    All2AsWrittenSpec<int, int>("Ticket", "invalid", Failure(e, None), Success(5));
  }

  /** `Validate.All` with seven results as written (Validate.cs:35-57). */
  function All7AsWritten<T1, T2, T3, T4, T5, T6, T7>(id: string, message: string,
    r1: Result<T1>, r2: Result<T2>, r3: Result<T3>, r4: Result<T4>,
    r5: Result<T5>, r6: Result<T6>, r7: Result<T7>): Outcome<Result<(T1, T2, T3, T4, T5, T6, T7)>>
  {
    var (v1, e1) := Deconstruct(r1);
    var (v2, e2) := Deconstruct(r2);
    var (v3, e3) := Deconstruct(r3);
    var (v4, e4) := Deconstruct(r4);
    var (v5, e5) := Deconstruct(r5);
    var (v6, e6) := Deconstruct(r6);
    var (v7, e7) := Deconstruct(r7);
    if e1.Some? || e2.Some? || e3.Some? || e4.Some? || e5.Some? || e6.Some? || e7.Some? then
      Gather(id, message, [e1, e2, e3, e4, e5, e6, e7], 55)
    else
      Returned(Success((v1.value, v2.value, v3.value, v4.value, v5.value, v6.value, v7.value)))
  }

  /** `Validate.All` with seven results, keeping only the failing slots' errors. */
  function All7<T1, T2, T3, T4, T5, T6, T7>(id: string, message: string,
    r1: Result<T1>, r2: Result<T2>, r3: Result<T3>, r4: Result<T4>,
    r5: Result<T5>, r6: Result<T6>, r7: Result<T7>): (t: Result<(T1, T2, T3, T4, T5, T6, T7)>)
    ensures t.Success? <==> r1.Success? && r2.Success? && r3.Success? && r4.Success?
                            && r5.Success? && r6.Success? && r7.Success?
    ensures t.Success? ==> t.value == (r1.value, r2.value, r3.value, r4.value, r5.value, r6.value, r7.value)
    ensures t.Failure? ==> t.error.id == Some(id) && t.error.messages == [message] && t.cause == None
    ensures t.Failure? ==>
              t.error.nested == Failed(r1) + Failed(r2) + Failed(r3) + Failed(r4)
                                + Failed(r5) + Failed(r6) + Failed(r7)
  {
    var (v1, e1) := Deconstruct(r1);
    var (v2, e2) := Deconstruct(r2);
    var (v3, e3) := Deconstruct(r3);
    var (v4, e4) := Deconstruct(r4);
    var (v5, e5) := Deconstruct(r5);
    var (v6, e6) := Deconstruct(r6);
    var (v7, e7) := Deconstruct(r7);
    if e1.Some? || e2.Some? || e3.Some? || e4.Some? || e5.Some? || e6.Some? || e7.Some? then
      Failure(Error(Some(id), [message], None,
                    Failed(r1) + Failed(r2) + Failed(r3) + Failed(r4) + Failed(r5) + Failed(r6) + Failed(r7),
                    Origin(ValidateFile, 55, "All")), None)
    else
      Success((v1.value, v2.value, v3.value, v4.value, v5.value, v6.value, v7.value))
  }

  /** The error half of `var (v, e) = result`, as a list. */
  lemma SlotFailed<T>(r: Result<T>)
    ensures Present([Deconstruct(r).1]) == Failed(r)
  {
    assert [Deconstruct(r).1][1..] == [];
  }

  /** As written, seven slots of which some but not all fail end in a null
      reference. */
  lemma All7AsWrittenMixed<T1, T2, T3, T4, T5, T6, T7>(id: string, message: string,
    r1: Result<T1>, r2: Result<T2>, r3: Result<T3>, r4: Result<T4>,
    r5: Result<T5>, r6: Result<T6>, r7: Result<T7>)
    requires r1.Failure? || r2.Failure? || r3.Failure? || r4.Failure? || r5.Failure? || r6.Failure? || r7.Failure?
    requires r1.Success? || r2.Success? || r3.Success? || r4.Success? || r5.Success? || r6.Success? || r7.Success?
    ensures All7AsWritten(id, message, r1, r2, r3, r4, r5, r6, r7) == Threw(NullReference)
  {
    var slots := [Deconstruct(r1).1, Deconstruct(r2).1, Deconstruct(r3).1, Deconstruct(r4).1,
                  Deconstruct(r5).1, Deconstruct(r6).1, Deconstruct(r7).1];
    assert None in slots;
    assert All7AsWritten(id, message, r1, r2, r3, r4, r5, r6, r7)
           == Gather(id, message, slots, 55);
  }

  /** As written, seven failing slots give what `All7` gives. */
  lemma All7AsWrittenAllFail<T1, T2, T3, T4, T5, T6, T7>(id: string, message: string,
    r1: Result<T1>, r2: Result<T2>, r3: Result<T3>, r4: Result<T4>,
    r5: Result<T5>, r6: Result<T6>, r7: Result<T7>)
    requires r1.Failure? && r2.Failure? && r3.Failure? && r4.Failure? && r5.Failure? && r6.Failure? && r7.Failure?
    ensures All7AsWritten(id, message, r1, r2, r3, r4, r5, r6, r7)
            == Returned(All7(id, message, r1, r2, r3, r4, r5, r6, r7))
  {
    var e1, e2, e3, e4, e5, e6, e7 := Deconstruct(r1).1, Deconstruct(r2).1, Deconstruct(r3).1,
      Deconstruct(r4).1, Deconstruct(r5).1, Deconstruct(r6).1, Deconstruct(r7).1;
    var slots := [e1, e2, e3, e4, e5, e6, e7];
    assert All7AsWritten(id, message, r1, r2, r3, r4, r5, r6, r7) == Gather(id, message, slots, 55);
    PresentSeven(e1, e2, e3, e4, e5, e6, e7);
    SlotFailed(r1);
    SlotFailed(r2);
    SlotFailed(r3);
    SlotFailed(r4);
    SlotFailed(r5);
    SlotFailed(r6);
    SlotFailed(r7);
  }
}
