/** The `Error` record of AdventOfCode/Common/Error.cs, the exceptions the
    core can raise, and the explicit form of "returns a value or throws"
    that the rest of the model is written in. */
module Errors {
  import opened Optional
  import opened Strings

  /** Where an error was created (CallerInfo: file path, line, member). */
  datatype Origin = Origin(filePath: string, lineNumber: int, memberName: string)

  /** The value that caused an error or failure, kept for diagnostics only
      (C#: a boxed `object`). */
  datatype Payload =
    | StringValue(s: string)
    | CharValue(c: char)
    | LinesValue(lines: seq<string>)
    | NumbersValue(numbers: seq<int>)

  /** An error: optional id, its messages, the offending value, the errors
      nested under it and where it was created. */
  datatype Error = Error(id: Option<string>, messages: seq<string>, value: Option<Payload>,
                         nested: seq<Error>, origin: Origin)

  /** The exceptions the core throws or lets escape. */
  datatype Exception =
    | ArgumentNull(paramName: string)
    | NullReference
    | IndexOutOfRange
    | Format
    | DivideByZero
    | InvalidOperation(message: string)
    | KeyNotFound
      /** Recursion deeper than the stack allows; the process ends. */
    | StackOverflow
      /** The short-circuit signal of the awaiters, caught by the result builder. */
    | ErrorException(error: Error)
      /** An `Error` thrown as an exception in its own right. */
    | BareError(error: Error)

  /** What a C# call does: return a value or throw. */
  datatype Outcome<+T> = Returned(value: T) | Threw(exception: Exception)

  /** Sequential composition: run `k` on the value, or pass the exception on. */
  function Then<T, U>(o: Outcome<T>, k: T -> Outcome<U>): Outcome<U>
  {
    match o
    case Returned(v) => k(v)
    case Threw(x) => Threw(x)
  }

  /** `new Error(id, messages, value, nested)` called from `origin`
      (Error.cs:31-47). The base constructor renders the whole tree for the
      exception message before any field is set, so a missing nested entry
      fails there, ahead of the check on the message; a missing nested array
      means no nested errors. */
  function Create(id: Option<string>, messages: Option<seq<string>>, value: Option<Payload>,
                  nested: Option<seq<Option<Error>>>, origin: Origin): (r: Outcome<Error>)
    ensures nested.Some? && None in nested.value ==> r == Threw(NullReference)
    ensures (nested.None? || None !in nested.value) && messages.None? ==> r == Threw(ArgumentNull("message"))
    ensures r.Returned? <==> messages.Some? && (nested.None? || None !in nested.value)
    ensures r.Returned? ==>
              && r.value.id == id && r.value.messages == messages.value
              && r.value.value == value && r.value.origin == origin
    ensures r.Returned? && nested.None? ==> r.value.nested == []
    ensures r.Returned? && nested.Some? ==> Lift(r.value.nested) == nested.value
  {
    if nested.Some? && None in nested.value then Threw(NullReference)
    else if messages.None? then Threw(ArgumentNull("message"))
    else
      var children := if nested.None? then [] else Present(nested.value);
      assert nested.Some? ==> Lift(children) == nested.value by {
        if nested.Some? {
          PresentNoneFree(nested.value);
        }
      }
      Returned(Error(id, messages.value, value, children, origin))
  }

  /** With no entry missing, filtering keeps every entry in place. */
  lemma {:induction false} PresentNoneFree<T>(xs: seq<Option<T>>)
    requires None !in xs
    ensures Lift(Present(xs)) == xs
  {
    if xs != [] {
      assert xs[0] in xs;
      assert None !in xs[1..] by { assert forall x | x in xs[1..] :: x in xs; }
      PresentNoneFree(xs[1..]);
      assert Present(xs) == [xs[0].value] + Present(xs[1..]);
      LiftCons(xs[0].value, Present(xs[1..]));
      assert xs == [xs[0]] + xs[1..];
    }
  }

  /** The indexer `error[nested...]` (Error.cs:55-63): a copy of the error
      with `added` appended to its nested errors; id, messages, value and
      origin are kept. */
  function Nest(e: Error, added: Option<seq<Option<Error>>>): (r: Outcome<Error>)
    ensures added.None? ==> r == Threw(ArgumentNull("nested"))
    ensures added.Some? && None in added.value ==> r == Threw(NullReference)
    ensures added.Some? && None !in added.value ==>
              r == Returned(e.(nested := e.nested + Present(added.value)))
  {
    if added.None? then Threw(ArgumentNull("nested"))
    else
      var r := Create(e.id, Some(e.messages), e.value, Some(Lift(e.nested) + added.value), e.origin);
      assert None !in added.value ==> r == Returned(e.(nested := e.nested + Present(added.value))) by {
        if None !in added.value {
          assert None !in Lift(e.nested) + added.value;
          PresentConcat(Lift(e.nested), added.value);
          PresentAll(e.nested);
          PresentNoneFree(Lift(e.nested) + added.value);
        }
      }
      r
  }

  /** The text after the optional "[id]: " prefix. Error.cs keeps one
      message; several are written one per line, two columns deeper. */
  function MessageText(messages: seq<string>, indent: nat): string
  {
    Join("\n" + Pad(indent + 2), messages)
  }

  /** The error's own line: indentation, then "[id]: " when there is an id. */
  function Head(e: Error, indent: nat): string
  {
    Pad(indent) + (if e.id.None? then MessageText(e.messages, indent)
                   else "[" + e.id.value + "]: " + MessageText(e.messages, indent))
  }

  /** The private `ToString(id, message, nested, indent)` (Error.cs:111-117):
      the own line, then each nested error rendered two columns deeper, all
      separated by newlines. */
  function Render(e: Error, indent: nat): string
    decreases e, 1
  {
    if |e.nested| == 0 then Head(e, indent)
    else Head(e, indent) + "\n" + Join("\n", RenderNested(e, indent))
  }

  /** The nested errors of `e`, each rendered two columns deeper. */
  function RenderNested(e: Error, indent: nat): (rs: seq<string>)
    ensures |rs| == |e.nested|
    decreases e, 0
  {
    seq(|e.nested|, i requires 0 <= i < |e.nested| => Render(e.nested[i], indent + 2))
  }

  /** `error.ToString()` (Error.cs:97-98). */
  function ToString(e: Error): (s: string)
    ensures s == Join("\n", Lines(e, 0))
  {
    RenderLines(e, 0);
    Render(e, 0)
  }

  /** The exception message built by the constructor (Error.cs:126-130):
      a fixed header naming where the error was created, then the error
      rendered at indentation 2. */
  function ExceptionString(e: Error): (s: string)
    ensures s == "An Error was thrown as an exception\n  on " + e.origin.filePath + ":line "
      + IntToString(e.origin.lineNumber) + "\n" + Join("\n", Lines(e, 2))
  {
    RenderLines(e, 2);
    "An Error was thrown as an exception\n  on " + e.origin.filePath
      + ":line " + IntToString(e.origin.lineNumber) + "\n" + Render(e, 2)
  }

  /** Reference definition of the rendering: the lines of the tree in
      preorder, each nested error two columns deeper than its parent. */
  function Lines(e: Error, indent: nat): (ls: seq<string>)
    ensures |ls| >= 1 && ls[0] == Head(e, indent)
    decreases e, 1
  {
    [Head(e, indent)] + Concat(LinesNested(e, indent))
  }

  function LinesNested(e: Error, indent: nat): (lss: seq<seq<string>>)
    ensures |lss| == |e.nested|
    decreases e, 0
  {
    seq(|e.nested|, i requires 0 <= i < |e.nested| => Lines(e.nested[i], indent + 2))
  }

  /** The number of errors in a tree, itself included. */
  function Size(e: Error): (n: nat)
    decreases e, 1
  {
    1 + Sum(SizesNested(e))
  }

  function SizesNested(e: Error): (ns: seq<nat>)
    ensures |ns| == |e.nested|
    decreases e, 0
  {
    seq(|e.nested|, i requires 0 <= i < |e.nested| => Size(e.nested[i]))
  }

  function Sum(xs: seq<nat>): nat
  {
    if xs == [] then 0 else xs[0] + Sum(xs[1..])
  }

  lemma {:induction false} ConcatLength(xss: seq<seq<string>>, lengths: seq<nat>)
    requires |lengths| == |xss|
    requires forall i | 0 <= i < |xss| :: |xss[i]| == lengths[i]
    ensures |Concat(xss)| == Sum(lengths)
  {
    if xss != [] {
      ConcatLength(xss[1..], lengths[1..]);
    }
  }

  lemma {:induction false} InConcat(x: string, xss: seq<seq<string>>)
    requires x in Concat(xss)
    ensures exists j | 0 <= j < |xss| :: x in xss[j]
  {
    if xss != [] && x !in xss[0] {
      InConcat(x, xss[1..]);
      var j :| 0 <= j < |xss[1..]| && x in xss[1..][j];
      assert x in xss[j + 1];
    }
  }

  /** Rendering is joining the preorder lines with newlines. */
  lemma {:induction false} RenderLines(e: Error, indent: nat)
    ensures Render(e, indent) == Join("\n", Lines(e, indent))
    decreases e
  {
    var n := |e.nested|;
    var groups := LinesNested(e, indent);
    if n > 0 {
      var rendered := RenderNested(e, indent);
      forall i | 0 <= i < n ensures rendered[i] == Join("\n", groups[i]) {
        RenderLines(e.nested[i], indent + 2);
      }
      JoinConcat("\n", groups);
      assert rendered == seq(n, i requires 0 <= i < n => Join("\n", groups[i]));
      assert |Concat(groups)| > 0 by { assert Concat(groups) == groups[0] + Concat(groups[1..]); }
      JoinAppend("\n", [Head(e, indent)], Concat(groups));
      assert Join("\n", [Head(e, indent)]) == Head(e, indent);
    } else {
      assert groups == [];
    }
  }

  /** The rendering has one entry per error of the tree. */
  lemma {:induction false} LinesCount(e: Error, indent: nat)
    ensures |Lines(e, indent)| == Size(e)
    decreases e
  {
    var groups := LinesNested(e, indent);
    var sizes := SizesNested(e);
    forall i | 0 <= i < |e.nested| ensures |groups[i]| == sizes[i] {
      LinesCount(e.nested[i], indent + 2);
    }
    ConcatLength(groups, sizes);
  }

  /** A line indented by two more columns is indented by `indent` too. */
  lemma Shallower(l: string, indent: nat)
    requires |l| >= indent + 2 && l[..indent + 2] == Pad(indent + 2)
    ensures |l| >= indent && l[..indent] == Pad(indent)
  {
    assert l[..indent] == l[..indent + 2][..indent];
    assert Pad(indent + 2)[..indent] == Pad(indent);
  }

  lemma HeadIndented(e: Error, indent: nat)
    ensures |Head(e, indent)| >= indent && Head(e, indent)[..indent] == Pad(indent)
  {
    var rest := if e.id.None? then MessageText(e.messages, indent)
      else "[" + e.id.value + "]: " + MessageText(e.messages, indent);
    assert Head(e, indent) == Pad(indent) + rest;
    assert (Pad(indent) + rest)[..indent] == Pad(indent);
  }

  /** A line of a nested group is indented two columns deeper. */
  lemma NestedLine(e: Error, indent: nat, l: string) returns (j: nat)
    requires l in Concat(LinesNested(e, indent))
    ensures j < |e.nested| && l in Lines(e.nested[j], indent + 2)
  {
    var groups := LinesNested(e, indent);
    InConcat(l, groups);
    j :| 0 <= j < |e.nested| && l in groups[j];
  }

  /** Every line of an error rendered at `indent` starts with `indent` spaces. */
  lemma {:induction false} LinesIndented(e: Error, indent: nat)
    ensures forall l | l in Lines(e, indent) :: |l| >= indent && l[..indent] == Pad(indent)
    decreases e
  {
    forall l | l in Lines(e, indent) ensures |l| >= indent && l[..indent] == Pad(indent) {
      if l == Head(e, indent) {
        HeadIndented(e, indent);
      } else {
        var j := NestedLine(e, indent, l);
        LinesIndented(e.nested[j], indent + 2);
        Shallower(l, indent);
      }
    }
  }
}
