/**
 The conversational form: a state machine driven by a language model whose every answer is
 arbitrary and may fail. A run is the sequence of events its turns leave behind.
 */
module Forms {
  import opened Wrappers
  import opened Collections

  datatype State = Incomplete | Complete | WaitConfirm | Closed

  datatype Value = Null | Text(text: string) | Other(json: string)

  type Model = map<string, Value>

  /** A call to the language model, or to code that uses it. */
  datatype Oracle<T> = Answers(answer: T) | Fails

  /** An error of the validator; one about the model as a whole names no field. */
  datatype FieldError = FieldError(field: Option<string>, missing: bool, message: string)
  {
    predicate IsMissing() {
      field.Some? && missing
    }

    predicate IsWrong() {
      field.Some? && !missing
    }

    function Text(): string
      requires field.Some?
    {
      field.value + ": " + message
    }
  }

  /** What validating the model comes to: it passes, it has errors, or the validator itself breaks. */
  datatype Verdict = Passes | Invalid(errors: seq<FieldError>) | Breaks

  /** The answers of one turn, in the order they are asked for. */
  datatype Turn = Turn(confirm: Oracle<bool>, exitOnRefusal: Oracle<bool>, exit: Oracle<bool>,
                       extracted: Oracle<Model>, verdict: Verdict, submitRaises: bool)

  datatype Event =
    | Confirmed(yes: bool)
    | Changed(model: Model)
    | Passed(model: Model)
    | Submitted(model: Model)
    | Ended(state: State)

  datatype Form = Form(state: State, model: Model, errors: seq<string>, missingFields: seq<string>)

  const NewForm := Form(Incomplete, map[], [], [])

  predicate NullLike(value: Value) {
    value.Null? || (value.Text? && value.text in ["", "None", "null", "lower-case", "unknown", "missing"])
  }

  function Sanitize(model: Model): Model {
    map key | key in model && !NullLike(model[key]) :: model[key]
  }

  // ---------- Validation ----------

  /** The fields that are wrong rather than missing, in order. */
  function WrongFields(errors: seq<FieldError>): seq<string> {
    if errors == [] then []
    else WrongFields(errors[..|errors| - 1]) + (if errors[|errors| - 1].IsWrong() then [errors[|errors| - 1].field.value] else [])
  }

  function MissingNames(errors: seq<FieldError>): seq<string> {
    if errors == [] then []
    else MissingNames(errors[..|errors| - 1]) + (if errors[|errors| - 1].IsMissing() then [errors[|errors| - 1].field.value] else [])
  }

  function Messages(errors: seq<FieldError>): seq<string> {
    if errors == [] then []
    else
      var e := errors[|errors| - 1];
      Messages(errors[..|errors| - 1]) + (if e.IsWrong() then [e.Text()] else [])
  }

  /** How many errors can be recorded before one names no field or a deletion from the model fails. */
  function Recorded(model: Model, errors: seq<FieldError>): (n: nat)
    ensures n <= |errors|
  {
    if errors == [] then 0
    else if errors[0].field.None? || (errors[0].IsWrong() && errors[0].field.value !in model) then 0
    else 1 + Recorded(if errors[0].IsWrong() then model - {errors[0].field.value} else model, errors[1..])
  }

  predicate AllRecorded(model: Model, errors: seq<FieldError>) {
    Recorded(model, errors) == |errors|
  }

  lemma {:induction false} WrongFieldsFront(errors: seq<FieldError>)
    requires errors != []
    ensures WrongFields(errors) == (if errors[0].IsWrong() then [errors[0].field.value] else []) + WrongFields(errors[1..])
  {
    if |errors| > 1 {
      WrongFieldsFront(errors[..|errors| - 1]);
      assert errors[..|errors| - 1][1..] == errors[1..][..|errors| - 2];
    }
  }

  lemma DistinctFront(first: string, rest: seq<string>)
    ensures NoDuplicates([first] + rest) <==> first !in rest && NoDuplicates(rest)
  {
    var all := [first] + rest;
    assert all[0] == first;
    assert forall i | 0 < i < |all| :: all[i] == rest[i - 1];
    if NoDuplicates(all) {
      forall i, j | 0 <= i < j < |rest|
        ensures rest[i] != rest[j]
      {
        assert all[i + 1] != all[j + 1];
      }
      forall i | 0 <= i < |rest|
        ensures rest[i] != first
      {
        assert all[0] != all[i + 1];
      }
    }
  }

  /**
   Recording the errors succeeds exactly when each of them names a field, and every wrong field is in
   the model and named once.
   */
  lemma {:induction false} RecordingSucceeds(model: Model, errors: seq<FieldError>)
    ensures AllRecorded(model, errors) <==>
            (&& (forall e | e in errors :: e.field.Some?)
             && (forall f | f in WrongFields(errors) :: f in model) && NoDuplicates(WrongFields(errors)))
  {
    if errors != [] {
      var first, rest := errors[0], WrongFields(errors[1..]);
      WrongFieldsFront(errors);
      assert forall e :: e in errors <==> e == first || e in errors[1..];
      if first.IsWrong() {
        var field := first.field.value;
        RecordingSucceeds(model - {field}, errors[1..]);
        DistinctFront(field, rest);
        assert forall f :: f in [field] + rest <==> f == field || f in rest;
      } else {
        RecordingSucceeds(model, errors[1..]);
        assert [] + rest == rest;
      }
    }
  }

  lemma NothingRecorded(model: Model, found: seq<FieldError>)
    ensures found[0..] == found && WrongFields(found[..0]) == MissingNames(found[..0]) == Messages(found[..0]) == []
    ensures found == [] ==> Recorded(model, found) == 0
  {
  }

  /** What recording one more error adds to the lists. */
  lemma OneMoreRecorded(model: Model, found: seq<FieldError>, i: nat)
    requires i < |found|
    ensures var e := found[i];
            && MissingNames(found[..i + 1]) == MissingNames(found[..i]) + (if e.IsMissing() then [e.field.value] else [])
            && Messages(found[..i + 1]) == Messages(found[..i]) + (if e.IsWrong() then [e.Text()] else [])
            && Elements(WrongFields(found[..i + 1])) == Elements(WrongFields(found[..i])) + (if e.IsWrong() then {e.field.value} else {})
            && Recorded(model, found[i..]) ==
               (if e.field.None? || (e.IsWrong() && e.field.value !in model) then 0
                else 1 + Recorded(if e.IsWrong() then model - {e.field.value} else model, found[i + 1..]))
  {
    assert found[..i + 1][..i] == found[..i];
    assert found[i..][0] == found[i] && found[i..][1..] == found[i + 1..];
  }

  function Checked(form: Form, verdict: Verdict): (Form, seq<Event>) {
    match verdict
    case Passes => (form.(state := Complete, errors := [], missingFields := []), [Passed(form.model)])
    case Breaks => (form.(errors := [], missingFields := []), [])
    case Invalid(errors) =>
      var n := Recorded(form.model, errors);
      var seen := errors[..n];
      var rest := form.model - Elements(WrongFields(seen));
      var messages := Messages(seen) + (if n < |errors| && errors[n].IsWrong() then [errors[n].Text()] else []);
      (Form(if n == |errors| then Incomplete else form.state, rest, messages, MissingNames(seen)), [Changed(rest)])
  }

  // ---------- A turn ----------

  function Finished(form: Form, askConfirm: bool): (Form, seq<Event>) {
    if form.state != Complete then (form, [])
    else if askConfirm then (form.(state := WaitConfirm), [])
    else (form.(state := Closed), [Submitted(form.model)])
  }

  function Updated(form: Form, turn: Turn): (Form, seq<Event>) {
    match turn.extracted
    case Fails => (form, [])
    case Answers(details) =>
      var merged := form.(model := form.model + Sanitize(details));
      var (checked, events) := Checked(merged, turn.verdict);
      (checked, [Changed(merged.model)] + events)
  }

  /** From the second exit question to the end of the turn. */
  function Rest(form: Form, askConfirm: bool, turn: Turn): (Form, seq<Event>) {
    match turn.exit
    case Fails => (form, [])
    case Answers(leave) =>
      if leave then Finished(form.(state := Closed), askConfirm)
      else if form.state == Incomplete then
        var (updated, events) := Updated(form, turn);
        var (finished, more) := Finished(updated, askConfirm);
        (finished, events + more)
      else Finished(form, askConfirm)
  }

  function NextTurn(form: Form, askConfirm: bool, turn: Turn): (Form, seq<Event>) {
    if form.state != WaitConfirm then Rest(form, askConfirm, turn)
    else if turn.confirm.Fails? then (form, [])
    else if turn.confirm.answer then (form.(state := Closed), [Confirmed(true), Submitted(form.model)])
    else
      match turn.exitOnRefusal
      case Fails => (form, [Confirmed(false)])
      case Answers(leave) =>
        var (after, events) := Rest(form.(state := if leave then Closed else Incomplete), askConfirm, turn);
        (after, [Confirmed(false)] + events)
  }

  /** The form and the events after a run of turns. */
  function Run(turns: seq<Turn>, askConfirm: bool): (Form, seq<Event>) {
    if turns == [] then (NewForm, [Ended(Incomplete)])
    else
      var (form, log) := Run(turns[..|turns| - 1], askConfirm);
      var (form', events) := NextTurn(form, askConfirm, turns[|turns| - 1]);
      (form', log + events + [Ended(form'.state)])
  }

  // ---------- What a turn does ----------

  lemma {:induction false} SubmissionsJoined(a: seq<Event>, b: seq<Event>)
    ensures Submissions(a + b) == Submissions(a) + Submissions(b)
    decreases |b|
  {
    if b == [] {
      assert a + b == a;
    } else {
      SubmissionsJoined(a, b[..|b| - 1]);
      assert (a + b)[..|a + b| - 1] == a + b[..|b| - 1];
    }
  }

  /** A confirmation closes a waiting form and submits exactly the model it waited with. */
  lemma ConfirmedSubmits(form: Form, askConfirm: bool, turn: Turn)
    requires form.state == WaitConfirm && turn.confirm == Answers(true)
    ensures var (after, events) := NextTurn(form, askConfirm, turn);
            && after.state == Closed && after.model == form.model
            && Submitted(form.model) in events && Submissions(events) == 1
  {
    var events := NextTurn(form, askConfirm, turn).1;
    SubmissionsJoined([events[0]], [events[1]]);
    assert events == [events[0]] + [events[1]];
  }

  /** The values that say nothing. */
  const NULLS := [Null, Text(""), Text("None"), Text("null"), Text("lower-case"), Text("unknown"), Text("missing")]

  /** The model after an answer: what the answer says, unless that is nothing, wins over what was known. */
  lemma AnswersWin(model: Model, details: Model)
    ensures var merged := model + Sanitize(details);
            forall k ::
              && (k in merged <==> k in model || (k in details && details[k] !in NULLS))
              && (k in merged ==> merged[k] == if k in details && details[k] !in NULLS then details[k] else model[k])
  {
    forall v: Value
      ensures NullLike(v) <==> v in NULLS
    {
      NullsAreNullLike(v);
    }
    hide NullLike;
  }

  lemma NullsAreNullLike(v: Value)
    ensures NullLike(v) <==> v in NULLS
  {
    if NullLike(v) {
      assert NULLS[0] == Null && NULLS[1] == Text("") && NULLS[2] == Text("None") && NULLS[3] == Text("null");
      assert NULLS[4] == Text("lower-case") && NULLS[5] == Text("unknown") && NULLS[6] == Text("missing");
    }
  }

  /**
   An incomplete form that is not left, whose extraction answers and whose model then passes: without
   confirmation it is closed and submits the merged model in this turn, with it it waits with that model.
   */
  lemma PassingTurn(form: Form, askConfirm: bool, turn: Turn, details: Model)
    requires form.state == Incomplete && turn.exit == Answers(false) && turn.extracted == Answers(details) && turn.verdict == Passes
    ensures var (after, events) := NextTurn(form, askConfirm, turn);
            var merged := form.model + Sanitize(details);
            && after.model == merged && after.errors == [] && after.missingFields == []
            && (if askConfirm then after.state == WaitConfirm && Submissions(events) == 0
                else after.state == Closed && Submitted(merged) in events && Submissions(events) == 1)
  {
    var events := NextTurn(form, askConfirm, turn).1;
    var merged := form.model + Sanitize(details);
    var first, last := [Changed(merged), Passed(merged)], if askConfirm then [] else [Submitted(merged)];
    assert [Changed(merged)] + [Passed(merged)] == first;
    assert events == first + last;
    assert first[..1] == [Changed(merged)];
    SubmissionsJoined(first, last);
    assert Submissions(first) == 0;
  }

  /** A turn that finds the model wanting keeps the form open, without the wrong fields and with all others. */
  lemma FailingTurn(form: Form, askConfirm: bool, turn: Turn, details: Model, errors: seq<FieldError>)
    requires form.state == Incomplete && turn.exit == Answers(false) && turn.extracted == Answers(details) && turn.verdict == Invalid(errors)
    requires AllRecorded(form.model + Sanitize(details), errors)
    ensures var (after, events) := NextTurn(form, askConfirm, turn);
            var merged := form.model + Sanitize(details);
            && after.state == Incomplete && (forall e | e in events :: !e.Submitted?)
            && (forall k :: k in after.model <==> k in merged && !exists e | e in errors :: e.IsWrong() && e.field.value == k)
            && (forall k | k in after.model :: after.model[k] == merged[k])
            && (forall k :: k in after.missingFields <==> exists e | e in errors :: e.IsMissing() && e.field.value == k)
            && (forall t :: t in after.errors <==> exists e | e in errors :: e.IsWrong() && e.field.value + ": " + e.message == t)
  {
    assert errors[..|errors|] == errors;
    ErrorLists(errors);
  }

  /** What the lists of a validation hold. */
  lemma {:induction false} ErrorLists(errors: seq<FieldError>)
    ensures forall k :: k in WrongFields(errors) <==> exists e | e in errors :: e.IsWrong() && e.field.value == k
    ensures forall k :: k in MissingNames(errors) <==> exists e | e in errors :: e.IsMissing() && e.field.value == k
    ensures forall t :: t in Messages(errors) <==> exists e | e in errors :: e.IsWrong() && e.field.value + ": " + e.message == t
  {
    if errors != [] {
      var n := |errors| - 1;
      ErrorLists(errors[..n]);
      assert forall e :: e in errors <==> e == errors[n] || e in errors[..n];
    }
  }

  /** The lists keep the order of the errors. */
  lemma {:induction false} WrongInOrder(a: seq<FieldError>, b: seq<FieldError>)
    ensures WrongFields(a + b) == WrongFields(a) + WrongFields(b)
    decreases |b|
  {
    if b == [] {
      assert a + b == a;
    } else {
      var n := |b| - 1;
      WrongInOrder(a, b[..n]);
      assert (a + b)[..|a| + n] == a + b[..n];
      ConcatIsAssociative(WrongFields(a), WrongFields(b[..n]), if b[n].IsWrong() then [b[n].field.value] else []);
    }
  }

  lemma {:induction false} MissingInOrder(a: seq<FieldError>, b: seq<FieldError>)
    ensures MissingNames(a + b) == MissingNames(a) + MissingNames(b)
    decreases |b|
  {
    if b == [] {
      assert a + b == a;
    } else {
      var n := |b| - 1;
      MissingInOrder(a, b[..n]);
      assert (a + b)[..|a| + n] == a + b[..n];
      ConcatIsAssociative(MissingNames(a), MissingNames(b[..n]), if b[n].IsMissing() then [b[n].field.value] else []);
    }
  }

  lemma {:induction false} MessagesInOrder(a: seq<FieldError>, b: seq<FieldError>)
    ensures Messages(a + b) == Messages(a) + Messages(b)
    decreases |b|
  {
    if b == [] {
      assert a + b == a;
    } else {
      var n := |b| - 1;
      MessagesInOrder(a, b[..n]);
      assert (a + b)[..|a| + n] == a + b[..n];
      ConcatIsAssociative(Messages(a), Messages(b[..n]), if b[n].IsWrong() then [b[n].Text()] else []);
    }
  }

  /** Leaving an open form closes it, submits nothing and keeps its model. */
  lemma LeavingCloses(form: Form, askConfirm: bool, turn: Turn)
    requires form.state == Incomplete && turn.exit == Answers(true)
    ensures NextTurn(form, askConfirm, turn) == (form.(state := Closed), [])
  {
  }

  /** A refusal reopens the form, or closes it when the user leaves, and the turn goes on from there. */
  lemma RefusalGoesOn(form: Form, askConfirm: bool, turn: Turn, leave: bool)
    requires form.state == WaitConfirm && turn.confirm == Answers(false) && turn.exitOnRefusal == Answers(leave)
    ensures var (after, events) := NextTurn(form.(state := if leave then Closed else Incomplete), askConfirm, turn);
            NextTurn(form, askConfirm, turn) == (after, [Confirmed(false)] + events)
  {
  }

  /** A turn in which the language model fails before anything was extracted leaves the form as it was. */
  lemma FailuresKeep(form: Form, askConfirm: bool, turn: Turn)
    ensures form.state == WaitConfirm && turn.confirm.Fails? ==> NextTurn(form, askConfirm, turn) == (form, [])
    ensures form.state == WaitConfirm && turn.confirm == Answers(false) && turn.exitOnRefusal.Fails? ==>
              NextTurn(form, askConfirm, turn) == (form, [Confirmed(false)])
    ensures form.state == Incomplete && turn.exit.Fails? ==> NextTurn(form, askConfirm, turn) == (form, [])
    ensures form.state == Incomplete && turn.exit == Answers(false) && turn.extracted.Fails? ==>
              NextTurn(form, askConfirm, turn) == (form, [])
  {
    var none: seq<Event> := [];
    assert none + none == none;
  }

  /** The user was found to want to leave. */
  predicate Leaves(turn: Turn) {
    turn.exit == Answers(true) || turn.exitOnRefusal == Answers(true)
  }

  /** A turn closes an open form only when the user leaves or by submitting. */
  lemma ClosesBy(form: Form, askConfirm: bool, turn: Turn)
    requires (form.state == Incomplete || form.state == WaitConfirm) && NextTurn(form, askConfirm, turn).0.state == Closed && !Leaves(turn)
    ensures exists m :: Submitted(m) in NextTurn(form, askConfirm, turn).1
  {
    var events := NextTurn(form, askConfirm, turn).1;
    if form.state == WaitConfirm && turn.confirm == Answers(true) {
      assert events[1] == Submitted(form.model);
    } else {
      var open := form.(state := Incomplete);
      var updated := Updated(open, turn);
      var finished := Finished(updated.0, askConfirm);
      assert finished.1 == [Submitted(updated.0.model)];
      assert (updated.1 + finished.1)[|updated.1|] == Submitted(updated.0.model);
      assert form.state == WaitConfirm ==> events == [Confirmed(false)] + (updated.1 + finished.1);
      assert events[|events| - 1] == Submitted(updated.0.model);
    }
  }

  lemma {:induction false} SomeSubmission(log: seq<Event>, m: Model)
    requires Submitted(m) in log
    ensures Submissions(log) >= 1
  {
    var n := |log| - 1;
    if log[n] != Submitted(m) {
      SomeSubmission(log[..n], m);
    }
  }

  // ---------- What every run keeps ----------

  /** The model that passed validation and has not changed since. */
  function Standing(log: seq<Event>): Option<Model> {
    if log == [] then None
    else
      match log[|log| - 1]
      case Changed(_) => None
      case Passed(model) => Some(model)
      case _ => Standing(log[..|log| - 1])
  }

  function Submissions(log: seq<Event>): nat {
    if log == [] then 0
    else Submissions(log[..|log| - 1]) + (if log[|log| - 1].Submitted? then 1 else 0)
  }

  /** The submission at position `i` was of a valid, unchanged model, and confirmed if it had to be. */
  predicate RightlySubmitted(log: seq<Event>, i: nat, askConfirm: bool)
    requires i < |log| && log[i].Submitted?
  {
    && Standing(log[..i]) == Some(log[i].model)
    && (askConfirm ==> i >= 2 && log[i - 1] == Confirmed(true) && log[i - 2] == Ended(WaitConfirm))
  }

  predicate AllRight(log: seq<Event>, askConfirm: bool) {
    forall i | 0 <= i < |log| && log[i].Submitted? :: RightlySubmitted(log, i, askConfirm)
  }

  predicate NoNulls(model: Model) {
    forall key | key in model :: !NullLike(model[key])
  }

  /** The invariant at the end of a turn. */
  predicate FormInv(form: Form, log: seq<Event>, askConfirm: bool) {
    && form.state != Complete
    && log != [] && log[|log| - 1] == Ended(form.state)
    && Submissions(log) <= (if form.state == Closed then 1 else 0)
    && (form.state == WaitConfirm ==> askConfirm && Standing(log) == Some(form.model))
    && AllRight(log, askConfirm)
    && NoNulls(form.model)
  }

  lemma {:induction false} LogAppend(log: seq<Event>, e: Event)
    ensures Submissions(log + [e]) == Submissions(log) + (if e.Submitted? then 1 else 0)
    ensures Standing(log + [e]) == match e case Changed(_) => None case Passed(m) => Some(m) case _ => Standing(log)
  {
    assert (log + [e])[..|log|] == log;
  }

  /** Appending an event keeps earlier submissions right, and a submission is right on its own terms. */
  lemma AllRightAppend(log: seq<Event>, e: Event, askConfirm: bool)
    requires AllRight(log, askConfirm)
    requires e.Submitted? ==> Standing(log) == Some(e.model)
    requires e.Submitted? && askConfirm ==> |log| >= 2 && log[|log| - 1] == Confirmed(true) && log[|log| - 2] == Ended(WaitConfirm)
    ensures AllRight(log + [e], askConfirm)
  {
    hide Standing, RightlySubmitted;
    var log' := log + [e];
    forall i | 0 <= i < |log'| && log'[i].Submitted?
      ensures RightlySubmitted(log', i, askConfirm)
    {
      if i < |log| {
        assert RightlySubmitted(log, i, askConfirm);
        StillRight(log, e, i, askConfirm);
      } else {
        LastIsRight(log, e, askConfirm);
      }
    }
  }

  lemma StillRight(log: seq<Event>, e: Event, i: nat, askConfirm: bool)
    requires i < |log| && log[i].Submitted? && RightlySubmitted(log, i, askConfirm)
    ensures RightlySubmitted(log + [e], i, askConfirm)
  {
    hide Standing;
    assert (log + [e])[..i] == log[..i];
  }

  lemma LastIsRight(log: seq<Event>, e: Event, askConfirm: bool)
    requires e.Submitted? && Standing(log) == Some(e.model)
    requires askConfirm ==> |log| >= 2 && log[|log| - 1] == Confirmed(true) && log[|log| - 2] == Ended(WaitConfirm)
    ensures RightlySubmitted(log + [e], |log|, askConfirm)
  {
    hide Standing;
    assert (log + [e])[..|log|] == log;
  }

  /** What the events of a turn leave standing, starting from a log. */
  ghost predicate Progress(form: Form, log: seq<Event>, askConfirm: bool) {
    && AllRight(log, askConfirm) && NoNulls(form.model)
    && Submissions(log) <= (if form.state == Closed then 1 else 0)
    && (form.state == WaitConfirm || form.state == Complete ==> Standing(log) == Some(form.model))
    && (form.state == WaitConfirm ==> askConfirm)
  }

  lemma AppendPlain(form: Form, log: seq<Event>, e: Event, form': Form, askConfirm: bool)
    requires Progress(form, log, askConfirm) && !e.Submitted?
    requires NoNulls(form'.model) && (form.state == Closed ==> form'.state == Closed)
    requires e.Changed? ==> form'.state != WaitConfirm && form'.state != Complete
    requires e.Passed? ==> e.model == form'.model && form'.state != WaitConfirm
    requires !e.Changed? && !e.Passed? ==> form'.state == Incomplete || form'.state == Closed || form' == form
    ensures Progress(form', log + [e], askConfirm)
  {
    LogAppend(log, e);
    AllRightAppend(log, e, askConfirm);
  }

  lemma CheckedProgress(form: Form, log: seq<Event>, verdict: Verdict, askConfirm: bool)
    requires Progress(form, log, askConfirm) && form.state == Incomplete
    ensures var (form', events) := Checked(form, verdict);
            Progress(form', log + events, askConfirm) && (form'.state == Incomplete || form'.state == Complete)
  {
    var (form', events) := Checked(form, verdict);
    if verdict.Breaks? {
      assert log + events == log;
    } else {
      AppendPlain(form, log, events[0], form', askConfirm);
    }
  }

  lemma UpdatedProgress(form: Form, log: seq<Event>, turn: Turn, askConfirm: bool)
    requires Progress(form, log, askConfirm) && form.state == Incomplete
    ensures var (form', events) := Updated(form, turn);
            Progress(form', log + events, askConfirm) && (form'.state == Incomplete || form'.state == Complete)
  {
    var (form', events) := Updated(form, turn);
    match turn.extracted
    case Fails => assert log + events == log;
    case Answers(details) =>
      var merged := form.(model := form.model + Sanitize(details));
      AppendPlain(form, log, Changed(merged.model), merged, askConfirm);
      CheckedProgress(merged, log + [Changed(merged.model)], turn.verdict, askConfirm);
      assert log + events == log + [Changed(merged.model)] + Checked(merged, turn.verdict).1;
  }

  lemma FinishedProgress(form: Form, log: seq<Event>, askConfirm: bool)
    requires Progress(form, log, askConfirm)
    ensures var (form', events) := Finished(form, askConfirm);
            Progress(form', log + events, askConfirm) && form'.state != Complete
  {
    var (form', events) := Finished(form, askConfirm);
    if form.state != Complete || askConfirm {
      assert log + events == log;
    } else {
      LogAppend(log, Submitted(form.model));
      AllRightAppend(log, Submitted(form.model), askConfirm);
    }
  }

  lemma RestProgress(form: Form, log: seq<Event>, turn: Turn, askConfirm: bool)
    requires Progress(form, log, askConfirm) && (form.state == Incomplete || form.state == Closed)
    ensures var (form', events) := Rest(form, askConfirm, turn);
            Progress(form', log + events, askConfirm) && form'.state != Complete
  {
    var (form', events) := Rest(form, askConfirm, turn);
    if turn.exit.Fails? {
      assert log + events == log;
    } else if turn.exit.answer {
      FinishedProgress(form.(state := Closed), log, askConfirm);
    } else if form.state == Incomplete {
      UpdatedProgress(form, log, turn, askConfirm);
      var (updated, first) := Updated(form, turn);
      FinishedProgress(updated, log + first, askConfirm);
      assert log + events == log + first + Finished(updated, askConfirm).1;
    } else {
      FinishedProgress(form, log, askConfirm);
    }
  }

  lemma NextProgress(form: Form, log: seq<Event>, turn: Turn, askConfirm: bool)
    requires FormInv(form, log, askConfirm)
    ensures var (form', events) := NextTurn(form, askConfirm, turn);
            Progress(form', log + events, askConfirm) && form'.state != Complete
  {
    var (form', events) := NextTurn(form, askConfirm, turn);
    if form.state != WaitConfirm {
      RestProgress(form, log, turn, askConfirm);
    } else if turn.confirm.Fails? {
      assert log + events == log;
    } else if turn.confirm.answer {
      var asked := log + [Confirmed(true)];
      LogAppend(log, Confirmed(true));
      AllRightAppend(log, Confirmed(true), askConfirm);
      LogAppend(asked, Submitted(form.model));
      AllRightAppend(asked, Submitted(form.model), askConfirm);
      assert log + events == asked + [Submitted(form.model)];
    } else {
      RefusalProgress(form, log, turn, askConfirm);
    }
  }

  lemma RefusalProgress(form: Form, log: seq<Event>, turn: Turn, askConfirm: bool)
    requires FormInv(form, log, askConfirm) && form.state == WaitConfirm && turn.confirm == Answers(false)
    ensures var (form', events) := NextTurn(form, askConfirm, turn);
            Progress(form', log + events, askConfirm) && form'.state != Complete
  {
    var (form', events) := NextTurn(form, askConfirm, turn);
    var asked := log + [Confirmed(false)];
    match turn.exitOnRefusal
    case Fails =>
      AppendPlain(form, log, Confirmed(false), form, askConfirm);
    case Answers(leave) =>
      var left := form.(state := if leave then Closed else Incomplete);
      AppendPlain(form, log, Confirmed(false), left, askConfirm);
      RestProgress(left, asked, turn, askConfirm);
      assert log + events == asked + Rest(left, askConfirm, turn).1;
  }

  /** Whatever the answers and failures, the invariant holds at the end of every turn of every run. */
  lemma {:induction false} RunKeepsInv(turns: seq<Turn>, askConfirm: bool)
    ensures FormInv(Run(turns, askConfirm).0, Run(turns, askConfirm).1, askConfirm)
  {
    if turns == [] {
      LogAppend([], Ended(Incomplete));
      assert [] + [Ended(Incomplete)] == [Ended(Incomplete)];
    } else {
      var (form, log) := Run(turns[..|turns| - 1], askConfirm);
      RunKeepsInv(turns[..|turns| - 1], askConfirm);
      var turn := turns[|turns| - 1];
      NextProgress(form, log, turn, askConfirm);
      var (form', events) := NextTurn(form, askConfirm, turn);
      LogAppend(log + events, Ended(form'.state));
      AllRightAppend(log + events, Ended(form'.state), askConfirm);
    }
  }

  /**
   A form submits at most once; it submits only a model that passed validation and did not change
   since, with a confirmation asked for in an earlier turn and given if the form wants one; what it
   submits holds no null-like value; and it never rests in the complete state.
   */
  lemma SubmitsOnceAndRightly(turns: seq<Turn>, askConfirm: bool)
    ensures var (form, log) := Run(turns, askConfirm);
            && Submissions(log) <= 1
            && form.state != Complete
            && NoNulls(form.model)
            && AllRight(log, askConfirm)
  {
    RunKeepsInv(turns, askConfirm);
  }

  /** A form that is closed although nobody left it has submitted, exactly once. */
  lemma {:induction false} ClosedHasSubmitted(turns: seq<Turn>, askConfirm: bool)
    requires Run(turns, askConfirm).0.state == Closed && forall i | 0 <= i < |turns| :: !Leaves(turns[i])
    ensures Submissions(Run(turns, askConfirm).1) == 1
  {
    hide NextTurn, Leaves;
    SubmitsOnceAndRightly(turns, askConfirm);
    var n := |turns| - 1;
    var (form, log) := Run(turns[..n], askConfirm);
    var (form', events) := NextTurn(form, askConfirm, turns[n]);
    RunKeepsInv(turns[..n], askConfirm);
    SubmissionsJoined(log + events, [Ended(form'.state)]);
    SubmissionsJoined(log, events);
    if form.state == Closed {
      ClosedHasSubmitted(turns[..n], askConfirm);
    } else {
      ClosesBy(form, askConfirm, turns[n]);
      var m :| Submitted(m) in events;
      SomeSubmission(events, m);
    }
  }

  lemma NextOnClosed(form: Form, askConfirm: bool, turn: Turn)
    requires form.state == Closed
    ensures NextTurn(form, askConfirm, turn) == (form, [])
  {
    assert form.(state := Closed) == form;
  }

  lemma RunSnoc(turns: seq<Turn>, turn: Turn, askConfirm: bool)
    ensures var (form, log) := Run(turns, askConfirm);
            var (form', events) := NextTurn(form, askConfirm, turn);
            Run(turns + [turn], askConfirm) == (form', log + events + [Ended(form'.state)])
  {
    hide NextTurn;
    assert (turns + [turn])[..|turns|] == turns;
  }

  /** A closed form stays as it is, and does nothing more. */
  lemma {:induction false} ClosedIsFinal(turns: seq<Turn>, more: seq<Turn>, askConfirm: bool)
    requires Run(turns, askConfirm).0.state == Closed
    ensures Run(turns + more, askConfirm).0 == Run(turns, askConfirm).0
    ensures Submissions(Run(turns + more, askConfirm).1) == Submissions(Run(turns, askConfirm).1)
    decreases |more|
  {
    hide *;
    if more == [] {
      assert turns + more == turns;
    } else {
      var n := |more| - 1;
      ClosedIsFinal(turns, more[..n], askConfirm);
      assert turns + more == turns + more[..n] + [more[n]];
      RunSnoc(turns + more[..n], more[n], askConfirm);
      var (form, log) := Run(turns + more[..n], askConfirm);
      NextOnClosed(form, askConfirm, more[n]);
      assert log + [] == log;
      LogAppend(log, Ended(form.state));
    }
  }

  // ---------- The form object and its agent ----------

  /** How a turn ends for the caller. */
  datatype Outcome = Replied | Submitting(model: Model) | Raised

  class CatForm {
    var state: State
    var model: Model
    var errors: seq<string>
    var missingFields: seq<string>
    const askConfirm: bool

    constructor (askConfirm: bool)
      ensures View() == NewForm && this.askConfirm == askConfirm
    {
      state, model, errors, missingFields := Incomplete, map[], [], [];
      this.askConfirm := askConfirm;
    }

    function View(): Form
      reads this
    {
      Form(state, model, errors, missingFields)
    }

    method Validate(verdict: Verdict) returns (raised: bool, ghost events: seq<Event>)
      modifies this
      ensures (View(), events) == Checked(old(View()), verdict)
      ensures raised <==> verdict.Breaks? || (verdict.Invalid? && !AllRecorded(old(model), verdict.errors))
    {
      missingFields := [];
      errors := [];
      raised, events := false, [];
      match verdict
      case Passes =>
        state := Complete;
        events := [Passed(model)];
      case Breaks =>
        raised := true;
      case Invalid(found) =>
        raised := RecordErrors(found);
        if !raised {
          state := Incomplete;
        }
        events := [Changed(model)];
    }

    /** Collect the errors and drop the wrong fields, until an error names no field or a field to drop is not there. */
    method RecordErrors(found: seq<FieldError>) returns (raised: bool)
      requires errors == [] && missingFields == []
      modifies this
      ensures state == old(state)
      ensures var n := Recorded(old(model), found);
              && (raised <==> n < |found|)
              && model == old(model) - Elements(WrongFields(found[..n]))
              && missingFields == MissingNames(found[..n])
              && errors == Messages(found[..n]) + (if raised && found[n].IsWrong() then [found[n].Text()] else [])
    {
      hide WrongFields, MissingNames, Messages, Recorded;
      NothingRecorded(model, found);
      for i := 0 to |found|
        invariant state == old(state)
        invariant Recorded(old(model), found) == i + Recorded(model, found[i..])
        invariant model == old(model) - Elements(WrongFields(found[..i]))
        invariant missingFields == MissingNames(found[..i]) && errors == Messages(found[..i])
      {
        var e := found[i];
        OneMoreRecorded(model, found, i);
        if e.field.None? {
          return true;
        }
        var field := e.field.value;
        if e.missing {
          missingFields := missingFields + [field];
        } else {
          errors := errors + [e.Text()];
          if field !in model {
            return true;
          }
          model := model - {field};
        }
      }
      NothingRecorded(model, found[|found|..]);
      return false;
    }

    method Update(turn: Turn) returns (raised: bool, ghost events: seq<Event>)
      modifies this
      ensures (View(), events) == Updated(old(View()), turn)
      ensures raised && old(state) != Complete ==> state != Complete
      ensures forall e | e in events :: !e.Submitted?
    {
      if turn.extracted.Fails? {
        return true, [];
      }
      model := model + Sanitize(turn.extracted.answer);
      ghost var merged := model;
      raised, events := Validate(turn.verdict);
      events := [Changed(merged)] + events;
    }

    /** The last part of a turn: a complete form waits for confirmation or is submitted. */
    method Finish(submitRaises: bool) returns (outcome: Outcome, ghost events: seq<Event>)
      modifies this
      ensures (View(), events) == Finished(old(View()), askConfirm)
      ensures old(state) == Complete && !askConfirm ==> outcome == (if submitRaises then Raised else Submitting(old(model)))
      ensures !(old(state) == Complete && !askConfirm) ==> outcome == Replied
    {
      outcome, events := Replied, [];
      if state == Complete {
        if askConfirm {
          state := WaitConfirm;
        } else {
          state := Closed;
          outcome, events := (if submitRaises then Raised else Submitting(model)), [Submitted(model)];
        }
      }
    }

    method FinishTurn(turn: Turn) returns (outcome: Outcome, ghost events: seq<Event>)
      modifies this
      ensures (View(), events) == Rest(old(View()), askConfirm, turn)
      ensures forall m :: outcome == Submitting(m) <==> Submitted(m) in events && !turn.submitRaises
      ensures (exists m :: Submitted(m) in events) && turn.submitRaises ==> outcome == Raised
    {
      if turn.exit.Fails? {
        return Raised, [];
      }
      if turn.exit.answer {
        state := Closed;
      }
      ghost var first := [];
      if state == Incomplete {
        var raised;
        raised, first := Update(turn);
        if raised {
          assert first + [] == first;
          return Raised, first;
        }
      }
      outcome, events := Finish(turn.submitRaises);
      assert [] + events == events;
      events := first + events;
    }

    /** One step of the dialogue. */
    method Next(turn: Turn) returns (outcome: Outcome, ghost events: seq<Event>)
      modifies this
      ensures (View(), events) == NextTurn(old(View()), askConfirm, turn)
      ensures forall m :: outcome == Submitting(m) <==> Submitted(m) in events && !turn.submitRaises
      ensures (exists m :: Submitted(m) in events) && turn.submitRaises ==> outcome == Raised
    {
      ghost var first := [];
      if state == WaitConfirm {
        if turn.confirm.Fails? {
          return Raised, [];
        }
        if turn.confirm.answer {
          state := Closed;
          return (if turn.submitRaises then Raised else Submitting(model)), [Confirmed(true), Submitted(model)];
        }
        first := [Confirmed(false)];
        if turn.exitOnRefusal.Fails? {
          return Raised, first;
        }
        state := if turn.exitOnRefusal.answer then Closed else Incomplete;
      }
      outcome, events := FinishTurn(turn);
      assert [] + events == events;
      events := first + events;
    }
  }

  class WorkingMemory {
    var activeForm: CatForm?

    constructor ()
      ensures activeForm == null
    {
      activeForm := null;
    }
  }

  /** The form agent: drop a closed form, step an open one, swallow whatever it raises. */
  method ExecuteFormAgent(memory: WorkingMemory, turn: Turn) returns (reply: Option<Outcome>, ghost events: seq<Event>)
    modifies memory, memory.activeForm
    ensures old(memory.activeForm) == null ==> memory.activeForm == null && reply == None && events == []
    ensures old(memory.activeForm) != null && old(memory.activeForm.state) == Closed ==>
              memory.activeForm == null && reply == None && events == []
    ensures old(memory.activeForm) != null && old(memory.activeForm.state) != Closed ==>
              && memory.activeForm == old(memory.activeForm)
              && (memory.activeForm.View(), events) ==
                 NextTurn(old(memory.activeForm.View()), memory.activeForm.askConfirm, turn)
              && forall m :: reply == Some(Submitting(m)) <==> Submitted(m) in events && !turn.submitRaises
  {
    if memory.activeForm == null {
      return None, [];
    } else if memory.activeForm.state == Closed {
      memory.activeForm := null;
      return None, [];
    }
    var outcome;
    outcome, events := memory.activeForm.Next(turn);
    reply := if outcome.Raised? then None else Some(outcome);
  }
}
