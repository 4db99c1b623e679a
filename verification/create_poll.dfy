/** The admin's create-poll form: the four validation rules, the editing of
    the option list, and one submit with the two inserts it issues. */
module CreatePoll {
  import opened Types
  import JsString

  /** The form fields. `endsAt` is the datetime input parsed to a time;
      `None` stands for the empty or unparsable input, whose `Date` is invalid
      and compares false with the current time. */
  datatype PollForm = PollForm(title: string, description: string, endsAt: Option<Timestamp>, options: seq<string>)

  const MinTitleLength: nat := 3
  const MinDescriptionLength: nat := 10
  const MinOptions: nat := 2
  const MinOptionLength: nat := 1

  /** The option list the form starts with and returns to after a submit. */
  const InitialOptions: seq<string> := ["", ""]

  const EmptyForm: PollForm := PollForm("", "", None, InitialOptions)

  // ---------------------------------------------------------------------
  // Which options count
  // ---------------------------------------------------------------------

  /** `opt.trim()` is truthy: something other than white space remains. */
  predicate Filled(opt: string) {
    JsString.Trim(opt) != ""
  }

  /** `options.filter(opt => opt.trim())` */
  function FilledOptions(options: seq<string>): (r: seq<string>)
    ensures |r| <= |options|
  {
    if |options| == 0 then []
    else if Filled(options[0]) then [options[0]] + FilledOptions(options[1..])
    else FilledOptions(options[1..])
  }

  /** Every entry the filter keeps is filled. */
  lemma {:induction false} FilledOptionsAreFilled(options: seq<string>)
    ensures forall k :: 0 <= k < |FilledOptions(options)| ==> Filled(FilledOptions(options)[k])
  {
    if |options| > 0 {
      FilledOptionsAreFilled(options[1..]);
    }
  }

  /** The number of entries that are not blank, counted without trim. */
  ghost function CountNonBlank(options: seq<string>): nat {
    if |options| == 0 then 0
    else (if JsString.IsBlank(options[0]) then 0 else 1) + CountNonBlank(options[1..])
  }

  lemma {:induction false} FilledOptionsAppend(a: seq<string>, b: seq<string>)
    ensures FilledOptions(a + b) == FilledOptions(a) + FilledOptions(b)
  {
    if |a| == 0 {
      assert a + b == b;
    } else {
      assert (a + b)[1..] == a[1..] + b;
      FilledOptionsAppend(a[1..], b);
    }
  }

  /** The filter keeps exactly the entries that are not blank. */
  lemma {:induction false} FilledOptionsCountsNonBlank(options: seq<string>)
    ensures |FilledOptions(options)| == CountNonBlank(options)
  {
    if |options| > 0 {
      JsString.TrimEmptyIffBlank(options[0]);
      FilledOptionsCountsNonBlank(options[1..]);
    }
  }

  /** A single entry is kept exactly when its trim is non-empty, untrimmed. */
  lemma FilledOptionsSingle(opt: string)
    ensures FilledOptions([opt]) == if Filled(opt) then [opt] else []
  {
    assert [opt][1..] == [];
  }

  /** Filtering one more entry of a prefix appends it when it is filled. */
  lemma FilledOptionsExtend(options: seq<string>, i: nat)
    requires i < |options|
    ensures FilledOptions(options[..i + 1]) == FilledOptions(options[..i]) + (if Filled(options[i]) then [options[i]] else [])
  {
    FilledOptionsAppend(options[..i], [options[i]]);
    FilledOptionsSingle(options[i]);
    assert options[..i + 1] == options[..i] + [options[i]];
  }

  /** The filter is an order-preserving selection: a filled entry `i` appears
      in the result, untrimmed, at the position given by the number of filled
      entries before it. Positions therefore increase with `i`, and together
      with `FilledOptionsCountsNonBlank` no other entry is kept. */
  lemma {:induction false} FilledEntryPosition(options: seq<string>, i: nat)
    requires i < |options| && Filled(options[i])
    ensures |FilledOptions(options[..i])| < |FilledOptions(options)|
    ensures FilledOptions(options)[|FilledOptions(options[..i])|] == options[i]
  {
    assert options == options[..i] + options[i..];
    FilledOptionsAppend(options[..i], options[i..]);
    assert options[i..][0] == options[i];
    assert FilledOptions(options[i..]) == [options[i]] + FilledOptions(options[i..][1..]);
  }

  /** Filled entries keep their relative order. */
  lemma FilledEntriesKeepOrder(options: seq<string>, i: nat, j: nat)
    requires i < j < |options| && Filled(options[i]) && Filled(options[j])
    ensures |FilledOptions(options[..i])| < |FilledOptions(options[..j])|
  {
    assert options[..j] == options[..i] + options[i..j];
    FilledOptionsAppend(options[..i], options[i..j]);
    assert options[i..j][0] == options[i];
  }

  // ---------------------------------------------------------------------
  // Validation
  // ---------------------------------------------------------------------

  /** The keys of the error map a failed validation fills in. */
  datatype Field = Title | Description | EndsAt | Options | OptionItem(index: nat)

  /** Whether the schema reports `f` as broken for `form` at time `now`. The
      option rules are applied to the filtered list `filled`: each entry at
      least one character long, and at least two entries. */
  predicate Broken(form: PollForm, now: Timestamp, filled: seq<string>, f: Field) {
    match f
    case Title => |form.title| < MinTitleLength
    case Description => |form.description| < MinDescriptionLength
    case EndsAt => !(form.endsAt.Some? && form.endsAt.value > now)
    case Options => |filled| < MinOptions
    case OptionItem(k) => k < |filled| && |filled[k]| < MinOptionLength
  }

  /** Every key the schema can report for a filtered list of `n` entries. */
  function Keys(n: nat): set<Field> {
    {Title, Description, EndsAt, Options} + set k | 0 <= k < n :: OptionItem(k)
  }

  /** Every rule the schema reports as broken for `form` at time `now`. */
  function Issues(form: PollForm, now: Timestamp): (errs: set<Field>)
    ensures Title in errs <==> |form.title| < MinTitleLength
    ensures Description in errs <==> |form.description| < MinDescriptionLength
    ensures EndsAt in errs <==> !(form.endsAt.Some? && form.endsAt.value > now)
    ensures Options in errs <==> |FilledOptions(form.options)| < MinOptions
  {
    var filled := FilledOptions(form.options);
    set f | f in Keys(|filled|) && Broken(form, now, filled, f)
  }

  /** The per-entry length rule never fires: the filter already dropped every
      entry that trims to nothing, and the empty string is among those. */
  lemma NoOptionItemIssues(form: PollForm, now: Timestamp, k: nat)
    ensures OptionItem(k) !in Issues(form, now)
  {
    var filled := FilledOptions(form.options);
    FilledOptionsAreFilled(form.options);
    if k < |filled| {
      assert Filled(filled[k]);
      assert |filled[k]| >= 1;
    }
  }

  /** `validateForm()`: true exactly when the schema reports nothing. */
  predicate Validate(form: PollForm, now: Timestamp): (ok: bool)
    ensures ok ==> |form.title| >= MinTitleLength && |form.description| >= MinDescriptionLength
    ensures ok ==> form.endsAt.Some? && form.endsAt.value > now
    ensures ok ==> |FilledOptions(form.options)| >= MinOptions
  {
    Issues(form, now) == {}
  }

  /** The four rules, stated without the filter or trim: title at least 3
      long and description at least 10 long (neither trimmed), an end time
      strictly after `now`, and at least 2 entries that are not blank. */
  lemma {:induction false} ValidateIffRules(form: PollForm, now: Timestamp)
    ensures Validate(form, now) <==>
      && |form.title| >= 3
      && |form.description| >= 10
      && form.endsAt.Some? && form.endsAt.value > now
      && CountNonBlank(form.options) >= 2
  {
    FilledOptionsCountsNonBlank(form.options);
    var errs := Issues(form, now);
    if errs != {} && |form.title| >= 3 && |form.description| >= 10
       && form.endsAt.Some? && form.endsAt.value > now && CountNonBlank(form.options) >= 2 {
      var e :| e in errs;
      NoOptionItemIssues(form, now, if e.OptionItem? then e.index else 0);
      assert false;
    }
  }

  /** Two blank entries are rejected whatever the other fields hold. */
  lemma BlankOptionsAlwaysRejected(title: string, description: string, endsAt: Option<Timestamp>, now: Timestamp)
    ensures !Validate(PollForm(title, description, endsAt, ["", " "]), now)
  {
    assert JsString.Trim(" ") == "";
    assert FilledOptions(["", " "]) == [];
  }

  /** The form a user fills in as the sample poll validates. */
  lemma LunchFormValidates(now: Timestamp)
    ensures Validate(PollForm("Lunch?", "Pick your favorite lunch spot", Some(now + 86400), ["Pizza", "Salad"]), now)
  {
    var form := PollForm("Lunch?", "Pick your favorite lunch spot", Some(now + 86400), ["Pizza", "Salad"]);
    assert !JsString.IsWhiteSpace('P') && !JsString.IsWhiteSpace('S');
    assert JsString.Trim("Pizza") == "Pizza" && JsString.Trim("Salad") == "Salad";
    assert FilledOptions(form.options) == ["Pizza", "Salad"];
    NoOptionItemIssues(form, now, 0);
    NoOptionItemIssues(form, now, 1);
  }

  // ---------------------------------------------------------------------
  // Editing the option list
  // ---------------------------------------------------------------------

  /** `addOption`: one empty entry at the end, the others untouched. */
  function AddOption(options: seq<string>): (r: seq<string>)
    ensures |r| == |options| + 1
    ensures r[..|options|] == options && r[|options|] == ""
  {
    options + [""]
  }

  /** `options.filter((_, i) => i !== index)`: every entry whose position is
      not `index`, in order. */
  function DropIndex(options: seq<string>, index: int): (r: seq<string>)
    ensures 0 <= index < |options| ==> r == options[..index] + options[index + 1..]
    ensures !(0 <= index < |options|) ==> r == options
    decreases |options|
  {
    if |options| == 0 then []
    else (if index == 0 then [] else [options[0]]) + DropIndex(options[1..], index - 1)
  }

  /** `removeOption(index)`: drops entry `index` when more than two entries
      are present, and otherwise changes nothing. */
  function RemoveOption(options: seq<string>, index: int): (r: seq<string>)
    ensures |options| > 2 && 0 <= index < |options| ==>
      |r| == |options| - 1
      && (forall k :: 0 <= k < index ==> r[k] == options[k])
      && (forall k :: index <= k < |r| ==> r[k] == options[k + 1])
    ensures |options| <= 2 || !(0 <= index < |options|) ==> r == options
    ensures |options| >= 2 ==> |r| >= 2
  {
    if |options| > 2 then DropIndex(options, index) else options
  }

  /** The change handler of entry `index`: that entry gets `text`. */
  function SetOptionText(options: seq<string>, index: nat, text: string): (r: seq<string>)
    requires index < |options|
    ensures |r| == |options| && r[index] == text
    ensures forall k :: 0 <= k < |options| && k != index ==> r[k] == options[k]
  {
    options[index := text]
  }

  /** The edits the form offers on its option list. */
  datatype OptionEdit = Add | Remove(index: int) | SetText(index: int, text: string)

  /** An edit the rendered form can produce: a text change is typed into an
      existing entry. */
  predicate Applicable(options: seq<string>, e: OptionEdit) {
    e.SetText? ==> 0 <= e.index < |options|
  }

  function ApplyEdit(options: seq<string>, e: OptionEdit): seq<string>
    requires Applicable(options, e)
  {
    match e
    case Add => AddOption(options)
    case Remove(i) => RemoveOption(options, i)
    case SetText(i, t) => SetOptionText(options, i, t)
  }

  /** Applies `edits` in order while each is applicable; `None` when one is not. */
  function ApplyEdits(options: seq<string>, edits: seq<OptionEdit>): Option<seq<string>>
    decreases |edits|
  {
    if |edits| == 0 then Some(options)
    else if Applicable(options, edits[0]) then ApplyEdits(ApplyEdit(options, edits[0]), edits[1..])
    else None
  }

  /** Starting from the two empty entries, no sequence of edits brings the
      list below two entries. */
  lemma {:induction false} OptionsNeverBelowTwo(options: seq<string>, edits: seq<OptionEdit>)
    requires |options| >= 2
    ensures ApplyEdits(options, edits).Some? ==> |ApplyEdits(options, edits).value| >= 2
    decreases |edits|
  {
    if |edits| > 0 && Applicable(options, edits[0]) {
      OptionsNeverBelowTwo(ApplyEdit(options, edits[0]), edits[1..]);
    }
  }

  lemma InitialOptionsNeverBelowTwo(edits: seq<OptionEdit>)
    ensures ApplyEdits(InitialOptions, edits).Some? ==> |ApplyEdits(InitialOptions, edits).value| >= 2
  {
    OptionsNeverBelowTwo(InitialOptions, edits);
  }

  // ---------------------------------------------------------------------
  // Submit
  // ---------------------------------------------------------------------

  /** The row inserted into `polls`; a new poll is always active. */
  datatype PollRow = PollRow(title: string, description: string, createdBy: Id, endsAt: Timestamp, isActive: bool)

  /** A row inserted into `options`. */
  datatype OptionRow = OptionRow(pollId: Id, text: string)

  /** A write the submit issues. */
  datatype Write = InsertPoll(poll: PollRow) | InsertOptions(rows: seq<OptionRow>)

  /** What the poll insert answered: the new poll's id, or an error. */
  datatype PollInsertResult = PollCreated(id: Id) | PollInsertFailed

  /** The toast a submit ends with, if it got past the guard. */
  datatype SubmitOutcome = NotSubmitted | Created | CreateFailed

  /** The component state the submit touches. */
  datatype FormState = FormState(form: PollForm, isSubmitting: bool, errors: set<Field>)

  /** One submit: its outcome, the writes issued in order, and the state
      after it. */
  datatype SubmitRun = SubmitRun(outcome: SubmitOutcome, writes: seq<Write>, after: FormState)

  /** `optionsToInsert`: the filled entries, untrimmed and in order, each
      tied to the new poll. */
  method OptionsToInsert(pollId: Id, options: seq<string>) returns (rows: seq<OptionRow>)
    ensures |rows| == |FilledOptions(options)|
    ensures forall k :: 0 <= k < |rows| ==> rows[k] == OptionRow(pollId, FilledOptions(options)[k])
  {
    rows := [];
    ghost var kept: seq<string> := [];
    var i := 0;
    while i < |options|
      invariant 0 <= i <= |options|
      invariant kept == FilledOptions(options[..i])
      invariant |rows| == |kept|
      invariant forall k :: 0 <= k < |rows| ==> rows[k] == OptionRow(pollId, kept[k])
    {
      FilledOptionsExtend(options, i);
      if Filled(options[i]) {
        rows := rows + [OptionRow(pollId, options[i])];
        kept := kept + [options[i]];
      }
      i := i + 1;
    }
    assert options[..i] == options;
  }

  /** `handleSubmit` given what the two inserts answer. Nothing is written
      without a user, while a submit is in progress, or when validation fails
      (validation runs, and updates the error map, only once the first two
      checks pass). Otherwise the poll row goes first, the option rows only
      after it succeeded; on full success the form is cleared, on any failure
      it is kept, and the in-progress flag is false afterwards either way. */
  method HandleSubmit(st: FormState, user: Option<User>, now: Timestamp, pollInsert: PollInsertResult, optionsInsertOk: bool)
    returns (run: SubmitRun)
    ensures run.writes == [] <==> user.None? || st.isSubmitting || !Validate(st.form, now)
    ensures run.writes == [] ==> run.outcome == NotSubmitted && run.after.form == st.form && run.after.isSubmitting == st.isSubmitting
    ensures user.Some? && !st.isSubmitting ==> run.after.errors == Issues(st.form, now)
    ensures user.None? || st.isSubmitting ==> run.after.errors == st.errors
    ensures run.writes != [] ==>
      && st.form.endsAt.Some?
      && run.writes[0] == InsertPoll(PollRow(st.form.title, st.form.description, user.value.id, st.form.endsAt.value, true))
      && !run.after.isSubmitting
    ensures |run.writes| <= 2
    ensures |run.writes| == 2 <==> run.writes != [] && pollInsert.PollCreated?
    ensures |run.writes| == 2 ==>
      && run.writes[1].InsertOptions?
      && |run.writes[1].rows| == |FilledOptions(st.form.options)| >= MinOptions
      && forall k :: 0 <= k < |run.writes[1].rows| ==>
           run.writes[1].rows[k] == OptionRow(pollInsert.id, FilledOptions(st.form.options)[k])
    ensures run.outcome == Created <==> |run.writes| == 2 && optionsInsertOk
    ensures run.outcome == CreateFailed <==> run.writes != [] && !(|run.writes| == 2 && optionsInsertOk)
    ensures run.outcome == Created ==> run.after.form == EmptyForm
    ensures run.outcome == CreateFailed ==> run.after.form == st.form
  {
    if user.None? || st.isSubmitting {
      return SubmitRun(NotSubmitted, [], st);
    }
    var errors := Issues(st.form, now);
    if errors != {} {
      return SubmitRun(NotSubmitted, [], st.(errors := errors));
    }
    var form := st.form;
    var pollRow := PollRow(form.title, form.description, user.value.id, form.endsAt.value, true);
    match pollInsert {
      case PollInsertFailed =>
        run := SubmitRun(CreateFailed, [InsertPoll(pollRow)], FormState(form, false, errors));
      case PollCreated(id) =>
        var rows := OptionsToInsert(id, form.options);
        var writes := [InsertPoll(pollRow), InsertOptions(rows)];
        if optionsInsertOk {
          run := SubmitRun(Created, writes, FormState(EmptyForm, false, errors));
        } else {
          run := SubmitRun(CreateFailed, writes, FormState(form, false, errors));
        }
    }
  }
}
