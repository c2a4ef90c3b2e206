/** The add-task dialog: a form record edited field by field, a validity gate
    on the trimmed title, and the keyboard handling around it. */
module AddTaskModal {
  import opened Text
  import opened Tasks

  /** `formData`: what the dialog hands to the board on submission. */
  datatype FormData = FormData(title: string, description: string, priority: Priority)

  /** The form the dialog opens with. */
  function InitialForm(): (f: FormData)
    ensures f.title == [] && f.description == [] && f.priority == Medium
  {
    FormData("", "", Medium)
  }

  /** `formData.title.trim()` is truthy. */
  predicate TitleValid(title: string) {
    Trim(title) != []
  }

  /** A title is valid exactly when it has a character that is not whitespace. */
  lemma TitleValidIff(title: string)
    ensures TitleValid(title) <==> exists i :: 0 <= i < |title| && !IsWhitespace(title[i])
  {
    TrimEmptyIff(title);
  }

  /** What `handleSubmit` passes to `handleAddTask`: the form exactly as typed
      (the title is not trimmed), or nothing when the title is blank. */
  function Submission(form: FormData): (r: Option<FormData>)
    ensures r.Some? <==> exists i :: 0 <= i < |form.title| && !IsWhitespace(form.title[i])
    ensures r.Some? ==> r.value == form
  {
    TitleValidIff(form.title);
    if TitleValid(form.title) then Some(form) else None
  }

  /** The submit button's `disabled` attribute. */
  predicate SubmitDisabled(form: FormData) {
    !TitleValid(form.title)
  }

  /** Whether the "Title is required" message is rendered. */
  predicate ShowsTitleRequired(form: FormData) {
    !TitleValid(form.title)
  }

  /** The button is disabled and the message shown exactly when a submission
      would be refused, i.e. when the title is empty or all whitespace. */
  lemma GateAgreesWithSubmission(form: FormData)
    ensures SubmitDisabled(form) <==> Submission(form).None?
    ensures ShowsTitleRequired(form) <==> Submission(form).None?
    ensures SubmitDisabled(form) <==> forall i :: 0 <= i < |form.title| ==> IsWhitespace(form.title[i])
  {
    TitleValidIff(form.title);
  }

  /** The dialog as first shown refuses to submit. */
  lemma InitialFormRefused()
    ensures SubmitDisabled(InitialForm()) && Submission(InitialForm()) == None
  {
    GateAgreesWithSubmission(InitialForm());
  }

  /** What a key press leads to. */
  datatype KeyEffect = Submit(data: FormData) | Close | Ignore

  /** `handleKeyPress` decided on the form it is given: Enter submits that form
      when its title is valid, Escape closes, anything else does nothing. */
  function KeyPressEffect(form: FormData, key: string): (e: KeyEffect)
    ensures e.Submit? <==> key == "Enter" && TitleValid(form.title)
    ensures e.Submit? ==> e.data == form && Submission(form) == Some(form)
    ensures e.Close? <==> key == "Escape"
  {
    if key == "Enter" && TitleValid(form.title) then
      match Submission(form)
      case Some(data) => Submit(data)
      case None => Ignore
    else if key == "Escape" then Close
    else Ignore
  }

  /** The dialog's state. The document `keydown` listener is registered in an
      effect that re-runs only when the title changes, so it sees the form as
      it was at the last title edit; `listenerForm` is that form. */
  class Modal {
    var formData: FormData
    var listenerForm: FormData

    /** The listener always sees the current title. */
    ghost predicate Valid()
      reads this
    {
      listenerForm.title == formData.title
    }

    constructor ()
      ensures Valid()
      ensures formData == InitialForm() && listenerForm == InitialForm()
    {
      formData := InitialForm();
      listenerForm := InitialForm();
    }

    /** The title input's `onChange`; the listener is registered anew. */
    method ChangeTitle(value: string)
      modifies this
      ensures Valid()
      ensures formData == old(formData).(title := value)
      ensures listenerForm == formData
    {
      formData := formData.(title := value);
      listenerForm := formData;
    }

    /** The description's `onChange`; the listener keeps its old form. */
    method ChangeDescription(value: string)
      requires Valid()
      modifies this`formData
      ensures Valid()
      ensures formData == old(formData).(description := value)
    {
      formData := formData.(description := value);
    }

    /** The priority select's `onChange`; the listener keeps its old form. */
    method ChangePriority(value: Priority)
      requires Valid()
      modifies this`formData
      ensures Valid()
      ensures formData == old(formData).(priority := value)
    {
      formData := formData.(priority := value);
    }

    /** `handleSubmit` (the button): forwards the current form when its title is valid. */
    method HandleSubmit() returns (forwarded: Option<FormData>)
      ensures forwarded == Submission(formData)
    {
      forwarded := Submission(formData);
    }

    /** The title input's `onKeyPress`: Enter submits the current form when the
        title is valid; no other key does anything. */
    method TitleKeyPress(key: string) returns (effect: KeyEffect)
      ensures effect.Submit? <==> key == "Enter" && TitleValid(formData.title)
      ensures effect.Submit? ==> effect.data == formData
      ensures !effect.Close?
    {
      if key == "Enter" && TitleValid(formData.title) {
        var sent := HandleSubmit();
        effect := if sent.Some? then Submit(sent.value) else Ignore;
      } else {
        effect := Ignore;
      }
    }

    /** The document `keydown` listener as written: `handleKeyPress` of the
        render in which it was registered. The decision to submit is taken on
        the current title, but the form it submits is `listenerForm`. */
    method HandleKeyDown(key: string) returns (effect: KeyEffect)
      requires Valid()
      ensures effect == KeyPressEffect(listenerForm, key)
      ensures effect.Submit? <==> key == "Enter" && TitleValid(formData.title)
      ensures effect.Close? <==> key == "Escape"
    {
      effect := KeyPressEffect(listenerForm, key);
    }
  }

  /** "Fix" passes the title gate. */
  lemma FixIsValid()
    ensures TitleValid("Fix")
  {
    TitleValidIff("Fix");
    assert !IsWhitespace("Fix"[0]);
  }

  /** Typing a title, then choosing a priority and pressing Enter submits the
      priority the form had when the title was typed, not the one chosen. */
  method StaleListenerScenario() returns (sent: KeyEffect, shown: FormData)
    ensures shown.priority == High
    ensures sent == Submit(FormData("Fix", "", Medium))
  {
    var modal := new Modal();
    modal.ChangeTitle("Fix");
    modal.ChangePriority(High);
    FixIsValid();
    sent := modal.HandleKeyDown("Enter");
    shown := modal.formData;
  }
}
