/** The create-task dialog: its form, the checks run on submit, the task it
    hands to `onCreateTask`, and the reset that follows. */
module TaskDialog {
  import opened Wrappers
  import opened JsString
  import TaskActions

  datatype FormData = FormData(title: string, description: string, status: string, deadline: string, assignee: string)

  /** `Partial<FormData>` as the dialog fills it: one optional message per
      checked field. */
  datatype FormErrors = FormErrors(title: Option<string>, description: Option<string>,
                                   deadline: Option<string>, assignee: Option<string>)

  datatype UserOption = UserOption(id: string, fullName: string)

  /** The object passed to `onCreateTask`. */
  datatype TaskPayload = TaskPayload(
    title: string,
    description: string,
    status: string,
    deadline: string,
    assigneeId: string,
    assigneeName: string,
    createdByName: string)

  const TitleRequired: string := "El título es requerido"
  const DescriptionRequired: string := "La descripción es requerida"
  const DeadlineRequired: string := "La fecha es requerida"
  const AssigneeRequired: string := "Debes asignar la tarea a alguien"

  function EmptyForm(): FormData {
    FormData("", "", "pendiente", "", "")
  }

  function NoErrors(): FormErrors {
    FormErrors(None, None, None, None)
  }

  predicate HasErrors(e: FormErrors) {
    e.title.Some? || e.description.Some? || e.deadline.Some? || e.assignee.Some?
  }

  // ---------------------------------------------------------------------------
  // Status options

  /** The options of the status select as written: the second is misspelt. */
  const StatusOptionsAsWritten: seq<string> := ["pendiente", "completeda"]

  /** The options as intended: the two task statuses. */
  const StatusOptions: seq<string> := ["pendiente", "completada"]

  /** The misspelt option names no task status, so the task it sends is not
      a "pendiente" | "completada" task. */
  lemma StatusOptionAsWrittenUnknown()
    ensures StatusOptionsAsWritten[1] == "completeda"
    ensures TaskActions.StatusFromName(StatusOptionsAsWritten[1]).None?
  {
  }

  /** Each intended option names a task status, and every status has its
      option. */
  lemma StatusOptionsAreStatuses()
    ensures forall o :: o in StatusOptions ==> TaskActions.StatusFromName(o).Some?
    ensures forall s: TaskActions.TaskStatus :: TaskActions.Declared(s) ==> TaskActions.StatusName(s) in StatusOptions
  {
    assert TaskActions.StatusFromName("pendiente").Some?;
    assert TaskActions.StatusFromName("completada").Some?;
  }

  // ---------------------------------------------------------------------------
  // Payload

  /** `users.find((u) => u.$id === assignee)`. */
  function FindUser(users: seq<UserOption>, id: string): (r: Option<UserOption>)
    ensures r.None? <==> forall i :: 0 <= i < |users| ==> users[i].id != id
    ensures r.Some? ==> r.value in users && r.value.id == id
  {
    if users == [] then None
    else if users[0].id == id then Some(users[0])
    else FindUser(users[1..], id)
  }

  /** `selectedUser?.fullName || "Sin nombre"`. */
  function AssigneeName(users: seq<UserOption>, id: string): (name: string)
    ensures name == "Sin nombre" <==> FindUser(users, id).None? || FindUser(users, id).value.fullName in {"", "Sin nombre"}
    ensures name != "Sin nombre" ==> name == FindUser(users, id).value.fullName
  {
    match FindUser(users, id)
    case Some(u) => if u.fullName != "" then u.fullName else "Sin nombre"
    case None => "Sin nombre"
  }

  /** The task the dialog hands on: the form's fields, the selected id as the
      assignee, and the creator written as "Admin". */
  function Payload(form: FormData, users: seq<UserOption>): (p: TaskPayload)
    ensures p.assigneeName != ""
    ensures FindUser(users, form.assignee).None? ==> p.assigneeName == "Sin nombre"
  {
    TaskPayload(form.title, form.description, form.status, form.deadline, form.assignee,
                AssigneeName(users, form.assignee), "Admin")
  }

  /** The payload carries the form unchanged: the five fields can be read
      back from it. */
  lemma PayloadKeepsForm(form: FormData, users: seq<UserOption>)
    ensures var p := Payload(form, users);
            FormData(p.title, p.description, p.status, p.deadline, p.assigneeId) == form
            && p.createdByName == "Admin"
  {
  }

  // ---------------------------------------------------------------------------

  class CreateTaskDialog {
    var formData: FormData
    var errors: FormErrors
    var users: seq<UserOption>

    constructor (users: seq<UserOption>)
      ensures formData == EmptyForm() && errors == NoErrors() && this.users == users
    {
      formData := EmptyForm();
      errors := NoErrors();
      this.users := users;
    }

    /** `validateForm`: one message per missing field. Title, description and
        assignee are trimmed first; the deadline is not. */
    method ValidateForm() returns (newErrors: FormErrors)
      ensures newErrors.title.Some? <==> IsBlank(formData.title)
      ensures newErrors.description.Some? <==> IsBlank(formData.description)
      ensures newErrors.deadline.Some? <==> formData.deadline == ""
      ensures newErrors.assignee.Some? <==> IsBlank(formData.assignee)
      ensures newErrors.title.Some? ==> newErrors.title.value == TitleRequired
      ensures newErrors.description.Some? ==> newErrors.description.value == DescriptionRequired
      ensures newErrors.deadline.Some? ==> newErrors.deadline.value == DeadlineRequired
      ensures newErrors.assignee.Some? ==> newErrors.assignee.value == AssigneeRequired
    {
      newErrors := NoErrors();
      TrimEmptyIffBlank(formData.title);
      TrimEmptyIffBlank(formData.description);
      TrimEmptyIffBlank(formData.assignee);
      if Trim(formData.title) == "" {
        newErrors := newErrors.(title := Some(TitleRequired));
      }
      if Trim(formData.description) == "" {
        newErrors := newErrors.(description := Some(DescriptionRequired));
      }
      if formData.deadline == "" {
        newErrors := newErrors.(deadline := Some(DeadlineRequired));
      }
      if Trim(formData.assignee) == "" {
        newErrors := newErrors.(assignee := Some(AssigneeRequired));
      }
    }

    /** `handleSubmit`: on errors, shows them and keeps the form; otherwise
        returns the one task handed to `onCreateTask` and resets the form. */
    method HandleSubmit() returns (created: Option<TaskPayload>)
      modifies this
      ensures users == old(users)
      ensures var blank := IsBlank(old(formData).title) || IsBlank(old(formData).description)
                           || old(formData).deadline == "" || IsBlank(old(formData).assignee);
              && (blank ==> created.None? && formData == old(formData) && HasErrors(errors)
                            && errors.title == (if IsBlank(old(formData).title) then Some(TitleRequired) else None)
                            && errors.description == (if IsBlank(old(formData).description) then Some(DescriptionRequired) else None)
                            && errors.deadline == (if old(formData).deadline == "" then Some(DeadlineRequired) else None)
                            && errors.assignee == (if IsBlank(old(formData).assignee) then Some(AssigneeRequired) else None))
              && (!blank ==> created == Some(Payload(old(formData), users))
                             && formData == EmptyForm() && errors == NoErrors())
    {
      var newErrors := ValidateForm();
      if HasErrors(newErrors) {
        errors := newErrors;
        return None;
      }
      created := Some(Payload(formData, users));
      formData := EmptyForm();
      errors := NoErrors();
    }

    /** Typing a title clears the title's message only. */
    method SetTitle(value: string)
      modifies this
      ensures users == old(users)
      ensures formData == old(formData).(title := value) && errors == old(errors).(title := None)
    {
      formData := formData.(title := value);
      if errors.title.Some? {
        errors := errors.(title := None);
      }
    }

    method SetDescription(value: string)
      modifies this
      ensures users == old(users)
      ensures formData == old(formData).(description := value) && errors == old(errors).(description := None)
    {
      formData := formData.(description := value);
      if errors.description.Some? {
        errors := errors.(description := None);
      }
    }

    method SetDeadline(value: string)
      modifies this
      ensures users == old(users)
      ensures formData == old(formData).(deadline := value) && errors == old(errors).(deadline := None)
    {
      formData := formData.(deadline := value);
      if errors.deadline.Some? {
        errors := errors.(deadline := None);
      }
    }

    method SetAssignee(value: string)
      modifies this
      ensures users == old(users)
      ensures formData == old(formData).(assignee := value) && errors == old(errors).(assignee := None)
    {
      formData := formData.(assignee := value);
      if errors.assignee.Some? {
        errors := errors.(assignee := None);
      }
    }

    /** Picking a status touches no message. The select offers the options
        as written. */
    method SetStatus(value: string)
      requires value in StatusOptionsAsWritten
      modifies this
      ensures users == old(users)
      ensures formData == old(formData).(status := value) && errors == old(errors)
    {
      formData := formData.(status := value);
    }

    /** Choosing "Completada" in the select and then submitting: the misspelt
        value reaches the task handed on, and it names no task status. */
    method SubmitMarkedCompleted() returns (created: Option<TaskPayload>)
      modifies this
      ensures users == old(users)
      ensures created.Some? <==> !(IsBlank(old(formData).title) || IsBlank(old(formData).description)
                                   || old(formData).deadline == "" || IsBlank(old(formData).assignee))
      ensures created.Some? ==> created.value.status == "completeda"
                                && TaskActions.StatusFromName(created.value.status).None?
    {
      SetStatus(StatusOptionsAsWritten[1]);
      created := HandleSubmit();
      StatusOptionAsWrittenUnknown();
    }
  }
}
