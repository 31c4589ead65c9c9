/** The create-project dialog (CSpaceFrontEnd/my_app/src/components/CreateProjectModal.js):
    a form of four text fields, a submit that sends the parsed payload and a
    loading flag and error text around the request. The outcome of the POST
    is an input of the submit. */
module CreateProjectModal {
  import opened Wrappers
  import opened ProjectForms

  const CreateFailed := "Failed to create project"

  class CreateProjectForm {
    var form: FormData
    var loading: bool
    var error: string

    /** The dialog opens with an empty form, not loading and no error. */
    constructor()
      ensures form == EmptyForm && !loading && error == ""
    {
      form := EmptyForm;
      loading := false;
      error := "";
    }

    /** Typing into one input (name, description and tags through their
        `onChange`, category through `handleCategoryChange`) sets that field only. */
    method Edit(field: Field, value: string)
      modifies this
      ensures form == SetField(old(form), field, value)
      ensures loading == old(loading) && error == old(error)
    {
      form := SetField(form, field, value);
    }

    /** `handleSubmit`: sends the payload built from the form; afterwards the
        dialog is not loading, and the error is empty after a success and the
        server's message or the fixed fallback after a failure. The form is
        kept as it was. */
    method HandleSubmit(outcome: RequestOutcome) returns (sent: ProjectPayload, succeeded: bool)
      modifies this
      ensures sent == Payload(old(form))
      ensures succeeded <==> outcome.Succeeded?
      ensures outcome.Succeeded? ==> error == ""
      ensures outcome.Rejected? ==> error == ErrorText(outcome.message, CreateFailed)
      ensures form == old(form) && !loading
    {
      var data := form;
      loading := true;
      error := "";
      sent := Payload(data);
      succeeded := outcome.Succeeded?;
      if outcome.Rejected? {
        error := ErrorText(outcome.message, CreateFailed);
      }
      loading := false;
    }
  }
}
