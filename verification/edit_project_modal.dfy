/** The edit-project dialog (CSpaceFrontEnd/CSpace-app/src/components/EditProjectModal.js):
    the form is filled once from the project it is opened on, every input
    sets one field, and a submit either stops at the category check or sends
    the parsed payload. The outcome of the PUT is an input of the submit. */
module EditProjectModal {
  import opened Wrappers
  import opened Seqs
  import opened ProjectForms

  const CategoryMissing := "Please select a category"
  const UpdateFailed := "Failed to update project"

  /** `project.tags` as it may arrive: an array, a text, or missing/empty. */
  datatype TagsValue = TagArray(items: seq<string>) | TagText(text: string) | NoTags

  /** The `project` prop. */
  datatype ProjectProp = ProjectProp(
    id: int,
    name: Option<string>,
    description: Option<string>,
    category: Option<string>,
    tags: TagsValue)

  /** The PUT the dialog sends: the project's id and the payload. */
  datatype UpdateRequest = UpdateRequest(projectId: int, payload: ProjectPayload)

  /** `loadedData`: missing text fields become empty, an array of tags is
      shown joined with ", " and a tag text is shown as it is. */
  function LoadedData(p: ProjectProp): (d: FormData)
    ensures p.name.None? ==> d.name == ""
    ensures p.description.None? ==> d.description == ""
    ensures p.category.None? ==> d.category == ""
    ensures p.name.Some? ==> d.name == p.name.value
    ensures p.description.Some? ==> d.description == p.description.value
    ensures p.category.Some? ==> d.category == p.category.value
    ensures p.tags.TagArray? ==> d.tags == JoinTags(p.tags.items)
    ensures p.tags.NoTags? ==> d.tags == ""
    ensures p.tags.TagText? ==> d.tags == p.tags.text
  {
    FormData(
      p.name.GetOr(""),
      p.description.GetOr(""),
      p.category.GetOr(""),
      match p.tags
      case TagArray(items) => JoinTags(items)
      case TagText(text) => text
      case NoTags => "")
  }

  /** Opening the dialog on a project and saving it unchanged sends back the
      same tags, as long as each tag is non-empty, trimmed and free of commas. */
  lemma LoadThenSaveKeepsTags(p: ProjectProp)
    requires p.tags.TagArray?
    requires forall k :: 0 <= k < |p.tags.items| ==> WellFormedTag(p.tags.items[k])
    ensures Payload(LoadedData(p)).tags == p.tags.items
  {
    ParseJoinTags(p.tags.items);
  }

  class EditProjectForm {
    var form: FormData
    var loading: bool
    var error: string
    var initialLoad: bool

    /** The dialog starts with an empty form that is still to be loaded. */
    constructor()
      ensures form == EmptyForm && !loading && error == "" && initialLoad
    {
      form := EmptyForm;
      loading := false;
      error := "";
      initialLoad := true;
    }

    /** The loading effect: the first time it runs with a project, the form
        takes the project's data and loading is marked done; any later run,
        or a run without a project, leaves everything as it is. */
    method LoadEffect(project: Option<ProjectProp>)
      modifies this
      ensures old(initialLoad) && project.Some? ==> form == LoadedData(project.value) && !initialLoad
      ensures !(old(initialLoad) && project.Some?) ==> form == old(form) && initialLoad == old(initialLoad)
      ensures loading == old(loading) && error == old(error)
    {
      if project.Some? && initialLoad {
        form := LoadedData(project.value);
        initialLoad := false;
      }
    }

    /** `handleInputChange`: the named field takes the value, nothing else changes. */
    method HandleInputChange(field: Field, value: string)
      modifies this
      ensures form == SetField(old(form), field, value)
      ensures loading == old(loading) && error == old(error) && initialLoad == old(initialLoad)
    {
      form := SetField(form, field, value);
    }

    /** `handleSubmit`: with no category the error asks for one and nothing
        is sent; otherwise the payload is sent for the project's id, loading
        ends false and the error is empty after a success and the server's
        message or the fixed fallback after a failure. */
    method HandleSubmit(projectId: int, outcome: RequestOutcome) returns (request: Option<UpdateRequest>)
      modifies this
      ensures old(form).category == "" ==> request.None? && error == CategoryMissing && loading == old(loading)
      ensures old(form).category != "" ==> request == Some(UpdateRequest(projectId, Payload(old(form)))) && !loading
      ensures old(form).category != "" && outcome.Succeeded? ==> error == ""
      ensures old(form).category != "" && outcome.Rejected? ==> error == ErrorText(outcome.message, UpdateFailed)
      ensures form == old(form) && initialLoad == old(initialLoad)
    {
      var data := form;
      if data.category == "" {
        error := CategoryMissing;
        return None;
      }
      loading := true;
      error := "";
      request := Some(UpdateRequest(projectId, Payload(data)));
      if outcome.Rejected? {
        error := ErrorText(outcome.message, UpdateFailed);
      }
      loading := false;
    }
  }
}
