/**
 The report dialog: its text fields, the image preview, whether it is open,
 and what submitting and removing the image do to that state.
 */
module ReportForm {
  import opened ReportTypes

  /** The six text fields of the form. */
  datatype FormFields = FormFields(
    personName: string,
    itemName: string,
    description: string,
    dateTime: string,
    location: string,
    contactNumber: string)

  /** The whole dialog state: fields, image preview (`""` for none) and open flag. */
  datatype FormState = FormState(fields: FormFields, imagePreview: string, open: bool)

  /** What a submit produces: the draft handed on, and the dialog's next state. */
  datatype Submission = Submission(draft: Draft, next: FormState)

  /** Every text field empty. */
  function EmptyFields(): (f: FormFields)
    ensures f.personName == f.itemName == f.description == f.dateTime == f.location == f.contactNumber == ""
  {
    FormFields("", "", "", "", "", "")
  }

  /** The state the dialog starts in: empty fields, no image, closed. */
  function InitialForm(): FormState
  {
    FormState(EmptyFields(), "", false)
  }

  /** The text fields a draft was built from. */
  function FieldsOf(d: Draft): FormFields
  {
    FormFields(d.personName, d.itemName, d.description, d.dateTime, d.location, d.contactNumber)
  }

  /** The preview an image URL came from: the URL itself, or `""` for none. */
  function PreviewOf(u: Option<string>): string
  {
    match u
    case None => ""
    case Some(v) => v
  }

  /**
   `handleSubmit`: build the draft from the fields, the form's type and the
   preview (an empty preview meaning no image), then reset the dialog.
   */
  function Submit(kind: ReportType, st: FormState): (s: Submission)
    ensures FieldsOf(s.draft) == st.fields
    ensures s.draft.kind == kind
    ensures s.draft.imageUrl.None? <==> st.imagePreview == ""
    ensures PreviewOf(s.draft.imageUrl) == st.imagePreview
    ensures s.next == InitialForm()
  {
    var image := if st.imagePreview == "" then None else Some(st.imagePreview);
    var d := Draft(kind, st.fields.personName, st.fields.itemName, st.fields.description,
                   st.fields.dateTime, st.fields.location, st.fields.contactNumber, image);
    Submission(d, FormState(EmptyFields(), "", false))
  }

  /** The remove-image button: clear the preview and touch nothing else. */
  function RemoveImage(st: FormState): (r: FormState)
    ensures r.imagePreview == ""
    ensures r.fields == st.fields && r.open == st.open
  {
    st.(imagePreview := "")
  }

  /** Submitting after removing the image yields a draft without an image. */
  lemma RemovedImageIsNotSubmitted(kind: ReportType, st: FormState)
    ensures Submit(kind, RemoveImage(st)).draft.imageUrl == None
    ensures FieldsOf(Submit(kind, RemoveImage(st)).draft) == st.fields
  {
  }

  /** A present image URL is never the empty string. */
  lemma SubmittedImageNonEmpty(kind: ReportType, st: FormState)
    ensures Submit(kind, st).draft.imageUrl.Some? ==> Submit(kind, st).draft.imageUrl.value != ""
  {
  }
}
