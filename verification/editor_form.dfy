/**
 * Helpers shared by the page and post editors (ui/utils/editorForm.ts).
 */
module EditorForm {
  import opened Prelude
  import opened Json
  import opened Strings
  import opened SlugUtils

  /** A form value with a slug and a title; `rest` holds every other field. */
  datatype Form<T> = Form(slug: string, title: string, rest: T)

  /** `buildInitialForm`: an empty slug next to a title is filled from the title. */
  function BuildInitialForm<T>(initial: Form<T>): (r: Form<T>)
    ensures initial.slug == [] && initial.title != [] ==> r.slug == Slugify(initial.title)
    ensures !(initial.slug == [] && initial.title != []) ==> r == initial
    ensures r.title == initial.title && r.rest == initial.rest
    ensures IsSlug(r.slug) || r.slug == initial.slug
  {
    if initial.slug == [] && initial.title != [] then initial.(slug := Slugify(initial.title))
    else initial
  }

  /** Building twice is building once. */
  lemma BuildInitialFormIdempotent<T>(initial: Form<T>)
    ensures BuildInitialForm(BuildInitialForm(initial)) == BuildInitialForm(initial)
  {
  }

  /** `getEntityId`: a string `id` with some non-blank content, returned untrimmed. */
  function GetEntityId(value: Json): (r: Option<string>)
    ensures r.Some? ==> value.JObj? && Get(value, "id") == JStr(r.value) && Trim(r.value) != []
    ensures !IsObject(value) ==> r.None?
    ensures value.JObj? && Get(value, "id").JStr? && Trim(Get(value, "id").s) != [] ==> r == Some(Get(value, "id").s)
  {
    if !IsObject(value) then None
    else
      var id := Get(value, "id");
      if id.JStr? && Trim(id.s) != [] then Some(id.s) else None
  }
}
