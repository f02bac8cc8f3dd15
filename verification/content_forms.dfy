/**
 * The editor forms' state (ui/layout/PostForm/PostForm.tsx,
 * ui/layout/PageForm/PageForm.tsx): the form's values and whether the slug
 * was edited by hand, which decides whether the slug follows the title.
 */
module ContentForms {
  import opened Json
  import opened SlugUtils
  import opened EditorForm

  /** The form's values: slug and title, and every other field by name. */
  type Values = Form<map<string, Json>>

  /** Slug and title live in their own components, never in `rest`. */
  predicate WellSplit(f: Values)
  {
    "slug" !in f.rest && "title" !in f.rest
  }

  /** The values as one record, the way the form submits them. */
  function AsMap(f: Values): (r: map<string, Json>)
    ensures "slug" in r && r["slug"] == JStr(f.slug)
    ensures "title" in r && r["title"] == JStr(f.title)
    ensures forall key | key != "slug" && key != "title" :: (key in r <==> key in f.rest)
    ensures forall key | key in f.rest && key != "slug" && key != "title" :: r[key] == f.rest[key]
  {
    f.rest["slug" := JStr(f.slug)]["title" := JStr(f.title)]
  }

  /** `setField(key, value)`: a spread that overwrites one field. */
  function WithField(f: Values, key: string, value: Json): (r: Values)
    requires (key == "slug" || key == "title") ==> value.JStr?
    requires WellSplit(f)
    ensures WellSplit(r)
    ensures key == "slug" ==> r.slug == value.s && r.title == f.title
    ensures key != "slug" && key != "title" ==> r.slug == f.slug && r.title == f.title
  {
    if key == "slug" then f.(slug := value.s)
    else if key == "title" then f.(title := value.s)
    else f.(rest := f.rest[key := value])
  }

  /** Seen as the submitted record, `setField` overwrites exactly the one field. */
  lemma WithFieldAsMap(f: Values, key: string, value: Json)
    requires (key == "slug" || key == "title") ==> value.JStr?
    requires WellSplit(f)
    ensures AsMap(WithField(f, key, value)) == AsMap(f)[key := value]
  {
  }

  /** `onTitleChange(value)`: the title is set; the slug follows it unless edited by hand. */
  function TitleChanged(f: Values, slugEdited: bool, value: string): (r: Values)
    ensures r.title == value && r.rest == f.rest
    ensures slugEdited ==> r.slug == f.slug
    ensures !slugEdited ==> r.slug == Slugify(value) && IsSlug(r.slug)
  {
    f.(title := value, slug := if slugEdited then f.slug else Slugify(value))
  }

  /** While the slug is not edited by hand, it is the title's slug. */
  predicate Synced(f: Values, slugEdited: bool)
  {
    !slugEdited ==> f.slug == Slugify(f.title)
  }

  /** After a title change the form is synced, whichever way the slug went. */
  lemma TitleChangedSyncs(f: Values, slugEdited: bool, value: string)
    ensures Synced(TitleChanged(f, slugEdited, value), slugEdited)
  {
  }

  /** Writing any field other than slug and title keeps a synced form synced. */
  lemma OtherFieldKeepsSynced(f: Values, slugEdited: bool, key: string, value: Json)
    requires WellSplit(f) && key != "slug" && key != "title" && Synced(f, slugEdited)
    ensures Synced(WithField(f, key, value), slugEdited)
  {
  }

  /** The slug typed by hand is stored slugified, so it is always a slug. */
  lemma SlugInputIsSlug(f: Values, text: string)
    requires WellSplit(f)
    ensures WithField(f, "slug", JStr(Slugify(text))).slug == Slugify(text)
    ensures IsSlug(WithField(f, "slug", JStr(Slugify(text))).slug)
  {
  }

  /** Typing the same title twice changes nothing the second time. */
  lemma TitleChangedIdempotent(f: Values, slugEdited: bool, value: string)
    ensures TitleChanged(TitleChanged(f, slugEdited, value), slugEdited, value) == TitleChanged(f, slugEdited, value)
  {
  }

  /** The empty title's slug is empty. */
  lemma SlugOfEmpty()
    ensures Slugify("") == ""
  {
    SlugFixed("");
  }

  /** The post form's initial `slugEdited`: both filled in, and the slug not the title's. */
  function PostInitiallyEdited(initial: Values): (b: bool)
    ensures b ==> initial.title != [] && initial.slug != []
    ensures initial.title != [] && initial.slug != [] ==> (b <==> initial.slug != Slugify(initial.title))
  {
    if initial.title == [] || initial.slug == [] then false
    else initial.slug != Slugify(initial.title)
  }

  /** A post form with a title starts synced. */
  lemma PostFormStartsSynced(initial: Values)
    requires initial.title != []
    ensures Synced(BuildInitialForm(initial), PostInitiallyEdited(initial))
  {
  }

  /** A page form starts synced, whatever its values: an empty slug is filled from the title. */
  lemma PageFormStartsSynced(initial: Values)
    ensures Synced(BuildInitialForm(initial), initial.slug != [])
  {
    SlugOfEmpty();
  }

  /** The post editor's state. */
  class PostForm {
    var form: Values
    var slugEdited: bool

    predicate Valid()
      reads this
    {
      WellSplit(form)
    }

    constructor (initial: Values)
      requires WellSplit(initial)
      ensures Valid()
      ensures form == BuildInitialForm(initial)
      ensures slugEdited == PostInitiallyEdited(initial)
    {
      form := BuildInitialForm(initial);
      slugEdited := PostInitiallyEdited(initial);
    }

    /** `setField`: exactly the named field changes. */
    method SetField(key: string, value: Json)
      requires Valid() && ((key == "slug" || key == "title") ==> value.JStr?)
      modifies this
      ensures Valid() && slugEdited == old(slugEdited)
      ensures form == WithField(old(form), key, value)
    {
      form := WithField(form, key, value);
    }

    method OnTitleChange(value: string)
      requires Valid()
      modifies this
      ensures Valid() && slugEdited == old(slugEdited)
      ensures form == TitleChanged(old(form), slugEdited, value)
    {
      form := TitleChanged(form, slugEdited, value);
    }

    /** Typing into the slug field: the slug is now the user's, slugified. */
    method OnSlugInput(text: string)
      requires Valid()
      modifies this
      ensures Valid() && slugEdited
      ensures form == WithField(old(form), "slug", JStr(Slugify(text)))
    {
      var slug := Slugify(text);
      SetField("slug", JStr(slug));
      slugEdited := true;
    }
  }

  /** The two listing fields the page form's listing section writes. */
  datatype ListingKey = ListingKind | ListingTaxonomyId

  function ListingKeyName(key: ListingKey): (name: string)
    ensures name != "slug" && name != "title" && name != "tags"
  {
    match key
    case ListingKind => "listingKind"
    case ListingTaxonomyId => "listingTaxonomyId"
  }

  /** The page editor's state. */
  class PageForm {
    var form: Values
    var slugEdited: bool

    predicate Valid()
      reads this
    {
      WellSplit(form)
    }

    constructor (initial: Values)
      requires WellSplit(initial)
      ensures Valid()
      ensures form == BuildInitialForm(initial)
      ensures slugEdited <==> initial.slug != []
    {
      form := BuildInitialForm(initial);
      slugEdited := initial.slug != [];
    }

    /** `setField`: exactly the named field changes. */
    method SetField(key: string, value: Json)
      requires Valid() && ((key == "slug" || key == "title") ==> value.JStr?)
      modifies this
      ensures Valid() && slugEdited == old(slugEdited)
      ensures form == WithField(old(form), key, value)
    {
      form := WithField(form, key, value);
    }

    method OnTitleChange(value: string)
      requires Valid()
      modifies this
      ensures Valid() && slugEdited == old(slugEdited)
      ensures form == TitleChanged(old(form), slugEdited, value)
    {
      form := TitleChanged(form, slugEdited, value);
    }

    /** Typing into the slug field: the slug is now the user's, slugified. */
    method OnSlugInput(text: string)
      requires Valid()
      modifies this
      ensures Valid() && slugEdited
      ensures form == WithField(old(form), "slug", JStr(Slugify(text)))
    {
      var slug := Slugify(text);
      SetField("slug", JStr(slug));
      slugEdited := true;
    }

    /** `handleListingChange`: writes the named listing field and nothing else. */
    method HandleListingChange(key: ListingKey, value: Json)
      requires Valid()
      modifies this
      ensures Valid() && slugEdited == old(slugEdited)
      ensures form == WithField(old(form), ListingKeyName(key), value)
    {
      SetField(ListingKeyName(key), value);
    }
  }
}
