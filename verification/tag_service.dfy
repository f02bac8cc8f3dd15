/**
 * The tag service (apps/admin/src/lib/services/tag.server.ts): search-key
 * preparation, validation messages, tag creation with its unique-slug loop,
 * tag deletion and the page-tag update, over the tables of `TagRepo`.
 */
module TagService {
  import opened Prelude
  import opened Json
  import opened Strings
  import opened SlugUtils
  import opened TagRepo

  datatype ServiceError =
    | ValidationError(message: string)
    | NotFoundError(message: string)
    | TypeError(message: string)
    | Failed(message: string)

  // ---------------------------------------------------------------------
  // getValidationMessage
  // ---------------------------------------------------------------------

  /** How `Array.prototype.join` writes one element: `null` and `undefined` as nothing, nested arrays joined by commas. */
  function JoinText(v: Json): string
    decreases Size(v), 1
  {
    match v
    case JUndefined => ""
    case JNull => ""
    case JBool(b) => if b then "true" else "false"
    case JNum(n) => NumberText(n)
    case JStr(s) => s
    case JArr(items) => JoinItems(items, ",")
    case JObj(_) => "[object Object]"
  }

  /** `items.join(sep)`. */
  function JoinItems(items: seq<Json>, sep: string): string
    decreases SizeItems(items), 2
  {
    if items == [] then ""
    else if |items| == 1 then JoinText(items[0])
    else JoinText(items[0]) + sep + JoinItems(items[1..], sep)
  }

  /** Joining strings is joining their texts. */
  lemma {:induction false} JoinItemsStrings(ms: seq<string>, sep: string)
    ensures JoinItems(Strs(ms), sep) == Join(ms, sep)
  {
    if |ms| > 1 {
      assert Strs(ms)[1..] == Strs(ms[1..]);
      JoinItemsStrings(ms[1..], sep);
    }
  }

  /** The error carries an `errors` array with at least one entry. */
  predicate UsableErrors(error: Json)
  {
    Has(error, "errors") && Get(error, "errors").JArr? && |Get(error, "errors").items| > 0
  }

  /** `getValidationMessage`: a non-empty `errors` array joined by ", ", else a string `message`, else a fixed text. */
  function GetValidationMessage(error: Json): (r: string)
    ensures UsableErrors(error) ==> r == JoinItems(Get(error, "errors").items, ", ")
    ensures !UsableErrors(error) && Get(error, "message").JStr? ==> r == Get(error, "message").s
    ensures !UsableErrors(error) && !Get(error, "message").JStr? ==> r == "Invalid tag data"
  {
    var errors := Get(error, "errors");
    var message := Get(error, "message");
    if Has(error, "errors") && errors.JArr? && |errors.items| > 0 then JoinItems(errors.items, ", ")
    else if Has(error, "message") && message.JStr? then message.s
    else "Invalid tag data"
  }

  /** The error a failed schema check throws: its messages under `errors`, the first one as `message`. */
  function SchemaError(messages: seq<string>): Json
    requires messages != []
  {
    JObj([Prop("errors", JArr(Strs(messages))), Prop("message", JStr(messages[0]))])
  }

  /** The message of a schema error is its messages joined by ", ". */
  lemma SchemaErrorMessage(messages: seq<string>)
    requires messages != []
    ensures GetValidationMessage(SchemaError(messages)) == Join(messages, ", ")
  {
    var e := SchemaError(messages);
    assert e.props[0].key == "errors";
    LookupFirst(e.props, "errors", JArr(Strs(messages)));
    JoinItemsStrings(messages, ", ");
  }

  /** Without a usable `errors` array, a string `message` is the message. */
  lemma MessageFallback(message: string)
    ensures GetValidationMessage(JObj([Prop("message", JStr(message))])) == message
    ensures GetValidationMessage(JObj([Prop("errors", JArr([])), Prop("message", JStr(message))])) == message
  {
    var p := [Prop("message", JStr(message))];
    LookupFirst(p, "message", JStr(message));
    assert Lookup(p, "errors") == JUndefined;
    var q := [Prop("errors", JArr([])), Prop("message", JStr(message))];
    assert Lookup(q, "message") == Lookup(q[1..], "message");
    LookupFirst(q[1..], "message", JStr(message));
    assert q[0].key == "errors";
  }

  // ---------------------------------------------------------------------
  // Validation
  // ---------------------------------------------------------------------

  /** The tag schema's rule: the name, trimmed, is required. */
  function ValidateName(rawName: string): (r: Outcome<string, ServiceError>)
    ensures r.Ok? <==> Trim(rawName) != []
    ensures r.Ok? ==> r.value == Trim(rawName) && IsTrimmed(r.value)
    ensures r.Fail? ==> r.error == ValidationError("Name is required")
  {
    if Trim(rawName) == [] then
      SchemaErrorMessage(["Name is required"]);
      Fail(ValidationError(GetValidationMessage(SchemaError(["Name is required"]))))
    else Ok(Trim(rawName))
  }

  /** The validation step as written: the schema is a yup schema, which has no `safeParse`, so the call throws. */
  function ValidateAsWritten(rawName: string): Outcome<string, ServiceError>
  {
    Fail(TypeError("TagCreateSchema.safeParse is not a function"))
  }

  /** Every name is refused as written, including every name the schema accepts. */
  lemma SafeParseRejectsAll(rawName: string)
    requires Trim(rawName) != []
    ensures ValidateAsWritten(rawName).Fail? && ValidateAsWritten(rawName).error.TypeError?
    ensures ValidateName(rawName) == Ok(Trim(rawName))
  {
  }

  // ---------------------------------------------------------------------
  // Search key and slug base
  // ---------------------------------------------------------------------

  lemma {:induction false} ReplaceSpaceRunsNonEmpty(s: string, rep: string)
    requires rep != []
    ensures s != [] ==> ReplaceSpaceRuns(s, rep) != []
  {
  }

  lemma SlugHasNoSpace(slug: string)
    requires IsSlug(slug)
    ensures forall i :: 0 <= i < |slug| ==> !IsSpace(slug[i])
  {
  }

  /** `text.toLowerCase().replace(/\s+/g, "-")`. */
  function Hyphenated(text: string): (r: string)
    ensures text != [] ==> r != []
    ensures forall i :: 0 <= i < |r| ==> !IsSpace(r[i])
  {
    ReplaceSpaceRunsNoSpace(Lower(text), "-");
    ReplaceSpaceRunsNonEmpty(Lower(text), "-");
    ReplaceSpaceRuns(Lower(text), "-")
  }

  /** `slugify(text) || text.toLowerCase().replace(/\s+/g, "-")`. */
  function SlugOrHyphenated(text: string): (r: string)
    ensures text != [] ==> r != []
    ensures forall i :: 0 <= i < |r| ==> !IsSpace(r[i])
  {
    var slug := Slugify(text);
    SlugHasNoSpace(slug);
    if slug != [] then slug else Hyphenated(text)
  }

  /** `searchTagsService`'s key: none (no lookup, no results) for a query under two characters once trimmed. */
  function SearchKey(query: string): (r: Option<string>)
    ensures r.None? <==> |Trim(query)| < 2
    ensures r.Some? ==> r.value != [] && forall i :: 0 <= i < |r.value| ==> !IsSpace(r.value[i])
    ensures r.Some? && Slugify(Trim(query)) != [] ==> r.value == Slugify(Trim(query))
  {
    var trimmed := Trim(query);
    if |trimmed| < 2 then None else Some(SlugOrHyphenated(trimmed))
  }

  // ---------------------------------------------------------------------
  // The unique-slug loop
  // ---------------------------------------------------------------------

  /** The k-th slug the loop tries: the base, then `base-2`, `base-3`, … */
  function Candidate(base: string, k: nat): string
  {
    if k <= 1 then base else base + "-" + NatToString(k)
  }

  /** Different attempts try different slugs. */
  lemma CandidateInjective(base: string, j: nat, k: nat)
    requires 1 <= j && 1 <= k && Candidate(base, j) == Candidate(base, k)
    ensures j == k
  {
    if j > 1 && k > 1 {
      var n := |base| + 1;
      assert Candidate(base, j)[n..] == NatToString(j);
      assert Candidate(base, k)[n..] == NatToString(k);
      NatToStringInjective(j, k);
    }
  }

  /** The slug is the first candidate not taken. */
  ghost predicate IsFirstFree(base: string, taken: set<string>, slug: string)
  {
    exists k: nat :: 1 <= k && slug == Candidate(base, k) && slug !in taken
      && forall i :: 1 <= i < k ==> Candidate(base, i) in taken
  }

  /** There is only one first free candidate. */
  lemma FirstFreeUnique(base: string, taken: set<string>, s1: string, s2: string)
    requires IsFirstFree(base, taken, s1) && IsFirstFree(base, taken, s2)
    ensures s1 == s2
  {
    var k1: nat :| 1 <= k1 && s1 == Candidate(base, k1) && s1 !in taken && forall i :: 1 <= i < k1 ==> Candidate(base, i) in taken;
    var k2: nat :| 1 <= k2 && s2 == Candidate(base, k2) && s2 !in taken && forall i :: 1 <= i < k2 ==> Candidate(base, i) in taken;
    if k1 < k2 {
      assert false;
    } else if k2 < k1 {
      assert false;
    }
  }

  lemma {:induction false} SubsetCard<T>(a: set<T>, b: set<T>)
    requires a <= b
    ensures |a| <= |b|
  {
    if a != {} {
      var x :| x in a;
      SubsetCard(a - {x}, b - {x});
    }
  }

  /** The loop of `createTagService`: try the base, then `base-2`, `base-3`, … until one is not taken. */
  method UniqueSlug(base: string, taken: set<string>) returns (slug: string)
    ensures IsFirstFree(base, taken, slug)
  {
    slug := base;
    var counter: nat := 1;
    ghost var tried: set<string> := {};
    while slug in taken
      invariant counter >= 1 && slug == Candidate(base, counter)
      invariant forall i :: 1 <= i < counter ==> Candidate(base, i) in taken
      invariant forall t :: t in tried ==> exists i :: 1 <= i < counter && t == Candidate(base, i)
      invariant tried <= taken && |tried| == counter - 1
      decreases |taken| - |tried|
    {
      if slug in tried {
        var i :| 1 <= i < counter && slug == Candidate(base, i);
        CandidateInjective(base, i, counter);
        assert false;
      }
      tried := tried + {slug};
      SubsetCard(tried, taken);
      counter := counter + 1;
      slug := Candidate(base, counter);
    }
  }

  // ---------------------------------------------------------------------
  // createTagService
  // ---------------------------------------------------------------------

  /** The slugs the loop sees as written: `findTagBySlug` only reports tags. */
  function TagSlugs(rows: seq<Taxonomy>): (r: set<string>)
    ensures forall s :: s in r ==> HasSlug(rows, s)
  {
    set i | 0 <= i < |rows| && rows[i].kind == TagType :: rows[i].slug
  }

  /**
   * As written, a category whose slug equals the tag's slug base is not
   * seen by the loop, which then settles on that slug; the insert hits the
   * slug's unique constraint and the creation fails.
   */
  lemma SlugLoopMissesCategory()
    ensures var rows := [Taxonomy("c1", OtherType("CATEGORY"), "News", "news")];
      IsFirstFree("news", TagSlugs(rows), "news") && HasSlug(rows, "news")
  {
    var rows := [Taxonomy("c1", OtherType("CATEGORY"), "News", "news")];
    assert "news" !in TagSlugs(rows);
    assert Candidate("news", 1) == "news";
    assert rows[0].slug == "news";
  }

  /**
   * Steps 2 to 4 of `createTagService` for a validated name, with the slug
   * loop checking every taxonomy: an existing tag with the same name
   * ignoring case is returned, else a tag is inserted under the first slug
   * no row carries, so the insert cannot fail.
   */
  method CreateValidated(store: TagStore, name: string, freshId: string) returns (r: Outcome<TagDto, ServiceError>)
    requires store.Valid() && !HasId(store.rows, freshId)
    modifies store
    ensures store.Valid() && store.links == old(store.links)
    ensures FindTagByName(old(store.rows), name).Some? ==>
      r == Ok(FindTagByName(old(store.rows), name).value) && store.rows == old(store.rows)
    ensures FindTagByName(old(store.rows), name).None? ==>
      r.Ok? && r.value.id == freshId && r.value.name == name
      && IsFirstFree(SlugOrHyphenated(name), Slugs(old(store.rows)), r.value.slug)
      && store.rows == old(store.rows) + [Taxonomy(freshId, TagType, name, r.value.slug)]
  {
    var existing := FindTagByName(store.rows, name);
    if existing.Some? {
      return Ok(existing.value);
    }
    var slugBase := SlugOrHyphenated(name);
    var slug := UniqueSlug(slugBase, Slugs(store.rows));
    var created := store.CreateTagRecord(name, slug, freshId);
    if created.Fail? {
      assert false;
      return Fail(Failed("Failed to create tag"));
    }
    r := Ok(created.value);
  }

  /**
   * Steps 2 to 4 of `createTagService` as written: the loop asks
   * `findTagBySlug`, which reports tags only, so it can settle on a slug a
   * row of another taxonomy carries; the insert then breaks the unique
   * constraint and `unwrapResult` throws "Failed to create tag".
   */
  method CreateValidatedAsWritten(store: TagStore, name: string, freshId: string) returns (r: Outcome<TagDto, ServiceError>)
    requires store.Valid() && !HasId(store.rows, freshId)
    modifies store
    ensures store.Valid() && store.links == old(store.links)
    ensures FindTagByName(old(store.rows), name).Some? ==>
      r == Ok(FindTagByName(old(store.rows), name).value) && store.rows == old(store.rows)
    ensures FindTagByName(old(store.rows), name).None? ==>
      exists slug :: IsFirstFree(SlugOrHyphenated(name), TagSlugs(old(store.rows)), slug)
        && (HasSlug(old(store.rows), slug) ==> r == Fail(Failed("Failed to create tag")) && store.rows == old(store.rows))
        && (!HasSlug(old(store.rows), slug) ==>
              r == Ok(TagDto(freshId, name, slug)) && store.rows == old(store.rows) + [Taxonomy(freshId, TagType, name, slug)])
    ensures r.Fail? ==> exists i :: 0 <= i < |old(store.rows)| && old(store.rows)[i].kind != TagType
  {
    var existing := FindTagByName(store.rows, name);
    if existing.Some? {
      return Ok(existing.value);
    }
    var slugBase := SlugOrHyphenated(name);
    var slug := UniqueSlug(slugBase, TagSlugs(store.rows));
    ghost var k: nat :| 1 <= k && slug == Candidate(slugBase, k) && slug !in TagSlugs(store.rows);
    var created := store.CreateTagRecord(name, slug, freshId);
    if created.Fail? {
      ghost var i :| 0 <= i < |old(store.rows)| && old(store.rows)[i].slug == slug;
      assert old(store.rows)[i].kind != TagType;
      return Fail(Failed("Failed to create tag"));
    }
    r := Ok(created.value);
  }

  /**
   * `createTagService` with a validation step that works: a blank name is
   * refused with the schema's message, and the rest is `CreateValidated`.
   */
  method CreateTag(store: TagStore, rawName: string, freshId: string) returns (r: Outcome<TagDto, ServiceError>)
    requires store.Valid() && !HasId(store.rows, freshId)
    modifies store
    ensures store.Valid() && store.links == old(store.links)
    ensures Trim(rawName) == [] ==> r == Fail(ValidationError("Name is required")) && store.rows == old(store.rows)
    ensures Trim(rawName) != [] && FindTagByName(old(store.rows), Trim(rawName)).Some? ==>
      r == Ok(FindTagByName(old(store.rows), Trim(rawName)).value) && store.rows == old(store.rows)
    ensures Trim(rawName) != [] && FindTagByName(old(store.rows), Trim(rawName)).None? ==>
      r.Ok? && r.value.id == freshId && r.value.name == Trim(rawName)
      && IsFirstFree(SlugOrHyphenated(Trim(rawName)), Slugs(old(store.rows)), r.value.slug)
      && store.rows == old(store.rows) + [Taxonomy(freshId, TagType, Trim(rawName), r.value.slug)]
  {
    var parsed := ValidateName(rawName);
    if parsed.Fail? {
      return Fail(parsed.error);
    }
    r := CreateValidated(store, parsed.value, freshId);
  }

  /**
   * `createTagService` as written: the `safeParse` call throws before the
   * table is read, for every name.
   */
  method CreateTagAsWritten(store: TagStore, rawName: string, freshId: string) returns (r: Outcome<TagDto, ServiceError>)
    ensures r.Fail? && r.error.TypeError?
  {
    var parsed := ValidateAsWritten(rawName);
    if parsed.Ok? {
      assert false;
    }
    r := Fail(parsed.error);
  }

  // ---------------------------------------------------------------------
  // deleteTagService and setTagsForPageService
  // ---------------------------------------------------------------------

  /** `deleteTagService` over the tag-only delete: a blank id is invalid; an id that deletes no tag is not found. */
  method DeleteTagService(store: TagStore, rawId: string) returns (r: Outcome<(), ServiceError>)
    requires store.Valid()
    modifies store
    ensures store.Valid()
    ensures Trim(rawId) == [] ==> r == Fail(ValidationError("ID is required")) && store.rows == old(store.rows) && store.links == old(store.links)
    ensures Trim(rawId) != [] ==>
      var d := DeleteTag(old(store.rows), old(store.links), Trim(rawId));
      store.rows == d.rows && store.links == d.links
      && (r.Ok? <==> d.deleted.Some?)
      && (r.Fail? ==> r.error == NotFoundError("Tag not found"))
  {
    var id := Trim(rawId);
    if id == [] {
      return Fail(ValidationError("ID is required"));
    }
    var deleted := store.DeleteTagRecord(id);
    if deleted.None? {
      return Fail(NotFoundError("Tag not found"));
    }
    r := Ok(());
  }

  /**
   * `deleteTagService` as written: `deleteTagRecord` removes the row with
   * that id whatever its type, and reports a non-tag as not found after
   * deleting it.
   */
  method DeleteTagServiceAsWritten(store: TagStore, rawId: string) returns (r: Outcome<(), ServiceError>)
    requires store.Valid()
    modifies store
    ensures Trim(rawId) == [] ==> r == Fail(ValidationError("ID is required")) && store.rows == old(store.rows) && store.links == old(store.links)
    ensures Trim(rawId) != [] ==>
      var d := DeleteAsWritten(old(store.rows), old(store.links), Trim(rawId));
      store.rows == d.rows && store.links == d.links
      && (r.Ok? <==> d.deleted.Some?)
      && (r.Fail? ==> r.error == NotFoundError("Tag not found"))
  {
    var id := Trim(rawId);
    if id == [] {
      return Fail(ValidationError("ID is required"));
    }
    var deleted := store.DeleteTagRecordAsWritten(id);
    if deleted.None? {
      return Fail(NotFoundError("Tag not found"));
    }
    r := Ok(());
  }

  /**
   * `setTagsForPageService`: normalise the raw ids, then replace the page's
   * links; `pageIds` are the ids of the page table, which the page id is not
   * checked against before the transaction.
   */
  method SetTagsForPageService(store: TagStore, pageId: string, rawTagIds: Json, pageIds: set<string>) returns (r: Outcome<(), ServiceError>)
    requires store.Valid()
    modifies store
    ensures store.Valid() && store.rows == old(store.rows)
    ensures var ids := NormalizeTagIds(rawTagIds);
      (r.Ok? <==> (ids == [] || pageId in pageIds) && forall k :: 0 <= k < |ids| ==> HasId(store.rows, ids[k]))
      && (ids != [] && pageId !in pageIds ==> r.Fail? && store.links == old(store.links))
      && (r.Ok? ==> store.links == Relinked(old(store.links), pageId, ids))
      && (r.Fail? ==> store.links == old(store.links) && r.error == Failed("Failed to update tags for page"))
  {
    var ids := NormalizeTagIds(rawTagIds);
    var res := store.SetTagsForPage(pageId, ids, pageIds);
    if res.Fail? {
      return Fail(Failed("Failed to update tags for page"));
    }
    r := Ok(());
  }
}
