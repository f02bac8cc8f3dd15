/**
 * The page and post services (lib/services/page.server.ts,
 * lib/services/post.server.ts and their shared helpers in
 * lib/services/content.shared.ts) over the `Page` table, which holds both
 * kinds. The repository calls they make (lib/repos/pageRepo.ts) are read as
 * operations on the table; its unique id and slug columns are invariants.
 */
module ContentService {
  import opened Prelude
  import opened Json
  import opened Strings
  import opened SlugUtils
  import opened ContentValidation
  import TagRepo

  /** A row of the `Page` table. */
  datatype Row = Row(
    id: string, kind: Kind, status: Status, slug: string, title: string,
    excerpt: Option<string>, content: string, authorId: Option<string>)

  /** What the services throw. */
  datatype ServiceError =
    | ValidationFailed(issues: seq<string>)  // PageValidationError
    | Conflict                               // PageConflictError
    | NotFound                               // PageNotFoundError
    | RecordNotFound                         // the database's own error for a missing row, rethrown as it is
    | ForeignKey                             // linking a tag id that does not exist, rethrown as it is

  /** The message each of the service's own error classes carries. */
  function Message(e: ServiceError): (m: Option<string>)
    ensures m.Some? <==> e.ValidationFailed? || e.Conflict? || e.NotFound?
  {
    match e
    case ValidationFailed(_) => Some("Validation failed")
    case Conflict => Some("Slug already exists")
    case NotFound => Some("Page not found")
    case _ => None
  }

  // ---------------------------------------------------------------------
  // The table
  // ---------------------------------------------------------------------

  predicate HasRowId(rows: seq<Row>, id: string)
  {
    exists x | x in rows :: x.id == id
  }

  /** The ids of the page table, which the join table's page column refers to. */
  function RowIds(rows: seq<Row>): set<string>
  {
    set x | x in rows :: x.id
  }

  /** `ensureUniqueSlug`: some row other than `exclude` already uses the slug. */
  predicate SlugTaken(rows: seq<Row>, slug: string, exclude: Option<string>)
  {
    exists x | x in rows :: x.slug == slug && (exclude.None? || x.id != exclude.value)
  }

  /** The table's unique columns. */
  predicate UniqueIds(rows: seq<Row>)
  {
    forall i, j :: 0 <= i < j < |rows| ==> rows[i].id != rows[j].id
  }

  predicate UniqueSlugs(rows: seq<Row>)
  {
    forall i, j :: 0 <= i < j < |rows| ==> rows[i].slug != rows[j].slug
  }

  /** The position of the row with the id. */
  function IndexOfId(rows: seq<Row>, id: string): (r: Option<nat>)
    ensures r.Some? ==> r.value < |rows| && rows[r.value].id == id
    ensures r.None? <==> !HasRowId(rows, id)
  {
    if rows == [] then None
    else if rows[0].id == id then Some(0)
    else
      assert forall x :: x in rows <==> x == rows[0] || x in rows[1..];
      match IndexOfId(rows[1..], id)
      case None => None
      case Some(k) => Some(k + 1)
  }

  /** `findUnique({ where: { id } })`. */
  function FindById(rows: seq<Row>, id: string): (r: Option<Row>)
    ensures r.Some? ==> r.value in rows && r.value.id == id
    ensures r.None? <==> !HasRowId(rows, id)
  {
    match IndexOfId(rows, id)
    case None => None
    case Some(k) => Some(rows[k])
  }

  /** `findUnique({ where: { slug } })`. */
  function FindBySlug(rows: seq<Row>, slug: string): (r: Option<Row>)
    ensures r.Some? ==> r.value in rows && r.value.slug == slug
    ensures r.None? <==> forall x | x in rows :: x.slug != slug
  {
    if rows == [] then None
    else if rows[0].slug == slug then Some(rows[0])
    else
      assert forall x :: x in rows <==> x == rows[0] || x in rows[1..];
      FindBySlug(rows[1..], slug)
  }

  /** With unique ids, the row found by id is the one row with that id. */
  lemma FindByIdUnique(rows: seq<Row>, x: Row)
    requires UniqueIds(rows) && x in rows
    ensures FindById(rows, x.id) == Some(x)
  {
    var k := IndexOfId(rows, x.id).value;
    var j :| 0 <= j < |rows| && rows[j] == x;
    assert !(k < j) && !(j < k);
  }

  /** With unique slugs, the row found by slug is the one row with that slug. */
  lemma FindBySlugUnique(rows: seq<Row>, x: Row)
    requires UniqueSlugs(rows) && x in rows
    ensures FindBySlug(rows, x.slug) == Some(x)
  {
    if rows[0] != x {
      assert x in rows[1..];
      assert UniqueSlugs(rows[1..]) by {
        forall i, j | 0 <= i < j < |rows[1..]|
          ensures rows[1..][i].slug != rows[1..][j].slug
        {
          assert rows[1..][i] == rows[i + 1] && rows[1..][j] == rows[j + 1];
        }
      }
      var j :| 0 <= j < |rows| && rows[j] == x;
      assert rows[0].slug != x.slug;
      FindBySlugUnique(rows[1..], x);
    }
  }

  /** The lookup on a non-blank key: as an id first, then as a slug, rows of the other kind not counting. */
  function ByKey(rows: seq<Row>, key: string, slug: string, kind: Kind): (r: Option<Row>)
    ensures r.Some? ==> r.value in rows && r.value.kind == kind && (r.value.id == key || r.value.slug == slug)
  {
    var byId := FindById(rows, key);
    if byId.Some? && byId.value.kind == kind then byId
    else
      var bySlug := FindBySlug(rows, slug);
      if bySlug.Some? && bySlug.value.kind == kind then bySlug else None
  }

  /**
   * `getPageById(ref, { type })`: the trimmed reference is tried as an id,
   * then its slug as a slug; a row of the other kind counts as not found.
   */
  function GetPageById(rows: seq<Row>, ref: string, kind: Kind): (r: Option<Row>)
    ensures Trim(ref) == [] ==> r.None?
    ensures r.Some? ==> r.value in rows && r.value.kind == kind
    ensures r.Some? ==> r.value.id == Trim(ref) || r.value.slug == Slugify(Trim(ref))
  {
    var key := Trim(ref);
    if key == [] then None else ByKey(rows, key, Slugify(key), kind)
  }

  /** A non-blank reference is looked up by its trimmed text and that text's slug. */
  lemma GetPageByIdOfKey(rows: seq<Row>, ref: string, kind: Kind)
    requires Trim(ref) != []
    ensures GetPageById(rows, ref, kind) == ByKey(rows, Trim(ref), Slugify(Trim(ref)), kind)
  {
  }

  /** A row of the kind is found by its id, surrounding spaces aside. */
  lemma GetPageByIdFindsId(rows: seq<Row>, x: Row, ref: string)
    requires UniqueIds(rows) && x in rows && Trim(ref) == x.id && x.id != []
    ensures GetPageById(rows, ref, x.kind) == Some(x)
  {
    FindByIdUnique(rows, x);
    GetPageByIdOfKey(rows, ref, x.kind);
  }

  /** A row of the kind is found by its slug when no row has that text as its id. */
  lemma GetPageByIdFindsSlug(rows: seq<Row>, x: Row)
    requires UniqueSlugs(rows) && x in rows && x.slug != [] && IsSlug(x.slug) && !HasRowId(rows, x.slug)
    ensures GetPageById(rows, x.slug, x.kind) == Some(x)
  {
    ByKeyFindsSlug(rows, x);
    SlugIsOwnKey(x.slug);
    GetPageByIdOfKey(rows, x.slug, x.kind);
  }

  lemma ByKeyFindsSlug(rows: seq<Row>, x: Row)
    requires UniqueSlugs(rows) && x in rows && !HasRowId(rows, x.slug)
    ensures ByKey(rows, x.slug, x.slug, x.kind) == Some(x)
  {
    FindBySlugUnique(rows, x);
  }

  /** A slug has no white space, so it is its own trim, and it is its own slug. */
  lemma SlugIsOwnKey(s: string)
    requires IsSlug(s)
    ensures Trim(s) == s && Slugify(s) == s
  {
    if s != [] {
      assert SlugChar(s[0]) && SlugChar(s[|s| - 1]);
    }
    TrimOfTrimmed(s);
    SlugFixed(s);
  }

  /** The rows of one kind, in table order. */
  function OfKind(rows: seq<Row>, kind: Kind): (r: seq<Row>)
    ensures forall x :: x in r <==> x in rows && x.kind == kind
    ensures |r| <= |rows|
  {
    if rows == [] then []
    else
      assert forall x :: x in rows <==> x == rows[0] || x in rows[1..];
      (if rows[0].kind == kind then [rows[0]] else []) + OfKind(rows[1..], kind)
  }

  /** The table without the row that has the id. */
  function RemoveId(rows: seq<Row>, id: string): (r: seq<Row>)
    ensures forall x :: x in r <==> x in rows && x.id != id
    ensures |r| <= |rows|
  {
    if rows == [] then []
    else
      assert forall x :: x in rows <==> x == rows[0] || x in rows[1..];
      (if rows[0].id == id then [] else [rows[0]]) + RemoveId(rows[1..], id)
  }

  lemma {:induction false} RemoveIdUnique(rows: seq<Row>, id: string)
    requires UniqueIds(rows) && UniqueSlugs(rows)
    ensures UniqueIds(RemoveId(rows, id)) && UniqueSlugs(RemoveId(rows, id))
  {
    if rows != [] {
      var rest := rows[1..];
      assert UniqueIds(rest) && UniqueSlugs(rest) by {
        forall i, j | 0 <= i < j < |rest|
          ensures rest[i].id != rest[j].id && rest[i].slug != rest[j].slug
        {
          assert rest[i] == rows[i + 1] && rest[j] == rows[j + 1];
        }
      }
      RemoveIdUnique(rest, id);
      var t := RemoveId(rest, id);
      if rows[0].id != id {
        forall k | 0 <= k < |t|
          ensures t[k].id != rows[0].id && t[k].slug != rows[0].slug
        {
          assert t[k] in rest;
          var m :| 0 <= m < |rest| && rest[m] == t[k];
          assert rest[m] == rows[m + 1];
        }
        assert RemoveId(rows, id) == [rows[0]] + t;
      } else {
        assert RemoveId(rows, id) == t;
      }
    }
  }

  // ---------------------------------------------------------------------
  // Pagination (listPagesService, listPostsService)
  // ---------------------------------------------------------------------

  /** `Math.max(1, page)`. */
  function SafePage(page: int): (r: int)
    ensures r >= 1 && r >= page && (r == 1 || r == page)
  {
    if page < 1 then 1 else page
  }

  /** `Math.min(100, Math.max(1, limit))`. */
  function SafeLimit(limit: int): (r: int)
    ensures 1 <= r <= 100
    ensures 1 <= limit <= 100 ==> r == limit
    ensures limit < 1 ==> r == 1
    ensures limit > 100 ==> r == 100
  {
    if limit < 1 then 1 else if limit > 100 then 100 else limit
  }

  /** `(safePage - 1) * safeLimit`: the number of rows on the earlier pages. */
  function Skip(page: int, limit: int): nat
  {
    var p, l := SafePage(page), SafeLimit(limit);
    assert (p - 1) * l >= 0;
    (p - 1) * l
  }

  /** `Math.ceil(total / limit)`: the fewest pages of `limit` rows that hold `total` rows. */
  function PageCount(total: nat, limit: int): (r: nat)
    requires limit >= 1
    ensures r == 0 <==> total == 0
    ensures r * limit >= total
    ensures r > 0 ==> (r - 1) * limit < total
    decreases total
  {
    if total == 0 then 0
    else if total <= limit then 1
    else
      var rest := PageCount(total - limit, limit);
      assert (rest + 1) * limit == rest * limit + limit;
      rest + 1
  }

  /** A page number whose earlier pages do not hold every row is within the page count. */
  lemma {:induction false} PageCountAbove(total: nat, limit: int, q: nat)
    requires limit >= 1 && q * limit < total
    ensures q < PageCount(total, limit)
    decreases q
  {
    if q > 0 {
      assert q * limit == (q - 1) * limit + limit;
      assert (q - 1) * limit >= 0;
      PageCountAbove(total - limit, limit, q - 1);
    }
  }

  /** `skip` and `take`: the rows from `skip` on, at most `take` of them. */
  function Window<T>(xs: seq<T>, skip: nat, take: nat): (r: seq<T>)
    ensures |r| <= take
    ensures skip >= |xs| ==> r == []
    ensures skip < |xs| ==> |r| == if skip + take <= |xs| then take else |xs| - skip
    ensures r != [] ==> skip + |r| <= |xs|
    ensures forall i :: 0 <= i < |r| ==> r[i] == xs[skip + i]
  {
    if skip >= |xs| then []
    else if skip + take <= |xs| then xs[skip..skip + take]
    else xs[skip..]
  }

  /** The row at position `q * limit + m` is item `m` of page `q + 1`, and that page is within the page count. */
  lemma PagesCover<T>(xs: seq<T>, limit: int, q: nat, m: nat)
    requires 1 <= limit <= 100 && m < limit && q * limit + m < |xs|
    ensures 1 <= q + 1 <= PageCount(|xs|, limit)
    ensures m < |Window(xs, Skip(q + 1, limit), limit)|
    ensures Window(xs, Skip(q + 1, limit), limit)[m] == xs[q * limit + m]
  {
    PageCountAbove(|xs|, limit, q);
    assert Skip(q + 1, limit) == q * limit;
    WindowAt(xs, q * limit, limit, m);
  }

  lemma WindowAt<T>(xs: seq<T>, skip: nat, take: nat, m: nat)
    requires m < take && skip + m < |xs|
    ensures m < |Window(xs, skip, take)| && Window(xs, skip, take)[m] == xs[skip + m]
  {
  }

  /** What a list service returns. */
  datatype Listing = Listing(items: seq<Row>, page: int, limit: int, total: nat, pages: nat)

  // ---------------------------------------------------------------------
  // The services
  // ---------------------------------------------------------------------

  /** The row `createPage` inserts: the slug is slugified, the kind is the service's, the excerpt is kept. */
  function NewRow(id: string, kind: Kind, input: PageInput, authorId: string): (r: Row)
    ensures r.id == id && r.kind == kind && IsSlug(r.slug) && r.status == input.status && r.title == input.title
  {
    Row(id, kind, input.status, Slugify(input.slug), input.title, Some(input.excerpt), input.content, Some(authorId))
  }

  /** The row after `updatePage`: the kind is the service's, and each given field replaces the old one. */
  function Updated(row: Row, kind: Kind, u: PageUpdate, slug: Option<string>): (r: Row)
    ensures r.id == row.id && r.kind == kind && r.authorId == row.authorId
    ensures r.slug == (if slug.Some? then slug.value else row.slug)
    ensures r.status == (if u.status.Some? then u.status.value else row.status)
    ensures r.title == (if u.title.Some? then u.title.value else row.title)
  {
    Row(row.id, kind,
      if u.status.Some? then u.status.value else row.status,
      if slug.Some? then slug.value else row.slug,
      if u.title.Some? then u.title.value else row.title,
      if u.excerpt.Some? then u.excerpt else row.excerpt,
      if u.content.Some? then u.content.value else row.content,
      row.authorId)
  }

  /** Replacing one row by one with the same id and a slug no other row uses keeps both columns unique. */
  lemma ReplaceUnique(rows: seq<Row>, k: nat, row: Row)
    requires UniqueIds(rows) && UniqueSlugs(rows) && k < |rows| && row.id == rows[k].id
    requires row.slug == rows[k].slug || !SlugTaken(rows, row.slug, Some(row.id))
    ensures UniqueIds(rows[k := row]) && UniqueSlugs(rows[k := row])
  {
    var s := rows[k := row];
    forall i, j | 0 <= i < j < |s|
      ensures s[i].slug != s[j].slug
    {
      if i == k || j == k {
        var o := if i == k then j else i;
        assert rows[o] in rows && rows[o].id != row.id;
      }
    }
  }

  /** The result of `deletePageService` / `deletePostService` as written: the row found is checked, then the reference itself is deleted as an id. */
  function DeleteAsWritten(rows: seq<Row>, kind: Kind, ref: string): (r: Outcome<seq<Row>, ServiceError>)
    ensures GetPageById(rows, ref, kind).None? ==> r == Fail(NotFound)
    ensures r.Ok? ==> HasRowId(rows, ref) && r.value == RemoveId(rows, ref)
  {
    if GetPageById(rows, ref, kind).None? then Fail(NotFound)
    else if !HasRowId(rows, ref) then Fail(RecordNotFound)
    else Ok(RemoveId(rows, ref))
  }

  /** The intended deletion: the row that was found is the row deleted. */
  function Delete(rows: seq<Row>, kind: Kind, ref: string): (r: Outcome<seq<Row>, ServiceError>)
    ensures r.Fail? <==> GetPageById(rows, ref, kind).None?
    ensures r.Fail? ==> r.error == NotFound
    ensures r.Ok? ==> forall x :: x in r.value <==> x in rows && x.id != GetPageById(rows, ref, kind).value.id
  {
    match GetPageById(rows, ref, kind)
    case None => Fail(NotFound)
    case Some(existing) => Ok(RemoveId(rows, existing.id))
  }

  /**
   * As written, a page looked up by its slug passes the existence check,
   * and then nothing has that slug as its id, so the database refuses the
   * deletion; the intended service deletes the page.
   */
  lemma DeleteBySlugAsWritten(rows: seq<Row>, x: Row)
    requires UniqueSlugs(rows) && x in rows && x.slug != [] && IsSlug(x.slug) && !HasRowId(rows, x.slug)
    ensures DeleteAsWritten(rows, x.kind, x.slug) == Fail(RecordNotFound)
    ensures Delete(rows, x.kind, x.slug) == Ok(RemoveId(rows, x.id))
  {
    GetPageByIdFindsSlug(rows, x);
  }

  /** By its exact id, both versions delete the same row. */
  lemma DeleteByIdAgrees(rows: seq<Row>, x: Row)
    requires UniqueIds(rows) && x in rows && x.id != [] && IsTrimmed(x.id)
    ensures DeleteAsWritten(rows, x.kind, x.id) == Delete(rows, x.kind, x.id) == Ok(RemoveId(rows, x.id))
  {
    TrimOfTrimmed(x.id);
    GetPageByIdFindsId(rows, x, x.id);
    DeleteOfFound(rows, x);
  }

  lemma DeleteOfFound(rows: seq<Row>, x: Row)
    requires x in rows && GetPageById(rows, x.id, x.kind) == Some(x)
    ensures DeleteAsWritten(rows, x.kind, x.id) == Delete(rows, x.kind, x.id) == Ok(RemoveId(rows, x.id))
  {
  }

  /** An update body without `tagIds` clears the page's tags: the service links exactly the validated ids. */
  lemma UpdateWithoutTagIdsClearsTags(raw: Json, links: set<TagRepo.Link>, id: string)
    requires ParseUpdate(raw).Ok? && Get(raw, "tagIds") == JUndefined
    ensures forall t :: TagRepo.Link(id, t) !in TagRepo.Relinked(links, id, ParseUpdate(raw).value.tagIds)
  {
  }

  /** The table and the tag tables the services work on. */
  class ContentStore {
    var rows: seq<Row>
    const tags: TagRepo.TagStore

    predicate Valid()
      reads this, tags
    {
      tags.Valid() && UniqueIds(rows) && UniqueSlugs(rows)
    }

    constructor (tags: TagRepo.TagStore)
      requires tags.Valid()
      ensures Valid() && this.tags == tags && rows == []
    {
      this.tags := tags;
      rows := [];
    }

    /**
     * `applyTags`: the normalised ids replace the page's links; an id without
     * a tag, or a missing page while there are ids, fails and changes nothing.
     */
    method ApplyTags(pageId: string, tagIds: Json) returns (r: Outcome<(), ServiceError>)
      requires Valid()
      modifies tags
      ensures Valid() && tags.rows == old(tags.rows)
      ensures var ids := TagRepo.NormalizeTagIds(tagIds);
        (r.Ok? <==> (ids == [] || HasRowId(rows, pageId)) && forall k :: 0 <= k < |ids| ==> TagRepo.HasId(tags.rows, ids[k]))
        && (r.Ok? ==> tags.links == TagRepo.Relinked(old(tags.links), pageId, ids))
        && (r.Fail? ==> r.error == ForeignKey && tags.links == old(tags.links))
    {
      assert pageId in RowIds(rows) <==> HasRowId(rows, pageId);
      var res := tags.SetTagsForPage(pageId, TagRepo.NormalizeTagIds(tagIds), RowIds(rows));
      if res.Fail? {
        r := Fail(ForeignKey);
      } else {
        r := Ok(());
      }
    }

    /**
     * `createPageService` / `createPostService`: validate, insert the row
     * with the service's kind and a unique slug, then link the tags. A
     * failed link leaves the row inserted.
     */
    method Create(kind: Kind, raw: Json, authorId: string, freshId: string) returns (r: Outcome<Row, ServiceError>)
      requires Valid() && !HasRowId(rows, freshId)
      modifies this, tags
      ensures Valid() && tags.rows == old(tags.rows)
      ensures ParsePage(raw).Fail? ==>
        r == Fail(ValidationFailed(ParsePage(raw).error)) && rows == old(rows) && tags.links == old(tags.links)
      ensures ParsePage(raw).Ok? && SlugTaken(old(rows), Slugify(ParsePage(raw).value.slug), None) ==>
        r == Fail(Conflict) && rows == old(rows) && tags.links == old(tags.links)
      ensures ParsePage(raw).Ok? && !SlugTaken(old(rows), Slugify(ParsePage(raw).value.slug), None) ==>
        var input := ParsePage(raw).value;
        rows == old(rows) + [NewRow(freshId, kind, input, authorId)]
        && (r.Ok? <==> forall k :: 0 <= k < |input.tagIds| ==> TagRepo.HasId(tags.rows, input.tagIds[k]))
        && (r.Ok? ==> (r.value == NewRow(freshId, kind, input, authorId)
              && tags.links == TagRepo.Relinked(old(tags.links), freshId, input.tagIds)))
        && (r.Fail? ==> r.error == ForeignKey && tags.links == old(tags.links))
      ensures r.Ok? ==> r.value.kind == kind && IsSlug(r.value.slug) && r.value in rows
    {
      var parsed := ParsePage(raw);
      if parsed.Fail? {
        r := Fail(ValidationFailed(parsed.error));
        return;
      }
      var input := parsed.value;
      var slug := Slugify(input.slug);
      if SlugTaken(rows, slug, None) {
        r := Fail(Conflict);
        return;
      }
      r := InsertLinked(NewRow(freshId, kind, input, authorId), input.tagIds);
    }

    /** The second half of `create*Service`: the row goes in, then `applyTags` links the tag ids. */
    method InsertLinked(row: Row, tagIds: seq<string>) returns (r: Outcome<Row, ServiceError>)
      requires Valid() && !HasRowId(rows, row.id) && !SlugTaken(rows, row.slug, None)
      requires forall i :: 0 <= i < |tagIds| ==> tagIds[i] != [] && IsTrimmed(tagIds[i])
      modifies this, tags
      ensures Valid() && tags.rows == old(tags.rows) && rows == old(rows) + [row]
      ensures r.Ok? <==> forall k :: 0 <= k < |tagIds| ==> TagRepo.HasId(tags.rows, tagIds[k])
      ensures r.Ok? ==> r.value == row && tags.links == TagRepo.Relinked(old(tags.links), row.id, tagIds)
      ensures r.Fail? ==> r.error == ForeignKey && tags.links == old(tags.links)
    {
      AppendUnique(rows, row);
      rows := rows + [row];
      TagRepo.NormalizeIdempotent(tagIds);
      assert rows[|rows| - 1] == row;
      var applied := ApplyTags(row.id, JArr(Strs(tagIds)));
      if applied.Fail? {
        r := Fail(applied.error);
      } else {
        r := Ok(row);
      }
    }

    /**
     * `updatePageService` / `updatePostService`: validate, check a given
     * slug against every other row, update the row with the service's kind
     * (whatever kind it had), then link the tags, which default to none.
     */
    method Update(kind: Kind, id: string, raw: Json) returns (r: Outcome<Row, ServiceError>)
      requires Valid()
      modifies this, tags
      ensures Valid() && tags.rows == old(tags.rows)
      ensures ParseUpdate(raw).Fail? ==>
        r == Fail(ValidationFailed(ParseUpdate(raw).error)) && rows == old(rows) && tags.links == old(tags.links)
      ensures ParseUpdate(raw).Ok? ==>
        var u := ParseUpdate(raw).value;
        var slug := if u.slug.Some? then Some(Slugify(u.slug.value)) else None;
        (slug.Some? && SlugTaken(old(rows), slug.value, Some(id)) ==>
          r == Fail(Conflict) && rows == old(rows) && tags.links == old(tags.links))
        && (!(slug.Some? && SlugTaken(old(rows), slug.value, Some(id))) && !HasRowId(old(rows), id) ==>
          r == Fail(RecordNotFound) && rows == old(rows) && tags.links == old(tags.links))
        && (!(slug.Some? && SlugTaken(old(rows), slug.value, Some(id))) && HasRowId(old(rows), id) ==>
          var k := IndexOfId(old(rows), id).value;
          rows == old(rows)[k := Updated(old(rows)[k], kind, u, slug)]
          && (r.Ok? ==> r.value == rows[k] && tags.links == TagRepo.Relinked(old(tags.links), id, u.tagIds))
          && (r.Fail? ==> r.error == ForeignKey && tags.links == old(tags.links)))
      ensures r.Ok? ==> r.value.kind == kind && r.value.id == id && r.value in rows
    {
      var parsed := ParseUpdate(raw);
      if parsed.Fail? {
        r := Fail(ValidationFailed(parsed.error));
        return;
      }
      var u := parsed.value;
      var slug := if u.slug.Some? then Some(Slugify(u.slug.value)) else None;
      if slug.Some? && SlugTaken(rows, slug.value, Some(id)) {
        r := Fail(Conflict);
        return;
      }
      var k := IndexOfId(rows, id);
      if k.None? {
        r := Fail(RecordNotFound);
        return;
      }
      var row := Updated(rows[k.value], kind, u, slug);
      ReplaceUnique(rows, k.value, row);
      rows := rows[k.value := row];
      TagRepo.NormalizeIdempotent(u.tagIds);
      assert rows[k.value].id == id;
      var applied := ApplyTags(id, JArr(Strs(u.tagIds)));
      if applied.Fail? {
        r := Fail(applied.error);
      } else {
        r := Ok(row);
      }
    }

    /** `deletePageService` / `deletePostService` as written. */
    method DeleteServiceAsWritten(kind: Kind, ref: string) returns (r: Outcome<(), ServiceError>)
      requires Valid()
      modifies this
      ensures Valid()
      ensures GetPageById(old(rows), ref, kind).None? ==> r == Fail(NotFound) && rows == old(rows)
      ensures GetPageById(old(rows), ref, kind).Some? && !HasRowId(old(rows), ref) ==> r == Fail(RecordNotFound) && rows == old(rows)
      ensures GetPageById(old(rows), ref, kind).Some? && HasRowId(old(rows), ref) ==> r == Ok(()) && rows == RemoveId(old(rows), ref)
    {
      var existing := GetPageById(rows, ref, kind);
      if existing.None? {
        r := Fail(NotFound);
        return;
      }
      if FindById(rows, ref).None? {
        r := Fail(RecordNotFound);
        return;
      }
      var next := RemoveId(rows, ref);
      RemoveIdUnique(rows, ref);
      assert tags.Valid() && UniqueIds(next) && UniqueSlugs(next);
      rows := next;
      r := Ok(());
    }

    /** The deletion services as intended: the row found is the row deleted. */
    method DeleteService(kind: Kind, ref: string) returns (r: Outcome<(), ServiceError>)
      requires Valid()
      modifies this
      ensures Valid()
      ensures Delete(old(rows), kind, ref).Ok? ==> r.Ok? && rows == Delete(old(rows), kind, ref).value
      ensures Delete(old(rows), kind, ref).Fail? ==> r == Fail(NotFound) && rows == old(rows)
    {
      var existing := GetPageById(rows, ref, kind);
      if existing.None? {
        r := Fail(NotFound);
        return;
      }
      var next := RemoveId(rows, existing.value.id);
      RemoveIdUnique(rows, existing.value.id);
      assert tags.Valid() && UniqueIds(next) && UniqueSlugs(next);
      rows := next;
      r := Ok(());
    }

    /** `listPagesService` / `listPostsService`: one page of the kind's rows, with the clamped page and limit echoed. */
    function List(kind: Kind, page: int, limit: int): (r: Listing)
      reads this
      ensures r.page == SafePage(page) && r.limit == SafeLimit(limit)
      ensures r.total == |OfKind(rows, kind)| && r.pages == PageCount(r.total, r.limit)
      ensures |r.items| <= r.limit
      ensures forall i :: 0 <= i < |r.items| ==>
        Skip(page, limit) + i < |OfKind(rows, kind)| && r.items[i] == OfKind(rows, kind)[Skip(page, limit) + i]
      ensures forall x :: x in r.items ==> x in rows && x.kind == kind
    {
      var all := OfKind(rows, kind);
      var items := Window(all, Skip(page, limit), SafeLimit(limit));
      assert forall x :: x in items ==> x in all;
      Listing(items, SafePage(page), SafeLimit(limit), |all|, PageCount(|all|, SafeLimit(limit)))
    }

    /** `getPostWithTagsService`: the post and the tags linked to it. */
    function PostWithTags(ref: string): (r: Outcome<(Row, set<TagRepo.TagDto>), ServiceError>)
      reads this, tags
      ensures r.Fail? <==> GetPageById(rows, ref, Post).None?
      ensures r.Fail? ==> r.error == NotFound
      ensures r.Ok? ==> (r.value.0.kind == Post && r.value.0 in rows
        && r.value.1 == TagRepo.TagsForPage(tags.rows, tags.links, r.value.0.id))
    {
      match GetPageById(rows, ref, Post)
      case None => Fail(NotFound)
      case Some(item) => Ok((item, TagRepo.TagsForPage(tags.rows, tags.links, item.id)))
    }
  }

  /** Appending a row with a new id and an unused slug keeps both columns unique. */
  lemma AppendUnique(rows: seq<Row>, row: Row)
    requires UniqueIds(rows) && UniqueSlugs(rows) && !HasRowId(rows, row.id) && !SlugTaken(rows, row.slug, None)
    ensures UniqueIds(rows + [row]) && UniqueSlugs(rows + [row])
  {
    var s := rows + [row];
    forall i, j | 0 <= i < j < |s|
      ensures s[i].id != s[j].id && s[i].slug != s[j].slug
    {
      if j == |rows| {
        assert s[i] in rows;
      }
    }
  }
}
