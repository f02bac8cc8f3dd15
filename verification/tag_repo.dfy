/**
 * The tag repository (apps/admin/src/lib/repos/tagRepo.ts): the shape
 * normaliser for incoming tag ids, and the taxonomy and page-link tables the
 * repository reads and writes, held as values instead of database rows.
 */
module TagRepo {
  import opened Prelude
  import opened Json
  import opened Strings

  // ---------------------------------------------------------------------
  // normalizeTagIds
  // ---------------------------------------------------------------------

  /** The ids of a list: its strings, trimmed, without the blank ones, in order. */
  function NormalizeItems(items: seq<Json>): (r: seq<string>)
    ensures |r| <= |items|
    ensures forall k :: 0 <= k < |r| ==> r[k] != [] && IsTrimmed(r[k])
  {
    if items == [] then []
    else
      var rest := NormalizeItems(items[1..]);
      if !items[0].JStr? then rest
      else
        var t := Trim(items[0].s);
        if t == [] then rest
        else
          assert forall k :: 0 <= k < |[t] + rest| ==> ([t] + rest)[k] == if k == 0 then t else rest[k - 1];
          [t] + rest
  }

  /** `normalizeTagIds`: anything but an array gives no ids. */
  function NormalizeTagIds(v: Json): (r: seq<string>)
    ensures !v.JArr? ==> r == []
    ensures v.JArr? ==> |r| <= |v.items|
    ensures forall k :: 0 <= k < |r| ==> r[k] != [] && IsTrimmed(r[k])
  {
    if v.JArr? then NormalizeItems(v.items) else []
  }

  /** One element: a string with content gives its trimmed self, anything else nothing. */
  lemma NormalizeOne(x: Json)
    ensures NormalizeItems([x]) == if x.JStr? && Trim(x.s) != [] then [Trim(x.s)] else []
  {
    assert [x][1..] == [];
  }

  /** Normalising works element by element: order is kept and duplicates stay. */
  lemma {:induction false} NormalizeAppend(a: seq<Json>, b: seq<Json>)
    ensures NormalizeItems(a + b) == NormalizeItems(a) + NormalizeItems(b)
  {
    if a == [] {
      assert a + b == b;
    } else {
      NormalizeAppend(a[1..], b);
      HeadTail(a, b);
      NormalizeCons(a[0], a[1..]);
      NormalizeCons(a[0], a[1..] + b);
      AppendAssoc(NormalizeHead(a[0]), NormalizeItems(a[1..]), NormalizeItems(b));
    }
  }

  /** What one element contributes. */
  function NormalizeHead(x: Json): seq<string>
  {
    if x.JStr? && Trim(x.s) != [] then [Trim(x.s)] else []
  }

  lemma NormalizeCons(x: Json, rest: seq<Json>)
    ensures NormalizeItems([x] + rest) == NormalizeHead(x) + NormalizeItems(rest)
  {
    assert ([x] + rest)[0] == x && ([x] + rest)[1..] == rest;
    assert [] + NormalizeItems(rest) == NormalizeItems(rest);
  }

  /** Normalised ids sent again come back unchanged. */
  lemma {:induction false} NormalizeIdempotent(ids: seq<string>)
    requires forall id :: id in ids ==> id != [] && IsTrimmed(id)
    ensures NormalizeTagIds(JArr(Strs(ids))) == ids
  {
    if ids != [] {
      var x, rest := JStr(ids[0]), ids[1..];
      assert ids == [ids[0]] + rest;
      assert Strs(ids) == [x] + Strs(rest);
      assert NormalizeItems([x]) == [ids[0]] by {
        assert ids[0] in ids;
        NormalizeOne(x);
        TrimOfTrimmed(ids[0]);
      }
      assert NormalizeItems(Strs(rest)) == rest by {
        assert forall id :: id in rest ==> id in ids;
        NormalizeIdempotent(rest);
      }
      NormalizeAppend([x], Strs(rest));
    }
  }

  // ---------------------------------------------------------------------
  // The taxonomy and link tables
  // ---------------------------------------------------------------------

  /** A taxonomy's `type`: tags, and the other kinds the table holds. */
  datatype TaxonomyType = TagType | OtherType(name: string)

  datatype Taxonomy = Taxonomy(id: string, kind: TaxonomyType, name: string, slug: string)

  datatype TagDto = TagDto(id: string, name: string, slug: string)

  /** A `PageOnTaxonomy` row. */
  datatype Link = Link(pageId: string, taxonomyId: string)

  datatype RepoError = UniqueViolation | ForeignKeyViolation

  function ToDto(t: Taxonomy): TagDto
  {
    TagDto(t.id, t.name, t.slug)
  }

  predicate HasId(rows: seq<Taxonomy>, id: string)
  {
    exists i :: 0 <= i < |rows| && rows[i].id == id
  }

  predicate HasSlug(rows: seq<Taxonomy>, slug: string)
  {
    exists i :: 0 <= i < |rows| && rows[i].slug == slug
  }

  /** The unique constraints on `id` and `slug`. */
  predicate Distinct(rows: seq<Taxonomy>)
  {
    forall i, j :: 0 <= i < j < |rows| ==> rows[i].id != rows[j].id && rows[i].slug != rows[j].slug
  }

  /** The row with that slug, the first if there were several. */
  function BySlug(rows: seq<Taxonomy>, slug: string): (r: Option<nat>)
    ensures r.Some? ==> r.value < |rows| && rows[r.value].slug == slug
    ensures r.None? <==> !HasSlug(rows, slug)
  {
    if rows == [] then None
    else if rows[0].slug == slug then Some(0)
    else match BySlug(rows[1..], slug)
      case None => None
      case Some(k) => Some(k + 1)
  }

  /** `findTagBySlug`: the row with that slug, when it is a tag. */
  function FindTagBySlug(rows: seq<Taxonomy>, slug: string): (r: Option<TagDto>)
    ensures r.Some? ==> exists i :: 0 <= i < |rows| && rows[i].slug == slug && rows[i].kind == TagType && ToDto(rows[i]) == r.value
    ensures r.None? && Distinct(rows) ==> forall i :: 0 <= i < |rows| && rows[i].slug == slug ==> rows[i].kind != TagType
  {
    match BySlug(rows, slug)
    case None => None
    case Some(k) => if rows[k].kind == TagType then Some(ToDto(rows[k])) else None
  }

  /** `findTagByNameInsensitive`: the first tag whose name equals `name` ignoring case. */
  function FindTagByName(rows: seq<Taxonomy>, name: string): (r: Option<TagDto>)
    ensures r.Some? ==> exists i :: 0 <= i < |rows| && rows[i].kind == TagType && Lower(rows[i].name) == Lower(name) && ToDto(rows[i]) == r.value
    ensures r.None? ==> forall i :: 0 <= i < |rows| && rows[i].kind == TagType ==> Lower(rows[i].name) != Lower(name)
  {
    if rows == [] then None
    else if rows[0].kind == TagType && Lower(rows[0].name) == Lower(name) then Some(ToDto(rows[0]))
    else
      var r := FindTagByName(rows[1..], name);
      assert forall i :: 1 <= i < |rows| ==> rows[i] == rows[1..][i - 1];
      r
  }

  /** The slugs of every row, whatever its type. */
  function Slugs(rows: seq<Taxonomy>): (r: set<string>)
    ensures forall s :: s in r <==> HasSlug(rows, s)
  {
    set i | 0 <= i < |rows| :: rows[i].slug
  }

  /** `getTagsForPage`: the tags linked to the page; links to other taxonomy types are skipped. */
  function TagsForPage(rows: seq<Taxonomy>, links: set<Link>, pageId: string): set<TagDto>
  {
    set l, i | l in links && 0 <= i < |rows| && l.pageId == pageId && rows[i].id == l.taxonomyId && rows[i].kind == TagType :: ToDto(rows[i])
  }

  /** The links after `setTagsForPage`: the page's old links go and one link per given id comes in. */
  function Relinked(links: set<Link>, pageId: string, ids: seq<string>): (r: set<Link>)
    ensures forall l :: l in r && l.pageId != pageId <==> l in links && l.pageId != pageId
    ensures forall id :: Link(pageId, id) in r <==> id in ids
  {
    (set l | l in links && l.pageId != pageId) + (set id | id in ids :: Link(pageId, id))
  }

  /** After relinking, the page shows exactly the tags among the given ids. */
  lemma RelinkedTags(rows: seq<Taxonomy>, links: set<Link>, pageId: string, ids: seq<string>)
    ensures forall d :: d in TagsForPage(rows, Relinked(links, pageId, ids), pageId) <==>
      exists i :: 0 <= i < |rows| && rows[i].id in ids && rows[i].kind == TagType && ToDto(rows[i]) == d
  {
    var r := Relinked(links, pageId, ids);
    forall d
      ensures d in TagsForPage(rows, r, pageId) <==>
        exists i :: 0 <= i < |rows| && rows[i].id in ids && rows[i].kind == TagType && ToDto(rows[i]) == d
    {
      if exists i :: 0 <= i < |rows| && rows[i].id in ids && rows[i].kind == TagType && ToDto(rows[i]) == d {
        var i :| 0 <= i < |rows| && rows[i].id in ids && rows[i].kind == TagType && ToDto(rows[i]) == d;
        assert Link(pageId, rows[i].id) in r;
      }
    }
  }

  /** Relinking one page leaves what every other page shows as it was. */
  lemma RelinkedOthers(rows: seq<Taxonomy>, links: set<Link>, pageId: string, ids: seq<string>, other: string)
    requires other != pageId
    ensures TagsForPage(rows, Relinked(links, pageId, ids), other) == TagsForPage(rows, links, other)
  {
  }

  /** What a delete leaves behind and what it reports. */
  datatype Deletion = Deletion(rows: seq<Taxonomy>, links: set<Link>, deleted: Option<TagDto>)

  /** The rows without the one with that id. */
  function Without(rows: seq<Taxonomy>, id: string): (r: seq<Taxonomy>)
    ensures |r| <= |rows|
    ensures forall t :: t in r <==> t in rows && t.id != id
  {
    if rows == [] then []
    else if rows[0].id == id then Without(rows[1..], id)
    else [rows[0]] + Without(rows[1..], id)
  }

  function Unlinked(links: set<Link>, id: string): set<Link>
  {
    set l | l in links && l.taxonomyId != id
  }

  /** `deleteTagRecord` as written: the row with that id goes whatever its type; only a tag is reported. */
  function DeleteAsWritten(rows: seq<Taxonomy>, links: set<Link>, id: string): Deletion
  {
    match ById(rows, id)
    case None => Deletion(rows, links, None)
    case Some(k) =>
      Deletion(Without(rows, id), Unlinked(links, id), if rows[k].kind == TagType then Some(ToDto(rows[k])) else None)
  }

  /** A category passed to the tag delete is removed, and the delete still reports that no tag was found. */
  lemma DeleteAsWrittenDropsCategory()
    ensures var cat := Taxonomy("c1", OtherType("CATEGORY"), "News", "news");
      DeleteAsWritten([cat], {}, "c1") == Deletion([], {}, None)
  {
    var cat := Taxonomy("c1", OtherType("CATEGORY"), "News", "news");
    assert ById([cat], "c1") == Some(0);
    assert Without([cat], "c1") == [];
  }

  /** Where the id names no row of another type, the delete as written is the tag-only delete. */
  lemma DeleteVersionsAgree(rows: seq<Taxonomy>, links: set<Link>, id: string)
    requires forall i :: 0 <= i < |rows| && rows[i].id == id ==> rows[i].kind == TagType
    ensures DeleteAsWritten(rows, links, id) == DeleteTag(rows, links, id)
  {
  }

  /** The row with that id, the first if there were several. */
  function ById(rows: seq<Taxonomy>, id: string): (r: Option<nat>)
    ensures r.Some? ==> r.value < |rows| && rows[r.value].id == id
    ensures r.None? <==> !HasId(rows, id)
  {
    if rows == [] then None
    else if rows[0].id == id then Some(0)
    else match ById(rows[1..], id)
      case None => None
      case Some(k) => Some(k + 1)
  }

  /** `deleteTagRecord` restricted to tags: a row of another type is left alone. */
  function DeleteTag(rows: seq<Taxonomy>, links: set<Link>, id: string): Deletion
  {
    match ById(rows, id)
    case None => Deletion(rows, links, None)
    case Some(k) =>
      if rows[k].kind == TagType then Deletion(Without(rows, id), Unlinked(links, id), Some(ToDto(rows[k])))
      else Deletion(rows, links, None)
  }

  /**
   * The delete reports a tag exactly when a tag with that id existed, and
   * then removes that row and its links only; otherwise nothing changes.
   */
  lemma DeleteTagSound(rows: seq<Taxonomy>, links: set<Link>, id: string)
    requires Distinct(rows)
    ensures var d := DeleteTag(rows, links, id);
      (d.deleted.Some? <==> exists i :: 0 <= i < |rows| && rows[i].id == id && rows[i].kind == TagType)
      && (d.deleted.None? ==> d.rows == rows && d.links == links)
      && (d.deleted.Some? ==>
            |d.rows| == |rows| - 1 && d.deleted.value.id == id
            && (forall t :: t in d.rows <==> t in rows && t.id != id)
            && (forall l :: l in d.links <==> l in links && l.taxonomyId != id))
  {
    var d := DeleteTag(rows, links, id);
    match ById(rows, id)
    case None =>
    case Some(k) =>
      if rows[k].kind == TagType {
        WithoutOne(rows, k);
      }
  }

  /** Removing the one row with a given id shortens the table by one. */
  lemma {:induction false} WithoutOne(rows: seq<Taxonomy>, k: nat)
    requires Distinct(rows) && k < |rows|
    ensures |Without(rows, rows[k].id)| == |rows| - 1
  {
    var id := rows[k].id;
    if k == 0 {
      WithoutNone(rows[1..], id);
    } else {
      assert rows[1..][k - 1] == rows[k];
      WithoutOne(rows[1..], k - 1);
    }
  }

  lemma {:induction false} WithoutNone(rows: seq<Taxonomy>, id: string)
    requires forall i :: 0 <= i < |rows| ==> rows[i].id != id
    ensures Without(rows, id) == rows
  {
    if rows != [] {
      WithoutNone(rows[1..], id);
    }
  }

  /**
   * The taxonomy and page-link tables behind the repository functions, with
   * the database's unique and foreign-key constraints as the invariant.
   */
  class TagStore {
    var rows: seq<Taxonomy>
    var links: set<Link>

    predicate Valid()
      reads this
    {
      Distinct(rows) && forall l :: l in links ==> HasId(rows, l.taxonomyId)
    }

    constructor()
      ensures Valid() && rows == [] && links == {}
    {
      rows := [];
      links := {};
    }

    /** `createTagRecord`: a new tag row under a fresh id; a slug already in the table violates its unique constraint. */
    method CreateTagRecord(name: string, slug: string, freshId: string) returns (r: Outcome<TagDto, RepoError>)
      requires Valid() && !HasId(rows, freshId)
      modifies this
      ensures Valid() && links == old(links)
      ensures HasSlug(old(rows), slug) ==> r == Fail(UniqueViolation) && rows == old(rows)
      ensures !HasSlug(old(rows), slug) ==>
        r == Ok(TagDto(freshId, name, slug)) && rows == old(rows) + [Taxonomy(freshId, TagType, name, slug)]
    {
      if BySlug(rows, slug).Some? {
        r := Fail(UniqueViolation);
      } else {
        rows := rows + [Taxonomy(freshId, TagType, name, slug)];
        r := Ok(TagDto(freshId, name, slug));
        assert forall l :: l in links ==> HasId(rows, l.taxonomyId) by {
          forall l | l in links
            ensures HasId(rows, l.taxonomyId)
          {
            var i :| 0 <= i < |old(rows)| && old(rows)[i].id == l.taxonomyId;
            assert rows[i] == old(rows)[i];
          }
        }
      }
    }

    /** `deleteTagRecord` as written. */
    method DeleteTagRecordAsWritten(id: string) returns (deleted: Option<TagDto>)
      requires Valid()
      modifies this
      ensures Deletion(rows, links, deleted) == DeleteAsWritten(old(rows), old(links), id)
    {
      var d := DeleteAsWritten(rows, links, id);
      rows, links, deleted := d.rows, d.links, d.deleted;
    }

    /** `deleteTagRecord` restricted to tags; it keeps the table's constraints. */
    method DeleteTagRecord(id: string) returns (deleted: Option<TagDto>)
      requires Valid()
      modifies this
      ensures Valid()
      ensures Deletion(rows, links, deleted) == DeleteTag(old(rows), old(links), id)
    {
      var d := DeleteTag(rows, links, id);
      DeleteKeepsValid(rows, links, id);
      rows, links, deleted := d.rows, d.links, d.deleted;
    }

    /**
     * `setTagsForPage`: one transaction that drops the page's links and
     * links every given id once. Each new link row refers to a page and to a
     * taxonomy row, so a tag id with no row, or a page id that is not among
     * `pageIds` (the ids of the page table, kept outside this store) while
     * there is a link to create, breaks a foreign key and the transaction
     * changes nothing. With no ids only the deletion runs, which cannot fail.
     */
    method SetTagsForPage(pageId: string, ids: seq<string>, pageIds: set<string>) returns (r: Outcome<(), RepoError>)
      requires Valid()
      modifies this
      ensures Valid() && rows == old(rows)
      ensures r.Ok? <==> (ids == [] || pageId in pageIds) && forall k :: 0 <= k < |ids| ==> HasId(rows, ids[k])
      ensures ids != [] && pageId !in pageIds ==> r.Fail? && links == old(links)
      ensures r.Ok? ==> links == Relinked(old(links), pageId, ids)
      ensures r.Fail? ==> links == old(links) && r.error == ForeignKeyViolation
    {
      if ids != [] && pageId !in pageIds {
        r := Fail(ForeignKeyViolation);
        return;
      }
      var k := 0;
      while k < |ids|
        invariant k <= |ids|
        invariant forall j :: 0 <= j < k ==> HasId(rows, ids[j])
      {
        if ById(rows, ids[k]).None? {
          r := Fail(ForeignKeyViolation);
          return;
        }
        k := k + 1;
      }
      links := Relinked(links, pageId, ids);
      r := Ok(());
    }
  }

  /** Deleting through `DeleteTag` keeps the unique and foreign-key constraints. */
  lemma DeleteKeepsValid(rows: seq<Taxonomy>, links: set<Link>, id: string)
    requires Distinct(rows) && forall l :: l in links ==> HasId(rows, l.taxonomyId)
    ensures var d := DeleteTag(rows, links, id);
      Distinct(d.rows) && forall l :: l in d.links ==> HasId(d.rows, l.taxonomyId)
  {
    var d := DeleteTag(rows, links, id);
    if d.rows != rows {
      WithoutDistinct(rows, id);
      forall l | l in d.links
        ensures HasId(d.rows, l.taxonomyId)
      {
        var i :| 0 <= i < |rows| && rows[i].id == l.taxonomyId;
        assert rows[i] in d.rows;
      }
    }
  }

  lemma {:induction false} WithoutDistinct(rows: seq<Taxonomy>, id: string)
    requires Distinct(rows)
    ensures Distinct(Without(rows, id))
  {
    if rows != [] {
      WithoutDistinct(rows[1..], id);
      if rows[0].id != id {
        var w := Without(rows[1..], id);
        forall j | 0 <= j < |w|
          ensures rows[0].id != w[j].id && rows[0].slug != w[j].slug
        {
          assert w[j] in rows[1..];
        }
      }
    }
  }
}
