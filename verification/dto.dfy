/**
 * The form-to-request mappers of the post and page editors
 * (lib/services/post.client.ts, lib/services/page.client.ts). A form's
 * values are a record from field names to values; the tag picker's
 * selection sits under `tags` as an array of tag objects.
 */
module ContentDto {
  import opened Prelude
  import opened Json
  import opened Strings
  import opened TagSelect
  import opened ContentValidation

  /** `values[key]` on a record: `undefined` when the field is absent. */
  function Field(values: map<string, Json>, key: string): Json
  {
    if key in values then values[key] else JUndefined
  }

  /** `v ?? fallback` tests for these two. */
  predicate Nullish(v: Json) { v == JNull || v == JUndefined }

  /** `items.map(tag => tag.id).filter(id => !!id)`. */
  function TruthyIds(items: seq<Json>): (r: seq<Json>)
    ensures |r| <= |items|
    ensures forall k :: 0 <= k < |r| ==> Truthy(r[k])
  {
    if items == [] then []
    else (if Truthy(Get(items[0], "id")) then [Get(items[0], "id")] else []) + TruthyIds(items[1..])
  }

  /** The filter keeps the tags' order and their duplicates: it distributes over concatenation. */
  lemma {:induction false} TruthyIdsAppend(a: seq<Json>, b: seq<Json>)
    ensures TruthyIds(a + b) == TruthyIds(a) + TruthyIds(b)
  {
    if a == [] {
      assert a + b == b;
    } else {
      TruthyIdsAppend(a[1..], b);
      HeadTail(a, b);
      TruthyIdsCons(a[0], a[1..]);
      TruthyIdsCons(a[0], a[1..] + b);
      AppendAssoc(TruthyId(a[0]), TruthyIds(a[1..]), TruthyIds(b));
    }
  }

  /** What one tag contributes. */
  function TruthyId(t: Json): seq<Json>
  {
    if Truthy(Get(t, "id")) then [Get(t, "id")] else []
  }

  lemma TruthyIdsCons(t: Json, rest: seq<Json>)
    ensures TruthyIds([t] + rest) == TruthyId(t) + TruthyIds(rest)
  {
    assert ([t] + rest)[0] == t && ([t] + rest)[1..] == rest;
  }

  /** An id is kept exactly when it is truthy and some tag carries it. */
  lemma {:induction false} TruthyIdsMembers(items: seq<Json>, v: Json)
    ensures v in TruthyIds(items) <==> Truthy(v) && exists t :: t in items && Get(t, "id") == v
  {
    if items != [] {
      TruthyIdsMembers(items[1..], v);
      assert forall t :: t in items <==> t == items[0] || t in items[1..];
    }
  }

  /** `values.tags?.map(...).filter(...) ?? []`: no array of tags gives no ids. */
  function TagIdsOf(tags: Json): (r: seq<Json>)
    ensures !tags.JArr? ==> r == []
    ensures tags.JArr? ==> |r| <= |tags.items|
    ensures forall k :: 0 <= k < |r| ==> Truthy(r[k])
  {
    if tags.JArr? then TruthyIds(tags.items) else []
  }

  /** A tag picked in the tag picker, as the form holds it. */
  function TagJson(t: TagValue): (r: Json)
    ensures Get(r, "id") == JStr(t.id)
  {
    JObj([Prop("id", JStr(t.id)), Prop("name", JStr(t.name)), Prop("slug", JStr(t.slug))])
  }

  function TagsJson(sel: seq<TagValue>): (r: seq<Json>)
    ensures |r| == |sel|
  {
    if sel == [] then [] else [TagJson(sel[0])] + TagsJson(sel[1..])
  }

  function IdsOf(sel: seq<TagValue>): (r: seq<string>)
    ensures |r| == |sel| && forall k :: 0 <= k < |sel| ==> r[k] == sel[k].id
  {
    if sel == [] then [] else [sel[0].id] + IdsOf(sel[1..])
  }

  /** The ids sent for a selection are the selected tags' ids, in order, when none is empty. */
  lemma {:induction false} SelectionTagIds(sel: seq<TagValue>)
    requires forall k :: 0 <= k < |sel| ==> sel[k].id != []
    ensures TagIdsOf(JArr(TagsJson(sel))) == Strs(IdsOf(sel))
  {
    if sel != [] {
      var items := TagsJson(sel);
      SelectionTagIds(sel[1..]);
      assert items[0] == TagJson(sel[0]) && items[1..] == TagsJson(sel[1..]);
      assert TruthyIds(items) == [JStr(sel[0].id)] + TruthyIds(items[1..]);
      StrsCons(sel[0].id, IdsOf(sel[1..]));
    }
  }

  lemma StrsCons(id: string, ids: seq<string>)
    ensures Strs([id] + ids) == [JStr(id)] + Strs(ids)
  {
    var a, b := Strs([id] + ids), [JStr(id)] + Strs(ids);
    forall k | 0 <= k < |a| ensures a[k] == b[k] {
      if k > 0 {
        assert ([id] + ids)[k] == ids[k - 1];
      }
    }
  }

  /** `postValuesToDto`: the request body of the post editor. */
  function PostValuesToDto(values: map<string, Json>): (r: map<string, Json>)
    ensures r.Keys == {"type", "status", "slug", "title", "excerpt", "content", "tagIds", "cover", "publishedAt"}
    ensures r["type"] == JStr(KindName(Post))
    ensures r["excerpt"] == if Nullish(Field(values, "excerpt")) then JStr("") else Field(values, "excerpt")
    ensures r["tagIds"] == JArr(TagIdsOf(Field(values, "tags")))
    ensures forall key | key in {"status", "slug", "title", "content", "cover", "publishedAt"} :: r[key] == Field(values, key)
  {
    map[
      "type" := JStr("POST"),
      "status" := Field(values, "status"),
      "slug" := Field(values, "slug"),
      "title" := Field(values, "title"),
      "excerpt" := if Nullish(Field(values, "excerpt")) then JStr("") else Field(values, "excerpt"),
      "content" := Field(values, "content"),
      "tagIds" := JArr(TagIdsOf(Field(values, "tags"))),
      "cover" := Field(values, "cover"),
      "publishedAt" := Field(values, "publishedAt")]
  }

  /** `pageValuesToDto`: every field but `tags` is passed on, and the tag ids are added. */
  function PageValuesToDto(values: map<string, Json>): (r: map<string, Json>)
    ensures "tags" !in r
    ensures "tagIds" in r && r["tagIds"] == JArr(TagIdsOf(Field(values, "tags")))
    ensures forall key | key != "tags" && key != "tagIds" :: (key in r <==> key in values)
    ensures forall key | key in r && key != "tagIds" :: key in values && r[key] == values[key]
  {
    (values - {"tags"})["tagIds" := JArr(TagIdsOf(Field(values, "tags")))]
  }

  /** The object `JSON.stringify` writes for a record, its fields in some order. */
  ghost function ObjectOf(m: map<string, Json>): (r: Json)
    ensures r.JObj?
    decreases |m|
  {
    if m == map[] then JObj([])
    else
      var k :| k in m;
      JObj([Prop(k, m[k])] + ObjectOf(m - {k}).props)
  }

  /** Reading a field of the written object reads the record. */
  lemma {:induction false} GetObjectOf(m: map<string, Json>, key: string)
    ensures Get(ObjectOf(m), key) == Field(m, key)
    decreases |m|
  {
    if m != map[] {
      var k :| k in m && ObjectOf(m).props == [Prop(k, m[k])] + ObjectOf(m - {k}).props;
      GetObjectOf(m - {k}, key);
    }
  }

  /**
   * What the post editor sends is accepted by the create schema as exactly
   * the post the form describes, its cover and publication date aside.
   */
  lemma PostDtoAccepted(values: map<string, Json>, sel: seq<TagValue>, x: PageInput)
    requires x.kind == Post && WellFormedInput(x) && IdsOf(sel) == x.tagIds
    requires Field(values, "status") == JStr(StatusName(x.status))
    requires Field(values, "slug") == JStr(x.slug) && Field(values, "title") == JStr(x.title)
    requires Field(values, "excerpt") == JStr(x.excerpt) && Field(values, "content") == JStr(x.content)
    requires Field(values, "tags") == JArr(TagsJson(sel))
    ensures ParsePage(ObjectOf(PostValuesToDto(values))) == Ok(x)
  {
    var dto := PostValuesToDto(values);
    var raw := ObjectOf(dto);
    SelectionTagIds(sel);
    GetObjectOf(dto, "type");
    GetObjectOf(dto, "status");
    GetObjectOf(dto, "slug");
    GetObjectOf(dto, "title");
    GetObjectOf(dto, "excerpt");
    GetObjectOf(dto, "content");
    GetObjectOf(dto, "tagIds");
    ParsePageComplete(raw, x);
  }
}
