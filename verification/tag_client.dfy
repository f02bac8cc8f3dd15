/**
 * The browser side of tags (lib/services/tag.client.ts): runtime guards over
 * untyped API responses, the `{ data }` unwrapping, and the fallbacks that
 * turn whatever the server sent into tag values.
 */
module TagClient {
  import opened Prelude
  import opened Json
  import opened Strings
  import opened TagSelect
  import TagService

  // ---------------------------------------------------------------------
  // Type guards
  // ---------------------------------------------------------------------

  /** `isTagValue`: an object whose `id`, `name` and `slug` are strings. */
  predicate IsTagValue(v: Json)
  {
    IsObject(v) && Get(v, "id").JStr? && Get(v, "name").JStr? && Get(v, "slug").JStr?
  }

  /** The tag a guarded value stands for. */
  function AsTagValue(v: Json): TagValue
    requires IsTagValue(v)
  {
    TagValue(Get(v, "id").s, Get(v, "name").s, Get(v, "slug").s)
  }

  /** A tag as the API sends it. */
  function TagToJson(t: TagValue): Json
  {
    JObj([Prop("id", JStr(t.id)), Prop("name", JStr(t.name)), Prop("slug", JStr(t.slug))])
  }

  /** Every tag the API sends passes the guard and reads back as itself. */
  lemma TagJsonRoundTrip(t: TagValue)
    ensures IsTagValue(TagToJson(t)) && AsTagValue(TagToJson(t)) == t
  {
    var ps := TagToJson(t).props;
    assert "id" != "name" && "id" != "slug" && "name" != "slug" by {
      assert "id"[0] != "name"[0] && "id"[0] != "slug"[0] && "name"[0] != "slug"[0];
    }
    assert Lookup(ps, "id") == JStr(t.id);
    assert Lookup(ps, "name") == Lookup(ps[1..], "name") == JStr(t.name);
    assert Lookup(ps, "slug") == Lookup(ps[1..], "slug") == Lookup(ps[2..], "slug") == JStr(t.slug);
  }

  /** `isTagValueArray`. */
  predicate IsTagValueArray(v: Json)
  {
    v.JArr? && forall i :: 0 <= i < |v.items| ==> IsTagValue(v.items[i])
  }

  /** The tags a guarded array stands for. */
  function AsTagValues(v: Json): (r: seq<TagValue>)
    requires IsTagValueArray(v)
    ensures |r| == |v.items| && forall i :: 0 <= i < |r| ==> r[i] == AsTagValue(v.items[i])
  {
    seq(|v.items|, i requires 0 <= i < |v.items| && IsTagValueArray(v) => AsTagValue(v.items[i]))
  }

  function TagsToJson(ts: seq<TagValue>): (v: Json)
    ensures v.JArr? && |v.items| == |ts|
  {
    JArr(seq(|ts|, i requires 0 <= i < |ts| => TagToJson(ts[i])))
  }

  /** A list of tags as the API sends it passes the guard and reads back as itself. */
  lemma TagsJsonRoundTrip(ts: seq<TagValue>)
    ensures IsTagValueArray(TagsToJson(ts)) && AsTagValues(TagsToJson(ts)) == ts
  {
    var v := TagsToJson(ts);
    forall i | 0 <= i < |ts|
      ensures IsTagValue(v.items[i]) && AsTagValue(v.items[i]) == ts[i]
    {
      assert v.items[i] == TagToJson(ts[i]);
      TagJsonRoundTrip(ts[i]);
    }
  }

  /** `isPaginatedTagResponse`: an object whose `items` is a tag array. */
  predicate IsPaginatedTagResponse(v: Json)
  {
    IsObject(v) && IsTagValueArray(Get(v, "items"))
  }

  /** `unwrapOkData`: the `data` of an object that has one, anything else as it is. */
  function UnwrapOkData(raw: Json): (r: Json)
    ensures Has(raw, "data") ==> r == Get(raw, "data")
    ensures !Has(raw, "data") ==> r == raw
    ensures Size(r) <= Size(raw)
  {
    if IsObject(raw) && Has(raw, "data") then Get(raw, "data") else raw
  }

  /** A payload wrapped as `{ data }` and the bare payload unwrap to the same value. */
  lemma UnwrapWrapped(payload: Json)
    requires !Has(payload, "data")
    ensures UnwrapOkData(JObj([Prop("data", payload)])) == payload
    ensures UnwrapOkData(payload) == payload
  {
    assert JObj([Prop("data", payload)]).props[0].key == "data";
  }

  // ---------------------------------------------------------------------
  // Loading options and entity tags
  // ---------------------------------------------------------------------

  /**
   * `loadTagOptionsAction` after the fetch: `response` is the parsed body,
   * None when the response was not ok.
   */
  function LoadTagOptions(response: Option<Json>): (r: seq<TagValue>)
    ensures response.None? ==> r == []
    ensures response.Some? && IsPaginatedTagResponse(UnwrapOkData(response.value)) ==>
      r == AsTagValues(Get(UnwrapOkData(response.value), "items"))
    ensures response.Some? && !IsPaginatedTagResponse(UnwrapOkData(response.value)) && IsTagValueArray(UnwrapOkData(response.value)) ==>
      r == AsTagValues(UnwrapOkData(response.value))
    ensures response.Some? && !IsPaginatedTagResponse(UnwrapOkData(response.value)) && !IsTagValueArray(UnwrapOkData(response.value)) ==>
      r == []
  {
    if response.None? then []
    else
      var unwrapped := UnwrapOkData(response.value);
      if IsPaginatedTagResponse(unwrapped) then AsTagValues(Get(unwrapped, "items"))
      else if IsTagValueArray(unwrapped) then AsTagValues(unwrapped)
      else []
  }

  /** Both accepted shapes, `{ items }` and a bare array, wrapped in `{ data }` or not, deliver the tags. */
  lemma LoadTagOptionsShapes(ts: seq<TagValue>)
    ensures LoadTagOptions(Some(TagsToJson(ts))) == ts
    ensures LoadTagOptions(Some(JObj([Prop("items", TagsToJson(ts))]))) == ts
    ensures LoadTagOptions(Some(JObj([Prop("data", JObj([Prop("items", TagsToJson(ts))]))]))) == ts
    ensures LoadTagOptions(Some(JObj([Prop("data", TagsToJson(ts))]))) == ts
  {
    TagsJsonRoundTrip(ts);
    var page := JObj([Prop("items", TagsToJson(ts))]);
    assert !Has(page, "data") by {
      assert page.props[0].key == "items";
    }
    UnwrapWrapped(page);
    UnwrapWrapped(TagsToJson(ts));
    assert Get(page, "items") == TagsToJson(ts);
  }

  /** `loadEntityTagsAction` after the fetch: only a tag array counts. */
  function LoadEntityTags(response: Option<Json>): (r: seq<TagValue>)
    ensures response.Some? && IsTagValueArray(UnwrapOkData(response.value)) ==>
      r == AsTagValues(UnwrapOkData(response.value))
    ensures response.None? || !IsTagValueArray(UnwrapOkData(response.value)) ==> r == []
  {
    if response.None? then []
    else
      var unwrapped := UnwrapOkData(response.value);
      if IsTagValueArray(unwrapped) then AsTagValues(unwrapped) else []
  }

  // ---------------------------------------------------------------------
  // Creating a tag
  // ---------------------------------------------------------------------

  /** A non-blank string property. */
  predicate NonBlankString(v: Json)
  {
    v.JStr? && Trim(v.s) != []
  }

  /**
   * `createTagAction` after the fetch: a failed response throws; a tag value
   * is taken as it is; anything else is patched field by field. `freshId`
   * stands for `crypto.randomUUID()`.
   */
  function CreateTagResult(labelText: string, response: Option<Json>, freshId: string): (r: Outcome<TagValue, string>)
    ensures response.None? <==> r == Fail("Failed to create tag")
    ensures response.Some? && IsTagValue(UnwrapOkData(response.value)) ==> r == Ok(AsTagValue(UnwrapOkData(response.value)))
  {
    if response.None? then Fail("Failed to create tag")
    else
      var unwrapped := UnwrapOkData(response.value);
      if IsTagValue(unwrapped) then Ok(AsTagValue(unwrapped))
      else Ok(Fallback(labelText, unwrapped, freshId))
  }

  /** The fallback id: a string id, a numeric id written out, else a fresh one. */
  function FallbackId(id: Json, freshId: string): (r: string)
    ensures id.JStr? ==> r == id.s
    ensures id.JNum? ==> r == NumberText(id.n)
    ensures !id.JStr? && !id.JNum? ==> r == freshId
  {
    match id
    case JStr(s) => s
    case JNum(n) => NumberText(n)
    case _ => freshId
  }

  /** The fallback tag built from a malformed payload. */
  function Fallback(labelText: string, unwrapped: Json, freshId: string): (t: TagValue)
    ensures t.id == FallbackId(Get(unwrapped, "id"), freshId)
    ensures NonBlankString(Get(unwrapped, "name")) ==> t.name == Get(unwrapped, "name").s
    ensures !NonBlankString(Get(unwrapped, "name")) ==> t.name == labelText
    ensures NonBlankString(Get(unwrapped, "slug")) ==> t.slug == Get(unwrapped, "slug").s
    ensures !NonBlankString(Get(unwrapped, "slug")) ==> t.slug == SlugFromName(t.name)
  {
    var obj := if IsObject(unwrapped) then unwrapped else JObj([]);
    assert Get(obj, "id") == Get(unwrapped, "id") && Get(obj, "name") == Get(unwrapped, "name")
      && Get(obj, "slug") == Get(unwrapped, "slug");
    var id := FallbackId(Get(obj, "id"), freshId);
    var name := if NonBlankString(Get(obj, "name")) then Get(obj, "name").s else labelText;
    var slug := if NonBlankString(Get(obj, "slug")) then Get(obj, "slug").s else SlugFromName(name);
    TagValue(id, name, slug)
  }

  /** `name.toLowerCase().replace(/\s+/g, "-")`. */
  function SlugFromName(name: string): string
  {
    ReplaceSpaceRuns(Lower(name), "-")
  }

  /** A slug derived from a name is lower case and has no white space. */
  lemma SlugFromNameShape(name: string)
    ensures var slug := SlugFromName(name);
      forall i :: 0 <= i < |slug| ==> !IsSpace(slug[i]) && !IsUpperAscii(slug[i])
  {
    var l := Lower(name);
    ReplaceSpaceRunsNoSpace(l, "-");
    assert forall i :: 0 <= i < |l| ==> !IsUpperAscii(l[i]);
    ReplaceSpaceRunsChars(l, "-", c => !IsUpperAscii(c));
  }

  // ---------------------------------------------------------------------
  // Admin listing
  // ---------------------------------------------------------------------

  datatype TagWithUsage = TagWithUsage(tag: TagValue, usedCount: int)

  /** `isTagWithUsageValue`: a tag value with a numeric `usedCount`. */
  predicate IsTagWithUsage(v: Json)
  {
    IsTagValue(v) && Get(v, "usedCount").JNum?
  }

  predicate IsTagWithUsageArray(v: Json)
  {
    v.JArr? && forall i :: 0 <= i < |v.items| ==> IsTagWithUsage(v.items[i])
  }

  function AsTagsWithUsage(v: Json): (r: seq<TagWithUsage>)
    requires IsTagWithUsageArray(v)
    ensures |r| == |v.items|
    ensures forall i :: 0 <= i < |r| ==> r[i].tag == AsTagValue(v.items[i]) && r[i].usedCount == Get(v.items[i], "usedCount").n
  {
    seq(|v.items|, i requires 0 <= i < |v.items| && IsTagWithUsageArray(v) =>
      TagWithUsage(AsTagValue(v.items[i]), Get(v.items[i], "usedCount").n))
  }

  /** `loadTagsAdminAction` after the fetch: a bare array or `{ items }` of counted tags, else nothing. */
  function LoadTagsAdmin(response: Option<Json>): (r: seq<TagWithUsage>)
    ensures response.Some? && IsTagWithUsageArray(UnwrapOkData(response.value)) ==>
      r == AsTagsWithUsage(UnwrapOkData(response.value))
    ensures (response.Some? && !IsTagWithUsageArray(UnwrapOkData(response.value))
             && IsTagWithUsageArray(Get(UnwrapOkData(response.value), "items"))) ==>
      r == AsTagsWithUsage(Get(UnwrapOkData(response.value), "items"))
    ensures (response.None? || (!IsTagWithUsageArray(UnwrapOkData(response.value))
                                && !IsTagWithUsageArray(Get(UnwrapOkData(response.value), "items")))) ==> r == []
  {
    if response.None? then []
    else
      var unwrapped := UnwrapOkData(response.value);
      if IsTagWithUsageArray(unwrapped) then AsTagsWithUsage(unwrapped)
      else
        var obj := if IsObject(unwrapped) then unwrapped else JObj([]);
        assert Get(obj, "items") == Get(unwrapped, "items");
        if IsTagWithUsageArray(Get(obj, "items")) then AsTagsWithUsage(Get(obj, "items")) else []
  }

  /** Every admin entry is a tag with its count, in the order the server sent them. */
  lemma AdminEntriesAreTags(response: Option<Json>, i: int)
    requires 0 <= i < |LoadTagsAdmin(response)|
    ensures response.Some?
    ensures var u := UnwrapOkData(response.value);
      var arr := if IsTagWithUsageArray(u) then u else Get(u, "items");
      IsTagWithUsageArray(arr) && LoadTagsAdmin(response)[i].tag == AsTagValue(arr.items[i])
  {
  }
}
