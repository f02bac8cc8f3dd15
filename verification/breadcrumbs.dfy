/**
 * The admin breadcrumb trail (ui/layout/Breadrcumbs/Breadcrumbs.tsx): the
 * path's segments, one crumb per segment with the link to that prefix of the
 * path, and a readable label for each.
 */
module Breadcrumbs {
  import opened Prelude
  import opened Strings
  import opened Json

  /** A segment can be one piece of a path: non-empty and without `/`. */
  predicate IsSegment(s: string) { s != [] && '/' !in s }

  /** `pathname.split("/").filter(Boolean)`. */
  function Segments(path: string): (r: seq<string>)
    ensures forall k :: 0 <= k < |r| ==> r[k] != [] && '/' !in r[k]
  {
    var parts := Split(path, '/');
    var r := NonEmpty(parts);
    assert forall k :: 0 <= k < |r| ==> r[k] in parts;
    r
  }

  /** Splitting text that begins with a `/`-free piece and a `/` yields that piece first. */
  lemma {:induction false} SplitAfterPiece(x: string, y: string)
    requires '/' !in x
    ensures Split(x + "/" + y, '/') == [x] + Split(y, '/')
  {
    if x == [] {
      assert x + "/" + y == "/" + y;
      assert ("/" + y)[1..] == y;
    } else {
      assert (x + "/" + y)[1..] == x[1..] + "/" + y;
      assert x[0] in x;
      assert forall c :: c in x[1..] ==> c in x;
      SplitAfterPiece(x[1..], y);
      assert [x[0]] + x[1..] == x;
    }
  }

  /** Text without `/` splits into itself. */
  lemma {:induction false} SplitPiece(x: string)
    requires '/' !in x
    ensures Split(x, '/') == [x]
  {
    if x != [] {
      assert x[0] in x;
      assert forall c :: c in x[1..] ==> c in x;
      SplitPiece(x[1..]);
      assert [x[0]] + x[1..] == x;
    }
  }

  /** Splitting segments joined by `/` gives them back. */
  lemma {:induction false} SplitJoin(segs: seq<string>)
    requires |segs| >= 1 && forall k :: 0 <= k < |segs| ==> '/' !in segs[k]
    ensures Split(Join(segs, "/"), '/') == segs
  {
    if |segs| == 1 {
      SplitPiece(segs[0]);
    } else {
      SplitJoin(segs[1..]);
      SplitAfterPiece(segs[0], Join(segs[1..], "/"));
    }
  }

  /** `.filter(Boolean)` keeps a list whose every entry is non-empty. */
  lemma {:induction false} NonEmptyOfNonEmpty(parts: seq<string>)
    requires forall k :: 0 <= k < |parts| ==> parts[k] != []
    ensures NonEmpty(parts) == parts
  {
    if parts != [] {
      NonEmptyOfNonEmpty(parts[1..]);
    }
  }

  /** The link of a crumb: `"/" + segments.slice(0, i + 1).join("/")`. */
  function Href(segs: seq<string>, i: nat): string
    requires i < |segs|
  {
    "/" + Join(segs[..i + 1], "/")
  }

  /** The path of segments, joined back, splits into exactly those segments. */
  lemma SegmentsOfJoined(segs: seq<string>)
    requires forall k :: 0 <= k < |segs| ==> IsSegment(segs[k])
    ensures Segments("/" + Join(segs, "/")) == segs
  {
    var joined := Join(segs, "/");
    var parts := Split("/" + joined, '/');
    assert parts == [""] + Split(joined, '/') by {
      assert ("/" + joined)[1..] == joined;
    }
    assert NonEmpty(parts) == NonEmpty(parts[1..]);
    if segs == [] {
      assert parts == ["", ""];
      assert NonEmpty(parts[1..]) == NonEmpty([]);
    } else {
      SplitJoin(segs);
      NonEmptyOfNonEmpty(segs);
      assert parts[1..] == segs;
    }
    assert Segments("/" + joined) == NonEmpty(parts);
  }

  /** A crumb's link leads to the path made of the segments up to and including its own. */
  lemma HrefSegments(segs: seq<string>, i: nat)
    requires i < |segs| && forall k :: 0 <= k < |segs| ==> IsSegment(segs[k])
    ensures Segments(Href(segs, i)) == segs[..i + 1]
  {
    SegmentsOfJoined(segs[..i + 1]);
  }

  /** `/^[0-9a-z-]{8,}$/i`. */
  predicate LooksLikeId(seg: string)
  {
    |seg| >= 8 && forall k :: 0 <= k < |seg| ==> IsDigit(seg[k]) || IsLowerAscii(seg[k]) || IsUpperAscii(seg[k]) || seg[k] == '-'
  }

  /** `seg.replace(/-/g, " ")`. */
  function Spaced(seg: string): (r: string)
    ensures |r| == |seg|
    ensures forall k :: 0 <= k < |seg| ==> r[k] == if seg[k] == '-' then ' ' else seg[k]
  {
    seq(|seg|, k requires 0 <= k < |seg| => if seg[k] == '-' then ' ' else seg[k])
  }

  /** `toLabel(seg, prev)`: `prev` is the segment before, if any. */
  function ToLabel(seg: string, prev: Option<string>): (r: string)
    ensures (seg == "new" || seg == "create") && prev == Some("pages") ==> r == "Create Page"
    ensures (seg == "new" || seg == "create") && prev == Some("posts") ==> r == "Create Post"
    ensures !(seg == "new" || seg == "create") && LooksLikeId(seg) && prev == Some("posts") ==> r == "Edit Post"
    ensures !(seg == "new" || seg == "create") && LooksLikeId(seg) && prev == Some("pages") ==> r == "Edit Page"
    ensures prev.None? || prev.value == [] ==> |r| == |seg|
  {
    var hasPrev := prev.Some? && prev.value != [];
    if (seg == "new" || seg == "create") && hasPrev then
      if prev.value == "pages" then "Create Page"
      else if prev.value == "posts" then "Create Post"
      else "New"
    else if LooksLikeId(seg) && hasPrev then
      if prev.value == "posts" then "Edit Post"
      else if prev.value == "pages" then "Edit Page"
      else "Edit"
    else
      var spaced := Spaced(seg);
      if spaced == [] then [] else [UpperChar(spaced[0])] + spaced[1..]
  }

  /** A plain segment's label is the segment with hyphens as spaces and its first letter upper-case. */
  lemma PlainLabel(seg: string, prev: Option<string>)
    requires seg != [] && seg != "new" && seg != "create" && !LooksLikeId(seg)
    ensures |ToLabel(seg, prev)| == |seg|
    ensures ToLabel(seg, prev)[0] == UpperChar(if seg[0] == '-' then ' ' else seg[0])
    ensures forall k :: 1 <= k < |seg| ==> ToLabel(seg, prev)[k] == if seg[k] == '-' then ' ' else seg[k]
  {
  }

  /** `isDetail`: the second-last segment is a content list and the last is not a create screen. */
  function IsDetail(segs: seq<string>): (b: bool)
    ensures b ==> |segs| >= 2
  {
    |segs| >= 2
    && (segs[|segs| - 2] == "pages" || segs[|segs| - 2] == "posts")
    && segs[|segs| - 1] != "new" && segs[|segs| - 1] != "create"
  }

  /** The title loaded for a detail page, with the id it belongs to (the `detailTitle` state). */
  datatype DetailTitle = DetailTitle(id: string, title: string)

  datatype Crumb = Crumb(href: string, text: string, isLast: bool)

  /**
   * The request the title effect sends: on a detail screen, the pages
   * endpoint with the last segment as id, whether the list is `pages` or
   * `posts`; elsewhere none.
   */
  function TitleRequest(segs: seq<string>): (r: Option<string>)
    ensures r.Some? <==> IsDetail(segs)
    ensures r.Some? ==> r.value == "/api/pages/" + segs[|segs| - 1]
  {
    if IsDetail(segs) then Some("/api/pages/" + segs[|segs| - 1]) else None
  }

  /** `data?.item?.title ?? data?.title`. */
  function FetchedTitle(data: Json): Json
  {
    var nested := Get(Get(data, "item"), "title");
    if nested.JUndefined? || nested.JNull? then Get(data, "title") else nested
  }

  /**
   * The effect's `.then`: `body` is the parsed response (`null` when the
   * response is not ok), None when the request failed and `.catch` swallowed
   * it. A string title is stored with the id it was fetched for; anything
   * else leaves the state as it was.
   */
  function OnTitleResponse(state: Option<DetailTitle>, id: string, body: Option<Json>): (r: Option<DetailTitle>)
    ensures body.Some? && FetchedTitle(body.value).JStr? ==> r == Some(DetailTitle(id, FetchedTitle(body.value).s))
    ensures !(body.Some? && FetchedTitle(body.value).JStr?) ==> r == state
  {
    if body.Some? && FetchedTitle(body.value).JStr? then Some(DetailTitle(id, FetchedTitle(body.value).s)) else state
  }

  /** The label of crumb `i`: the loaded title on the detail segment it belongs to, else `toLabel`. */
  function LabelAt(segs: seq<string>, i: nat, detail: Option<DetailTitle>): string
    requires i < |segs|
  {
    var prev := if i == 0 then None else Some(segs[i - 1]);
    if IsDetail(segs) && segs[i] == segs[|segs| - 1] && detail.Some? && detail.value.id == segs[i] then detail.value.title
    else ToLabel(segs[i], prev)
  }

  /** Every crumb's link leads to the path of the segments up to its own. */
  lemma HrefsSegments(segs: seq<string>)
    requires forall k :: 0 <= k < |segs| ==> IsSegment(segs[k])
    ensures forall i :: 0 <= i < |segs| ==> Segments(Href(segs, i)) == segs[..i + 1]
  {
    forall i | 0 <= i < |segs|
      ensures Segments(Href(segs, i)) == segs[..i + 1]
    {
      HrefSegments(segs, i);
    }
  }

  /**
   * `items`: one crumb per segment, linking to the path cut after that
   * segment, with only the last one unlinked; a crumb shows the loaded
   * title exactly when it is the detail id the title was loaded for.
   */
  function Items(segs: seq<string>, detail: Option<DetailTitle>): (r: seq<Crumb>)
    requires forall k :: 0 <= k < |segs| ==> IsSegment(segs[k])
    ensures |r| == |segs|
    ensures forall i :: 0 <= i < |r| ==> Segments(r[i].href) == segs[..i + 1]
    ensures forall i :: 0 <= i < |r| ==> (r[i].isLast <==> i == |segs| - 1)
    ensures forall i {:trigger r[i]} :: 0 <= i < |r| && IsDetail(segs) && detail.Some? && segs[i] == segs[|segs| - 1] && detail.value.id == segs[i]
               ==> r[i].text == detail.value.title
    ensures forall i {:trigger r[i]} :: 0 <= i < |r| && !(IsDetail(segs) && detail.Some? && segs[i] == segs[|segs| - 1] && detail.value.id == segs[i])
               ==> r[i].text == ToLabel(segs[i], if i == 0 then None else Some(segs[i - 1]))
  {
    HrefsSegments(segs);
    var r := seq(|segs|, i requires 0 <= i < |segs| => Crumb(Href(segs, i), LabelAt(segs, i, detail), i == |segs| - 1));
    assert forall i :: 0 <= i < |r| ==> r[i].href == Href(segs, i) && r[i].text == LabelAt(segs, i, detail);
    r
  }

  /** The rendered trail: a single link to the dashboard when the path has no segments. */
  function Trail(path: string, detail: Option<DetailTitle>): (r: seq<Crumb>)
    ensures Segments(path) == [] ==> r == [Crumb("/admin", "Dashboard", false)]
    ensures Segments(path) != [] ==> r == Items(Segments(path), detail)
  {
    var segs := Segments(path);
    if segs == [] then [Crumb("/admin", "Dashboard", false)] else Items(segs, detail)
  }

  /**
   * Once the title fetched for a detail screen arrives as a string, the
   * last crumb of that screen's items shows it (`Trail` renders these items
   * for a path with segments).
   */
  lemma FetchedTitleShown(segs: seq<string>, state: Option<DetailTitle>, body: Json)
    requires forall k :: 0 <= k < |segs| ==> IsSegment(segs[k])
    requires IsDetail(segs) && FetchedTitle(body).JStr?
    ensures Items(segs, OnTitleResponse(state, segs[|segs| - 1], Some(body)))[|segs| - 1].text == FetchedTitle(body).s
  {
    var d := OnTitleResponse(state, segs[|segs| - 1], Some(body));
    assert d == Some(DetailTitle(segs[|segs| - 1], FetchedTitle(body).s));
    LastCrumbShowsTitle(segs, segs[|segs| - 1], FetchedTitle(body).s);
  }

  /** On a detail trail, a title loaded for the last segment is the last crumb's text. */
  lemma LastCrumbShowsTitle(segs: seq<string>, id: string, title: string)
    requires forall k :: 0 <= k < |segs| ==> IsSegment(segs[k])
    requires IsDetail(segs) && id == segs[|segs| - 1]
    ensures Items(segs, Some(DetailTitle(id, title)))[|segs| - 1].text == title
  {
  }

  /** Each crumb links to a path one segment longer than the one before, extending it. */
  lemma HrefExtends(segs: seq<string>, i: nat)
    requires i + 1 < |segs|
    ensures Href(segs, i + 1) == Href(segs, i) + "/" + segs[i + 1]
  {
    JoinSnoc(segs[..i + 1], segs[i + 1]);
    assert segs[..i + 2] == segs[..i + 1] + [segs[i + 1]];
  }

  lemma {:induction false} JoinSnoc(parts: seq<string>, last: string)
    requires parts != []
    ensures Join(parts + [last], "/") == Join(parts, "/") + "/" + last
  {
    if |parts| == 1 {
      assert (parts + [last])[1..] == [last];
    } else {
      assert (parts + [last])[1..] == parts[1..] + [last];
      JoinSnoc(parts[1..], last);
    }
  }
}
