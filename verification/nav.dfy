/**
 * The admin sidebar's navigation (ui/shell/Sidebar/Sidebar.tsx and its older
 * twin ui/layout/Sidebar/Sidebar.tsx, which share the item list and the
 * highlighting rule): which entry is highlighted for the current path.
 */
module Nav {
  import opened Strings

  /** One entry of the sidebar; the icon is left out. */
  datatype Item = Item(href: string, text: string)

  /** `ITEMS`, in the order the sidebar lists them. */
  const Items: seq<Item> := [
    Item("/admin", "DashboardScreen"),
    Item("/admin/pages", "Pages"),
    Item("/admin/posts", "Posts"),
    Item("/admin/media", "Media"),
    Item("/admin/taxonomy", "Taxonomy")
  ]

  /** `pathname` is `href` itself or a path below it (`href` followed by `/`). */
  predicate AtOrBelow(pathname: string, href: string)
  {
    pathname == href || StartsWith(pathname, href + "/")
  }

  /** `isActive(href)`: the dashboard only on its own path, every other entry on its whole subtree. */
  function IsActive(pathname: string, href: string): (b: bool)
    ensures b ==> StartsWith(pathname, href)
    ensures b && href == "/admin" ==> pathname == href
    ensures b ==> |pathname| == |href| || pathname[|href|] == '/'
  {
    if href == "/admin" then pathname == "/admin"
    else AtOrBelow(pathname, href)
  }

  /** The dashboard entry is highlighted on the dashboard and nowhere else. */
  lemma DashboardOnlyExact(pathname: string)
    ensures IsActive(pathname, Items[0].href) <==> pathname == "/admin"
  {
  }

  /** A section entry is highlighted on every path below it. */
  lemma SectionCoversSubtree(i: nat, rest: string)
    requires 1 <= i < |Items|
    ensures IsActive(Items[i].href, Items[i].href)
    ensures IsActive(Items[i].href + "/" + rest, Items[i].href)
  {
    var h := Items[i].href;
    assert (h + "/" + rest)[..|h + "/"|] == h + "/";
  }

  /** A path that only shares a prefix of the entry's name (`/admin/pagesX`) does not highlight it. */
  lemma SiblingNotActive(i: nat, c: char, rest: string)
    requires 1 <= i < |Items| && c != '/'
    ensures !IsActive(Items[i].href + [c] + rest, Items[i].href)
  {
    var h := Items[i].href;
    assert (h + [c] + rest)[|h|] == c;
  }

  /** Two texts that differ at `d` cannot both be prefixes of one path. */
  lemma PrefixesDisagree(pathname: string, a: string, b: string, d: nat)
    requires d < |a| && d < |b| && a[d] != b[d]
    ensures !(StartsWith(pathname, a) && StartsWith(pathname, b))
  {
  }

  /** An index at which the hrefs of two different section entries differ. */
  function Disagreement(i: nat, j: nat): (d: nat)
    requires 1 <= i < j < |Items|
    ensures d < |Items[i].href| && d < |Items[j].href|
    ensures Items[i].href[d] != Items[j].href[d]
  {
    if i == 1 && j == 2 then 8 else 7
  }

  /** Whatever the path, at most one entry of the sidebar is highlighted. */
  lemma AtMostOneActive(pathname: string, i: nat, j: nat)
    requires i < j < |Items|
    ensures !(IsActive(pathname, Items[i].href) && IsActive(pathname, Items[j].href))
  {
    if i == 0 {
      if IsActive(pathname, Items[0].href) {
        assert pathname == "/admin";
        assert |Items[j].href| > |pathname|;
      }
    } else {
      PrefixesDisagree(pathname, Items[i].href, Items[j].href, Disagreement(i, j));
    }
  }

  /** On a path below a section, exactly that section is highlighted. */
  lemma ExactlyTheSection(i: nat, rest: string, j: nat)
    requires 1 <= i < |Items| && j < |Items|
    ensures IsActive(Items[i].href + "/" + rest, Items[j].href) <==> i == j
  {
    SectionCoversSubtree(i, rest);
    if i < j {
      AtMostOneActive(Items[i].href + "/" + rest, i, j);
    } else if j < i {
      AtMostOneActive(Items[i].href + "/" + rest, j, i);
    }
  }
}
