/**
 * The tag picker (ui/components/TagMultiSelect/TagMultiSelect.tsx): a list
 * of chosen tags, a search query, a dropdown of options that hides tags
 * already chosen, and the keyboard shortcuts that add and remove tags.
 */
module TagSelect {
  import opened Prelude
  import opened Strings

  datatype TagValue = TagValue(id: string, name: string, slug: string)

  /** `tags.some(t => t.id === id)`. */
  predicate HasId(tags: seq<TagValue>, id: string)
  {
    exists t | t in tags :: t.id == id
  }

  /** No two entries share an id. */
  predicate DistinctIds(tags: seq<TagValue>)
  {
    forall i, j :: 0 <= i < j < |tags| ==> tags[i].id != tags[j].id
  }

  /** `Array.isArray(value) ? value : []`. */
  function SelectedOf(value: Option<seq<TagValue>>): (r: seq<TagValue>)
    ensures value.None? ==> r == []
    ensures value.Some? ==> r == value.value
  {
    if value.Some? then value.value else []
  }

  /** `options.filter(opt => !selectedIds.has(opt.id))`. */
  function Selectable(options: seq<TagValue>, selected: seq<TagValue>): (r: seq<TagValue>)
    ensures forall o :: o in r <==> o in options && !HasId(selected, o.id)
    ensures |r| <= |options|
  {
    if options == [] then []
    else
      var rest := Selectable(options[1..], selected);
      assert forall o :: o in options <==> o == options[0] || o in options[1..];
      if HasId(selected, options[0].id) then rest else [options[0]] + rest
  }

  /** The filter keeps the options' order: it distributes over concatenation. */
  lemma {:induction false} SelectableAppend(a: seq<TagValue>, b: seq<TagValue>, selected: seq<TagValue>)
    ensures Selectable(a + b, selected) == Selectable(a, selected) + Selectable(b, selected)
  {
    if a == [] {
      assert a + b == b;
    } else {
      assert (a + b)[1..] == a[1..] + b;
      SelectableAppend(a[1..], b, selected);
    }
  }

  /** `tags.filter(t => t.id !== id)`. */
  function WithoutId(tags: seq<TagValue>, id: string): (r: seq<TagValue>)
    ensures forall t :: t in r <==> t in tags && t.id != id
    ensures |r| <= |tags|
  {
    if tags == [] then []
    else
      var rest := WithoutId(tags[1..], id);
      assert forall t :: t in tags <==> t == tags[0] || t in tags[1..];
      if tags[0].id == id then rest else [tags[0]] + rest
  }

  /** Removal keeps the remaining tags in order. */
  lemma {:induction false} WithoutIdAppend(a: seq<TagValue>, b: seq<TagValue>, id: string)
    ensures WithoutId(a + b, id) == WithoutId(a, id) + WithoutId(b, id)
  {
    if a == [] {
      assert a + b == b;
    } else {
      assert (a + b)[1..] == a[1..] + b;
      WithoutIdAppend(a[1..], b, id);
    }
  }

  /** Removing tags keeps the ids distinct. */
  lemma {:induction false} WithoutIdDistinct(tags: seq<TagValue>, id: string)
    requires DistinctIds(tags)
    ensures DistinctIds(WithoutId(tags, id))
  {
    if tags != [] {
      var rest := tags[1..];
      assert DistinctIds(rest) by {
        forall i, j | 0 <= i < j < |rest|
          ensures rest[i].id != rest[j].id
        {
          assert rest[i] == tags[i + 1] && rest[j] == tags[j + 1];
        }
      }
      WithoutIdDistinct(rest, id);
      if tags[0].id != id {
        var r := WithoutId(rest, id);
        forall k | 0 <= k < |r|
          ensures r[k].id != tags[0].id
        {
          assert r[k] in rest;
          var m :| 0 <= m < |rest| && rest[m] == r[k];
          assert rest[m] == tags[m + 1];
        }
        assert [tags[0]] + r == WithoutId(tags, id);
      }
    }
  }

  /** Appending a tag whose id is new keeps the ids distinct. */
  lemma AppendDistinct(tags: seq<TagValue>, tag: TagValue)
    requires DistinctIds(tags) && !HasId(tags, tag.id)
    ensures DistinctIds(tags + [tag])
  {
    var s := tags + [tag];
    forall i, j | 0 <= i < j < |s|
      ensures s[i].id != s[j].id
    {
      if j == |tags| {
        assert s[i] in tags;
      }
    }
  }

  /** Whether some option's name equals `q`, ignoring case. */
  function NameTaken(options: seq<TagValue>, q: string): (b: bool)
    ensures b <==> exists o | o in options :: Lower(o.name) == Lower(q)
  {
    if options == [] then false
    else
      assert forall o :: o in options <==> o == options[0] || o in options[1..];
      Lower(options[0].name) == Lower(q) || NameTaken(options[1..], q)
  }

  /** `showCreate`: a non-blank query that no selectable option already names. */
  function ShowCreate(query: string, selectable: seq<TagValue>): (b: bool)
    ensures b <==> Trim(query) != [] && forall o | o in selectable :: Lower(o.name) != Lower(Trim(query))
  {
    Trim(query) != [] && !NameTaken(selectable, Trim(query))
  }

  datatype Key = Enter | Backspace | Escape | OtherKey

  /** The picker's state: the chosen tags (the controlled `value`), the query, the dropdown and its options. */
  class TagMultiSelect {
    var selected: seq<TagValue>
    var query: string
    var open: bool
    var options: seq<TagValue>

    constructor (value: Option<seq<TagValue>>)
      ensures selected == SelectedOf(value) && query == [] && !open && options == []
    {
      selected := SelectedOf(value);
      query := [];
      open := false;
      options := [];
    }

    /** The options offered in the dropdown. */
    function SelectableOptions(): seq<TagValue>
      reads this
    {
      Selectable(options, selected)
    }

    /** Typing into the input stores the text and opens the dropdown. */
    method Type(text: string)
      modifies this
      ensures query == text && open
      ensures selected == old(selected) && options == old(options)
    {
      query := text;
      open := true;
    }

    /** The search hook delivers its results. */
    method LoadOptions(results: seq<TagValue>)
      modifies this
      ensures options == results
      ensures selected == old(selected) && query == old(query) && open == old(open)
    {
      options := results;
    }

    /** `addTag`: a tag already chosen changes nothing; any other is appended and the search is reset. */
    method AddTag(tag: TagValue)
      modifies this
      ensures HasId(old(selected), tag.id) ==>
        selected == old(selected) && query == old(query) && open == old(open) && options == old(options)
      ensures !HasId(old(selected), tag.id) ==>
        selected == old(selected) + [tag] && query == [] && !open && options == []
      ensures HasId(selected, tag.id)
      ensures DistinctIds(old(selected)) ==> DistinctIds(selected)
    {
      if HasId(selected, tag.id) {
        return;
      }
      if DistinctIds(selected) {
        AppendDistinct(selected, tag);
      }
      selected := selected + [tag];
      assert tag in selected;
      query := [];
      options := [];
      open := false;
    }

    /** `removeTag`: every entry with the tag's id leaves the selection. */
    method RemoveTag(tag: TagValue)
      modifies this
      ensures selected == WithoutId(old(selected), tag.id)
      ensures !HasId(selected, tag.id)
      ensures query == old(query) && open == old(open) && options == old(options)
      ensures DistinctIds(old(selected)) ==> DistinctIds(selected)
    {
      if DistinctIds(selected) {
        WithoutIdDistinct(selected, tag.id);
      }
      selected := WithoutId(selected, tag.id);
    }

    /**
     * `handleKeyDown`. `created` is the tag `createTagAction` resolves to
     * for the trimmed query; it is used only when Enter finds no selectable
     * option.
     */
    method KeyDown(key: Key, created: TagValue)
      modifies this
      ensures key == Enter && Trim(old(query)) != [] && old(SelectableOptions()) != [] ==>
        selected == old(selected) + [old(SelectableOptions())[0]] && query == [] && !open && options == []
      ensures key == Enter && Trim(old(query)) != [] && old(SelectableOptions()) == [] ==>
        HasId(selected, created.id)
        && (HasId(old(selected), created.id) ==>
              selected == old(selected) && query == old(query) && open == old(open) && options == old(options))
        && (!HasId(old(selected), created.id) ==>
              selected == old(selected) + [created] && query == [] && !open && options == [])
      ensures key == Backspace && old(query) == [] && old(selected) != [] ==>
        selected == WithoutId(old(selected), old(selected)[|old(selected)| - 1].id)
        && query == old(query) && open == old(open) && options == old(options)
      ensures key == Escape ==> !open && selected == old(selected) && query == old(query) && options == old(options)
      ensures (key == Enter && Trim(old(query)) == []) || (key == Backspace && (old(query) != [] || old(selected) == [])) || key == OtherKey ==>
        selected == old(selected) && query == old(query) && open == old(open) && options == old(options)
      ensures DistinctIds(old(selected)) ==> DistinctIds(selected)
    {
      if key == Enter && Trim(query) != [] {
        var selectable := SelectableOptions();
        if |selectable| > 0 {
          assert selectable[0] in selectable;
          AddTag(selectable[0]);
          return;
        }
        AddTag(created);
        return;
      }
      if key == Backspace && query == [] && |selected| > 0 {
        RemoveTag(selected[|selected| - 1]);
        return;
      }
      if key == Escape {
        open := false;
      }
    }

    /** `handleCreateClick`: a blank query does nothing; otherwise the created tag is added. */
    method CreateClick(created: TagValue)
      modifies this
      ensures Trim(old(query)) == [] ==>
        selected == old(selected) && query == old(query) && open == old(open) && options == old(options)
      ensures Trim(old(query)) != [] ==> HasId(selected, created.id)
      ensures Trim(old(query)) != [] && HasId(old(selected), created.id) ==>
        selected == old(selected) && query == old(query) && open == old(open) && options == old(options)
      ensures Trim(old(query)) != [] && !HasId(old(selected), created.id) ==>
        selected == old(selected) + [created] && query == [] && !open && options == []
      ensures DistinctIds(old(selected)) ==> DistinctIds(selected)
    {
      if Trim(query) == [] {
        return;
      }
      AddTag(created);
    }
  }
}
