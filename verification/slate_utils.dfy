/**
 * The toolbar's queries and commands over the editor's document and
 * selection: whether a mark, a block format or a heading level is active,
 * the active alignment, and the toggles and the alignment command built
 * from unwrapping, setting properties and wrapping.
 */
module SlateUtils {
  import opened Prelude
  import opened SlateSchema
  import opened SlateTree

  /** The block formats the toolbar toggles. */
  datatype BlockFormat =
    | HeadingFormat
    | BlockquoteFormat
    | BulletedListFormat
    | NumberedListFormat
    | CodeBlockFormat

  predicate IsListFormat(f: BlockFormat) { f == BulletedListFormat || f == NumberedListFormat }

  /** The list element a list format wraps its items in. */
  function ListKind(f: BlockFormat): (k: Kind)
    requires IsListFormat(f)
    ensures IsListKind(k)
  {
    if f == BulletedListFormat then BulletedList else NumberedList
  }

  /** An element whose `type` is the format's; any heading level is a heading. */
  predicate HasFormat(n: Node, f: BlockFormat)
  {
    n.Element? &&
    match f
    case HeadingFormat => n.kind.Heading?
    case BlockquoteFormat => n.kind == Blockquote
    case BulletedListFormat => n.kind == BulletedList
    case NumberedListFormat => n.kind == NumberedList
    case CodeBlockFormat => n.kind == CodeBlock
  }

  predicate AnyHasFormat(xs: seq<Node>, f: BlockFormat)
  {
    xs != [] && (HasFormat(xs[0], f) || AnyHasFormat(xs[1..], f))
  }

  /** Some element of the run has that format. */
  lemma {:induction false} AnyHasFormatIff(xs: seq<Node>, f: BlockFormat)
    ensures AnyHasFormat(xs, f) <==> exists i :: 0 <= i < |xs| && HasFormat(xs[i], f)
  {
    if xs != [] {
      AnyHasFormatIff(xs[1..], f);
      if HasFormat(xs[0], f) {
        assert HasFormat(xs[0], f);
      } else if exists i :: 0 <= i < |xs| && HasFormat(xs[i], f) {
        var i :| 0 <= i < |xs| && HasFormat(xs[i], f);
        assert HasFormat(xs[1..][i - 1], f);
      }
    }
  }

  /** `isBlockActive`: some element the selection touches has that type. */
  predicate IsBlockActive(doc: Doc, lo: nat, hi: nat, f: BlockFormat)
  {
    AnyHasFormat(Touched(doc, 0, lo, hi), f)
  }

  predicate AnyOfKind(xs: seq<Node>, k: Kind)
  {
    xs != [] && ((xs[0].Element? && xs[0].kind == k) || AnyOfKind(xs[1..], k))
  }

  /** `isHeadingActive`: some element the selection touches is a heading of exactly that level. */
  predicate IsHeadingActive(doc: Doc, lo: nat, hi: nat, level: int)
  {
    AnyOfKind(Touched(doc, 0, lo, hi), Heading(level))
  }

  /** The alignment of the first element of the run that has one. */
  function FirstAlign(xs: seq<Node>): Option<Align>
  {
    if xs == [] then None
    else if xs[0].Element? && xs[0].align.Some? then xs[0].align
    else FirstAlign(xs[1..])
  }

  lemma {:induction false} FirstAlignFirst(xs: seq<Node>)
    ensures FirstAlign(xs).Some? <==> exists i :: 0 <= i < |xs| && xs[i].Element? && xs[i].align.Some?
    ensures FirstAlign(xs).Some? ==>
      exists i :: 0 <= i < |xs| && xs[i].Element? && xs[i].align == FirstAlign(xs)
        && forall j :: 0 <= j < i ==> !(xs[j].Element? && xs[j].align.Some?)
  {
    if xs != [] && !(xs[0].Element? && xs[0].align.Some?) {
      FirstAlignFirst(xs[1..]);
      if FirstAlign(xs).Some? {
        var i :| 0 <= i < |xs[1..]| && xs[1..][i].Element? && xs[1..][i].align == FirstAlign(xs)
          && forall j :: 0 <= j < i ==> !(xs[1..][j].Element? && xs[1..][j].align.Some?);
        assert xs[i + 1] == xs[1..][i];
        assert forall j :: 0 <= j < i + 1 ==> !(xs[j].Element? && xs[j].align.Some?) by {
          forall j | 0 <= j < i + 1 ensures !(xs[j].Element? && xs[j].align.Some?) {
            if j > 0 { assert xs[j] == xs[1..][j - 1]; }
          }
        }
      } else {
        forall i | 0 <= i < |xs| ensures !(xs[i].Element? && xs[i].align.Some?) {
          if i > 0 { assert xs[i] == xs[1..][i - 1]; }
        }
      }
    }
  }

  /** `getActiveAlign`: the alignment of the first touched element that has one, in document order. */
  function GetActiveAlign(doc: Doc, lo: nat, hi: nat): Option<Align>
  {
    FirstAlign(Touched(doc, 0, lo, hi))
  }

  /** The marks of the first text leaf of a run of blocks. */
  function FirstMarks(bs: seq<Node>): Option<map<Mark, bool>>
  {
    if bs == [] then None
    else if bs[0].Element? && |bs[0].children| > 0 && bs[0].children[0].Text? then Some(bs[0].children[0].marks)
    else FirstMarks(bs[1..])
  }

  /** `Editor.marks`: no selection has no marks; otherwise the first selected text leaf's. */
  function EditorMarks(doc: Doc, lo: nat, hi: nat): Option<map<Mark, bool>>
    requires lo <= hi <= |Blocks(doc)|
  {
    if lo == hi then None else FirstMarks(Blocks(doc)[lo..hi])
  }

  /** `isMarkActive`: the marks are present and the mark is set to true. */
  predicate IsMarkActive(doc: Doc, lo: nat, hi: nat, m: Mark)
    requires lo <= hi <= |Blocks(doc)|
  {
    var marks := EditorMarks(doc, lo, hi);
    marks.Some? && Marked(marks.value, m)
  }

  /** In a well-formed document the first selected text leaf starts the first selected block. */
  lemma EditorMarksFirst(doc: Doc, lo: nat, hi: nat)
    requires WellFormed(doc) && lo < hi <= |Blocks(doc)|
    ensures IsTextBlock(Blocks(doc)[lo]) && Blocks(doc)[lo].children[0].Text?
    ensures EditorMarks(doc, lo, hi) == Some(Blocks(doc)[lo].children[0].marks)
  {
    FlatRun(doc, lo, hi);
    var m := Blocks(doc)[lo..hi];
    assert m[0] == Blocks(doc)[lo];
    AllTextsIff(m[0].children);
  }

  // ---------------------------------------------------------------------
  // Block toggles
  // ---------------------------------------------------------------------

  /** The type `toggleBlock` gives the lowest selected elements. */
  function ToggledKind(f: BlockFormat, active: bool): (k: Kind)
    ensures IsTextKind(k)
    ensures active <==> k == Paragraph
  {
    if active then Paragraph
    else match f
      case HeadingFormat => Heading(2)
      case BlockquoteFormat => Blockquote
      case CodeBlockFormat => CodeBlock
      case BulletedListFormat => ListItem
      case NumberedListFormat => ListItem
  }

  /**
   * The document after `toggleBlock`, written as its pieces: the nodes
   * before the selection, the selected blocks retyped (wrapped in one new
   * list when a list format is turned on), and the nodes after it.
   */
  function BlockToggled(doc: Doc, lo: nat, hi: nat, f: BlockFormat): Doc
    requires WellFormed(doc) && lo <= hi <= |Blocks(doc)|
  {
    if lo == hi then doc
    else
      var active := IsBlockActive(doc, lo, hi, f);
      var mid := ApplyAll(Retype(ToggledKind(f, active)), Blocks(doc)[lo..hi]);
      if IsListFormat(f) && !active then Prefix(doc, lo) + [Element(ListKind(f), None, mid)] + Suffix(doc, hi)
      else Prefix(doc, lo) + mid + Suffix(doc, hi)
  }

  /** The selected blocks retyped; the pieces around them are kept. */
  lemma BlockToggledShape(doc: Doc, lo: nat, hi: nat, f: BlockFormat)
    requires WellFormed(doc) && lo < hi <= |Blocks(doc)|
    ensures var r := BlockToggled(doc, lo, hi, f);
      var mid := ApplyAll(Retype(ToggledKind(f, IsBlockActive(doc, lo, hi, f))), Blocks(doc)[lo..hi]);
      WellFormed(r) && Blocks(r) == Blocks(doc)[..lo] + mid + Blocks(doc)[hi..]
  {
    var active := IsBlockActive(doc, lo, hi, f);
    var u := Retype(ToggledKind(f, active));
    var mid := ApplyAll(u, Blocks(doc)[lo..hi]);
    PrefixSuffixBlocks(doc, lo);
    PrefixSuffixBlocks(doc, hi);
    FlatRun(doc, lo, hi);
    ApplyAllFlat(u, Blocks(doc)[lo..hi]);
    if IsListFormat(f) && !active {
      RetypeItems(Blocks(doc)[lo..hi]);
      SingleList(Element(ListKind(f), None, mid));
      Reassemble(Prefix(doc, lo), [Element(ListKind(f), None, mid)], Suffix(doc, hi), lo, hi);
    } else {
      FlatBlocks(mid);
      Reassemble(Prefix(doc, lo), mid, Suffix(doc, hi), lo, hi);
    }
  }

  /** Every node of the run is a paragraph element. */
  predicate Paragraphs(bs: seq<Node>)
  {
    bs == [] || (bs[0].Element? && bs[0].kind == Paragraph && Paragraphs(bs[1..]))
  }

  lemma {:induction false} ParagraphsNoFormat(bs: seq<Node>, f: BlockFormat)
    requires Paragraphs(bs)
    ensures !AnyHasFormat(bs, f)
  {
    if bs != [] {
      ParagraphsNoFormat(bs[1..], f);
    }
  }

  lemma {:induction false} ParagraphsNoKind(bs: seq<Node>, k: Kind)
    requires Paragraphs(bs) && k != Paragraph
    ensures !AnyOfKind(bs, k)
  {
    if bs != [] {
      ParagraphsNoKind(bs[1..], k);
    }
  }

  /** Retyping a run of blocks to paragraphs gives paragraphs. */
  lemma {:induction false} RetypedParagraphs(bs: seq<Node>)
    requires Flat(bs)
    ensures Paragraphs(ApplyAll(Retype(Paragraph), bs))
  {
    if bs != [] {
      RetypedParagraphs(bs[1..]);
      assert ApplyAll(Retype(Paragraph), bs)[1..] == ApplyAll(Retype(Paragraph), bs[1..]);
    }
  }

  /** A run of paragraphs retyped to anything and back to paragraphs is unchanged. */
  lemma RetypeBack(bs: seq<Node>, k: Kind)
    requires Paragraphs(bs)
    ensures ApplyAll(Retype(Paragraph), ApplyAll(Retype(k), bs)) == bs
  {
    ParagraphsIff(bs);
  }

  lemma {:induction false} ParagraphsIff(bs: seq<Node>)
    ensures Paragraphs(bs) <==> forall i :: 0 <= i < |bs| ==> bs[i].Element? && bs[i].kind == Paragraph
  {
    if bs != [] {
      ParagraphsIff(bs[1..]);
      assert forall i :: 1 <= i < |bs| ==> bs[i] == bs[1..][i - 1];
    }
  }

  /** List items match no block format. */
  lemma {:induction false} ItemsNoFormat(items: seq<Node>, f: BlockFormat)
    requires AllItems(items)
    ensures !AnyHasFormat(items, f)
  {
    if items != [] {
      ItemsNoFormat(items[1..], f);
    }
  }

  /** Retyping list items to list items changes nothing. */
  lemma RetypeItemsSame(items: seq<Node>)
    requires AllItems(items)
    ensures ApplyAll(Retype(ListItem), items) == items
  {
    AllItemsIff(items);
  }

  /** `toggleBlock` turns a format that was active off and one that was not on. */
  lemma BlockToggledFlips(doc: Doc, lo: nat, hi: nat, f: BlockFormat)
    requires WellFormed(doc) && lo < hi <= |Blocks(doc)|
    ensures var r := BlockToggled(doc, lo, hi, f);
      WellFormed(r) && hi <= |Blocks(r)| && IsBlockActive(r, lo, hi, f) == !IsBlockActive(doc, lo, hi, f)
  {
    var active := IsBlockActive(doc, lo, hi, f);
    var m := Blocks(doc)[lo..hi];
    var p, s := Prefix(doc, lo), Suffix(doc, hi);
    BlockToggledShape(doc, lo, hi, f);
    PrefixBlocks(doc, lo);
    FlatRun(doc, lo, hi);
    if IsListFormat(f) && !active {
      ListTurnedOn(p, ApplyAll(Retype(ToggledKind(f, active)), m), s, lo, hi, f);
    } else {
      RunRetyped(p, m, s, lo, hi, f, active);
    }
  }

  /** A new list of the format's type around the selected blocks makes the format active. */
  lemma ListTurnedOn(p: Doc, mid: seq<Node>, s: Doc, lo: nat, hi: nat, f: BlockFormat)
    requires IsListFormat(f) && |Blocks(p)| == lo && |mid| == hi - lo && lo < hi
    ensures IsBlockActive(p + [Element(ListKind(f), None, mid)] + s, lo, hi, f)
  {
    var l := Element(ListKind(f), None, mid);
    TouchedList(p, l, s, lo, hi);
    assert ([l] + mid)[0] == l;
  }

  /** Retyping the selected blocks in place turns an active format off and an inactive one on. */
  lemma RunRetyped(p: Doc, m: seq<Node>, s: Doc, lo: nat, hi: nat, f: BlockFormat, active: bool)
    requires |Blocks(p)| == lo && Flat(m) && |m| == hi - lo && lo < hi
    requires !(IsListFormat(f) && !active)
    ensures IsBlockActive(p + ApplyAll(Retype(ToggledKind(f, active)), m) + s, lo, hi, f) == !active
  {
    var u := Retype(ToggledKind(f, active));
    var mid := ApplyAll(u, m);
    ApplyAllFlat(u, m);
    TouchedReassemble(p, mid, s, lo, hi);
    if active {
      RetypedParagraphs(m);
      ParagraphsNoFormat(mid, f);
    } else {
      FlatIff(m);
      assert mid[0] == Apply(u, m[0]);
    }
  }

  /**
   * On top-level paragraphs, toggling a format twice gives the document
   * back, list formats included: the list the first toggle creates is
   * unwrapped again by the second.
   */
  lemma BlockToggledTwice(doc: Doc, lo: nat, hi: nat, f: BlockFormat)
    requires WellFormed(doc) && lo < hi <= |Blocks(doc)| && Lifted(doc, lo, hi) && Paragraphs(Blocks(doc)[lo..hi])
    ensures var r := BlockToggled(doc, lo, hi, f);
      WellFormed(r) && hi <= |Blocks(r)| && BlockToggled(r, lo, hi, f) == doc
  {
    var m := Blocks(doc)[lo..hi];
    var p, s := Prefix(doc, lo), Suffix(doc, hi);
    assert !IsBlockActive(doc, lo, hi, f) by {
      TouchedLifted(doc, lo, hi);
      ParagraphsNoFormat(m, f);
    }
    var k := ToggledKind(f, false);
    var mid := ApplyAll(Retype(k), m);
    var r := BlockToggled(doc, lo, hi, f);
    BlockToggledFlips(doc, lo, hi, f);
    PrefixSuffixBlocks(doc, lo);
    PrefixSuffixBlocks(doc, hi);
    FlatRun(doc, lo, hi);
    ApplyAllFlat(Retype(k), m);
    if IsListFormat(f) {
      RetypeItems(m);
      WrappedShape(p, ListKind(f), mid, s, lo, hi);
    } else {
      LiftedFlat(p, mid, s, lo, hi);
    }
    RetypeBack(m, k);
  }

  /**
   * Toggling one list format on a whole list of the other format turns it
   * into a list of the new format holding the same items; the new list has
   * no alignment.
   */
  lemma ListSwitched(p: Doc, l: Node, s: Doc, lo: nat, hi: nat, f: BlockFormat)
    requires WellFormed(p) && WellFormed(s) && IsListBlock(l) && IsListFormat(f) && l.kind != ListKind(f)
    requires |Blocks(p)| == lo && |l.children| == hi - lo
    ensures var doc := p + [l] + s;
      WellFormed(doc) && lo < hi <= |Blocks(doc)|
      && BlockToggled(doc, lo, hi, f) == p + [Element(ListKind(f), None, l.children)] + s
  {
    var doc := p + [l] + s;
    SingleList(l);
    Reassemble(p, [l], s, lo, hi);
    TouchedList(p, l, s, lo, hi);
    assert !IsBlockActive(doc, lo, hi, f) by {
      ItemsNoFormat(l.children, f);
      assert ([l] + l.children)[1..] == l.children;
    }
    RetypeItemsSame(l.children);
  }

  // ---------------------------------------------------------------------
  // Heading toggles
  // ---------------------------------------------------------------------

  /**
   * `toggleHeading` as written: `setNodes` on the lowest selected elements
   * without unwrapping lists first, so list items become headings or
   * paragraphs inside their list.
   */
  function HeadingToggledAsWritten(doc: Doc, lo: nat, hi: nat, level: int): Doc
  {
    var k := if IsHeadingActive(doc, lo, hi, level) then Paragraph else Heading(level);
    SetBlocks(Retype(k), doc, 0, lo, hi)
  }

  /** A one-item bulleted list: toggling a heading on it as written leaves a heading inside the list. */
  lemma HeadingInsideList()
    ensures var doc := [Element(BulletedList, None, [Element(ListItem, None, [Text("a", map[])])])];
      WellFormed(doc) && |Blocks(doc)| == 1 && !WellFormed(HeadingToggledAsWritten(doc, 0, 1, 2))
  {
    var item := Element(ListItem, None, [Text("a", map[])]);
    var doc := [Element(BulletedList, None, [item])];
    assert Touched(doc, 0, 0, 1) == [doc[0], item] by {
      assert SelectedItems([item], 0, 0, 1) == [item] by { assert [item][1..] == []; }
      assert doc[1..] == [];
    }
    assert !AnyOfKind([doc[0], item], Heading(2)) by {
      assert [doc[0], item][1..] == [item];
      assert [item][1..] == [];
      assert !AnyOfKind([item], Heading(2));
    }
    var r := HeadingToggledAsWritten(doc, 0, 1, 2);
    assert r[0].children[0].kind == Heading(2);
  }

  /**
   * `toggleHeading` with the lists unwrapped first, as `toggleBlock` does:
   * the selected blocks become paragraphs if a heading of that level is
   * active, else headings of that level.
   */
  function HeadingToggled(doc: Doc, lo: nat, hi: nat, level: int): Doc
    requires WellFormed(doc) && lo <= hi <= |Blocks(doc)|
  {
    if lo == hi then doc
    else
      var k := if IsHeadingActive(doc, lo, hi, level) then Paragraph else Heading(level);
      Prefix(doc, lo) + ApplyAll(Retype(k), Blocks(doc)[lo..hi]) + Suffix(doc, hi)
  }

  /** Where the selection touches no list, the written and the corrected toggles agree. */
  lemma HeadingToggledAgrees(doc: Doc, lo: nat, hi: nat, level: int)
    requires WellFormed(doc) && lo <= hi <= |Blocks(doc)| && Lifted(doc, lo, hi)
    ensures HeadingToggledAsWritten(doc, lo, hi, level) == HeadingToggled(doc, lo, hi, level)
  {
    var k := if IsHeadingActive(doc, lo, hi, level) then Paragraph else Heading(level);
    if lo == hi {
      SetBlocksOutside(Retype(k), doc, 0, lo, hi);
    } else {
      SetBlocksLifted(Retype(k), doc, lo, hi);
      ApplyRunAll(Retype(k), Blocks(doc)[lo..hi], lo, hi);
    }
  }

  /** The corrected `toggleHeading` keeps the document well formed and flips the level's activity. */
  lemma HeadingToggledFlips(doc: Doc, lo: nat, hi: nat, level: int)
    requires WellFormed(doc) && lo < hi <= |Blocks(doc)| && ValidLevel(level)
    ensures var r := HeadingToggled(doc, lo, hi, level);
      WellFormed(r) && hi <= |Blocks(r)| && IsHeadingActive(r, lo, hi, level) == !IsHeadingActive(doc, lo, hi, level)
  {
    var active := IsHeadingActive(doc, lo, hi, level);
    var k := if active then Paragraph else Heading(level);
    var m := Blocks(doc)[lo..hi];
    var mid := ApplyAll(Retype(k), m);
    var p, s := Prefix(doc, lo), Suffix(doc, hi);
    PrefixSuffixBlocks(doc, lo);
    PrefixSuffixBlocks(doc, hi);
    FlatRun(doc, lo, hi);
    ApplyAllFlat(Retype(k), m);
    LiftedFlat(p, mid, s, lo, hi);
    TouchedReassemble(p, mid, s, lo, hi);
    if active {
      RetypedParagraphs(m);
      ParagraphsNoKind(mid, Heading(level));
    } else {
      assert mid[0] == Apply(Retype(k), m[0]);
    }
  }

  // ---------------------------------------------------------------------
  // Marks and alignment
  // ---------------------------------------------------------------------

  /** `toggleMark`: remove the mark from every selected text leaf if it is active, else set it to true. */
  function MarkToggled(doc: Doc, lo: nat, hi: nat, m: Mark): Doc
    requires lo <= hi <= |Blocks(doc)|
  {
    var u := if IsMarkActive(doc, lo, hi, m) then RemoveMark(m) else AddMark(m);
    SetBlocks(u, doc, 0, lo, hi)
  }

  /** `toggleMark` keeps the document's structure and flips the mark's activity. */
  lemma MarkToggledFlips(doc: Doc, lo: nat, hi: nat, m: Mark)
    requires WellFormed(doc) && lo < hi <= |Blocks(doc)|
    ensures var r := MarkToggled(doc, lo, hi, m);
      WellFormed(r) && |Blocks(r)| == |Blocks(doc)| && IsMarkActive(r, lo, hi, m) == !IsMarkActive(doc, lo, hi, m)
  {
    var u := if IsMarkActive(doc, lo, hi, m) then RemoveMark(m) else AddMark(m);
    var r := SetBlocks(u, doc, 0, lo, hi);
    SetBlocksWellFormed(u, doc, 0, lo, hi);
    SetBlocksBlocks(u, doc, 0, lo, hi);
    EditorMarksFirst(doc, lo, hi);
    EditorMarksFirst(r, lo, hi);
    assert Blocks(r)[lo] == Apply(u, Blocks(doc)[lo]);
  }

  /** `setAlign`: every selected block, and nothing else, gets the alignment. */
  function Aligned(doc: Doc, lo: nat, hi: nat, a: Align): Doc
  {
    SetBlocks(Realign(a), doc, 0, lo, hi)
  }

  /** `setAlign` keeps the structure; the selected blocks carry the alignment and the others are unchanged. */
  lemma AlignedBlocks(doc: Doc, lo: nat, hi: nat, a: Align)
    requires WellFormed(doc) && lo <= hi <= |Blocks(doc)|
    ensures var r := Aligned(doc, lo, hi, a);
      WellFormed(r) && |Blocks(r)| == |Blocks(doc)|
      && Blocks(r)[..lo] == Blocks(doc)[..lo] && Blocks(r)[hi..] == Blocks(doc)[hi..]
      && forall i :: lo <= i < hi ==> Blocks(doc)[i].Element? && Blocks(r)[i] == Blocks(doc)[i].(align := Some(a))
  {
    var r := Aligned(doc, lo, hi, a);
    SetBlocksWellFormed(Realign(a), doc, 0, lo, hi);
    SetBlocksBlocks(Realign(a), doc, 0, lo, hi);
    BlocksAreTextBlocks(doc);
    FlatIff(Blocks(doc));
  }

  /** A text leaf carries the mark set to true (`on`), or carries no such key at all. */
  predicate TextState(t: Node, m: Mark, on: bool)
  {
    t.Text? ==> if on then Marked(t.marks, m) else m !in t.marks
  }

  predicate BlockState(b: Node, m: Mark, on: bool)
  {
    b.Element? ==> forall j :: 0 <= j < |b.children| ==> TextState(b.children[j], m, on)
  }

  /** Every text leaf of the selected blocks is in the same state for the mark. */
  predicate SelectionState(doc: Doc, lo: nat, hi: nat, m: Mark, on: bool)
    requires lo <= hi <= |Blocks(doc)|
  {
    forall i :: lo <= i < hi ==> BlockState(Blocks(doc)[i], m, on)
  }

  lemma MarkTextsBack(cs: seq<Node>, m: Mark, on: bool)
    requires forall j :: 0 <= j < |cs| ==> TextState(cs[j], m, on)
    ensures MarkTexts(MarkTexts(cs, m, !on), m, on) == cs
  {
    var r := MarkTexts(MarkTexts(cs, m, !on), m, on);
    forall j | 0 <= j < |cs| ensures r[j] == cs[j] {
      if cs[j].Text? {
        var ms := cs[j].marks;
        if on {
          assert (ms - {m})[m := true] == ms;
        } else {
          assert ms[m := true] - {m} == ms;
        }
      }
    }
  }

  /**
   * Toggling a mark twice gives the document back when every selected text
   * leaf is in the same state for it: marked true, or not carrying it.
   */
  lemma MarkToggledTwice(doc: Doc, lo: nat, hi: nat, m: Mark)
    requires WellFormed(doc) && lo < hi <= |Blocks(doc)|
    requires SelectionState(doc, lo, hi, m, true) || SelectionState(doc, lo, hi, m, false)
    ensures var r := MarkToggled(doc, lo, hi, m);
      hi <= |Blocks(r)| && MarkToggled(r, lo, hi, m) == doc
  {
    var on := IsMarkActive(doc, lo, hi, m);
    ActiveSelectionState(doc, lo, hi, m);
    MarkRunBack(Blocks(doc), lo, hi, m, on);
    MarkToggledFlips(doc, lo, hi, m);
    var u1 := if on then RemoveMark(m) else AddMark(m);
    var u2 := if on then AddMark(m) else RemoveMark(m);
    SetBlocksTwice(u1, u2, doc, 0, lo, hi);
  }

  /** When the selection is in one state for the mark, that state is the one `isMarkActive` reports. */
  lemma ActiveSelectionState(doc: Doc, lo: nat, hi: nat, m: Mark)
    requires WellFormed(doc) && lo < hi <= |Blocks(doc)|
    requires SelectionState(doc, lo, hi, m, true) || SelectionState(doc, lo, hi, m, false)
    ensures SelectionState(doc, lo, hi, m, IsMarkActive(doc, lo, hi, m))
  {
    EditorMarksFirst(doc, lo, hi);
    assert BlockState(Blocks(doc)[lo], m, true) ==> IsMarkActive(doc, lo, hi, m);
    assert BlockState(Blocks(doc)[lo], m, false) ==> !IsMarkActive(doc, lo, hi, m);
  }

  /** Flipping the mark on a run of blocks in one state, then flipping it back, restores the run. */
  lemma MarkRunBack(bs: seq<Node>, lo: nat, hi: nat, m: Mark, on: bool)
    requires forall i :: lo <= i < hi && i < |bs| ==> BlockState(bs[i], m, on)
    ensures var u1 := if on then RemoveMark(m) else AddMark(m);
      var u2 := if on then AddMark(m) else RemoveMark(m);
      ApplyRun(u2, ApplyRun(u1, bs, 0, lo, hi), 0, lo, hi) == bs
  {
    var u1 := if on then RemoveMark(m) else AddMark(m);
    var u2 := if on then AddMark(m) else RemoveMark(m);
    forall i | lo <= i < hi && i < |bs| ensures Apply(u2, Apply(u1, bs[i])) == bs[i] {
      if bs[i].Element? {
        MarkTextsBack(bs[i].children, m, on);
      }
    }
  }

  /** No top-level list carries an alignment (lists `toggleBlock` creates never do). */
  predicate NoListAlign(doc: Doc)
  {
    doc == [] || ((IsList(doc[0]) ==> doc[0].align == None) && NoListAlign(doc[1..]))
  }

  /** After `setAlign`, `getActiveAlign` reports the alignment set, unless a touched list has its own. */
  lemma AlignedActive(doc: Doc, lo: nat, hi: nat, a: Align)
    requires WellFormed(doc) && NoListAlign(doc) && lo < hi <= |Blocks(doc)|
    ensures GetActiveAlign(Aligned(doc, lo, hi, a), lo, hi) == Some(a)
  {
    AlignedActiveFrom(doc, 0, lo, hi, a);
  }

  lemma {:induction false} AlignedActiveFrom(doc: Doc, at: int, lo: nat, hi: nat, a: Align)
    requires WellFormed(doc) && NoListAlign(doc) && lo < hi && at <= lo < at + |Blocks(doc)|
    ensures FirstAlign(Touched(SetBlocks(Realign(a), doc, at, lo, hi), at, lo, hi)) == Some(a)
    decreases |doc|
  {
    var u := Realign(a);
    var e, w := doc[0], Width(doc[0]);
    var t := ApplyTop(u, e, at, lo, hi);
    BlocksUnfold(doc);
    WellFormedSlices(doc);
    assert Width(t) == w;
    TouchedSetBlocksUnfold(u, doc, at, at + w, lo, hi);
    var head, tail := TouchedTop(t, at, lo, hi), Touched(SetBlocks(u, doc[1..], at + w, lo, hi), at + w, lo, hi);
    if lo < at + w {
      TouchedTopAligned(e, at, lo, hi, a);
      FirstAlignAppend(head, tail);
    } else {
      TouchedTopBefore(t, at, lo, hi);
      assert NoListAlign(doc[1..]);
      AlignedActiveFrom(doc[1..], at + w, lo, hi, a);
      assert head + tail == tail;
    }
  }

  /** The elements a selection touches after `setNodes`, first node first. */
  lemma TouchedSetBlocksUnfold(u: Update, doc: Doc, at: int, mid: int, lo: nat, hi: nat)
    requires doc != [] && mid == at + Width(doc[0]) && Width(ApplyTop(u, doc[0], at, lo, hi)) == Width(doc[0])
    ensures Touched(SetBlocks(u, doc, at, lo, hi), at, lo, hi)
         == TouchedTop(ApplyTop(u, doc[0], at, lo, hi), at, lo, hi) + Touched(SetBlocks(u, doc[1..], mid, lo, hi), mid, lo, hi)
  {
    SetBlocksUnfold(u, doc, at, lo, hi);
    TouchedConsAt(ApplyTop(u, doc[0], at, lo, hi), SetBlocks(u, doc[1..], mid, lo, hi), at, mid, lo, hi);
  }

  lemma TouchedTopBefore(t: Node, at: int, lo: nat, hi: nat)
    requires at + Width(t) <= lo
    ensures TouchedTop(t, at, lo, hi) == []
  {
    if IsList(t) {
      SelectedItemsNone(t.children, at, lo, hi);
    }
  }

  lemma TouchedTopAligned(e: Node, at: int, lo: nat, hi: nat, a: Align)
    requires IsTopNode(e) && (IsList(e) ==> e.align == None) && lo < hi && at <= lo < at + Width(e)
    ensures FirstAlign(TouchedTop(ApplyTop(Realign(a), e, at, lo, hi), at, lo, hi)) == Some(a)
  {
    var t := ApplyTop(Realign(a), e, at, lo, hi);
    if IsList(e) {
      var x := SelectedItems(t.children, at, lo, hi);
      SelectedAligned(e.children, at, lo, hi, a);
      assert ([t] + x)[1..] == x;
    }
  }

  lemma {:induction false} SelectedAligned(cs: seq<Node>, at: int, lo: nat, hi: nat, a: Align)
    requires AllItems(cs) && lo < hi && at <= lo < at + |cs|
    ensures FirstAlign(SelectedItems(ApplyRun(Realign(a), cs, at, lo, hi), at, lo, hi)) == Some(a)
    decreases |cs|
  {
    var x := ApplyRun(Realign(a), cs, at, lo, hi);
    ApplyRunUnfold(Realign(a), cs, at, lo, hi);
    assert x[0] == (if lo <= at < hi then Apply(Realign(a), cs[0]) else cs[0]) && x[1..] == ApplyRun(Realign(a), cs[1..], at + 1, lo, hi);
    if lo == at {
      assert SelectedItems(x, at, lo, hi) == [x[0]] + SelectedItems(x[1..], at + 1, lo, hi);
    } else {
      assert SelectedItems(x, at, lo, hi) == SelectedItems(x[1..], at + 1, lo, hi);
      SelectedAligned(cs[1..], at + 1, lo, hi, a);
    }
  }

  lemma {:induction false} FirstAlignAppend(x: seq<Node>, y: seq<Node>)
    requires FirstAlign(x).Some?
    ensures FirstAlign(x + y) == FirstAlign(x)
  {
    if !(x[0].Element? && x[0].align.Some?) {
      assert (x + y)[1..] == x[1..] + y;
      FirstAlignAppend(x[1..], y);
    }
  }

  /** Unwrapping, then setting a block property: the selected run is updated in place between the cut pieces. */
  lemma UnwrapThenSet(doc: Doc, lo: nat, hi: nat, u: Update)
    requires WellFormed(doc) && lo < hi <= |Blocks(doc)| && Sound(u)
    ensures var d := SetBlocks(u, Unwrap(doc, lo, hi), 0, lo, hi);
      var mid := ApplyAll(u, Blocks(doc)[lo..hi]);
      d == Prefix(doc, lo) + mid + Suffix(doc, hi)
      && hi <= |Blocks(d)| && Lifted(d, lo, hi) && Blocks(d)[lo..hi] == mid
      && Prefix(d, lo) == Prefix(doc, lo) && Suffix(d, hi) == Suffix(doc, hi)
  {
    var d1 := Unwrap(doc, lo, hi);
    var m := Blocks(doc)[lo..hi];
    var p, s := Prefix(doc, lo), Suffix(doc, hi);
    UnwrapShape(doc, lo, hi);
    SetBlocksLifted(u, d1, lo, hi);
    ApplyRunAll(u, m, lo, hi);
    PrefixSuffixBlocks(doc, lo);
    PrefixSuffixBlocks(doc, hi);
    FlatRun(doc, lo, hi);
    ApplyAllFlat(u, m);
    LiftedFlat(p, ApplyAll(u, m), s, lo, hi);
  }

  /** The steps `toggleBlock` takes put together the document `BlockToggled` describes. */
  lemma ToggleBlockSteps(doc: Doc, lo: nat, hi: nat, f: BlockFormat)
    requires WellFormed(doc) && lo <= hi <= |Blocks(doc)|
    ensures var active := IsBlockActive(doc, lo, hi, f);
      var d := SetBlocks(Retype(ToggledKind(f, active)), Unwrap(doc, lo, hi), 0, lo, hi);
      hi <= |Blocks(d)| && Lifted(d, lo, hi)
      && BlockToggled(doc, lo, hi, f) == if !active && IsListFormat(f) then Wrap(d, lo, hi, ListKind(f)) else d
  {
    var u := Retype(ToggledKind(f, IsBlockActive(doc, lo, hi, f)));
    if lo == hi {
      SetBlocksOutside(u, doc, 0, lo, hi);
    } else {
      UnwrapThenSet(doc, lo, hi, u);
    }
  }

  /**
   * The editor: its document and its selection, which covers the blocks
   * `lo .. hi-1` of the document (`lo == hi` when there is none).
   */
  class Editor {
    var children: Doc
    var lo: nat
    var hi: nat

    predicate Valid()
      reads this
    {
      WellFormed(children) && lo <= hi <= |Blocks(children)|
    }

    constructor(doc: Doc)
      requires WellFormed(doc)
      ensures Valid() && children == doc && lo == 0 && hi == 0
    {
      children := doc;
      lo := 0;
      hi := 0;
    }

    method Select(from: nat, to: nat)
      requires Valid() && from <= to <= |Blocks(children)|
      modifies this
      ensures Valid() && children == old(children) && lo == from && hi == to
    {
      lo := from;
      hi := to;
    }

    /** `toggleMark`: `Editor.removeMark` when the mark is active, else `Editor.addMark` with true. */
    method ToggleMark(m: Mark)
      requires Valid()
      modifies this
      ensures Valid() && lo == old(lo) && hi == old(hi)
      ensures children == MarkToggled(old(children), lo, hi, m)
      ensures lo < hi ==> IsMarkActive(children, lo, hi, m) == !old(IsMarkActive(children, lo, hi, m))
    {
      ghost var doc := children;
      var active := IsMarkActive(children, lo, hi, m);
      var u := if active then RemoveMark(m) else AddMark(m);
      SetBlocksWellFormed(u, children, 0, lo, hi);
      SetBlocksBlocks(u, children, 0, lo, hi);
      children := SetBlocks(u, children, 0, lo, hi);
      if lo < hi {
        MarkToggledFlips(doc, lo, hi, m);
      }
    }

    /** `setAlign`: `setNodes` with the alignment on the lowest selected elements. */
    method SetAlign(a: Align)
      requires Valid()
      modifies this
      ensures Valid() && lo == old(lo) && hi == old(hi)
      ensures children == Aligned(old(children), lo, hi, a)
      ensures NoListAlign(old(children)) && lo < hi ==> GetActiveAlign(children, lo, hi) == Some(a)
    {
      ghost var doc := children;
      AlignedBlocks(children, lo, hi, a);
      if NoListAlign(children) && lo < hi {
        AlignedActive(children, lo, hi, a);
      }
      children := SetBlocks(Realign(a), children, 0, lo, hi);
    }

    /**
     * `toggleBlock`: unwrap the lists the selection touches, retype the
     * lowest selected elements, and wrap them in a new list when a list
     * format is turned on.
     */
    method ToggleBlock(f: BlockFormat)
      requires Valid()
      modifies this
      ensures Valid() && lo == old(lo) && hi == old(hi)
      ensures children == BlockToggled(old(children), lo, hi, f)
      ensures lo < hi ==> IsBlockActive(children, lo, hi, f) == !old(IsBlockActive(children, lo, hi, f))
    {
      ghost var doc := children;
      var active := IsBlockActive(children, lo, hi, f);
      var isList := IsListFormat(f);
      var u := Retype(ToggledKind(f, active));
      ToggleBlockSteps(children, lo, hi, f);
      if lo < hi {
        BlockToggledFlips(doc, lo, hi, f);
      }
      children := Unwrap(children, lo, hi);
      children := SetBlocks(u, children, 0, lo, hi);
      if !active && isList {
        children := Wrap(children, lo, hi, ListKind(f));
      }
    }

    /**
     * `toggleHeading` as written: `setNodes` on the lowest selected
     * elements, lists left in place. Where the selection touches no list it
     * is the corrected toggle and keeps the editor valid; inside a list it
     * can leave a heading in the list.
     */
    method ToggleHeadingAsWritten(level: int)
      requires Valid() && ValidLevel(level)
      modifies this
      ensures lo == old(lo) && hi == old(hi)
      ensures children == HeadingToggledAsWritten(old(children), lo, hi, level)
      ensures Lifted(old(children), lo, hi) ==> children == HeadingToggled(old(children), lo, hi, level) && Valid()
    {
      var active := IsHeadingActive(children, lo, hi, level);
      var u := Retype(if active then Paragraph else Heading(level));
      if Lifted(children, lo, hi) {
        HeadingToggledAgrees(children, lo, hi, level);
        if lo < hi {
          HeadingToggledFlips(children, lo, hi, level);
        }
      }
      children := SetBlocks(u, children, 0, lo, hi);
    }

    /** `toggleHeading`, with the lists unwrapped first. */
    method ToggleHeading(level: int)
      requires Valid() && ValidLevel(level)
      modifies this
      ensures Valid() && lo == old(lo) && hi == old(hi)
      ensures children == HeadingToggled(old(children), lo, hi, level)
      ensures lo < hi ==> IsHeadingActive(children, lo, hi, level) == !old(IsHeadingActive(children, lo, hi, level))
    {
      ghost var doc := children;
      var active := IsHeadingActive(children, lo, hi, level);
      var u := Retype(if active then Paragraph else Heading(level));
      if lo == hi {
        SetBlocksOutside(u, children, 0, lo, hi);
      } else {
        UnwrapThenSet(children, lo, hi, u);
        HeadingToggledFlips(doc, lo, hi, level);
      }
      children := Unwrap(children, lo, hi);
      children := SetBlocks(u, children, 0, lo, hi);
    }
  }
}
