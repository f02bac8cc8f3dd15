/**
 * The rich-text document schema of the editor: text leaves with marks,
 * block elements holding text, and bulleted/numbered lists holding
 * list items. A document is the editor's list of top-level nodes.
 */
module SlateSchema {
  import opened Prelude

  datatype Align = Left | Center | Right | Justify

  datatype Mark = Bold | Italic | Underline | Strikethrough | Code

  /** The element `type`; a heading carries its `level`; any other tag is `Unknown`. */
  datatype Kind =
    | Paragraph
    | Heading(level: int)
    | Blockquote
    | BulletedList
    | NumberedList
    | ListItem
    | CodeBlock
    | Unknown(tag: string)

  /** A text leaf (`CustomText`) or an element with its optional `align`. */
  datatype Node =
    | Text(text: string, marks: map<Mark, bool>)
    | Element(kind: Kind, align: Option<Align>, children: seq<Node>)

  type Doc = seq<Node>

  /** A leaf's mark is on when it is present and true (`Boolean(leaf[mark])`). */
  predicate Marked(marks: map<Mark, bool>, m: Mark) { m in marks && marks[m] }

  predicate IsListKind(k: Kind) { k == BulletedList || k == NumberedList }

  predicate ValidLevel(level: int) { 2 <= level <= 6 }

  /** The element types whose children are text leaves. */
  predicate IsTextKind(k: Kind)
  {
    k.Paragraph? || (k.Heading? && ValidLevel(k.level)) || k.Blockquote? || k.ListItem? || k.CodeBlock?
  }

  predicate IsList(n: Node) { n.Element? && IsListKind(n.kind) }

  /** Every node of the run is a text leaf. */
  predicate AllTexts(cs: seq<Node>)
  {
    cs == [] || (cs[0].Text? && AllTexts(cs[1..]))
  }

  /** A block: an element of a text kind whose children are (at least one) text leaves. */
  predicate IsTextBlock(n: Node)
  {
    n.Element? && IsTextKind(n.kind) && |n.children| > 0 && AllTexts(n.children)
  }

  /** Every node of the run is a list-item block. */
  predicate AllItems(cs: seq<Node>)
  {
    cs == [] || (IsTextBlock(cs[0]) && cs[0].kind == ListItem && AllItems(cs[1..]))
  }

  /** A list: a bulleted or numbered list holding at least one list item. */
  predicate IsListBlock(n: Node)
  {
    IsList(n) && |n.children| > 0 && AllItems(n.children)
  }

  predicate IsTopNode(n: Node) { IsTextBlock(n) || IsListBlock(n) }

  /** The declared document shape: every top-level node is a block or a list of list items. */
  predicate WellFormed(doc: Doc)
  {
    doc == [] || (IsTopNode(doc[0]) && WellFormed(doc[1..]))
  }

  /** A run of blocks with no list among them. */
  predicate Flat(blocks: seq<Node>)
  {
    blocks == [] || (IsTextBlock(blocks[0]) && Flat(blocks[1..]))
  }

  lemma {:induction false} AllTextsIff(cs: seq<Node>)
    ensures AllTexts(cs) <==> forall i :: 0 <= i < |cs| ==> cs[i].Text?
  {
    if cs != [] {
      AllTextsIff(cs[1..]);
      assert forall i :: 1 <= i < |cs| ==> cs[i] == cs[1..][i - 1];
    }
  }

  lemma {:induction false} AllItemsIff(cs: seq<Node>)
    ensures AllItems(cs) <==> forall i :: 0 <= i < |cs| ==> IsTextBlock(cs[i]) && cs[i].kind == ListItem
  {
    if cs != [] {
      AllItemsIff(cs[1..]);
      assert forall i :: 1 <= i < |cs| ==> cs[i] == cs[1..][i - 1];
    }
  }

  lemma {:induction false} WellFormedIff(doc: Doc)
    ensures WellFormed(doc) <==> forall i :: 0 <= i < |doc| ==> IsTopNode(doc[i])
  {
    if doc != [] {
      WellFormedIff(doc[1..]);
      assert forall i :: 1 <= i < |doc| ==> doc[i] == doc[1..][i - 1];
    }
  }

  lemma {:induction false} FlatIff(bs: seq<Node>)
    ensures Flat(bs) <==> forall i :: 0 <= i < |bs| ==> IsTextBlock(bs[i])
  {
    if bs != [] {
      FlatIff(bs[1..]);
      assert forall i :: 1 <= i < |bs| ==> bs[i] == bs[1..][i - 1];
    }
  }

  /** The value an empty editor starts from: one empty paragraph. */
  const EmptyDoc: Doc := [Element(Paragraph, None, [Text("", map[])])]

  lemma EmptyDocWellFormed()
    ensures WellFormed(EmptyDoc) && |EmptyDoc| == 1 && EmptyDoc[0].kind == Paragraph
  {
  }

  /** How many blocks a top-level node contributes. */
  function Width(n: Node): nat
  {
    if IsList(n) then |n.children| else 1
  }

  function Expand(n: Node): (r: seq<Node>)
    ensures |r| == Width(n)
  {
    if IsList(n) then n.children else [n]
  }

  /**
   * The document's blocks in order: top-level blocks, and the items of
   * each list in place of the list. The selection is an interval of this
   * sequence.
   */
  function Blocks(doc: Doc): seq<Node>
  {
    if doc == [] then [] else Expand(doc[0]) + Blocks(doc[1..])
  }

  lemma BlocksUnfold(doc: Doc)
    requires doc != []
    ensures Blocks(doc) == Expand(doc[0]) + Blocks(doc[1..])
    ensures |Blocks(doc)| == Width(doc[0]) + |Blocks(doc[1..])|
  {
  }

  lemma {:induction false} BlocksAppend(a: Doc, b: Doc)
    ensures Blocks(a + b) == Blocks(a) + Blocks(b)
  {
    if a == [] {
      assert a + b == b;
    } else {
      assert (a + b)[0] == a[0];
      assert (a + b)[1..] == a[1..] + b;
      BlocksAppend(a[1..], b);
      assert Blocks(a + b) == Expand(a[0]) + (Blocks(a[1..]) + Blocks(b));
    }
  }

  /** Every block of a well-formed document is a text block. */
  lemma {:induction false} BlocksAreTextBlocks(doc: Doc)
    requires WellFormed(doc)
    ensures Flat(Blocks(doc))
  {
    if doc != [] {
      BlocksAreTextBlocks(doc[1..]);
      BlocksUnfold(doc);
      if IsList(doc[0]) {
        ItemsFlat(doc[0].children);
      } else {
        assert Flat([doc[0]]) by { assert [doc[0]][1..] == []; }
      }
      FlatAppend(Expand(doc[0]), Blocks(doc[1..]));
    }
  }

  lemma {:induction false} ItemsFlat(cs: seq<Node>)
    requires AllItems(cs)
    ensures Flat(cs)
  {
    if cs != [] { ItemsFlat(cs[1..]); }
  }

  lemma {:induction false} FlatAppend(a: seq<Node>, b: seq<Node>)
    requires Flat(a) && Flat(b)
    ensures Flat(a + b)
  {
    if a == [] {
      assert a + b == b;
    } else {
      assert (a + b)[0] == a[0] && (a + b)[1..] == a[1..] + b;
      FlatAppend(a[1..], b);
    }
  }

  lemma FlatSlice(bs: seq<Node>, lo: nat, hi: nat)
    requires Flat(bs) && lo <= hi <= |bs|
    ensures Flat(bs[lo..hi])
  {
    FlatIff(bs);
    FlatIff(bs[lo..hi]);
  }

  /** A run of blocks is its own block sequence and a well-formed document. */
  lemma {:induction false} FlatBlocks(m: seq<Node>)
    requires Flat(m)
    ensures Blocks(m) == m && WellFormed(m)
  {
    if m != [] {
      FlatBlocks(m[1..]);
      assert m == [m[0]] + m[1..];
    }
  }

  lemma {:induction false} WellFormedAppend(a: Doc, b: Doc)
    requires WellFormed(a) && WellFormed(b)
    ensures WellFormed(a + b)
  {
    if a == [] {
      assert a + b == b;
    } else {
      assert (a + b)[0] == a[0] && (a + b)[1..] == a[1..] + b;
      WellFormedAppend(a[1..], b);
    }
  }

  lemma WellFormedSlices(doc: Doc)
    requires WellFormed(doc) && doc != []
    ensures WellFormed(doc[1..]) && WellFormed([doc[0]]) && IsTopNode(doc[0])
  {
    assert [doc[0]][1..] == [];
  }

  lemma ItemsSlice(cs: seq<Node>, lo: nat, hi: nat)
    requires AllItems(cs) && lo <= hi <= |cs|
    ensures AllItems(cs[lo..hi])
  {
    AllItemsIff(cs);
    AllItemsIff(cs[lo..hi]);
  }
}
