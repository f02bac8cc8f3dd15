/**
 * The editor component around the document: the fallback for a missing or
 * empty value, the code view that shows the value as JSON and takes edited
 * JSON back, and how elements and text leaves are rendered.
 */
module SlateEditorView {
  import opened Prelude
  import opened Json
  import opened SlateSchema
  import opened SlateTree
  import opened SlateUtils

  // ---------------------------------------------------------------------
  // The document as JSON
  // ---------------------------------------------------------------------

  function AlignName(a: Align): string
  {
    match a
    case Left => "left"
    case Center => "center"
    case Right => "right"
    case Justify => "justify"
  }

  function AlignOfName(s: string): (r: Option<Align>)
    ensures r.Some? ==> AlignName(r.value) == s
  {
    if s == "left" then Some(Left)
    else if s == "center" then Some(Center)
    else if s == "right" then Some(Right)
    else if s == "justify" then Some(Justify)
    else None
  }

  function MarkName(m: Mark): string
  {
    match m
    case Bold => "bold"
    case Italic => "italic"
    case Underline => "underline"
    case Strikethrough => "strikethrough"
    case Code => "code"
  }

  /** The order a text leaf's mark properties are written in. */
  const MarkOrder: seq<Mark> := [Bold, Italic, Underline, Strikethrough, Code]

  function TypeName(k: Kind): string
  {
    match k
    case Paragraph => "paragraph"
    case Heading(_) => "heading"
    case Blockquote => "blockquote"
    case BulletedList => "bulleted-list"
    case NumberedList => "numbered-list"
    case ListItem => "list-item"
    case CodeBlock => "code-block"
    case Unknown(tag) => tag
  }

  /** The element type a `type` string (and, for a heading, its `level`) names. */
  function KindOfName(name: string, level: Json): Option<Kind>
  {
    if name == "paragraph" then Some(Paragraph)
    else if name == "heading" then (if level.JNum? then Some(Heading(level.n)) else None)
    else if name == "blockquote" then Some(Blockquote)
    else if name == "bulleted-list" then Some(BulletedList)
    else if name == "numbered-list" then Some(NumberedList)
    else if name == "list-item" then Some(ListItem)
    else if name == "code-block" then Some(CodeBlock)
    else Some(Unknown(name))
  }

  function MarkProps(marks: map<Mark, bool>, ms: seq<Mark>): seq<Prop>
  {
    if ms == [] then []
    else (if ms[0] in marks then [Prop(MarkName(ms[0]), JBool(marks[ms[0]]))] else []) + MarkProps(marks, ms[1..])
  }

  /** A node as the plain object Slate keeps: `{text, ...marks}` or `{type, level?, align?, children}`. */
  function NodeToJson(n: Node): Json
  {
    match n
    case Text(text, marks) => JObj([Prop("text", JStr(text))] + MarkProps(marks, MarkOrder))
    case Element(kind, align, cs) =>
      JObj(ElementProps(kind, align, seq(|cs|, i requires 0 <= i < |cs| => NodeToJson(cs[i]))))
  }

  function ElementProps(kind: Kind, align: Option<Align>, items: seq<Json>): seq<Prop>
  {
    var level := if kind.Heading? then [Prop("level", JNum(kind.level))] else [];
    var al := if align.Some? then [Prop("align", JStr(AlignName(align.value)))] else [];
    [Prop("type", JStr(TypeName(kind)))] + level + al + [Prop("children", JArr(items))]
  }

  function DocToJson(doc: Doc): Json
  {
    JArr(seq(|doc|, i requires 0 <= i < |doc| => NodeToJson(doc[i])))
  }

  /** The marks of a text object; a mark property that is present must be a boolean. */
  function MarksFromJson(v: Json, ms: seq<Mark>): Option<map<Mark, bool>>
  {
    if ms == [] then Some(map[])
    else
      match MarksFromJson(v, ms[1..])
      case None => None
      case Some(rest) =>
        match Get(v, MarkName(ms[0]))
        case JUndefined => Some(rest)
        case JBool(b) => Some(rest[ms[0] := b])
        case _ => None
  }

  /**
   * The node a JSON value describes, if it follows the document schema:
   * an object with a string `text` is a text leaf, one with a `children`
   * array and a string `type` an element.
   */
  function NodeFromJson(v: Json): Option<Node>
    decreases Size(v), 0
  {
    var text := Get(v, "text");
    if text.JStr? then
      match MarksFromJson(v, MarkOrder)
      case None => None
      case Some(marks) => Some(Text(text.s, marks))
    else
      var ty, al, cs := Get(v, "type"), Get(v, "align"), Get(v, "children");
      if !ty.JStr? || !cs.JArr? then None
      else
        var kind := KindOfName(ty.s, Get(v, "level"));
        var align := if al.JStr? then AlignOfName(al.s) else None;
        if kind.None? || (al != JUndefined && align.None?) then None
        else
          match NodesFromJson(cs.items)
          case None => None
          case Some(children) => Some(Element(kind.value, align, children))
  }

  function NodesFromJson(items: seq<Json>): Option<seq<Node>>
    decreases SizeItems(items), 1
  {
    if items == [] then Some([])
    else
      match NodeFromJson(items[0])
      case None => None
      case Some(n) =>
        match NodesFromJson(items[1..])
        case None => None
        case Some(ns) => Some([n] + ns)
  }

  function DocFromJson(v: Json): Option<Doc>
  {
    if v.JArr? then NodesFromJson(v.items) else None
  }

  /** The type names of the known element types. */
  predicate IsKnownName(s: string)
  {
    s in ["paragraph", "heading", "blockquote", "bulleted-list", "numbered-list", "list-item", "code-block"]
  }

  /** A node whose JSON form reads back as itself: no unknown type spells a known one. */
  predicate Encodable(n: Node)
  {
    n.Text? ||
    ((n.kind.Unknown? ==> !IsKnownName(n.kind.tag))
     && forall i :: 0 <= i < |n.children| ==> Encodable(n.children[i]))
  }

  lemma LookupStep(props: seq<Prop>, key: string)
    requires props != []
    ensures Lookup(props, key) == if props[0].key == key then props[0].value else Lookup(props[1..], key)
  {
  }

  lemma MarkNameInjective(a: Mark, b: Mark)
    requires MarkName(a) == MarkName(b)
    ensures a == b
  {
  }

  lemma {:induction false} LookupMarkProps(marks: map<Mark, bool>, ms: seq<Mark>, m: Mark)
    ensures Lookup(MarkProps(marks, ms), MarkName(m)) == if m in ms && m in marks then JBool(marks[m]) else JUndefined
  {
    if ms != [] {
      LookupMarkProps(marks, ms[1..], m);
      var rest := MarkProps(marks, ms[1..]);
      assert m in ms <==> m == ms[0] || m in ms[1..];
      if ms[0] in marks {
        var props := [Prop(MarkName(ms[0]), JBool(marks[ms[0]]))] + rest;
        assert props[1..] == rest;
        if MarkName(ms[0]) == MarkName(m) {
          MarkNameInjective(ms[0], m);
        }
      } else {
        assert MarkProps(marks, ms) == rest;
      }
    }
  }

  /** The text leaf's JSON object: its text first, then exactly the marks it carries. */
  lemma TextGets(text: string, marks: map<Mark, bool>)
    ensures var v := NodeToJson(Text(text, marks));
      Get(v, "text") == JStr(text)
      && forall m :: Get(v, MarkName(m)) == if m in marks then JBool(marks[m]) else JUndefined
  {
    var props := [Prop("text", JStr(text))] + MarkProps(marks, MarkOrder);
    forall m ensures Lookup(props, MarkName(m)) == if m in marks then JBool(marks[m]) else JUndefined {
      LookupStep(props, MarkName(m));
      assert props[1..] == MarkProps(marks, MarkOrder);
      LookupMarkProps(marks, MarkOrder, m);
    }
  }

  /**
   * Reading the marks of a text object: it succeeds when each mark property
   * is missing or a boolean, and keeps exactly the boolean ones.
   */
  lemma {:induction false} MarksFromJsonSpec(v: Json, ms: seq<Mark>)
    ensures var r := MarksFromJson(v, ms);
      r.Some? <==> forall i :: 0 <= i < |ms| ==> Get(v, MarkName(ms[i])).JUndefined? || Get(v, MarkName(ms[i])).JBool?
    ensures var r := MarksFromJson(v, ms);
      r.Some? ==> forall m :: (m in r.value <==> m in ms && Get(v, MarkName(m)).JBool?)
                          && (m in r.value ==> r.value[m] == Get(v, MarkName(m)).b)
  {
    if ms != [] {
      MarksFromJsonSpec(v, ms[1..]);
      assert forall i :: 1 <= i < |ms| ==> ms[i] == ms[1..][i - 1];
      assert forall m :: m in ms <==> m == ms[0] || m in ms[1..];
    }
  }

  /** The element's JSON object holds its type, its level if a heading, its alignment if any, and its children. */
  lemma ElementGets(kind: Kind, align: Option<Align>, items: seq<Json>)
    ensures Lookup(ElementProps(kind, align, items), "text") == JUndefined
    ensures Lookup(ElementProps(kind, align, items), "type") == JStr(TypeName(kind))
    ensures Lookup(ElementProps(kind, align, items), "level") == if kind.Heading? then JNum(kind.level) else JUndefined
    ensures Lookup(ElementProps(kind, align, items), "align") == if align.Some? then JStr(AlignName(align.value)) else JUndefined
    ensures Lookup(ElementProps(kind, align, items), "children") == JArr(items)
  {
    var t := Prop("type", JStr(TypeName(kind)));
    var c := Prop("children", JArr(items));
    var props := ElementProps(kind, align, items);
    var rest := props[1..];
    assert props == [t] + rest;
    LookupKeyed(props, t, rest);
    ElementGetsAfterType(kind, align, items, rest);
  }

  lemma ElementGetsAfterType(kind: Kind, align: Option<Align>, items: seq<Json>, rest: seq<Prop>)
    requires rest == ElementProps(kind, align, items)[1..]
    ensures Lookup(rest, "text") == JUndefined && Lookup(rest, "type") == JUndefined
    ensures Lookup(rest, "level") == if kind.Heading? then JNum(kind.level) else JUndefined
    ensures Lookup(rest, "align") == if align.Some? then JStr(AlignName(align.value)) else JUndefined
    ensures Lookup(rest, "children") == JArr(items)
  {
    var c := Prop("children", JArr(items));
    var a := Prop("align", JStr(if align.Some? then AlignName(align.value) else ""));
    var mid := (if align.Some? then [a] else []) + [c];
    ElementGetsTail(align, items, mid);
    if kind.Heading? {
      var l := Prop("level", JNum(kind.level));
      assert rest == [l] + mid;
      LookupKeyed(rest, l, mid);
    } else {
      assert rest == mid;
    }
  }

  lemma ElementGetsTail(align: Option<Align>, items: seq<Json>, mid: seq<Prop>)
    requires mid == (if align.Some? then [Prop("align", JStr(AlignName(align.value)))] else []) + [Prop("children", JArr(items))]
    ensures Lookup(mid, "text") == JUndefined && Lookup(mid, "type") == JUndefined && Lookup(mid, "level") == JUndefined
    ensures Lookup(mid, "align") == if align.Some? then JStr(AlignName(align.value)) else JUndefined
    ensures Lookup(mid, "children") == JArr(items)
  {
    var c := Prop("children", JArr(items));
    LookupKeyed([c], c, []);
    if align.Some? {
      LookupKeyed(mid, mid[0], [c]);
    } else {
      assert mid == [c];
    }
  }

  /** Looking up each known key in a property list that starts with a known property. */
  lemma LookupKeyed(props: seq<Prop>, p: Prop, rest: seq<Prop>)
    requires props == [p] + rest
    ensures Lookup(props, "text") == if p.key == "text" then p.value else Lookup(rest, "text")
    ensures Lookup(props, "type") == if p.key == "type" then p.value else Lookup(rest, "type")
    ensures Lookup(props, "level") == if p.key == "level" then p.value else Lookup(rest, "level")
    ensures Lookup(props, "align") == if p.key == "align" then p.value else Lookup(rest, "align")
    ensures Lookup(props, "children") == if p.key == "children" then p.value else Lookup(rest, "children")
  {
    assert props[1..] == rest;
  }

  lemma AlignRoundTrip(a: Align)
    ensures AlignOfName(AlignName(a)) == Some(a)
  {
  }

  lemma KindRoundTrip(k: Kind)
    requires k.Unknown? ==> !IsKnownName(k.tag)
    ensures KindOfName(TypeName(k), if k.Heading? then JNum(k.level) else JUndefined) == Some(k)
  {
  }

  lemma MarkListed(m: Mark)
    ensures m in MarkOrder
  {
    match m
    case Bold => assert MarkOrder[0] == m;
    case Italic => assert MarkOrder[1] == m;
    case Underline => assert MarkOrder[2] == m;
    case Strikethrough => assert MarkOrder[3] == m;
    case Code => assert MarkOrder[4] == m;
  }

  /** The marks written for a text leaf read back as the same marks. */
  lemma MarksRead(v: Json, marks: map<Mark, bool>, ms: seq<Mark>)
    requires forall m :: m in ms
    requires forall m :: Get(v, MarkName(m)) == if m in marks then JBool(marks[m]) else JUndefined
    ensures MarksFromJson(v, ms) == Some(marks)
  {
    MarksReadable(v, marks, ms);
    MarksContents(v, marks, ms, MarksFromJson(v, ms).value);
  }

  lemma MarksContents(v: Json, marks: map<Mark, bool>, ms: seq<Mark>, got: map<Mark, bool>)
    requires forall m :: m in ms
    requires forall m :: Get(v, MarkName(m)) == if m in marks then JBool(marks[m]) else JUndefined
    requires MarksFromJson(v, ms) == Some(got)
    ensures got == marks
  {
    MarksFromJsonSpec(v, ms);
    forall m ensures (m in got <==> m in marks) && (m in got ==> got[m] == marks[m]) {
      assert Get(v, MarkName(m)) == if m in marks then JBool(marks[m]) else JUndefined;
    }
  }

  lemma MarksReadable(v: Json, marks: map<Mark, bool>, ms: seq<Mark>)
    requires forall m :: Get(v, MarkName(m)) == if m in marks then JBool(marks[m]) else JUndefined
    ensures MarksFromJson(v, ms).Some?
  {
    MarksFromJsonSpec(v, ms);
    forall i | 0 <= i < |ms| ensures Get(v, MarkName(ms[i])).JUndefined? || Get(v, MarkName(ms[i])).JBool? {
      var m := ms[i];
      assert Get(v, MarkName(m)) == if m in marks then JBool(marks[m]) else JUndefined;
    }
  }

  lemma TextRoundTrip(text: string, marks: map<Mark, bool>)
    ensures NodeFromJson(NodeToJson(Text(text, marks))) == Some(Text(text, marks))
  {
    var v := NodeToJson(Text(text, marks));
    TextGets(text, marks);
    forall m ensures m in MarkOrder { MarkListed(m); }
    MarksRead(v, marks, MarkOrder);
  }

  /** Every node whose JSON form reads back reads back as itself. */
  lemma NodeRoundTrip(n: Node)
    requires Encodable(n)
    ensures NodeFromJson(NodeToJson(n)) == Some(n)
    decreases n, 1
  {
    match n
    case Text(text, marks) => TextRoundTrip(text, marks);
    case Element(kind, align, cs) =>
      var items := seq(|cs|, i requires 0 <= i < |cs| => NodeToJson(cs[i]));
      assert NodeToJson(n) == JObj(ElementProps(kind, align, items));
      ChildrenRoundTrip(n, items, 0);
      assert items[0..] == items && cs[0..] == cs;
      ElementRead(kind, align, items, cs);
  }

  /** An element object whose children read back reads back as the element. */
  lemma ElementRead(kind: Kind, align: Option<Align>, items: seq<Json>, cs: seq<Node>)
    requires kind.Unknown? ==> !IsKnownName(kind.tag)
    requires NodesFromJson(items) == Some(cs)
    ensures NodeFromJson(JObj(ElementProps(kind, align, items))) == Some(Element(kind, align, cs))
  {
    ElementGets(kind, align, items);
    KindRoundTrip(kind);
    if align.Some? {
      AlignRoundTrip(align.value);
    }
  }

  lemma NodesCons(items: seq<Json>, n: Node, ns: seq<Node>)
    requires items != [] && NodeFromJson(items[0]) == Some(n) && NodesFromJson(items[1..]) == Some(ns)
    ensures NodesFromJson(items) == Some([n] + ns)
  {
  }

  lemma ChildrenRoundTrip(n: Node, items: seq<Json>, k: nat)
    requires n.Element? && Encodable(n) && k <= |n.children| == |items|
    requires forall i :: 0 <= i < |items| ==> items[i] == NodeToJson(n.children[i])
    ensures NodesFromJson(items[k..]) == Some(n.children[k..])
    decreases n, 0, |items| - k
  {
    if k < |items| {
      NodeRoundTrip(n.children[k]);
      ChildrenRoundTrip(n, items, k + 1);
      ChildrenStep(items, n.children, k);
    } else {
      assert items[k..] == [] && n.children[k..] == [];
    }
  }

  lemma ChildrenStep(items: seq<Json>, cs: seq<Node>, k: nat)
    requires k < |items| == |cs|
    requires NodeFromJson(items[k]) == Some(cs[k]) && NodesFromJson(items[k + 1..]) == Some(cs[k + 1..])
    ensures NodesFromJson(items[k..]) == Some(cs[k..])
  {
    var xs := items[k..];
    assert xs[0] == items[k] && xs[1..] == items[k + 1..];
    NodesCons(xs, cs[k], cs[k + 1..]);
    assert [cs[k]] + cs[k + 1..] == cs[k..];
  }

  /** A document of encodable nodes reads back from its JSON array as itself. */
  lemma DocRoundTrip(doc: Doc)
    requires forall i :: 0 <= i < |doc| ==> Encodable(doc[i])
    ensures DocFromJson(DocToJson(doc)) == Some(doc)
  {
    var host := Element(Paragraph, None, doc);
    var items := DocToJson(doc).items;
    ChildrenRoundTrip(host, items, 0);
    assert items[0..] == items && doc[0..] == doc;
  }

  // ---------------------------------------------------------------------
  // The value, the code view and its state
  // ---------------------------------------------------------------------

  /** `value?.length`: arrays and strings have a length, an object may have a `length` property. */
  function LengthOf(v: Json): Json
  {
    match v
    case JArr(items) => JNum(|items|)
    case JStr(s) => JNum(|s|)
    case JObj(_) => Get(v, "length")
    case _ => JUndefined
  }

  /** `safeValue`: the value when its length is truthy, else the one-empty-paragraph document. */
  function SafeValue(v: Json): (r: Json)
    ensures r == v || r == DocToJson(EmptyDoc)
    ensures Truthy(LengthOf(r))
  {
    if Truthy(LengthOf(v)) then v else DocToJson(EmptyDoc)
  }

  /** A document value is kept exactly when it is not empty; a missing one falls back to the empty document. */
  lemma SafeValueOfDoc(doc: Doc)
    ensures SafeValue(DocToJson(doc)) == if doc == [] then DocToJson(EmptyDoc) else DocToJson(doc)
    ensures DocFromJson(SafeValue(JUndefined)) == Some(EmptyDoc)
    ensures DocFromJson(SafeValue(JNull)) == Some(EmptyDoc)
  {
    assert Encodable(EmptyDoc[0]) by {
      assert EmptyDoc[0].children[0].Text?;
    }
    DocRoundTrip(EmptyDoc);
  }

  /** Submitting the JSON the code view shows, unchanged, shows the same value again. */
  lemma SafeValueIdempotent(v: Json)
    ensures SafeValue(SafeValue(v)) == SafeValue(v)
  {
  }

  /**
   * The editor component's state: the value its parent holds (and passes
   * back in after `onChangeAction`) and whether the code view is open.
   */
  class EditorView {
    var value: Json
    var isCodeView: bool

    constructor(v: Json)
      ensures value == v && !isCodeView
    {
      value := v;
      isCodeView := false;
    }

    /** The value the code view shows pretty-printed. */
    function Shown(): Json
      reads this
    {
      SafeValue(value)
    }

    method ToggleCodeView()
      modifies this
      ensures isCodeView == !old(isCodeView) && value == old(value)
    {
      isCodeView := !isCodeView;
    }

    /**
     * An edit of the code view's text, given as what `JSON.parse` made of
     * it: valid JSON becomes the new value as it is, invalid JSON changes
     * nothing.
     */
    method EditCode(parsed: Option<Json>)
      requires isCodeView
      modifies this
      ensures isCodeView
      ensures parsed.None? ==> value == old(value)
      ensures parsed.Some? ==> value == parsed.value
    {
      if parsed.Some? {
        value := parsed.value;
      }
    }
  }

  // ---------------------------------------------------------------------
  // Rendering
  // ---------------------------------------------------------------------

  /** The HTML element an element renders as. */
  datatype Tag = H(level: int) | Quote | Ul | Ol | Li | PreCode | P

  /** The rendered element: its tag and its `textAlign` style. */
  datatype Rendered = Rendered(tag: Tag, style: Option<Align>)

  /** The heading tag: levels 2 to 5 as themselves, anything else as `h6`. */
  function HeadingTag(level: int): (t: Tag)
    ensures t.H? && 2 <= t.level <= 6
    ensures 2 <= level <= 6 <==> t.level == level
  {
    H(if 2 <= level <= 5 then level else 6)
  }

  /** `renderElement` as written: only headings and blockquotes carry the alignment; unknown types render as paragraphs. */
  function RenderElementAsWritten(kind: Kind, align: Option<Align>): Rendered
  {
    match kind
    case Heading(level) => Rendered(HeadingTag(level), align)
    case Blockquote => Rendered(Quote, align)
    case BulletedList => Rendered(Ul, None)
    case NumberedList => Rendered(Ol, None)
    case ListItem => Rendered(Li, None)
    case CodeBlock => Rendered(PreCode, None)
    case _ => Rendered(P, None)
  }

  /** An aligned paragraph, as the align buttons make it, renders without its alignment. */
  lemma ParagraphAlignHidden()
    ensures var doc := Aligned(EmptyDoc, 0, 1, Center);
      doc[0].Element? && doc[0].align == Some(Center)
      && RenderElementAsWritten(doc[0].kind, doc[0].align).style == None
  {
    var b := EmptyDoc[0];
    assert Aligned(EmptyDoc, 0, 1, Center) == [b.(align := Some(Center))] by {
      assert EmptyDoc[1..] == [];
    }
  }

  /** `renderElement` with the alignment on every element but the list wrappers. */
  function RenderElement(kind: Kind, align: Option<Align>): (r: Rendered)
    ensures r.style == if IsListKind(kind) then None else align
    ensures r.tag == RenderElementAsWritten(kind, align).tag
  {
    match kind
    case Heading(level) => Rendered(HeadingTag(level), align)
    case Blockquote => Rendered(Quote, align)
    case BulletedList => Rendered(Ul, None)
    case NumberedList => Rendered(Ol, None)
    case ListItem => Rendered(Li, align)
    case CodeBlock => Rendered(PreCode, align)
    case _ => Rendered(P, align)
  }

  /** After `setAlign`, every selected block renders with the alignment. */
  lemma AlignShown(doc: Doc, lo: nat, hi: nat, a: Align, i: nat)
    requires WellFormed(doc) && lo <= i < hi <= |Blocks(doc)|
    ensures |Blocks(Aligned(doc, lo, hi, a))| == |Blocks(doc)|
    ensures var b := Blocks(Aligned(doc, lo, hi, a))[i];
      b.Element? && RenderElement(b.kind, b.align).style == Some(a)
  {
    AlignedBlocks(doc, lo, hi, a);
    BlocksAreTextBlocks(doc);
    FlatIff(Blocks(doc));
  }

  /** The tag a text leaf's mark wraps it in. */
  datatype LeafTag = Strong | Em | UTag | STag | CodeTag

  /** A rendered text leaf: the text inside its mark tags, outermost first. */
  datatype Leaf = Plain(text: string) | Wrapped(tag: LeafTag, inner: Leaf)

  function MarkTag(m: Mark): LeafTag
  {
    match m
    case Bold => Strong
    case Italic => Em
    case Underline => UTag
    case Strikethrough => STag
    case Code => CodeTag
  }

  /** How deep a tag sits: bold innermost, code outermost. */
  function Depth(t: LeafTag): nat
  {
    match t
    case Strong => 0
    case Em => 1
    case UTag => 2
    case STag => 3
    case CodeTag => 4
  }

  /** Wrap the leaf in the tag of `m` when `m` is on. */
  function WrapIf(l: Leaf, marks: map<Mark, bool>, m: Mark): Leaf
  {
    if Marked(marks, m) then Wrapped(MarkTag(m), l) else l
  }

  /** Apply the wrappers of `ms` one after the other, the first innermost. */
  function WrapAll(l: Leaf, marks: map<Mark, bool>, ms: seq<Mark>): Leaf
    decreases |ms|
  {
    if ms == [] then l else WrapAll(WrapIf(l, marks, ms[0]), marks, ms[1..])
  }

  /** `renderLeaf`: wrap in `strong`, `em`, `u`, `s` and `code`, in that order, for each mark that is on. */
  function RenderLeaf(text: string, marks: map<Mark, bool>): Leaf
  {
    WrapAll(Plain(text), marks, MarkOrder)
  }

  function Tags(l: Leaf): seq<LeafTag>
  {
    match l
    case Plain(_) => []
    case Wrapped(t, inner) => [t] + Tags(inner)
  }

  function LeafText(l: Leaf): string
  {
    match l
    case Plain(s) => s
    case Wrapped(_, inner) => LeafText(inner)
  }

  /** Tags nest from the outside in by strictly decreasing depth. */
  predicate Nested(ts: seq<LeafTag>)
  {
    forall i, j :: 0 <= i < j < |ts| ==> Depth(ts[i]) > Depth(ts[j])
  }

  /** Wrapping a leaf whose tags are all deeper-inside than `t` keeps the nesting. */
  lemma NestedWrap(t: LeafTag, l: Leaf)
    requires Nested(Tags(l)) && forall x :: x in Tags(l) ==> Depth(x) < Depth(t)
    ensures Nested(Tags(Wrapped(t, l)))
  {
    var ts := Tags(Wrapped(t, l));
    forall i, j | 0 <= i < j < |ts|
      ensures Depth(ts[i]) > Depth(ts[j])
    {
      assert ts[j] == Tags(l)[j - 1];
      if i > 0 {
        assert ts[i] == Tags(l)[i - 1];
      }
    }
  }

  /** Wrapping in the tag of `m` when `m` is on keeps the nesting and adds that tag exactly when `m` is on. */
  lemma WrapStep(l: Leaf, marks: map<Mark, bool>, m: Mark)
    requires Nested(Tags(l)) && forall x :: x in Tags(l) ==> Depth(x) < Depth(MarkTag(m))
    ensures var w := WrapIf(l, marks, m);
      LeafText(w) == LeafText(l) && Nested(Tags(w))
      && (forall x :: x in Tags(w) ==> Depth(x) <= Depth(MarkTag(m)))
      && (forall x :: x in Tags(w) <==> x in Tags(l) || (x == MarkTag(m) && Marked(marks, m)))
  {
    if Marked(marks, m) {
      NestedWrap(MarkTag(m), l);
    }
  }

  /** The marks of `ms` wrap from the inside out in strictly increasing depth. */
  predicate Rising(ms: seq<Mark>)
  {
    forall i, j :: 0 <= i < j < |ms| ==> Depth(MarkTag(ms[i])) < Depth(MarkTag(ms[j]))
  }

  lemma RisingTail(ms: seq<Mark>)
    requires Rising(ms) && ms != []
    ensures Rising(ms[1..])
    ensures forall m :: m in ms[1..] ==> Depth(MarkTag(ms[0])) < Depth(MarkTag(m))
  {
    forall m | m in ms[1..]
      ensures Depth(MarkTag(ms[0])) < Depth(MarkTag(m))
    {
      var k :| 0 <= k < |ms[1..]| && ms[1..][k] == m;
      assert ms[k + 1] == m;
    }
  }

  /** `renderLeaf` wraps in the order the marks are written, which rises in depth and lists every mark. */
  lemma MarkOrderRising()
    ensures Rising(MarkOrder) && forall m :: m in MarkOrder
  {
    forall m
      ensures m in MarkOrder
    {
      MarkListed(m);
    }
  }

  /** Wrapping in rising order keeps the text, nests the tags, and adds a tag for exactly the marks of `ms` that are on. */
  lemma {:induction false} WrapAllTags(l: Leaf, marks: map<Mark, bool>, ms: seq<Mark>, d: nat)
    requires Nested(Tags(l)) && forall x :: x in Tags(l) ==> Depth(x) < d
    requires Rising(ms) && forall m :: m in ms ==> d <= Depth(MarkTag(m))
    ensures var r := WrapAll(l, marks, ms);
      LeafText(r) == LeafText(l) && Nested(Tags(r))
      && forall m :: MarkTag(m) in Tags(r) <==> MarkTag(m) in Tags(l) || (m in ms && Marked(marks, m))
    decreases |ms|
  {
    if ms != [] {
      var w := WrapIf(l, marks, ms[0]);
      WrapStep(l, marks, ms[0]);
      var d' := Depth(MarkTag(ms[0])) + 1;
      RisingTail(ms);
      WrapAllTags(w, marks, ms[1..], d');
      forall m
        ensures MarkTag(m) in Tags(WrapAll(l, marks, ms)) <==> MarkTag(m) in Tags(l) || (m in ms && Marked(marks, m))
      {
        assert m in ms <==> m == ms[0] || m in ms[1..];
      }
    }
  }

  /**
   * A rendered leaf keeps its text, has a tag for exactly the marks that
   * are on, and nests them with code outermost and bold innermost.
   */
  lemma RenderLeafMarks(text: string, marks: map<Mark, bool>)
    ensures var l := RenderLeaf(text, marks);
      LeafText(l) == text && Nested(Tags(l))
      && forall m :: MarkTag(m) in Tags(l) <==> Marked(marks, m)
  {
    MarkOrderRising();
    WrapAllTags(Plain(text), marks, MarkOrder, 0);
  }
}
