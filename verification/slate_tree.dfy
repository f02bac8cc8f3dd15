/**
 * The document transforms the editor's commands are built from, over a
 * selection that covers the blocks `lo .. hi-1` of `Blocks(doc)` (a caret
 * covers the one block it sits in; `lo == hi` is no selection):
 * unwrapping lists with splitting, setting properties on the lowest
 * elements, wrapping blocks in a new list, and the elements a selection
 * touches in document order.
 */
module SlateTree {
  import opened Prelude
  import opened SlateSchema

  /** The top-level nodes before block `k`; a list straddling `k` keeps its first items. */
  function Prefix(doc: Doc, k: nat): Doc
    decreases |doc|
  {
    if doc == [] || k == 0 then []
    else if Width(doc[0]) <= k then [doc[0]] + Prefix(doc[1..], k - Width(doc[0]))
    else
      var e := doc[0];
      if IsList(e) then [e.(children := e.children[..k])] else [e]
  }

  /** The top-level nodes from block `k` on; a list straddling `k` keeps its last items. */
  function Suffix(doc: Doc, k: nat): Doc
    decreases |doc|
  {
    if doc == [] then []
    else if k == 0 then doc
    else if Width(doc[0]) <= k then Suffix(doc[1..], k - Width(doc[0]))
    else
      var e := doc[0];
      if IsList(e) then [e.(children := e.children[k..])] + doc[1..] else doc
  }

  /** Cutting at block `k` splits the blocks at `k` and keeps both halves well formed. */
  lemma PrefixSuffixBlocks(doc: Doc, k: nat)
    requires WellFormed(doc) && k <= |Blocks(doc)|
    ensures Blocks(Prefix(doc, k)) == Blocks(doc)[..k] && WellFormed(Prefix(doc, k))
    ensures Blocks(Suffix(doc, k)) == Blocks(doc)[k..] && WellFormed(Suffix(doc, k))
  {
    PrefixBlocks(doc, k);
    SuffixBlocks(doc, k);
  }

  lemma {:induction false} PrefixBlocks(doc: Doc, k: nat)
    requires WellFormed(doc) && k <= |Blocks(doc)|
    ensures Blocks(Prefix(doc, k)) == Blocks(doc)[..k] && WellFormed(Prefix(doc, k))
    decreases |doc|
  {
    if doc != [] && k != 0 {
      BlocksUnfold(doc);
      WellFormedSlices(doc);
      if Width(doc[0]) <= k {
        PrefixBlocks(doc[1..], k - Width(doc[0]));
        PrefixWhole(doc, k);
      } else {
        PrefixSplitList(doc, k);
      }
    }
  }

  lemma PrefixWhole(doc: Doc, k: nat)
    requires doc != [] && IsTopNode(doc[0]) && Width(doc[0]) <= k
    requires Blocks(doc) == Expand(doc[0]) + Blocks(doc[1..]) && k <= |Blocks(doc)|
    requires Blocks(Prefix(doc[1..], k - Width(doc[0]))) == Blocks(doc[1..])[..k - Width(doc[0])]
    requires WellFormed(Prefix(doc[1..], k - Width(doc[0])))
    ensures Blocks(Prefix(doc, k)) == Blocks(doc)[..k] && WellFormed(Prefix(doc, k))
  {
    var e, w := doc[0], Width(doc[0]);
    var rest := Prefix(doc[1..], k - w);
    assert Prefix(doc, k) == [e] + rest;
    BlocksAppend([e], rest);
    assert WellFormed([e]) && Blocks([e]) == Expand(e) by { assert [e][1..] == []; }
    WellFormedAppend([e], rest);
    TakeOfAppend(Expand(e), Blocks(doc[1..]), k, w);
  }

  /** Taking past the end of the first part takes all of it. */
  lemma TakeOfAppend(a: seq<Node>, b: seq<Node>, k: nat, w: nat)
    requires w == |a| <= k <= |a| + |b|
    ensures (a + b)[..k] == a + b[..k - w]
  {
  }

  lemma PrefixSplitList(doc: Doc, k: nat)
    requires doc != [] && IsTopNode(doc[0]) && 0 < k < Width(doc[0])
    requires Blocks(doc) == Expand(doc[0]) + Blocks(doc[1..])
    ensures Blocks(Prefix(doc, k)) == Blocks(doc)[..k] && WellFormed(Prefix(doc, k))
  {
    var e := doc[0];
    assert IsList(e);
    assert Prefix(doc, k) == [e.(children := e.children[..k])];
    ListUpTo(e, k);
    assert (e.children + Blocks(doc[1..]))[..k] == e.children[..k];
  }

  /** The items of a list before `k`, kept as a list of their own. */
  lemma ListUpTo(e: Node, k: nat)
    requires IsListBlock(e) && 0 < k <= |e.children|
    ensures Blocks([e.(children := e.children[..k])]) == e.children[..k]
    ensures WellFormed([e.(children := e.children[..k])])
  {
    var pre := e.(children := e.children[..k]);
    assert [pre][1..] == [];
    ItemsSlice(e.children, 0, k);
    assert e.children[0..k] == e.children[..k];
  }

  lemma {:induction false} SuffixBlocks(doc: Doc, k: nat)
    requires WellFormed(doc) && k <= |Blocks(doc)|
    ensures Blocks(Suffix(doc, k)) == Blocks(doc)[k..] && WellFormed(Suffix(doc, k))
    decreases |doc|
  {
    if doc != [] && k != 0 {
      BlocksUnfold(doc);
      WellFormedSlices(doc);
      if Width(doc[0]) <= k {
        SuffixBlocks(doc[1..], k - Width(doc[0]));
        assert (Expand(doc[0]) + Blocks(doc[1..]))[k..] == Blocks(doc[1..])[k - Width(doc[0])..];
      } else {
        SuffixSplitList(doc, k);
      }
    }
  }

  lemma SuffixSplitList(doc: Doc, k: nat)
    requires doc != [] && IsTopNode(doc[0]) && WellFormed(doc[1..]) && 0 < k < Width(doc[0])
    requires Blocks(doc) == Expand(doc[0]) + Blocks(doc[1..])
    ensures Blocks(Suffix(doc, k)) == Blocks(doc)[k..] && WellFormed(Suffix(doc, k))
  {
    var e := doc[0];
    var post := e.(children := e.children[k..]);
    assert IsList(e);
    assert Suffix(doc, k) == [post] + doc[1..];
    ListFrom(e, k);
    BlocksAppend([post], doc[1..]);
    WellFormedAppend([post], doc[1..]);
  }

  /** The items of a list from `k` on, kept as a list of their own. */
  lemma ListFrom(e: Node, k: nat)
    requires IsListBlock(e) && k < |e.children|
    ensures Blocks([e.(children := e.children[k..])]) == e.children[k..]
    ensures WellFormed([e.(children := e.children[k..])])
  {
    var post := e.(children := e.children[k..]);
    assert [post][1..] == [];
    ItemsSlice(e.children, k, |e.children|);
    assert e.children[k..|e.children|] == e.children[k..];
  }

  /** Cutting a concatenation where its first part ends gives the parts back. */
  lemma {:induction false} CutAppend(a: Doc, b: Doc)
    requires WellFormed(a)
    ensures Prefix(a + b, |Blocks(a)|) == a
    ensures Suffix(a + b, |Blocks(a)|) == b
  {
    if a == [] {
      assert a + b == b;
    } else {
      assert (a + b)[0] == a[0];
      assert (a + b)[1..] == a[1..] + b;
      assert Blocks(a) == Expand(a[0]) + Blocks(a[1..]);
      assert Width(a[0]) > 0;
      CutAppend(a[1..], b);
      assert a == [a[0]] + a[1..];
    }
  }

  /** The state `unwrapNodes` with `split: true` leaves behind: the selected blocks are top level. */
  predicate Lifted(doc: Doc, lo: nat, hi: nat)
    requires lo <= hi <= |Blocks(doc)|
  {
    lo == hi || doc == Prefix(doc, lo) + Blocks(doc)[lo..hi] + Suffix(doc, hi)
  }

  /**
   * Unwrapping every list the selection touches, splitting a list at the
   * selection's edges: the selected list items become top-level nodes.
   */
  function Unwrap(doc: Doc, lo: nat, hi: nat): (r: Doc)
    requires WellFormed(doc) && lo <= hi <= |Blocks(doc)|
    ensures WellFormed(r) && Blocks(r) == Blocks(doc)
    ensures Lifted(r, lo, hi)
  {
    if lo == hi then doc
    else
      var r := Prefix(doc, lo) + Blocks(doc)[lo..hi] + Suffix(doc, hi);
      UnwrapShape(doc, lo, hi);
      r
  }

  lemma UnwrapShape(doc: Doc, lo: nat, hi: nat)
    requires WellFormed(doc) && lo < hi <= |Blocks(doc)|
    ensures var r := Prefix(doc, lo) + Blocks(doc)[lo..hi] + Suffix(doc, hi);
      WellFormed(r) && Blocks(r) == Blocks(doc)
      && Prefix(r, lo) == Prefix(doc, lo) && Suffix(r, hi) == Suffix(doc, hi) && Blocks(r)[lo..hi] == Blocks(doc)[lo..hi]
  {
    UnwrapPieces(doc, lo, hi);
    Reassemble(Prefix(doc, lo), Blocks(doc)[lo..hi], Suffix(doc, hi), lo, hi);
  }

  /** The three pieces unwrapping puts together, and the blocks each holds. */
  lemma UnwrapPieces(doc: Doc, lo: nat, hi: nat)
    requires WellFormed(doc) && lo < hi <= |Blocks(doc)|
    ensures var p, m, s := Prefix(doc, lo), Blocks(doc)[lo..hi], Suffix(doc, hi);
      WellFormed(p) && WellFormed(m) && WellFormed(s)
      && Blocks(p) == Blocks(doc)[..lo] && Blocks(m) == m && Blocks(s) == Blocks(doc)[hi..]
      && Blocks(p) + Blocks(m) + Blocks(s) == Blocks(doc)
  {
    PrefixBlocks(doc, lo);
    SuffixBlocks(doc, hi);
    FlatRun(doc, lo, hi);
    ThreeSlices(Blocks(doc), lo, hi);
  }

  lemma ThreeSlices(bs: seq<Node>, lo: nat, hi: nat)
    requires lo <= hi <= |bs|
    ensures bs[..lo] + bs[lo..hi] + bs[hi..] == bs
  {
  }

  /** The selected blocks of a well-formed document form a run of blocks. */
  lemma FlatRun(doc: Doc, lo: nat, hi: nat)
    requires WellFormed(doc) && lo <= hi <= |Blocks(doc)|
    ensures Flat(Blocks(doc)[lo..hi]) && Blocks(Blocks(doc)[lo..hi]) == Blocks(doc)[lo..hi]
    ensures WellFormed(Blocks(doc)[lo..hi])
  {
    BlocksAreTextBlocks(doc);
    FlatSlice(Blocks(doc), lo, hi);
    FlatBlocks(Blocks(doc)[lo..hi]);
  }

  /** Joining three well-formed pieces; cutting the result at the pieces' seams gives them back. */
  lemma Reassemble(p: Doc, m: Doc, s: Doc, lo: nat, hi: nat)
    requires WellFormed(p) && WellFormed(m) && WellFormed(s)
    requires lo == |Blocks(p)| && hi == lo + |Blocks(m)|
    ensures var r := p + m + s;
      WellFormed(r) && Blocks(r) == Blocks(p) + Blocks(m) + Blocks(s) && hi <= |Blocks(r)|
      && Prefix(r, lo) == p && Suffix(r, hi) == s && Blocks(r)[lo..hi] == Blocks(m)
  {
    WellFormedAppend(p, m);
    WellFormedAppend(p + m, s);
    Blocks3(p, m, s);
    Cut3(p, m, s, lo, hi);
    MiddleSlice(Blocks(p), Blocks(m), Blocks(s), lo, hi);
  }

  lemma MiddleSlice(a: seq<Node>, m: seq<Node>, b: seq<Node>, lo: nat, hi: nat)
    requires lo == |a| && hi == lo + |m|
    ensures (a + m + b)[lo..hi] == m
  {
  }

  lemma Blocks3(p: Doc, m: Doc, s: Doc)
    ensures Blocks(p + m + s) == Blocks(p) + Blocks(m) + Blocks(s)
  {
    BlocksAppend(p, m);
    BlocksAppend(p + m, s);
  }

  lemma Cut3(p: Doc, m: Doc, s: Doc, lo: nat, hi: nat)
    requires WellFormed(p) && WellFormed(m)
    requires lo == |Blocks(p)| && hi == lo + |Blocks(m)|
    ensures Prefix(p + m + s, lo) == p && Suffix(p + m + s, hi) == s
  {
    assert p + m + s == p + (m + s);
    CutAppend(p, m + s);
    CutSuffix3(p, m, s, hi);
  }

  lemma CutSuffix3(p: Doc, m: Doc, s: Doc, hi: nat)
    requires WellFormed(p) && WellFormed(m) && hi == |Blocks(p)| + |Blocks(m)|
    ensures Suffix(p + m + s, hi) == s
  {
    BlocksAppend(p, m);
    WellFormedAppend(p, m);
    CutAppend(p + m, s);
  }

  /** The property changes `Transforms.setNodes` and `Editor.addMark`/`removeMark` make. */
  datatype Update =
    | Retype(kind: Kind)
    | Realign(align: Align)
    | AddMark(mark: Mark)
    | RemoveMark(mark: Mark)

  /** An update that turns blocks into blocks (never into a list or an unknown type). */
  predicate Sound(u: Update) { u.Retype? ==> IsTextKind(u.kind) }

  function MarkTexts(cs: seq<Node>, m: Mark, add: bool): (r: seq<Node>)
    ensures |r| == |cs|
    ensures AllTexts(cs) ==> AllTexts(r)
  {
    var r := seq(|cs|, i requires 0 <= i < |cs| =>
      if cs[i].Text? then cs[i].(marks := if add then cs[i].marks[m := true] else cs[i].marks - {m}) else cs[i]);
    AllTextsIff(cs);
    AllTextsIff(r);
    r
  }

  /** The update applied to one block. */
  function Apply(u: Update, n: Node): (r: Node)
    ensures Sound(u) && IsTextBlock(n) ==> IsTextBlock(r)
    ensures !IsList(n) && Sound(u) ==> !IsList(r)
    ensures IsList(n) && !u.Retype? ==> IsList(r)
  {
    if !n.Element? then n
    else match u
      case Retype(k) => n.(kind := k)
      case Realign(a) => n.(align := Some(a))
      case AddMark(m) => n.(children := MarkTexts(n.children, m, true))
      case RemoveMark(m) => n.(children := MarkTexts(n.children, m, false))
  }

  /** The update applied to the blocks of a run whose first block has index `at`. */
  function ApplyRun(u: Update, items: seq<Node>, at: int, lo: nat, hi: nat): (r: seq<Node>)
    ensures |r| == |items|
  {
    seq(|items|, i requires 0 <= i < |items| => if lo <= at + i < hi then Apply(u, items[i]) else items[i])
  }

  function ApplyTop(u: Update, n: Node, at: int, lo: nat, hi: nat): Node
  {
    if IsList(n) then n.(children := ApplyRun(u, n.children, at, lo, hi))
    else if lo <= at < hi then Apply(u, n) else n
  }

  /**
   * `setNodes` on the lowest elements in the selection: every selected block
   * (a list item, never its list) gets the update; `at` is the index of
   * `doc[0]`'s first block.
   */
  function SetBlocks(u: Update, doc: Doc, at: int, lo: nat, hi: nat): (r: Doc)
    ensures |r| == |doc|
    decreases |doc|
  {
    if doc == [] then [] else [ApplyTop(u, doc[0], at, lo, hi)] + SetBlocks(u, doc[1..], at + Width(doc[0]), lo, hi)
  }

  /** The selected blocks, and only they, get the update; the list structure is kept. */
  lemma {:induction false} SetBlocksBlocks(u: Update, doc: Doc, at: int, lo: nat, hi: nat)
    requires Sound(u)
    ensures Blocks(SetBlocks(u, doc, at, lo, hi)) == ApplyRun(u, Blocks(doc), at, lo, hi)
    decreases |doc|
  {
    if doc != [] {
      SetBlocksBlocks(u, doc[1..], at + Width(doc[0]), lo, hi);
      SetBlocksBlocksStep(u, doc, at, lo, hi);
    }
  }

  lemma SetBlocksBlocksStep(u: Update, doc: Doc, at: int, lo: nat, hi: nat)
    requires Sound(u) && doc != []
    requires Blocks(SetBlocks(u, doc[1..], at + Width(doc[0]), lo, hi)) == ApplyRun(u, Blocks(doc[1..]), at + Width(doc[0]), lo, hi)
    ensures Blocks(SetBlocks(u, doc, at, lo, hi)) == ApplyRun(u, Blocks(doc), at, lo, hi)
  {
    var e := doc[0];
    var t := ApplyTop(u, e, at, lo, hi);
    var r := SetBlocks(u, doc, at, lo, hi);
    SetBlocksUnfold(u, doc, at, lo, hi);
    assert r[0] == t && r[1..] == SetBlocks(u, doc[1..], at + Width(e), lo, hi);
    calc {
      Blocks(r);
      { BlocksUnfold(r); }
      Expand(t) + Blocks(r[1..]);
      { ApplyTopExpand(u, e, at, lo, hi); }
      ApplyRun(u, Expand(e), at, lo, hi) + ApplyRun(u, Blocks(doc[1..]), at + Width(e), lo, hi);
      { ApplyRunAppend(u, Expand(e), Blocks(doc[1..]), at, lo, hi); }
      ApplyRun(u, Expand(e) + Blocks(doc[1..]), at, lo, hi);
      { BlocksUnfold(doc); }
      ApplyRun(u, Blocks(doc), at, lo, hi);
    }
  }

  lemma ApplyRunAppend(u: Update, x: seq<Node>, y: seq<Node>, at: int, lo: nat, hi: nat)
    ensures ApplyRun(u, x + y, at, lo, hi) == ApplyRun(u, x, at, lo, hi) + ApplyRun(u, y, at + |x|, lo, hi)
  {
  }

  lemma ApplyTopExpand(u: Update, e: Node, at: int, lo: nat, hi: nat)
    requires Sound(u)
    ensures Expand(ApplyTop(u, e, at, lo, hi)) == ApplyRun(u, Expand(e), at, lo, hi)
  {
    if !IsList(e) {
      assert ApplyRun(u, [e], at, lo, hi)[0] == ApplyTop(u, e, at, lo, hi);
    }
  }

  /** An update that is not a type change keeps a document well formed. */
  lemma {:induction false} SetBlocksWellFormed(u: Update, doc: Doc, at: int, lo: nat, hi: nat)
    requires WellFormed(doc) && Sound(u) && (u.Retype? ==> u.kind == ListItem)
    ensures WellFormed(SetBlocks(u, doc, at, lo, hi))
    decreases |doc|
  {
    if doc != [] {
      SetBlocksWellFormed(u, doc[1..], at + Width(doc[0]), lo, hi);
      WellFormedSlices(doc);
      ApplyTopWellFormed(u, doc[0], at, lo, hi);
    }
  }

  lemma ApplyTopWellFormed(u: Update, e: Node, at: int, lo: nat, hi: nat)
    requires IsTopNode(e) && Sound(u) && (u.Retype? ==> u.kind == ListItem)
    ensures IsTopNode(ApplyTop(u, e, at, lo, hi))
  {
    if IsList(e) {
      AllItemsIff(e.children);
      var r := ApplyRun(u, e.children, at, lo, hi);
      AllItemsIff(r);
    }
  }

  /** Blocks outside the selection are untouched. */
  lemma {:induction false} SetBlocksOutside(u: Update, doc: Doc, at: int, lo: nat, hi: nat)
    requires at + |Blocks(doc)| <= lo || hi <= at || hi <= lo
    ensures SetBlocks(u, doc, at, lo, hi) == doc
    decreases |doc|
  {
    if doc != [] {
      var e := doc[0];
      assert Blocks(doc) == Expand(e) + Blocks(doc[1..]);
      SetBlocksOutside(u, doc[1..], at + Width(e), lo, hi);
      if IsList(e) {
        assert ApplyRun(u, e.children, at, lo, hi) == e.children;
      }
      assert doc == [e] + doc[1..];
    }
  }

  lemma {:induction false} SetBlocksAppend(u: Update, a: Doc, b: Doc, at: int, lo: nat, hi: nat)
    ensures SetBlocks(u, a + b, at, lo, hi) == SetBlocks(u, a, at, lo, hi) + SetBlocks(u, b, at + |Blocks(a)|, lo, hi)
    decreases |a|
  {
    if a == [] {
      assert a + b == b;
    } else {
      SetBlocksAppend(u, a[1..], b, at + Width(a[0]), lo, hi);
      SetBlocksAppendStep(u, a, b, at, lo, hi);
    }
  }

  lemma SetBlocksAppendStep(u: Update, a: Doc, b: Doc, at: int, lo: nat, hi: nat)
    requires a != []
    requires SetBlocks(u, a[1..] + b, at + Width(a[0]), lo, hi)
          == SetBlocks(u, a[1..], at + Width(a[0]), lo, hi) + SetBlocks(u, b, at + Width(a[0]) + |Blocks(a[1..])|, lo, hi)
    ensures SetBlocks(u, a + b, at, lo, hi) == SetBlocks(u, a, at, lo, hi) + SetBlocks(u, b, at + |Blocks(a)|, lo, hi)
  {
    BlocksUnfold(a);
    SetBlocksHead(u, a, b, at, lo, hi);
    SetBlocksUnfold(u, a, at, lo, hi);
  }

  lemma SetBlocksHead(u: Update, a: Doc, b: Doc, at: int, lo: nat, hi: nat)
    requires a != []
    ensures SetBlocks(u, a + b, at, lo, hi) == [ApplyTop(u, a[0], at, lo, hi)] + SetBlocks(u, a[1..] + b, at + Width(a[0]), lo, hi)
  {
    assert a + b == [a[0]] + (a[1..] + b);
    SetBlocksCons(u, a[0], a[1..] + b, at, lo, hi);
  }

  lemma SetBlocksUnfold(u: Update, doc: Doc, at: int, lo: nat, hi: nat)
    requires doc != []
    ensures SetBlocks(u, doc, at, lo, hi) == [ApplyTop(u, doc[0], at, lo, hi)] + SetBlocks(u, doc[1..], at + Width(doc[0]), lo, hi)
  {
  }

  /** On a run of blocks, setNodes is the update applied block by block. */
  lemma {:induction false} SetBlocksFlat(u: Update, m: seq<Node>, at: int, lo: nat, hi: nat)
    requires Flat(m)
    ensures SetBlocks(u, m, at, lo, hi) == ApplyRun(u, m, at, lo, hi)
    decreases |m|
  {
    if m != [] {
      SetBlocksFlat(u, m[1..], at + 1, lo, hi);
      SetBlocksUnfold(u, m, at, lo, hi);
      ApplyRunUnfold(u, m, at, lo, hi);
    }
  }

  lemma ApplyRunUnfold(u: Update, m: seq<Node>, at: int, lo: nat, hi: nat)
    requires m != []
    ensures ApplyRun(u, m, at, lo, hi) == [if lo <= at < hi then Apply(u, m[0]) else m[0]] + ApplyRun(u, m[1..], at + 1, lo, hi)
  {
    assert ApplyRun(u, m, at, lo, hi)[1..] == ApplyRun(u, m[1..], at + 1, lo, hi);
  }

  /** After unwrapping, setNodes changes exactly the selected run and keeps both sides. */
  lemma SetBlocksLifted(u: Update, doc: Doc, lo: nat, hi: nat)
    requires WellFormed(doc) && lo < hi <= |Blocks(doc)| && Lifted(doc, lo, hi)
    ensures SetBlocks(u, doc, 0, lo, hi)
         == Prefix(doc, lo) + ApplyRun(u, Blocks(doc)[lo..hi], lo, lo, hi) + Suffix(doc, hi)
  {
    PrefixBlocks(doc, lo);
    FlatRun(doc, lo, hi);
    SetBlocksReassemble(u, Prefix(doc, lo), Blocks(doc)[lo..hi], Suffix(doc, hi), lo, hi);
  }

  lemma SetBlocksReassemble(u: Update, p: Doc, m: seq<Node>, s: Doc, lo: nat, hi: nat)
    requires |Blocks(p)| == lo && Flat(m) && |m| == hi - lo
    ensures SetBlocks(u, p + m + s, 0, lo, hi) == p + ApplyRun(u, m, lo, lo, hi) + s
  {
    SetBlocks3(u, p, m, s, lo, hi);
    SetBlocksOutside(u, p, 0, lo, hi);
    SetBlocksFlat(u, m, lo, lo, hi);
    SetBlocksOutside(u, s, hi, lo, hi);
  }

  lemma SetBlocks3(u: Update, p: Doc, m: seq<Node>, s: Doc, lo: nat, hi: nat)
    requires |Blocks(p)| == lo && Flat(m) && |m| == hi - lo
    ensures SetBlocks(u, p + m + s, 0, lo, hi) == SetBlocks(u, p, 0, lo, hi) + SetBlocks(u, m, lo, lo, hi) + SetBlocks(u, s, hi, lo, hi)
  {
    BlocksAppendFlat(p, m);
    SetBlocksAppendAt(u, p, m, 0, lo, lo, hi);
    SetBlocksAppendAt(u, p + m, s, 0, hi, lo, hi);
  }

  lemma SetBlocksAppendAt(u: Update, a: Doc, b: Doc, at: int, mid: int, lo: nat, hi: nat)
    requires mid == at + |Blocks(a)|
    ensures SetBlocks(u, a + b, at, lo, hi) == SetBlocks(u, a, at, lo, hi) + SetBlocks(u, b, mid, lo, hi)
  {
    SetBlocksAppend(u, a, b, at, lo, hi);
  }

  lemma BlocksAppendFlat(p: Doc, m: seq<Node>)
    requires Flat(m)
    ensures |Blocks(p + m)| == |Blocks(p)| + |m|
  {
    BlocksAppend(p, m);
    FlatBlocks(m);
  }

  /**
   * `wrapNodes` on the selected list items of an unwrapped document: every
   * top-level node from the first to the last selected one moves into one
   * new list of kind `lk`, which carries no alignment.
   */
  function Wrap(doc: Doc, lo: nat, hi: nat, lk: Kind): (r: Doc)
    requires lo <= hi <= |Blocks(doc)| && Lifted(doc, lo, hi)
  {
    if lo == hi then doc
    else Prefix(doc, lo) + [Element(lk, None, Blocks(doc)[lo..hi])] + Suffix(doc, hi)
  }

  /** The items of a run whose first item has index `at` that fall in the selection. */
  function SelectedItems(items: seq<Node>, at: int, lo: nat, hi: nat): seq<Node>
    decreases |items|
  {
    if items == [] then []
    else (if lo <= at < hi then [items[0]] else []) + SelectedItems(items[1..], at + 1, lo, hi)
  }

  lemma {:induction false} SelectedItemsNone(items: seq<Node>, at: int, lo: nat, hi: nat)
    requires at + |items| <= lo || hi <= at
    ensures SelectedItems(items, at, lo, hi) == []
    decreases |items|
  {
    if items != [] { SelectedItemsNone(items[1..], at + 1, lo, hi); }
  }

  lemma {:induction false} SelectedItemsAll(items: seq<Node>, at: int, lo: nat, hi: nat)
    requires lo <= at && at + |items| <= hi
    ensures SelectedItems(items, at, lo, hi) == items
    decreases |items|
  {
    if items != [] {
      SelectedItemsAll(items[1..], at + 1, lo, hi);
      assert items == [items[0]] + items[1..];
    }
  }

  /** Selecting from a whole run starting at index 0 is slicing it. */
  lemma {:induction false} SelectedItemsRange(items: seq<Node>, at: int, lo: nat, hi: nat)
    requires at <= lo <= hi <= at + |items|
    ensures SelectedItems(items, at, lo, hi) == items[lo - at..hi - at]
    decreases |items|
  {
    if items != [] {
      if at == lo {
        if lo == hi {
          SelectedItemsNone(items, at, lo, hi);
        } else {
          SelectedItemsRange(items[1..], at + 1, lo + 1, hi);
          SelectedItemsShift(items[1..], at + 1, lo, lo + 1, hi);
          assert items[0..hi - at] == [items[0]] + items[1..][0..hi - at - 1];
        }
      } else {
        SelectedItemsRange(items[1..], at + 1, lo, hi);
        SliceOfTail(items, lo - at, hi - at);
      }
    }
  }

  /** A slice of the tail is the slice one place further on. */
  lemma SliceOfTail(items: seq<Node>, a: int, b: int)
    requires 1 <= a <= b <= |items|
    ensures items[a..b] == items[1..][a - 1..b - 1]
  {
    forall i | 0 <= i < b - a
      ensures items[a..b][i] == items[1..][a - 1..b - 1][i]
    {
      assert items[1..][a - 1..b - 1][i] == items[1..][a - 1 + i];
    }
  }

  /** Where the selection starts below the run does not matter. */
  lemma {:induction false} SelectedItemsShift(items: seq<Node>, at: int, lo: nat, lo': nat, hi: nat)
    requires lo <= at && lo' <= at
    ensures SelectedItems(items, at, lo, hi) == SelectedItems(items, at, lo', hi)
    decreases |items|
  {
    if items != [] { SelectedItemsShift(items[1..], at + 1, lo, lo', hi); }
  }

  lemma {:induction false} SelectedItemsAppend(x: seq<Node>, y: seq<Node>, at: int, lo: nat, hi: nat)
    ensures SelectedItems(x + y, at, lo, hi) == SelectedItems(x, at, lo, hi) + SelectedItems(y, at + |x|, lo, hi)
    decreases |x|
  {
    if x == [] {
      assert x + y == y;
    } else {
      var h := if lo <= at < hi then [x[0]] else [];
      assert (x + y)[0] == x[0] && (x + y)[1..] == x[1..] + y;
      assert SelectedItems(x + y, at, lo, hi) == h + SelectedItems(x[1..] + y, at + 1, lo, hi);
      SelectedItemsAppend(x[1..], y, at + 1, lo, hi);
      assert SelectedItems(x, at, lo, hi) == h + SelectedItems(x[1..], at + 1, lo, hi);
    }
  }

  lemma {:induction false} SelectedItemsKeepItems(items: seq<Node>, at: int, lo: nat, hi: nat)
    requires AllItems(items)
    ensures AllItems(SelectedItems(items, at, lo, hi))
    decreases |items|
  {
    if items != [] {
      SelectedItemsKeepItems(items[1..], at + 1, lo, hi);
      ItemsAppendOne(if lo <= at < hi then [items[0]] else [], SelectedItems(items[1..], at + 1, lo, hi));
    }
  }

  lemma ItemsAppendOne(a: seq<Node>, b: seq<Node>)
    requires |a| <= 1 && AllItems(a) && AllItems(b)
    ensures AllItems(a + b)
  {
    if a != [] {
      assert a == [a[0]];
      var c := a + b;
      assert c[0] == a[0] && c[1..] == b;
      assert IsTextBlock(c[0]) && c[0].kind == ListItem;
    } else {
      assert a + b == b;
    }
  }

  function TouchedTop(n: Node, at: int, lo: nat, hi: nat): seq<Node>
  {
    if IsList(n) then
      var items := SelectedItems(n.children, at, lo, hi);
      if items == [] then [] else [n] + items
    else if lo <= at < hi then [n] else []
  }

  /**
   * The elements the selection touches, in document order, each list before
   * its items: what `Editor.nodes` yields for element matches.
   */
  function Touched(doc: Doc, at: int, lo: nat, hi: nat): seq<Node>
    decreases |doc|
  {
    if doc == [] then [] else TouchedTop(doc[0], at, lo, hi) + Touched(doc[1..], at + Width(doc[0]), lo, hi)
  }

  lemma {:induction false} TouchedOutside(doc: Doc, at: int, lo: nat, hi: nat)
    requires at + |Blocks(doc)| <= lo || hi <= at
    ensures Touched(doc, at, lo, hi) == []
    decreases |doc|
  {
    if doc != [] {
      BlocksUnfold(doc);
      TouchedOutside(doc[1..], at + Width(doc[0]), lo, hi);
      if IsList(doc[0]) {
        SelectedItemsNone(doc[0].children, at, lo, hi);
      }
    }
  }

  /** A run of blocks lying inside the selection touches exactly those blocks. */
  lemma {:induction false} TouchedFlat(m: seq<Node>, at: int, lo: nat, hi: nat)
    requires Flat(m) && lo <= at && at + |m| <= hi
    ensures Touched(m, at, lo, hi) == m
  {
    if m != [] {
      TouchedFlat(m[1..], at + 1, lo, hi);
      assert m == [m[0]] + m[1..];
    }
  }

  /** In an unwrapped document the selection touches exactly the selected blocks. */
  lemma TouchedLifted(doc: Doc, lo: nat, hi: nat)
    requires WellFormed(doc) && lo < hi <= |Blocks(doc)| && Lifted(doc, lo, hi)
    ensures Touched(doc, 0, lo, hi) == Blocks(doc)[lo..hi]
  {
    var bs := Blocks(doc);
    var p, m, s := Prefix(doc, lo), bs[lo..hi], Suffix(doc, hi);
    assert |Blocks(p)| == lo by { PrefixBlocks(doc, lo); }
    assert Flat(m) by {
      BlocksAreTextBlocks(doc);
      FlatSlice(bs, lo, hi);
    }
    TouchedReassemble(p, m, s, lo, hi);
  }

  lemma TouchedReassemble(p: Doc, m: seq<Node>, s: Doc, lo: nat, hi: nat)
    requires |Blocks(p)| == lo && Flat(m) && |m| == hi - lo
    ensures Touched(p + m + s, 0, lo, hi) == m
  {
    FlatBlocks(m);
    TouchedMiddle(p, m, s, lo, hi);
    TouchedFlat(m, lo, lo, hi);
  }


  lemma TouchedConsAt(t: Node, rest: Doc, at: int, mid: int, lo: nat, hi: nat)
    requires mid == at + Width(t)
    ensures Touched([t] + rest, at, lo, hi) == TouchedTop(t, at, lo, hi) + Touched(rest, mid, lo, hi)
  {
    assert ([t] + rest)[0] == t && ([t] + rest)[1..] == rest;
  }

  /** What a concatenation touches is what each part touches, the second part's positions counted after the first's blocks. */
  lemma {:induction false} TouchedAppendAt(a: Doc, b: Doc, at: int, mid: int, lo: nat, hi: nat)
    requires mid == at + |Blocks(a)|
    ensures Touched(a + b, at, lo, hi) == Touched(a, at, lo, hi) + Touched(b, mid, lo, hi)
    decreases |a|
  {
    if a == [] {
      assert a + b == b;
    } else {
      var t, r := a[0], a[1..];
      var w := at + Width(t);
      BlocksUnfold(a);
      TouchedAppendAt(r, b, w, mid, lo, hi);
      HeadTail(a, b);
      TouchedConsAt(t, r, at, w, lo, hi);
      TouchedConsAt(t, r + b, at, w, lo, hi);
      AppendAssoc(TouchedTop(t, at, lo, hi), Touched(r, w, lo, hi), Touched(b, mid, lo, hi));
    }
  }

  /** The blocks among a sequence of elements (lists left out), in order. */
  function NonLists(xs: seq<Node>): seq<Node>
  {
    if xs == [] then [] else (if IsList(xs[0]) then [] else [xs[0]]) + NonLists(xs[1..])
  }

  lemma {:induction false} NonListsAppend(x: seq<Node>, y: seq<Node>)
    ensures NonLists(x + y) == NonLists(x) + NonLists(y)
  {
    if x == [] {
      assert x + y == y;
    } else {
      assert (x + y)[0] == x[0] && (x + y)[1..] == x[1..] + y;
      NonListsAppend(x[1..], y);
    }
  }

  lemma {:induction false} NonListsFlat(m: seq<Node>)
    requires Flat(m)
    ensures NonLists(m) == m
  {
    if m != [] { NonListsFlat(m[1..]); }
  }

  lemma SelectedItemsSplit(z: seq<Node>, x: seq<Node>, y: seq<Node>, at: int, lo: nat, hi: nat)
    requires lo <= hi && z == x + y
    ensures SelectedItems(z, at, lo, hi) == SelectedItems(x, at, lo, hi) + SelectedItems(y, at + |x|, lo, hi)
  {
    SelectedItemsAppend(x, y, at, lo, hi);
  }

  /** The blocks among the touched elements are exactly the selected blocks. */
  lemma {:induction false} TouchedBlocks(doc: Doc, at: int, lo: nat, hi: nat)
    requires WellFormed(doc) && lo <= hi
    ensures NonLists(Touched(doc, at, lo, hi)) == SelectedItems(Blocks(doc), at, lo, hi)
    decreases |doc|
  {
    if doc != [] {
      WellFormedSlices(doc);
      TouchedBlocks(doc[1..], at + Width(doc[0]), lo, hi);
      TouchedBlocksStep(doc, at, lo, hi);
    }
  }

  lemma TouchedBlocksStep(doc: Doc, at: int, lo: nat, hi: nat)
    requires doc != [] && (IsTextBlock(doc[0]) || IsListBlock(doc[0])) && lo <= hi
    requires NonLists(Touched(doc[1..], at + Width(doc[0]), lo, hi)) == SelectedItems(Blocks(doc[1..]), at + Width(doc[0]), lo, hi)
    ensures NonLists(Touched(doc, at, lo, hi)) == SelectedItems(Blocks(doc), at, lo, hi)
  {
    TouchedUnfold(doc, at, lo, hi);
    TouchedTopBlocks(doc[0], at, lo, hi);
    SelectedBlocksUnfold(doc, at, lo, hi);
  }

  lemma TouchedUnfold(doc: Doc, at: int, lo: nat, hi: nat)
    requires doc != []
    ensures NonLists(Touched(doc, at, lo, hi))
         == NonLists(TouchedTop(doc[0], at, lo, hi)) + NonLists(Touched(doc[1..], at + Width(doc[0]), lo, hi))
  {
    NonListsAppend(TouchedTop(doc[0], at, lo, hi), Touched(doc[1..], at + Width(doc[0]), lo, hi));
  }

  lemma SelectedBlocksUnfold(doc: Doc, at: int, lo: nat, hi: nat)
    requires doc != [] && lo <= hi
    ensures SelectedItems(Blocks(doc), at, lo, hi)
         == SelectedItems(Expand(doc[0]), at, lo, hi) + SelectedItems(Blocks(doc[1..]), at + Width(doc[0]), lo, hi)
  {
    var x, y := Expand(doc[0]), Blocks(doc[1..]);
    assert Blocks(doc) == x + y by { BlocksUnfold(doc); }
    assert |x| == Width(doc[0]);
    SelectedItemsSplit(Blocks(doc), x, y, at, lo, hi);
  }

  lemma TouchedTopBlocks(e: Node, at: int, lo: nat, hi: nat)
    requires IsTextBlock(e) || IsListBlock(e)
    ensures NonLists(TouchedTop(e, at, lo, hi)) == SelectedItems(Expand(e), at, lo, hi)
  {
    if IsList(e) {
      var items := SelectedItems(e.children, at, lo, hi);
      if items != [] {
        SelectedItemsKeepItems(e.children, at, lo, hi);
        ItemsFlat(items);
        NonListsFlat(items);
        NonListsAppend([e], items);
      }
    }
  }

  /** The update applied to every block of a run. */
  function ApplyAll(u: Update, bs: seq<Node>): (r: seq<Node>)
    ensures |r| == |bs|
  {
    seq(|bs|, i requires 0 <= i < |bs| => Apply(u, bs[i]))
  }

  lemma ApplyRunAll(u: Update, bs: seq<Node>, lo: nat, hi: nat)
    requires |bs| == hi - lo
    ensures ApplyRun(u, bs, lo, lo, hi) == ApplyAll(u, bs)
  {
  }

  lemma ApplyAllFlat(u: Update, bs: seq<Node>)
    requires Sound(u) && Flat(bs)
    ensures Flat(ApplyAll(u, bs))
  {
    FlatIff(bs);
    FlatIff(ApplyAll(u, bs));
  }

  lemma RetypeItems(bs: seq<Node>)
    requires Flat(bs)
    ensures AllItems(ApplyAll(Retype(ListItem), bs))
  {
    FlatIff(bs);
    AllItemsIff(ApplyAll(Retype(ListItem), bs));
  }

  /** A document put together from a prefix, a run of top-level blocks and a suffix is unwrapped at the run. */
  lemma LiftedFlat(p: Doc, m: seq<Node>, s: Doc, lo: nat, hi: nat)
    requires WellFormed(p) && Flat(m) && WellFormed(s) && |Blocks(p)| == lo && |m| == hi - lo && lo < hi
    ensures var r := p + m + s;
      WellFormed(r) && hi <= |Blocks(r)| && Prefix(r, lo) == p && Suffix(r, hi) == s
      && Blocks(r)[lo..hi] == m && Lifted(r, lo, hi)
  {
    FlatBlocks(m);
    Reassemble(p, m, s, lo, hi);
  }

  /** A document with one list between a prefix and a suffix; the selection covers the list exactly. */
  lemma WrappedShape(p: Doc, lk: Kind, items: seq<Node>, s: Doc, lo: nat, hi: nat)
    requires WellFormed(p) && WellFormed(s) && IsListKind(lk) && AllItems(items)
    requires |Blocks(p)| == lo && |items| == hi - lo && lo < hi
    ensures var l := Element(lk, None, items); var r := p + [l] + s;
      WellFormed(r) && hi <= |Blocks(r)| && Prefix(r, lo) == p && Suffix(r, hi) == s
      && Blocks(r)[lo..hi] == items && Touched(r, 0, lo, hi) == [l] + items
  {
    var l := Element(lk, None, items);
    SingleList(l);
    Reassemble(p, [l], s, lo, hi);
    TouchedList(p, l, s, lo, hi);
  }

  lemma SingleList(l: Node)
    requires IsListBlock(l)
    ensures WellFormed([l]) && Blocks([l]) == l.children
  {
    assert [l][1..] == [];
  }

  lemma TouchedList(p: Doc, l: Node, s: Doc, lo: nat, hi: nat)
    requires IsList(l) && |Blocks(p)| == lo && |l.children| == hi - lo && lo < hi
    ensures Touched(p + [l] + s, 0, lo, hi) == [l] + l.children
  {
    assert Blocks([l]) == l.children by { assert [l][1..] == []; }
    TouchedMiddle(p, [l], s, lo, hi);
    TouchedSingleList(l, lo, hi);
  }

  /** What lies before and after a run of blocks makes no difference to what the run touches. */
  lemma TouchedMiddle(p: Doc, m: Doc, s: Doc, lo: nat, hi: nat)
    requires |Blocks(p)| == lo && lo + |Blocks(m)| == hi
    ensures Touched(p + m + s, 0, lo, hi) == Touched(m, lo, lo, hi)
  {
    BlocksAppend(p, m);
    TouchedAppendAt(p, m, 0, lo, lo, hi);
    TouchedAppendAt(p + m, s, 0, hi, lo, hi);
    TouchedOutside(p, 0, lo, hi);
    TouchedOutside(s, hi, lo, hi);
  }

  /** A list whose items are exactly the selection is touched along with all of them. */
  lemma TouchedSingleList(l: Node, lo: nat, hi: nat)
    requires IsList(l) && |l.children| == hi - lo && lo < hi
    ensures Touched([l], lo, lo, hi) == [l] + l.children
  {
    assert [l][1..] == [];
    SelectedItemsAll(l.children, lo, lo, hi);
  }

  /** Two property updates that cancel on every selected block cancel on the document. */
  lemma {:induction false} SetBlocksTwice(u1: Update, u2: Update, doc: Doc, at: int, lo: nat, hi: nat)
    requires !u1.Retype?
    requires ApplyRun(u2, ApplyRun(u1, Blocks(doc), at, lo, hi), at, lo, hi) == Blocks(doc)
    ensures SetBlocks(u2, SetBlocks(u1, doc, at, lo, hi), at, lo, hi) == doc
    decreases |doc|
  {
    if doc != [] {
      BlocksUnfold(doc);
      TwiceSplit(u1, u2, Expand(doc[0]), Blocks(doc[1..]), at, lo, hi);
      SetBlocksTwice(u1, u2, doc[1..], at + Width(doc[0]), lo, hi);
      SetBlocksTwiceStep(u1, u2, doc, at, lo, hi);
    }
  }

  lemma SetBlocksTwiceStep(u1: Update, u2: Update, doc: Doc, at: int, lo: nat, hi: nat)
    requires !u1.Retype? && doc != []
    requires ApplyRun(u2, ApplyRun(u1, Expand(doc[0]), at, lo, hi), at, lo, hi) == Expand(doc[0])
    requires SetBlocks(u2, SetBlocks(u1, doc[1..], at + Width(doc[0]), lo, hi), at + Width(doc[0]), lo, hi) == doc[1..]
    ensures SetBlocks(u2, SetBlocks(u1, doc, at, lo, hi), at, lo, hi) == doc
  {
    var e, rest := doc[0], doc[1..];
    ApplyTopTwice(u1, u2, e, at, lo, hi);
    SetBlocksUnfold(u1, doc, at, lo, hi);
    SetBlocksCons(u2, ApplyTop(u1, e, at, lo, hi), SetBlocks(u1, rest, at + Width(e), lo, hi), at, lo, hi);
    assert doc == [e] + rest;
  }

  lemma SetBlocksCons(u: Update, t: Node, rest: Doc, at: int, lo: nat, hi: nat)
    ensures SetBlocks(u, [t] + rest, at, lo, hi) == [ApplyTop(u, t, at, lo, hi)] + SetBlocks(u, rest, at + Width(t), lo, hi)
  {
    assert ([t] + rest)[0] == t && ([t] + rest)[1..] == rest;
  }

  lemma TwiceSplit(u1: Update, u2: Update, x: seq<Node>, y: seq<Node>, at: int, lo: nat, hi: nat)
    requires ApplyRun(u2, ApplyRun(u1, x + y, at, lo, hi), at, lo, hi) == x + y
    ensures ApplyRun(u2, ApplyRun(u1, x, at, lo, hi), at, lo, hi) == x
    ensures ApplyRun(u2, ApplyRun(u1, y, at + |x|, lo, hi), at + |x|, lo, hi) == y
  {
    ApplyRunAppend(u1, x, y, at, lo, hi);
    ApplyRunAppend(u2, ApplyRun(u1, x, at, lo, hi), ApplyRun(u1, y, at + |x|, lo, hi), at, lo, hi);
    var a := ApplyRun(u2, ApplyRun(u1, x, at, lo, hi), at, lo, hi);
    var b := ApplyRun(u2, ApplyRun(u1, y, at + |x|, lo, hi), at + |x|, lo, hi);
    assert a + b == x + y;
    assert a == (a + b)[..|x|] && x == (x + y)[..|x|];
    assert b == (a + b)[|x|..] && y == (x + y)[|x|..];
  }

  lemma ApplyTopTwice(u1: Update, u2: Update, e: Node, at: int, lo: nat, hi: nat)
    requires !u1.Retype?
    requires ApplyRun(u2, ApplyRun(u1, Expand(e), at, lo, hi), at, lo, hi) == Expand(e)
    ensures Width(ApplyTop(u1, e, at, lo, hi)) == Width(e)
    ensures ApplyTop(u2, ApplyTop(u1, e, at, lo, hi), at, lo, hi) == e
  {
    if !IsList(e) {
      var t := ApplyTop(u1, e, at, lo, hi);
      assert ApplyRun(u1, [e], at, lo, hi) == [t];
      assert ApplyRun(u2, [t], at, lo, hi)[0] == ApplyTop(u2, t, at, lo, hi);
    }
  }
}
