/** Tag lists with text offsets: taking a document apart into text and tags, and putting it together again. */
module TagStreams {
  import opened Seqs
  import opened HtmlTree

  /** An end tag names no element; it closes the innermost open one. */
  datatype Tag = Start(node: Label, pos: nat) | End(pos: nat)

  function TokenOf(t: Tag): Token { if t.Start? then Open(t.node) else Close }

  /** Offsets in order, between `from` and `limit`. */
  predicate Sorted(tags: seq<Tag>, from: nat, limit: nat)
  {
    from <= limit && (tags != [] ==> from <= tags[0].pos <= limit && Sorted(tags[1..], tags[0].pos, limit))
  }

  /** Every end tag closes something, and at the end nothing is open. */
  predicate Balanced(tags: seq<Tag>, depth: nat)
  {
    if tags == [] then depth == 0
    else if tags[0].Start? then Balanced(tags[1..], depth + 1)
    else depth > 0 && Balanced(tags[1..], depth - 1)
  }

  /** The markup that a tag list and a text denote, `pos` being the offset of the first character: a tag stands
      before the character at its offset. */
  function Weave(tags: seq<Tag>, text: string, pos: nat): seq<Token>
    decreases |tags| + |text|
  {
    if tags != [] && tags[0].pos <= pos then [TokenOf(tags[0])] + Weave(tags[1..], text, pos)
    else if text != "" then [Char(text[0])] + Weave(tags, text[1..], pos + 1)
    else []
  }

  lemma {:induction false} WeaveText(text: string, pos: nat)
    ensures Weave([], text, pos) == Chars(text)
  {
    if text != "" {
      WeaveText(text[1..], pos + 1);
      CharsCons(text);
    }
  }

  lemma {:induction false} SortedConcat(a: seq<Tag>, b: seq<Tag>, pos: nat, mid: nat, end: nat)
    requires Sorted(a, pos, mid) && Sorted(b, mid, end)
    ensures Sorted(a + b, pos, end)
  {
    if a == [] {
      Unit(b);
    } else {
      SortedConcat(a[1..], b, a[0].pos, mid, end);
      assert (a + b)[1..] == a[1..] + b;
    }
  }

  /** Two documents one after the other. */
  lemma {:induction false} WeaveConcat(a: seq<Tag>, s: string, b: seq<Tag>, t: string, pos: nat)
    requires Sorted(a, pos, pos + |s|) && (b != [] ==> pos + |s| <= b[0].pos)
    ensures Weave(a + b, s + t, pos) == Weave(a, s, pos) + Weave(b, t, pos + |s|)
    decreases |a| + |s|
  {
    if a != [] && a[0].pos <= pos {
      TailOfConcat(a, b);
      WeaveConcat(a[1..], s, b, t, pos);
      Assoc([TokenOf(a[0])], Weave(a[1..], s, pos), Weave(b, t, pos + |s|));
    } else if s != "" {
      TailOfConcat(s, t);
      WeaveConcat(a, s[1..], b, t, pos + 1);
      Assoc([Char(s[0])], Weave(a, s[1..], pos + 1), Weave(b, t, pos + |s|));
    } else {
      Unit(b);
      Unit(t);
      Unit(Weave(b, t, pos));
    }
  }

  lemma TailOfConcat<T>(a: seq<T>, b: seq<T>)
    requires a != []
    ensures (a + b)[0] == a[0] && (a + b)[1..] == a[1..] + b
  {
  }

  // ---- Taking a document apart

  /** `nodeName.toLowerCase() === 'br'`. */
  predicate IsBreak(l: Label)
  {
    l.Own? && |l.name| == 2 && (l.name[0] == 'b' || l.name[0] == 'B') && (l.name[1] == 'r' || l.name[1] == 'R')
  }

  /** The text of a document; a line break element counts as the character `eol`. */
  function TextOf(f: seq<Node>, eol: char): string
    decreases f
  {
    if f == [] then ""
    else
      (match f[0]
       case Element(l, kids) => if IsBreak(l) then [eol] else TextOf(kids, eol)
       case Text(s) => s
       case Comment => "") + TextOf(f[1..], eol)
  }

  function TagsOf(f: seq<Node>, eol: char, pos: nat): seq<Tag>
    decreases f
  {
    if f == [] then []
    else match f[0]
      case Element(l, kids) =>
        if IsBreak(l) then TagsOf(f[1..], eol, pos + 1)
        else
          var end := pos + |TextOf(kids, eol)|;
          [Start(l, pos)] + (TagsOf(kids, eol, pos) + ([End(end)] + TagsOf(f[1..], eol, end)))
      case Text(s) => TagsOf(f[1..], eol, pos + |s|)
      case Comment => TagsOf(f[1..], eol, pos)
  }

  /** The document that text and tags stand for: line breaks become characters and comments are lost. */
  function Plain(f: seq<Node>, eol: char): seq<Node>
    decreases f
  {
    if f == [] then []
    else
      (match f[0]
       case Element(l, kids) => if IsBreak(l) then [Text([eol])] else [Element(l, Plain(kids, eol))]
       case Text(s) => [f[0]]
       case Comment => []) + Plain(f[1..], eol)
  }

  // ---- What is lost

  predicate HasBreak(f: seq<Node>)
    decreases f
  {
    f != [] && ((f[0].Element? && (IsBreak(f[0].tag) || HasBreak(f[0].kids))) || HasBreak(f[1..]))
  }

  /** How many elements there are. */
  function Elements(f: seq<Node>): nat
    decreases f
  {
    if f == [] then 0 else (if f[0].Element? then 1 + Elements(f[0].kids) else 0) + Elements(f[1..])
  }

  lemma ElementsCons(n: Node, f: seq<Node>)
    ensures Elements([n] + f) == (if n.Element? then 1 + Elements(n.kids) else 0) + Elements(f)
  {
    assert ([n] + f)[1..] == f;
  }

  lemma {:induction false} JoinedElements(f: seq<Node>)
    ensures Elements(Joined(f)) == Elements(f)
    decreases f
  {
    if f != [] {
      var rest := Joined(f[1..]);
      JoinedElements(f[1..]);
      match f[0]
      case Element(l, kids) =>
        JoinedElements(kids);
        ElementsCons(Element(l, Joined(kids)), rest);
      case Text(s) =>
        ElementsCons(Text(s), rest);
        if rest != [] { ElementsCons(Text(s + if rest[0].Text? then rest[0].data else ""), rest[1..]); }
      case Comment =>
    }
  }

  lemma {:induction false} PlainElements(f: seq<Node>, eol: char)
    ensures Elements(Plain(f, eol)) <= Elements(f)
    ensures HasBreak(f) ==> Elements(Plain(f, eol)) < Elements(f)
    decreases f
  {
    if f != [] {
      var rest := Plain(f[1..], eol);
      PlainElements(f[1..], eol);
      match f[0]
      case Element(l, kids) =>
        PlainElements(kids, eol);
        ElementsCons(Text([eol]), rest);
        ElementsCons(Element(l, Plain(kids, eol)), rest);
      case Text(s) => ElementsCons(f[0], rest);
      case Comment => Unit(rest);
    }
  }

  lemma {:induction false} PlainWithoutBreaks(f: seq<Node>, eol: char)
    requires !HasBreak(f)
    ensures Joined(Plain(f, eol)) == Joined(f)
    decreases f
  {
    if f != [] {
      var rest := Plain(f[1..], eol);
      PlainWithoutBreaks(f[1..], eol);
      match f[0]
      case Element(l, kids) =>
        PlainWithoutBreaks(kids, eol);
        assert ([Element(l, Plain(kids, eol))] + rest)[1..] == rest;
      case Text(s) => assert ([f[0]] + rest)[1..] == rest;
      case Comment => Unit(rest);
    }
  }

  /** Text and tags stand for the document, up to joining text and dropping comments, if and only if it has no line
      break elements. */
  lemma PlainExactly(f: seq<Node>, eol: char)
    ensures Joined(Plain(f, eol)) == Joined(f) <==> !HasBreak(f)
  {
    if HasBreak(f) {
      PlainElements(f, eol);
      JoinedElements(f);
      JoinedElements(Plain(f, eol));
    } else {
      PlainWithoutBreaks(f, eol);
    }
  }

  /** One line break element becomes a character. */
  lemma BreakIsLost(eol: char)
    ensures var f := [Element(Own("br"), [])];
            Joined(f) == f && Joined(Plain(f, eol)) == [Text([eol])] != Joined(f)
  {
    var f := [Element(Own("br"), [])];
    assert f[1..] == [] && Plain(f, eol) == [Text([eol])];
    assert [Text([eol])][1..] == [];
  }

  lemma NodeTagsSorted(n: Node, eol: char, pos: nat)
    requires n.Element? && !IsBreak(n.tag) ==> Sorted(TagsOf(n.kids, eol, pos), pos, pos + |TextOf(n.kids, eol)|)
    ensures Sorted(NodeTags(n, eol, pos), pos, pos + |NodeText(n, eol)|)
  {
    if n.Element? && !IsBreak(n.tag) {
      var end := pos + |TextOf(n.kids, eol)|;
      SortedConcat([Start(n.tag, pos)], TagsOf(n.kids, eol, pos), pos, pos, end);
      SortedConcat([Start(n.tag, pos)] + TagsOf(n.kids, eol, pos), [End(end)], pos, end, end);
    }
  }

  /** Tags, text and tokens that belong together, for a node or for several. */
  datatype Piece = Piece(tags: seq<Tag>, text: string, markup: seq<Token>)

  function NodePiece(n: Node, eol: char, pos: nat): Piece
  {
    Piece(NodeTags(n, eol, pos), NodeText(n, eol), NodeMarkup(n, eol))
  }

  function ForestPiece(f: seq<Node>, eol: char, pos: nat): Piece
  {
    Piece(TagsOf(f, eol, pos), TextOf(f, eol), Markup(Plain(f, eol)))
  }

  /** The tags are in order, and text and tags denote the tokens. */
  datatype Half = Order | Meaning

  ghost predicate HalfHolds(k: Half, p: Piece, pos: nat)
  {
    match k
    case Order => Sorted(p.tags, pos, pos + |p.text|)
    case Meaning => Weave(p.tags, p.text, pos) == p.markup
  }

  ghost predicate Woven(p: Piece, pos: nat) { forall k :: HalfHolds(k, p, pos) }

  lemma WovenMeans(p: Piece, pos: nat)
    requires Woven(p, pos)
    ensures Sorted(p.tags, pos, pos + |p.text|) && Weave(p.tags, p.text, pos) == p.markup
  {
    assert HalfHolds(Order, p, pos) && HalfHolds(Meaning, p, pos);
  }

  lemma JoinedPieces(p: Piece, pos: nat, a: Piece, b: Piece)
    requires Woven(a, pos) && Woven(b, pos + |a.text|)
    requires p == Piece(a.tags + b.tags, a.text + b.text, a.markup + b.markup)
    ensures Woven(p, pos)
  {
    WovenMeans(a, pos);
    WovenMeans(b, pos + |a.text|);
    WeaveConcat(a.tags, a.text, b.tags, b.text, pos);
    SortedConcat(a.tags, b.tags, pos, pos + |a.text|, pos + |a.text| + |b.text|);
  }

  lemma PieceCons(f: seq<Node>, eol: char, pos: nat, a: Piece, b: Piece)
    requires f != [] && a == NodePiece(f[0], eol, pos) && b == ForestPiece(f[1..], eol, pos + |a.text|)
    ensures ForestPiece(f, eol, pos) == Piece(a.tags + b.tags, a.text + b.text, a.markup + b.markup)
  {
    assert TagsOf(f, eol, pos) == a.tags + b.tags && TextOf(f, eol) == a.text + b.text by { TagsOfCons(f, eol, pos); }
    assert Markup(Plain(f, eol)) == a.markup + b.markup by { PlainCons(f, eol); }
  }

  lemma WovenNode(n: Node, eol: char, pos: nat)
    requires n.Element? && !IsBreak(n.tag) ==> Woven(ForestPiece(n.kids, eol, pos), pos)
    ensures Woven(NodePiece(n, eol, pos), pos)
  {
    if n.Element? && !IsBreak(n.tag) {
      WovenMeans(ForestPiece(n.kids, eol, pos), pos);
      WeaveElement(Start(n.tag, pos), TagsOf(n.kids, eol, pos), TextOf(n.kids, eol), End(pos + |TextOf(n.kids, eol)|));
    } else {
      WeaveText(NodeText(n, eol), pos);
    }
    NodeTagsSorted(n, eol, pos);
  }

  lemma {:induction false} WovenForest(f: seq<Node>, eol: char, pos: nat)
    ensures Woven(ForestPiece(f, eol, pos), pos)
    decreases f
  {
    if f != [] {
      var a := NodePiece(f[0], eol, pos);
      var b := ForestPiece(f[1..], eol, pos + |a.text|);
      if f[0].Element? && !IsBreak(f[0].tag) {
        WovenForest(f[0].kids, eol, pos);
      }
      WovenNode(f[0], eol, pos);
      WovenForest(f[1..], eol, pos + |a.text|);
      PieceCons(f, eol, pos, a, b);
      JoinedPieces(ForestPiece(f, eol, pos), pos, a, b);
    }
  }

  /** The tags of a document are in order. */
  lemma ExtractedSorted(f: seq<Node>, eol: char, pos: nat)
    ensures Sorted(TagsOf(f, eol, pos), pos, pos + |TextOf(f, eol)|)
  {
    WovenForest(f, eol, pos);
    WovenMeans(ForestPiece(f, eol, pos), pos);
  }

  /** Text and tags of a document denote exactly its markup. */
  lemma ExtractedMarkup(f: seq<Node>, eol: char, pos: nat)
    ensures Weave(TagsOf(f, eol, pos), TextOf(f, eol), pos) == Markup(Plain(f, eol))
  {
    WovenForest(f, eol, pos);
    WovenMeans(ForestPiece(f, eol, pos), pos);
  }

  lemma WeaveElement(t: Tag, tags: seq<Tag>, text: string, u: Tag)
    requires Sorted(tags, t.pos, t.pos + |text|) && u.pos == t.pos + |text|
    ensures Weave([t] + tags + [u], text, t.pos) == [TokenOf(t)] + Weave(tags, text, t.pos) + [TokenOf(u)]
  {
    Assoc([t], tags, [u]);
    TailOfConcat([t], tags + [u]);
    WeaveConcat(tags, text, [u], "", t.pos);
    Unit(text);
    WeaveOne(u, "");
    Assoc([TokenOf(t)], Weave(tags, text, t.pos), [TokenOf(u)]);
  }

  lemma WeaveOne(t: Tag, none: string)
    requires none == ""
    ensures Weave([t], none, t.pos) == [TokenOf(t)]
  {
    assert [t][1..] == [];
    Unit([TokenOf(t)]);
  }

  function NodeMarkup(n: Node, eol: char): seq<Token>
  {
    if n.Element? && !IsBreak(n.tag) then [Open(n.tag)] + Markup(Plain(n.kids, eol)) + [Close]
        else Chars(NodeText(n, eol))
  }

  lemma PlainCons(f: seq<Node>, eol: char)
    requires f != []
    ensures Markup(Plain(f, eol)) == NodeMarkup(f[0], eol) + Markup(Plain(f[1..], eol))
  {
    var rest := Plain(f[1..], eol);
    match f[0]
    case Element(l, kids) =>
      if IsBreak(l) {
        JoinText([eol], rest);
      } else {
        assert ([Element(l, Plain(kids, eol))] + rest)[1..] == rest;
      }
    case Text(s) => JoinText(s, rest);
    case Comment =>
      Unit(rest);
      JoinText("", rest);
  }

  lemma TagsRegroup(l: Label, from: nat, mid: nat, inner: seq<Tag>, tail: seq<Tag>, more: seq<Tag>)
    ensures [Start(l, from)] + (inner + ([End(mid)] + tail)) + more == [Start(l, from)]
              + (inner + ([End(mid)] + (tail + more)))
  {
    Assoc5([Start(l, from)], inner, [End(mid)], tail, more);
    Assoc([Start(l, from)], inner, [End(mid)] + tail);
    Assoc([Start(l, from)] + inner, [End(mid)], tail);
  }

  lemma {:induction false} ExtractedBalanced(f: seq<Node>, eol: char, pos: nat, more: seq<Tag>, depth: nat)
    requires Balanced(more, depth)
    ensures Balanced(TagsOf(f, eol, pos) + more, depth)
    decreases f
  {
    if f == [] {
      Unit(more);
    } else {
      match f[0]
      case Element(l, kids) =>
        if IsBreak(l) {
          ExtractedBalanced(f[1..], eol, pos + 1, more, depth);
        } else {
          var mid := pos + |TextOf(kids, eol)|;
          var inner, tail := TagsOf(kids, eol, pos), TagsOf(f[1..], eol, mid);
          ExtractedBalanced(f[1..], eol, mid, more, depth);
          BalancedCons(End(mid), tail + more, depth + 1);
          ExtractedBalanced(kids, eol, pos, [End(mid)] + (tail + more), depth + 1);
          BalancedCons(Start(l, pos), inner + ([End(mid)] + (tail + more)), depth);
          TagsRegroup(l, pos, mid, inner, tail, more);
        }
      case Text(s) => ExtractedBalanced(f[1..], eol, pos + |s|, more, depth);
      case Comment => ExtractedBalanced(f[1..], eol, pos, more, depth);
    }
  }

  lemma BalancedCons(t: Tag, tags: seq<Tag>, depth: nat)
    requires if t.Start? then Balanced(tags, depth + 1) else depth > 0 && Balanced(tags, depth - 1)
    ensures Balanced([t] + tags, depth)
  {
    assert ([t] + tags)[1..] == tags;
  }

  /** The accumulator that `sh_extractTagsFromNodeList` appends to while it walks the tree. */
  class Extraction {
    var text: string
    var tags: seq<Tag>
    var pos: nat

    constructor ()
      ensures text == "" && tags == [] && pos == 0
    {
      text, tags, pos := "", [], 0;
    }

    method AddNodes(nodes: seq<Node>, eol: char)
      modifies this
      ensures text == old(text) + TextOf(nodes, eol)
      ensures tags == old(tags) + TagsOf(nodes, eol, old(pos))
      ensures pos == old(pos) + |TextOf(nodes, eol)|
      decreases nodes
    {
      var i := 0;
      while i < |nodes|
        invariant 0 <= i <= |nodes|
        invariant text + TextOf(nodes[i..], eol) == old(text) + TextOf(nodes, eol)
        invariant tags + TagsOf(nodes[i..], eol, pos) == old(tags) + TagsOf(nodes, eol, old(pos))
        invariant pos + |TextOf(nodes[i..], eol)| == old(pos) + |TextOf(nodes, eol)|
      {
        ghost var text0, tags0, pos0, others := text, tags, pos, nodes[i + 1..];
        assert nodes[i..][0] == nodes[i] && nodes[i..][1..] == others;
        AddNode(nodes[i], eol);
        Assoc(text0, NodeText(nodes[i], eol), TextOf(others, eol));
        Assoc(tags0, NodeTags(nodes[i], eol, pos0), TagsOf(others, eol, pos));
        TagsOfCons(nodes[i..], eol, pos0);
        i := i + 1;
      }
    }

    method AddNode(node: Node, eol: char)
      modifies this
      ensures text == old(text) + NodeText(node, eol)
      ensures tags == old(tags) + NodeTags(node, eol, old(pos))
      ensures pos == old(pos) + |NodeText(node, eol)|
      decreases node
    {
      match node
      case Element(l, kids) =>
        if IsBreak(l) {
          text := text + [eol];
          pos := pos + 1;
        } else {
          tags := tags + [Start(l, pos)];
          AddNodes(kids, eol);
          tags := tags + [End(pos)];
        }
      case Text(s) =>
        text := text + s;
        pos := pos + |s|;
      case Comment =>
    }
  }

  function NodeText(n: Node, eol: char): string
  {
    match n
    case Element(l, kids) => if IsBreak(l) then [eol] else TextOf(kids, eol)
    case Text(s) => s
    case Comment => ""
  }

  function NodeTags(n: Node, eol: char, pos: nat): seq<Tag>
  {
    if n.Element? && !IsBreak(n.tag)
    then [Start(n.tag, pos)] + TagsOf(n.kids, eol, pos) + [End(pos + |TextOf(n.kids, eol)|)]
    else []
  }

  lemma TagsOfCons(f: seq<Node>, eol: char, pos: nat)
    requires f != []
    ensures TextOf(f, eol) == NodeText(f[0], eol) + TextOf(f[1..], eol)
    ensures TagsOf(f, eol, pos) == NodeTags(f[0], eol, pos) + TagsOf(f[1..], eol, pos + |NodeText(f[0], eol)|)
  {
    if f[0].Element? && !IsBreak(f[0].tag) {
      var end := pos + |TextOf(f[0].kids, eol)|;
      var a, b, c, d := [Start(f[0].tag, pos)], TagsOf(f[0].kids, eol, pos), [End(end)], TagsOf(f[1..], eol, end);
      Assoc(a + b, c, d);
      Assoc(a, b, c + d);
    } else {
      Unit(TagsOf(f[1..], eol, pos + |NodeText(f[0], eol)|));
    }
  }

  // ---- Putting a document together

  /** An element that is still open, with the siblings before it. */
  datatype Frame = Frame(before: seq<Node>, tag: Label)

  /** The markup up to the current node: everything before the open elements, and their opening tags. */
  function PathMarkup(path: seq<Frame>): seq<Token>
  {
    if path == [] then []
    else
      var f := path[|path| - 1];
      PathMarkup(path[..|path| - 1]) + (Markup(f.before) + [Open(f.tag)])
  }

  predicate NormalPath(path: seq<Frame>) { forall i :: 0 <= i < |path| ==> Normal(path[i].before) }

  lemma {:induction false} NormalSnoc(f: seq<Node>, n: Node)
    requires Normal(f) && !n.Comment? && (n.Element? ==> Normal(n.kids))
    requires n.Text? ==> n.data != "" && (f != [] ==> !f[|f| - 1].Text?)
    ensures Normal(f + [n])
  {
    if f == [] {
      assert f + [n] == [n] && [n][1..] == [];
    } else {
      NormalSnoc(f[1..], n);
      TailOfConcat(f, [n]);
      assert |f + [n]| > 1 && (f + [n])[1] == if |f| > 1 then f[1] else n;
    }
  }

  /** The open element `tag` with content `kids` is closed. */
  lemma CloseMarkup(path: seq<Frame>, kids: seq<Node>)
    requires path != []
    ensures var f := path[|path| - 1];
            PathMarkup(path[..|path| - 1]) + Markup(f.before + [Element(f.tag, kids)]) == PathMarkup(path)
                + Markup(kids) + [Close]
  {
    var f, outer := path[|path| - 1], PathMarkup(path[..|path| - 1]);
    MarkupSnoc(f.before, Element(f.tag, kids));
    ElementMarkup(f.tag, kids);
    Assoc(Markup(f.before), [Open(f.tag)], Markup(kids) + [Close]);
    Assoc(outer, Markup(f.before) + [Open(f.tag)], Markup(kids) + [Close]);
    Assoc(outer + (Markup(f.before) + [Open(f.tag)]), Markup(kids), [Close]);
  }

  lemma ElementMarkup(l: Label, kids: seq<Node>)
    ensures Markup([Element(l, kids)]) == [Open(l)] + (Markup(kids) + [Close])
  {
    assert [Element(l, kids)][1..] == [];
    Unit([Open(l)] + Markup(kids) + [Close]);
    Assoc([Open(l)], Markup(kids), [Close]);
  }

  lemma OpenMarkup(path: seq<Frame>, kids: seq<Node>, l: Label)
    ensures PathMarkup(path + [Frame(kids, l)]) + Markup([]) == PathMarkup(path) + Markup(kids) + [Open(l)]
  {
    assert (path + [Frame(kids, l)])[..|path|] == path;
    Unit(PathMarkup(path + [Frame(kids, l)]));
    Assoc(PathMarkup(path), Markup(kids), [Open(l)]);
  }

  lemma TextMarkup(path: seq<Frame>, kids: seq<Node>, s: string)
    ensures PathMarkup(path) + Markup(kids + [Text(s)]) == PathMarkup(path) + Markup(kids) + Chars(s)
  {
    MarkupSnoc(kids, Text(s));
    assert [Text(s)][1..] == [];
    Unit(Chars(s));
    Assoc(PathMarkup(path), Markup(kids), Chars(s));
  }

  /** The next text node: all characters up to the next tag, or to the end. */
  lemma WeaveSkip(tags: seq<Tag>, text: string, from: nat, mid: nat)
    requires from <= mid <= |text| && (tags != [] ==> mid <= tags[0].pos)
    ensures Weave(tags, text[from..], from) == Chars(text[from..mid]) + Weave(tags, text[mid..], mid)
  {
    var x, y := text[from..mid], text[mid..];
    assert text[from..] == x + y;
    WeaveBehind(tags, x, y, from);
  }

  lemma WeaveBehind(tags: seq<Tag>, x: string, y: string, from: nat)
    requires tags != [] ==> from + |x| <= tags[0].pos
    ensures Weave(tags, x + y, from) == Chars(x) + Weave(tags, y, from + |x|)
  {
    WeaveConcat([], x, tags, y, from);
    Unit(tags);
    WeaveText(x, from);
  }

  /** What is left to do: the tags from `i` on and the text from `from` on. */
  ghost predicate Rest(tags: seq<Tag>, i: nat, text: string, from: nat, depth: nat)
  {
    i <= |tags| && from <= |text| && Sorted(tags[i..], from, |text|) && Balanced(tags[i..], depth)
  }

  lemma RestTag(tags: seq<Tag>, i: nat, text: string, from: nat, depth: nat)
    requires Rest(tags, i, text, from, depth) && i < |tags| && tags[i].pos <= from
    ensures tags[i].End? ==> depth > 0
    ensures Rest(tags, i + 1, text, from, if tags[i].Start? then depth + 1 else depth - 1)
    ensures Weave(tags[i..], text[from..], from) == [TokenOf(tags[i])] + Weave(tags[i + 1..], text[from..], from)
  {
    Shift(tags, i);
  }

  /** Outputs one tag: a start tag opens an element below the current node, an end tag returns to the parent. */
  method PlaceTag(path: seq<Frame>, current: seq<Node>, tag: Tag) returns (path': seq<Frame>, current': seq<Node>)
    requires NormalPath(path) && Normal(current) && (tag.End? ==> path != [])
    ensures NormalPath(path') && Normal(current')
    ensures PathMarkup(path') + Markup(current') == PathMarkup(path) + Markup(current) + [TokenOf(tag)]
    ensures |path'| == if tag.Start? then |path| + 1 else |path| - 1
    ensures current' != [] ==> !current'[|current'| - 1].Text?
  {
    if tag.Start? {
      OpenMarkup(path, current, tag.node);
      path', current' := path + [Frame(current, tag.node)], [];
    } else {
      CloseMarkup(path, current);
      var f := path[|path| - 1];
      NormalSnoc(f.before, Element(f.tag, current));
      path', current' := path[..|path| - 1], f.before + [Element(f.tag, current)];
    }
  }

  /** The markup `done` so far, with `depth` elements open, followed by what is left denotes the whole. */
  datatype Side = Shape | Denotation

  ghost predicate SideHolds(k: Side, done: seq<Token>, depth: nat, tags: seq<Tag>, i: nat, text: string, from: nat)
  {
    match k
    case Shape => Rest(tags, i, text, from, depth)
    case Denotation =>
      i <= |tags| && from <= |text| && done + Weave(tags[i..], text[from..], from) == Weave(tags, text, 0)
  }

  ghost predicate OnTrack(done: seq<Token>, depth: nat, tags: seq<Tag>, i: nat, text: string, from: nat)
  {
    forall k :: SideHolds(k, done, depth, tags, i, text, from)
  }

  lemma OnTrackMeans(done: seq<Token>, depth: nat, tags: seq<Tag>, i: nat, text: string, from: nat)
    requires OnTrack(done, depth, tags, i, text, from)
    ensures Rest(tags, i, text, from, depth) && done + Weave(tags[i..], text[from..], from) == Weave(tags, text, 0)
  {
    assert SideHolds(Shape, done, depth, tags, i, text, from)
           && SideHolds(Denotation, done, depth, tags, i, text, from);
  }

  lemma OnTrackTag(done: seq<Token>, depth: nat, tags: seq<Tag>, i: nat, text: string, from: nat)
    requires OnTrack(done, depth, tags, i, text, from) && i < |tags| && tags[i].pos <= from
    ensures tags[i].End? ==> depth > 0
    ensures OnTrack(done + [TokenOf(tags[i])], if tags[i].Start? then depth + 1 else depth - 1, tags, i + 1, text, from)
  {
    OnTrackMeans(done, depth, tags, i, text, from);
    RestTag(tags, i, text, from, depth);
    Assoc(done, [TokenOf(tags[i])], Weave(tags[i + 1..], text[from..], from));
  }

  lemma OnTrackText(done: seq<Token>, depth: nat, tags: seq<Tag>, i: nat, text: string, from: nat, mid: nat)
    requires OnTrack(done, depth, tags, i, text, from) && from <= mid <= |text| && (i < |tags| ==> mid <= tags[i].pos)
    ensures OnTrack(done + Chars(text[from..mid]), depth, tags, i, text, mid)
  {
    OnTrackMeans(done, depth, tags, i, text, from);
    WeaveSkip(tags[i..], text, from, mid);
    Assoc(done, Chars(text[from..mid]), Weave(tags[i..], text[mid..], mid));
  }

  /** `sh_insertTags`: the stack of open elements stands for the chain of parents of `currentNode`. */
  method InsertTags(tags: seq<Tag>, text: string) returns (result: seq<Node>)
    requires Sorted(tags, 0, |text|) && Balanced(tags, 0)
    ensures Markup(result) == Weave(tags, text, 0) && Normal(result)
  {
    var tagIndex, textPos := 0, 0;
    var path: seq<Frame>, current: seq<Node> := [], [];
    assert tags[0..] == tags && text[0..] == text;
    while textPos < |text| || tagIndex < |tags|
      invariant OnTrack(PathMarkup(path) + Markup(current), |path|, tags, tagIndex, text, textPos)
      invariant textPos <= |text| && tagIndex <= |tags|
      invariant NormalPath(path) && Normal(current)
      invariant current != [] && current[|current| - 1].Text? ==>
                  if tagIndex < |tags| then tags[tagIndex].pos <= textPos else textPos == |text|
      decreases |text| - textPos, |tags| - tagIndex
    {
      var tagPos := if tagIndex < |tags| then tags[tagIndex].pos else |text|;
      if tagPos <= textPos {
        OnTrackTag(PathMarkup(path) + Markup(current), |path|, tags, tagIndex, text, textPos);
        path, current := PlaceTag(path, current, tags[tagIndex]);
        tagIndex := tagIndex + 1;
      } else {
        assert tagPos <= |text| by {
          OnTrackMeans(PathMarkup(path) + Markup(current), |path|, tags, tagIndex, text, textPos);
        }
        OnTrackText(PathMarkup(path) + Markup(current), |path|, tags, tagIndex, text, textPos, tagPos);
        TextMarkup(path, current, text[textPos..tagPos]);
        NormalSnoc(current, Text(text[textPos..tagPos]));
        current := current + [Text(text[textPos..tagPos])];
        textPos := tagPos;
      }
    }
    OnTrackMeans(PathMarkup(path) + Markup(current), |path|, tags, tagIndex, text, textPos);
    result := current;
    Unit(Markup(current));
  }
}
