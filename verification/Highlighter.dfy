/** The syntax highlighter: the `output` calls of `sh_highlightString`, and the whole pipeline on a document. */
module Highlighter {
  import opened Common
  import opened Seqs
  import opened HtmlTree
  import opened TagStreams
  import opened TagMerge

  function ElementOf(style: Option<string>): Option<Label>
  {
    if style.Some? then Some(Style(style.value)) else None
  }

  /** `tags` is the highlighting that gives the first characters the styles in `row`. */
  ghost predicate Covers(tags: seq<Tag>, row: seq<Option<Label>>)
  {
    Paired(tags) && Spans(tags, 0, |row|) && forall p :: 0 <= p < |row| ==> StyleAt(tags, p) == row[p]
  }

  function Row(n: nat, style: Option<Label>): (r: seq<Option<Label>>)
    ensures |r| == n
  {
    seq(n, _ => style)
  }

  lemma {:induction false} SpanAppend(h: seq<Tag>, from: nat, l: Label, a: nat, b: nat)
    requires Paired(h) && Spans(h, from, a) && l.Style? && a < b
    ensures var h' := h + [Start(l, a), End(b)];
            Paired(h') && Spans(h', from, b)
            && forall p: nat :: StyleAt(h', p) == if p < a then StyleAt(h, p) else if p < b then Some(l) else None
  {
    var t := [Start(l, a), End(b)];
    if h == [] {
      assert h + t == t && t[2..] == [];
    } else {
      SpanAppend(h[2..], h[1].pos, l, a, b);
      assert (h + t)[2..] == h[2..] + t;
    }
  }

  lemma {:induction false} SpansWiden(h: seq<Tag>, from: nat, limit: nat, limit': nat, p: nat)
    requires Paired(h) && Spans(h, from, limit) && limit <= limit'
    ensures Spans(h, from, limit')
    ensures limit <= p ==> StyleAt(h, p) == None
  {
    if h != [] {
      SpansWiden(h[2..], h[1].pos, limit, limit', p);
    }
  }

  lemma CoversPlain(tags: seq<Tag>, row: seq<Option<Label>>, n: nat)
    requires Covers(tags, row)
    ensures Covers(tags, row + Row(n, None))
  {
    forall p | 0 <= p < |row| + n ensures StyleAt(tags, p) == (row + Row(n, None))[p] {
      SpansWiden(tags, 0, |row|, |row| + n, p);
    }
    SpansWiden(tags, 0, |row|, |row| + n, 0);
  }

  lemma CoversSpan(tags: seq<Tag>, row: seq<Option<Label>>, n: nat, l: Label)
    requires Covers(tags, row) && l.Style? && n > 0
    ensures Covers(tags + [Start(l, |row|), End(|row| + n)], row + Row(n, Some(l)))
  {
    SpanAppend(tags, 0, l, |row|, |row| + n);
  }

  /** The closure state of `sh_highlightString`; `done` is the part of `tags` before an open span. */
  class Output {
    var tags: seq<Tag>
    var pos: nat
    var currentStyle: Option<string>
    ghost var row: seq<Option<Label>>
    ghost var closed: seq<Tag>
    ghost var begun: nat

    ghost predicate Valid()
      reads this
    {
      && |row| == pos
      && (currentStyle.None? ==> closed == tags && Covers(tags, row))
      && (currentStyle.Some? ==>
            && begun < pos && tags == closed + [Start(Style(currentStyle.value), begun)]
            && Covers(closed, row[..begun]) && row == row[..begun] + Row(pos - begun, ElementOf(currentStyle)))
    }

    constructor ()
      ensures Valid() && row == [] && currentStyle == None
    {
      tags, pos, currentStyle, row, closed, begun := [], 0, None, [], [], 0;
    }

    /** Ends the span that is open. */
    method CloseSpan()
      requires Valid()
      modifies `tags, `closed, `currentStyle
      ensures Valid() && currentStyle == None
    {
      if currentStyle.Some? {
        CoversSpan(closed, row[..begun], pos - begun, Style(currentStyle.value));
        assert closed + [Start(Style(currentStyle.value), begun), End(pos)] == tags + [End(pos)];
        tags := tags + [End(pos)];
        closed := tags;
        currentStyle := None;
      }
    }

    /** `output(s, style)`, for a string of `length` characters. */
    method Put(length: nat, style: Option<string>)
      requires Valid()
      modifies this
      ensures Valid() && row == old(row) + Row(length, ElementOf(style))
    {
      if length == 0 {
        Unit(row);
        return;
      }
      if currentStyle != style {
        CloseSpan();
        if style.Some? {
          tags := tags + [Start(Style(style.value), pos)];
          begun := pos;
          currentStyle := style;
        }
        assert row[..pos] == row;
      }
      if style.None? {
        CoversPlain(tags, row, length);
      } else {
        ExtendRow(row, begun, length, ElementOf(style));
      }
      pos := pos + length;
      row := row + Row(length, ElementOf(style));
    }

    /** The end of a line, with a line terminator of `length` characters. */
    method EndLine(length: nat)
      requires Valid()
      modifies this
      ensures Valid() && currentStyle == None && row == old(row) + Row(length, None)
    {
      CloseSpan();
      CoversPlain(tags, row, length);
      pos := pos + length;
      row := row + Row(length, None);
    }
  }

  lemma ExtendRow(row: seq<Option<Label>>, begun: nat, n: nat, style: Option<Label>)
    requires begun <= |row| && row == row[..begun] + Row(|row| - begun, style)
    ensures var row' := row + Row(n, style);
            row'[..begun] == row[..begun] && row' == row'[..begun] + Row(|row'| - begun, style)
  {
    var row' := row + Row(n, style);
    assert row'[..begun] == row[..begun];
    assert Row(|row| - begun, style) + Row(n, style) == Row(|row'| - begun, style);
  }

  /** The `output` calls of one line of the text, and the length of its terminator. */
  datatype Line = Line(outputs: seq<(nat, Option<string>)>, eol: nat)

  function OutputsRow(outputs: seq<(nat, Option<string>)>): seq<Option<Label>>
  {
    if outputs == [] then []
    else OutputsRow(outputs[..|outputs| - 1]) + Row(outputs[|outputs| - 1].0, ElementOf(outputs[|outputs| - 1].1))
  }

  /** The style of every character, line terminators having none. */
  function LinesRow(lines: seq<Line>): seq<Option<Label>>
  {
    if lines == [] then []
    else LinesRow(lines[..|lines| - 1]) + OutputsRow(lines[|lines| - 1].outputs) + Row(lines[|lines| - 1].eol, None)
  }

  /** `sh_highlightString`, the pattern matching being given by the `output` calls it leads to. */
  method HighlightString(lines: seq<Line>) returns (tags: seq<Tag>)
    ensures Covers(tags, LinesRow(lines))
  {
    var out := new Output();
    var i := 0;
    while i < |lines|
      invariant 0 <= i <= |lines| && fresh(out)
      invariant out.Valid() && out.currentStyle == None && out.row == LinesRow(lines[..i])
    {
      PutAll(out, lines[i].outputs);
      out.EndLine(lines[i].eol);
      Shift(lines, i);
      assert lines[..i + 1][..i] == lines[..i];
      i := i + 1;
    }
    assert lines[..i] == lines;
    tags := out.tags;
  }

  method PutAll(out: Output, outputs: seq<(nat, Option<string>)>)
    requires out.Valid()
    modifies out
    ensures out.Valid() && out.row == old(out.row) + OutputsRow(outputs)
  {
    var i := 0;
    Unit(out.row);
    while i < |outputs|
      invariant 0 <= i <= |outputs|
      invariant out.Valid() && out.row == old(out.row) + OutputsRow(outputs[..i])
    {
      Shift(outputs, i);
      assert outputs[..i + 1][..i] == outputs[..i];
      Assoc(old(out.row), OutputsRow(outputs[..i]), Row(outputs[i].0, ElementOf(outputs[i].1)));
      out.Put(outputs[i].0, outputs[i].1);
      i := i + 1;
    }
    assert outputs[..i] == outputs;
  }

  // ---- The whole pipeline

  /** A document before highlighting: no style elements in it. */
  predicate AllOwnElements(f: seq<Node>)
    decreases f
  {
    f != [] ==> (f[0].Element? ==> f[0].tag.Own? && AllOwnElements(f[0].kids)) && AllOwnElements(f[1..])
  }

  lemma {:induction false} ExtractedOwn(f: seq<Node>, eol: char, pos: nat)
    requires AllOwnElements(f)
    ensures OwnTags(TagsOf(f, eol, pos))
    decreases f
  {
    if f != [] {
      if f[0].Element? && !IsBreak(f[0].tag) {
        ExtractedOwn(f[0].kids, eol, pos);
      }
      ExtractedOwn(f[1..], eol, pos + |NodeText(f[0], eol)|);
      TagsOfCons(f, eol, pos);
    }
  }

  lemma {:induction false} WeaveLetters(tags: seq<Tag>, text: string, pos: nat)
    requires Sorted(tags, pos, pos + |text|)
    ensures Letters(Weave(tags, text, pos)) == text
    decreases |tags| + |text|
  {
    if tags != [] && tags[0].pos <= pos {
      WeaveLetters(tags[1..], text, pos);
      TailOfConcat([TokenOf(tags[0])], Weave(tags[1..], text, pos));
      Unit(Weave(tags[1..], text, pos));
      Unit(text);
    } else if text != "" {
      WeaveLetters(tags, text[1..], pos + 1);
      TailOfConcat([Char(text[0])], Weave(tags, text[1..], pos + 1));
      Unit(Weave(tags, text[1..], pos + 1));
      assert text == [text[0]] + text[1..];
    }
  }

  /** The element of each character's style, put inside the elements that the character was in already. */
  function Styled(paths: seq<seq<Label>>, row: seq<Option<Label>>): seq<seq<Label>>
    requires |paths| == |row|
  {
    seq(|paths|, i requires 0 <= i < |paths| => if row[i].Some? then paths[i] + [row[i].value] else paths[i])
  }

  lemma {:induction false} AddStylesIsStyled(paths: seq<seq<Label>>, h: seq<Tag>, pos: nat, row: seq<Option<Label>>)
    requires Paired(h) && |paths| == |row| && forall p :: 0 <= p < |row| ==> StyleAt(h, pos + p) == row[p]
    ensures AddStyles(paths, h, pos) == Styled(paths, row)
  {
    if paths != [] {
      assert StyleAt(h, pos + 0) == row[0];
      forall p | 0 <= p < |row[1..]| ensures StyleAt(h, (pos + 1) + p) == row[1..][p] {
        assert StyleAt(h, pos + (p + 1)) == row[p + 1];
      }
      AddStylesIsStyled(paths[1..], h, pos + 1, row[1..]);
    }
  }

  lemma {:induction false} PathsCount(m: seq<Token>, open: seq<Label>)
    ensures |Paths(m, open)| == |Letters(m)|
  {
    if m != [] {
      PathsCount(m[1..], if m[0].Open? then open + [m[0].tag] else if m[0].Close? && open != [] then open[..|open| - 1]
          else open);
    }
  }

  /** `sh_highlightElement` on the content of an element: the text is unchanged, every character is in the elements
      it was in and in addition in the style that the highlighter gave it, and taking the style elements out again
      gives back the document (line breaks read as characters) up to joining adjacent text. */
  method HighlightElement(f: seq<Node>, eol: char, lines: seq<Line>) returns (result: seq<Node>)
    requires AllOwnElements(f) && |LinesRow(lines)| == |TextOf(f, eol)|
    ensures Letters(Markup(result)) == TextOf(f, eol)
    ensures |Paths(Markup(Plain(f, eol)), [])| == |LinesRow(lines)|
    ensures Paths(Markup(result), []) == Styled(Paths(Markup(Plain(f, eol)), []), LinesRow(lines))
    ensures Normal(result) && Joined(Unstyled(result)) == Joined(Plain(f, eol))
    ensures Joined(Unstyled(result)) == Joined(f) <==> !HasBreak(f)
  {
    var extraction := new Extraction();
    extraction.AddNodes(f, eol);
    var originalTags, text := extraction.tags, extraction.text;
    Unit(TagsOf(f, eol, 0));
    Unit(TextOf(f, eol));
    var highlightTags := HighlightString(lines);
    var tags := MergeTags(originalTags, highlightTags);
    MergedDocument(f, eol, highlightTags, LinesRow(lines));
    result := InsertTags(tags, text);
    UnstyledMarkup(result, [], []);
    Unit(Markup(result));
    Unit(Markup(Unstyled(result)));
    SameMarkupSameTree(Unstyled(result), Plain(f, eol));
    PlainExactly(f, eol);
  }

  lemma DocumentMergeable(f: seq<Node>, eol: char, h: seq<Tag>, row: seq<Option<Label>>)
    requires AllOwnElements(f) && Covers(h, row) && |row| == |TextOf(f, eol)|
    ensures Mergeable(TagsOf(f, eol, 0), h, TextOf(f, eol), 0, [])
    ensures Sorted(Merge(TagsOf(f, eol, 0), h), 0, |TextOf(f, eol)|) && Balanced(Merge(TagsOf(f, eol, 0), h), 0)
  {
    var o, text := TagsOf(f, eol, 0), TextOf(f, eol);
    ExtractedSorted(f, eol, 0);
    ExtractedBalanced(f, eol, 0, [], 0);
    Unit(o);
    ExtractedOwn(f, eol, 0);
    MergeSorted(o, h, 0, |text|);
    MergeBalanced(o, h, 0);
  }

  lemma MergedDocument(f: seq<Node>, eol: char, h: seq<Tag>, row: seq<Option<Label>>)
    requires AllOwnElements(f) && Covers(h, row) && |row| == |TextOf(f, eol)|
    ensures var o, text := TagsOf(f, eol, 0), TextOf(f, eol);
            var m := Weave(Merge(o, h), text, 0);
            && Sorted(Merge(o, h), 0, |text|) && Balanced(Merge(o, h), 0)
            && Letters(m) == text && WithoutStyles(m, []) == Markup(Plain(f, eol))
            && |Paths(Markup(Plain(f, eol)), [])| == |row|
            && Paths(m, []) == Styled(Paths(Markup(Plain(f, eol)), []), row)
  {
    DocumentMergeable(f, eol, h, row);
    ExtractedMarkup(f, eol, 0);
    MergedMarkup(TagsOf(f, eol, 0), h, TextOf(f, eol), row);
  }

  lemma MergedMarkup(o: seq<Tag>, h: seq<Tag>, text: string, row: seq<Option<Label>>)
    requires Mergeable(o, h, text, 0, []) && Covers(h, row) && |row| == |text| && Sorted(Merge(o, h), 0, |text|)
    ensures var m := Weave(Merge(o, h), text, 0);
            && Letters(m) == text && WithoutStyles(m, []) == Weave(o, text, 0)
            && |Paths(Weave(o, text, 0), [])| == |row|
            && Paths(m, []) == Styled(Paths(Weave(o, text, 0), []), row)
  {
    var w, m := Weave(o, text, 0), Weave(Merge(o, h), text, 0);
    assert Letters(m) == text by { WeaveLetters(Merge(o, h), text, 0); }
    assert |Paths(w, [])| == |row| by {
      WeaveLetters(o, text, 0);
      PathsCount(w, []);
    }
    assert WithoutStyles(m, []) == w && Paths(m, []) == AddStyles(Paths(w, []), h, 0) by {
      MergeMeaning(o, h, text, 0, []);
    }
    assert AddStyles(Paths(w, []), h, 0) == Styled(Paths(w, []), row) by { AddStylesIsStyled(Paths(w, []), h, 0, row); }
  }
}
