/** Merging the tags of a document with the tags of its highlighting. */
module TagMerge {
  import opened Common
  import opened Seqs
  import opened HtmlTree
  import opened TagStreams

  /** Start and end tags in turn. */
  predicate Paired(h: seq<Tag>)
  {
    h != [] ==> |h| >= 2 && h[0].Start? && h[1].End? && Paired(h[2..])
  }

  /** A highlight list: pairs around non-empty stretches of text that are in order and do not overlap. */
  predicate Spans(h: seq<Tag>, from: nat, limit: nat)
    requires Paired(h)
  {
    && from <= limit
    && (h != [] ==> h[0].node.Style? && from <= h[0].pos < h[1].pos <= limit && Spans(h[2..], h[1].pos, limit))
  }

  /** The style element that the highlight list puts the character at offset `p` in. */
  function StyleAt(h: seq<Tag>, p: nat): Option<Label>
    requires Paired(h)
  {
    if h == [] || p < h[0].pos then None
    else if p < h[1].pos then Some(h[0].node)
    else StyleAt(h[2..], p)
  }

  /** What is left of a highlight list when its first span is cut at offset `p`. */
  function Cut(h: seq<Tag>, p: nat): (r: seq<Tag>)
    requires Paired(h) && h != []
    ensures Paired(r) && |r| == |h| && r[0] == Start(h[0].node, p) && r[1] == h[1] && r[2..] == h[2..]
  {
    [Start(h[0].node, p), h[1]] + h[2..]
  }

  /** A highlight span that would cross the next original tag is cut in two there. */
  function Merge(o: seq<Tag>, h: seq<Tag>): seq<Tag>
    requires Paired(h)
    decreases |o| + |h|, if o != [] && h != [] && h[0].pos < o[0].pos then 1 else 0
  {
    if o == [] then h
    else if h == [] then o
    else if o[0].pos <= h[0].pos then [o[0]] + Merge(o[1..], h)
    else if h[1].pos <= o[0].pos then [h[0], h[1]] + Merge(o, h[2..])
    else [h[0], End(o[0].pos)] + Merge(o, Cut(h, o[0].pos))
  }

  /** `result` followed by the merge of what is left. */
  ghost function Pending(result: seq<Tag>, originals: seq<Tag>, o: nat, tags: seq<Tag>, h: nat): seq<Tag>
    requires o <= |originals| && h <= |tags| && Paired(tags[h..])
  {
    result + Merge(originals[o..], tags[h..])
  }

  lemma TakeOriginal(result: seq<Tag>, originals: seq<Tag>, o: nat, tags: seq<Tag>, h: nat)
    requires o < |originals| && h < |tags| && Paired(tags[h..]) && originals[o].pos <= tags[h].pos
    ensures Pending(result + [originals[o]], originals, o + 1, tags, h) == Pending(result, originals, o, tags, h)
  {
    Shift(originals, o);
    Assoc(result, [originals[o]], Merge(originals[o + 1..], tags[h..]));
  }

  lemma TakeSpan(result: seq<Tag>, originals: seq<Tag>, o: nat, tags: seq<Tag>, h: nat)
    requires o < |originals| && h < |tags| && Paired(tags[h..]) && tags[h].pos < originals[o].pos
    ensures h + 1 < |tags| && tags[h].Start?
    ensures tags[h + 1].pos <= originals[o].pos ==>
              Paired(tags[h + 2..]) &&
              Pending(result + [tags[h]] + [tags[h + 1]], originals, o, tags, h + 2) ==
                  Pending(result, originals, o, tags, h)
    ensures tags[h + 1].pos > originals[o].pos ==>
              var p := originals[o].pos; var tags' := tags[h := Start(tags[h].node, p)];
              Paired(tags'[h..]) &&
              Pending(result + [tags[h]] + [End(p)], originals, o, tags', h) == Pending(result, originals, o, tags, h)
  {
    var rest := tags[h..];
    assert rest[0] == tags[h] && rest[1] == tags[h + 1] && rest[2..] == tags[h + 2..];
    if tags[h + 1].pos <= originals[o].pos {
      Assoc3(result, tags[h], tags[h + 1], Merge(originals[o..], tags[h + 2..]));
    } else {
      var p := originals[o].pos;
      assert tags[h := Start(tags[h].node, p)][h..] == Cut(rest, p);
      Assoc3(result, tags[h], End(p), Merge(originals[o..], Cut(rest, p)));
    }
  }

  lemma Assoc3(r: seq<Tag>, a: Tag, b: Tag, rest: seq<Tag>)
    ensures r + ([a, b] + rest) == r + [a] + [b] + rest
  {
  }

  /** `sh_mergeTags`. */
  method MergeTags(originalTags: seq<Tag>, highlightTags: seq<Tag>) returns (result: seq<Tag>)
    requires Paired(highlightTags)
    ensures result == Merge(originalTags, highlightTags)
  {
    if |originalTags| == 0 {
      return highlightTags;
    }
    if |highlightTags| == 0 {
      return originalTags;
    }
    result := [];
    var o, h := 0, 0;
    var tags := highlightTags;
    assert originalTags[0..] == originalTags && tags[0..] == tags;
    while o < |originalTags| && h < |tags|
      invariant 0 <= o <= |originalTags| && 0 <= h <= |tags| && Paired(tags[h..])
      invariant Pending(result, originalTags, o, tags, h) == Merge(originalTags, highlightTags)
      decreases |originalTags| - o + |tags| - h,
                if o < |originalTags| && h < |tags| && tags[h].pos < originalTags[o].pos then 1 else 0
    {
      var originalTag, highlightTag := originalTags[o], tags[h];
      if originalTag.pos <= highlightTag.pos {
        TakeOriginal(result, originalTags, o, tags, h);
        result := result + [originalTag];
        o := o + 1;
      } else {
        TakeSpan(result, originalTags, o, tags, h);
        result := result + [highlightTag];
        if tags[h + 1].pos <= originalTag.pos {
          h := h + 1;
          result := result + [tags[h]];
          h := h + 1;
        } else {
          result := result + [End(originalTag.pos)];
          tags := tags[h := Start(highlightTag.node, originalTag.pos)];
        }
      }
    }
    ghost var whole := Merge(originalTags, highlightTags);
    assert whole == result + (originalTags[o..] + tags[h..]);
    result := AppendRest(result, originalTags, o);
    Assoc(result[..|result| - (|originalTags| - o)], originalTags[o..], tags[h..]);
    result := AppendRest(result, tags, h);
  }

  /** One of the two loops that copy what is left of a list. */
  method AppendRest(result: seq<Tag>, tags: seq<Tag>, from: nat) returns (r: seq<Tag>)
    requires from <= |tags|
    ensures r == result + tags[from..]
  {
    r := result;
    var i := from;
    while i < |tags|
      invariant from <= i <= |tags|
      invariant r + tags[i..] == result + tags[from..]
    {
      Shift(tags, i);
      Assoc(r, [tags[i]], tags[i + 1..]);
      r := r + [tags[i]];
      i := i + 1;
    }
  }

  // ---- The merged list is a tag list again

  lemma {:induction false} MergeSorted(o: seq<Tag>, h: seq<Tag>, from: nat, limit: nat)
    requires Paired(h) && Sorted(o, from, limit) && Spans(h, from, limit)
    ensures Sorted(Merge(o, h), from, limit)
    decreases |o| + |h|, if o != [] && h != [] && h[0].pos < o[0].pos then 1 else 0
  {
    if o == [] {
      SpansSorted(h, from, limit);
    } else if h == [] {
    } else if o[0].pos <= h[0].pos {
      MergeSorted(o[1..], h, o[0].pos, limit);
      SortedCons(o[0], Merge(o[1..], h), from, limit);
    } else if h[1].pos <= o[0].pos {
      MergeSorted(o, h[2..], h[1].pos, limit);
      SortedPair(h[0], h[1], Merge(o, h[2..]), from, limit);
    } else {
      MergeSorted(o, Cut(h, o[0].pos), o[0].pos, limit);
      SortedPair(h[0], End(o[0].pos), Merge(o, Cut(h, o[0].pos)), from, limit);
    }
  }

  lemma SortedCons(t: Tag, rest: seq<Tag>, from: nat, limit: nat)
    requires from <= t.pos && Sorted(rest, t.pos, limit)
    ensures Sorted([t] + rest, from, limit)
  {
    TailOfConcat([t], rest);
    Unit(rest);
  }

  lemma SortedPair(t: Tag, u: Tag, rest: seq<Tag>, from: nat, limit: nat)
    requires from <= t.pos <= u.pos && Sorted(rest, u.pos, limit)
    ensures Sorted([t, u] + rest, from, limit)
  {
    SortedCons(u, rest, t.pos, limit);
    SortedCons(t, [u] + rest, from, limit);
    assert [t] + ([u] + rest) == [t, u] + rest;
  }

  lemma {:induction false} SpansSorted(h: seq<Tag>, from: nat, limit: nat)
    requires Paired(h) && Spans(h, from, limit)
    ensures Sorted(h, from, limit)
  {
    if h != [] {
      SpansSorted(h[2..], h[1].pos, limit);
      SortedPair(h[0], h[1], h[2..], from, limit);
      assert [h[0], h[1]] + h[2..] == h;
    }
  }

  lemma {:induction false} MergeBalanced(o: seq<Tag>, h: seq<Tag>, depth: nat)
    requires Paired(h) && Balanced(o, depth)
    ensures Balanced(Merge(o, h), depth)
    decreases |o| + |h|, if o != [] && h != [] && h[0].pos < o[0].pos then 1 else 0
  {
    if o == [] {
      PairedBalanced(h);
    } else if h == [] {
    } else if o[0].pos <= h[0].pos {
      MergeBalanced(o[1..], h, if o[0].Start? then depth + 1 else depth - 1);
      BalancedCons(o[0], Merge(o[1..], h), depth);
    } else if h[1].pos <= o[0].pos {
      MergeBalanced(o, h[2..], depth);
      BalancedPair(h[0], h[1], Merge(o, h[2..]), depth);
    } else {
      MergeBalanced(o, Cut(h, o[0].pos), depth);
      BalancedPair(h[0], End(o[0].pos), Merge(o, Cut(h, o[0].pos)), depth);
    }
  }

  lemma BalancedPair(t: Tag, u: Tag, rest: seq<Tag>, depth: nat)
    requires t.Start? && u.End? && Balanced(rest, depth)
    ensures Balanced([t, u] + rest, depth)
  {
    BalancedCons(u, rest, depth + 1);
    BalancedCons(t, [u] + rest, depth);
    assert [t] + ([u] + rest) == [t, u] + rest;
  }

  lemma {:induction false} PairedBalanced(h: seq<Tag>)
    requires Paired(h)
    ensures Balanced(h, 0)
  {
    if h != [] {
      PairedBalanced(h[2..]);
      BalancedPair(h[0], h[1], h[2..], 0);
      assert [h[0], h[1]] + h[2..] == h;
    }
  }

  // ---- What merging does to the markup

  /** Each character's elements, with the style element that the highlight list gives it innermost. */
  function AddStyles(paths: seq<seq<Label>>, h: seq<Tag>, pos: nat): seq<seq<Label>>
    requires Paired(h)
    decreases |paths|
  {
    if paths == [] then []
    else
      var style := StyleAt(h, pos);
      [if style.Some? then paths[0] + [style.value] else paths[0]] + AddStyles(paths[1..], h, pos + 1)
  }

  predicate OwnTags(o: seq<Tag>) { forall i :: 0 <= i < |o| && o[i].Start? ==> o[i].node.Own? }

  predicate AllOwn(open: seq<Label>) { forall i :: 0 <= i < |open| ==> open[i].Own? }

  /** The end of the piece of the first span that can be put down before the next original tag. */
  function PieceEnd(o: seq<Tag>, h: seq<Tag>): nat
    requires Paired(h) && h != []
  {
    if o == [] || h[1].pos <= o[0].pos then h[1].pos else o[0].pos
  }

  function AfterPiece(o: seq<Tag>, h: seq<Tag>): (r: seq<Tag>)
    requires Paired(h) && h != []
    ensures Paired(r)
  {
    if o == [] || h[1].pos <= o[0].pos then h[2..] else Cut(h, o[0].pos)
  }

  lemma MergePiece(o: seq<Tag>, h: seq<Tag>)
    requires Paired(h) && h != [] && (o != [] ==> h[0].pos < o[0].pos)
    ensures Merge(o, h) == [h[0], End(PieceEnd(o, h))] + Merge(o, AfterPiece(o, h))
  {
    if o == [] {
      assert h == [h[0], h[1]] + h[2..];
      assert Merge(o, h[2..]) == h[2..];
    }
  }

  lemma {:induction false} StyleAtLater(h: seq<Tag>, from: nat, limit: nat, p: nat, e: nat, o: seq<Tag>)
    requires Paired(h) && h != [] && Spans(h, from, limit) && (o != [] ==> h[0].pos < o[0].pos) && e == PieceEnd(o, h)
    ensures h[0].pos <= p < e ==> StyleAt(h, p) == Some(h[0].node)
    ensures e <= p ==> StyleAt(AfterPiece(o, h), p) == StyleAt(h, p)
    ensures from <= h[0].pos < e <= limit && Spans(AfterPiece(o, h), e, limit)
  {
  }

  lemma {:induction false} AddStylesLater(paths: seq<seq<Label>>, h: seq<Tag>, from: nat, limit: nat, o: seq<Tag>,
                                          pos: nat)
    requires Paired(h) && h != [] && Spans(h, from, limit) && (o != [] ==> h[0].pos < o[0].pos) && PieceEnd(o, h) <= pos
    ensures AddStyles(paths, AfterPiece(o, h), pos) == AddStyles(paths, h, pos)
    decreases |paths|
  {
    if paths != [] {
      StyleAtLater(h, from, limit, pos, PieceEnd(o, h), o);
      AddStylesLater(paths[1..], h, from, limit, o, pos + 1);
    }
  }

  /** The characters of one piece, all inside the same elements. */
  function Stretch(n: nat, path: seq<Label>): seq<seq<Label>>
  {
    if n == 0 then [] else [path] + Stretch(n - 1, path)
  }

  lemma {:induction false} PathsOfChars(s: string, m: seq<Token>, open: seq<Label>)
    ensures Paths(Chars(s) + m, open) == Stretch(|s|, open) + Paths(m, open)
  {
    if s == "" {
      Unit(m);
      Unit(Paths(m, open));
    } else {
      CharsCons(s);
      Assoc([Char(s[0])], Chars(s[1..]), m);
      TailOfConcat([Char(s[0])], Chars(s[1..]) + m);
      Unit(Chars(s[1..]) + m);
      PathsOfChars(s[1..], m, open);
      Assoc([open], Stretch(|s| - 1, open), Paths(m, open));
    }
  }

  lemma {:induction false} AddStylesStretch(n: nat, path: seq<Label>, rest: seq<seq<Label>>, h: seq<Tag>, pos: nat)
    requires Paired(h) && h != [] && forall p :: pos <= p < pos + n ==> StyleAt(h, p) == Some(h[0].node)
    ensures AddStyles(Stretch(n, path) + rest, h, pos) == Stretch(n, path + [h[0].node]) + AddStyles(rest, h, pos + n)
    decreases n
  {
    if n == 0 {
      Unit(rest);
      Unit(AddStyles(rest, h, pos));
    } else {
      Assoc([path], Stretch(n - 1, path), rest);
      TailOfConcat([path], Stretch(n - 1, path) + rest);
      Unit(Stretch(n - 1, path) + rest);
      AddStylesStretch(n - 1, path, rest, h, pos + 1);
      Assoc([path + [h[0].node]], Stretch(n - 1, path + [h[0].node]), AddStyles(rest, h, pos + n));
    }
  }

  lemma WeaveHead(t: Tag, rest: seq<Tag>, text: string, pos: nat)
    requires t.pos <= pos
    ensures Weave([t] + rest, text, pos) == [TokenOf(t)] + Weave(rest, text, pos)
  {
    TailOfConcat([t], rest);
    Unit(rest);
  }

  lemma WeaveChars(tags: seq<Tag>, text: string, n: nat, pos: nat)
    requires n <= |text| && (tags != [] ==> pos + n <= tags[0].pos)
    ensures Weave(tags, text, pos) == Chars(text[..n]) + Weave(tags, text[n..], pos + n)
  {
    assert text == text[..n] + text[n..];
    WeaveConcat([], text[..n], tags, text[n..], pos);
    Unit(tags);
    WeaveText(text[..n], pos);
  }

  lemma WeavePiece(t: Tag, u: Tag, rest: seq<Tag>, text: string, pos: nat)
    requires t.pos <= pos < u.pos <= pos + |text|
    ensures Weave([t, u] + rest, text, pos)
         == [TokenOf(t)] + (Chars(text[..u.pos - pos]) + ([TokenOf(u)] + Weave(rest, text[u.pos - pos..], u.pos)))
  {
    assert [t, u] + rest == [t] + ([u] + rest);
    WeaveHead(t, [u] + rest, text, pos);
    WeaveChars([u] + rest, text, u.pos - pos, pos);
    WeaveHead(u, rest, text[u.pos - pos..], u.pos);
  }

  lemma MergeFirst(o: seq<Tag>, h: seq<Tag>, from: nat, limit: nat)
    requires Paired(h) && Sorted(o, from, limit) && Spans(h, from, limit)
    ensures Merge(o, h) != [] ==> from <= Merge(o, h)[0].pos
    ensures Merge(o, h) != [] ==>
              (o != [] && Merge(o, h)[0].pos == o[0].pos) || (h != [] && Merge(o, h)[0].pos == h[0].pos)
    ensures Merge(o, h) == [] ==> o == [] && h == []
  {
  }

  /** The markup of the merged list has the same text in the same elements, each character having in addition the
      style that the highlighting gives it; and without the style elements it is the original markup. */
  ghost predicate SameButStyled(o: seq<Tag>, h: seq<Tag>, text: string, pos: nat, open: seq<Label>)
    requires Paired(h)
  {
    && WithoutStyles(Weave(Merge(o, h), text, pos), open) == Weave(o, text, pos)
    && Paths(Weave(Merge(o, h), text, pos), open) == AddStyles(Paths(Weave(o, text, pos), open), h, pos)
  }

  ghost predicate Mergeable(o: seq<Tag>, h: seq<Tag>, text: string, pos: nat, open: seq<Label>)
  {
    && Paired(h) && Sorted(o, pos, pos + |text|) && Spans(h, pos, pos + |text|)
    && OwnTags(o) && AllOwn(open) && Balanced(o, |open|)
  }

  lemma {:induction false} MergeMeaning(o: seq<Tag>, h: seq<Tag>, text: string, pos: nat, open: seq<Label>)
    requires Mergeable(o, h, text, pos, open)
    ensures SameButStyled(o, h, text, pos, open)
    decreases |text|, |o|
  {
    if o != [] && o[0].pos <= pos {
      var open' := if o[0].Start? then open + [o[0].node] else open[..|open| - 1];
      MergeMeaning(o[1..], h, text, pos, open');
      MeaningOfTag(o, h, text, pos, open, open');
    } else if h != [] && h[0].pos <= pos {
      var e := PieceEnd(o, h);
      StyleAtLater(h, pos, pos + |text|, pos, e, o);
      MergeMeaning(o, AfterPiece(o, h), text[e - pos..], e, open);
      MeaningOfPiece(o, h, text, pos, open);
    } else if text != "" {
      MergeMeaning(o, h, text[1..], pos + 1, open);
      MeaningOfChar(o, h, text, pos, open);
    }
  }

  lemma MeaningOfTag(o: seq<Tag>, h: seq<Tag>, text: string, pos: nat, open: seq<Label>, open': seq<Label>)
    requires Mergeable(o, h, text, pos, open) && o != [] && o[0].pos <= pos
    requires open' == if o[0].Start? then open + [o[0].node] else open[..|open| - 1]
    requires SameButStyled(o[1..], h, text, pos, open')
    ensures SameButStyled(o, h, text, pos, open)
  {
    var rest := Merge(o[1..], h);
    assert Merge(o, h) == [o[0]] + rest by {
      if h == [] { assert o == [o[0]] + o[1..]; }
    }
    TailOfConcat([o[0]], rest);
    Unit(rest);
    var m, n := Weave(rest, text, pos), Weave(o[1..], text, pos);
    TailOfConcat([TokenOf(o[0])], m);
    Unit(m);
    TailOfConcat([TokenOf(o[0])], n);
    Unit(n);
  }

  lemma MeaningOfChar(o: seq<Tag>, h: seq<Tag>, text: string, pos: nat, open: seq<Label>)
    requires Mergeable(o, h, text, pos, open) && text != ""
    requires (o != [] ==> pos < o[0].pos) && (h != [] ==> pos < h[0].pos)
    requires SameButStyled(o, h, text[1..], pos + 1, open)
    ensures SameButStyled(o, h, text, pos, open)
  {
    MergeFirst(o, h, pos, pos + |text|);
    var m, n := Weave(Merge(o, h), text[1..], pos + 1), Weave(o, text[1..], pos + 1);
    TailOfConcat([Char(text[0])], m);
    Unit(m);
    TailOfConcat([Char(text[0])], n);
    Unit(n);
    TailOfConcat([open], Paths(n, open));
    Unit(Paths(n, open));
  }

  lemma MeaningOfPiece(o: seq<Tag>, h: seq<Tag>, text: string, pos: nat, open: seq<Label>)
    requires Mergeable(o, h, text, pos, open) && h != [] && h[0].pos <= pos && (o != [] ==> pos < o[0].pos)
    requires var e := PieceEnd(o, h);
             pos < e <= pos + |text| && SameButStyled(o, AfterPiece(o, h), text[e - pos..], e, open)
    ensures SameButStyled(o, h, text, pos, open)
  {
    var e, h' := PieceEnd(o, h), AfterPiece(o, h);
    var s, m, m' := text[..e - pos], Weave(o, text[e - pos..], e), Weave(Merge(o, h'), text[e - pos..], e);
    MergePiece(o, h);
    WeavePiece(h[0], End(e), Merge(o, h'), text, pos);
    WeaveChars(o, text, e - pos, pos);
    PieceWithoutStyles(h[0].node, s, m', open);
    PiecePaths(h[0].node, s, m', open);
    PathsOfChars(s, m, open);
    PieceStyles(o, h, pos, pos + |text|, open, Paths(m, open));
  }

  lemma PieceStyles(o: seq<Tag>, h: seq<Tag>, pos: nat, limit: nat, open: seq<Label>, rest: seq<seq<Label>>)
    requires Paired(h) && h != [] && h[0].pos == pos && (o != [] ==> pos < o[0].pos) && Spans(h, pos, limit)
    ensures pos < PieceEnd(o, h)
    ensures AddStyles(Stretch(PieceEnd(o, h) - pos, open) + rest, h, pos)
         == Stretch(PieceEnd(o, h) - pos, open + [h[0].node]) + AddStyles(rest, AfterPiece(o, h), PieceEnd(o, h))
  {
    var e := PieceEnd(o, h);
    forall p | pos <= p < e ensures StyleAt(h, p) == Some(h[0].node) {
      StyleAtLater(h, pos, limit, p, e, o);
    }
    AddStylesStretch(e - pos, open, rest, h, pos);
    AddStylesLater(rest, h, pos, limit, o, e);
  }

  lemma PieceWithoutStyles(style: Label, s: string, m: seq<Token>, open: seq<Label>)
    requires style.Style?
    ensures WithoutStyles([Open(style)] + (Chars(s) + ([Close] + m)), open) == Chars(s) + WithoutStyles(m, open)
  {
    WithoutStylesOpen(Chars(s) + ([Close] + m), open, style);
    WithoutStylesChars(s, [Close] + m, open + [style]);
    WithoutStylesClose(m, open, style);
    Unit(WithoutStyles(m, open));
  }

  lemma PiecePaths(style: Label, s: string, m: seq<Token>, open: seq<Label>)
    ensures Paths([Open(style)] + (Chars(s) + ([Close] + m)), open) == Stretch(|s|, open + [style]) + Paths(m, open)
  {
    TailOfConcat([Open(style)], Chars(s) + ([Close] + m));
    Unit(Chars(s) + ([Close] + m));
    PathsOfChars(s, [Close] + m, open + [style]);
    TailOfConcat([Close], m);
    Unit(m);
    assert (open + [style])[..|open|] == open;
  }
}
