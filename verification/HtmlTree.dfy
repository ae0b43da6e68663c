/** Document trees, read as streams of opening tags, characters and closing tags. */
module HtmlTree {
  import opened Seqs

  /** An element is either one of the document's own or a span made for a style. */
  datatype Label = Own(name: string) | Style(style: string)

  datatype Node = Element(tag: Label, kids: seq<Node>) | Text(data: string) | Comment

  datatype Token = Open(tag: Label) | Close | Char(c: char)

  function Chars(s: string): (r: seq<Token>)
    ensures |r| == |s|
  {
    seq(|s|, i requires 0 <= i < |s| => Char(s[i]))
  }

  lemma CharsConcat(s: string, t: string)
    ensures Chars(s + t) == Chars(s) + Chars(t)
  {
  }

  lemma CharsCons(s: string)
    requires s != ""
    ensures Chars(s) == [Char(s[0])] + Chars(s[1..])
  {
  }

  /** The markup of a forest. */
  function Markup(f: seq<Node>): seq<Token>
    decreases f
  {
    if f == [] then []
    else match f[0]
      case Element(l, kids) => [Open(l)] + Markup(kids) + [Close] + Markup(f[1..])
      case Text(s) => Chars(s) + Markup(f[1..])
      case Comment => Markup(f[1..])
  }

  lemma MarkupSnoc(f: seq<Node>, n: Node)
    ensures Markup(f + [n]) == Markup(f) + Markup([n])
  {
    MarkupConcat(f, [n]);
  }

  lemma {:induction false} MarkupConcat(f: seq<Node>, g: seq<Node>)
    ensures Markup(f + g) == Markup(f) + Markup(g)
    decreases |f|
  {
    if f == [] {
      Unit(g);
      Unit(Markup(g));
    } else {
      assert (f + g)[0] == f[0] && (f + g)[1..] == f[1..] + g;
      MarkupConcat(f[1..], g);
      match f[0]
      case Element(l, kids) => Assoc([Open(l)] + Markup(kids) + [Close], Markup(f[1..]), Markup(g));
      case Text(s) => Assoc(Chars(s), Markup(f[1..]), Markup(g));
      case Comment =>
    }
  }

  // ---- Normal forests: no comments, no empty and no adjacent text nodes

  predicate Normal(f: seq<Node>)
    decreases f
  {
    f != [] ==>
      && !f[0].Comment?
      && (f[0].Text? ==> f[0].data != "" && (|f| > 1 ==> !f[1].Text?))
      && (f[0].Element? ==> Normal(f[0].kids))
      && Normal(f[1..])
  }

  /** Joins adjacent text nodes, and drops empty ones and comments. */
  function Joined(f: seq<Node>): (r: seq<Node>)
    ensures Normal(r)
    decreases f
  {
    if f == [] then []
    else
      var rest := Joined(f[1..]);
      match f[0]
      case Element(l, kids) => [Element(l, Joined(kids))] + rest
      case Text(s) =>
        if s == "" then rest
        else if rest != [] && rest[0].Text? then [Text(s + rest[0].data)] + rest[1..]
        else [Text(s)] + rest
      case Comment => rest
  }

  lemma {:induction false} JoinedMarkup(f: seq<Node>)
    ensures Markup(Joined(f)) == Markup(f)
    decreases f
  {
    if f != [] {
      var rest := Joined(f[1..]);
      JoinedMarkup(f[1..]);
      match f[0]
      case Element(l, kids) =>
        JoinedMarkup(kids);
        assert ([Element(l, Joined(kids))] + rest)[1..] == rest;
      case Text(s) => JoinText(s, rest);
      case Comment =>
    }
  }

  lemma JoinText(s: string, rest: seq<Node>)
    ensures s == "" ==> Chars(s) + Markup(rest) == Markup(rest)
    ensures Markup([Text(s)] + rest) == Chars(s) + Markup(rest)
    ensures rest != [] && rest[0].Text? ==> Markup([Text(s + rest[0].data)] + rest[1..]) == Chars(s) + Markup(rest)
  {
    assert ([Text(s)] + rest)[1..] == rest;
    if s == "" { Unit(Markup(rest)); }
    if rest != [] && rest[0].Text? {
      var t, more := rest[0].data, rest[1..];
      assert ([Text(s + t)] + more)[1..] == more;
      CharsConcat(s, t);
      Assoc(Chars(s), Chars(t), Markup(more));
    }
  }

  // ---- A normal forest is determined by its markup

  /** What may follow a complete forest. */
  predicate Ends(x: seq<Token>) { x == [] || x[0].Close? }

  /** The characters at the front of a stream. */
  function Run(x: seq<Token>): (n: nat)
    ensures n <= |x|
    ensures forall i :: 0 <= i < n ==> x[i].Char?
    ensures n < |x| ==> !x[n].Char?
  {
    if x == [] || !x[0].Char? then 0 else 1 + Run(x[1..])
  }

  lemma {:induction false} RunOfChars(s: string, x: seq<Token>)
    requires x == [] || !x[0].Char?
    ensures Run(Chars(s) + x) == |s|
  {
    if s == "" {
      Unit(x);
    } else {
      assert (Chars(s) + x)[1..] == Chars(s[1..]) + x;
      RunOfChars(s[1..], x);
    }
  }

  lemma CharsInjective(s: string, t: string)
    requires Chars(s) == Chars(t)
    ensures s == t
  {
    forall i | 0 <= i < |s| ensures s[i] == t[i] {
      assert Chars(s)[i] == Char(s[i]) && Chars(t)[i] == Char(t[i]);
    }
  }

  /** The first token of a normal forest followed by `x`. */
  lemma FirstToken(f: seq<Node>, x: seq<Token>)
    requires Normal(f) && Ends(x)
    ensures var m := Markup(f) + x;
            && (f == [] ==> m == x)
            && (f != [] && f[0].Element? ==> m != [] && m[0] == Open(f[0].tag)
                                             && m[1..] == Markup(f[0].kids) + ([Close] + (Markup(f[1..]) + x)))
            && (f != [] && f[0].Text? ==> m == Chars(f[0].data) + (Markup(f[1..]) + x) && m[0].Char?)
  {
    if f == [] {
      Unit(x);
    } else if f[0].Element? {
      var k, rest := Markup(f[0].kids), Markup(f[1..]);
      Assoc5([Open(f[0].tag)], k, [Close], rest, x);
    } else {
      Assoc(Chars(f[0].data), Markup(f[1..]), x);
    }
  }

  /** After a text node of a normal forest comes no character. */
  lemma TextRun(f: seq<Node>, x: seq<Token>)
    requires Normal(f) && Ends(x) && f != [] && f[0].Text?
    ensures Run(Markup(f) + x) == |f[0].data|
  {
    FirstToken(f, x);
    FirstToken(f[1..], x);
    assert f[1..] != [] ==> f[1..][0] == f[1];
    RunOfChars(f[0].data, Markup(f[1..]) + x);
  }

  lemma {:induction false} MarkupDetermines(f: seq<Node>, x: seq<Token>, g: seq<Node>, y: seq<Token>)
    requires Normal(f) && Normal(g) && Ends(x) && Ends(y) && Markup(f) + x == Markup(g) + y
    ensures f == g && x == y
    decreases f
  {
    FirstToken(f, x);
    FirstToken(g, y);
    if f != [] && f[0].Element? {
      var x', y' := [Close] + (Markup(f[1..]) + x), [Close] + (Markup(g[1..]) + y);
      MarkupDetermines(f[0].kids, x', g[0].kids, y');
      Split([Close], Markup(f[1..]) + x);
      Split([Close], Markup(g[1..]) + y);
      MarkupDetermines(f[1..], x, g[1..], y);
      assert f == [f[0]] + f[1..] && g == [g[0]] + g[1..];
    } else if f != [] {
      TextRun(f, x);
      TextRun(g, y);
      var n := |f[0].data|;
      Split(Chars(f[0].data), Markup(f[1..]) + x);
      Split(Chars(g[0].data), Markup(g[1..]) + y);
      CharsInjective(f[0].data, g[0].data);
      MarkupDetermines(f[1..], x, g[1..], y);
      assert f == [f[0]] + f[1..] && g == [g[0]] + g[1..];
    }
  }

  /** Two forests with the same markup are the same up to joining text. */
  lemma SameMarkupSameTree(f: seq<Node>, g: seq<Node>)
    requires Markup(f) == Markup(g)
    ensures Joined(f) == Joined(g)
  {
    JoinedMarkup(f);
    JoinedMarkup(g);
    Unit(Markup(f));
    MarkupDetermines(Joined(f), [], Joined(g), []);
  }

  // ---- Removing the style elements

  function Unstyled(f: seq<Node>): seq<Node>
    decreases f
  {
    if f == [] then []
    else
      (if f[0].Element? then
         if f[0].tag.Style? then Unstyled(f[0].kids) else [f[0].(kids := Unstyled(f[0].kids))]
       else [f[0]]) + Unstyled(f[1..])
  }

  /** The same on markup, `open` being the elements open so far. */
  function WithoutStyles(m: seq<Token>, open: seq<Label>): seq<Token>
  {
    if m == [] then []
    else match m[0]
      case Open(l) => (if l.Style? then [] else [m[0]]) + WithoutStyles(m[1..], open + [l])
      case Close =>
        if open == [] then [Close] + WithoutStyles(m[1..], [])
        else (if open[|open| - 1].Style? then [] else [Close]) + WithoutStyles(m[1..], open[..|open| - 1])
      case Char(c) => [m[0]] + WithoutStyles(m[1..], open)
  }

  lemma {:induction false} WithoutStylesChars(s: string, m: seq<Token>, open: seq<Label>)
    ensures WithoutStyles(Chars(s) + m, open) == Chars(s) + WithoutStyles(m, open)
  {
    if s == "" {
      Unit(m);
      Unit(WithoutStyles(m, open));
    } else {
      WithoutStylesChars(s[1..], m, open);
      assert (Chars(s) + m)[1..] == Chars(s[1..]) + m;
      assert Chars(s) == [Char(s[0])] + Chars(s[1..]);
      Assoc([Char(s[0])], Chars(s[1..]), WithoutStyles(m, open));
    }
  }

  lemma WithoutStylesClose(m: seq<Token>, open: seq<Label>, l: Label)
    ensures WithoutStyles([Close] + m, open + [l]) == (if l.Style? then [] else [Close]) + WithoutStyles(m, open)
  {
    assert ([Close] + m)[1..] == m && (open + [l])[..|open|] == open;
  }

  /** Removing style elements from a tree removes their tags from its markup, and nothing else. */
  lemma {:induction false} UnstyledMarkup(f: seq<Node>, rest: seq<Token>, open: seq<Label>)
    ensures WithoutStyles(Markup(f) + rest, open) == Markup(Unstyled(f)) + WithoutStyles(rest, open)
    decreases f, 1
  {
    if f == [] {
      Unit(rest);
      Unit(WithoutStyles(rest, open));
    } else {
      var more := Markup(f[1..]) + rest;
      var tail := Markup(Unstyled(f[1..]));
      UnstyledMarkup(f[1..], rest, open);
      assert WithoutStyles(more, open) == tail + WithoutStyles(rest, open);
      match f[0]
      case Element(l, kids) => UnstyledElement(f, rest, open);
      case Text(s) =>
        Assoc(Chars(s), Markup(f[1..]), rest);
        WithoutStylesChars(s, more, open);
        assert ([f[0]] + Unstyled(f[1..]))[1..] == Unstyled(f[1..]);
        Assoc(Chars(s), tail, WithoutStyles(rest, open));
      case Comment =>
        assert ([f[0]] + Unstyled(f[1..]))[1..] == Unstyled(f[1..]);
    }
  }

  lemma {:induction false} UnstyledElement(f: seq<Node>, rest: seq<Token>, open: seq<Label>)
    requires f != [] && f[0].Element?
    requires WithoutStyles(Markup(f[1..]) + rest, open) == Markup(Unstyled(f[1..])) + WithoutStyles(rest, open)
    ensures WithoutStyles(Markup(f) + rest, open) == Markup(Unstyled(f)) + WithoutStyles(rest, open)
    decreases f, 0
  {
    var l, kids, others := f[0].tag, f[0].kids, f[1..];
    var more := Markup(others) + rest;
    var inner, tail, after := Markup(Unstyled(kids)), Markup(Unstyled(others)), WithoutStyles(rest, open);
    Assoc5([Open(l)], Markup(kids), [Close], Markup(others), rest);
    WithoutStylesOpen(Markup(kids) + ([Close] + more), open, l);
    UnstyledMarkup(kids, [Close] + more, open + [l]);
    WithoutStylesClose(more, open, l);
    UnstyledCons(f);
    if l.Style? {
      Unit(tail + after);
      Assoc(inner, tail, after);
    } else {
      Assoc5([Open(l)], inner, [Close], tail, after);
    }
  }

  lemma UnstyledCons(f: seq<Node>)
    requires f != [] && f[0].Element?
    ensures var inner, tail := Markup(Unstyled(f[0].kids)), Markup(Unstyled(f[1..]));
            Markup(Unstyled(f)) == if f[0].tag.Style? then inner + tail else [Open(f[0].tag)] + inner + [Close] + tail
  {
    var kids, others := Unstyled(f[0].kids), Unstyled(f[1..]);
    if f[0].tag.Style? {
      MarkupConcat(kids, others);
    } else {
      assert ([Element(f[0].tag, kids)] + others)[1..] == others;
    }
  }

  lemma WithoutStylesOpen(m: seq<Token>, open: seq<Label>, l: Label)
    ensures WithoutStyles([Open(l)] + m, open) == if l.Style? then WithoutStyles(m, open + [l])
              else [Open(l)] + WithoutStyles(m, open + [l])
  {
    assert ([Open(l)] + m)[1..] == m;
    Unit(WithoutStyles(m, open + [l]));
  }

  // ---- Which elements a character is in

  /** For every character, the elements it is in, outermost first. */
  function Paths(m: seq<Token>, open: seq<Label>): seq<seq<Label>>
  {
    if m == [] then []
    else match m[0]
      case Open(l) => Paths(m[1..], open + [l])
      case Close => Paths(m[1..], if open == [] then [] else open[..|open| - 1])
      case Char(c) => [open] + Paths(m[1..], open)
  }

  function Letters(m: seq<Token>): string
  {
    if m == [] then "" else (if m[0].Char? then [m[0].c] else "") + Letters(m[1..])
  }
}
