/**
 * The line structure of the text the literature fetcher returns. When no
 * title, year or author name holds a newline, splitting the text at its
 * newlines gives back, for each paper in order, its title line, its year line,
 * its author line and a blank line, followed by the empty remainder after the
 * last newline. So the number of blocks, their order and their template can be
 * read back from the text. (Titles in arXiv feeds do sometimes hold newlines;
 * for those the blocks cannot be told apart by lines alone.)
 */
module ListingText {
  import opened Python
  import opened ArxivFeed

  /** Python's `text.split("\n")`: the pieces between newlines, the last one possibly empty. */
  function SplitLines(text: string): (lines: seq<string>)
    ensures |lines| >= 1
  {
    if text == [] then [""]
    else
      var rest := SplitLines(text[1..]);
      if text[0] == '\n' then [""] + rest else [[text[0]] + rest[0]] + rest[1..]
  }

  predicate OneLine(w: string) {
    '\n' !in w
  }

  /** The title, year and author of `p` each print on a single line. */
  predicate OneLineFields(p: Paper) {
    OneLine(FormatValue(p.title)) && OneLine(p.year) && OneLine(FormatValue(p.firstAuthor))
  }

  /** The four lines of the block of `p`: three labelled lines and a blank one. */
  function PaperLines(p: Paper): seq<string>
  {
    ["Title: " + FormatValue(p.title), "Year: " + p.year, "First Author: " + FormatValue(p.firstAuthor), ""]
  }

  /** The lines of the blocks of `ps`, in order. */
  function LinesOf(ps: seq<Paper>): (lines: seq<string>)
    ensures |lines| == 4 * |ps|
    ensures forall k :: 0 <= k < |ps| ==> lines[4 * k..4 * k + 4] == PaperLines(ps[k])
  {
    if ps == [] then []
    else
      var init := LinesOf(ps[..|ps| - 1]);
      var lines := init + PaperLines(ps[|ps| - 1]);
      assert forall k :: 0 <= k < |ps| - 1 ==> lines[4 * k..4 * k + 4] == init[4 * k..4 * k + 4];
      lines
  }

  /** A text without a newline is a single line. */
  lemma {:induction false} SplitOneLine(w: string)
    requires OneLine(w)
    ensures SplitLines(w) == [w]
  {
    if w != [] {
      assert w[0] in w;
      assert OneLine(w[1..]) by {
        forall c | c in w[1..] ensures c != '\n' {
          assert c in w;
        }
      }
      SplitOneLine(w[1..]);
      assert [w[0]] + w[1..] == w;
    }
  }

  /**
   * The lines of `x + y` given those of `x` and of `y`: the last line of `x`
   * runs on into the first line of `y`.
   */
  function Glue(lx: seq<string>, ly: seq<string>): seq<string>
    requires |lx| >= 1 && |ly| >= 1
  {
    lx[..|lx| - 1] + [lx[|lx| - 1] + ly[0]] + ly[1..]
  }

  /** Gluing after a leading empty line keeps that line in front. */
  lemma GlueAfterNewline(lr: seq<string>, ly: seq<string>)
    requires |lr| >= 1 && |ly| >= 1
    ensures Glue([""] + lr, ly) == [""] + Glue(lr, ly)
  {
  }

  /** Gluing after a character that starts the first line keeps it at the front of that line. */
  lemma GlueAfterChar(c: char, lr: seq<string>, ly: seq<string>)
    requires |lr| >= 1 && |ly| >= 1
    ensures var g := Glue(lr, ly);
      Glue([[c] + lr[0]] + lr[1..], ly) == [[c] + g[0]] + g[1..]
  {
    var g := Glue(lr, ly);
    var lx := [[c] + lr[0]] + lr[1..];
    if |lr| == 1 {
      assert g == [lr[0] + ly[0]] + ly[1..];
      assert [c] + (lr[0] + ly[0]) == ([c] + lr[0]) + ly[0];
    } else {
      assert g[0] == lr[0];
      assert g[1..] == lr[1..|lr| - 1] + [lr[|lr| - 1] + ly[0]] + ly[1..];
      assert lx[..|lx| - 1] == [[c] + lr[0]] + lr[1..|lr| - 1];
    }
  }

  /** Splitting a concatenation glues the lines of its two parts. */
  lemma {:induction false} SplitConcat(x: string, y: string)
    ensures SplitLines(x + y) == Glue(SplitLines(x), SplitLines(y))
    decreases |x|
  {
    var ly := SplitLines(y);
    if x == [] {
      assert x + y == y;
      assert "" + ly[0] == ly[0] && [ly[0]] + ly[1..] == ly;
      assert Glue([""], ly) == ly;
    } else {
      var rest := x[1..];
      assert (x + y)[0] == x[0] && (x + y)[1..] == rest + y;
      SplitConcat(rest, y);
      if x[0] == '\n' {
        GlueAfterNewline(SplitLines(rest), ly);
      } else {
        GlueAfterChar(x[0], SplitLines(rest), ly);
      }
    }
  }

  /** A text that starts with a newline starts with an empty line. */
  lemma SplitAfterNewline(rest: string)
    ensures SplitLines("\n" + rest) == [""] + SplitLines(rest)
  {
  }

  /** A single line glued to lines that start empty stays a line of its own. */
  lemma GlueLineBeforeEmpty(w: string, lines: seq<string>)
    ensures Glue([w], [""] + lines) == [w] + lines
  {
    assert w + "" == w;
  }

  /** Lines that end with an empty line take the next lines as they are. */
  lemma GlueAfterEmpty(front: seq<string>, lines: seq<string>)
    requires |lines| >= 1
    ensures Glue(front + [""], lines) == front + lines
  {
    var lx := front + [""];
    assert lx[..|lx| - 1] == front;
    assert "" + lines[0] == lines[0] && [lines[0]] + lines[1..] == lines;
  }

  /** A line, a newline, then the rest: the line comes first, then the lines of the rest. */
  lemma LineThenRest(w: string, rest: string)
    requires OneLine(w)
    ensures SplitLines(w + "\n" + rest) == [w] + SplitLines(rest)
  {
    var tail := "\n" + rest;
    assert w + "\n" + rest == w + tail;
    SplitOneLine(w);
    SplitConcat(w, tail);
    SplitAfterNewline(rest);
    GlueLineBeforeEmpty(w, SplitLines(rest));
  }

  /**
   * The block of a paper whose fields are single lines splits into its
   * title, year and author lines, a blank line, and the empty remainder.
   */
  lemma BlockLines(p: Paper)
    requires OneLineFields(p)
    ensures SplitLines(Block(p)) == PaperLines(p) + [""]
  {
    var t, y, a := "Title: " + FormatValue(p.title), "Year: " + p.year, "First Author: " + FormatValue(p.firstAuthor);
    LabelledLine("Title: ", FormatValue(p.title));
    LabelledLine("Year: ", p.year);
    LabelledLine("First Author: ", FormatValue(p.firstAuthor));
    BlockAsLines(p);
    LineThenRest("", "");
    LineThenRest(a, "" + "\n" + "");
    LineThenRest(y, a + "\n" + ("" + "\n" + ""));
    LineThenRest(t, y + "\n" + (a + "\n" + ("" + "\n" + "")));
  }

  /** A label and a value that are single lines make a single line. */
  lemma LabelledLine(tag: string, value: string)
    requires OneLine(tag) && OneLine(value)
    ensures OneLine(tag + value)
  {
  }

  /** The block of `p` is its three labelled lines, each ended by a newline, then a blank line. */
  lemma BlockAsLines(p: Paper)
    ensures Block(p) ==
      ("Title: " + FormatValue(p.title)) + "\n" +
      (("Year: " + p.year) + "\n" +
       (("First Author: " + FormatValue(p.firstAuthor)) + "\n" + ("" + "\n" + "")))
  {
  }

  /**
   * Two texts that each end with a newline: the lines of the first, then
   * those of the second, then the empty remainder.
   */
  lemma LinesAfterNewline(x: string, y: string, lx: seq<string>, ly: seq<string>)
    requires SplitLines(x) == lx + [""] && SplitLines(y) == ly + [""]
    ensures SplitLines(x + y) == lx + ly + [""]
  {
    SplitConcat(x, y);
    GlueAfterEmpty(lx, ly + [""]);
    assert lx + (ly + [""]) == lx + ly + [""];
  }

  /** The listing is that of all papers but the last, then the last one's block. */
  lemma ListingOfLast(ps: seq<Paper>)
    requires ps != []
    ensures Listing(ps) == Listing(ps[..|ps| - 1]) + Block(ps[|ps| - 1])
  {
    assert ps == ps[..|ps| - 1] + [ps[|ps| - 1]];
    ListingAppend(ps[..|ps| - 1], [ps[|ps| - 1]]);
    ListingOfOne(ps[|ps| - 1]);
  }

  /**
   * When every field is a single line, the lines of the fetched text are the
   * four lines of each paper's block, in order, then the empty remainder: one
   * block per paper, `4 * |ps| + 1` lines in all.
   */
  lemma {:induction false} ListingLines(ps: seq<Paper>)
    requires forall k :: 0 <= k < |ps| ==> OneLineFields(ps[k])
    ensures SplitLines(Listing(ps)) == LinesOf(ps) + [""]
    ensures |SplitLines(Listing(ps))| == 4 * |ps| + 1
    decreases |ps|
  {
    if ps != [] {
      var init, last := ps[..|ps| - 1], ps[|ps| - 1];
      ListingOfLast(ps);
      assert forall k :: 0 <= k < |init| ==> init[k] == ps[k];
      ListingLines(init);
      BlockLines(last);
      LinesAfterNewline(Listing(init), Block(last), LinesOf(init), PaperLines(last));
    }
  }
}
