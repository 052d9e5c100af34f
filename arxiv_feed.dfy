/**
 * The literature fetcher `fetch_arxiv_papers(query)`: it asks the arXiv search
 * API for an Atom feed (RFC 4287), walks the feed's `entry` elements in
 * document order and appends one three-line block per entry to a text.
 *
 * The network request and the XML parser are not modelled: the fetcher is
 * given what they produced, a `FetchOutcome`. What the fetcher returns is a
 * `Result<Option<string>, Exception>`: `Ok(None)` is Python's `None`,
 * `Ok(Some(text))` a returned string, `Err(x)` an exception that escapes.
 */
module ArxivFeed {
  import opened Wrappers
  import opened Python

  /** The number of results the request asks for. */
  const MaxResults := 10

  /** A query-parameter value: `urlencode` is given a string or an integer. */
  datatype ParamValue = StrParam(s: string) | IntParam(n: int)

  /**
   * The parameters of the search request, given `quote(query)` (the quoting
   * itself is library code and is not modelled). The request asks for the
   * window of results that starts at the first one and holds at most ten.
   */
  function QueryParams(quotedQuery: string): (params: map<string, ParamValue>)
    ensures params.Keys == {"search_query", "start", "max_results"}
    ensures params["search_query"] == StrParam("all:" + quotedQuery)
    ensures params["start"] == IntParam(0) && params["max_results"] == IntParam(MaxResults)
  {
    map["search_query" := StrParam("all:" + quotedQuery),
        "start" := IntParam(0),
        "max_results" := IntParam(MaxResults)]
  }

  /**
   * What `entry.find(path)` gives: no element (`None`), or an element with
   * its `.text`, which is `None` when the element is empty.
   */
  datatype Element = Absent | Present(text: Option<string>)

  /**
   * The parts of one Atom `entry` that the loop reads: its first `title`
   * child (section 4.2.14 of RFC 4287), its first `published` child (section
   * 4.2.9), and, for each `author` child in document order (section 4.2.1),
   * that author's first `name` child (section 3.2.1).
   */
  datatype Entry = Entry(title: Element, published: Element, authorNames: seq<Element>)

  /** What the request and the parse produced. */
  datatype FetchOutcome =
    | UrlError              // `urlopen` or the read raised `URLError`
    | Undecodable           // the body is not UTF-8
    | MalformedXml          // the body is not well-formed XML
    | Feed(entries: seq<Entry>)  // the `entry` elements of the feed, in document order

  /** The values one block is made of, as the loop holds them before formatting. */
  datatype Paper = Paper(title: Option<string>, year: string, firstAuthor: Option<string>)

  /**
   * `entry.find("author/name")`: the first `name` element under any `author`,
   * in document order. An author without a name is passed over.
   */
  function FirstAuthorName(names: seq<Element>): (e: Element)
    ensures e.Present? <==> exists k :: 0 <= k < |names| && names[k].Present?
    ensures e.Present? ==>
      exists k :: 0 <= k < |names| && names[k] == e && forall m :: 0 <= m < k ==> names[m].Absent?
  {
    if names == [] then Absent
    else if names[0].Present? then names[0]
    else
      var rest := FirstAuthorName(names[1..]);
      assert forall k :: 1 <= k < |names| ==> names[k] == names[1..][k - 1];
      rest
  }

  /**
   * `published[:4]`: the first four characters of the timestamp, or all of it
   * when it is shorter. Nothing checks that they are digits.
   */
  function Year(published: string): (year: string)
    ensures year <= published
    ensures |year| == if |published| < 4 then |published| else 4
  {
    if |published| < 4 then published else published[..4]
  }

  /**
   * The three lookups and the slice of one loop iteration. A missing element
   * fails on `.text`; an empty `published` element fails on the slice. An
   * empty `title` or author `name` is not a failure: it prints as `None`.
   */
  function ToPaper(e: Entry): (r: Result<Paper, Exception>)
    ensures r.Ok? <==>
      e.title.Present? && e.published.Present? && e.published.text.Some? &&
      FirstAuthorName(e.authorNames).Present?
    ensures e.title.Absent? || e.published.Absent? || FirstAuthorName(e.authorNames).Absent? ==>
      r == Err(AttributeError)
    ensures (e.title.Present? && e.published.Present? && FirstAuthorName(e.authorNames).Present? &&
             e.published.text.None?) ==> r == Err(TypeError)
    ensures r.Ok? ==>
      r.value.title == e.title.text &&
      r.value.year == Year(e.published.text.value) &&
      r.value.firstAuthor == FirstAuthorName(e.authorNames).text
  {
    var author := FirstAuthorName(e.authorNames);
    if e.title.Absent? || e.published.Absent? || author.Absent? then Err(AttributeError)
    else if e.published.text.None? then Err(TypeError)
    else Ok(Paper(e.title.text, Year(e.published.text.value), author.text))
  }

  /** The fixed three-line block of one paper, followed by a blank line. */
  function Block(p: Paper): (b: string)
    ensures "Title: " <= b
    ensures |b| >= 2 && b[|b| - 2..] == "\n\n"
  {
    "Title: " + FormatValue(p.title) + "\nYear: " + p.year +
    "\nFirst Author: " + FormatValue(p.firstAuthor) + "\n\n"
  }

  /** The texts of `parts` joined in order, as repeated `+=` builds them. */
  function Concat(parts: seq<string>): string
  {
    if parts == [] then "" else Concat(parts[..|parts| - 1]) + parts[|parts| - 1]
  }

  /** The block of each paper, in order. */
  function Blocks(ps: seq<Paper>): (bs: seq<string>)
    ensures |bs| == |ps| && forall k :: 0 <= k < |ps| ==> bs[k] == Block(ps[k])
  {
    seq(|ps|, k requires 0 <= k < |ps| => Block(ps[k]))
  }

  /**
   * `papers_text` after the loop: the blocks of `ps`, in order, one after the
   * other. It is empty without papers; otherwise it starts with the block of
   * the first paper.
   */
  function Listing(ps: seq<Paper>): (text: string)
    ensures ps == [] ==> text == ""
    ensures ps != [] ==> Block(ps[0]) <= text
  {
    var bs := Blocks(ps);
    FirstPartLeads(bs);
    Concat(bs)
  }

  /** The first part is a prefix of the joined text. */
  lemma {:induction false} FirstPartLeads(parts: seq<string>)
    ensures parts != [] ==> parts[0] <= Concat(parts)
    decreases |parts|
  {
    if |parts| > 1 {
      var init := parts[..|parts| - 1];
      FirstPartLeads(init);
      assert init[0] == parts[0];
    }
  }

  /**
   * The papers of the entries, in order, or the exception of the first entry
   * that fails.
   */
  function Papers(es: seq<Entry>): (r: Result<seq<Paper>, Exception>)
    ensures r.Ok? <==> forall k :: 0 <= k < |es| ==> ToPaper(es[k]).Ok?
    ensures r.Ok? ==> |r.value| == |es| && forall k :: 0 <= k < |es| ==> ToPaper(es[k]) == Ok(r.value[k])
    ensures r.Err? ==>
      exists k :: 0 <= k < |es| && ToPaper(es[k]) == Err(r.error) &&
        forall m :: 0 <= m < k ==> ToPaper(es[m]).Ok?
  {
    if es == [] then Ok([])
    else
      var init := es[..|es| - 1];
      assert forall k :: 0 <= k < |init| ==> init[k] == es[k];
      match Papers(init)
      case Err(x) => Err(x)
      case Ok(ps) =>
        match ToPaper(es[|es| - 1])
        case Err(x) => Err(x)
        case Ok(p) => Ok(ps + [p])
  }

  /**
   * `fetch_arxiv_papers` as a function of what the request and the parse
   * produced. Only a `URLError` gives `None`; a feed without entries gives
   * the empty text; an entry that fails makes the whole call fail, with no
   * partial text.
   */
  function FetchArxiv(feed: FetchOutcome): (r: Result<Option<string>, Exception>)
    ensures r == Ok(None) <==> feed.UrlError?
    ensures r == Ok(Some("")) <==> feed == Feed([])
    ensures feed.Feed? ==> (r.Ok? <==> forall k :: 0 <= k < |feed.entries| ==> ToPaper(feed.entries[k]).Ok?)
    ensures r.Ok? ==> feed.UrlError? || feed.Feed?
    ensures feed.Undecodable? ==> r == Err(UnicodeDecodeError)
    ensures feed.MalformedXml? ==> r == Err(ParseError)
  {
    match feed
    case UrlError => Ok(None)
    case Undecodable => Err(UnicodeDecodeError)
    case MalformedXml => Err(ParseError)
    case Feed(es) =>
      match Papers(es)
      case Ok(ps) => ListingIsEmpty(ps); Ok(Some(Listing(ps)))
      case Err(x) => Err(x)
  }

  /** The listing is empty exactly when there are no papers: every block has text. */
  lemma ListingIsEmpty(ps: seq<Paper>)
    ensures Listing(ps) == "" <==> ps == []
  {
  }

  /** Joining is a homomorphism: joining `a + b` joins `a`, then `b`. */
  lemma {:induction false} ConcatAppend(a: seq<string>, b: seq<string>)
    ensures Concat(a + b) == Concat(a) + Concat(b)
    decreases |b|
  {
    if b == [] {
      assert a + b == a;
    } else {
      var init := b[..|b| - 1];
      assert (a + b)[..|a + b| - 1] == a + init;
      ConcatAppend(a, init);
    }
  }

  /** The listing of `a + b` is the listing of `a`, then that of `b`: the loop only appends. */
  lemma ListingAppend(a: seq<Paper>, b: seq<Paper>)
    ensures Listing(a + b) == Listing(a) + Listing(b)
  {
    assert Blocks(a + b) == Blocks(a) + Blocks(b);
    ConcatAppend(Blocks(a), Blocks(b));
  }

  /**
   * Block `k` of the listing is the block of paper `k`: it comes after the
   * blocks of the papers before it and before those of the papers after it.
   */
  lemma BlockInListing(ps: seq<Paper>, k: nat)
    requires k < |ps|
    ensures Listing(ps) == Listing(ps[..k]) + Block(ps[k]) + Listing(ps[k + 1..])
  {
    assert ps == ps[..k] + ([ps[k]] + ps[k + 1..]);
    ListingAppend(ps[..k], [ps[k]] + ps[k + 1..]);
    ListingAppend([ps[k]], ps[k + 1..]);
    ListingOfOne(ps[k]);
    assert Listing([ps[k]] + ps[k + 1..]) == Block(ps[k]) + Listing(ps[k + 1..]);
  }

  /** A single paper is listed as its block alone. */
  lemma ListingOfOne(p: Paper)
    ensures Listing([p]) == Block(p)
  {
    var bs := Blocks([p]);
    assert bs == [Block(p)];
    assert bs[..0] == [];
    assert Concat(bs) == Concat(bs[..0]) + bs[0];
  }

  /**
   * The first entry that fails decides the outcome: the exception of entry
   * `i` escapes when every entry before it succeeds.
   */
  lemma FirstFailureDecides(es: seq<Entry>, i: nat)
    requires i < |es|
    requires Papers(es[..i]).Ok?
    requires ToPaper(es[i]).Err?
    ensures Papers(es) == Err(ToPaper(es[i]).error)
  {
    var before := es[..i];
    forall m | 0 <= m < i
      ensures ToPaper(es[m]).Ok?
    {
      assert before[m] == es[m];
    }
    var r := Papers(es);
    var k :| 0 <= k < |es| && ToPaper(es[k]) == Err(r.error) &&
      forall m :: 0 <= m < k ==> ToPaper(es[m]).Ok?;
    assert k == i;
  }

  /** One more entry that succeeds adds its paper at the end. */
  lemma PapersStep(es: seq<Entry>, i: nat, ps: seq<Paper>)
    requires i < |es| && Papers(es[..i]) == Ok(ps) && ToPaper(es[i]).Ok?
    ensures Papers(es[..i + 1]) == Ok(ps + [ToPaper(es[i]).value])
  {
    assert es[..i + 1][..i] == es[..i];
  }

  /**
   * The returned text holds one block per entry; the bound of ten blocks
   * comes only from the requested `max_results`, not from the loop.
   */
  lemma AtMostMaxResultsPapers(quotedQuery: string, es: seq<Entry>)
    requires |es| <= QueryParams(quotedQuery)["max_results"].n
    requires FetchArxiv(Feed(es)).Ok?
    ensures FetchArxiv(Feed(es)) == Ok(Some(Listing(Papers(es).value)))
    ensures |Blocks(Papers(es).value)| == |es| <= MaxResults
  {
  }

  /**
   * Over a feed whose entries all succeed, block `k` of the returned text is
   * the block of the paper read from entry `k`.
   */
  lemma BlockOfEntry(es: seq<Entry>, k: nat)
    requires k < |es|
    requires FetchArxiv(Feed(es)).Ok?
    ensures var ps := Papers(es).value;
      FetchArxiv(Feed(es)) == Ok(Some(Listing(ps))) && |ps| == |es| && ToPaper(es[k]) == Ok(ps[k]) &&
      Listing(ps) == Listing(ps[..k]) + Block(ps[k]) + Listing(ps[k + 1..])
  {
    var ps := Papers(es).value;
    assert FetchArxiv(Feed(es)) == Ok(Some(Listing(ps)));
    BlockInListing(ps, k);
  }

  /**
   * The entry loop of `fetch_arxiv_papers`: `papers_text` starts empty and
   * each iteration appends the block of the next entry. After `i` entries it
   * is the listing of their papers.
   */
  method FetchArxivPapers(feed: FetchOutcome) returns (r: Result<Option<string>, Exception>)
    ensures r == FetchArxiv(feed)
  {
    match feed {
      case UrlError => return Ok(None);
      case Undecodable => return Err(UnicodeDecodeError);
      case MalformedXml => return Err(ParseError);
      case Feed(es) =>
        var papersText := "";
        ghost var papers: seq<Paper> := [];
        for i := 0 to |es|
          invariant Papers(es[..i]) == Ok(papers)
          invariant papersText == Listing(papers)
        {
          var paper := ToPaper(es[i]);
          if paper.Err? {
            FirstFailureDecides(es, i);
            return Err(paper.error);
          }
          PapersStep(es, i, papers);
          ListingAppend(papers, [paper.value]);
          ListingOfOne(paper.value);
          papers := papers + [paper.value];
          papersText := papersText + Block(paper.value);
        }
        assert es[..|es|] == es;
        return Ok(Some(papersText));
    }
  }
}
