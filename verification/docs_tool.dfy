/** The documentation tool (`fetchAndQueryDocumentation`, which the tool's
    `execute` forwards to): fetch a page, normalise its HTML to text, and
    return the trimmed lines that include the query, ignoring case. */
module DocsTool {
  import opened Text
  import opened HtmlText

  /** What the fetch produced: nothing (the request itself threw), or a
      response with its `ok` flag, status code and body text. */
  datatype Fetched = Unreachable | Response(ok: bool, status: int, body: string)

  /** The tool's outcome: its result object, or the error it throws, whose
      message names the documentation URL. */
  datatype ToolResult =
    | Snippets(snippets: seq<string>, sourceUrl: string)
    | Failure(url: string)

  /** A line is kept when, trimmed, it is non-empty and its lower-case form
      includes the lower-case query. */
  predicate Keep(line: string, query: string) {
    var t := Trim(line);
    t != [] && Contains(Lower(t), Lower(query))
  }

  /** What the tool promises of each snippet it returns for `query`. */
  predicate IsSnippetFor(snippet: string, query: string) {
    && snippet != []
    && Trim(snippet) == snippet
    && Contains(Lower(snippet), Lower(query))
  }

  /** The trimmed kept lines, in their original order: one for each line
      the filter keeps, so never more than it is given. */
  function MatchingLines(lines: seq<string>, query: string): (r: seq<string>)
    ensures |r| == |KeptIndices(lines, query)| <= |lines|
    decreases |lines|
  {
    if lines == [] then []
    else
      var n := |lines| - 1;
      var last := lines[n];
      KeptIndicesStep(lines, query);
      MatchingLines(lines[..n], query) + (if Keep(last, query) then [Trim(last)] else [])
  }

  /** A kept line, trimmed, is a snippet. */
  lemma KeptLineIsSnippet(line: string, query: string)
    requires Keep(line, query)
    ensures IsSnippetFor(Trim(line), query)
  {
    TrimIdempotent(line);
  }

  /** Which of `lines` the filter keeps. */
  function Marks(lines: seq<string>, query: string): (m: seq<bool>)
    ensures |m| == |lines|
    ensures forall i :: 0 <= i < |lines| ==> m[i] == Keep(lines[i], query)
  {
    seq(|lines|, i requires 0 <= i < |lines| => Keep(lines[i], query))
  }

  /** The positions of the `true` entries of `m`, in increasing order:
      every one of them, and nothing else. */
  function TrueIndices(m: seq<bool>): (idx: seq<nat>)
    ensures forall k :: 0 <= k < |idx| ==> idx[k] < |m| && m[idx[k]]
    ensures forall k, l :: 0 <= k < l < |idx| ==> idx[k] < idx[l]
    ensures forall i :: 0 <= i < |m| && m[i] ==> i in idx
    decreases |m|
  {
    if m == [] then []
    else
      var n := |m| - 1;
      var kept := TrueIndices(m[..n]);
      assert forall i :: 0 <= i < n ==> m[..n][i] == m[i];
      kept + (if m[n] then [n] else [])
  }

  /** The indices of the lines the filter keeps. */
  function KeptIndices(lines: seq<string>, query: string): (idx: seq<nat>)
    ensures forall k :: 0 <= k < |idx| ==> idx[k] < |lines| && Keep(lines[idx[k]], query)
    ensures forall k, l :: 0 <= k < l < |idx| ==> idx[k] < idx[l]
    ensures forall i :: 0 <= i < |lines| && Keep(lines[i], query) ==> i in idx
  {
    TrueIndices(Marks(lines, query))
  }

  /** Keeping one more line extends the kept indices by that line's index
      when it is kept. */
  lemma KeptIndicesStep(lines: seq<string>, query: string)
    requires lines != []
    ensures var n := |lines| - 1;
      KeptIndices(lines, query) == KeptIndices(lines[..n], query) + (if Keep(lines[n], query) then [n] else [])
  {
    var n := |lines| - 1;
    assert Marks(lines, query)[..n] == Marks(lines[..n], query);
  }

  /** The snippets are the kept lines, trimmed, as a subsequence of the
      input in its original order, and nothing else. */
  lemma {:induction false} MatchingLinesAreKeptLines(lines: seq<string>, query: string)
    ensures |MatchingLines(lines, query)| == |KeptIndices(lines, query)|
    ensures forall k :: 0 <= k < |KeptIndices(lines, query)| ==>
      MatchingLines(lines, query)[k] == Trim(lines[KeptIndices(lines, query)[k]])
    decreases |lines|
  {
    if lines != [] {
      var n := |lines| - 1;
      var init := lines[..n];
      MatchingLinesAreKeptLines(init, query);
      KeptIndicesStep(lines, query);
      var idx := KeptIndices(lines, query);
      var prefix := KeptIndices(init, query);
      var ml := MatchingLines(lines, query);
      var pml := MatchingLines(init, query);
      var kept := Keep(lines[n], query);
      assert ml == pml + (if kept then [Trim(lines[n])] else []);
      assert idx == prefix + (if kept then [n] else []);
      forall k | 0 <= k < |idx|
        ensures ml[k] == Trim(lines[idx[k]])
      {
        if k < |prefix| {
          assert ml[k] == pml[k] && idx[k] == prefix[k];
          assert init[prefix[k]] == lines[prefix[k]];
        }
      }
    }
  }

  /** Every line the filter returns is a snippet for the query. */
  lemma MatchingLinesAreSnippets(lines: seq<string>, query: string)
    ensures forall k :: 0 <= k < |MatchingLines(lines, query)| ==> IsSnippetFor(MatchingLines(lines, query)[k], query)
  {
    MatchingLinesAreKeptLines(lines, query);
    var idx := KeptIndices(lines, query);
    forall k | 0 <= k < |idx|
      ensures IsSnippetFor(MatchingLines(lines, query)[k], query)
    {
      KeptLineIsSnippet(lines[idx[k]], query);
    }
  }

  /** The loop of the tool: trim each line, keep it when it is non-empty
      and includes the query, ignoring case. */
  method FilterLines(lines: seq<string>, query: string) returns (snippets: seq<string>)
    ensures snippets == MatchingLines(lines, query)
    ensures forall k :: 0 <= k < |snippets| ==> IsSnippetFor(snippets[k], query)
  {
    snippets := [];
    var lowerQuery := Lower(query);
    for i := 0 to |lines|
      invariant snippets == MatchingLines(lines[..i], query)
    {
      var trimmed := Trim(lines[i]);
      if trimmed != [] && Contains(Lower(trimmed), lowerQuery) {
        snippets := snippets + [trimmed];
      }
      assert lines[..i + 1][..i] == lines[..i];
    }
    assert lines[..|lines|] == lines;
    MatchingLinesAreSnippets(lines, query);
  }

  /** Filtering one more line adds its trim when it is kept. */
  lemma MatchingLinesAppend(lines: seq<string>, line: string, query: string)
    ensures MatchingLines(lines + [line], query)
         == MatchingLines(lines, query) + (if Keep(line, query) then [Trim(line)] else [])
  {
    assert (lines + [line])[..|lines|] == lines;
  }

  /** A snippet is kept, unchanged. */
  lemma SnippetIsKept(snippet: string, query: string)
    requires IsSnippetFor(snippet, query)
    ensures Keep(snippet, query) && Trim(snippet) == snippet
  {
  }

  /** Filtering the snippets again with the same query changes nothing. */
  lemma {:induction false} FilterIdempotent(lines: seq<string>, query: string)
    ensures MatchingLines(MatchingLines(lines, query), query) == MatchingLines(lines, query)
    decreases |lines|
  {
    if lines != [] {
      var n := |lines| - 1;
      var init := lines[..n];
      var prev := MatchingLines(init, query);
      FilterIdempotent(init, query);
      FrontLast(lines);
      MatchingLinesAppend(init, lines[n], query);
      var ml := MatchingLines(lines, query);
      if Keep(lines[n], query) {
        var t := Trim(lines[n]);
        assert ml == prev + [t];
        KeptLineIsSnippet(lines[n], query);
        SnippetIsKept(t, query);
        MatchingLinesAppend(prev, t, query);
        assert MatchingLines(ml, query) == prev + [t];
      } else {
        assert ml == prev;
      }
    }
  }

  /** With an empty query a line is kept exactly when it is not blank. */
  lemma EmptyQueryKeepsNonBlankLines(lines: seq<string>)
    ensures forall i :: 0 <= i < |lines| ==> (i in KeptIndices(lines, []) <==> Trim(lines[i]) != [])
  {
    var idx := KeptIndices(lines, []);
    forall i | 0 <= i < |lines|
      ensures i in idx <==> Trim(lines[i]) != []
    {
      ContainsEmpty(Lower(Trim(lines[i])));
      assert Lower([]) == [];
      if i in idx {
        var k :| 0 <= k < |idx| && idx[k] == i;
      }
    }
  }

  /** The lines of the normalised page that the tool searches. */
  function PageLines(body: string): seq<string> {
    Split(Normalise(body), '\n')
  }

  /** The `k`-th match on a page is the page line it was taken from, which
      is free of tags, double whitespace and line breaks. */
  lemma PageMatchIsPageLine(body: string, query: string, k: int)
    requires 0 <= k < |KeptIndices(PageLines(body), query)|
    ensures var lines := PageLines(body);
      var line := lines[KeptIndices(lines, query)[k]];
      && |MatchingLines(lines, query)| == |KeptIndices(lines, query)|
      && MatchingLines(lines, query)[k] == line
      && !ContainsTag(line) && NoDoubleSpace(line) && '\n' !in line
  {
    var text := Normalise(body);
    var lines := PageLines(body);
    var i := KeptIndices(lines, query)[k];
    MatchingLinesAreKeptLines(lines, query);
    NoTagsIffTagFree(text);
    CleanTextLineShape(text, i);
    CleanTextLineTrimmed(text, i);
  }

  /** The snippets of a fetched page: normalise, split on line breaks, and
      filter. They are exactly the page lines that include the query, in
      page order (the per-line trim never changes a normalised line), and
      each is a single line without tags or double whitespace. */
  function FindSnippets(body: string, query: string): (r: seq<string>)
    ensures var lines := PageLines(body);
      var idx := KeptIndices(lines, query);
      |r| == |idx| && forall k :: 0 <= k < |idx| ==> r[k] == lines[idx[k]]
    ensures forall k :: 0 <= k < |r| ==> IsSnippetFor(r[k], query)
    ensures forall k :: 0 <= k < |r| ==> !ContainsTag(r[k]) && NoDoubleSpace(r[k]) && '\n' !in r[k]
  {
    var lines := PageLines(body);
    var r := MatchingLines(lines, query);
    MatchingLinesAreSnippets(lines, query);
    MatchingLinesAreKeptLines(lines, query);
    forall k | 0 <= k < |r|
      ensures r[k] == lines[KeptIndices(lines, query)[k]]
      ensures !ContainsTag(r[k]) && NoDoubleSpace(r[k]) && '\n' !in r[k]
    {
      PageMatchIsPageLine(body, query, k);
    }
    r
  }

  /** A page holding a paragraph and a division of plain text has the two
      texts as its lines. */
  lemma ParagraphAndDivLines(a: string, b: string)
    requires PlainText(a) && PlainText(b) && a != [] && b != []
    requires '\n' !in a && '\n' !in b
    ensures PageLines("<p>" + a + "</p>" + "<div>" + b + "</div>") == [a, b]
  {
    ParagraphAndDivBecomeTwoLines(a, b);
    var lines := [a, b];
    assert Join(lines, '\n') == a + "\n" + b by {
      assert lines[1..] == [b];
    }
    SplitJoin(lines, '\n');
  }

  /** The filter on two lines that are already trimmed keeps each that
      includes the query. */
  lemma TwoTrimmedLinesMatching(a: string, b: string, query: string)
    requires a != [] && !IsSpace(a[0]) && !IsSpace(a[|a| - 1])
    requires b != [] && !IsSpace(b[0]) && !IsSpace(b[|b| - 1])
    ensures MatchingLines([a, b], query)
         == (if Contains(Lower(a), Lower(query)) then [a] else [])
          + (if Contains(Lower(b), Lower(query)) then [b] else [])
  {
    TrimOfTrimmed(a);
    TrimOfTrimmed(b);
    assert Keep(a, query) == Contains(Lower(a), Lower(query));
    assert Keep(b, query) == Contains(Lower(b), Lower(query));
    MatchingLinesAppend([], a, query);
    MatchingLinesAppend([a], b, query);
    assert [] + [a] == [a] && [a] + [b] == [a, b];
  }

  /** On a page holding a paragraph and a division of plain text, as in
      `<p>Hello Foo</p><div>Bar</div>`, the snippets are those of the two
      texts that include the query, paragraph first. */
  lemma ParagraphAndDivSnippets(a: string, b: string, query: string)
    requires PlainText(a) && PlainText(b) && a != [] && b != []
    requires '\n' !in a && '\n' !in b
    ensures FindSnippets("<p>" + a + "</p>" + "<div>" + b + "</div>", query)
         == (if Contains(Lower(a), Lower(query)) then [a] else [])
          + (if Contains(Lower(b), Lower(query)) then [b] else [])
  {
    var body := "<p>" + a + "</p>" + "<div>" + b + "</div>";
    ParagraphAndDivLines(a, b);
    TwoTrimmedLinesMatching(a, b, query);
    assert FindSnippets(body, query) == MatchingLines(PageLines(body), query);
  }

  /** Ignoring case, `Hello Foo` includes `foo` and `Bar` does not. */
  lemma HelloFooQueryFacts()
    ensures Contains(Lower("Hello Foo"), Lower("foo"))
    ensures !Contains(Lower("Bar"), Lower("foo"))
  {
    var h, n := Lower("Hello Foo"), Lower("foo");
    assert h[6] == 'f' && h[7] == 'o' && h[8] == 'o';
    assert n[0] == 'f' && n[1] == 'o' && n[2] == 'o';
    assert h[6..9] == n;
    assert OccursAt(h, n, 6);
    var g := Lower("Bar");
    assert g[0] == 'b' && |g| == |n|;
    assert !OccursAt(g, n, 0) by {
      assert g[0..3][0] != n[0];
    }
  }

  /** `Hello Foo` and `Bar` are single lines of plain text. */
  lemma HelloFooIsPlain()
    ensures PlainText("Hello Foo") && '\n' !in "Hello Foo"
    ensures PlainText("Bar") && '\n' !in "Bar"
  {
    var a := "Hello Foo";
    forall i | 0 <= i < |a| - 1 ensures !IsSpace(a[i]) || !IsSpace(a[i + 1]) {
      assert a[i] == ' ' ==> i == 5;
    }
  }

  /** The page `<p>Hello Foo</p><div>Bar</div>` searched for `foo` yields
      the one line `Hello Foo`. */
  lemma HelloFooSnippets()
    ensures FindSnippets("<p>Hello Foo</p><div>Bar</div>", "foo") == ["Hello Foo"]
  {
    var a, b := "Hello Foo", "Bar";
    HelloFooIsPlain();
    assert "<p>Hello Foo</p><div>Bar</div>" == "<p>" + a + "</p>" + "<div>" + b + "</div>";
    ParagraphAndDivSnippets(a, b, "foo");
    HelloFooQueryFacts();
  }

  /** `fetchAndQueryDocumentation`: a failed or unsuccessful fetch becomes an
      error naming `docUrl`; a successful one yields the page lines that
      include the query and `docUrl` itself as the source. */
  function FetchAndQuery(docUrl: string, query: string, fetched: Fetched): (r: ToolResult)
    ensures r.Failure? <==> !(fetched.Response? && fetched.ok)
    ensures r.Failure? ==> r.url == docUrl
    ensures r.Snippets? ==> r.sourceUrl == docUrl
    ensures r.Snippets? ==> forall k :: 0 <= k < |r.snippets| ==>
      IsSnippetFor(r.snippets[k], query) && !ContainsTag(r.snippets[k]) && '\n' !in r.snippets[k]
    ensures fetched.Response? && fetched.ok ==> (
      var lines := PageLines(fetched.body);
      var idx := KeptIndices(lines, query);
      r.Snippets? && |r.snippets| == |idx|
      && forall k :: 0 <= k < |idx| ==> r.snippets[k] == lines[idx[k]])
  {
    match fetched
    case Response(true, _, body) => Snippets(FindSnippets(body, query), docUrl)
    case _ => Failure(docUrl)
  }
}
