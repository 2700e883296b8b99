/** The corpus builder of `ingest.py`: `parse_exa_result` turns one search
    result into a `Source:/URL:/Content:` text and an audit text,
    `fetch_and_process_data` runs the fixed queries and keeps one document per
    query that produced content, and `create_vector_db` refuses an empty
    document list.

    The search service, `json.loads` and the record pattern of
    `re.findall` are not modelled: their outcome for each query is an input,
    given as a `QueryOutcome` holding a `Shape`. */
module Ingest {
  import opened Wrappers
  import opened Text
  import opened Cleaning
  import opened Documents

  // ------------------------------------------------------------ result shapes

  /** The value of a result item's `text` key, as `clean_text` sees it. */
  datatype TextValue =
    | Falsy           // key absent, null, 0, "", [] or {}: `clean_text` returns ""
    | Str(s: string)  // a string
    | Unusable        // any other truthy value: the first `re.sub` raises

  /** One element of the JSON `results` list. `title` and `url` hold the text
      the f-string renders for the key's value, `None` when the key is absent. */
  datatype Item =
    | Object(title: Option<string>, url: Option<string>, text: TextValue)
    | NotAnObject     // `item.get` raises

  /** One `(title, url, text)` tuple found by the record pattern. */
  datatype Record = Record(title: string, url: string, text: string)

  /** What `json.loads` and the record pattern make of a raw result. */
  datatype Shape =
    | JsonResults(items: seq<Item>)  // an object whose `results` is a list
    | JsonOther                      // any other JSON value the `"results" in data` test accepts
    | JsonUnusable                   // a JSON value on which that test or `data["results"]` raises
    | NotJson(matches: seq<Record>)  // not JSON; the record matches, possibly none

  /** The pair `(clean_content, formatted_content)`. */
  datatype Parsed = Parsed(cleanContent: string, formattedContent: string)

  /** One search hit as it is printed: title, URL and cleaned text. */
  datatype Hit = Hit(title: string, url: string, content: string)

  // ------------------------------------------------------------ hits

  function OrDefault(v: Option<string>, fallback: string): string {
    match v
    case Some(s) => s
    case None => fallback
  }

  /** The cleaned text of an item, or `None` where `clean_text` raises. */
  function ItemText(v: TextValue): Option<string> {
    match v
    case Falsy => Some([])
    case Str(s) => Some(Clean(s))
    case Unusable => None
  }

  /** The hit a JSON item gives, or `None` where reading it raises. */
  function JsonHit(it: Item): Option<Hit> {
    match it
    case NotAnObject => None
    case Object(title, url, text) =>
      match ItemText(text)
      case None => None
      case Some(c) => Some(Hit(OrDefault(title, "No Title"), OrDefault(url, "No URL"), c))
  }

  /** The hits of all items, or `None` as soon as one item raises. */
  function Hits(items: seq<Item>): (r: Option<seq<Hit>>)
    ensures r.Some? ==> |r.value| == |items|
  {
    if items == [] then Some([])
    else
      match Hits(items[..|items| - 1])
      case None => None
      case Some(hs) =>
        match JsonHit(items[|items| - 1])
        case None => None
        case Some(h) => Some(hs + [h])
  }

  /** A record's fields are stripped before printing and before cleaning. */
  function RecordHit(r: Record): Hit {
    Hit(Strip(r.title), Strip(r.url), Clean(Strip(r.text)))
  }

  function RecordHits(ms: seq<Record>): (r: seq<Hit>)
    ensures |r| == |ms|
  {
    if ms == [] then [] else RecordHits(ms[..|ms| - 1]) + [RecordHit(ms[|ms| - 1])]
  }

  // ------------------------------------------------------------ printing

  /** `"=" * 50`. */
  const Rule: string := "=================================================="

  function Header(n: nat): string {
    "=== DOCUMENT " + NatToString(n) + " ===\n"
  }

  /** A hit's segment of `clean_content`. */
  function Entry(h: Hit): string {
    "Source: " + h.title + "\nURL: " + h.url + "\nContent: " + h.content + "\n\n"
  }

  /** A hit's block of `formatted_content`, numbered `n`. */
  function Block(n: nat, h: Hit): string {
    Header(n) + "TITLE: " + h.title + "\n" + "URL: " + h.url + "\n" + "CONTENT:\n" + h.content + "\n" + Rule + "\n"
  }

  function Concat(a: Parsed, b: Parsed): Parsed {
    Parsed(a.cleanContent + b.cleanContent, a.formattedContent + b.formattedContent)
  }

  /** What the `n`-th hit adds to both outputs: nothing when its cleaned text
      is empty. */
  function Piece(h: Hit, n: nat): Parsed {
    if h.content == [] then Parsed([], []) else Parsed(Entry(h), Block(n, h))
  }

  /** Both outputs grown over `hits` in order, hit `k` numbered `k + 1`. */
  function Assemble(hits: seq<Hit>): Parsed {
    if hits == [] then Parsed([], [])
    else Concat(Assemble(hits[..|hits| - 1]), Piece(hits[|hits| - 1], |hits|))
  }

  // ------------------------------------------------------------ parse_exa_result

  function ErrorRecovery(raw: string): Parsed {
    Parsed(Clean(raw), "=== ERROR RECOVERY ===\n" + Clean(raw) + "\n")
  }

  function Unstructured(raw: string): Parsed {
    Parsed(Clean(raw), "=== UNSTRUCTURED DATA ===\n" + Clean(raw) + "\n")
  }

  function RawText(raw: string): Parsed {
    Parsed("Source: Exa Search Result\nContent: " + Clean(raw), "=== RAW TEXT ===\n" + Clean(raw) + "\n")
  }

  /** `parse_exa_result(raw)` when `raw` parses to `shape`. */
  function ParseSpec(raw: string, shape: Shape): Parsed {
    match shape
    case JsonResults(items) =>
      (match Hits(items)
       case None => ErrorRecovery(raw)
       case Some(hs) => Assemble(hs))
    case JsonOther => Unstructured(raw)
    case JsonUnusable => ErrorRecovery(raw)
    case NotJson(ms) => if ms == [] then RawText(raw) else Assemble(RecordHits(ms))
  }

  /** The body both loops share: a hit with non-empty cleaned text is
      appended to both outputs as hit number `n`; any other is skipped. */
  method AppendHit(cleanContent: string, formattedContent: string, hit: Hit, n: nat)
    returns (cleanContent': string, formattedContent': string)
    ensures Parsed(cleanContent', formattedContent') == Concat(Parsed(cleanContent, formattedContent), Piece(hit, n))
  {
    cleanContent', formattedContent' := cleanContent, formattedContent;
    if hit.content != [] {
      cleanContent' := cleanContent' + Entry(hit);
      formattedContent' := formattedContent' + Block(n, hit);
    }
  }

  /** The loop over the JSON `results` list. `ok` is false when reading an
      item raised, which sends `parse_exa_result` to error recovery. */
  method AssembleItems(items: seq<Item>) returns (ok: bool, cleanContent: string, formattedContent: string)
    ensures ok <==> Hits(items).Some?
    ensures ok ==> Parsed(cleanContent, formattedContent) == Assemble(Hits(items).value)
  {
    cleanContent, formattedContent := "", "";
    ghost var hits: seq<Hit> := [];
    var i := 0;
    while i < |items|
      invariant 0 <= i <= |items|
      invariant Hits(items[..i]) == Some(hits)
      invariant Parsed(cleanContent, formattedContent) == Assemble(hits)
    {
      assert items[..i + 1][..i] == items[..i];
      var h := JsonHit(items[i]);
      if h.None? {
        HitsPrefixNone(items, i + 1);
        return false, cleanContent, formattedContent;
      }
      var hit := h.value;
      cleanContent, formattedContent := AppendHit(cleanContent, formattedContent, hit, i + 1);
      AssembleSnoc(hits, hit);
      hits := hits + [hit];
      i := i + 1;
    }
    assert items[..i] == items;
    return true, cleanContent, formattedContent;
  }

  /** The loop over the records the pattern found. */
  method AssembleRecords(ms: seq<Record>) returns (cleanContent: string, formattedContent: string)
    ensures Parsed(cleanContent, formattedContent) == Assemble(RecordHits(ms))
  {
    cleanContent, formattedContent := "", "";
    ghost var hits: seq<Hit> := [];
    var i := 0;
    while i < |ms|
      invariant 0 <= i <= |ms|
      invariant RecordHits(ms[..i]) == hits
      invariant Parsed(cleanContent, formattedContent) == Assemble(hits)
    {
      var hit := RecordHit(ms[i]);
      cleanContent, formattedContent := AppendHit(cleanContent, formattedContent, hit, i + 1);
      RecordHitsSnoc(ms, i);
      AssembleSnoc(hits, hit);
      hits := hits + [hit];
      i := i + 1;
    }
    assert ms[..i] == ms;
  }

  /** `parse_exa_result`: the JSON path, its two fallbacks, and the pattern
      path with its raw-text fallback. */
  method ParseExaResult(raw: string, shape: Shape) returns (cleanContent: string, formattedContent: string)
    ensures Parsed(cleanContent, formattedContent) == ParseSpec(raw, shape)
  {
    match shape {
      case JsonResults(items) =>
        var ok;
        ok, cleanContent, formattedContent := AssembleItems(items);
        if !ok {
          cleanContent := Clean(raw);
          formattedContent := "=== ERROR RECOVERY ===\n" + cleanContent + "\n";
        }
      case JsonOther =>
        cleanContent := Clean(raw);
        formattedContent := "=== UNSTRUCTURED DATA ===\n" + cleanContent + "\n";
      case JsonUnusable =>
        cleanContent := Clean(raw);
        formattedContent := "=== ERROR RECOVERY ===\n" + cleanContent + "\n";
      case NotJson(ms) =>
        if ms == [] {
          var cleanedText := Clean(raw);
          cleanContent := "Source: Exa Search Result\nContent: " + cleanedText;
          formattedContent := "=== RAW TEXT ===\n" + cleanedText + "\n";
        } else {
          cleanContent, formattedContent := AssembleRecords(ms);
        }
    }
  }

  /** Adding one hit at the end adds its piece, numbered by the new length. */
  lemma AssembleSnoc(hits: seq<Hit>, h: Hit)
    ensures Assemble(hits + [h]) == Concat(Assemble(hits), Piece(h, |hits| + 1))
  {
    assert (hits + [h])[..|hits|] == hits;
  }

  lemma RecordHitsSnoc(ms: seq<Record>, i: nat)
    requires i < |ms|
    ensures RecordHits(ms[..i + 1]) == RecordHits(ms[..i]) + [RecordHit(ms[i])]
  {
    assert ms[..i + 1][..i] == ms[..i];
  }

  /** Hit `k` of the pattern path is record `k`, stripped and cleaned. */
  lemma {:induction false} RecordHitsAt(ms: seq<Record>, k: nat)
    requires k < |ms|
    ensures RecordHits(ms)[k] == RecordHit(ms[k])
    decreases |ms|
  {
    if k < |ms| - 1 {
      assert ms[..|ms| - 1][k] == ms[k];
      RecordHitsAt(ms[..|ms| - 1], k);
    }
  }

  // ------------------------------------------------------------ properties of parse_exa_result

  /** Once one item raises, so does the whole `results` list. */
  lemma {:induction false} HitsPrefixNone(items: seq<Item>, n: nat)
    requires 0 < n <= |items| && JsonHit(items[n - 1]) == None
    ensures Hits(items) == None
    decreases |items|
  {
    if n < |items| {
      assert items[..|items| - 1][n - 1] == items[n - 1];
      HitsPrefixNone(items[..|items| - 1], n);
    }
  }

  /** The JSON path falls back to error recovery exactly when some item
      raises; otherwise hit `k` is item `k`'s. */
  lemma {:induction false} HitsSpec(items: seq<Item>)
    ensures Hits(items) == None <==> exists k :: 0 <= k < |items| && JsonHit(items[k]) == None
    ensures Hits(items).Some? ==> forall k :: 0 <= k < |items| ==> Some(Hits(items).value[k]) == JsonHit(items[k])
    decreases |items|
  {
    if items != [] {
      var init := items[..|items| - 1];
      HitsSpec(init);
      if Hits(items) == None {
        if Hits(init) != None {
          assert JsonHit(items[|items| - 1]) == None;
        } else {
          var k :| 0 <= k < |init| && JsonHit(init[k]) == None;
          assert items[k] == init[k];
        }
      } else {
        var hs := Hits(init).value;
        forall k | 0 <= k < |items| ensures JsonHit(items[k]) != None {
          if k < |init| {
            assert items[k] == init[k];
          }
        }
        forall k | 0 <= k < |items| ensures Some(Hits(items).value[k]) == JsonHit(items[k]) {
          if k < |init| {
            assert items[k] == init[k];
            assert Hits(items).value[k] == hs[k];
          }
        }
      }
    }
  }

  /** `clean_content` stays empty exactly when every hit's cleaned text is
      empty; then `formatted_content` is empty too. */
  lemma {:induction false} AssembleEmpty(hits: seq<Hit>)
    ensures Assemble(hits).cleanContent == [] <==> forall k :: 0 <= k < |hits| ==> hits[k].content == []
    ensures Assemble(hits).cleanContent == [] ==> Assemble(hits).formattedContent == []
    decreases |hits|
  {
    if hits != [] {
      AssembleEmpty(hits[..|hits| - 1]);
      forall k | 0 <= k < |hits| - 1 ensures hits[..|hits| - 1][k] == hits[k] {
      }
      PieceEmpty(hits[|hits| - 1], |hits|);
      ConcatEmpty(Assemble(hits[..|hits| - 1]), Piece(hits[|hits| - 1], |hits|));
    }
  }

  /** A hit adds text to `clean_content` exactly when its cleaned text is not
      empty, and adds to `formatted_content` only then. */
  lemma PieceEmpty(h: Hit, n: nat)
    ensures Piece(h, n).cleanContent == [] <==> h.content == []
    ensures Piece(h, n).cleanContent == [] ==> Piece(h, n).formattedContent == []
  {
    if h.content != [] {
      assert Entry(h)[0] == 'S';
    }
  }

  lemma ConcatEmpty(a: Parsed, b: Parsed)
    ensures Concat(a, b).cleanContent == [] <==> a.cleanContent == [] && b.cleanContent == []
    ensures Concat(a, b).formattedContent == [] <==> a.formattedContent == [] && b.formattedContent == []
  {
  }

  /** A hit whose cleaned text is empty adds nothing: its title and URL can be
      anything without changing either output. */
  lemma {:induction false} SkippedHitInvisible(hits: seq<Hit>, k: nat, other: Hit)
    requires k < |hits| && hits[k].content == [] && other.content == []
    ensures Assemble(hits[k := other]) == Assemble(hits)
    decreases |hits|
  {
    if k < |hits| - 1 {
      assert hits[k := other][..|hits| - 1] == hits[..|hits| - 1][k := other];
      SkippedHitInvisible(hits[..|hits| - 1], k, other);
    } else {
      assert hits[k := other][..k] == hits[..k];
    }
  }

  /** Every hit with non-empty cleaned text appears in `clean_content` as its
      entry and in `formatted_content` as its block, numbered with its
      original position plus one. */
  lemma {:induction false} KeptHitPrinted(hits: seq<Hit>, k: nat)
    requires k < |hits| && hits[k].content != []
    ensures Contains(Assemble(hits).cleanContent, Entry(hits[k]))
    ensures Contains(Assemble(hits).formattedContent, Block(k + 1, hits[k]))
    decreases |hits|
  {
    if k == |hits| - 1 {
      ConcatEnds(Assemble(hits[..k]), Piece(hits[k], k + 1));
    } else {
      assert hits[..|hits| - 1][k] == hits[k];
      KeptHitPrinted(hits[..|hits| - 1], k);
      ConcatKeeps(Assemble(hits[..|hits| - 1]), Piece(hits[|hits| - 1], |hits|), Parsed(Entry(hits[k]), Block(k + 1, hits[k])));
    }
  }

  lemma ConcatEnds(a: Parsed, b: Parsed)
    ensures Contains(Concat(a, b).cleanContent, b.cleanContent)
    ensures Contains(Concat(a, b).formattedContent, b.formattedContent)
  {
    ContainsSelf(b.cleanContent);
    ContainsSelf(b.formattedContent);
    ContainsInConcat(a.cleanContent, b.cleanContent, [], b.cleanContent);
    ContainsInConcat(a.formattedContent, b.formattedContent, [], b.formattedContent);
    assert a.cleanContent + b.cleanContent + [] == Concat(a, b).cleanContent;
    assert a.formattedContent + b.formattedContent + [] == Concat(a, b).formattedContent;
  }

  lemma ConcatKeeps(a: Parsed, b: Parsed, x: Parsed)
    requires Contains(a.cleanContent, x.cleanContent) && Contains(a.formattedContent, x.formattedContent)
    ensures Contains(Concat(a, b).cleanContent, x.cleanContent)
    ensures Contains(Concat(a, b).formattedContent, x.formattedContent)
  {
    ContainsInConcat([], a.cleanContent, b.cleanContent, x.cleanContent);
    ContainsInConcat([], a.formattedContent, b.formattedContent, x.formattedContent);
    assert [] + a.cleanContent + b.cleanContent == Concat(a, b).cleanContent;
    assert [] + a.formattedContent + b.formattedContent == Concat(a, b).formattedContent;
  }

  /** The header digits sit between a 13-character prefix and a 5-character
      suffix. */
  lemma HeaderDigits(n: nat)
    ensures 18 <= |Header(n)| && Header(n)[13..|Header(n)| - 5] == NatToString(n)
  {
    var h := Header(n);
    assert |"=== DOCUMENT "| == 13 && |" ===\n"| == 5;
    assert h == "=== DOCUMENT " + (NatToString(n) + " ===\n");
  }

  /** Distinct positions give distinct `DOCUMENT` headers. */
  lemma HeaderInjective(m: nat, n: nat)
    requires Header(m) == Header(n)
    ensures m == n
  {
    HeaderDigits(m);
    HeaderDigits(n);
    NatToStringRoundTrip(m);
    NatToStringRoundTrip(n);
  }

  /** A JSON value without a usable `results` list prints the whole cleaned
      result as unstructured data. */
  lemma ParseUnstructured(raw: string)
    ensures ParseSpec(raw, JsonOther).cleanContent == Clean(raw)
    ensures ParseSpec(raw, JsonOther).formattedContent == "=== UNSTRUCTURED DATA ===\n" + Clean(raw) + "\n"
  {
  }

  /** A `results` list with an item that raises falls back to error recovery,
      as does a JSON value the `results` test raises on. */
  lemma ParseFaultyItems(raw: string, items: seq<Item>, k: nat)
    requires k < |items| && JsonHit(items[k]) == None
    ensures ParseSpec(raw, JsonResults(items)) == ErrorRecovery(raw)
    ensures ParseSpec(raw, JsonUnusable) == ErrorRecovery(raw)
  {
    HitsPrefixNone(items, k + 1);
  }

  /** Text that is neither JSON nor matches the record pattern still gives
      content that is not blank, so the query contributes a document. */
  lemma RawTextNotBlank(raw: string)
    ensures Strip(ParseSpec(raw, NotJson([])).cleanContent) != []
  {
    var prefix := "Source: Exa Search Result\nContent: ";
    assert !IsSpace(prefix[0]);
    LabelledNotBlank(prefix, Clean(raw));
  }

  /** Text that starts with a visible character is not blank. */
  lemma LabelledNotBlank(prefix: string, c: string)
    requires prefix != [] && !IsSpace(prefix[0])
    ensures Strip(prefix + c) != []
  {
    assert (prefix + c)[0] == prefix[0];
    StripBlank(prefix + c);
  }

  // ------------------------------------------------------------ fetch_and_process_data

  const Queries: seq<string> := [
    "site:bankofmaharashtra.bank.in interest rates home loan",
    "site:bankofmaharashtra.bank.in personal loan eligibility",
    "site:bankofmaharashtra.bank.in Maha Super Flexi Housing Loan",
    "site:bankofmaharashtra.bank.in processing fee home loan",
    "site:bankofmaharashtra.bank.in education loan",
    "site:bankofmaharashtra.bank.in vehicle loan rates"
  ]

  /** What happened to one query: the search call or an audit-file write
      raised, or the search returned `raw`, which parses to `shape`. */
  datatype QueryOutcome = Failed | Fetched(raw: string, shape: Shape)

  /** The `clean_content` a query yields, or `None` when it raised. */
  function Content(outcome: QueryOutcome): Option<string> {
    match outcome
    case Failed => None
    case Fetched(raw, shape) => Some(ParseSpec(raw, shape).cleanContent)
  }

  function Contents(outcomes: seq<QueryOutcome>): (r: seq<Option<string>>)
    ensures |r| == |outcomes|
    ensures forall j :: 0 <= j < |outcomes| ==> r[j] == Content(outcomes[j])
  {
    seq(|outcomes|, j requires 0 <= j < |outcomes| => Content(outcomes[j]))
  }

  /** The document a query contributes, given the content it yields: only
      content that is not blank becomes a document. */
  function DocumentFor(query: string, content: Option<string>): (r: Option<Document>)
    ensures r.Some? <==> content.Some? && Strip(content.value) != []
    ensures r.Some? ==> r.value == Document(content.value, map["query" := query, "source" := BankName])
  {
    match content
    case None => None
    case Some(c) => if Strip(c) != [] then Some(Document(c, map["query" := query, "source" := BankName])) else None
  }

  /** What each query contributes, query by query. */
  function Contributions(queries: seq<string>, contents: seq<Option<string>>): (r: seq<Option<Document>>)
    requires |queries| == |contents|
    ensures |r| == |queries|
    ensures forall j :: 0 <= j < |queries| ==> r[j] == DocumentFor(queries[j], contents[j])
  {
    seq(|queries|, j requires 0 <= j < |queries| => DocumentFor(queries[j], contents[j]))
  }

  /** The documents of the queries in order. */
  function Collect(queries: seq<string>, contents: seq<Option<string>>): seq<Document>
    requires |queries| == |contents|
  {
    Somes(Contributions(queries, contents))
  }

  /** One more query appends its document, if any. */
  lemma CollectSnoc(queries: seq<string>, contents: seq<Option<string>>, i: nat)
    requires |queries| == |contents| && i < |queries|
    ensures Collect(queries[..i + 1], contents[..i + 1]) ==
      Collect(queries[..i], contents[..i]) + Somes([DocumentFor(queries[i], contents[i])])
  {
    assert Contributions(queries[..i + 1], contents[..i + 1]) ==
      Contributions(queries[..i], contents[..i]) + [DocumentFor(queries[i], contents[i])];
    SomesConcat(Contributions(queries[..i], contents[..i]), [DocumentFor(queries[i], contents[i])]);
  }

  /** The body of the query loop: parse the result and keep it as a
      document when its content is not blank; a failed query keeps nothing. */
  method FetchOne(query: string, outcome: QueryOutcome) returns (doc: Option<Document>)
    ensures doc == DocumentFor(query, Content(outcome))
  {
    match outcome {
      case Failed =>
        doc := None;
      case Fetched(raw, shape) =>
        var cleanContent, formattedContent := ParseExaResult(raw, shape);
        if Strip(cleanContent) != [] {
          doc := Some(Document(cleanContent, map["query" := query, "source" := BankName]));
        } else {
          doc := None;
        }
    }
  }

  /** The query loop; `outcomes[j]` is what query `j` gives. */
  method FetchAndProcessData(outcomes: seq<QueryOutcome>) returns (documents: seq<Document>, successfulQueries: nat)
    requires |outcomes| == |Queries|
    ensures documents == Collect(Queries, Contents(outcomes))
    ensures successfulQueries == |documents|
  {
    ghost var contents := Contents(outcomes);
    documents := [];
    successfulQueries := 0;
    var i := 0;
    while i < |Queries|
      invariant 0 <= i <= |Queries|
      invariant documents == Collect(Queries[..i], contents[..i])
      invariant successfulQueries == |documents|
    {
      CollectSnoc(Queries, contents, i);
      SomesNone();
      var doc := FetchOne(Queries[i], outcomes[i]);
      if doc.Some? {
        SomesOne(doc.value);
        documents := documents + [doc.value];
        successfulQueries := successfulQueries + 1;
      }
      i := i + 1;
    }
    assert Queries[..i] == Queries && contents[..i] == contents;
  }

  lemma SomesNone()
    ensures Somes<Document>([None]) == []
  {
    var none: seq<Option<Document>> := [None];
    assert none[..0] == [];
  }

  lemma SomesOne(d: Document)
    ensures Somes([Some(d)]) == [d]
  {
    assert [Some(d)][..0] == [];
  }

  // ------------------------------------------------------------ properties of the query loop

  /** At most one document per query, and each is a query's document, with
      the positions `idx` of the queries increasing. */
  lemma CollectOrigins(queries: seq<string>, contents: seq<Option<string>>) returns (idx: seq<nat>)
    requires |queries| == |contents|
    ensures |idx| == |Collect(queries, contents)| <= |queries|
    ensures forall k :: 0 <= k < |idx| ==>
      idx[k] < |queries| && DocumentFor(queries[idx[k]], contents[idx[k]]) == Some(Collect(queries, contents)[k])
    ensures forall k, l :: 0 <= k < l < |idx| ==> idx[k] < idx[l]
  {
    idx := SomesOrigins(Contributions(queries, contents));
  }

  /** Every collected document has content that is not blank, is labelled
      with the bank's name as its source, and carries the query it came from
      together with that query's content. */
  lemma CollectedDocuments(queries: seq<string>, contents: seq<Option<string>>)
    requires |queries| == |contents|
    ensures forall d :: d in Collect(queries, contents) ==>
      && Strip(d.pageContent) != []
      && d.metadata.Keys == {"query", "source"}
      && d.metadata["source"] == BankName
      && exists j :: 0 <= j < |queries| && queries[j] == d.metadata["query"] && contents[j] == Some(d.pageContent)
  {
    var idx := CollectOrigins(queries, contents);
    forall d | d in Collect(queries, contents)
      ensures Strip(d.pageContent) != [] && d.metadata.Keys == {"query", "source"} && d.metadata["source"] == BankName
      ensures exists j :: 0 <= j < |queries| && queries[j] == d.metadata["query"] && contents[j] == Some(d.pageContent)
    {
      var k :| 0 <= k < |Collect(queries, contents)| && Collect(queries, contents)[k] == d;
      var j := idx[k];
      DocumentShape(queries[j], contents[j], d);
    }
  }

  lemma DocumentShape(query: string, content: Option<string>, d: Document)
    requires DocumentFor(query, content) == Some(d)
    ensures Strip(d.pageContent) != [] && d.metadata.Keys == {"query", "source"} && d.metadata["source"] == BankName
    ensures query == d.metadata["query"] && content == Some(d.pageContent)
  {
  }

  /** Every query's document is among the collected ones. */
  lemma CollectComplete(queries: seq<string>, contents: seq<Option<string>>, j: nat)
    requires |queries| == |contents| && j < |queries| && DocumentFor(queries[j], contents[j]).Some?
    ensures DocumentFor(queries[j], contents[j]).value in Collect(queries, contents)
  {
    SomesComplete(Contributions(queries, contents), j);
  }

  /** No document at all exactly when no query contributes one. */
  lemma CollectEmpty(queries: seq<string>, contents: seq<Option<string>>)
    requires |queries| == |contents|
    ensures Collect(queries, contents) == [] <==>
      forall j :: 0 <= j < |queries| ==> DocumentFor(queries[j], contents[j]) == None
  {
    SomesEmpty(Contributions(queries, contents));
  }

  // ------------------------------------------------------------ create_vector_db

  /** The guard of `create_vector_db`: an empty list raises `ValueError`; a
      non-empty one goes on to chunking and indexing. */
  function CheckDocuments(documents: seq<Document>): (r: Outcome<seq<Document>>)
    ensures r.Failure? <==> documents == []
  {
    if documents == [] then Failure("No documents available for vector database creation")
    else Success(documents)
  }

  /** The ingestion run fails exactly when every query raised or yielded
      blank content. */
  lemma IngestionFailsIffNoContent(outcomes: seq<QueryOutcome>)
    requires |outcomes| == |Queries|
    ensures CheckDocuments(Collect(Queries, Contents(outcomes))).Failure? <==>
      forall j :: 0 <= j < |outcomes| ==> Content(outcomes[j]).None? || Strip(Content(outcomes[j]).value) == []
    ensures CheckDocuments(Collect(Queries, Contents(outcomes))).Failure? ==>
      CheckDocuments(Collect(Queries, Contents(outcomes))).error == "No documents available for vector database creation"
  {
    CollectEmpty(Queries, Contents(outcomes));
  }
}
