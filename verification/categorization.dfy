/**
 * The classifier: it asks a generative-language endpoint which of nine fixed
 * spending categories a transaction reference belongs to, reads the answer
 * out of the reply tree, falls back to one of two sentinel labels when there
 * is no answer, and memoises every result on the exact
 * `(reference, amount text)` pair.
 *
 * The HTTP round trip is a parameter: an endpoint maps the request body to
 * either a transport failure or a reply whose body may be absent.
 */
module CategorizationService {
  import opened JavaLang
  import opened JsonNode

  // ---------------------------------------------------------------------
  // The prompt

  /** The menu of categories the prompt offers, in the order it lists them. */
  const Labels: seq<string> := [
    "Food & Dining", "Groceries", "Transport", "Entertainment", "Shopping",
    "Utilities", "Health", "Tech", "Transfer"
  ]

  /**
   * The menu as the prompt spells it: the labels comma-separated in
   * brackets, `[Food & Dining, Groceries, ..., Tech, Transfer]`.
   */
  function Menu(): string {
    "[" + Join(Labels, ", ") + "]"
  }

  const Intro: string := "You are a banking AI. Classify this transaction: '"
  const AmountOpen: string := "' (Amount: "
  const Instruction: string := "). Strictly choose ONE category from this exact list: "
  const Closing: string := ". Reply ONLY with the category name. Do not explain."

  /** How Java's string concatenation renders a possibly-null reference. */
  function RefText(reference: Option<string>): (t: string)
    ensures reference.Some? ==> t == reference.value
    ensures reference.None? ==> t == "null"
  {
    match reference
    case None => "null"
    case Some(r) => r
  }

  /** The items joined with `sep` between neighbours. */
  function Join(items: seq<string>, sep: string): string {
    if |items| == 0 then ""
    else if |items| == 1 then items[0]
    else items[0] + sep + Join(items[1..], sep)
  }

  /** Every item appears in the joined text. */
  lemma {:induction false} JoinContains(items: seq<string>, sep: string, k: nat)
    requires k < |items|
    ensures Contains(Join(items, sep), items[k])
  {
    if |items| == 1 {
      ContainsInfix("", items[0], "");
      assert "" + items[0] + "" == items[0];
    } else if k == 0 {
      ContainsInfix("", items[0], sep + Join(items[1..], sep));
      assert "" + items[0] + (sep + Join(items[1..], sep)) == Join(items, sep);
    } else {
      JoinContains(items[1..], sep, k - 1);
      ContainsInfix(items[0] + sep, Join(items[1..], sep), "");
      assert items[0] + sep + Join(items[1..], sep) + "" == Join(items, sep);
      ContainsTransitive(Join(items, sep), Join(items[1..], sep), items[k]);
    }
  }

  /** Where the pieces of `a + b + (c + e)` sit: `a` first, `b` right after it, and `c + e` after that. */
  lemma {:induction false} PieceOffsets(a: string, b: string, c: string, e: string)
    ensures var p := a + b + (c + e);
            |a| + |b| <= |p| && p[..|a|] == a && p[|a|..|a| + |b|] == b && p[|a| + |b|..] == c + e
  {
    var p := a + b + (c + e);
    assert p[|a|..|a| + |b|] == b;
  }

  /**
   * The instruction text sent for one transaction: the introduction, the
   * reference text right after it, and after that the amount label followed
   * by the amount text and the instructions.
   */
  function Prompt(reference: Option<string>, amount: string): (p: string)
    ensures |Intro| + |RefText(reference)| <= |p|
    ensures p[..|Intro|] == Intro
    ensures p[|Intro|..|Intro| + |RefText(reference)|] == RefText(reference)
    ensures p[|Intro| + |RefText(reference)|..] == AmountOpen + amount + (Instruction + Menu() + Closing)
  {
    PieceOffsets(Intro, RefText(reference), AmountOpen + amount, Instruction + Menu() + Closing);
    Intro + RefText(reference) + (AmountOpen + amount + (Instruction + Menu() + Closing))
  }

  /**
   * The prompt quotes the reference (`null` for a missing one) and the
   * amount text verbatim, and offers every one of the nine labels.
   */
  lemma {:induction false} PromptEmbeds(reference: Option<string>, amount: string)
    ensures Contains(Prompt(reference, amount), RefText(reference))
    ensures Contains(Prompt(reference, amount), amount)
    ensures forall k :: 0 <= k < |Labels| ==> Contains(Prompt(reference, amount), Labels[k])
  {
    var p := Prompt(reference, amount);
    var tail := Instruction + Menu() + Closing;
    ContainsInfix(Intro, RefText(reference), AmountOpen + amount + tail);
    var middle := AmountOpen + amount + tail;
    ContainsInfix(AmountOpen, amount, tail);
    ContainsInfix(Intro + RefText(reference), middle, "");
    assert Intro + RefText(reference) + middle + "" == p;
    ContainsTransitive(p, middle, amount);
    ContainsInfix(Instruction, Menu(), Closing);
    ContainsInfix(AmountOpen + amount, tail, "");
    assert AmountOpen + amount + tail + "" == middle;
    ContainsTransitive(middle, tail, Menu());
    ContainsTransitive(p, middle, Menu());
    var joined := Join(Labels, ", ");
    ContainsInfix("[", joined, "]");
    ContainsTransitive(p, Menu(), joined);
    forall k | 0 <= k < |Labels|
      ensures Contains(p, Labels[k])
    {
      JoinContains(Labels, ", ", k);
      ContainsTransitive(p, joined, Labels[k]);
    }
  }

  // ---------------------------------------------------------------------
  // The request body

  /** The prompt a request carries: the text of the first part of the first content entry. */
  function RequestText(body: Json): Option<string> {
    match Get(Path(body, "contents"), 0)
    case None => None
    case Some(content) =>
      match Get(Path(content, "parts"), 0)
      case None => None
      case Some(part) => Some(AsText(Path(part, "text")))
  }

  /**
   * The one-part request `{"contents": [{"parts": [{"text": prompt}]}]}`.
   * Reading it back gives the prompt it was built from.
   */
  function CreateRequestBody(prompt: string): (body: Json)
    ensures RequestText(body) == Some(prompt)
  {
    var part := JObj(map["text" := JStr(prompt)]);
    var content := JObj(map["parts" := JArr([part])]);
    var body := JObj(map["contents" := JArr([content])]);
    assert Path(body, "contents") == JArr([content]);
    assert Path(content, "parts") == JArr([part]);
    assert Path(part, "text") == JStr(prompt);
    body
  }

  // ---------------------------------------------------------------------
  // Reading the reply

  /** What the endpoint did with the request. */
  datatype Reply =
    | TransportFailure
    | Reply(body: Option<Json>)

  /** How a call ends: no usable data, an exception caught by the safety net, or an answer. */
  datatype Verdict = NoData | AiError | Answer(text: string)

  const NoDataLabel: string := "Unknown (No Data)"
  const AiErrorLabel: string := "Unknown (AI Error)"

  /**
   * The answer text as returned: surrounding blanks trimmed, then every line
   * feed deleted. The result never holds a line feed and is itself trimmed,
   * and text that is already in that form passes through untouched, whether
   * or not it is one of the labels.
   */
  function Clean(raw: string): (r: string)
    ensures '\n' !in r
    ensures Trimmed(r)
    ensures |r| <= |raw|
    ensures Trimmed(raw) && '\n' !in raw ==> r == raw
  {
    var t := Trim(raw);
    DeleteBlankKeepsTrimmed(t, '\n');
    TrimKeepsTrimmed(raw);
    DeleteChar(t, '\n')
  }

  /**
   * A reply with nothing to read: no body, a body that is not an object
   * holding `candidates`, or a `candidates` value that is an empty array, an
   * empty object or not a container at all.
   */
  predicate NoDataShape(body: Option<Json>) {
    match body
    case None => true
    case Some(root) =>
      !(root.JObj? && "candidates" in root.fields)
      || (match root.fields["candidates"]
          case JArr(cs) => cs == []
          case JObj(fs) => fs == map[]
          case _ => true)
  }

  /**
   * `part` is the first entry of the `parts` array of the `content` object of
   * the first entry of a non-empty `candidates` array.
   */
  predicate FirstPart(root: Json, part: Json) {
    root.JObj? && "candidates" in root.fields
    && var candidates := root.fields["candidates"];
    candidates.JArr? && |candidates.elems| > 0
    && var first := candidates.elems[0];
    first.JObj? && "content" in first.fields
    && var content := first.fields["content"];
    content.JObj? && "parts" in content.fields
    && var parts := content.fields["parts"];
    parts.JArr? && |parts.elems| > 0 && parts.elems[0] == part
  }

  /**
   * The `try` block on one reply. A transport failure is caught. A reply
   * with nothing to read gives no data. Otherwise the code walks
   * `candidates[0].content.parts[0].text`; a step that lands on null throws,
   * and the throw is caught.
   */
  function Interpret(reply: Reply): (v: Verdict)
    ensures v == NoData <==> reply.Reply? && NoDataShape(reply.body)
    ensures v.Answer? <==> reply.Reply? && reply.body.Some? && exists part :: FirstPart(reply.body.value, part)
    ensures forall part :: reply.Reply? && reply.body.Some? && FirstPart(reply.body.value, part) ==>
              v == Answer(Clean(AsText(Path(part, "text"))))
    ensures reply.TransportFailure? ==> v == AiError
  {
    match reply
    case TransportFailure => AiError
    case Reply(None) => NoData
    case Reply(Some(root)) =>
      if !Has(root, "candidates") || IsEmpty(Path(root, "candidates")) then
        EmptyMeansNoEntries(Path(root, "candidates"));
        NoData
      else
        match Get(Path(root, "candidates"), 0)
        case None => AiError
        case Some(first) =>
          match Get(Path(Path(first, "content"), "parts"), 0)
          case None => AiError
          case Some(part) =>
            assert FirstPart(root, part);
            Answer(Clean(AsText(Path(part, "text"))))
  }

  /** The smallest well-formed reply: one candidate whose one part carries `text`. */
  function ReplyWith(text: string): Json {
    JObj(map["candidates" := JArr([JObj(map["content" := JObj(map["parts" := JArr([JObj(map["text" := JStr(text)])])])])])])
  }

  /**
   * The answer is not checked against the menu: text already free of
   * surrounding blanks and line feeds comes back exactly as sent, whatever
   * it says; otherwise it comes back cleaned.
   */
  lemma {:induction false} AnswerPassesThrough(text: string)
    ensures Interpret(Reply(Some(ReplyWith(text)))) == Answer(Clean(text))
    ensures Trimmed(text) && '\n' !in text ==> Interpret(Reply(Some(ReplyWith(text)))) == Answer(text)
  {
    var part := JObj(map["text" := JStr(text)]);
    var content := JObj(map["parts" := JArr([part])]);
    var first := JObj(map["content" := content]);
    assert ReplyWith(text).fields["candidates"] == JArr([first]);
    assert first.fields["content"] == content;
    assert content.fields["parts"] == JArr([part]);
    assert FirstPart(ReplyWith(text), part);
    assert Path(part, "text") == JStr(text);
  }

  /** Every label on the menu is already clean: no surrounding blanks, no line feed. */
  lemma {:induction false} LabelsAreClean(k: nat)
    requires k < |Labels|
    ensures Trimmed(Labels[k]) && '\n' !in Labels[k]
  {
    var t := Labels[k];
    assert forall i | 0 <= i < |t| :: t[i] != '\n';
  }

  /** The string `categorize` returns for a verdict. */
  function Label(v: Verdict): string {
    match v
    case NoData => NoDataLabel
    case AiError => AiErrorLabel
    case Answer(text) => text
  }

  /**
   * One uncached `categorize` call: build the request, post it, interpret the
   * reply. It never throws: a transport failure gives the AI-error label, a
   * reply with nothing to read the no-data label, and any other result is
   * text without surrounding blanks or line feeds.
   */
  function Categorize(reference: Option<string>, amount: string, endpoint: Json -> Reply): (category: string)
    ensures var reply := endpoint(CreateRequestBody(Prompt(reference, amount)));
            (reply.TransportFailure? ==> category == AiErrorLabel)
            && (reply.Reply? && NoDataShape(reply.body) ==> category == NoDataLabel)
    ensures category == AiErrorLabel || category == NoDataLabel || (Trimmed(category) && '\n' !in category)
  {
    Label(Interpret(endpoint(CreateRequestBody(Prompt(reference, amount)))))
  }

  /**
   * An endpoint that answers every request with the same clean text makes
   * `categorize` return exactly that text, whatever the pair; in particular
   * a reply of one menu label gives back that label.
   */
  lemma {:induction false} CleanReplyIsAnswer(reference: Option<string>, amount: string,
                                              endpoint: Json -> Reply, text: string)
    requires forall body :: endpoint(body) == Reply(Some(ReplyWith(text)))
    requires Trimmed(text) && '\n' !in text
    ensures Categorize(reference, amount, endpoint) == text
  {
    assert endpoint(CreateRequestBody(Prompt(reference, amount))) == Reply(Some(ReplyWith(text)));
    AnswerPassesThrough(text);
  }

  // ---------------------------------------------------------------------
  // Memoisation

  /** The cache key: the exact pair of arguments, a null reference included. */
  type Key = (Option<string>, string)

  /** The `categories` cache: every result ever computed, never evicted. */
  type Cache = map<Key, string>

  /** The result of one cached call: the category, the cache afterwards, and the bodies posted. */
  datatype Call = Call(category: string, cache: Cache, posted: seq<Json>)

  /**
   * `categorize` behind `@Cacheable`: a cached key answers from the cache
   * without posting anything; a new key posts one request and stores its
   * result, whatever it is, sentinels included.
   */
  function CategorizeCached(cache: Cache, reference: Option<string>, amount: string,
                            endpoint: Json -> Reply): (c: Call)
    ensures (reference, amount) in c.cache
    ensures c.category == c.cache[(reference, amount)]
    ensures (reference, amount) in cache ==> c.cache == cache
    ensures (reference, amount) in cache <==> c.posted == []
    ensures (reference, amount) !in cache ==>
              c.posted == [CreateRequestBody(Prompt(reference, amount))]
              && c.category == Categorize(reference, amount, endpoint)
  {
    var key := (reference, amount);
    if key in cache then Call(cache[key], cache, [])
    else
      var category := Categorize(reference, amount, endpoint);
      Call(category, cache[key := category], [CreateRequestBody(Prompt(reference, amount))])
  }

  /** A call only adds to the cache: it gains the pair and keeps every earlier entry as it was. */
  lemma {:induction false} CachedOnlyAdds(cache: Cache, reference: Option<string>, amount: string,
                                          endpoint: Json -> Reply)
    ensures var c := CategorizeCached(cache, reference, amount, endpoint);
            c.cache.Keys == cache.Keys + {(reference, amount)}
            && forall k :: k in cache ==> c.cache[k] == cache[k]
  {
  }

  /** A second call with the same pair, against any endpoint, is a hit: same answer, no post. */
  lemma {:induction false} RepeatIsHit(cache: Cache, reference: Option<string>, amount: string,
                                       first: Json -> Reply, second: Json -> Reply)
    ensures var c1 := CategorizeCached(cache, reference, amount, first);
            var c2 := CategorizeCached(c1.cache, reference, amount, second);
            c2 == Call(c1.category, c1.cache, [])
  {
  }

  /**
   * A failed call is memoised like any other: once the pair has been
   * answered with the AI-error label, later calls keep answering it even if
   * the endpoint has recovered.
   */
  lemma {:induction false} AiErrorIsSticky(cache: Cache, reference: Option<string>, amount: string,
                                           endpoint: Json -> Reply, recovered: Json -> Reply)
    requires (reference, amount) !in cache
    requires endpoint(CreateRequestBody(Prompt(reference, amount))) == TransportFailure
    ensures var c1 := CategorizeCached(cache, reference, amount, endpoint);
            c1.category == AiErrorLabel
            && CategorizeCached(c1.cache, reference, amount, recovered).category == AiErrorLabel
  {
  }

  /** One request in a sequence of calls, with the endpoint as it behaves at that moment. */
  datatype Request = Request(reference: Option<string>, amount: string, endpoint: Json -> Reply)

  function KeyOf(q: Request): Key {
    (q.reference, q.amount)
  }

  /** The distinct keys a sequence of requests asks about. */
  ghost function RequestKeys(requests: seq<Request>): set<Key> {
    set i | 0 <= i < |requests| :: KeyOf(requests[i])
  }

  /** The results of a sequence of cached calls. */
  datatype Batch = Batch(categories: seq<string>, cache: Cache, posted: seq<Json>)

  /** Serve the requests one after another through the cache. */
  function CategorizeAll(cache: Cache, requests: seq<Request>): (b: Batch)
    ensures |b.categories| == |requests|
    ensures |b.posted| <= |requests|
    decreases |requests|
  {
    if |requests| == 0 then Batch([], cache, [])
    else
      var q := requests[0];
      var c := CategorizeCached(cache, q.reference, q.amount, q.endpoint);
      var rest := CategorizeAll(c.cache, requests[1..]);
      Batch([c.category] + rest.categories, rest.cache, c.posted + rest.posted)
  }

  /** A batch only adds to the cache: every entry present before is still there, unchanged. */
  lemma {:induction false} BatchKeepsEntries(cache: Cache, requests: seq<Request>)
    ensures var b := CategorizeAll(cache, requests);
            cache.Keys <= b.cache.Keys && forall k :: k in cache ==> b.cache[k] == cache[k]
    decreases |requests|
  {
    if |requests| > 0 {
      var q := requests[0];
      var c := CategorizeCached(cache, q.reference, q.amount, q.endpoint);
      CachedOnlyAdds(cache, q.reference, q.amount, q.endpoint);
      BatchKeepsEntries(c.cache, requests[1..]);
    }
  }

  /** The first answer of a batch is what the cache holds for its pair at the end of the batch. */
  lemma {:induction false} BatchAnswersFirst(cache: Cache, requests: seq<Request>)
    requires |requests| > 0
    ensures var b := CategorizeAll(cache, requests);
            KeyOf(requests[0]) in b.cache && b.categories[0] == b.cache[KeyOf(requests[0])]
  {
    var q := requests[0];
    var c := CategorizeCached(cache, q.reference, q.amount, q.endpoint);
    var rest := CategorizeAll(c.cache, requests[1..]);
    assert CategorizeAll(cache, requests) == Batch([c.category] + rest.categories, rest.cache, c.posted + rest.posted);
    BatchKeepsEntries(c.cache, requests[1..]);
    assert rest.cache[KeyOf(q)] == c.cache[KeyOf(q)];
  }

  /**
   * After the first request, a batch goes on as the batch of the remaining
   * requests from the cache the first call left.
   */
  lemma {:induction false} BatchTail(cache: Cache, requests: seq<Request>, i: nat)
    requires 0 < i < |requests|
    ensures var q := requests[0];
            var c := CategorizeCached(cache, q.reference, q.amount, q.endpoint);
            var b, rest := CategorizeAll(cache, requests), CategorizeAll(c.cache, requests[1..]);
            b.categories[i] == rest.categories[i - 1] && b.cache == rest.cache
            && requests[1..][i - 1] == requests[i]
  {
  }

  /**
   * Every answer of a batch is what the cache holds for its pair at the end
   * of the batch.
   */
  lemma {:induction false} BatchAnswersFromCache(cache: Cache, requests: seq<Request>, i: nat)
    requires i < |requests|
    ensures var b := CategorizeAll(cache, requests);
            KeyOf(requests[i]) in b.cache && b.categories[i] == b.cache[KeyOf(requests[i])]
    decreases |requests|
  {
    if i == 0 {
      BatchAnswersFirst(cache, requests);
    } else {
      var q := requests[0];
      var c := CategorizeCached(cache, q.reference, q.amount, q.endpoint);
      BatchTail(cache, requests, i);
      BatchAnswersFromCache(c.cache, requests[1..], i - 1);
    }
  }

  /** Within one batch, two requests with the same pair get the same category. */
  lemma {:induction false} BatchIsConsistent(cache: Cache, requests: seq<Request>, i: nat, j: nat)
    requires i < |requests| && j < |requests|
    requires KeyOf(requests[i]) == KeyOf(requests[j])
    ensures CategorizeAll(cache, requests).categories[i] == CategorizeAll(cache, requests).categories[j]
  {
    BatchAnswersFromCache(cache, requests, i);
    BatchAnswersFromCache(cache, requests, j);
  }

  /** The keys of a non-empty sequence: the first request's key and the keys of the rest. */
  lemma {:induction false} KeysCons(requests: seq<Request>)
    requires |requests| > 0
    ensures RequestKeys(requests) == {KeyOf(requests[0])} + RequestKeys(requests[1..])
  {
    var rest := requests[1..];
    forall i | 1 <= i < |requests|
      ensures KeyOf(requests[i]) in RequestKeys(rest)
    {
      assert requests[i] == rest[i - 1];
    }
    forall x | x in RequestKeys(rest)
      ensures x in RequestKeys(requests)
    {
      var i :| 0 <= i < |rest| && x == KeyOf(rest[i]);
      assert rest[i] == requests[i + 1];
    }
  }

  /** A key already cached adds nothing to the uncached keys. */
  lemma {:induction false} MissesAfterHit(ks: set<Key>, known: set<Key>, k: Key)
    requires k in known
    ensures ({k} + ks) - known == ks - known
  {
  }

  /** Caching a new key `k` takes it off the uncached keys. */
  lemma {:induction false} MissesAfterInsert(ks: set<Key>, known: set<Key>, k: Key)
    requires k !in known
    ensures |({k} + ks) - known| == |ks - (known + {k})| + 1
  {
    assert ({k} + ks) - known == (ks - (known + {k})) + {k};
  }

  /**
   * The endpoint is called once per distinct pair that was not cached
   * before the batch began, however often each pair repeats.
   */
  lemma {:induction false} PostsCountMisses(cache: Cache, requests: seq<Request>)
    ensures |CategorizeAll(cache, requests).posted| == |RequestKeys(requests) - cache.Keys|
    decreases |requests|
  {
    if |requests| == 0 {
      assert RequestKeys(requests) == {};
    } else {
      var q := requests[0];
      var k := KeyOf(q);
      var c := CategorizeCached(cache, q.reference, q.amount, q.endpoint);
      var rest := requests[1..];
      PostsCountMisses(c.cache, rest);
      CachedOnlyAdds(cache, q.reference, q.amount, q.endpoint);
      KeysCons(requests);
      if k in cache {
        MissesAfterHit(RequestKeys(rest), cache.Keys, k);
      } else {
        MissesAfterInsert(RequestKeys(rest), cache.Keys, k);
      }
    }
  }
}
