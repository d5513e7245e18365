# Atomic ledger: the enrichment pipeline in Dafny

This project models the two services at the centre of the atomic ledger, a
payment switch written with Spring Boot.

- **`TransactionSwitch.processAndRoute`** takes one payment and does the following:
  - refuses a negative amount with a fraud alert;
  - overwrites the currency with ZAR;
  - routes the payment by the sender's account prefix (`INV`, then `ABS`, then the default) to a settlement rail and its pool account;
  - asks the classifier for a spending category;
  - stamps the status `SUCCESS - Sent to <bank>` and the current time;
  - returns whatever the store's `save` gives back.
- **`CategorizationService.categorize`** builds a prompt and the nested JSON
  request body. It posts them to a generative-language endpoint and reads
  `candidates[0].content.parts[0].text` from the reply. It trims that text and
  removes its line feeds. It answers `Unknown (No Data)` for an empty reply and
  `Unknown (AI Error)` whenever anything throws. Spring's `@Cacheable`
  memoises the result on the exact `(reference, amount text)` pair.

The files, one module each:

| file | module | what it holds |
|---|---|---|
| `javalang.dfy` | `JavaLang` | null as `Option`, and `String.startsWith`, `contains`, `trim` and `replace("\n", "")` |
| `decimal.dfy` | `Decimal` | `BigDecimal` as unscaled value and scale, `compareTo(ZERO)`, `toString()`, and the `BigDecimal(String)` reading of that text |
| `json.dfy` | `JsonNode` | the Jackson `JsonNode` tree with `has`, `path`, `get(int)`, `size`, `isEmpty` and `asText` |
| `categorization.dfy` | `CategorizationService` | the prompt, the request body, reply interpretation, the cache, and sequences of cached calls |
| `transaction.dfy` | `LedgerModel` | the `Transaction` entity |
| `switch.dfy` | `TransactionSwitch` | routing, status, and `processAndRoute` |

Outside effects are parameters, not behaviour:
- The wall clock is an `Env.now` reading.
- The HTTP call is an `endpoint: Json -> Reply`. A reply is either a transport failure or a response whose body may be null.
- The store's `save` is a function that either hands back the stored record, which the switch returns unchanged, or fails with an exception, which the switch lets propagate.

A run of the switch reports the posted request bodies and the one record
handed to the store. That is how "neither the classifier nor the store is
touched" and "saved once" are stated.

The model follows the code, including where it may surprise a reader:
- A null sender is dereferenced and throws; it is not routed to the default rail. The sender is therefore a plain string.
- The cache key is the amount's exact `toString()` text, not a normalised number, so `10.00` and `10.0` are different keys.
- The currency is overwritten with ZAR unconditionally, even when the payment already names one.
- A reply that is malformed in shape, for example a non-object root or a `candidates` that is a string, gives the no-data sentinel, not the AI-error one. Jackson's `has`, `path` and `isEmpty` turn it into `Unknown (No Data)`. Only a navigation step that lands on Java null throws, and so gives `Unknown (AI Error)`. One example is a non-empty `candidates` object, because `get(0)` on an object answers null.

## Model

| member | source | states |
|---|---|---|
| Decimal.CompareToZero | src/main/java/com/electrumprep/ledger/service/TransactionSwitch.java:50 | the sign test is -1, 0 or 1, and it is negative or zero exactly when the number `unscaled / 10^scale` is, whatever the scale |
| Decimal.ToString | src/main/java/com/electrumprep/ledger/service/TransactionSwitch.java:87 | `toString()` is non-empty and starts with a minus sign exactly for negative values |
| Decimal.ParseToString | src/main/java/com/electrumprep/ledger/service/TransactionSwitch.java:87 | reading the amount text back with `BigDecimal(String)` gives the same unscaled value and the same scale, in plain and in scientific notation |
| Decimal.ToStringInjective | src/main/java/com/electrumprep/ledger/service/TransactionSwitch.java:87 | two amounts have the same text exactly when they have the same unscaled value and scale |
| Decimal.TenAtTwoScales | src/main/java/com/electrumprep/ledger/service/TransactionSwitch.java:87 | ten rand at scale 2 is `10.00`, at scale 1 is `10.0`, and the two texts differ |
| Decimal.MinusFiveHundred | src/test/java/com/electrumprep/ledger/TransactionSwitchTest.java:56 | the test's `-500.00` is unscaled -50000 at scale 2 |
| Decimal.MinusFiveHundredText | src/test/java/com/electrumprep/ledger/TransactionSwitchTest.java:56 | minus five hundred at scale 2 prints as `-500.00` |
| Decimal.NatDigits | src/main/java/com/electrumprep/ledger/service/TransactionSwitch.java:87 | the coefficient digits are non-empty decimal digits without a leading zero, and they spell the number |
| Decimal.LeadingZerosIgnored | src/main/java/com/electrumprep/ledger/service/TransactionSwitch.java:87 | zeros written in front of the digits, as in `0.005`, do not change the value read back |
| Decimal.SplitAtFirst | src/main/java/com/electrumprep/ledger/service/TransactionSwitch.java:87 | cutting a text at the first occurrence of a mark gives back exactly the parts on either side when the left part lacks the mark |
| JavaLang.Trim | src/main/java/com/electrumprep/ledger/service/CategorizationService.java:106 | `trim()` returns the infix left after the leading blanks, with only blanks after it, and the result neither starts nor ends with a blank |
| JavaLang.TrimKeepsTrimmed | src/main/java/com/electrumprep/ledger/service/CategorizationService.java:106 | a string without surrounding blanks comes back from `trim()` unchanged |
| JavaLang.DeleteChar | src/main/java/com/electrumprep/ledger/service/CategorizationService.java:107 | `replace("\n", "")` leaves no line feed, never lengthens the text, and leaves a text without line feeds as it was |
| JavaLang.DeleteCharCounts | src/main/java/com/electrumprep/ledger/service/CategorizationService.java:107 | the deleted character occurs zero times afterwards, and every other character occurs exactly as often as before |
| JavaLang.DeleteCharAppend | src/main/java/com/electrumprep/ledger/service/CategorizationService.java:107 | deletion distributes over concatenation, so the survivors keep their order |
| JavaLang.DeleteBlankKeepsTrimmed | src/main/java/com/electrumprep/ledger/service/CategorizationService.java:106-107 | deleting line feeds after `trim()` cannot expose a blank at either end |
| JavaLang.ContainsTransitive | src/main/java/com/electrumprep/ledger/service/CategorizationService.java:68-71 | a piece of a piece of the prompt is a piece of the prompt |
| JsonNode.Path | src/main/java/com/electrumprep/ledger/service/CategorizationService.java:99-104 | `path(name)` is the field of an object that holds it, and the missing node in every other case, never null |
| JsonNode.Get | src/main/java/com/electrumprep/ledger/service/CategorizationService.java:100-103 | `get(i)` is non-null exactly on an array with `i` in range, and then it is the `i`-th element |
| JsonNode.AsText | src/main/java/com/electrumprep/ledger/service/CategorizationService.java:105 | `asText()` is a string's text, `"null"` for a null node, and empty for the missing node and containers |
| JsonNode.EmptyMeansNoEntries | src/main/java/com/electrumprep/ledger/service/CategorizationService.java:98 | `isEmpty()` holds exactly for an empty array, an empty object, or any non-container node |
| CategorizationService.RefText | src/main/java/com/electrumprep/ledger/service/CategorizationService.java:68 | string concatenation renders a null reference as `null` and any other reference as itself |
| CategorizationService.JoinContains | src/main/java/com/electrumprep/ledger/service/CategorizationService.java:70 | every label appears in the comma-separated menu |
| CategorizationService.Prompt | src/main/java/com/electrumprep/ledger/service/CategorizationService.java:68-71 | the prompt opens with the fixed introduction, has the reference text (`null` for none) verbatim right after it, and continues with the amount label, the amount text verbatim and the instructions with the menu |
| CategorizationService.PromptEmbeds | src/main/java/com/electrumprep/ledger/service/CategorizationService.java:68-71 | the prompt contains the reference text, the amount text and each of the nine labels |
| CategorizationService.CreateRequestBody | src/main/java/com/electrumprep/ledger/service/CategorizationService.java:124-131 | reading `contents[0].parts[0].text` from the request body gives back the prompt it was built from |
| CategorizationService.Clean | src/main/java/com/electrumprep/ledger/service/CategorizationService.java:105-107 | the returned answer holds no line feed, has no surrounding blanks, is no longer than the raw text, and is the raw text itself when that was already clean |
| CategorizationService.Interpret | src/main/java/com/electrumprep/ledger/service/CategorizationService.java:86-118 | no data exactly for a null body or a root without a non-empty `candidates` container. An answer exactly when `candidates[0].content.parts[0]` exists as arrays and objects, and then it is the cleaned `text`. The AI-error sentinel for a transport failure and for every other reply |
| CategorizationService.AnswerPassesThrough | src/main/java/com/electrumprep/ledger/service/CategorizationService.java:99-107 | the answer is not checked against the menu: any clean text comes back exactly as the endpoint sent it |
| CategorizationService.CleanReplyIsAnswer | src/main/java/com/electrumprep/ledger/service/CategorizationService.java:99-107 | an endpoint that answers every request with the same clean text makes the classifier return exactly that text, for any pair |
| CategorizationService.LabelsAreClean | src/main/java/com/electrumprep/ledger/service/CategorizationService.java:70 | every label on the menu has no surrounding blanks and no line feed, so a reply that names one comes back unchanged |
| CategorizationService.Categorize | src/main/java/com/electrumprep/ledger/service/CategorizationService.java:59-118 | one uncached call never throws: a transport failure answers `Unknown (AI Error)`, a reply with nothing to read answers `Unknown (No Data)`, and any other answer has no surrounding blanks and no line feed |
| CategorizationService.CategorizeCached | src/main/java/com/electrumprep/ledger/service/CategorizationService.java:58-59 | afterwards the pair is cached and the answer is its entry. A hit leaves the cache as it was and posts nothing. A miss posts the one request for the pair and answers what the uncached call answers |
| CategorizationService.CachedOnlyAdds | src/main/java/com/electrumprep/ledger/service/CategorizationService.java:58-59 | a call gains exactly the pair and keeps every earlier entry as it was; nothing is evicted |
| CategorizationService.RepeatIsHit | src/main/java/com/electrumprep/ledger/service/CategorizationService.java:58-59 | a second call with the same pair answers the same, posts nothing and leaves the cache as it was, even against a different endpoint |
| CategorizationService.AiErrorIsSticky | src/main/java/com/electrumprep/ledger/service/CategorizationService.java:111-118 | a transport failure is cached as `Unknown (AI Error)` and keeps being answered after the endpoint recovers |
| CategorizationService.CategorizeAll | src/main/java/com/electrumprep/ledger/service/CategorizationService.java:58-59 | a sequence of cached calls gives one category per request and posts at most one request per call |
| CategorizationService.BatchKeepsEntries | src/main/java/com/electrumprep/ledger/service/CategorizationService.java:58-59 | a sequence of calls never removes or changes a cached entry |
| CategorizationService.BatchAnswersFromCache | src/main/java/com/electrumprep/ledger/service/CategorizationService.java:58-59 | each answer of a sequence of calls is the final cache's entry for its pair |
| CategorizationService.BatchIsConsistent | src/main/java/com/electrumprep/ledger/service/CategorizationService.java:58-59 | two calls with the same pair in one sequence get the same category |
| CategorizationService.PostsCountMisses | src/main/java/com/electrumprep/ledger/service/CategorizationService.java:58-59 | a sequence of calls posts exactly one request per distinct pair that was not cached when it began |
| TransactionSwitch.Route | src/main/java/com/electrumprep/ledger/service/TransactionSwitch.java:66-78 | Investec exactly when the sender starts with `INV`; Absa exactly when it does not but starts with `ABS`; Standard Bank exactly when it starts with neither |
| TransactionSwitch.FirstMatch | src/main/java/com/electrumprep/ledger/service/TransactionSwitch.java:66-78 | the result is the rail of a matching rule with no matching rule before it, or the default when no rule matches |
| TransactionSwitch.RouteIsFirstMatch | src/main/java/com/electrumprep/ledger/service/TransactionSwitch.java:66-78 | the if/else chain is the table `INV` then `ABS` read top to bottom with Standard Bank as the default, so routing is total |
| TransactionSwitch.RouteReadsPrefixOnly | src/main/java/com/electrumprep/ledger/service/TransactionSwitch.java:66-70 | two senders that agree on their first three characters are routed alike |
| TransactionSwitch.ShortSendersToStandardBank | src/main/java/com/electrumprep/ledger/service/TransactionSwitch.java:74-78 | a sender shorter than three characters, the empty one included, goes to Standard Bank |
| TransactionSwitch.RailsAreDistinguishable | src/main/java/com/electrumprep/ledger/service/TransactionSwitch.java:66-78 | the three rails have pairwise different bank names and pool accounts |
| TransactionSwitch.StatusNamesRail | src/main/java/com/electrumprep/ledger/service/TransactionSwitch.java:94 | the status contains the rail's bank name, and different rails give different statuses |
| TransactionSwitch.Complete | src/main/java/com/electrumprep/ledger/service/TransactionSwitch.java:58-97 | the completed record has currency ZAR, the rail's pool account, the given category, the rail's status and the clock reading. The id, reference, amount and sender are as submitted |
| TransactionSwitch.ProcessAndRoute | src/main/java/com/electrumprep/ledger/service/TransactionSwitch.java:45-103 | it rejects exactly a value below zero, and then throws the fraud alert, posts nothing, saves nothing and leaves the cache. Otherwise it hands one record to the store and ends as the store does. The cache, the posts and the stored category are those of one cached classifier call on (reference, amount text) from the old cache and the endpoint. The record has currency ZAR, receiver and status from the sender's rail, the clock reading, and its other fields unchanged |
| TransactionSwitch.CategoryIsClassifierAnswer | src/main/java/com/electrumprep/ledger/service/TransactionSwitch.java:87-90 | the stored category is the cached entry with the cache unchanged on a hit, and on a miss the uncached classifier's answer, which the cache then holds under the pair with every other entry kept |
| TransactionSwitch.TransportFailureStoresAiError | src/main/java/com/electrumprep/ledger/service/CategorizationService.java:111-118 | while the endpoint cannot be reached, a payment whose pair is not cached is stored with `Unknown (AI Error)`, and that label is cached for its pair |
| TransactionSwitch.StoreFailureKeepsCategory | src/main/java/com/electrumprep/ledger/service/TransactionSwitch.java:87-102 | when the store throws, the run throws the store's exception, after the one request was posted and the category cached |
| TransactionSwitch.ZeroIsAccepted | src/main/java/com/electrumprep/ledger/service/TransactionSwitch.java:50 | a zero amount at any scale is processed and handed to the store, not rejected |
| TransactionSwitch.SecondRunIsCached | src/main/java/com/electrumprep/ledger/service/TransactionSwitch.java:87 | processing the same payment again posts nothing and stores the same category |
| TransactionSwitch.ScaleSplitsCacheKey | src/main/java/com/electrumprep/ledger/service/TransactionSwitch.java:87 | the same reference at `10.00` and at `10.0` uses two different cache keys |
| TransactionSwitch.BlocksNegativeMoney | src/test/java/com/electrumprep/ledger/TransactionSwitchTest.java:53-66 | `-500.00` from `INV-001` throws `FRAUD ALERT: Cannot send negative money!` with no post, no save and the cache unchanged |
| TransactionSwitch.EchoShowsRail | src/main/java/com/electrumprep/ledger/service/TransactionSwitch.java:45-103 | with a store that hands back its argument, a payment that is not below zero from a sender routed to a rail returns with that rail's status, which names the rail's bank |
| TransactionSwitch.RoutesInvestecToInvestec | src/test/java/com/electrumprep/ledger/TransactionSwitchTest.java:74-90 | `100.00` from `INV-999` with an echoing store returns a status containing `INVESTEC BANK` |
| TransactionSwitch.RoutesAbsaToAbsa | src/test/java/com/electrumprep/ledger/TransactionSwitchTest.java:98-112 | `50.00` from `ABS-123` with an echoing store returns a status containing `ABSA BANK` |
| TransactionSwitch.UberRideScenario | src/main/java/com/electrumprep/ledger/service/TransactionSwitch.java:83-97 | `Uber * 8721`, 45.00 from `INV-999`, with an empty cache and an endpoint that answers with one menu label, such as `Transport`. The saved record has the Investec pool account and status, currency ZAR, the clock reading and that label as category, after one post |

## Left out

- The HTTP request itself is left out: the URL built from configuration, the headers and `RestTemplate.postForEntity`. It is network I/O, and the endpoint parameter stands in for it.
- Logging of the caught exception is left out. It is a side effect only.
- Spring's cache machinery and concurrent access to the cache are left out. The cache is a sequential map with no eviction.
- `TransactionController`, `TransactionRepository`, the application bootstrap and its context-load test are framework wiring. The store is the `save` parameter.
- Java aliasing is left out. The switch mutates the caller's object before saving it, while the model builds a new record value. No state other than the cache outlives a call.
- A null `amount` or `senderAccount` is not modelled: the code dereferences both unguarded and would throw a `NullPointerException`. Both are plain values in the model.
- Exceptions the classifier's `catch (Exception e)` would not catch, such as `Error`s, are left out.
- The text of JSON numbers and booleans is carried as given; Jackson's number formatting is not modelled.
- BigDecimal arithmetic beyond the sign test and `toString()` is left out. The reader takes an optional minus sign, digits (leading zeros allowed), an optional point with optional digits, and an optional upper-case `E` exponent with an optional sign. It refuses forms the Java constructor would take: a lower-case `e`, a leading `+` or `.`, a missing integer part, and a text whose scale would come out negative.
- Decimal.ToString: a negative scale, which `toString()` writes with a positive exponent such as `1E+3`, is not modelled, because `scale` is a `nat`. Amounts read from plain decimal text never have one.
- The timestamp's `LocalDateTime` is an abstract clock reading (an `int`); only equality of readings matters here.
