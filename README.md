# Mock retrieval and answer selection of the notebook chat route

The notebook client's chat endpoint (`POST /api/chat`) answers a message from a
fixed knowledge base of three documents. It works in five steps:

1. It lower-cases the message.
2. It keeps every document that one of four relevance rules accepts:
   - a keyword of the document (a token of its lower-cased content, longer
     than one character) occurs in the query;
   - the query occurs in the content;
   - the query holds `退` and the document is the after-sales terms;
   - the query holds `电` and the document is the product sheet.
3. When no document is kept, it falls back to the first one.
4. It picks one of four answer templates by trigger words, first match wins:
   battery, then warranty, then mind map, then a generic answer. The generic
   answer quotes the first cited document.
5. It returns the answer with the cited documents projected to
   `{id, title, content}`.

The project models these steps as pure Dafny functions and proves what they
promise.

- `text.dfy` (module `Text`) models the string operations:
  - ASCII lower-casing (`Lower`);
  - `includes` (`Includes`);
  - `split(/[\s,，。]+/)` (`Split`), with the exact ECMAScript `\s` class.

  It proves these properties of `Split`:
  - no piece holds a separator;
  - no inner piece is empty;
  - the pieces put together give back the input without its separators;
  - a token followed by a run of separators of any length comes out as the
    first piece, and the rest is split on its own.

  It also proves the round trip `Split(Interleave(ts, seps)) == ts`.
- `knowledge.dfy` (module `Knowledge`) holds the three records with their
  exact strings. Each content is written as its clauses joined by the single
  separators between them, so each record's keyword list is derived by
  proof.
- `chat.dfy` (module `Chat`) models the relevance predicate, the filter, the
  fallback, the template choice, the citation projection and the whole
  handler (`Respond`). It also proves the properties of these.
- `scenarios.dfy` (module `Scenarios`) works through concrete messages and
  the reply each one gets.

The reply's `answer` field is modelled as a datatype, `Answer`:
`Battery | Warranty | MindMap | Generic(quoted)`. `AnswerText` renders it to
the exact template text, so the choice of template can be reasoned about
without unfolding the long literals.

### Behaviour worth knowing

- The second relevance rule is `content.includes(query)` (`route.ts:36`): the
  document's content must hold the whole query.
  - A question that quotes a passage and then adds words matches nothing by
    this rule.
  - The bare query `无法回充` cites the troubleshooting guide
    (`RechargeQueryCitesGuide`). The longer question `机器人无法回充怎么办`
    does not (`RobotRechargeQuestionCitations`).
- `保修期是多久？` gets the warranty answer (`WarrantyQuestionAnswer`), but it
  cites only the product sheet (`WarrantyQuestionCitations`):
  - no keyword of the after-sales terms fits in the short question;
  - the question holds neither `退` nor `电`.
- Lower-casing folds the ASCII capitals only (see "Left out").

## Model

| member | source | states |
|---|---|---|
| Text.LowerChar | notebook-client/src/app/api/chat/route.ts:28 | the result is never an upper-case ASCII letter; other characters are kept; a capital moves up by 32 code points |
| Text.Lower | notebook-client/src/app/api/chat/route.ts:28 | lower-casing keeps the length, leaves no capital, and leaves a capital-free string unchanged |
| Text.LowerIdempotent | notebook-client/src/app/api/chat/route.ts:28 | lower-casing twice is lower-casing once |
| Text.LowerAppend | notebook-client/src/app/api/chat/route.ts:28 | lower-casing distributes over concatenation |
| Text.Includes | notebook-client/src/app/api/chat/route.ts:35-38 | `s.includes(p)`: `p` occurs in `s` at some position; every string includes the empty string, and an included string is no longer than the text |
| Text.IncludesChars | notebook-client/src/app/api/chat/route.ts:35-36 | a string that includes `p` is at least as long as `p` and holds every character of `p` |
| Text.MissingCharExcludes | notebook-client/src/app/api/chat/route.ts:35-38 | a string lacking one character of `p` does not include `p` |
| Text.IncludesExtend | notebook-client/src/app/api/chat/route.ts:36 | an occurrence survives adding text on either side |
| Text.IncludesSelf | notebook-client/src/app/api/chat/route.ts:36 | every string includes itself |
| Text.IncludesTrans | notebook-client/src/app/api/chat/route.ts:35-38 | inclusion is transitive |
| Text.DropSeparatorsSuffix | notebook-client/src/app/api/chat/route.ts:33 | what remains after a leading separator run is a suffix of the input |
| Text.Split | notebook-client/src/app/api/chat/route.ts:33 | `split(/[\s,，。]+/)`: the maximal separator-free pieces in order; a leading or trailing separator run gives an empty first or last piece; the empty string gives one empty piece; never an empty list |
| Text.SplitTrailingSeparator | notebook-client/src/app/api/chat/route.ts:33 | a text ending in a separator splits into at least two pieces, the last one empty |
| Text.SplitPiecesUnseparated | notebook-client/src/app/api/chat/route.ts:33 | no piece of a split holds a separator |
| Text.SplitPiecesInnerNonEmpty | notebook-client/src/app/api/chat/route.ts:33 | every piece but the first and the last is non-empty (separator runs are maximal) |
| Text.SplitPiecesConcat | notebook-client/src/app/api/chat/route.ts:33 | the pieces concatenated equal the input with its separators removed |
| Text.SplitOfToken | notebook-client/src/app/api/chat/route.ts:33 | a separator-free string splits into itself alone |
| Text.DropSeparatorsRun | notebook-client/src/app/api/chat/route.ts:33 | the `+` run of the pattern consumes a whole separator run and stops at the first non-separator |
| Text.SplitAfterToken | notebook-client/src/app/api/chat/route.ts:33 | a token followed by a run of separators of any length comes out as the first piece, and the rest is split on its own: a run counts as one separator |
| Text.InterleaveAvoids | notebook-client/src/app/api/chat/route.ts:9-21 | a character in no clause and no separator is absent from the joined content |
| Text.InterleaveIncludesHead | notebook-client/src/app/api/chat/route.ts:9-21 | what occurs in the first clause occurs in the joined content |
| Text.SplitInterleave | notebook-client/src/app/api/chat/route.ts:33 | splitting separator-free tokens joined by single separators gives the tokens back |
| Text.LowerInterleave | notebook-client/src/app/api/chat/route.ts:33 | lower-casing joined tokens lower-cases each token and keeps the separators |
| Text.LowerKeepsSplittable | notebook-client/src/app/api/chat/route.ts:33 | lower-casing creates no separator and empties no token |
| Text.SplitLowerInterleave | notebook-client/src/app/api/chat/route.ts:33 | the keywords of joined content are its lower-cased tokens, in order |
| Knowledge.Keywords | notebook-client/src/app/api/chat/route.ts:33 | a record always has at least one keyword (possibly empty) |
| Knowledge.KnowledgeBaseNumbered | notebook-client/src/app/api/chat/route.ts:4-23 | the knowledge base holds exactly the three records, in order, with ids 1, 2, 3 |
| Knowledge.KnowledgeBaseIdsIncreasing | notebook-client/src/app/api/chat/route.ts:4-23 | ids rise strictly along the knowledge base, so no two records share one |
| Knowledge.KnowledgeBaseTitled | notebook-client/src/app/api/chat/route.ts:7-19 | every record has a non-empty title |
| Knowledge.KnowledgeBaseHasContent | notebook-client/src/app/api/chat/route.ts:9-21 | every record has non-empty content |
| Knowledge.KeywordsOfProductSheet | notebook-client/src/app/api/chat/route.ts:9 | the product sheet's keywords are exactly its lower-cased clauses, in order |
| Knowledge.KeywordsOfServiceTerms | notebook-client/src/app/api/chat/route.ts:15 | the after-sales terms' keywords are exactly their lower-cased clauses, in order |
| Knowledge.KeywordsOfTroubleshootingGuide | notebook-client/src/app/api/chat/route.ts:21 | the troubleshooting guide's keywords are exactly its lower-cased clauses, in order |
| Chat.SomeKeywordIn | notebook-client/src/app/api/chat/route.ts:35 | true exactly when some keyword longer than one character occurs in the query |
| Chat.IsRelevant | notebook-client/src/app/api/chat/route.ts:32-39 | relevant iff a lower-cased keyword longer than one character occurs in the query, or the original content holds the query, or the query holds `退` and the category is `售后政策`, or it holds `电` and the category is `产品参数` |
| Chat.Filter | notebook-client/src/app/api/chat/route.ts:32-39 | the result keeps every accepted element and only accepted elements; it is empty iff nothing is accepted |
| Chat.FilterPositions | notebook-client/src/app/api/chat/route.ts:32-39 | the filter result is the in-order selection of exactly the accepted positions |
| Chat.RelevantDocs | notebook-client/src/app/api/chat/route.ts:32-39 | `relevantDocs`: `kb` filtered by `IsRelevant`; a record is in it iff it is in `kb` and relevant |
| Chat.CitedDocs | notebook-client/src/app/api/chat/route.ts:42 | never empty; the relevant records when there is one, exactly the first record otherwise |
| Chat.AnyIncluded | notebook-client/src/app/api/chat/route.ts:48-59 | the trigger test of one branch: some trigger word of the branch occurs in the query |
| Chat.ChooseAnswer | notebook-client/src/app/api/chat/route.ts:48-87 | each template is chosen iff its triggers hold and no earlier template's do; the generic one quotes the first cited content |
| Chat.AnswerText | notebook-client/src/app/api/chat/route.ts:49-86 | the text is non-empty; the generic text is prefix, quoted content, suffix; the mind-map text holds the mermaid block |
| Chat.ToCitation | notebook-client/src/app/api/chat/route.ts:95-99 | the projection of one record: its id, title and content, with the category dropped |
| Chat.Citations | notebook-client/src/app/api/chat/route.ts:95-99 | same length and order as the cited records; each citation carries the record's id, title and content |
| Chat.Respond | notebook-client/src/app/api/chat/route.ts:28-99 | every reply cites at least one record |
| Chat.ShortKeywordIgnored | notebook-client/src/app/api/chat/route.ts:33-35 | a keyword of length at most one, anywhere in the list, never changes the keyword test |
| Chat.ShortQueryHitsNoKeyword | notebook-client/src/app/api/chat/route.ts:35 | a query of at most one character hits no keyword |
| Chat.KeywordsEndEmpty | notebook-client/src/app/api/chat/route.ts:9-33 | each record's keyword list ends with the empty keyword that the trailing `。` leaves |
| Chat.FilterIdsIncreasing | notebook-client/src/app/api/chat/route.ts:32 | filtering keeps ids increasing |
| Chat.CitedIff | notebook-client/src/app/api/chat/route.ts:32-42 | for records with distinct ids, a record is cited iff it is relevant, or nothing is relevant and it is the first record |
| Chat.ReplyCites | notebook-client/src/app/api/chat/route.ts:28-42 | a knowledge-base record is in the reply's citations iff it is relevant to the lower-cased message, or nothing is and it is the product sheet |
| Chat.CitedIdsIncreasing | notebook-client/src/app/api/chat/route.ts:32-42 | cited records keep the knowledge base's increasing id order |
| Chat.CitationIdsIncreasing | notebook-client/src/app/api/chat/route.ts:95-99 | reply citations come in strictly increasing id order, so none repeats |
| Chat.RefundCitesServiceTerms | notebook-client/src/app/api/chat/route.ts:37 | any message holding `退` cites the after-sales terms |
| Chat.PowerCitesProductSheet | notebook-client/src/app/api/chat/route.ts:38 | any message holding `电` cites the product sheet |
| Chat.BatteryQueryCitesProductSheet | notebook-client/src/app/api/chat/route.ts:38-48 | a message holding `电池` gets the battery answer and cites the product sheet |
| Chat.AnswerByPriority | notebook-client/src/app/api/chat/route.ts:48-79 | battery triggers win over warranty triggers, which win over mind-map triggers |
| Chat.GenericAnswer | notebook-client/src/app/api/chat/route.ts:80-87 | the generic answer comes exactly when no trigger word is present |
| Chat.GenericQuotesFirstCitation | notebook-client/src/app/api/chat/route.ts:84 | the generic answer quotes the content of the first citation |
| Chat.FallbackCitedDocs | notebook-client/src/app/api/chat/route.ts:42 | with no relevant record, the citations are exactly the first record's |
| Chat.FallbackCitation | notebook-client/src/app/api/chat/route.ts:42 | with no relevant record, the product sheet is the only citation |
| Chat.FallbackReply | notebook-client/src/app/api/chat/route.ts:42-87 | with no relevant record and the generic answer, the reply quotes the product sheet and cites it alone |
| Chat.CaseInsensitive | notebook-client/src/app/api/chat/route.ts:28 | the reply depends on the message only up to letter case |
| Scenarios.MissesAll | notebook-client/src/app/api/chat/route.ts:35 | clauses whose first or last character is absent from the query yield no keyword hit |
| Scenarios.Unrelated | notebook-client/src/app/api/chat/route.ts:32-39 | a record is irrelevant when all four rules fail: no clause hit, a query character absent from the content, no hint character |
| Scenarios.UnrelatedToProductSheet | notebook-client/src/app/api/chat/route.ts:32-39 | the same conditions make the product sheet irrelevant |
| Scenarios.UnrelatedToServiceTerms | notebook-client/src/app/api/chat/route.ts:32-39 | the same conditions make the after-sales terms irrelevant |
| Scenarios.UnrelatedToGuide | notebook-client/src/app/api/chat/route.ts:32-39 | the same conditions make the troubleshooting guide irrelevant |
| Scenarios.NoneOfThree | notebook-client/src/app/api/chat/route.ts:32-39 | three irrelevant records make a list with no relevant record |
| Scenarios.NoneRelevant | notebook-client/src/app/api/chat/route.ts:32-39 | three irrelevant records leave the knowledge base with no relevant record |
| Scenarios.NothingRelevant | notebook-client/src/app/api/chat/route.ts:42 | a capital-free message relevant to no record cites the product sheet alone |
| Scenarios.SoleCitation | notebook-client/src/app/api/chat/route.ts:42 | citing the product sheet alone cites neither other record |
| Scenarios.CitationsDiffer | notebook-client/src/app/api/chat/route.ts:95-99 | the three records project to three different citations |
| Scenarios.NoTrigger | notebook-client/src/app/api/chat/route.ts:48-59 | a query lacking `续`, `电`, `保`, `退`, `思`, `m`, `结` holds no trigger word |
| Scenarios.WarrantyQuestionAnswer | notebook-client/src/app/api/chat/route.ts:52-58 | `保修期是多久？` gets the warranty answer |
| Scenarios.WarrantyQuestionCitations | notebook-client/src/app/api/chat/route.ts:32-42 | `保修期是多久？` cites the product sheet alone, not the after-sales terms |
| Scenarios.WeatherQuestionCitations | notebook-client/src/app/api/chat/route.ts:42 | `今天天气怎么样` falls back to citing the product sheet alone |
| Scenarios.WeatherQuestionAnswer | notebook-client/src/app/api/chat/route.ts:80-87 | `今天天气怎么样` gets the generic answer quoting the product sheet |
| Scenarios.RobotRechargeQuestionCitations | notebook-client/src/app/api/chat/route.ts:32-42 | `机器人无法回充怎么办` cites the product sheet alone, not the troubleshooting guide |
| Scenarios.BatteryQuestionReply | notebook-client/src/app/api/chat/route.ts:38-51 | `电池容量是多少？` gets the battery answer and cites the product sheet |
| Scenarios.MindMapByLetters | notebook-client/src/app/api/chat/route.ts:48-79 | a message with a mind-map trigger and none of `续`, `电`, `保`, `退` gets the mind-map answer |
| Scenarios.MindMapRequestReply | notebook-client/src/app/api/chat/route.ts:59-79 | `请生成思维导图` gets the mind-map answer, whose text holds the mermaid block |
| Scenarios.ShoutedMindMapReply | notebook-client/src/app/api/chat/route.ts:28-59 | `MIND MAP` is lower-cased to the trigger `mind map` and gets the mind-map answer |
| Scenarios.RechargeQueryInGuide | notebook-client/src/app/api/chat/route.ts:21 | `无法回充` occurs in the troubleshooting guide's content |
| Scenarios.RechargeQueryCitesGuide | notebook-client/src/app/api/chat/route.ts:36 | the query `无法回充` makes the troubleshooting guide relevant, so it is cited |

## Left out

- Transport is not modelled: reading the request body as JSON, `NextResponse.json`, and the catch-all 500 reply for a failing request (`route.ts:27`, `route.ts:92-108`). The model starts from the `message` string and ends with the reply's fields.
- The 800 ms artificial delay (`route.ts:90`) is a timer with no effect on the reply.
- Text.Lower, Text.LowerChar: they fold only the ASCII letters `A`–`Z`. JavaScript's `toLowerCase` folds every Unicode letter that has a lower-case form (for example `Ä`). No content passage and no trigger word holds a non-ASCII capital; the ASCII capitals they do hold, such as `X100` and `5200mAh`, are folded exactly. So the model differs from `toLowerCase` only for messages that hold a non-ASCII capital.
- Strings are sequences of Unicode scalar values; JavaScript strings are UTF-16 code units. The two agree for all the text in the route, which lies in the Basic Multilingual Plane.
- The answer is the `Answer` datatype. Its text is given by `AnswerText`, whose constants are the source's template strings. The mermaid block keeps the three replacement characters that stand in the source line 67.
- The UI (`ChatInterface.tsx`), the mermaid wrapper (`MermaidDiagram.tsx`), the page and the Next.js configuration are not part of this model: they hold no retrieval or selection logic.
