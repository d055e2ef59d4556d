/**
 * Worked requests: concrete messages and the reply the route gives them.
 * Each record's keywords are known through `Knowledge.KeywordsOf...`; a
 * record is shown irrelevant by naming, for each of its clauses, a first or
 * last character the query lacks, and one character of the query that its
 * content lacks.
 */
module Scenarios {
  import opened Text
  import opened Knowledge
  import opened Chat

  /** Once lower-cased, the clause `t` cannot be a keyword that counts for
      `query`: it is too short, or its last or first character is not in the
      query. */
  predicate Misses(query: string, t: string) {
    |t| <= 1 || LowerChar(t[|t| - 1]) !in query || LowerChar(t[0]) !in query
  }

  lemma MissesAll(query: string, ts: seq<string>)
    requires forall t | t in ts :: Misses(query, t)
    ensures !SomeKeywordIn(query, LowerEach(ts))
  {
    var ks := LowerEach(ts);
    forall k | k in ks && |k| > 1 ensures !Includes(query, k) {
      var i :| 0 <= i < |ks| && ks[i] == k;
      var t := ts[i];
      assert t in ts && k == Lower(t);
      if LowerChar(t[|t| - 1]) !in query {
        MissingCharExcludes(query, k, k[|k| - 1]);
      } else {
        MissingCharExcludes(query, k, k[0]);
      }
    }
  }

  /** A record is not relevant to a query without hint characters when its
      clauses all miss the query and its content lacks the query character
      `c`. */
  lemma Unrelated(query: string, e: Entry, ts: seq<string>, seps: seq<char>, c: char)
    requires |ts| >= 1 && |seps| == |ts| - 1
    requires e.content == Interleave(ts, seps) && Keywords(e) == LowerEach(ts)
    requires forall i | 0 <= i < |ts| :: Misses(query, ts[i])
    requires forall i | 0 <= i < |ts| :: c !in ts[i]
    requires c in query && c !in seps
    requires '退' !in query && '电' !in query
    ensures !IsRelevant(query, e)
  {
    forall t | t in ts ensures Misses(query, t) && c !in t {
      var i :| 0 <= i < |ts| && ts[i] == t;
    }
    MissesAll(query, ts);
    InterleaveAvoids(ts, seps, c);
    MissingCharExcludes(e.content, query, c);
    MissingCharExcludes(query, RefundHint, '退');
    MissingCharExcludes(query, PowerHint, '电');
  }

  /** `Unrelated`, specialised to each record of the knowledge base. */
  lemma UnrelatedToProductSheet(query: string, c: char)
    requires forall i | 0 <= i < |Clauses1| :: Misses(query, Clauses1[i])
    requires forall i | 0 <= i < |Clauses1| :: c !in Clauses1[i]
    requires c in query && !IsSeparator(c) && '退' !in query && '电' !in query
    ensures !IsRelevant(query, ProductSheet)
  {
    KeywordsOfProductSheet();
    Unrelated(query, ProductSheet, Clauses1, Separators1, c);
  }

  lemma UnrelatedToServiceTerms(query: string, c: char)
    requires forall i | 0 <= i < |Clauses2| :: Misses(query, Clauses2[i])
    requires forall i | 0 <= i < |Clauses2| :: c !in Clauses2[i]
    requires c in query && !IsSeparator(c) && '退' !in query && '电' !in query
    ensures !IsRelevant(query, ServiceTerms)
  {
    KeywordsOfServiceTerms();
    Unrelated(query, ServiceTerms, Clauses2, Separators2, c);
  }

  lemma UnrelatedToGuide(query: string, c: char)
    requires forall i | 0 <= i < |Clauses3| :: Misses(query, Clauses3[i])
    requires forall i | 0 <= i < |Clauses3| :: c !in Clauses3[i]
    requires c in query && !IsSeparator(c) && '退' !in query && '电' !in query
    ensures !IsRelevant(query, TroubleshootingGuide)
  {
    KeywordsOfTroubleshootingGuide();
    Unrelated(query, TroubleshootingGuide, Clauses3, Separators3, c);
  }

  /** Three irrelevant records make an irrelevant list of three. */
  lemma NoneOfThree(query: string, kb: seq<Entry>)
    requires |kb| == 3
    requires !IsRelevant(query, kb[0]) && !IsRelevant(query, kb[1]) && !IsRelevant(query, kb[2])
    ensures forall e | e in kb :: !IsRelevant(query, e)
  {
  }

  /** Three records relevant to nothing in the query leave the knowledge
      base without a relevant record. */
  lemma NoneRelevant(query: string)
    requires !IsRelevant(query, ProductSheet)
    requires !IsRelevant(query, ServiceTerms)
    requires !IsRelevant(query, TroubleshootingGuide)
    ensures forall e | e in KnowledgeBase :: !IsRelevant(query, e)
  {
    KnowledgeBaseNumbered();
    NoneOfThree(query, KnowledgeBase);
  }

  /** A message without capitals that is relevant to none of the three
      records cites the product sheet alone. */
  lemma NothingRelevant(message: string)
    requires HasNoUpper(message)
    requires !IsRelevant(message, ProductSheet)
    requires !IsRelevant(message, ServiceTerms)
    requires !IsRelevant(message, TroubleshootingGuide)
    ensures Respond(message).citations == [ToCitation(ProductSheet)]
  {
    NoneRelevant(message);
    FallbackCitation(message);
  }

  /** A reply citing the product sheet alone cites neither other record. */
  lemma SoleCitation(cs: seq<Citation>)
    requires cs == [ToCitation(ProductSheet)]
    ensures ToCitation(ServiceTerms) !in cs && ToCitation(TroubleshootingGuide) !in cs
  {
    CitationsDiffer();
  }

  /** The three records give three different citations. */
  lemma CitationsDiffer()
    ensures ToCitation(ServiceTerms) != ToCitation(ProductSheet)
    ensures ToCitation(TroubleshootingGuide) != ToCitation(ProductSheet)
    ensures ToCitation(TroubleshootingGuide) != ToCitation(ServiceTerms)
  {
    assert ProductSheet.id == 1 && ServiceTerms.id == 2 && TroubleshootingGuide.id == 3;
  }

  /** A query that lacks the characters `续`, `电`, `保`, `退`, `思`, `m` and
      `结` holds no trigger word. */
  lemma NoTrigger(query: string)
    requires HasNoUpper(query)
    requires '续' !in query && '电' !in query && '保' !in query && '退' !in query
    requires '思' !in query && 'm' !in query && '结' !in query
    ensures !AnyIncluded(Lower(query), BatteryTriggers)
    ensures !AnyIncluded(Lower(query), WarrantyTriggers)
    ensures !AnyIncluded(Lower(query), MindMapTriggers)
  {
    assert Lower(query) == query;
    MissingCharExcludes(query, "续航", '续');
    MissingCharExcludes(query, "电池", '电');
    MissingCharExcludes(query, "保修", '保');
    MissingCharExcludes(query, "退货", '退');
    MissingCharExcludes(query, "思维导图", '思');
    MissingCharExcludes(query, "mind map", 'm');
    MissingCharExcludes(query, "结构", '结');
  }

  // ---------------------------------------------------------------------
  // "保修期是多久？" (how long is the warranty?)
  // ---------------------------------------------------------------------

  const WarrantyQuestion: string := "保修期是多久？"

  lemma WarrantyQuestionLetters()
    ensures HasNoUpper(WarrantyQuestion)
    ensures '？' in WarrantyQuestion && '退' !in WarrantyQuestion && '电' !in WarrantyQuestion
    ensures '续' !in WarrantyQuestion
  {
  }

  lemma WarrantyQuestionMissesProductSheet()
    ensures forall i | 0 <= i < |Clauses1| :: Misses(WarrantyQuestion, Clauses1[i])
  {
  }

  lemma WarrantyQuestionNotInProductSheet()
    ensures forall i | 0 <= i < |Clauses1| :: '？' !in Clauses1[i]
  {
  }

  lemma WarrantyQuestionSkipsProductSheet(q: string)
    requires q == WarrantyQuestion
    ensures !IsRelevant(q, ProductSheet)
  {
    WarrantyQuestionLetters();
    WarrantyQuestionMissesProductSheet();
    WarrantyQuestionNotInProductSheet();
    UnrelatedToProductSheet(q, '？');
  }

  lemma WarrantyQuestionMissesServiceTerms()
    ensures forall i | 0 <= i < |Clauses2| :: Misses(WarrantyQuestion, Clauses2[i])
  {
  }

  lemma WarrantyQuestionNotInServiceTerms()
    ensures forall i | 0 <= i < |Clauses2| :: '？' !in Clauses2[i]
  {
  }

  lemma WarrantyQuestionSkipsServiceTerms(q: string)
    requires q == WarrantyQuestion
    ensures !IsRelevant(q, ServiceTerms)
  {
    WarrantyQuestionLetters();
    WarrantyQuestionMissesServiceTerms();
    WarrantyQuestionNotInServiceTerms();
    UnrelatedToServiceTerms(q, '？');
  }

  lemma WarrantyQuestionMissesGuide()
    ensures forall i | 0 <= i < |Clauses3| :: Misses(WarrantyQuestion, Clauses3[i])
  {
  }

  lemma WarrantyQuestionNotInGuide()
    ensures forall i | 0 <= i < |Clauses3| :: '？' !in Clauses3[i]
  {
  }

  lemma WarrantyQuestionSkipsGuide(q: string)
    requires q == WarrantyQuestion
    ensures !IsRelevant(q, TroubleshootingGuide)
  {
    WarrantyQuestionLetters();
    WarrantyQuestionMissesGuide();
    WarrantyQuestionNotInGuide();
    UnrelatedToGuide(q, '？');
  }

  /** The warranty question gets the warranty answer. */
  lemma WarrantyQuestionAnswer(q: string)
    requires q == WarrantyQuestion
    ensures Respond(q).answer == Warranty
  {
    WarrantyQuestionLetters();
    MissingCharExcludes(q, "续航", '续');
    MissingCharExcludes(q, "电池", '电');
    assert OccursAt(q, "保修", 0);
    AnswerByPriority(q);
  }

  /** Yet no record is relevant to the warranty question (no keyword of the
      service terms, such as `整机保修期为`, lies inside the short question),
      so the product sheet is cited alone and the service terms are not. */
  lemma WarrantyQuestionCitations(q: string)
    requires q == WarrantyQuestion
    ensures Respond(q).citations == [ToCitation(ProductSheet)]
    ensures ToCitation(ServiceTerms) !in Respond(q).citations
  {
    WarrantyQuestionLetters();
    WarrantyQuestionSkipsProductSheet(q);
    WarrantyQuestionSkipsServiceTerms(q);
    WarrantyQuestionSkipsGuide(q);
    NothingRelevant(q);
    SoleCitation(Respond(q).citations);
  }

  // ---------------------------------------------------------------------
  // "今天天气怎么样" (what's the weather today?)
  // ---------------------------------------------------------------------

  const WeatherQuestion: string := "今天天气怎么样"

  lemma WeatherQuestionLetters()
    ensures HasNoUpper(WeatherQuestion)
    ensures '今' in WeatherQuestion && '退' !in WeatherQuestion && '电' !in WeatherQuestion
    ensures '续' !in WeatherQuestion && '保' !in WeatherQuestion && '思' !in WeatherQuestion && 'm' !in WeatherQuestion && '结' !in WeatherQuestion
  {
  }

  lemma WeatherQuestionMissesProductSheet()
    ensures forall i | 0 <= i < |Clauses1| :: Misses(WeatherQuestion, Clauses1[i])
  {
  }

  lemma WeatherQuestionNotInProductSheet()
    ensures forall i | 0 <= i < |Clauses1| :: '今' !in Clauses1[i]
  {
  }

  lemma WeatherQuestionSkipsProductSheet(q: string)
    requires q == WeatherQuestion
    ensures !IsRelevant(q, ProductSheet)
  {
    WeatherQuestionLetters();
    WeatherQuestionMissesProductSheet();
    WeatherQuestionNotInProductSheet();
    UnrelatedToProductSheet(q, '今');
  }

  lemma WeatherQuestionMissesServiceTerms()
    ensures forall i | 0 <= i < |Clauses2| :: Misses(WeatherQuestion, Clauses2[i])
  {
  }

  lemma WeatherQuestionNotInServiceTerms()
    ensures forall i | 0 <= i < |Clauses2| :: '今' !in Clauses2[i]
  {
  }

  lemma WeatherQuestionSkipsServiceTerms(q: string)
    requires q == WeatherQuestion
    ensures !IsRelevant(q, ServiceTerms)
  {
    WeatherQuestionLetters();
    WeatherQuestionMissesServiceTerms();
    WeatherQuestionNotInServiceTerms();
    UnrelatedToServiceTerms(q, '今');
  }

  lemma WeatherQuestionMissesGuide()
    ensures forall i | 0 <= i < |Clauses3| :: Misses(WeatherQuestion, Clauses3[i])
  {
  }

  lemma WeatherQuestionNotInGuide()
    ensures forall i | 0 <= i < |Clauses3| :: '今' !in Clauses3[i]
  {
  }

  lemma WeatherQuestionSkipsGuide(q: string)
    requires q == WeatherQuestion
    ensures !IsRelevant(q, TroubleshootingGuide)
  {
    WeatherQuestionLetters();
    WeatherQuestionMissesGuide();
    WeatherQuestionNotInGuide();
    UnrelatedToGuide(q, '今');
  }

  /** A question unrelated to the knowledge base falls back to the product
      sheet: it is the one citation and the generic answer quotes it. */
  lemma WeatherQuestionCitations(q: string)
    requires q == WeatherQuestion
    ensures Respond(q).citations == [ToCitation(ProductSheet)]
  {
    WeatherQuestionLetters();
    WeatherQuestionSkipsProductSheet(q);
    WeatherQuestionSkipsServiceTerms(q);
    WeatherQuestionSkipsGuide(q);
    NothingRelevant(q);
  }

  lemma WeatherQuestionAnswer(q: string)
    requires q == WeatherQuestion
    ensures Respond(q).answer == Generic(ProductSheet.content)
  {
    WeatherQuestionLetters();
    WeatherQuestionCitations(q);
    NoTrigger(q);
    GenericAnswer(q);
    GenericQuotesFirstCitation(q);
  }

  // ---------------------------------------------------------------------
  // "机器人无法回充怎么办" (the robot will not recharge, what now?)
  // ---------------------------------------------------------------------

  const RobotRechargeQuestion: string := "机器人无法回充怎么办"

  lemma RobotRechargeQuestionLetters()
    ensures HasNoUpper(RobotRechargeQuestion)
    ensures '怎' in RobotRechargeQuestion && '退' !in RobotRechargeQuestion && '电' !in RobotRechargeQuestion
    ensures '续' !in RobotRechargeQuestion && '保' !in RobotRechargeQuestion && '思' !in RobotRechargeQuestion && 'm' !in RobotRechargeQuestion && '结' !in RobotRechargeQuestion
  {
  }

  lemma RobotRechargeQuestionMissesProductSheet()
    ensures forall i | 0 <= i < |Clauses1| :: Misses(RobotRechargeQuestion, Clauses1[i])
  {
  }

  lemma RobotRechargeQuestionNotInProductSheet()
    ensures forall i | 0 <= i < |Clauses1| :: '怎' !in Clauses1[i]
  {
  }

  lemma RobotRechargeQuestionSkipsProductSheet(q: string)
    requires q == RobotRechargeQuestion
    ensures !IsRelevant(q, ProductSheet)
  {
    RobotRechargeQuestionLetters();
    RobotRechargeQuestionMissesProductSheet();
    RobotRechargeQuestionNotInProductSheet();
    UnrelatedToProductSheet(q, '怎');
  }

  lemma RobotRechargeQuestionMissesServiceTerms()
    ensures forall i | 0 <= i < |Clauses2| :: Misses(RobotRechargeQuestion, Clauses2[i])
  {
  }

  lemma RobotRechargeQuestionNotInServiceTerms()
    ensures forall i | 0 <= i < |Clauses2| :: '怎' !in Clauses2[i]
  {
  }

  lemma RobotRechargeQuestionSkipsServiceTerms(q: string)
    requires q == RobotRechargeQuestion
    ensures !IsRelevant(q, ServiceTerms)
  {
    RobotRechargeQuestionLetters();
    RobotRechargeQuestionMissesServiceTerms();
    RobotRechargeQuestionNotInServiceTerms();
    UnrelatedToServiceTerms(q, '怎');
  }

  lemma RobotRechargeQuestionMissesGuide()
    ensures forall i | 0 <= i < |Clauses3| :: Misses(RobotRechargeQuestion, Clauses3[i])
  {
  }

  lemma RobotRechargeQuestionNotInGuide()
    ensures forall i | 0 <= i < |Clauses3| :: '怎' !in Clauses3[i]
  {
  }

  lemma RobotRechargeQuestionSkipsGuide(q: string)
    requires q == RobotRechargeQuestion
    ensures !IsRelevant(q, TroubleshootingGuide)
  {
    RobotRechargeQuestionLetters();
    RobotRechargeQuestionMissesGuide();
    RobotRechargeQuestionNotInGuide();
    UnrelatedToGuide(q, '怎');
  }

  /** A longer question around `无法回充` is not part of the troubleshooting
      guide's content and holds none of its keywords whole (the first clause
      is `如果机器人无法回充`), so the guide is not cited. */
  lemma RobotRechargeQuestionCitations(q: string)
    requires q == RobotRechargeQuestion
    ensures Respond(q).citations == [ToCitation(ProductSheet)]
    ensures ToCitation(TroubleshootingGuide) !in Respond(q).citations
  {
    RobotRechargeQuestionLetters();
    RobotRechargeQuestionSkipsProductSheet(q);
    RobotRechargeQuestionSkipsServiceTerms(q);
    RobotRechargeQuestionSkipsGuide(q);
    NothingRelevant(q);
    SoleCitation(Respond(q).citations);
  }

  // ---------------------------------------------------------------------
  // Questions that hit a trigger or a record
  // ---------------------------------------------------------------------

  const BatteryQuestion: string := "电池容量是多少？"

  /** The battery question gets the battery answer and cites the product
      sheet. */
  lemma BatteryQuestionReply(q: string)
    requires q == BatteryQuestion
    ensures Respond(q).answer == Battery
    ensures ToCitation(ProductSheet) in Respond(q).citations
  {
    assert HasNoUpper(q) && Lower(q) == q;
    assert OccursAt(q, "电池", 0);
    BatteryQueryCitesProductSheet(q);
  }

  /** A message whose lower-cased form holds a mind-map trigger and none of
      `续`, `电`, `保`, `退` gets the mind-map answer. */
  lemma MindMapByLetters(message: string)
    requires '续' !in Lower(message) && '电' !in Lower(message)
    requires '保' !in Lower(message) && '退' !in Lower(message)
    requires AnyIncluded(Lower(message), MindMapTriggers)
    ensures Respond(message).answer == MindMap
  {
    var l := Lower(message);
    MissingCharExcludes(l, "续航", '续');
    MissingCharExcludes(l, "电池", '电');
    MissingCharExcludes(l, "保修", '保');
    MissingCharExcludes(l, "退货", '退');
    AnswerByPriority(message);
  }

  const MindMapRequest: string := "请生成思维导图"

  lemma MindMapRequestLetters(q: string)
    requires q == MindMapRequest
    ensures Lower(q) == q
    ensures '续' !in q && '电' !in q && '保' !in q && '退' !in q
    ensures AnyIncluded(q, MindMapTriggers)
  {
    assert HasNoUpper(q);
    assert OccursAt(q, "思维导图", 3);
    assert "思维导图" in MindMapTriggers;
  }

  /** The mind-map request gets the mind-map answer, whose text holds the
      mermaid block. */
  lemma MindMapRequestReply(q: string)
    requires q == MindMapRequest
    ensures Respond(q).answer == MindMap
    ensures Includes(AnswerText(Respond(q).answer), MermaidBlock)
  {
    MindMapRequestLetters(q);
    MindMapByLetters(q);
  }

  const ShoutedMindMap: string := "MIND MAP"

  lemma ShoutedMindMapLowered(q: string)
    requires q == ShoutedMindMap
    ensures Lower(q) == "mind map"
  {
  }

  lemma MindMapTriggerLetters(l: string)
    requires l == "mind map"
    ensures '续' !in l && '电' !in l && '保' !in l && '退' !in l
    ensures AnyIncluded(l, MindMapTriggers)
  {
    IncludesSelf(l);
    assert l in MindMapTriggers;
  }

  /** Capitals do not matter: `MIND MAP` is lower-cased to the trigger
      `mind map`. */
  lemma ShoutedMindMapReply(q: string)
    requires q == ShoutedMindMap
    ensures Respond(q).answer == MindMap
  {
    ShoutedMindMapLowered(q);
    MindMapTriggerLetters(Lower(q));
    MindMapByLetters(q);
  }

  const RechargeQuery: string := "无法回充"

  lemma RechargeQueryInGuide(q: string)
    requires q == RechargeQuery
    ensures Lower(q) == q
    ensures Includes(TroubleshootingGuide.content, q)
  {
    assert HasNoUpper(q);
    assert OccursAt(Clauses3[0], q, 5);
    InterleaveIncludesHead(Clauses3, Separators3, q);
  }

  /** A query taken from the troubleshooting guide's content makes it
      relevant, so it is cited. */
  lemma RechargeQueryCitesGuide(q: string)
    requires q == RechargeQuery
    ensures ToCitation(TroubleshootingGuide) in Respond(q).citations
  {
    RechargeQueryInGuide(q);
    KnowledgeBaseNumbered();
    ReplyCites(q, TroubleshootingGuide);
  }
}
