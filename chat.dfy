/**
 * The mock retrieval and answer selection of the chat route's `POST`
 * handler: lower-case the message, keep the knowledge-base records that the
 * four relevance rules accept, fall back to the first record when none is
 * kept, pick one of four answer templates by trigger words (first match
 * wins), and project the cited records to `{id, title, content}`.
 */
module Chat {
  import opened Text
  import opened Knowledge

  // ---------------------------------------------------------------------
  // Relevance
  // ---------------------------------------------------------------------

  /** A character of the query that ties every query holding it to one
      category, whatever the keywords say. */
  const RefundHint: string := "退"
  const PowerHint: string := "电"

  /** `keywords.some(k => k.length > 1 && query.includes(k))`, scanning the
      keywords in order and stopping at the first hit. */
  function SomeKeywordIn(query: string, keywords: seq<string>): (r: bool)
    ensures r <==> exists k | k in keywords :: |k| > 1 && Includes(query, k)
  {
    if keywords == [] then false
    else (|keywords[0]| > 1 && Includes(query, keywords[0])) || SomeKeywordIn(query, keywords[1..])
  }

  /** The predicate given to `KNOWLEDGE_BASE.filter`, for an already
      lower-cased query. Note the direction of the second rule: the record's
      original (not lower-cased) content must include the query. */
  predicate IsRelevant(query: string, e: Entry) {
    || SomeKeywordIn(query, Keywords(e))
    || Includes(e.content, query)
    || (Includes(query, RefundHint) && e.category == AfterSales)
    || (Includes(query, PowerHint) && e.category == ProductSpecs)
  }

  /** `xs.filter(keep)`. */
  function Filter<T>(keep: T -> bool, xs: seq<T>): (r: seq<T>)
    ensures |r| <= |xs|
    ensures forall x | x in r :: x in xs && keep(x)
    ensures forall x | x in xs && keep(x) :: x in r
    ensures r == [] <==> forall x | x in xs :: !keep(x)
  {
    if xs == [] then []
    else if keep(xs[0]) then [xs[0]] + Filter(keep, xs[1..])
    else Filter(keep, xs[1..])
  }

  /** `idx` lists, strictly increasing, the position in `xs` of each element
      of `r`, and a position of `xs` is listed iff `keep` accepts its element:
      `r` is the in-order selection of exactly the accepted elements. */
  ghost predicate SelectsExactly<T>(keep: T -> bool, xs: seq<T>, r: seq<T>, idx: seq<int>) {
    && PicksFrom(xs, r, idx)
    && Increasing(idx)
    && ListsAccepted(keep, xs, idx)
  }

  ghost predicate PicksFrom<T>(xs: seq<T>, r: seq<T>, idx: seq<int>) {
    |idx| == |r| && forall j | 0 <= j < |idx| :: 0 <= idx[j] < |xs| && r[j] == xs[idx[j]]
  }

  ghost predicate Increasing(idx: seq<int>) {
    forall j, k | 0 <= j < k < |idx| :: idx[j] < idx[k]
  }

  ghost predicate ListsAccepted<T>(keep: T -> bool, xs: seq<T>, idx: seq<int>) {
    forall i | 0 <= i < |xs| :: keep(xs[i]) <==> i in idx
  }

  /** The filter keeps the elements in their order and keeps exactly the
      accepted positions. */
  lemma {:induction false} FilterPositions<T>(keep: T -> bool, xs: seq<T>) returns (idx: seq<int>)
    ensures SelectsExactly(keep, xs, Filter(keep, xs), idx)
  {
    if xs == [] {
      idx := [];
    } else {
      var tail := FilterPositions(keep, xs[1..]);
      var rest := Filter(keep, xs[1..]);
      var shifted := Shifted(tail);
      ShiftedPicks(xs, rest, tail);
      ShiftedIncreasing(tail);
      ShiftedLists(keep, xs, tail);
      if keep(xs[0]) {
        idx := [0] + shifted;
        assert Filter(keep, xs) == [xs[0]] + rest;
        ConsPicks(xs, rest, shifted);
        ConsIncreasing(shifted);
        ConsLists(keep, xs, shifted);
      } else {
        idx := shifted;
        assert Filter(keep, xs) == rest;
      }
    }
  }

  /** Every position of `tail` moved one place to the right. */
  function Shifted(tail: seq<int>): (r: seq<int>)
    ensures |r| == |tail|
    ensures forall j | 0 <= j < |tail| :: r[j] == tail[j] + 1
  {
    seq(|tail|, j requires 0 <= j < |tail| => tail[j] + 1)
  }

  lemma ShiftedPicks<T>(xs: seq<T>, r: seq<T>, tail: seq<int>)
    requires xs != [] && PicksFrom(xs[1..], r, tail)
    ensures PicksFrom(xs, r, Shifted(tail))
  {
  }

  lemma ShiftedIncreasing(tail: seq<int>)
    requires Increasing(tail)
    ensures Increasing(Shifted(tail))
  {
  }

  lemma ShiftedLists<T>(keep: T -> bool, xs: seq<T>, tail: seq<int>)
    requires xs != [] && ListsAccepted(keep, xs[1..], tail)
    requires forall j | 0 <= j < |tail| :: 0 <= tail[j]
    ensures forall i | 1 <= i < |xs| :: keep(xs[i]) <==> i in Shifted(tail)
    ensures 0 !in Shifted(tail)
  {
    var sh := Shifted(tail);
    forall i | 1 <= i < |xs| ensures keep(xs[i]) <==> i in sh {
      assert xs[i] == xs[1..][i - 1];
      if i - 1 in tail {
        var j :| 0 <= j < |tail| && tail[j] == i - 1;
        assert sh[j] == i;
      }
      if i in sh {
        var j :| 0 <= j < |sh| && sh[j] == i;
        assert tail[j] == i - 1;
      }
    }
  }

  lemma ConsPicks<T>(xs: seq<T>, rest: seq<T>, sh: seq<int>)
    requires xs != [] && PicksFrom(xs, rest, sh)
    ensures PicksFrom(xs, [xs[0]] + rest, [0] + sh)
  {
    var idx := [0] + sh;
    forall j | 0 < j < |idx| ensures 0 <= idx[j] < |xs| && ([xs[0]] + rest)[j] == xs[idx[j]] {
      assert idx[j] == sh[j - 1];
    }
  }

  lemma ConsIncreasing(sh: seq<int>)
    requires Increasing(sh) && forall j | 0 <= j < |sh| :: sh[j] > 0
    ensures Increasing([0] + sh)
  {
    var idx := [0] + sh;
    forall j, k | 0 <= j < k < |idx| ensures idx[j] < idx[k] {
      assert idx[k] == sh[k - 1];
      if j > 0 {
        assert idx[j] == sh[j - 1];
      }
    }
  }

  lemma ConsLists<T>(keep: T -> bool, xs: seq<T>, sh: seq<int>)
    requires xs != [] && keep(xs[0])
    requires forall i | 1 <= i < |xs| :: keep(xs[i]) <==> i in sh
    ensures ListsAccepted(keep, xs, [0] + sh)
  {
  }

  /** `relevantDocs`: the records of `kb` relevant to the query, in order. */
  function RelevantDocs(query: string, kb: seq<Entry>): (r: seq<Entry>)
    ensures forall e :: e in r <==> e in kb && IsRelevant(query, e)
  {
    Filter((e: Entry) => IsRelevant(query, e), kb)
  }

  /** `citedDocs`: the records of `kb` relevant to the query, or the first
      record of `kb` when there is none. */
  function CitedDocs(query: string, kb: seq<Entry>): (r: seq<Entry>)
    requires |kb| >= 1
    ensures |r| >= 1
    ensures (exists e | e in kb :: IsRelevant(query, e)) ==>
              r == RelevantDocs(query, kb) && forall e :: e in r <==> e in kb && IsRelevant(query, e)
    ensures (forall e | e in kb :: !IsRelevant(query, e)) ==> r == [kb[0]]
  {
    var relevant := RelevantDocs(query, kb);
    if |relevant| > 0 then relevant else [kb[0]]
  }

  // ---------------------------------------------------------------------
  // Answer templates
  // ---------------------------------------------------------------------

  /** The answer the handler picks; the generic one quotes a content
      passage. */
  datatype Answer = Battery | Warranty | MindMap | Generic(quoted: string)

  const BatteryTriggers: seq<string> := ["续航", "电池"]
  const WarrantyTriggers: seq<string> := ["保修", "退货"]
  const MindMapTriggers: seq<string> := ["思维导图", "mind map", "结构"]

  predicate AnyIncluded(query: string, triggers: seq<string>) {
    exists t | t in triggers :: Includes(query, t)
  }

  /** The `if / else if` chain that picks the answer: battery, then warranty,
      then mind map, then the generic answer, which quotes the content of the
      first cited record. */
  function ChooseAnswer(query: string, cited: seq<Entry>): (a: Answer)
    requires |cited| >= 1
    ensures a == Battery <==> AnyIncluded(query, BatteryTriggers)
    ensures a == Warranty <==> !AnyIncluded(query, BatteryTriggers) && AnyIncluded(query, WarrantyTriggers)
    ensures a == MindMap <==>
              !AnyIncluded(query, BatteryTriggers) && !AnyIncluded(query, WarrantyTriggers)
              && AnyIncluded(query, MindMapTriggers)
    ensures a.Generic? <==>
              !AnyIncluded(query, BatteryTriggers) && !AnyIncluded(query, WarrantyTriggers)
              && !AnyIncluded(query, MindMapTriggers)
    ensures a.Generic? ==> a.quoted == cited[0].content
  {
    if Includes(query, "续航") || Includes(query, "电池") then Battery
    else if Includes(query, "保修") || Includes(query, "退货") then Warranty
    else if Includes(query, "思维导图") || Includes(query, "mind map") || Includes(query, "结构") then MindMap
    else Generic(cited[0].content)
  }

  const BatteryText: string :=
    "根据产品规格说明书，X100 扫地机器人的**电池容量为 5200mAh**。\n\n在标准模式下，它的续航时间可以达到 **150 分钟**，这通常足以覆盖 150 平方米左右的清洁面积。请注意，充满电大约需要 4 小时。"

  const WarrantyText: string :=
    "关于售后服务，我们提供以下保障：\n\n*   **退换货**：支持 7 天无理由退货及 15 天质量换货。\n*   **保修期**：整机保修 **2 年**，核心部件（电池、电机）保修 **3 年**。\n\n请注意，人为损坏不在保修范围内。"

  /** The mind-map answer: an introduction, a fenced `mermaid` block (its
      three replacement characters are in the source as they stand) and a
      closing line. */
  const MindMapIntro: string := "好的，根据现有文档，我为您梳理了 X100 智能机器人的核心知识点结构：\n\n"
  const MermaidBlock: string :=
    "```mermaid\nmindmap\n  root((X100 扫地机器人))\n    核心参数\n      吸力: 4000Pa\n      续\U{FFFD}\U{FFFD}\U{FFFD}: 150分钟\n      电池: 5200mAh\n      噪音: <65dB\n    售后保障\n      整机保修: 2年\n      核心部件: 3年\n      退换货: 7天无理由\n    常见故障\n      无法回充: 检查充电座\n      吸力下降: 清理滤网\n```"
  const MindMapOutro: string := "\n\n您可以点击图表中的节点来展开思考（模拟功能）。"

  const GenericPrefix: string := "我查阅了知识库，发现以下相关信息：\n\n"
  const GenericSuffix: string := "\n\n如果您有具体关于续航、保修或故障排查的问题，请告诉我。"

  /** The text of an answer: the fixed text of its template, the generic
      one with the quoted content between a fixed prefix and suffix. */
  function AnswerText(a: Answer): (r: string)
    ensures r != []
    ensures a.Generic? ==>
              && |r| == |GenericPrefix| + |a.quoted| + |GenericSuffix|
              && r[..|GenericPrefix|] == GenericPrefix
              && r[|GenericPrefix|..|r| - |GenericSuffix|] == a.quoted
              && r[|r| - |GenericSuffix|..] == GenericSuffix
    ensures a == MindMap ==> Includes(r, MermaidBlock)
  {
    match a
    case Battery => BatteryText
    case Warranty => WarrantyText
    case MindMap =>
      IncludesSelf(MermaidBlock);
      IncludesExtend(MindMapIntro, MermaidBlock, MindMapOutro, MermaidBlock);
      MindMapIntro + MermaidBlock + MindMapOutro
    case Generic(quoted) =>
      var r := GenericPrefix + quoted + GenericSuffix;
      assert r[..|GenericPrefix|] == GenericPrefix;
      assert r[|GenericPrefix|..|r| - |GenericSuffix|] == quoted;
      assert r[|r| - |GenericSuffix|..] == GenericSuffix;
      r
  }

  // ---------------------------------------------------------------------
  // The reply
  // ---------------------------------------------------------------------

  /** What the reply carries of a record: the category is dropped. */
  datatype Citation = Citation(id: nat, title: string, content: string)

  function ToCitation(e: Entry): Citation {
    Citation(e.id, e.title, e.content)
  }

  /** `citedDocs.map(doc => ({ id, title, content }))`. */
  function Citations(docs: seq<Entry>): (r: seq<Citation>)
    ensures |r| == |docs|
    ensures forall i | 0 <= i < |docs| ::
              r[i].id == docs[i].id && r[i].title == docs[i].title && r[i].content == docs[i].content
  {
    seq(|docs|, i requires 0 <= i < |docs| => ToCitation(docs[i]))
  }

  /** The response body; its `answer` text is `AnswerText(answer)`. */
  datatype Reply = Reply(answer: Answer, citations: seq<Citation>)

  /** The handler's work on the `message` field of the request. */
  function Respond(message: string): (r: Reply)
    ensures |r.citations| >= 1
  {
    var query := Lower(message);
    var cited := CitedDocs(query, KnowledgeBase);
    Reply(ChooseAnswer(query, cited), Citations(cited))
  }

  // ---------------------------------------------------------------------
  // What the reply promises
  // ---------------------------------------------------------------------

  /** A keyword of length at most one never decides relevance, wherever it
      stands in the list; the empty keywords a trailing separator leaves are
      such keywords. */
  lemma ShortKeywordIgnored(query: string, before: seq<string>, k: string, after: seq<string>)
    requires |k| <= 1
    ensures SomeKeywordIn(query, before + [k] + after) == SomeKeywordIn(query, before + after)
  {
    var all := before + [k] + after;
    if SomeKeywordIn(query, all) {
      var w :| w in all && |w| > 1 && Includes(query, w);
      assert w in before + after;
    }
    if SomeKeywordIn(query, before + after) {
      var w :| w in before + after && |w| > 1 && Includes(query, w);
      assert w in all;
    }
  }

  /** A query of at most one character holds no keyword that counts. */
  lemma ShortQueryHitsNoKeyword(query: string, keywords: seq<string>)
    requires |query| <= 1
    ensures !SomeKeywordIn(query, keywords)
  {
  }

  /** Every content passage ends in a separator, so each record's keyword
      list ends with an empty keyword, which `ShortKeywordIgnored` discards. */
  lemma KeywordsEndEmpty()
    ensures |Keywords(ProductSheet)| >= 2 && Keywords(ProductSheet)[|Keywords(ProductSheet)| - 1] == []
    ensures |Keywords(ServiceTerms)| >= 2 && Keywords(ServiceTerms)[|Keywords(ServiceTerms)| - 1] == []
    ensures |Keywords(TroubleshootingGuide)| >= 2
            && Keywords(TroubleshootingGuide)[|Keywords(TroubleshootingGuide)| - 1] == []
  {
    KeywordsOfProductSheet();
    assert LowerEach(Clauses1)[14] == [];
    KeywordsOfServiceTerms();
    assert LowerEach(Clauses2)[12] == [];
    KeywordsOfTroubleshootingGuide();
    assert LowerEach(Clauses3)[8] == [];
  }

  /** Filtering keeps ids increasing. */
  lemma {:induction false} FilterIdsIncreasing(keep: Entry -> bool, kb: seq<Entry>)
    requires IdsIncreasing(kb)
    ensures IdsIncreasing(Filter(keep, kb))
  {
    if kb != [] {
      var rest := Filter(keep, kb[1..]);
      FilterIdsIncreasing(keep, kb[1..]);
      if keep(kb[0]) {
        forall x | x in rest ensures kb[0].id < x.id {
          var k :| 0 <= k < |kb[1..]| && kb[1..][k] == x;
          assert x == kb[k + 1];
        }
        ConsIdsIncreasing(kb[0], rest);
      }
    }
  }

  lemma ConsIdsIncreasing(e: Entry, rest: seq<Entry>)
    requires IdsIncreasing(rest) && forall x | x in rest :: e.id < x.id
    ensures IdsIncreasing([e] + rest)
  {
    var r := [e] + rest;
    forall i, j | 0 <= i < j < |r| ensures r[i].id < r[j].id {
      assert r[j] == rest[j - 1];
      if i > 0 {
        assert r[i] == rest[i - 1];
      }
    }
  }

  /** For records with distinct ids, a record is cited exactly when it is
      relevant, or when nothing is relevant and it is the first record. */
  lemma CitedIff(query: string, kb: seq<Entry>, e: Entry)
    requires |kb| >= 1 && IdsIncreasing(kb) && e in kb
    ensures ToCitation(e) in Citations(CitedDocs(query, kb)) <==>
              || IsRelevant(query, e)
              || (e == kb[0] && forall d | d in kb :: !IsRelevant(query, d))
  {
    var cited := CitedDocs(query, kb);
    var cs := Citations(cited);
    if ToCitation(e) in cs {
      var i :| 0 <= i < |cs| && cs[i] == ToCitation(e);
      var d := cited[i];
      assert d in kb && d.id == e.id;
      var a :| 0 <= a < |kb| && kb[a] == d;
      var b :| 0 <= b < |kb| && kb[b] == e;
      assert a == b;
    }
    if IsRelevant(query, e) || (e == kb[0] && forall d | d in kb :: !IsRelevant(query, d)) {
      var i :| 0 <= i < |cited| && cited[i] == e;
      assert cs[i] == ToCitation(e);
    }
  }

  /** A record of the knowledge base is in the reply's citations exactly when
      it is relevant to the lower-cased message, or when nothing is and it is
      the product sheet. */
  lemma ReplyCites(message: string, e: Entry)
    requires e in KnowledgeBase
    ensures ToCitation(e) in Respond(message).citations <==>
              || IsRelevant(Lower(message), e)
              || (e == ProductSheet && forall d | d in KnowledgeBase :: !IsRelevant(Lower(message), d))
  {
    KnowledgeBaseFirst();
    KnowledgeBaseIdsIncreasing();
    CitedIff(Lower(message), KnowledgeBase, e);
  }

  /** Cited records keep the increasing id order of `kb`. */
  lemma CitedIdsIncreasing(query: string, kb: seq<Entry>)
    requires |kb| >= 1 && IdsIncreasing(kb)
    ensures IdsIncreasing(CitedDocs(query, kb))
  {
    FilterIdsIncreasing((e: Entry) => IsRelevant(query, e), kb);
  }

  /** The citations come in increasing id order, so none is repeated. */
  lemma CitationIdsIncreasing(message: string)
    ensures forall j, k | 0 <= j < k < |Respond(message).citations| ::
              Respond(message).citations[j].id < Respond(message).citations[k].id
  {
    var cited := CitedDocs(Lower(message), KnowledgeBase);
    KnowledgeBaseFirst();
    KnowledgeBaseIdsIncreasing();
    CitedIdsIncreasing(Lower(message), KnowledgeBase);
    assert Respond(message).citations == Citations(cited);
  }

  /** Any query holding `退` cites the service terms. */
  lemma RefundCitesServiceTerms(message: string)
    requires Includes(Lower(message), RefundHint)
    ensures ToCitation(ServiceTerms) in Respond(message).citations
  {
    KnowledgeBaseNumbered();
    ReplyCites(message, ServiceTerms);
  }

  /** Any query holding `电` cites the product sheet. */
  lemma PowerCitesProductSheet(message: string)
    requires Includes(Lower(message), PowerHint)
    ensures ToCitation(ProductSheet) in Respond(message).citations
  {
    KnowledgeBaseNumbered();
    ReplyCites(message, ProductSheet);
  }

  /** A query holding `电池` gets the battery answer and, since `电池` holds
      `电`, cites the product sheet. */
  lemma BatteryQueryCitesProductSheet(message: string)
    requires Includes(Lower(message), "电池")
    ensures Respond(message).answer == Battery
    ensures ToCitation(ProductSheet) in Respond(message).citations
  {
    assert OccursAt("电池", PowerHint, 0);
    IncludesTrans(Lower(message), "电池", PowerHint);
    PowerCitesProductSheet(message);
  }

  /** The answer follows the trigger words in priority order: battery, then
      warranty, then mind map. */
  lemma AnswerByPriority(message: string)
    ensures AnyIncluded(Lower(message), BatteryTriggers) ==> Respond(message).answer == Battery
    ensures !AnyIncluded(Lower(message), BatteryTriggers) && AnyIncluded(Lower(message), WarrantyTriggers)
            ==> Respond(message).answer == Warranty
    ensures !AnyIncluded(Lower(message), BatteryTriggers) && !AnyIncluded(Lower(message), WarrantyTriggers)
            && AnyIncluded(Lower(message), MindMapTriggers)
            ==> Respond(message).answer == MindMap
  {
  }

  /** The generic answer comes exactly when no trigger word is present. */
  lemma GenericAnswer(message: string)
    ensures Respond(message).answer.Generic? <==>
              && !AnyIncluded(Lower(message), BatteryTriggers)
              && !AnyIncluded(Lower(message), WarrantyTriggers)
              && !AnyIncluded(Lower(message), MindMapTriggers)
  {
  }

  /** The generic answer quotes the content of the first citation. */
  lemma GenericQuotesFirstCitation(message: string)
    requires Respond(message).answer.Generic?
    ensures Respond(message).answer.quoted == Respond(message).citations[0].content
  {
    var cited := CitedDocs(Lower(message), KnowledgeBase);
    assert Respond(message).citations == Citations(cited);
  }

  /** With no relevant record, the first record is the one citation. */
  lemma FallbackCitedDocs(query: string, kb: seq<Entry>)
    requires |kb| >= 1 && forall e | e in kb :: !IsRelevant(query, e)
    ensures Citations(CitedDocs(query, kb)) == [ToCitation(kb[0])]
  {
    var cs := Citations(CitedDocs(query, kb));
    assert cs[0] == ToCitation(kb[0]);
  }

  /** With no relevant record, the product sheet is the one citation. */
  lemma FallbackCitation(message: string)
    requires forall e | e in KnowledgeBase :: !IsRelevant(Lower(message), e)
    ensures Respond(message).citations == [ToCitation(ProductSheet)]
  {
    KnowledgeBaseFirst();
    FallbackCitedDocs(Lower(message), KnowledgeBase);
  }

  /** With no relevant record and no trigger word, the reply quotes the
      product sheet and cites it alone. */
  lemma FallbackReply(message: string)
    requires forall e | e in KnowledgeBase :: !IsRelevant(Lower(message), e)
    requires Respond(message).answer.Generic?
    ensures Respond(message).citations == [ToCitation(ProductSheet)]
    ensures Respond(message).answer == Generic(ProductSheet.content)
  {
    FallbackCitation(message);
    GenericQuotesFirstCitation(message);
  }

  /** The reply depends on the message only up to letter case. */
  lemma CaseInsensitive(message: string)
    ensures Respond(Lower(message)) == Respond(message)
  {
    LowerIdempotent(message);
  }
}
