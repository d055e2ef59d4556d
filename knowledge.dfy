/**
 * The fixed knowledge base of the chat route: three records, each with an
 * id, a title (a document file name), a category and a content passage.
 *
 * Each content passage is written as its clauses interleaved with the single
 * separator characters that stand between them in the source literal; the
 * resulting strings are exactly the source's. This form lets the keyword list
 * of each record be derived once, by `Text.SplitInterleave`.
 */
module Knowledge {
  import opened Text

  datatype Entry = Entry(id: nat, title: string, category: string, content: string)

  const ProductSpecs: string := "产品参数"
  const AfterSales: string := "售后政策"
  const Troubleshooting: string := "故障排除"

  const Clauses1: seq<string> := [
    "X100", "智能扫地机器人的电池容量为", "5200mAh", "在标准模式下续航时间可达", "150", "分钟",
    "充满电需要约", "4", "小时", "吸力高达", "4000Pa", "噪音控制在", "65dB", "以下", ""]
  const Separators1: seq<char> := [
    ' ', ' ', '，', ' ', ' ', '。', ' ', ' ', '。', ' ', '，', ' ', ' ', '。']

  const Clauses2: seq<string> := [
    "我们提供", "7", "天无理由退货和", "15", "天质量问题换货服务", "整机保修期为", "2", "年",
    "电池及电机等核心部件保修期为", "3", "年", "人为损坏不在保修范围内", ""]
  const Separators2: seq<char> := [
    ' ', ' ', ' ', ' ', '。', ' ', ' ', '，', ' ', ' ', '。', '。']

  const Clauses3: seq<string> := [
    "如果机器人无法回充", "请检查充电座指示灯是否亮起", "并确保充电座左右", "0.5", "米及前方", "1.5",
    "米范围内无障碍物", "请定期清理充电触片上的灰尘", ""]
  const Separators3: seq<char> := [
    '，', '，', ' ', ' ', ' ', ' ', '。', '。']

  const ProductSheet: Entry := Entry(1, "产品规格说明书_v2.0.pdf", ProductSpecs, Interleave(Clauses1, Separators1))
  const ServiceTerms: Entry := Entry(2, "售后服务条款_2025版.docx", AfterSales, Interleave(Clauses2, Separators2))
  const TroubleshootingGuide: Entry := Entry(3, "常见故障排查手册.pdf", Troubleshooting, Interleave(Clauses3, Separators3))

  /** `KNOWLEDGE_BASE`, in its source order. */
  const KnowledgeBase: seq<Entry> := [ProductSheet, ServiceTerms, TroubleshootingGuide]

  /** The keywords of a record: its lower-cased content split on separator runs. */
  function Keywords(e: Entry): (r: seq<string>)
    ensures |r| >= 1
  {
    Split(Lower(e.content))
  }

  /** The records are numbered 1, 2, 3 in source order, so their ids are
      distinct, and the first one is the product sheet. */
  lemma KnowledgeBaseNumbered()
    ensures |KnowledgeBase| == 3
    ensures KnowledgeBase[0] == ProductSheet && KnowledgeBase[1] == ServiceTerms
            && KnowledgeBase[2] == TroubleshootingGuide
    ensures KnowledgeBase[0].id == 1 && KnowledgeBase[1].id == 2 && KnowledgeBase[2].id == 3
  {
  }

  /** The first record, the fallback citation, is the product sheet. */
  lemma KnowledgeBaseFirst()
    ensures |KnowledgeBase| == 3 && KnowledgeBase[0] == ProductSheet
  {
  }

  /** Ids rise strictly along `kb`; in particular no two records share one. */
  predicate IdsIncreasing(kb: seq<Entry>) {
    forall i, j | 0 <= i < j < |kb| :: kb[i].id < kb[j].id
  }

  lemma NumberedIdsIncreasing(kb: seq<Entry>)
    requires |kb| == 3 && kb[0].id == 1 && kb[1].id == 2 && kb[2].id == 3
    ensures IdsIncreasing(kb)
  {
  }

  /** The knowledge base lists its records by increasing id. */
  lemma KnowledgeBaseIdsIncreasing()
    ensures IdsIncreasing(KnowledgeBase)
  {
    KnowledgeBaseNumbered();
    NumberedIdsIncreasing(KnowledgeBase);
  }

  /** Every record has a title. */
  lemma KnowledgeBaseTitled()
    ensures forall e | e in KnowledgeBase :: e.title != []
  {
  }

  /** No record has an empty content. */
  lemma KnowledgeBaseHasContent()
    ensures forall e | e in KnowledgeBase :: e.content != []
  {
    assert |ProductSheet.content| >= |Separators1| > 0;
    assert |ServiceTerms.content| >= |Separators2| > 0;
    assert |TroubleshootingGuide.content| >= |Separators3| > 0;
  }

  /** Separator-free slices make a separator-free list. */
  lemma SeparatorFreeSlices(ts: seq<string>, a: int, b: int)
    requires 0 <= a <= b <= |ts|
    requires forall i | 0 <= i < a :: HasNoSeparator(ts[i])
    requires forall i | a <= i < b :: HasNoSeparator(ts[i])
    requires forall i | b <= i < |ts| :: HasNoSeparator(ts[i])
    ensures forall t | t in ts :: HasNoSeparator(t)
  {
  }

  // The clause lists are checked in slices: a single proof over a whole list
  // of literals costs far more than its slices together.

  lemma Clauses1Head() ensures forall i | 0 <= i < 5 :: HasNoSeparator(Clauses1[i]) {}
  lemma Clauses1Middle() ensures forall i | 5 <= i < 10 :: HasNoSeparator(Clauses1[i]) {}
  lemma Clauses1Tail() ensures forall i | 10 <= i < 15 :: HasNoSeparator(Clauses1[i]) {}
  lemma Clauses2Head() ensures forall i | 0 <= i < 5 :: HasNoSeparator(Clauses2[i]) {}
  lemma Clauses2Middle() ensures forall i | 5 <= i < 9 :: HasNoSeparator(Clauses2[i]) {}
  lemma Clauses2Tail() ensures forall i | 9 <= i < 13 :: HasNoSeparator(Clauses2[i]) {}
  lemma Clauses3Head() ensures forall i | 0 <= i < 3 :: HasNoSeparator(Clauses3[i]) {}
  lemma Clauses3Middle() ensures forall i | 3 <= i < 6 :: HasNoSeparator(Clauses3[i]) {}
  lemma Clauses3Tail() ensures forall i | 6 <= i < 9 :: HasNoSeparator(Clauses3[i]) {}

  /** The product sheet's keywords are its lower-cased clauses. */
  lemma {:induction false} KeywordsOfProductSheet()
    ensures Splittable(Clauses1, Separators1)
    ensures Keywords(ProductSheet) == LowerEach(Clauses1)
  {
    Clauses1Head(); Clauses1Middle(); Clauses1Tail();
    SeparatorFreeSlices(Clauses1, 5, 10);
    SplitLowerInterleave(Clauses1, Separators1);
  }

  /** The service terms' keywords are their lower-cased clauses. */
  lemma {:induction false} KeywordsOfServiceTerms()
    ensures Splittable(Clauses2, Separators2)
    ensures Keywords(ServiceTerms) == LowerEach(Clauses2)
  {
    Clauses2Head(); Clauses2Middle(); Clauses2Tail();
    SeparatorFreeSlices(Clauses2, 5, 9);
    SplitLowerInterleave(Clauses2, Separators2);
  }

  /** The troubleshooting guide's keywords are its lower-cased clauses. */
  lemma {:induction false} KeywordsOfTroubleshootingGuide()
    ensures Splittable(Clauses3, Separators3)
    ensures Keywords(TroubleshootingGuide) == LowerEach(Clauses3)
  {
    Clauses3Head(); Clauses3Middle(); Clauses3Tail();
    SeparatorFreeSlices(Clauses3, 3, 6);
    SplitLowerInterleave(Clauses3, Separators3);
  }
}
