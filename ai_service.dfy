/** The keyword-heuristic engine `AIEmailService` of
    src/services/ai_service.py: category, priority, tags, sentiment, summary,
    suggested response, action items and the spam verdict of one email. The
    service holds nothing but constant tables, so it is a module of constants,
    functions and methods rather than a class. The wall clock is the
    parameter `now` (seconds, like `EmailMessage.date`). */
module AiService {
  import opened PyStr
  import opened Keywords
  import opened Wrappers
  import opened EmailModels
  import Sentences
  import ActionPatterns

  // ---------------------------------------------------------------- tables

  /** `CATEGORIES`, in the dict's insertion order. */
  const Categories: seq<(string, seq<string>)> := [
    ("work", ["meeting", "project", "deadline", "presentation", "report", "task"]),
    ("personal", ["family", "friend", "birthday", "invitation", "party"]),
    ("finance", ["invoice", "payment", "bank", "transaction", "billing", "receipt"]),
    ("promotions", ["sale", "discount", "offer", "deal", "promo", "advertise"]),
    ("newsletters", ["newsletter", "digest", "update", "subscription"]),
    ("social", ["facebook", "twitter", "linkedin", "instagram", "notification"]),
    ("spam", ["unsubscribe", "click here", "act now", "limited time", "winner"])
  ]

  const UrgentKeywords: seq<string> := [
    "urgent", "asap", "immediately", "critical", "emergency",
    "important", "deadline", "today", "now", "priority"
  ]

  const PositiveWords: seq<string> := [
    "thank", "appreciate", "great", "excellent", "good",
    "happy", "pleased", "wonderful", "amazing", "love"
  ]

  const NegativeWords: seq<string> := [
    "unfortunately", "sorry", "apologize", "issue", "problem",
    "concern", "disappointed", "frustrated", "urgent", "critical"
  ]

  const SpamPhrases: seq<string> := [
    "congratulations you've won", "click here now", "act now", "limited time offer",
    "100% free", "no credit card", "dear friend", "nigerian prince"
  ]

  /** The tag vocabulary in checking order, each tag with its trigger words. */
  const TagRules: seq<(string, seq<string>)> := [
    ("meeting", ["meeting", "schedule", "calendar"]),
    ("action-required", ["deadline", "due", "submit"]),
    ("payment", ["invoice", "payment", "pay"]),
    ("needs-response", ["question", "?", "help", "assist"])
  ]

  const TagNames: seq<string> := ["meeting", "action-required", "payment", "needs-response"]

  /** The canned replies of `_suggest_response`. */
  const Templates: map<string, string> := map[
    "meeting" := "Thank you for your email. I'm available for a meeting. Could you please share some time slots that work for you?",
    "action-required" := "Thank you for bringing this to my attention. I'll review this and get back to you soon.",
    "payment" := "Thank you for the invoice. I'll process the payment and confirm once complete.",
    "needs-response" := "Thank you for your question. Let me look into this and I'll get back to you with more details."
  ]

  /** The directive words of the five action patterns `<kw>\s+(.+?)(?:\.|$)`. */
  const ActionKeywords: seq<string> := ["please", "could you", "can you", "need to", "should"]

  lemma TablesDistinct()
    ensures forall i | 0 <= i < |Categories| :: Distinct(Categories[i].1)
    ensures Distinct(UrgentKeywords) && Distinct(PositiveWords) && Distinct(NegativeWords)
    ensures Distinct(SpamPhrases) && Distinct(TagNames)
    ensures forall i | 0 <= i < |TagRules| :: TagRules[i].0 == TagNames[i]
  {
  }

  /** `f"{email.subject} {email.body}".lower()`, the text every score reads. */
  function EmailText(email: EmailMessage): (t: string)
    ensures |t| == |email.subject| + 1 + |email.body|
    ensures t[|email.subject|] == ' '
    ensures t[..|email.subject|] == Lower(email.subject)
    ensures t[|email.subject| + 1..] == Lower(email.body)
  {
    Lower(email.subject + " " + email.body)
  }

  // -------------------------------------------------------- classify_email

  /** The score of category i: how many distinct keywords of its list occur. */
  ghost function CategoryScore(text: string, i: int): nat
    requires 0 <= i < |Categories|
  {
    |PresentSet(text, Categories[i].1)|
  }

  /** Category k has the highest score and no earlier category reaches it. */
  ghost predicate IsFirstMax(text: string, k: int) {
    0 <= k < |Categories|
    && (forall j | 0 <= j < |Categories| :: CategoryScore(text, j) <= CategoryScore(text, k))
    && (forall j | 0 <= j < k :: CategoryScore(text, j) < CategoryScore(text, k))
  }

  /** `min(max_score / 10, 1.0)`. */
  function Confidence(maxScore: nat): (r: real)
    ensures 0.0 <= r <= 1.0
    ensures r == 1.0 <==> maxScore >= 10
    ensures r * 10.0 == maxScore as real || maxScore >= 10
  {
    if (maxScore as real) / 10.0 <= 1.0 then (maxScore as real) / 10.0 else 1.0
  }

  /** The category and confidence the source assigns to text. */
  ghost predicate IsCategoryOf(text: string, category: string, confidence: real) {
    if forall i | 0 <= i < |Categories| :: CategoryScore(text, i) == 0 then
      category == "general" && confidence == 0.5
    else
      exists k :: IsFirstMax(text, k) && category == Categories[k].0
                  && confidence == Confidence(CategoryScore(text, k))
  }

  /** The tags are the sub-list of the vocabulary whose triggers occur. */
  ghost predicate AreTagsOf(text: string, tags: seq<string>) {
    IsSubsequence(tags, TagNames)
    && forall i | 0 <= i < |TagRules| :: TagRules[i].0 in tags <==> AnyPresent(text, TagRules[i].1)
  }

  /** What `classify_email` returns for email at time now. */
  ghost predicate IsClassificationOf(email: EmailMessage, now: int, c: EmailClassification) {
    var text := EmailText(email);
    IsCategoryOf(text, c.category, c.confidence)
    && c.priority == DeterminePriority(email, text, now)
    && AreTagsOf(text, c.tags)
  }

  /** `max(category_scores, key=category_scores.get)` on scores kept in table
      order: the first index holding the largest score. */
  method FirstMaxIndex(scores: seq<nat>) returns (k: nat)
    requires |scores| > 0
    ensures k < |scores|
    ensures forall j | 0 <= j < |scores| :: scores[j] <= scores[k]
    ensures forall j | 0 <= j < k :: scores[j] < scores[k]
  {
    k := 0;
    for i := 1 to |scores|
      invariant k < i
      invariant forall j | 0 <= j < i :: scores[j] <= scores[k]
      invariant forall j | 0 <= j < k :: scores[j] < scores[k]
    {
      if scores[i] > scores[k] {
        k := i;
      }
    }
  }

  /** `classify_email`: the score dict is a sequence indexed like the table. */
  method ClassifyEmail(email: EmailMessage, now: int) returns (c: EmailClassification)
    ensures IsClassificationOf(email, now, c)
    ensures 0.0 <= c.confidence <= 1.0
    ensures c.priority in {"high", "medium", "low"}
    ensures Distinct(c.tags)
  {
    var text := EmailText(email);
    TablesDistinct();
    var scores: seq<nat> := [];
    for i := 0 to |Categories|
      invariant |scores| == i
      invariant forall j | 0 <= j < i :: scores[j] == CategoryScore(text, j)
    {
      CountPresentIsCardinality(text, Categories[i].1);
      scores := scores + [CountPresent(text, Categories[i].1)];
    }
    var k := FirstMaxIndex(scores);
    var category, confidence;
    if scores[k] == 0 {
      category, confidence := "general", 0.5;
    } else {
      category, confidence := Categories[k].0, Confidence(scores[k]);
      assert IsFirstMax(text, k);
    }
    var priority := DeterminePriority(email, text, now);
    var tags := ExtractTags(text);
    c := EmailClassification(category, priority, confidence, tags);
  }

  // --------------------------------------------------- _determine_priority

  /** `text.startswith("re:") or text.startswith("fwd:")`. */
  predicate IsReply(text: string) {
    "re:" <= text || "fwd:" <= text
  }

  /** `_determine_priority`: the urgent count is the number of distinct urgent
      keywords present; recent means less than an hour old at `now`. */
  function DeterminePriority(email: EmailMessage, text: string, now: int): (p: string)
    ensures p in {"high", "medium", "low"}
    ensures var u := |PresentSet(text, UrgentKeywords)|;
            var recent := now - email.date < 3600;
            && (p == "high" <==> u >= 2 || (u >= 1 && recent))
            && (p == "medium" <==> !(u >= 2 || (u >= 1 && recent)) && (IsReply(text) || u == 1))
  {
    TablesDistinct();
    CountPresentIsCardinality(text, UrgentKeywords);
    var urgentCount := CountPresent(text, UrgentKeywords);
    var isReply := IsReply(text);
    var isRecent := now - email.date < 3600;
    if urgentCount >= 2 || (urgentCount >= 1 && isRecent) then "high"
    else if isReply || urgentCount == 1 then "medium"
    else "low"
  }

  // ---------------------------------------------------------- _extract_tags

  /** The names of the rules whose triggers occur in text, in table order. */
  ghost function TagsFrom(text: string, rules: seq<(string, seq<string>)>): seq<string> {
    if rules == [] then []
    else (if AnyPresent(text, rules[0].1) then [rules[0].0] else []) + TagsFrom(text, rules[1..])
  }

  /** Filtering a table whose names are distinct keeps the names in order and
      keeps exactly the rules that fire. */
  lemma {:induction false} TagsFromAreTags(text: string, rules: seq<(string, seq<string>)>, names: seq<string>)
    requires |rules| == |names| && Distinct(names)
    requires forall i | 0 <= i < |rules| :: rules[i].0 == names[i]
    ensures IsSubsequence(TagsFrom(text, rules), names)
    ensures forall i | 0 <= i < |rules| :: rules[i].0 in TagsFrom(text, rules) <==> AnyPresent(text, rules[i].1)
  {
    if rules != [] {
      var rest, tail := TagsFrom(text, rules[1..]), names[1..];
      assert Distinct(tail) by {
        forall i, j | 0 <= i < j < |tail| ensures tail[i] != tail[j] {
          assert tail[i] == names[i + 1] && tail[j] == names[j + 1];
        }
      }
      assert forall i | 0 <= i < |rules[1..]| :: rules[1..][i].0 == tail[i];
      TagsFromAreTags(text, rules[1..], tail);
      SubsequenceMembers(rest, tail);
      assert names[0] !in rest by {
        forall j | 0 <= j < |tail| ensures tail[j] != names[0] {
          assert tail[j] == names[j + 1];
        }
      }
      var r := TagsFrom(text, rules);
      if AnyPresent(text, rules[0].1) {
        assert r == [names[0]] + rest;
        assert r[1..] == rest;
      } else {
        assert r == rest;
      }
      forall i | 0 <= i < |rules| ensures rules[i].0 in r <==> AnyPresent(text, rules[i].1) {
        if i > 0 {
          assert rules[i] == rules[1..][i - 1];
          assert names[i] != names[0];
        }
      }
    }
  }

  /** The tag rule k contributes to text. */
  ghost function Hit(text: string, k: nat): seq<string>
    requires k < |TagRules|
  {
    if AnyPresent(text, TagRules[k].1) then [TagRules[k].0] else []
  }

  /** The filtered table is the four contributions in order. */
  lemma TagsFromTable(text: string)
    ensures TagsFrom(text, TagRules) == Hit(text, 0) + Hit(text, 1) + Hit(text, 2) + Hit(text, 3)
  {
    var r1 := TagRules[1..];
    var r2 := r1[1..];
    var r3 := r2[1..];
    assert r1[0] == TagRules[1] && r2[0] == TagRules[2] && r3[0] == TagRules[3] && r3[1..] == [];
    calc {
      TagsFrom(text, TagRules);
      Hit(text, 0) + TagsFrom(text, r1);
      Hit(text, 0) + (Hit(text, 1) + TagsFrom(text, r2));
      Hit(text, 0) + (Hit(text, 1) + (Hit(text, 2) + TagsFrom(text, r3)));
      { assert TagsFrom(text, r3) == Hit(text, 3) + TagsFrom(text, []); }
      Hit(text, 0) + (Hit(text, 1) + (Hit(text, 2) + Hit(text, 3)));
      Hit(text, 0) + Hit(text, 1) + Hit(text, 2) + Hit(text, 3);
    }
  }

  /** `_extract_tags`: the four checks in their order, one append each. */
  method ExtractTags(text: string) returns (tags: seq<string>)
    ensures tags == TagsFrom(text, TagRules)
    ensures AreTagsOf(text, tags)
    ensures Distinct(tags)
  {
    tags := [];
    if AnyPresent(text, TagRules[0].1) {
      tags := tags + [TagRules[0].0];
    }
    assert tags == Hit(text, 0);
    if AnyPresent(text, TagRules[1].1) {
      tags := tags + [TagRules[1].0];
    }
    assert tags == Hit(text, 0) + Hit(text, 1);
    if AnyPresent(text, TagRules[2].1) {
      tags := tags + [TagRules[2].0];
    }
    assert tags == Hit(text, 0) + Hit(text, 1) + Hit(text, 2);
    if AnyPresent(text, TagRules[3].1) {
      tags := tags + [TagRules[3].0];
    }
    assert tags == Hit(text, 0) + Hit(text, 1) + Hit(text, 2) + Hit(text, 3);
    TagsFromTable(text);
    TablesDistinct();
    TagsFromAreTags(text, TagRules, TagNames);
    SubsequenceDistinct(tags, TagNames);
  }

  // ------------------------------------------------------- _generate_summary

  /** `[s.strip() for s in frags if s.strip()]`. */
  function NonBlank(frags: seq<string>): (r: seq<string>)
    ensures |r| <= |frags|
    ensures forall i | 0 <= i < |r| :: r[i] != [] && !IsSpace(r[i][0]) && !IsSpace(r[i][|r[i]| - 1])
  {
    if frags == [] then []
    else
      var m, rest := Strip(frags[0]), NonBlank(frags[1..]);
      if m == [] then rest
      else
        assert forall i | 1 <= i < |rest| + 1 :: ([m] + rest)[i] == rest[i - 1];
        [m] + rest
  }

  /** The kept sentences: the first two fragments of the stripped body, blank
      ones dropped after the first two are taken. */
  function SummarySentences(body: string): (r: seq<string>)
    ensures |r| <= 2
    ensures forall i | 0 <= i < |r| :: r[i] != [] && Sentences.NoTerminator(r[i])
  {
    var frags := Sentences.Split(Strip(body));
    var firstTwo := if |frags| <= 2 then frags else frags[..2];
    var r := NonBlank(firstTwo);
    assert forall i | 0 <= i < |r| :: Sentences.NoTerminator(r[i]) by {
      NonBlankSlices(firstTwo);
    }
    r
  }

  /** Stripping a fragment cannot bring in a terminator. */
  lemma StripKeepsNoTerminator(s: string)
    requires Sentences.NoTerminator(s)
    ensures Sentences.NoTerminator(Strip(s))
  {
    StripIsSlice(s);
    var r := Strip(s);
    var j :| StripsTo(s, r, j);
    forall k | 0 <= k < |r| ensures !Sentences.IsTerminator(r[k]) {
      assert r[k] == s[j + k];
    }
  }

  /** Each kept sentence comes from a fragment, so it has no terminator. */
  lemma {:induction false} NonBlankSlices(frags: seq<string>)
    requires forall i | 0 <= i < |frags| :: Sentences.NoTerminator(frags[i])
    ensures forall i | 0 <= i < |NonBlank(frags)| :: Sentences.NoTerminator(NonBlank(frags)[i])
  {
    if frags != [] {
      NonBlankSlices(frags[1..]);
      StripKeepsNoTerminator(frags[0]);
      var head := if Strip(frags[0]) != [] then [Strip(frags[0])] else [];
      assert NonBlank(frags) == head + NonBlank(frags[1..]);
    }
  }

  /** A sentence is kept exactly when it is the non-blank stripped form of one
      of the fragments; the first fragment, when non-blank, comes first. */
  lemma {:induction false} NonBlankMembers(frags: seq<string>)
    ensures forall x :: x in NonBlank(frags) <==> exists j | 0 <= j < |frags| :: x == Strip(frags[j]) && x != []
    ensures |frags| > 0 && Strip(frags[0]) != [] ==> NonBlank(frags)[0] == Strip(frags[0])
    decreases |frags|
  {
    if frags != [] {
      NonBlankMembers(frags[1..]);
      assert forall j | 1 <= j < |frags| :: frags[1..][j - 1] == frags[j];
    }
  }

  /** The summary sentences are the non-blank stripped fragments among the
      first two of the split of the stripped body, the first one first. */
  lemma SummarySentencesMembers(body: string)
    ensures var frags := Sentences.Split(Strip(body));
            && (forall x :: x in SummarySentences(body) <==>
                  exists j | 0 <= j < |frags| && j < 2 :: x == Strip(frags[j]) && x != [])
            && (Strip(frags[0]) != [] ==> SummarySentences(body)[0] == Strip(frags[0]))
  {
    var frags := Sentences.Split(Strip(body));
    var firstTwo := if |frags| <= 2 then frags else frags[..2];
    NonBlankMembers(firstTwo);
    assert forall j | 0 <= j < |firstTwo| :: firstTwo[j] == frags[j];
  }

  /** What the comprehension keeps of one fragment. */
  function Kept(frag: string): (r: seq<string>)
    ensures |r| <= 1
    ensures r == [] <==> Strip(frag) == []
    ensures r != [] ==> r[0] == Strip(frag)
  {
    if Strip(frag) == [] then [] else [Strip(frag)]
  }

  lemma NonBlankOne(a: string)
    ensures NonBlank([a]) == Kept(a)
  {
    assert [a][1..] == [];
  }

  lemma NonBlankTwo(a: string, b: string)
    ensures NonBlank([a, b]) == Kept(a) + Kept(b)
  {
    assert [a, b][1..] == [b];
    NonBlankOne(b);
  }

  /** The summary sentences, entry by entry: what the first fragment of the
      split of the stripped body keeps, then what the second one keeps. */
  lemma SummarySentencesExact(body: string)
    ensures var frags := Sentences.Split(Strip(body));
            SummarySentences(body) == Kept(frags[0]) + (if |frags| > 1 then Kept(frags[1]) else [])
  {
    var frags := Sentences.Split(Strip(body));
    if |frags| == 1 {
      assert frags == [frags[0]];
      NonBlankOne(frags[0]);
    } else {
      var firstTwo := if |frags| <= 2 then frags else frags[..2];
      assert firstTwo == [frags[0], frags[1]];
      NonBlankTwo(frags[0], frags[1]);
    }
  }

  /** The reply used when the body yields no sentence. */
  function FallbackSummary(email: EmailMessage): (r: string)
    ensures "Email from " <= r
    ensures |r| == 23 + |email.sender.email| + |email.subject|
    ensures r[|r| - |email.subject|..] == email.subject
  {
    "Email from " + email.sender.email + " regarding: " + email.subject
  }

  /** `_generate_summary`: the kept sentences joined by ". " with a final
      period, cut to 197 characters plus "..." when over 200; the fallback
      text is never cut. */
  function GenerateSummary(email: EmailMessage): (r: string)
    ensures |r| > 0
    ensures SummarySentences(email.body) == [] ==> r == FallbackSummary(email)
    ensures SummarySentences(email.body) != [] ==>
              var joined := Join(SummarySentences(email.body), ". ") + ".";
              && |r| <= 200 && r[|r| - 1] == '.'
              && (|joined| <= 200 ==> r == joined)
              && (|joined| > 200 ==> |r| == 200 && r[..197] == joined[..197] && r[197..] == "...")
  {
    var sentences := SummarySentences(email.body);
    if sentences == [] then FallbackSummary(email)
    else
      var summary := Join(sentences, ". ") + ".";
      assert summary[|summary| - 1] == '.';
      if |summary| > 200 then
        var cut := summary[..197] + "...";
        assert cut[199] == '.';
        cut
      else summary
  }

  // ----------------------------------------------------- _analyze_sentiment

  /** `_analyze_sentiment`: positive and negative words are counted as
      distinct words present; a tie, 0 to 0 included, is neutral. */
  function AnalyzeSentiment(email: EmailMessage): (s: string)
    ensures var text := EmailText(email);
            var pos := |PresentSet(text, PositiveWords)|;
            var neg := |PresentSet(text, NegativeWords)|;
            && (s == "positive" <==> pos > neg)
            && (s == "negative" <==> neg > pos)
            && (s == "neutral" <==> pos == neg)
  {
    var text := EmailText(email);
    TablesDistinct();
    CountPresentIsCardinality(text, PositiveWords);
    CountPresentIsCardinality(text, NegativeWords);
    var positiveCount := CountPresent(text, PositiveWords);
    var negativeCount := CountPresent(text, NegativeWords);
    if positiveCount > negativeCount then "positive"
    else if negativeCount > positiveCount then "negative"
    else "neutral"
  }

  // ------------------------------------------------------ _suggest_response

  /** The template of the first tag, in order, that has one. */
  function FirstTemplate(tags: seq<string>): (r: Option<string>)
    ensures r.None? <==> forall i | 0 <= i < |tags| :: tags[i] !in Templates
    ensures r.Some? ==> exists i | 0 <= i < |tags| :: tags[i] in Templates
                          && r.value == Templates[tags[i]]
                          && forall j | 0 <= j < i :: tags[j] !in Templates
  {
    if tags == [] then None
    else if tags[0] in Templates then Some(Templates[tags[0]])
    else
      var r := FirstTemplate(tags[1..]);
      assert forall i | 1 <= i < |tags| :: tags[i] == tags[1..][i - 1];
      r
  }

  function DefaultResponse(subject: string): (r: string)
    ensures "Thank you for your email regarding '" <= r
    ensures |r| == 36 + |subject| + 44
    ensures r[36..36 + |subject|] == subject
  {
    "Thank you for your email regarding '" + subject + "'. I'll review this and respond accordingly."
  }

  /** `_suggest_response`: the first templated tag decides the reply; with none,
      the default reply names the subject. */
  function SuggestResponse(email: EmailMessage, c: EmailClassification): (r: string)
    ensures (forall i | 0 <= i < |c.tags| :: c.tags[i] !in Templates) ==> r == DefaultResponse(email.subject)
    ensures forall i | 0 <= i < |c.tags| && c.tags[i] in Templates ::
              (forall j | 0 <= j < i :: c.tags[j] !in Templates) ==> r == Templates[c.tags[i]]
  {
    match FirstTemplate(c.tags)
    case Some(t) => t
    case None => DefaultResponse(email.subject)
  }

  // -------------------------------------------------- _extract_action_items

  /** The entries of ms[..n], or all of ms when it is shorter (`ms[:n]`). */
  function Take<T>(ms: seq<T>, n: nat): (r: seq<T>)
    ensures |r| <= n && |r| <= |ms| && r <= ms
    ensures |ms| <= n ==> r == ms
  {
    if |ms| <= n then ms else ms[..n]
  }

  /** An action item is a stripped capture of length strictly between 10 and 100. */
  predicate IsItem(m: string) {
    10 < |m| < 100 && !IsSpace(m[0]) && !IsSpace(m[|m| - 1])
  }

  /** The stripped captures of ms that pass the length filter, in order. */
  function KeepItems(ms: seq<string>): (r: seq<string>)
    ensures |r| <= |ms|
    ensures forall i | 0 <= i < |r| :: IsItem(r[i])
    decreases |ms|
  {
    if ms == [] then []
    else
      var m := Strip(ms[|ms| - 1]);
      KeepItems(ms[..|ms| - 1]) + (if 10 < |m| < 100 then [m] else [])
  }

  /** Extending the captures by one adds at most its stripped form. */
  lemma KeepItemsStep(ms: seq<string>, j: nat)
    requires j < |ms|
    ensures KeepItems(ms[..j + 1]) == KeepItems(ms[..j]) + (if 10 < |Strip(ms[j])| < 100 then [Strip(ms[j])] else [])
  {
    assert ms[..j + 1][..j] == ms[..j];
  }

  /** Every kept item is the stripped form of one of the captures. */
  lemma {:induction false} KeepItemsFromCaptures(ms: seq<string>)
    ensures forall x | x in KeepItems(ms) :: exists j | 0 <= j < |ms| :: x == Strip(ms[j])
    decreases |ms|
  {
    if ms != [] {
      var front := ms[..|ms| - 1];
      KeepItemsFromCaptures(front);
      assert forall j | 0 <= j < |front| :: front[j] == ms[j];
    }
  }

  /** Every capture that passes the length filter is kept, stripped. */
  lemma {:induction false} KeepItemsKeepsPassing(ms: seq<string>)
    ensures forall j | 0 <= j < |ms| && 10 < |Strip(ms[j])| < 100 :: Strip(ms[j]) in KeepItems(ms)
    decreases |ms|
  {
    if ms != [] {
      var front := ms[..|ms| - 1];
      KeepItemsKeepsPassing(front);
      assert forall j | 0 <= j < |front| :: front[j] == ms[j];
    }
  }

  /** m is the stripped capture of one of the five patterns. */
  ghost predicate IsActionCapture(text: string, m: string) {
    exists k, c :: 0 <= k < |ActionKeywords| && ActionPatterns.IsCapture(text, ActionKeywords[k], c) && m == Strip(c)
  }

  lemma CaptureIsActionCapture(text: string, k: int, c: string)
    requires 0 <= k < |ActionKeywords| && ActionPatterns.IsCapture(text, ActionKeywords[k], c)
    ensures IsActionCapture(text, Strip(c))
  {
  }

  /** The items pattern k contributes: its first three captures, filtered. */
  function MatchItems(text: string, k: nat): (r: seq<string>)
    requires k < |ActionKeywords|
    ensures |r| <= 3
    ensures forall i | 0 <= i < |r| :: IsItem(r[i])
  {
    KeepItems(Take(ActionPatterns.FindAll(text, ActionKeywords[k]), 3))
  }

  /** Pattern k contributes the stripped forms of its first three matches that
      pass the length filter: no item comes from a later match, and a
      passing capture among the first three is never left out. */
  lemma FirstThreeMatches(text: string, k: nat)
    requires k < |ActionKeywords|
    ensures var all := ActionPatterns.FindAll(text, ActionKeywords[k]);
            && (forall x | x in MatchItems(text, k) :: exists j | 0 <= j < 3 && j < |all| :: x == Strip(all[j]))
            && (forall j | 0 <= j < 3 && j < |all| && 10 < |Strip(all[j])| < 100 :: Strip(all[j]) in MatchItems(text, k))
  {
    var all := ActionPatterns.FindAll(text, ActionKeywords[k]);
    var ms := Take(all, 3);
    KeepItemsFromCaptures(ms);
    KeepItemsKeepsPassing(ms);
    assert forall j | 0 <= j < |ms| :: ms[j] == all[j];
    assert |ms| == if |all| <= 3 then |all| else 3;
  }

  /** The items of the first n patterns, in pattern order. */
  function PatternItems(text: string, n: nat): (r: seq<string>)
    requires n <= |ActionKeywords|
    ensures forall i | 0 <= i < |r| :: IsItem(r[i])
  {
    if n == 0 then [] else PatternItems(text, n - 1) + MatchItems(text, n - 1)
  }

  /** Every item of the first n patterns is contributed by one of them. */
  lemma {:induction false} PatternItemsFromPatterns(text: string, n: nat)
    requires n <= |ActionKeywords|
    ensures forall x | x in PatternItems(text, n) :: exists k | 0 <= k < n :: x in MatchItems(text, k)
  {
    if n > 0 {
      PatternItemsFromPatterns(text, n - 1);
    }
  }

  /** The items pattern k contributes come from captures of pattern k. */
  lemma MatchItemsAreCaptures(text: string, k: nat)
    requires k < |ActionKeywords|
    ensures forall x | x in MatchItems(text, k) :: IsActionCapture(text, x)
  {
    var all := ActionPatterns.FindAll(text, ActionKeywords[k]);
    var ms := Take(all, 3);
    ActionPatterns.FindFromCaptures(text, ActionKeywords[k], 0);
    KeepItemsFromCaptures(ms);
    forall x | x in KeepItems(ms) ensures IsActionCapture(text, x) {
      var j :| 0 <= j < |ms| && x == Strip(ms[j]);
      assert ms[j] == all[j];
      CaptureIsActionCapture(text, k, ms[j]);
    }
  }

  /** What `_extract_action_items` returns for a body. */
  function ActionItemsOf(body: string): (r: seq<string>)
    ensures |r| <= 5
    ensures r <= PatternItems(Lower(body), |ActionKeywords|)
    ensures |r| < 5 ==> r == PatternItems(Lower(body), |ActionKeywords|)
    ensures forall i | 0 <= i < |r| :: IsItem(r[i]) && IsActionCapture(Lower(body), r[i])
  {
    var text := Lower(body);
    var all := PatternItems(text, |ActionKeywords|);
    assert forall x | x in all :: IsActionCapture(text, x) by {
      PatternItemsFromPatterns(text, |ActionKeywords|);
      forall x | x in all ensures IsActionCapture(text, x) {
        var k :| 0 <= k < |ActionKeywords| && x in MatchItems(text, k);
        MatchItemsAreCaptures(text, k);
      }
    }
    Take(all, 5)
  }

  /** `_extract_action_items`: patterns in order, at most three matches each,
      filtered by length, and the first five kept. */
  method ExtractActionItems(email: EmailMessage) returns (items: seq<string>)
    ensures items == ActionItemsOf(email.body)
  {
    var text := Lower(email.body);
    var found: seq<string> := [];
    for p := 0 to |ActionKeywords|
      invariant found == PatternItems(text, p)
    {
      var matches := ActionPatterns.FindAll(text, ActionKeywords[p]);
      found := AppendItems(found, Take(matches, 3));
    }
    items := Take(found, 5);
  }

  /** The inner loop of `_extract_action_items`: each capture of ms is stripped
      and appended when its length is strictly between 10 and 100. */
  method AppendItems(found: seq<string>, ms: seq<string>) returns (r: seq<string>)
    ensures r == found + KeepItems(ms)
  {
    var kept: seq<string> := [];
    for j := 0 to |ms|
      invariant kept == KeepItems(ms[..j])
    {
      var m := Strip(ms[j]);
      KeepItemsStep(ms, j);
      if 10 < |m| < 100 {
        kept := kept + [m];
      }
    }
    assert ms[..|ms|] == ms;
    r := found + kept;
  }

  // ------------------------------------------------------------ detect_spam

  /** The indicator total of `detect_spam`. */
  ghost function SpamScore(email: EmailMessage): (n: nat)
    ensures |PresentSet(EmailText(email), SpamPhrases)| <= n <= |PresentSet(EmailText(email), SpamPhrases)| + 3
  {
    var text := EmailText(email);
    |PresentSet(text, SpamPhrases)|
    + (if multiset(text)['!'] > 3 || multiset(text)['?'] > 3 then 1 else 0)
    + (if IsUpper(email.subject) && |email.subject| > 10 then 1 else 0)
    + (if Count(text, "http") > 3 then 1 else 0)
  }

  /** `detect_spam`: spam exactly when the indicator total reaches 3. */
  method DetectSpam(email: EmailMessage) returns (spam: bool)
    ensures spam <==> SpamScore(email) >= 3
  {
    var text := EmailText(email);
    var indicators := 0;
    for i := 0 to |SpamPhrases|
      invariant indicators + CountPresent(text, SpamPhrases[i..]) == CountPresent(text, SpamPhrases)
    {
      assert SpamPhrases[i..][1..] == SpamPhrases[i + 1..];
      if Contains(text, SpamPhrases[i]) {
        indicators := indicators + 1;
      }
    }
    TablesDistinct();
    CountPresentIsCardinality(text, SpamPhrases);
    if Count(text, "!") > 3 || Count(text, "?") > 3 {
      indicators := indicators + 1;
    }
    if IsUpper(email.subject) && |email.subject| > 10 {
      indicators := indicators + 1;
    }
    if Count(text, "http") > 3 {
      indicators := indicators + 1;
    }
    CountCharIsMultiplicity(text, '!');
    CountCharIsMultiplicity(text, '?');
    spam := indicators >= 3;
  }

  // ----------------------------------------------------------- analyze_email

  /** `analyze_email`: the classification and everything derived from it. */
  method AnalyzeEmail(email: EmailMessage, now: int) returns (a: EmailAnalysis)
    ensures a.emailId == email.id
    ensures IsClassificationOf(email, now, a.classification)
    ensures a.summary == GenerateSummary(email)
    ensures a.sentiment == AnalyzeSentiment(email)
    ensures a.suggestedResponse == SuggestResponse(email, a.classification)
    ensures a.actionRequired <==> "action-required" in a.classification.tags || a.classification.priority == "high"
    ensures a.actionItems == ActionItemsOf(email.body)
  {
    var classification := ClassifyEmail(email, now);
    var summary := GenerateSummary(email);
    var sentiment := AnalyzeSentiment(email);
    var suggestedResponse := SuggestResponse(email, classification);
    var actionRequired := "action-required" in classification.tags || classification.priority == "high";
    var actionItems := ExtractActionItems(email);
    a := EmailAnalysis(email.id, classification, summary, sentiment, suggestedResponse, actionRequired, actionItems);
  }
}
