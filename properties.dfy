/** Properties of the engine that relate several operations or several calls:
    determinism of the classification, monotonicity of confidence and of
    priority in the clock, the template every tag has, the fallback summary,
    and the sample emails of tests/test_ai_service.py. */
module AiProperties {
  import opened PyStr
  import opened Keywords
  import opened EmailModels
  import opened AiService
  import Sentences
  import Wrappers

  // ------------------------------------------------------------ classification

  /** A larger top score never lowers the confidence. */
  lemma ConfidenceMonotone(a: nat, b: nat)
    requires a <= b
    ensures Confidence(a) <= Confidence(b)
  {
  }

  /** Only one category is the first of the highest scores. */
  lemma FirstMaxUnique(text: string, k: int, k': int)
    requires IsFirstMax(text, k) && IsFirstMax(text, k')
    ensures k == k'
  {
    assert CategoryScore(text, k) == CategoryScore(text, k');
  }

  /** The tags are fixed by the text: two tag lists that both fit it are equal. */
  lemma {:induction false} TagsUnique(text: string, tags: seq<string>, tags': seq<string>)
    requires AreTagsOf(text, tags) && AreTagsOf(text, tags')
    ensures tags == tags'
  {
    TablesDistinct();
    SubsequenceMembers(tags, TagNames);
    SubsequenceMembers(tags', TagNames);
    forall x ensures x in tags <==> x in tags' {
      if x in TagNames {
        var i :| 0 <= i < |TagNames| && TagNames[i] == x;
        assert TagRules[i].0 == x;
      }
    }
    SubsequenceDeterminedByMembers(tags, tags', TagNames);
  }

  /** `classify_email` is a function of the email and the clock: everything
      its specification allows is one and the same classification. */
  lemma ClassificationUnique(email: EmailMessage, now: int, c: EmailClassification, c': EmailClassification)
    requires IsClassificationOf(email, now, c) && IsClassificationOf(email, now, c')
    ensures c == c'
  {
    var text := EmailText(email);
    if !forall i | 0 <= i < |Categories| :: CategoryScore(text, i) == 0 {
      var k :| IsFirstMax(text, k) && c.category == Categories[k].0
               && c.confidence == Confidence(CategoryScore(text, k));
      var k' :| IsFirstMax(text, k') && c'.category == Categories[k'].0
                && c'.confidence == Confidence(CategoryScore(text, k'));
      FirstMaxUnique(text, k, k');
    }
    TagsUnique(text, c.tags, c'.tags);
  }

  /** "general" is not a category of the table, so it is chosen exactly when
      no keyword of any category occurs. */
  lemma GeneralIffNothingScores(email: EmailMessage, now: int, c: EmailClassification)
    requires IsClassificationOf(email, now, c)
    ensures c.category == "general" <==> forall i | 0 <= i < |Categories| :: CategoryScore(EmailText(email), i) == 0
    ensures c.category == "general" ==> c.confidence == 0.5
  {
    GeneralNotACategory();
  }

  lemma GeneralNotACategory()
    ensures forall k | 0 <= k < |Categories| :: Categories[k].0 != "general"
  {
  }

  // ------------------------------------------------------------------ priority

  function PriorityRank(p: string): nat {
    if p == "high" then 2 else if p == "medium" then 1 else 0
  }

  /** Asking later never raises the priority: an email only stops being recent. */
  lemma LaterClockNeverRaisesPriority(email: EmailMessage, text: string, now: int, later: int)
    requires now <= later
    ensures PriorityRank(DeterminePriority(email, text, later)) <= PriorityRank(DeterminePriority(email, text, now))
  {
  }

  /** "?" alone is enough for `needs-response`. */
  lemma QuestionMarkNeedsResponse(text: string)
    requires Contains(text, "?")
    ensures "needs-response" in TagsFrom(text, TagRules)
  {
    TablesDistinct();
    TagsFromAreTags(text, TagRules, TagNames);
    assert TagRules[3].1[1] == "?";
  }

  // ------------------------------------------------------------------ response

  /** Every tag `_extract_tags` can emit has a template. */
  lemma TemplatesCoverTags()
    ensures forall i | 0 <= i < |TagNames| :: TagNames[i] in Templates
  {
  }

  /** So the reply is the template of the first tag whenever there is a tag. */
  lemma FirstTagDecidesResponse(email: EmailMessage, now: int, c: EmailClassification)
    requires IsClassificationOf(email, now, c) && c.tags != []
    ensures SuggestResponse(email, c) == Templates[c.tags[0]]
  {
    SubsequenceMembers(c.tags, TagNames);
    TemplatesCoverTags();
    assert c.tags[0] in TagNames;
  }

  /** Without tags the reply is the default one naming the subject. */
  lemma NoTagsDefaultResponse(email: EmailMessage, c: EmailClassification)
    requires c.tags == []
    ensures SuggestResponse(email, c) == DefaultResponse(email.subject)
  {
  }

  // ------------------------------------------------------------------- summary

  /** A blank body yields no sentence, so the summary is the fallback. */
  lemma BlankBodyFallsBack(email: EmailMessage)
    requires forall k | 0 <= k < |email.body| :: IsSpace(email.body[k])
    ensures GenerateSummary(email) == FallbackSummary(email)
  {
    StripEmptyIffBlank(email.body);
    assert Sentences.Split([]) == [[]];
    assert Strip([]) == [];
    assert NonBlank([[]]) == [];
  }

  /** The fallback is not cut to 200 characters: a long subject gives a longer
      summary. */
  lemma FallbackCanExceed200(email: EmailMessage)
    requires email.body == [] && |email.subject| > 200
    ensures |GenerateSummary(email)| > 200
  {
    BlankBodyFallsBack(email);
  }

  /** A body that is one sentence without a terminator is summarised as that
      sentence, stripped, with a period. */
  lemma OneSentenceSummary(email: EmailMessage)
    requires Strip(email.body) != [] && Sentences.NoTerminator(Strip(email.body))
    requires |Strip(email.body)| < 200
    ensures GenerateSummary(email) == Strip(email.body) + "."
  {
    var s := Strip(email.body);
    assert Sentences.FirstTerminator(s) == |s|;
    assert s[..|s|] == s;
    assert Sentences.Split(s) == [s];
    StripIdempotent(email.body);
    assert NonBlank([s]) == [s] by {
      assert NonBlank([s][1..]) == [];
    }
  }

  // ---------------------------------------------------------- the empty email

  /** The text of an email with empty subject and body is one space. */
  lemma EmptyEmailText(email: EmailMessage)
    requires email.subject == [] && email.body == []
    ensures EmailText(email) == " "
  {
  }

  /** One space holds no keyword of any table: every keyword is longer except
      "?", which is not a space. */
  lemma {:induction false} SpaceScoresNothing(text: string)
    requires text == " "
    ensures forall i | 0 <= i < |Categories| :: CategoryScore(text, i) == 0
    ensures |PresentSet(text, UrgentKeywords)| == 0
    ensures |PresentSet(text, PositiveWords)| == 0 && |PresentSet(text, NegativeWords)| == 0
    ensures |PresentSet(text, SpamPhrases)| == 0
  {
    TablesDistinct();
    forall i | 0 <= i < |Categories| ensures CategoryScore(text, i) == 0 {
      NoneOfLongerKeywords(text, Categories[i].1);
      CountPresentIsCardinality(text, Categories[i].1);
    }
    NoneOfLongerKeywords(text, UrgentKeywords);
    CountPresentIsCardinality(text, UrgentKeywords);
    NoneOfLongerKeywords(text, PositiveWords);
    CountPresentIsCardinality(text, PositiveWords);
    NoneOfLongerKeywords(text, NegativeWords);
    CountPresentIsCardinality(text, NegativeWords);
    NoneOfLongerKeywords(text, SpamPhrases);
    CountPresentIsCardinality(text, SpamPhrases);
  }

  /** Nor does it fire a tag rule. */
  lemma SpaceFiresNoTag(text: string)
    requires text == " "
    ensures forall i | 0 <= i < |TagRules| :: !AnyPresent(text, TagRules[i].1)
  {
    forall i | 0 <= i < |TagRules| ensures !AnyPresent(text, TagRules[i].1) {
      forall j | 0 <= j < |TagRules[i].1| ensures !Contains(text, TagRules[i].1[j]) {
        if TagRules[i].1[j] != "?" {
          NotContainsLonger(text, TagRules[i].1[j]);
        } else {
          assert text[0] != '?';
          NotContainsLonger(text[1..], "?");
        }
      }
    }
  }

  /** An email with empty subject and body is classified "general" with
      confidence 0.5, low priority and no tags, whenever it is asked. */
  lemma EmptyEmailClassification(email: EmailMessage, now: int, c: EmailClassification)
    requires email.subject == [] && email.body == []
    requires IsClassificationOf(email, now, c)
    ensures c.category == "general" && c.confidence == 0.5
    ensures c.priority == "low" && c.tags == []
  {
    EmptyEmailText(email);
    SpaceScoresNothing(EmailText(email));
    SpaceFiresNoTag(EmailText(email));
    NoTagsFit(EmailText(email), c.tags);
  }

  /** When no tag rule fires, the only tag list that fits is the empty one. */
  lemma NoTagsFit(text: string, tags: seq<string>)
    requires AreTagsOf(text, tags)
    requires forall i | 0 <= i < |TagRules| :: !AnyPresent(text, TagRules[i].1)
    ensures tags == []
  {
    SubsequenceMembers(tags, TagNames);
    TablesDistinct();
  }

  /** It is also neutral, not spam, and summarised by the fallback text. */
  lemma EmptyEmailAnalysis(email: EmailMessage)
    requires email.subject == [] && email.body == []
    ensures AnalyzeSentiment(email) == "neutral"
    ensures SpamScore(email) == 0
    ensures GenerateSummary(email) == FallbackSummary(email)
  {
    EmptyEmailText(email);
    SpaceScoresNothing(EmailText(email));
    assert multiset(EmailText(email))['!'] == 0 && multiset(EmailText(email))['?'] == 0;
    BlankBodyFallsBack(email);
  }

  // ------------------------------------------------------- the sample emails

  /** A witnessed occurrence is an occurrence. */
  lemma OccurrenceContains(text: string, p: string, i: nat)
    requires i + |p| <= |text| && text[i..i + |p|] == p
    ensures Contains(text, p)
  {
    ContainsIffOccurs(text, p);
    assert OccursAt(text, p, i);
  }

  /** An occurrence in s is, lower-cased, an occurrence in the lower-cased s. */
  lemma LowerOccurrence(s: string, p: string, i: nat)
    requires i + |p| <= |s| && s[i..i + |p|] == p
    ensures Lower(s)[i..i + |p|] == Lower(p)
  {
  }

  /** Keywords that occur are counted once each. */
  lemma {:induction false} PresentAtLeast(text: string, kws: seq<string>, found: set<string>)
    requires forall k | k in found :: k in kws && Contains(text, k)
    ensures |PresentSet(text, kws)| >= |found|
  {
    assert found <= PresentSet(text, kws);
    SubsetCardinality(found, PresentSet(text, kws));
  }

  lemma {:induction false} SubsetCardinality(a: set<string>, b: set<string>)
    requires a <= b
    ensures |a| <= |b|
  {
    if a != {} {
      var x :| x in a;
      SubsetCardinality(a - {x}, b - {x});
    }
  }

  /** The email of the priority test of tests/test_ai_service.py (its strings
      are written in pieces, which is the same string). */
  function SampleEmail(date: int): EmailMessage {
    EmailMessage(
      "test-1",
      "Urgent: " + "Project " + "Deadline " + "Tomorrow",
      EmailAddress(Wrappers.Some("John Doe"), "john@example.com"),
      "Please complete the project report by tomorrow. "
        + "This is urgent and needs immediate attention.",
      date)
  }

  /** It is high priority whatever the clock says: "urgent" and "deadline"
      both occur. */
  lemma SampleEmailIsHighPriority(date: int, now: int)
    ensures DeterminePriority(SampleEmail(date), EmailText(SampleEmail(date)), now) == "high"
  {
    var e := SampleEmail(date);
    var s := e.subject + " " + e.body;
    var text := EmailText(e);
    LowerOccurrence(s, "Urgent", 0);
    LowerOccurrence(s, "Deadline", 16);
    UrgentWordsLowered();
    OccurrenceContains(text, "urgent", 0);
    OccurrenceContains(text, "deadline", 16);
    PresentAtLeast(text, UrgentKeywords, {"urgent", "deadline"});
    TwoUrgentWordsAreHigh(e, text, now);
  }

  lemma UrgentWordsLowered()
    ensures Lower("Urgent") == "urgent"
    ensures Lower("Deadline") == "deadline"
  {
  }

  /** Two distinct urgent keywords make an email high priority at any time. */
  lemma TwoUrgentWordsAreHigh(email: EmailMessage, text: string, now: int)
    requires |PresentSet(text, UrgentKeywords)| >= 2
    ensures DeterminePriority(email, text, now) == "high"
  {
  }

  /** The email of the tagging test of tests/test_ai_service.py. */
  function MeetingEmail(date: int): EmailMessage {
    EmailMessage(
      "meeting-1",
      "Schedule " + "Meeting " + "for Next Week",
      EmailAddress(Wrappers.None, "colleague@example.com"),
      "Can we schedule a meeting next week to discuss the project? "
        + "Please share your availability.",
      date)
  }

  /** It is tagged `meeting`: the subject holds the word. */
  lemma MeetingEmailIsTagged(date: int, now: int, c: EmailClassification)
    requires IsClassificationOf(MeetingEmail(date), now, c)
    ensures "meeting" in c.tags
  {
    MeetingEmailHasMeeting(MeetingEmail(date));
    FiringRuleTags(EmailText(MeetingEmail(date)), c.tags, 0);
  }

  lemma MeetingEmailHasMeeting(e: EmailMessage)
    requires e == MeetingEmail(e.date)
    ensures AnyPresent(EmailText(e), TagRules[0].1)
  {
    var text := EmailText(e);
    LowerOccurrence(e.subject + " " + e.body, "Meeting", 9);
    MeetingLowered();
    OccurrenceContains(text, "meeting", 9);
    assert TagRules[0].1[0] == "meeting";
  }

  /** A rule whose trigger occurs puts its tag in the classification. */
  lemma FiringRuleTags(text: string, tags: seq<string>, i: nat)
    requires AreTagsOf(text, tags)
    requires i < |TagRules| && AnyPresent(text, TagRules[i].1)
    ensures TagRules[i].0 in tags
  {
  }

  lemma MeetingLowered()
    ensures Lower("Meeting") == "meeting"
  {
  }

  /** The email of the action-item test of tests/test_ai_service.py. */
  function ActionEmail(date: int): EmailMessage {
    EmailMessage("action-1", "Tasks for this week",
      EmailAddress(Wrappers.None, "manager@example.com"), ActionBody(), date)
  }

  function ActionBody(): string {
    "Please " + "review the document" + ". " + "Could you send the report by Friday? "
      + "Need to schedule a meeting."
  }

  /** The first `please` pattern fits at the start of the lower-cased body,
      capturing up to the first period. */
  lemma FirstPleaseFits(t: string)
    requires t == Lower(ActionBody())
    ensures ActionPatterns.MatchOk(t, "please", 0, 7, 26)
    ensures t[7..26] == "review the document"
    ensures !IsSpace(t[7]) && forall k | 8 <= k < 26 :: t[k] != '.'
  {
    var b := ActionBody();
    LowerOccurrence(b, "Please", 0);
    LowerOccurrence(b, " ", 6);
    LowerOccurrence(b, "review the document", 7);
    LowerOccurrence(b, ".", 26);
    ActionWordsLowered();
    assert t[6] == t[6..7][0];
    assert t[26] == t[26..27][0];
    ReviewIsPlain();
    forall k | 7 <= k < 26 ensures t[k] != '\n' && t[k] != '.' {
      assert t[k] == t[7..26][k - 7];
    }
  }

  lemma ReviewIsPlain()
    ensures forall k | 0 <= k < |"review the document"| ::
              "review the document"[k] != '\n' && "review the document"[k] != '.'
  {
  }

  lemma ActionWordsLowered()
    ensures Lower("Please") == "please"
    ensures Lower(" ") == " " && Lower(".") == "."
    ensures Lower("review the document") == "review the document"
  {
  }

  /** So `re.findall` returns "review the document" first: `\s+` cannot give
      back the single space, and no earlier period ends the capture. */
  lemma FirstPleaseCapture(t: string)
    requires t == Lower(ActionBody())
    ensures ActionPatterns.FindAll(t, "please") != []
    ensures ActionPatterns.FindAll(t, "please")[0] == "review the document"
  {
    FirstPleaseFits(t);
    var m := ActionPatterns.MatchAt(t, "please", 0);
    assert m.Some?;
    var c, e := m.value.0, m.value.1;
    assert ActionPatterns.MatchOk(t, "please", 0, c, e);
    assert c == 7;
    assert e == 26 by {
      assert e <= 26;
      assert ActionPatterns.TerminatesAt(t, e);
    }
    assert ActionPatterns.FindFrom(t, "please", 0) == [t[7..26]] + ActionPatterns.FindFrom(t, "please", ActionPatterns.MatchEnd(t, 26));
  }

  /** A first capture that passes the length filter is kept. */
  lemma {:induction false} KeepsFirst(ms: seq<string>)
    requires |ms| > 0 && 10 < |Strip(ms[0])| < 100
    ensures KeepItems(ms) != []
    decreases |ms|
  {
    if |ms| > 1 {
      var front := ms[..|ms| - 1];
      assert front[0] == ms[0];
      KeepsFirst(front);
    }
  }

  /** The items of the first pattern come first. */
  lemma {:induction false} FirstPatternFirst(text: string, n: nat)
    requires 1 <= n <= |ActionKeywords|
    ensures MatchItems(text, 0) <= PatternItems(text, n)
  {
    if n > 1 {
      FirstPatternFirst(text, n - 1);
    }
  }

  /** The action-item test email yields at least one action item. */
  lemma ActionEmailHasItems(date: int)
    ensures ActionItemsOf(ActionEmail(date).body) != []
  {
    var t := Lower(ActionBody());
    FirstPleaseCapture(t);
    var ms := Take(ActionPatterns.FindAll(t, "please"), 3);
    assert ms[0] == "review the document";
    ReviewIsStripped();
    KeepsFirst(ms);
    assert ActionKeywords[0] == "please";
    assert MatchItems(t, 0) != [];
    FirstPatternFirst(t, |ActionKeywords|);
  }

  lemma ReviewIsStripped()
    ensures Strip("review the document") == "review the document"
  {
    assert StripLeft("review the document") == "review the document";
    assert StripRight("review the document") == "review the document";
  }

  /** The email of the spam test of tests/test_ai_service.py (its strings are
      written in pieces, which is the same string). */
  function SpamTestEmail(date: int): EmailMessage {
    EmailMessage(
      "spam-1",
      "CONGRATULATIONS " + "YOU'VE WON!!!",
      EmailAddress(Wrappers.None, "spam@spammer.com"),
      "Click here now! " + "Act now! " + "Limited time offer! " + "100% free! "
        + "You've won a million dollars!",
      date)
  }

  /** It is spam: three of the phrases alone reach the threshold. */
  lemma SpamTestEmailIsSpam(date: int)
    ensures SpamScore(SpamTestEmail(date)) >= 3
  {
    var e := SpamTestEmail(date);
    var text := EmailText(e);
    SpamTestHasClickHereNow(e);
    SpamTestHasActNow(e);
    SpamTestHasFree(e);
    PresentAtLeast(text, SpamPhrases, {"click here now", "act now", "100% free"});
  }

  lemma SpamTestHasClickHereNow(e: EmailMessage)
    requires e == SpamTestEmail(e.date)
    ensures Contains(EmailText(e), "click here now")
  {
    LowerOccurrence(e.subject + " " + e.body, "Click here now", 30);
    SpamPhrasesLowered();
    OccurrenceContains(EmailText(e), "click here now", 30);
  }

  lemma SpamTestHasActNow(e: EmailMessage)
    requires e == SpamTestEmail(e.date)
    ensures Contains(EmailText(e), "act now")
  {
    LowerOccurrence(e.subject + " " + e.body, "Act now", 46);
    SpamPhrasesLowered();
    OccurrenceContains(EmailText(e), "act now", 46);
  }

  lemma SpamTestHasFree(e: EmailMessage)
    requires e == SpamTestEmail(e.date)
    ensures Contains(EmailText(e), "100% free")
  {
    LowerOccurrence(e.subject + " " + e.body, "100% free", 75);
    SpamPhrasesLowered();
    OccurrenceContains(EmailText(e), "100% free", 75);
  }

  lemma SpamPhrasesLowered()
    ensures Lower("Click here now") == "click here now"
    ensures Lower("Act now") == "act now"
    ensures Lower("100% free") == "100% free"
  {
  }
}
