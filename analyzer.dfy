/**
 * The vehicle analyzer's reduction of the vision model's free-text reply to
 * one of three decisions, and the analysis result it builds around it.
 * The request to the hosted model is not modelled: its reply text and the
 * clock reading are parameters.
 */
module Analyzer {
  import opened Wrappers
  import opened Text

  datatype Decision = Deny | Allow | Review

  /** The string the source uses for each decision. */
  function Label(d: Decision): string {
    match d
    case Deny => "DENY"
    case Allow => "ALLOW"
    case Review => "REVIEW"
  }

  /** Reads a decision string back; any other string is not a decision. */
  function ParseLabel(s: string): (r: Option<Decision>)
    ensures r.Some? ==> Label(r.value) == s
  {
    if s == "DENY" then Some(Deny)
    else if s == "ALLOW" then Some(Allow)
    else if s == "REVIEW" then Some(Review)
    else None
  }

  /** Every decision label parses back to its decision. */
  lemma LabelRoundTrip(d: Decision)
    ensures ParseLabel(Label(d)) == Some(d)
  {
  }

  /** Phrases that force a denial, checked first. */
  const DenyPhrases: seq<string> := ["not allowed", "should not be allowed", "no, "]
  /** Phrases that allow entry when no deny phrase occurs. */
  const AllowPhrases: seq<string> := ["can be allowed", "should be allowed", "yes, "]

  /** Some phrase of `phrases` occurs in `s`. */
  ghost predicate MentionsAny(s: string, phrases: seq<string>) {
    exists k, i :: 0 <= k < |phrases| && OccursAt(s, phrases[k], i)
  }

  /** A list of phrases is mentioned exactly when the scan finds one of them. */
  lemma MentionsAnyByScan(s: string, phrases: seq<string>)
    ensures MentionsAny(s, phrases) <==> exists k :: 0 <= k < |phrases| && Contains(s, phrases[k])
  {
    forall k | 0 <= k < |phrases|
      ensures Contains(s, phrases[k]) <==> exists i :: OccursAt(s, phrases[k], i)
    {
      ContainsIffOccurs(s, phrases[k]);
    }
  }

  lemma MentionsThree(s: string, a: string, b: string, c: string)
    ensures MentionsAny(s, [a, b, c]) <==> Contains(s, a) || Contains(s, b) || Contains(s, c)
  {
    var ps := [a, b, c];
    MentionsAnyByScan(s, ps);
    assert ps[0] == a && ps[1] == b && ps[2] == c;
  }

  lemma MentionsSix(s: string, ps: seq<string>, qs: seq<string>)
    requires |ps| == 3 && |qs| == 3
    ensures MentionsAny(s, ps + qs) <==> MentionsAny(s, ps) || MentionsAny(s, qs)
  {
    MentionsAnyByScan(s, ps);
    MentionsAnyByScan(s, qs);
    MentionsAnyByScan(s, ps + qs);
    if MentionsAny(s, ps) {
      var k :| 0 <= k < |ps| && Contains(s, ps[k]);
      assert (ps + qs)[k] == ps[k];
    }
    if MentionsAny(s, qs) {
      var k :| 0 <= k < |qs| && Contains(s, qs[k]);
      assert (ps + qs)[k + 3] == qs[k];
    }
    if MentionsAny(s, ps + qs) {
      var k :| 0 <= k < |ps + qs| && Contains(s, (ps + qs)[k]);
      if k < 3 { assert (ps + qs)[k] == ps[k]; } else { assert (ps + qs)[k] == qs[k - 3]; }
    }
  }

  /**
   * The keyword classifier: lower-case the reply, then deny phrases win over
   * allow phrases, and a reply with neither is left for review.
   */
  function ExtractDecision(analysis: string): (d: Decision)
    ensures d == Deny <==> MentionsAny(Lower(analysis), DenyPhrases)
    ensures d == Allow <==>
      !MentionsAny(Lower(analysis), DenyPhrases) && MentionsAny(Lower(analysis), AllowPhrases)
    ensures d == Review <==>
      !MentionsAny(Lower(analysis), DenyPhrases + AllowPhrases)
  {
    var lower := Lower(analysis);
    MentionsThree(lower, "not allowed", "should not be allowed", "no, ");
    MentionsThree(lower, "can be allowed", "should be allowed", "yes, ");
    MentionsSix(lower, DenyPhrases, AllowPhrases);
    if Contains(lower, "not allowed") || Contains(lower, "should not be allowed") || Contains(lower, "no, ") then
      Deny
    else if Contains(lower, "can be allowed") || Contains(lower, "should be allowed") || Contains(lower, "yes, ") then
      Allow
    else
      Review
  }

  /** A reply mentioning any deny phrase, in any letter case, is a denial. */
  lemma DenyPhraseDenies(analysis: string, k: nat)
    requires k < |DenyPhrases| && Contains(Lower(analysis), DenyPhrases[k])
    ensures ExtractDecision(analysis) == Deny
  {
    ContainsIffOccurs(Lower(analysis), DenyPhrases[k]);
  }

  /** A reply mentioning an allow phrase and no deny phrase is allowed. */
  lemma AllowPhraseAllows(analysis: string, k: nat)
    requires k < |AllowPhrases| && Contains(Lower(analysis), AllowPhrases[k])
    requires forall j :: 0 <= j < |DenyPhrases| ==> !Contains(Lower(analysis), DenyPhrases[j])
    ensures ExtractDecision(analysis) == Allow
  {
    ContainsIffOccurs(Lower(analysis), AllowPhrases[k]);
    MentionsAnyByScan(Lower(analysis), DenyPhrases);
  }

  /** Deny phrases take precedence over allow phrases. */
  lemma DenyTakesPrecedence(analysis: string)
    requires MentionsAny(Lower(analysis), DenyPhrases) && MentionsAny(Lower(analysis), AllowPhrases)
    ensures ExtractDecision(analysis) == Deny
  {
  }

  /** The classifier ignores letter case: a reply and its lower-cased form agree. */
  lemma CaseInsensitive(analysis: string)
    ensures ExtractDecision(Lower(analysis)) == ExtractDecision(analysis)
  {
    LowerIdempotent(analysis);
  }

  /** A denial stays a denial whatever text is added before or after it. */
  lemma DenyStableUnderExtension(s: string, t: string)
    requires ExtractDecision(s) == Deny
    ensures ExtractDecision(s + t) == Deny && ExtractDecision(t + s) == Deny
  {
    var k, i :| 0 <= k < |DenyPhrases| && OccursAt(Lower(s), DenyPhrases[k], i);
    var p := DenyPhrases[k];
    ContainsIffOccurs(Lower(s), p);
    LowerAppend(s, t);
    LowerAppend(t, s);
    ContainsAppendRight(Lower(s), Lower(t), p);
    ContainsAppendLeft(Lower(t), Lower(s), p);
    DenyPhraseDenies(s + t, k);
    DenyPhraseDenies(t + s, k);
  }

  /** A deny phrase on its own is a denial. */
  lemma DenyPhraseAlone(k: nat)
    requires k < |DenyPhrases|
    ensures ExtractDecision(DenyPhrases[k]) == Deny
  {
    if k == 0 {
      LowercasePhraseDenies("not allowed", 0);
    } else if k == 1 {
      LowercasePhraseDenies("should not be allowed", 1);
    } else {
      LowercasePhraseDenies("no, ", 2);
    }
  }

  lemma LowercasePhraseDenies(p: string, k: nat)
    requires k < |DenyPhrases| && p == DenyPhrases[k]
    requires forall i :: 0 <= i < |p| ==> !IsUpper(p[i])
    ensures ExtractDecision(p) == Deny
  {
    LowerKeepsLowercase(p);
    assert StartsWith(Lower(p), p);
    DenyPhraseDenies(p, k);
  }

  /** Surrounding a deny phrase with any text, on either side, gives a denial. */
  lemma DenyPhraseInContext(before: string, after: string, k: nat)
    requires k < |DenyPhrases|
    ensures ExtractDecision(before + DenyPhrases[k] + after) == Deny
  {
    var p := DenyPhrases[k];
    DenyPhraseAlone(k);
    DenyStableUnderExtension(p, after);
    DenyStableUnderExtension(p + after, before);
    assert before + (p + after) == before + p + after;
  }

  /** No character of `s` lower-cases to `c`. */
  predicate LacksLetter(s: string, c: char) {
    forall i :: 0 <= i < |s| ==> LowerChar(s[i]) != c
  }

  /** A phrase with a letter the text lacks cannot occur in the lower-cased text. */
  lemma LacksLetterRulesOut(s: string, p: string, j: nat)
    requires j < |p| && LacksLetter(s, p[j])
    ensures !Contains(Lower(s), p)
  {
    ContainsIffOccurs(Lower(s), p);
  }

  /** Text without any 'n', 'b' or 'y' (in either case) mentions none of the six phrases. */
  lemma ReviewWithoutKeyLetters(s: string)
    requires LacksLetter(s, 'n') && LacksLetter(s, 'b') && LacksLetter(s, 'y')
    ensures ExtractDecision(s) == Review
  {
    LacksLetterRulesOut(s, "not allowed", 0);
    LacksLetterRulesOut(s, "should not be allowed", 7);
    LacksLetterRulesOut(s, "no, ", 0);
    LacksLetterRulesOut(s, "can be allowed", 2);
    LacksLetterRulesOut(s, "should be allowed", 7);
    LacksLetterRulesOut(s, "yes, ", 0);
    MentionsThree(Lower(s), "not allowed", "should not be allowed", "no, ");
    MentionsThree(Lower(s), "can be allowed", "should be allowed", "yes, ");
  }

  /** A denial stated in the reply is a denial. */
  lemma ExampleDeny(reply: string)
    requires reply == "The vehicle has a roof rack, so it is not allowed."
    ensures ExtractDecision(reply) == Deny
  {
    assert reply == "The vehicle has a roof rack, so it is " + "not allowed" + ".";
    DenyPhraseInContext("The vehicle has a roof rack, so it is ", ".", 0);
  }

  /** A reply with both an allow and a deny phrase is a denial. */
  lemma ExampleTieBreak(reply: string)
    requires reply == "Yes, it can be allowed, but actually it's not allowed due to a bike rack."
    ensures ExtractDecision(reply) == Deny
  {
    TieBreakReplySplits(reply);
    DenyPhraseInContext("Yes, it can be allowed, but actually it's ", " due to a bike rack.", 0);
  }

  lemma TieBreakReplySplits(reply: string)
    requires reply == "Yes, it can be allowed, but actually it's not allowed due to a bike rack."
    ensures reply == "Yes, it can be allowed, but actually it's " + "not allowed" + " due to a bike rack."
  {
  }

  /** A reply with no recognised phrase is left for review. */
  lemma ExampleReview(reply: string)
    requires reply == "Hard to tell without a side view."
    ensures ExtractDecision(reply) == Review
  {
    ReviewReplyLacksN(reply);
    ReviewReplyLacksB(reply);
    ReviewReplyLacksY(reply);
    ReviewWithoutKeyLetters(reply);
  }

  lemma ReviewReplyLacksN(reply: string)
    requires reply == "Hard to tell without a side view."
    ensures LacksLetter(reply, 'n')
  {
  }

  lemma ReviewReplyLacksB(reply: string)
    requires reply == "Hard to tell without a side view."
    ensures LacksLetter(reply, 'b')
  {
  }

  lemma ReviewReplyLacksY(reply: string)
    requires reply == "Hard to tell without a side view."
    ensures LacksLetter(reply, 'y')
  {
  }

  /** Every deny phrase has an 'o', so "yes, " in a reply without one is an approval. */
  lemma YesWithoutLetterOAllows(s: string)
    requires LacksLetter(s, 'o') && Contains(Lower(s), "yes, ")
    ensures ExtractDecision(s) == Allow
  {
    LacksLetterRulesOut(s, "not allowed", 1);
    LacksLetterRulesOut(s, "should not be allowed", 2);
    LacksLetterRulesOut(s, "no, ", 1);
    AllowPhraseAllows(s, 2);
  }

  /** A short affirmative reply, whatever its capitalisation, is allowed. */
  lemma ExampleAllow(reply: string)
    requires reply == "Yes, fine."
    ensures ExtractDecision(reply) == Allow
  {
    StartsWithYes(reply);
    YesWithoutLetterOAllows(reply);
  }

  lemma StartsWithYes(reply: string)
    requires reply == "Yes, fine."
    ensures Contains(Lower(reply), "yes, ") && LacksLetter(reply, 'o')
  {
    assert Lower(reply)[..5] == "yes, ";
  }

  /** An approval is not stable: appending a deny phrase overturns it. */
  lemma AllowNotStableUnderExtension(s: string, t: string)
    requires s == "Yes, fine." && t == " no, roof box."
    ensures ExtractDecision(s) == Allow && ExtractDecision(s + t) == Deny
  {
    ExampleAllow(s);
    assert t == " " + DenyPhrases[2] + "roof box.";
    DenyPhraseInContext(" ", "roof box.", 2);
    DenyStableUnderExtension(t, s);
  }

  /** The result of analysing one image. */
  datatype AnalysisResult = AnalysisResult(analysis: string, decision: string, timestamp: real)

  /** Packs the model's reply with its extracted decision and the clock reading. */
  function AnalysisOf(reply: string, now: real): (r: AnalysisResult)
    ensures r.analysis == reply && r.timestamp == now
    ensures ParseLabel(r.decision) == Some(ExtractDecision(reply))
  {
    LabelRoundTrip(ExtractDecision(reply));
    AnalysisResult(reply, Label(ExtractDecision(reply)), now)
  }
}
