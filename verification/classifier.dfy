/**
 * The risk classifier: an ordered list of restricted terms scanned against
 * the lower-cased news text. The first term of the list that occurs anywhere
 * in the text decides the verdict; list order, not position in the text,
 * breaks ties.
 */
module Classifier {
  import opened Strings

  /** The restricted terms, in the order they are tried. */
  const RestrictedTerms: seq<string> :=
    ["bankrupt", "fraud", "lawsuit", "investigation", "layoff", "scandal", "sanction", "insolvency"]

  const Clean := "CLEAN"
  const Quarantine := "QUARANTINE"
  const CleanReason := "Passed deterministic governance checks"

  /** The reason reported for a record quarantined because of `word`. */
  function RiskReason(word: string): string
  {
    "RISK DETECTED: Found restricted term [" + word + "] in news summary."
  }

  /** The governance status and its human-readable reason. */
  datatype Verdict = Verdict(status: string, reason: string)

  /** The index of the first restricted term, from `from` on, that occurs in
      `text`, or `|RestrictedTerms|` when none does. */
  function FirstRestricted(text: string, from: nat): (i: nat)
    requires from <= |RestrictedTerms|
    ensures from <= i <= |RestrictedTerms|
    ensures i < |RestrictedTerms| ==> Occurs(text, RestrictedTerms[i])
    ensures forall j :: from <= j < i ==> !Occurs(text, RestrictedTerms[j])
    decreases |RestrictedTerms| - from
  {
    if from == |RestrictedTerms| || Includes(text, RestrictedTerms[from]) then from
    else FirstRestricted(text, from + 1)
  }

  /** The verdict on a lower-cased news text: QUARANTINE exactly when some
      restricted term occurs in it, naming the first such term of the list;
      otherwise CLEAN with the fixed reason. */
  function Classify(text: string): (v: Verdict)
    ensures v.status == Clean || v.status == Quarantine
    ensures v.status == Quarantine <==> exists j :: 0 <= j < |RestrictedTerms| && Occurs(text, RestrictedTerms[j])
    ensures v.status == Clean ==> v.reason == CleanReason
    ensures v.status == Quarantine ==>
              exists j :: 0 <= j < |RestrictedTerms| && Occurs(text, RestrictedTerms[j])
                && v.reason == RiskReason(RestrictedTerms[j])
                && forall i :: 0 <= i < j ==> !Occurs(text, RestrictedTerms[i])
  {
    var i := FirstRestricted(text, 0);
    if i < |RestrictedTerms| then Verdict(Quarantine, RiskReason(RestrictedTerms[i]))
    else Verdict(Clean, CleanReason)
  }

  /** The scan loop: start CLEAN, and on the first term of the list found in
      the text switch to QUARANTINE with that term's reason and stop. */
  method ScanKeywords(newsSummary: string) returns (status: string, reason: string)
    ensures Verdict(status, reason) == Classify(newsSummary)
  {
    status := Clean;
    reason := CleanReason;
    for i := 0 to |RestrictedTerms|
      invariant status == Clean && reason == CleanReason
      invariant forall j :: 0 <= j < i ==> !Includes(newsSummary, RestrictedTerms[j])
    {
      var word := RestrictedTerms[i];
      if Includes(newsSummary, word) {
        status := Quarantine;
        reason := RiskReason(word);
        assert FirstRestricted(newsSummary, 0) == i;
        break;
      }
    }
    assert status == Clean ==> FirstRestricted(newsSummary, 0) == |RestrictedTerms|;
  }

  /** Distinct terms give distinct reasons, so the reason names exactly one term. */
  lemma RiskReasonInjective(a: string, b: string)
    requires RiskReason(a) == RiskReason(b)
    ensures a == b
  {
    var prefix := "RISK DETECTED: Found restricted term [";
    assert |a| == |b|;
    assert a == RiskReason(a)[|prefix|..|prefix| + |a|];
    assert b == RiskReason(b)[|prefix|..|prefix| + |b|];
  }

  /** A term is never reported while a term listed before it also occurs:
      when the text holds both "layoff" and "bankrupt", "bankrupt" is named,
      wherever the two stand in the text. */
  lemma EarlierListedTermWins(text: string, i: nat, j: nat)
    requires i < j < |RestrictedTerms|
    requires Occurs(text, RestrictedTerms[i]) && Occurs(text, RestrictedTerms[j])
    ensures Classify(text).status == Quarantine
    ensures Classify(text).reason != RiskReason(RestrictedTerms[j])
  {
    var f := FirstRestricted(text, 0);
    assert f <= i;
    if Classify(text).reason == RiskReason(RestrictedTerms[j]) {
      RiskReasonInjective(RestrictedTerms[f], RestrictedTerms[j]);
    }
  }

  /** "bankrupt" heads the list: whenever it occurs it is the term reported. */
  lemma BankruptIsAlwaysReported(text: string)
    requires Occurs(text, "bankrupt")
    ensures Classify(text) == Verdict(Quarantine, RiskReason("bankrupt"))
  {
    assert FirstRestricted(text, 0) == 0;
  }

  /** Matching ignores word boundaries: a term inside a longer word counts. */
  lemma TermInsideWordCounts(text: string)
    requires Occurs(text, "sanctioned")
    ensures Classify(text).status == Quarantine
  {
    var i: nat :| OccursAt(text, "sanctioned", i);
    assert text[i..i + 8] == text[i..i + 10][..8] == "sanction";
    assert OccursAt(text, RestrictedTerms[6], i);
  }

  /** Text in which no restricted term can occur is CLEAN. */
  lemma EmptyTextIsClean(text: string)
    requires text == ""
    ensures Classify(text) == Verdict(Clean, CleanReason)
  {
    forall i | 0 <= i < |RestrictedTerms| ensures !Occurs(text, RestrictedTerms[i]) {
      assert |RestrictedTerms[i]| > 0;
    }
  }
}
