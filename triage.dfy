/** The keyword classifier behind automatic triage (`ai_triage`): a pure,
    deterministic function from a claim description to a proposed status
    and the `details` payload for the audit log. */
module Triage {

  const Submitted := "submitted"
  const PendingManualReview := "pending_manual_review"
  const Validated := "validated"
  const Rejected := "rejected"

  const DefectReason := "Keywords detected (missing/damaged/faulty)."
  const SpamReason := "Flagged as spam/test/junk."
  const NoKeywordReason := "No clear keywords, requires manual review."

  const ReasonKey := "validation_reason"

  datatype TriageResult = TriageResult(status: string, details: map<string, string>)

  // ---------------------------------------------------------------------
  // Lower-casing (ASCII letters only)

  function LowerChar(c: char): char
  {
    if 'A' <= c <= 'Z' then (c as int - 'A' as int + 'a' as int) as char else c
  }

  /** Lower-cases every ASCII capital letter and leaves every other character alone. */
  function Lower(s: string): (r: string)
    ensures |r| == |s|
    ensures forall i :: 0 <= i < |s| ==> r[i] == LowerChar(s[i])
  {
    if s == [] then [] else [LowerChar(s[0])] + Lower(s[1..])
  }

  /** Lower-casing twice is lower-casing once. */
  lemma LowerIdempotent(s: string)
    ensures Lower(Lower(s)) == Lower(s)
  {
  }

  /** Lower-casing works character by character, so it distributes over concatenation. */
  lemma LowerAppend(a: string, b: string)
    ensures Lower(a + b) == Lower(a) + Lower(b)
  {
  }

  // ---------------------------------------------------------------------
  // Substring test (Python's `k in s`)

  /** `t` occurs in `s` starting at position `i`. */
  ghost predicate OccursAt(s: string, t: string, i: int)
  {
    0 <= i && i + |t| <= |s| && s[i..i + |t|] == t
  }

  /** `t` occurs somewhere in `s`: the meaning of Python's `t in s`. */
  ghost predicate Occurs(s: string, t: string)
  {
    exists i :: OccursAt(s, t, i)
  }

  /** The executable substring test: `t` is a prefix of `s` or of one of its suffixes. */
  function Contains(s: string, t: string): bool
  {
    t <= s || (s != [] && Contains(s[1..], t))
  }

  /** Every match the executable test finds is a real occurrence. */
  lemma {:induction false} ContainsOnlyOccurrences(s: string, t: string)
    requires Contains(s, t)
    ensures Occurs(s, t)
  {
    if t <= s {
      assert OccursAt(s, t, 0);
    } else {
      ContainsOnlyOccurrences(s[1..], t);
      var i :| OccursAt(s[1..], t, i);
      assert s[1..][i..i + |t|] == s[i + 1..i + 1 + |t|];
      assert OccursAt(s, t, i + 1);
    }
  }

  /** The executable test finds every occurrence at position `i` or later in
      the suffix it is looking at. */
  lemma {:induction false} ContainsFindsOccurrence(s: string, t: string, i: int)
    requires OccursAt(s, t, i)
    ensures Contains(s, t)
    decreases i
  {
    if i == 0 {
      assert s[..|t|] == t;
    } else {
      assert s[1..][i - 1..i - 1 + |t|] == s[i..i + |t|];
      ContainsFindsOccurrence(s[1..], t, i - 1);
    }
  }

  /** The executable test agrees with its meaning, in both directions. */
  lemma ContainsIffOccurs(s: string, t: string)
    ensures Contains(s, t) <==> Occurs(s, t)
  {
    if Contains(s, t) {
      ContainsOnlyOccurrences(s, t);
    }
    if Occurs(s, t) {
      var i :| OccursAt(s, t, i);
      ContainsFindsOccurrence(s, t, i);
    }
  }

  /** A lower-case keyword placed between any prefix and suffix occurs in the
      lower-cased whole. */
  lemma KeywordOccurs(before: string, keyword: string, after: string)
    requires Lower(keyword) == keyword
    ensures Occurs(Lower(before + keyword + after), keyword)
  {
    LowerAppend(before + keyword, after);
    LowerAppend(before, keyword);
    var s := Lower(before) + keyword + Lower(after);
    var n := |Lower(before)|;
    assert s[n..n + |keyword|] == keyword;
    assert OccursAt(s, keyword, n);
  }

  // ---------------------------------------------------------------------
  // The classifier

  /** The description, case-insensitively, mentions "missing", "damaged" or "faulty". */
  ghost predicate MentionsDefect(description: string)
  {
    var d := Lower(description);
    Occurs(d, "missing") || Occurs(d, "damaged") || Occurs(d, "faulty")
  }

  /** The description, case-insensitively, mentions "spam", "test claim" or "junk". */
  ghost predicate MentionsSpam(description: string)
  {
    var d := Lower(description);
    Occurs(d, "spam") || Occurs(d, "test claim") || Occurs(d, "junk")
  }

  /** `ai_triage`: the first keyword group that matches decides the status;
      the details are always exactly the one validation reason. */
  function AiTriage(description: string): (r: TriageResult)
    ensures r.status == Validated <==> MentionsDefect(description)
    ensures r.status == Rejected <==> !MentionsDefect(description) && MentionsSpam(description)
    ensures r.status == PendingManualReview <==> !MentionsDefect(description) && !MentionsSpam(description)
    ensures r.status == Validated ==> r.details == map[ReasonKey := DefectReason]
    ensures r.status == Rejected ==> r.details == map[ReasonKey := SpamReason]
    ensures r.status == PendingManualReview ==> r.details == map[ReasonKey := NoKeywordReason]
  {
    var lower := Lower(description);
    ContainsIffOccurs(lower, "missing");
    ContainsIffOccurs(lower, "damaged");
    ContainsIffOccurs(lower, "faulty");
    ContainsIffOccurs(lower, "spam");
    ContainsIffOccurs(lower, "test claim");
    ContainsIffOccurs(lower, "junk");
    if Contains(lower, "missing") || Contains(lower, "damaged") || Contains(lower, "faulty") then
      TriageResult(Validated, map[ReasonKey := DefectReason])
    else if Contains(lower, "spam") || Contains(lower, "test claim") || Contains(lower, "junk") then
      TriageResult(Rejected, map[ReasonKey := SpamReason])
    else
      TriageResult(PendingManualReview, map[ReasonKey := NoKeywordReason])
  }

  /** Triage ignores the case of ASCII letters. */
  lemma TriageIgnoresCase(description: string)
    ensures AiTriage(Lower(description)) == AiTriage(description)
  {
    LowerIdempotent(description);
  }

  /** A defect keyword anywhere in the description validates it, whatever else
      (a spam keyword included) the description says. */
  lemma DefectKeywordWins(before: string, keyword: string, after: string)
    requires keyword in {"missing", "damaged", "faulty"}
    ensures AiTriage(before + keyword + after).status == Validated
    ensures AiTriage(before + keyword + after).details == map[ReasonKey := DefectReason]
  {
    var d := before + keyword + after;
    assert Lower(keyword) == keyword;
    KeywordOccurs(before, keyword, after);
    assert MentionsDefect(d);
  }

  /** A spam keyword rejects a description that names no defect. */
  lemma SpamKeywordRejects(before: string, keyword: string, after: string)
    requires keyword in {"spam", "test claim", "junk"}
    requires !MentionsDefect(before + keyword + after)
    ensures AiTriage(before + keyword + after).status == Rejected
    ensures AiTriage(before + keyword + after).details == map[ReasonKey := SpamReason]
  {
    var d := before + keyword + after;
    assert Lower(keyword) == keyword;
    KeywordOccurs(before, keyword, after);
    assert MentionsSpam(d);
    var r := AiTriage(d);
    assert r.status == Rejected;
  }
}
