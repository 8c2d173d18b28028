/**
 What `view_brief_responses` derives from a closed brief's supplier
 responses: the counts of eligible and failed responses, and whether the page
 should describe responses with evidence (the newer response format).
 */
module Responses {
  import opened PyValues
  import opened Briefs

  /**
   A supplier response as the view reads it: its `essentialRequirements`
   entry (absent, null, or a list), and the other keys of the record as an
   uninterpreted dict.
   */
  datatype BriefResponse = BriefResponse(essentialRequirements: Entry<seq<Json>>, rest: Dict)

  /**
   The Counter key `all(response['essentialRequirements'])`, or the exception
   it raises: KeyError when the key is absent, TypeError when its value is
   null. A response is eligible iff every entry is truthy, so a response with
   no entries at all is eligible.
   */
  function Verdict(response: BriefResponse): (v: Result<bool, PyError>)
    ensures v.Failure? <==> !response.essentialRequirements.Present?
    ensures response.essentialRequirements.Absent? ==> v == Failure(KeyError("essentialRequirements"))
    ensures response.essentialRequirements.Null? ==> v == Failure(TypeError("essentialRequirements"))
    ensures v == Success(true) <==>
              response.essentialRequirements.Present? &&
              forall i :: 0 <= i < |response.essentialRequirements.value| ==>
                Truthy(response.essentialRequirements.value[i])
  {
    match response.essentialRequirements
    case Absent => Failure(KeyError("essentialRequirements"))
    case Null => Failure(TypeError("essentialRequirements"))
    case Present(entries) => Success(All(entries))
  }

  /** How many responses of the list have verdict `v`. */
  function Tally(responses: seq<BriefResponse>, v: bool): nat
  {
    if responses == [] then 0
    else Tally(responses[..|responses| - 1], v) + (if Verdict(responses[|responses| - 1]) == Success(v) then 1 else 0)
  }

  /** Once every response carries the key, each response is counted exactly once: eligible plus failed is the total. */
  lemma {:induction false} TallyPartition(responses: seq<BriefResponse>)
    requires forall i :: 0 <= i < |responses| ==> responses[i].essentialRequirements.Present?
    ensures Tally(responses, true) + Tally(responses, false) == |responses|
  {
    if responses != [] {
      var init := responses[..|responses| - 1];
      assert forall i :: 0 <= i < |init| ==> init[i] == responses[i];
      TallyPartition(init);
    }
  }

  /** The responses of the list that are eligible, in order. */
  function EligibleResponses(responses: seq<BriefResponse>): seq<BriefResponse>
  {
    if responses == [] then []
    else
      var last := responses[|responses| - 1];
      EligibleResponses(responses[..|responses| - 1]) + (if Verdict(last) == Success(true) then [last] else [])
  }

  /**
   The eligible count is the number of responses that meet every essential
   requirement: each eligible response is counted as often as it occurs, and
   no other response is counted.
   */
  lemma {:induction false} TallyCountsEligible(responses: seq<BriefResponse>)
    ensures Tally(responses, true) == |EligibleResponses(responses)|
    ensures forall r :: multiset(EligibleResponses(responses))[r] ==
                          if Verdict(r) == Success(true) then multiset(responses)[r] else 0
  {
    if responses != [] {
      var init, last := responses[..|responses| - 1], responses[|responses| - 1];
      TallyCountsEligible(init);
      assert responses == init + [last];
      assert multiset(responses) == multiset(init) + multiset{last};
    }
  }

  /** `response_counts`: the Counter's entries for False and for True, read with a default of 0. */
  datatype ResponseCounts = ResponseCounts(failed: nat, eligible: nat)

  /** A Counter lookup: a key never incremented reads as 0. */
  function CounterGet(counter: map<bool, nat>, key: bool): nat
  {
    if key in counter then counter[key] else 0
  }

  /**
   The counting loop of the view: every response's verdict is added to a
   Counter, and the exception of the first response without a list of
   essential requirements escapes.
   */
  method CountResponses(responses: seq<BriefResponse>) returns (r: Result<ResponseCounts, PyError>)
    ensures r.Failure? <==> exists i :: 0 <= i < |responses| && !responses[i].essentialRequirements.Present?
    ensures r.Failure? ==> exists i :: 0 <= i < |responses| && Verdict(responses[i]).Failure? &&
                             r.error == Verdict(responses[i]).error &&
                             forall j :: 0 <= j < i ==> responses[j].essentialRequirements.Present?
    ensures r.Success? ==> r.value.eligible == Tally(responses, true) && r.value.failed == Tally(responses, false)
    ensures r.Success? ==> r.value.eligible + r.value.failed == |responses|
  {
    var counter: map<bool, nat> := map[];
    var n := 0;
    while n < |responses|
      invariant 0 <= n <= |responses|
      invariant forall i :: 0 <= i < n ==> responses[i].essentialRequirements.Present?
      invariant forall v :: CounterGet(counter, v) == Tally(responses[..n], v)
    {
      var response := responses[n];
      var verdict := Verdict(response);
      if verdict.Failure? {
        return Failure(verdict.error);
      }
      var key := verdict.value;
      counter := counter[key := CounterGet(counter, key) + 1];
      assert responses[..n + 1][..n] == responses[..n];
      n := n + 1;
    }
    assert responses[..n] == responses;
    TallyPartition(responses);
    r := Success(ResponseCounts(CounterGet(counter, false), CounterGet(counter, true)));
  }

  /**
   `brief_responses_required_evidence`: None when the response list is
   falsy (empty), otherwise `not` applied to the legacy check on the first
   response alone. `isLegacy` stands for `is_legacy_brief_response`, whose
   value is negated through its truthiness.
   */
  function RequiredEvidence(responses: seq<BriefResponse>, brief: Brief,
                            isLegacy: (BriefResponse, Brief) -> Json): (r: Option<bool>)
    ensures r.None? <==> responses == []
    ensures r == Some(true) <==> responses != [] && isLegacy(responses[0], brief) in FalsyValues
  {
    TruthyIffNotFalsy(if responses == [] then JNull else isLegacy(responses[0], brief));
    if responses == [] then None else Some(!Truthy(isLegacy(responses[0], brief)))
  }

  /** The flag looks at the first response only: lists that share their first response agree. */
  lemma RequiredEvidenceFromFirstOnly(rs1: seq<BriefResponse>, rs2: seq<BriefResponse>, brief: Brief,
                                      isLegacy: (BriefResponse, Brief) -> Json)
    requires rs1 != [] && rs2 != [] && rs1[0] == rs2[0]
    ensures RequiredEvidence(rs1, brief, isLegacy) == RequiredEvidence(rs2, brief, isLegacy)
  {
  }

  /**
   The page has no evidence flag exactly when both counts are zero: the flag
   and the counts are taken from the same response list.
   */
  lemma RequiredEvidenceAbsentIffNothingCounted(responses: seq<BriefResponse>, brief: Brief,
                                                isLegacy: (BriefResponse, Brief) -> Json)
    requires forall i :: 0 <= i < |responses| ==> responses[i].essentialRequirements.Present?
    ensures RequiredEvidence(responses, brief, isLegacy).None? <==>
              Tally(responses, true) == 0 && Tally(responses, false) == 0
  {
    TallyPartition(responses);
  }

  /** A legacy response: one boolean per essential requirement. */
  function Legacy(flags: seq<bool>): BriefResponse
  {
    BriefResponse(Present(seq(|flags|, i requires 0 <= i < |flags| => JBool(flags[i]))), map[])
  }

  /**
   The five legacy responses of the view's tests: two meet every essential
   requirement ("2 suppliers"), three do not; either eligible one alone
   counts as one supplier.
   */
  lemma LegacyExampleCounts()
    ensures
      var rs := [Legacy([true, true, true, true, true]), Legacy([true, false, true, true, true]),
                 Legacy([true, true, false, false, true]), Legacy([true, true, true, true, true]),
                 Legacy([true, true, true, true, false])];
      Tally(rs, true) == 2 && Tally(rs, false) == 3 && Tally(rs[..1], true) == 1
  {
    var rs := [Legacy([true, true, true, true, true]), Legacy([true, false, true, true, true]),
               Legacy([true, true, false, false, true]), Legacy([true, true, true, true, true]),
               Legacy([true, true, true, true, false])];
    assert Verdict(rs[0]) == Success(true);
    assert !Truthy(rs[1].essentialRequirements.value[1]);
    assert Verdict(rs[1]) == Success(false);
    assert !Truthy(rs[2].essentialRequirements.value[2]);
    assert Verdict(rs[2]) == Success(false);
    assert Verdict(rs[3]) == Success(true);
    assert !Truthy(rs[4].essentialRequirements.value[4]);
    assert Verdict(rs[4]) == Success(false);
    assert rs[..1][..0] == [];
    assert Tally(rs[..1], true) == 1 && Tally(rs[..1], false) == 0;
    assert rs[..2][..1] == rs[..1];
    assert Tally(rs[..2], true) == 1 && Tally(rs[..2], false) == 1;
    assert rs[..3][..2] == rs[..2];
    assert Tally(rs[..3], true) == 1 && Tally(rs[..3], false) == 2;
    assert rs[..4][..3] == rs[..3];
    assert Tally(rs[..4], true) == 2 && Tally(rs[..4], false) == 2;
    assert rs[..4] == rs[..|rs| - 1];
  }

  /** A newer-format response whose entries are evidence objects counts as eligible when none is empty. */
  lemma EvidenceObjectsAreTruthy(evidence: string)
    ensures Verdict(BriefResponse(Present([JObject(map["evidence" := JStr(evidence)])]), map[])) == Success(true)
  {
    assert Truthy(JObject(map["evidence" := JStr(evidence)])) by {
      assert "evidence" in map["evidence" := JStr(evidence)];
    }
  }
}
