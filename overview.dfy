/**
 The derived values that `view_brief_overview` computes before rendering a
 brief's overview page: the delete and withdraw confirmation flags, the
 completed-sections table, the steps, the renumbered clarification questions
 and the name of the supplier the brief was awarded to.
 */
module Overview {
  import opened PyValues
  import opened Briefs

  // ---------------------------------------------------------------------------
  // delete_requested / withdraw_requested
  // ---------------------------------------------------------------------------

  /** `request.args.get(name)`: the query argument's string, or None when absent. */
  function ArgValue(arg: Option<string>): Json
  {
    match arg
    case None => JNull
    case Some(s) => JStr(s)
  }

  /**
   Python's `request.args.get(name) and brief['status'] == wanted`: a falsy
   argument (absent or empty) is itself the value; otherwise the value is the
   outcome of the status comparison.
   */
  function RequestedWhile(arg: Option<string>, status: string, wanted: string): (r: Json)
    ensures Truthy(r) <==> arg.Some? && arg.value != "" && status == wanted
    ensures !Truthy(ArgValue(arg)) ==> r == ArgValue(arg)
    ensures Truthy(ArgValue(arg)) ==> r.JBool?
  {
    And(ArgValue(arg), JBool(status == wanted))
  }

  /** `delete_requested`: can be truthy only for a draft brief, and is whenever the argument is non-empty. */
  function DeleteRequested(arg: Option<string>, brief: Brief): (r: Json)
    ensures Truthy(r) ==> brief.status == "draft"
    ensures Truthy(r) <==> arg.Some? && arg.value != "" && brief.status == "draft"
  {
    RequestedWhile(arg, brief.status, "draft")
  }

  /** `withdraw_requested`: can be truthy only for a live brief, and is whenever the argument is non-empty. */
  function WithdrawRequested(arg: Option<string>, brief: Brief): (r: Json)
    ensures Truthy(r) ==> brief.status == "live"
    ensures Truthy(r) <==> arg.Some? && arg.value != "" && brief.status == "live"
  {
    RequestedWhile(arg, brief.status, "live")
  }

  /** No brief can be both delete- and withdraw-requested at once. */
  lemma RequestsExclusive(deleteArg: Option<string>, withdrawArg: Option<string>, brief: Brief)
    ensures !(Truthy(DeleteRequested(deleteArg, brief)) && Truthy(WithdrawRequested(withdrawArg, brief)))
  {
  }

  // ---------------------------------------------------------------------------
  // completed_sections and step_sections
  // ---------------------------------------------------------------------------

  /** A section of the brief's edit manifest, summarised against the brief. */
  datatype Section = Section(slug: string, step: Option<string>, questions: seq<Dict>)

  /** `count_unanswered_questions`: the unanswered required and optional questions of a list of sections. */
  type UnansweredCount = seq<Section> -> (int, int)

  /** `section_has_at_least_one_required_question`. */
  type RequiredCheck = Section -> bool

  /**
   The completion rule for one section. `countUnanswered` stands for
   `count_unanswered_questions`, which returns the numbers of unanswered
   required and optional questions of a list of sections, and `hasRequired`
   for `section_has_at_least_one_required_question`.
   */
  predicate SectionComplete(section: Section, countUnanswered: UnansweredCount,
                            hasRequired: RequiredCheck)
  {
    var (required, optional) := countUnanswered([section]);
    if hasRequired(section) then required == 0 else optional == 0
  }

  /** The slugs of the sections. */
  function Slugs(sections: seq<Section>): set<string>
  {
    set i | 0 <= i < |sections| :: sections[i].slug
  }

  /** No later section of the list reuses the slug of section `i`, so its entry is the one that survives. */
  ghost predicate LastWithSlug(sections: seq<Section>, i: int)
    requires 0 <= i < |sections|
  {
    forall j :: i < j < |sections| ==> sections[j].slug != sections[i].slug
  }

  /**
   The loop that fills `completed_sections`: one entry per slug, holding the
   completion of the last section with that slug.
   */
  method CompletedSections(sections: seq<Section>, countUnanswered: UnansweredCount, hasRequired: RequiredCheck)
    returns (completed: map<string, bool>)
    ensures completed.Keys == Slugs(sections)
    ensures forall i :: 0 <= i < |sections| && LastWithSlug(sections, i) ==>
              completed[sections[i].slug] == SectionComplete(sections[i], countUnanswered, hasRequired)
  {
    completed := map[];
    var n := 0;
    while n < |sections|
      invariant 0 <= n <= |sections|
      invariant completed.Keys == Slugs(sections[..n])
      invariant forall i :: 0 <= i < n && LastWithSlug(sections[..n], i) ==>
                  completed[sections[i].slug] == SectionComplete(sections[i], countUnanswered, hasRequired)
    {
      var section := sections[n];
      var (required, optional) := countUnanswered([section]);
      if hasRequired(section) {
        completed := completed[section.slug := if required == 0 then true else false];
      } else {
        completed := completed[section.slug := if optional == 0 then true else false];
      }
      forall i | 0 <= i < n && LastWithSlug(sections[..n + 1], i)
        ensures LastWithSlug(sections[..n], i) && sections[i].slug != section.slug
      {
        assert sections[..n + 1][n] == section;
      }
      assert Slugs(sections[..n + 1]) == Slugs(sections[..n]) + {section.slug} by {
        assert forall i :: 0 <= i < n ==> sections[..n + 1][i] == sections[..n][i];
        assert sections[..n + 1][n] == section;
      }
      n := n + 1;
    }
    assert sections[..n] == sections;
  }

  /** The slugs are pairwise distinct. */
  ghost predicate DistinctSlugs(sections: seq<Section>)
  {
    forall i, j :: 0 <= i < j < |sections| ==> sections[i].slug != sections[j].slug
  }

  lemma {:induction false} DistinctSlugsCount(sections: seq<Section>)
    requires DistinctSlugs(sections)
    ensures |Slugs(sections)| == |sections|
  {
    if sections != [] {
      var init := sections[..|sections| - 1];
      var last := sections[|sections| - 1];
      assert DistinctSlugs(init);
      DistinctSlugsCount(init);
      assert Slugs(sections) == Slugs(init) + {last.slug} by {
        forall i | 0 <= i < |init| ensures init[i] == sections[i] { }
      }
      assert last.slug !in Slugs(init);
    }
  }

  /**
   With distinct slugs — as a manifest has — every section gets exactly one
   entry: the table has as many entries as there are sections, and each holds
   that section's completion.
   */
  lemma CompletedSectionsOnePerSection(sections: seq<Section>, countUnanswered: UnansweredCount,
                                       hasRequired: RequiredCheck, completed: map<string, bool>)
    requires DistinctSlugs(sections)
    requires completed.Keys == Slugs(sections)
    requires forall i :: 0 <= i < |sections| && LastWithSlug(sections, i) ==>
               completed[sections[i].slug] == SectionComplete(sections[i], countUnanswered, hasRequired)
    ensures |completed| == |sections|
    ensures forall i :: 0 <= i < |sections| ==>
              completed[sections[i].slug] == SectionComplete(sections[i], countUnanswered, hasRequired)
  {
    DistinctSlugsCount(sections);
    assert |completed| == |completed.Keys|;
    forall i | 0 <= i < |sections| ensures LastWithSlug(sections, i) { }
  }

  /** `[section.step for section in sections if hasattr(section, 'step')]`. */
  function StepSections(sections: seq<Section>): (r: seq<string>)
    ensures |r| <= |sections|
    ensures |r| == |sections| <==> forall i :: 0 <= i < |sections| ==> sections[i].step.Some?
    ensures forall i :: 0 <= i < |sections| && sections[i].step.Some? ==> sections[i].step.value in r
    ensures forall x :: x in r ==> exists i :: 0 <= i < |sections| && sections[i].step == Some(x)
  {
    if sections == [] then []
    else
      var rest := StepSections(sections[1..]);
      assert forall i :: 1 <= i < |sections| ==> sections[i] == sections[1..][i - 1];
      (if sections[0].step.Some? then [sections[0].step.value] else []) + rest
  }

  /**
   The steps keep the order of their sections: the steps of a concatenation
   are the concatenated steps, and a single section contributes its step if
   it has one.
   */
  lemma {:induction false} StepSectionsKeepsOrder(a: seq<Section>, b: seq<Section>)
    ensures StepSections(a + b) == StepSections(a) + StepSections(b)
    ensures |a| == 1 ==> StepSections(a) == if a[0].step.Some? then [a[0].step.value] else []
  {
    if a != [] {
      var h := if a[0].step.Some? then [a[0].step.value] else [];
      assert (a + b)[0] == a[0] && (a + b)[1..] == a[1..] + b;
      assert StepSections(a + b) == h + StepSections(a[1..] + b);
      assert StepSections(a) == h + StepSections(a[1..]);
      StepSectionsKeepsOrder(a[1..], b);
      assert h + (StepSections(a[1..]) + StepSections(b)) == (h + StepSections(a[1..])) + StepSections(b);
    } else {
      assert a + b == b;
    }
  }

  /** The positions of the sections that have a step. */
  function StepIndices(sections: seq<Section>): set<int>
  {
    set i | 0 <= i < |sections| && sections[i].step.Some?
  }

  lemma StepIndicesSnoc(init: seq<Section>, last: Section)
    ensures |StepIndices(init + [last])| == |StepIndices(init)| + if last.step.Some? then 1 else 0
  {
    var n := |init|;
    var extra: set<int> := if last.step.Some? then {n} else {};
    assert StepIndices(init + [last]) == StepIndices(init) + extra by {
      forall i | 0 <= i < n ensures (init + [last])[i] == init[i] { }
      assert (init + [last])[n] == last;
    }
    assert StepIndices(init) !! extra;
  }

  /** There is one step per section that has a step, repeated steps included. */
  lemma {:induction false} StepSectionsCount(sections: seq<Section>)
    ensures |StepSections(sections)| == |StepIndices(sections)|
  {
    if sections != [] {
      var n := |sections| - 1;
      var init, last := sections[..n], sections[n];
      assert sections == init + [last];
      StepSectionsKeepsOrder(init, [last]);
      StepSectionsKeepsOrder([last], []);
      StepSectionsCount(init);
      StepIndicesSnoc(init, last);
    }
  }

  // ---------------------------------------------------------------------------
  // clarificationQuestions
  // ---------------------------------------------------------------------------

  /** `q'` is `dict(q, number=n)`: the number set to `n`, every other key and value as in `q`. */
  ghost predicate NumberedCopy(q': Dict, q: Dict, n: int)
  {
    && "number" in q' && q'["number"] == JInt(n)
    && (forall key :: key != "number" ==> (key in q' <==> key in q))
    && (forall key :: key != "number" && key in q && key in q' ==> q'[key] == q[key])
  }

  /** The enumerate comprehension: the i-th question (from 0) becomes a copy numbered i + 1. */
  function NumberQuestions(questions: seq<Dict>): (r: seq<Dict>)
    ensures |r| == |questions|
    ensures forall i :: 0 <= i < |r| ==> NumberedCopy(r[i], questions[i], i + 1)
  {
    seq(|questions|, i requires 0 <= i < |questions| => questions[i]["number" := JInt(i + 1)])
  }

  /** Numbering a numbered list changes nothing: the numbers depend only on positions. */
  lemma NumberQuestionsIdempotent(questions: seq<Dict>)
    ensures NumberQuestions(NumberQuestions(questions)) == NumberQuestions(questions)
  {
    var once := NumberQuestions(questions);
    var twice := NumberQuestions(once);
    forall i | 0 <= i < |once| ensures twice[i] == once[i] {
      assert twice[i].Keys == once[i].Keys;
    }
  }

  /** Two questions at different positions get different numbers; the numbers are 1 up to the length. */
  lemma NumberQuestionsConsecutive(questions: seq<Dict>, i: int, j: int)
    requires 0 <= i < j < |questions|
    ensures NumberQuestions(questions)[i]["number"] != NumberQuestions(questions)[j]["number"]
    ensures NumberQuestions(questions)[j]["number"] == JInt(j + 1)
  {
  }

  /**
   `brief['clarificationQuestions'] = [...]`: the brief with its questions
   numbered, every other field unchanged; a brief without the field raises
   KeyError, and one whose field is null raises TypeError from `enumerate`.
   */
  function WithNumberedQuestions(brief: Brief): (r: Result<Brief, PyError>)
    ensures brief.clarificationQuestions.Present? <==> r.Success?
    ensures brief.clarificationQuestions.Absent? ==> r == Failure(KeyError("clarificationQuestions"))
    ensures brief.clarificationQuestions.Null? ==> r == Failure(TypeError("clarificationQuestions"))
    ensures r.Success? ==>
              r.value.clarificationQuestions.Present? &&
              (var qs, qs' := brief.clarificationQuestions.value, r.value.clarificationQuestions.value;
               |qs'| == |qs| && forall i :: 0 <= i < |qs| ==> NumberedCopy(qs'[i], qs[i], i + 1))
    ensures r.Success? ==> r.value.(clarificationQuestions := brief.clarificationQuestions) == brief
  {
    match brief.clarificationQuestions
    case Absent => Failure(KeyError("clarificationQuestions"))
    case Null => Failure(TypeError("clarificationQuestions"))
    case Present(qs) => Success(brief.(clarificationQuestions := Present(NumberQuestions(qs))))
  }

  // ---------------------------------------------------------------------------
  // awarded_brief_response_supplier_name
  // ---------------------------------------------------------------------------

  /**
   The awarded supplier's name: the empty string unless
   `brief.get('awardedBriefResponseId')` is truthy, in which case
   `get_brief_response(id)["briefResponses"]["supplierName"]`, where
   `getBriefResponse` stands for the API call. A falsy id makes no call; a
   reply without those keys, or with a non-dict where a dict is indexed,
   raises.
   */
  function AwardedSupplierName(brief: Brief, getBriefResponse: Json -> Json): (r: Result<Json, PyError>)
    ensures !Truthy(brief.awardedBriefResponseId) ==> r == Success(JStr(""))
    ensures Truthy(brief.awardedBriefResponseId) ==>
              var reply := getBriefResponse(brief.awardedBriefResponseId);
              && (r.Success? <==>
                    reply.JObject? && "briefResponses" in reply.members &&
                    reply.members["briefResponses"].JObject? &&
                    "supplierName" in reply.members["briefResponses"].members)
              && (r.Success? ==> r.value == reply.members["briefResponses"].members["supplierName"])
    ensures r.Failure? ==>
              r.error in {KeyError("briefResponses"), TypeError("briefResponses"),
                          KeyError("supplierName"), TypeError("supplierName")}
  {
    if Truthy(brief.awardedBriefResponseId) then
      var reply := Subscript(getBriefResponse(brief.awardedBriefResponseId), "briefResponses");
      if reply.Failure? then Failure(reply.error) else Subscript(reply.value, "supplierName")
    else Success(JStr(""))
  }

  /**
   The name is empty whatever the API replies exactly when the id is one of
   the six falsy values: absent (null), false, 0, "", [] or {}.
   */
  lemma AwardedSupplierNameFalsyIds(brief: Brief)
    ensures (forall g: Json -> Json :: AwardedSupplierName(brief, g) == Success(JStr(""))) <==>
              brief.awardedBriefResponseId in FalsyValues
  {
    TruthyIffNotFalsy(brief.awardedBriefResponseId);
    if brief.awardedBriefResponseId !in FalsyValues {
      var g: Json -> Json := _ => JObject(map["briefResponses" := JObject(map["supplierName" := JStr("a")])]);
      assert AwardedSupplierName(brief, g) == Success(JStr("a"));
    }
  }
}
