# Buyer views of the Digital Marketplace briefs frontend, in Dafny

This project models the logic inside the buyer-facing views of the briefs
frontend (`app/main/views/buyers.py`). A buyer posts *briefs* (procurement
requirements) and suppliers respond to them. The views do three things that
have rules of their own:

- **Dashboard** (`buyer_dos_requirements`). It splits the buyer's briefs into
  draft, live and closed tables by status. Each table is sorted newest first by
  its own timestamp: `createdAt`, `publishedAt` or `applicationsClosedAt`.
  `buyer_dashboard` also decides whether the buyer has any direct-award projects.
- **Brief overview** (`view_brief_overview`). It derives several values:
  - the delete and withdraw confirmation flags;
  - the completed-sections table;
  - the list of steps;
  - the numbered clarification questions;
  - the name of the supplier the brief was awarded to.
- **Brief responses** (`view_brief_responses`). It counts eligible and failed
  supplier responses. It also decides from the first response whether the page
  describes evidence-based (newer-format) responses.

Modules:

- `PyValues` (values.dfy): JSON-shaped data as Python sees it (`Json`,
  `Truthy`), the built-in `all`, and the `KeyError`/`ValueError` exceptions.
- `Briefs` (briefs.dfy): the brief record, its timestamps, and the two status
  lists declared at the top of the file.
- `Dashboard` (dashboard.dfy): the status filters, a stable newest-first sort,
  and the dashboard tables.
- `Overview` (overview.dfy): the overview derivations.
- `Responses` (responses.dfy): the response tally and the evidence flag.

Modelling decisions:

- **Timestamps.** A timestamp is `Stamp = Missing | NonString | Malformed | At(t)`. `t` is
  an integer that orders instants the way datetime comparison does.
  `datetime.strptime(brief[key], ...)` raises `KeyError` on a missing key,
  `TypeError` on a value that is not a string (such as null), and
  `ValueError` on a string that does not parse. `sorted` evaluates every key before
  comparing, so a table fails exactly when one of its briefs lacks a parseable
  stamp, and it reports the first such brief's exception. The tables are built
  in the order draft, live, closed.
- **Sort.** `sorted(..., reverse=True)` is stable: briefs with equal keys keep
  their input order. `SortNewestFirst` is an insertion sort. It is specified by
  `StablyNewestFirst`: newest first, a permutation, and every key class in input
  order. `SortNewestFirstCharacterised` proves that this specification has
  exactly one solution.
- **Python `and` and `or`.** `PyValues.And` and `PyValues.Or` return one of
  their operands, as Python does. `request.args.get(name) and status == wanted`
  yields the argument itself when it is falsy (absent or `""`), and otherwise a
  boolean; `RequestedWhile` returns that value as a `Json`. `user_has_projects`
  is `bool` of an `or` over the two project counts.
- **Entries of a record.** A key of a JSON record may be absent, hold null, or
  hold a value (`Entry`). For `clarificationQuestions`,
  `essentialRequirements` and the `find_briefs` list, an absent key and a
  null value raise different exceptions, or none, as the code reads them.
- **Counter loop.** The `Counter` is a `map<bool, nat>` read with default 0. It
  is filled by a `while` loop, as in the source.
- **Completed sections.** The `completed_sections` dict is a `map` filled by a
  loop. When two sections share a slug, the later one's entry wins.
- **Helpers passed in as functions.** The source calls helpers from
  `buyers_helpers` and the API client, and their code is not part of this
  model. Each one is a function parameter here:
  - `add_unanswered_counts_to_briefs`
  - `count_unanswered_questions`
  - `section_has_at_least_one_required_question`
  - `is_legacy_brief_response`
  - the `get_brief_response` API call, whose reply the view indexes for the supplier name
- **Fetched data passed in.** Data-API results are inputs, already fetched:
  the `find_briefs` payload, the project totals and the response list. So are
  the query arguments.

`view_brief_responses` does not read a response's `essentialRequirementsMet`
flag. It counts a response as eligible when
`all(response['essentialRequirements'])` holds, whatever its format. For a
newer-format response the entries are evidence dicts, and a dict is truthy
when it is non-empty (`EvidenceObjectsAreTruthy`). The model follows that
rule.

## Model

| member | source | states |
|---|---|---|
| `PyValues.All` | app/main/views/buyers.py:206 | `all(xs)` holds iff every element is truthy; so it holds of the empty list |
| `PyValues.TruthyIffNotFalsy` | app/main/views/buyers.py:94 | `if value:` takes the branch exactly when the value is none of None, False, 0, "", [] and {} |
| `PyValues.And` | app/main/views/buyers.py:100-101 | `x and y` is truthy iff both are; a falsy `x` is itself the result |
| `PyValues.Or` | app/main/views/buyers.py:44-47 | `x or y` is truthy iff either is; a truthy `x` is itself the result, without `y` deciding anything |
| `Briefs.ClosedPublishedIsClosedWithoutWithdrawn` | app/main/views/buyers.py:24-25 | the published-closed list is the closed list with exactly "withdrawn" removed, order kept, so it is a strict subset |
| `Briefs.DashboardStatusesDisjoint` | app/main/views/buyers.py:24-25 | "draft" and "live" are not closed statuses; every published-closed status is a closed status |
| `Dashboard.UserHasProjects` | app/main/views/buyers.py:44-47 | `bool(awaiting or all_projects)` holds iff one of the two counts is non-zero |
| `Dashboard.UserHasProjectsShortCircuits` | app/main/views/buyers.py:42-47 | when some project awaits an outcome, `or` yields the first count whatever the second is, so that call can be skipped |
| `Dashboard.WithStatusIn` | app/main/views/buyers.py:55-69 | every brief the status filter keeps has a listed status, and the result is no longer than the input |
| `Dashboard.WithStatusInCounts` | app/main/views/buyers.py:55-69 | the filter keeps each brief whose status is listed, as often as in the input, and drops every other brief |
| `Dashboard.WithStatusInKeepsOrder` | app/main/views/buyers.py:55-69 | the filter keeps input order: it distributes over concatenation, and keeps a single brief iff its status is listed |
| `Dashboard.StampError` | app/main/views/buyers.py:57 | the key function raises iff the brief's stamp is absent, not a string, or does not parse |
| `Dashboard.FirstStampError` | app/main/views/buyers.py:55-69 | no exception iff every brief has a parseable stamp; otherwise the exception is that of the first brief without one |
| `Dashboard.SortIsStablyNewestFirst` | app/main/views/buyers.py:60-64 | the sort yields a list that is newest first, a permutation of the input, and keeps equal-key briefs in input order |
| `Dashboard.SortNewestFirstCharacterised` | app/main/views/buyers.py:60-64 | a list is a stable newest-first permutation of the input iff it equals the sort's result |
| `Dashboard.SortedByStamp` | app/main/views/buyers.py:65-69 | `sorted` with the strptime key fails iff some brief lacks a parseable stamp, with the first such exception; otherwise it is the stable newest-first order |
| `Dashboard.DosRequirements` | app/main/views/buyers.py:52-69 | a null `briefs` entry raises TypeError; otherwise the dashboard succeeds iff all three filtered lists carry their stamps; each table is then the stable newest-first sort of its filtered list, and the annotated drafts are sorted by `createdAt`; a failure is the first failing table's exception, in draft, live, closed order |
| `Dashboard.DosRequirementsPartition` | app/main/views/buyers.py:60-69 | the live table holds exactly the live briefs and the closed table exactly the closed-status briefs, with multiplicity; a brief of any other status is in neither; the two share no brief |
| `Dashboard.DosRequirementsTiesInInputOrder` | app/main/views/buyers.py:53-69 | live or closed briefs with the same timestamp appear in their table in the order of the API's brief list |
| `Dashboard.DosRequirementsDraftsApart` | app/main/views/buyers.py:55-59 | if the draft annotation keeps statuses, the draft table holds only drafts and shares no brief with the live or closed table |
| `Overview.RequestedWhile` | app/main/views/buyers.py:100-101 | the guard is truthy iff the argument is present and non-empty and the status is the wanted one; a falsy argument is returned unchanged |
| `Overview.DeleteRequested` | app/main/views/buyers.py:100 | `delete_requested` is truthy only for a draft brief, and then exactly when the argument is non-empty |
| `Overview.WithdrawRequested` | app/main/views/buyers.py:101 | `withdraw_requested` is truthy only for a live brief, and then exactly when the argument is non-empty |
| `Overview.RequestsExclusive` | app/main/views/buyers.py:100-101 | no brief is both delete-requested and withdraw-requested |
| `Overview.CompletedSections` | app/main/views/buyers.py:107-113 | the table has one key per section slug; the last section with a slug decides its entry: complete iff its unanswered-required count is 0 when it has a required question, else iff its unanswered-optional count is 0 |
| `Overview.CompletedSectionsOnePerSection` | app/main/views/buyers.py:107-113 | with distinct slugs, the table has exactly one entry per section, and each holds that section's completion |
| `Overview.StepSections` | app/main/views/buyers.py:169 | every section's step is listed and every listed step is some section's; the list is as long as the sections iff every section has a step |
| `Overview.StepSectionsKeepsOrder` | app/main/views/buyers.py:169 | the steps keep section order: they distribute over concatenation, and a single section contributes its step if it has one |
| `Overview.StepSectionsCount` | app/main/views/buyers.py:169 | there are exactly as many steps as sections that have one, repeats included |
| `Overview.NumberQuestions` | app/main/views/buyers.py:115-118 | the list keeps its length and order; the i-th question gets `number = i + 1`; every other key and value is unchanged |
| `Overview.NumberQuestionsIdempotent` | app/main/views/buyers.py:115-118 | numbering an already numbered list changes nothing |
| `Overview.NumberQuestionsConsecutive` | app/main/views/buyers.py:115-118 | questions at different positions get different numbers, and the numbers run 1 to n |
| `Overview.WithNumberedQuestions` | app/main/views/buyers.py:115-118 | a brief without `clarificationQuestions` raises KeyError and one with null raises TypeError; otherwise only that field changes, to the numbered copy |
| `Overview.AwardedSupplierName` | app/main/views/buyers.py:93-96 | a falsy id gives "" without a lookup; a truthy id succeeds iff the reply has `briefResponses` as a dict holding `supplierName`, which is then the name; any failure is a KeyError or TypeError on one of those two keys |
| `Overview.AwardedSupplierNameFalsyIds` | app/main/views/buyers.py:93-96 | the name is "" whatever the API replies exactly when the id is None, False, 0, "", [] or {} |
| `Responses.Verdict` | app/main/views/buyers.py:206 | KeyError iff the key is missing, TypeError iff it is null; eligible iff every essential-requirement entry is truthy, so an empty list is eligible |
| `Responses.TallyPartition` | app/main/views/buyers.py:203-210 | once every response has the list, eligible plus failed equals the number of responses |
| `Responses.TallyCountsEligible` | app/main/views/buyers.py:203-210 | the eligible count is the number of eligible responses; each eligible input response is counted as often as it occurs, and no other response is |
| `Responses.CountResponses` | app/main/views/buyers.py:203-210 | the loop fails iff some response lacks a list of essential requirements, with the first such response's exception; otherwise the eligible and failed counts are the verdict tallies and add up to the number of responses |
| `Responses.RequiredEvidence` | app/main/views/buyers.py:197-201 | the flag is None iff there are no responses; it is True iff the legacy check on the first response gives a falsy value |
| `Responses.RequiredEvidenceFromFirstOnly` | app/main/views/buyers.py:197-201 | two response lists with the same first response give the same flag |
| `Responses.RequiredEvidenceAbsentIffNothingCounted` | app/main/views/buyers.py:197-210 | the flag is None exactly when both the eligible and the failed count are 0 |
| `Responses.LegacyExampleCounts` | tests/main/views/test_buyers.py:2426-2435 | the five legacy responses of the tests give 2 eligible and 3 failed; the first response alone gives 1 eligible |
| `Responses.EvidenceObjectsAreTruthy` | tests/main/views/test_buyers.py:2472-2478 | a newer-format response whose evidence entries are non-empty dicts counts as eligible |

## Left out

- Routing and rendering are not modelled: Flask routes, `render_template`, `url_for`, `abort` and the session and CSRF handling. Query arguments and fetched data are inputs instead.
- The 404 access checks are not modelled. `is_brief_correct` and `get_framework_and_lot` are helpers whose code is not part of this model.
- The data API client is not modelled. Its results are passed in already fetched: `find_briefs`, `find_direct_award_projects`, `get_brief`, `find_brief_responses` and `get_brief_response`.
- `content_loader` is not modelled: manifests, `content.summary`, the call-off and framework-agreement URLs, and `section.unformat_data`. It is an external content library.
- The `publish_requirements_section_links` list is not modelled. It only builds URLs and rendering data.
- `BRIEF_WITHDRAWN_MESSAGE` is not modelled. It is a message template that no view in buyers.py uses.
- Date parsing is abstracted. `DATETIME_FORMAT` parsing is not modelled; a parsed stamp is an integer, and a string that does not parse is `Malformed`.
- JSON floating-point numbers are not modelled.
- A missing `status` key on a brief is not modelled. The `status` field is always present here.
- An `essentialRequirements` value that is neither null nor a list is not modelled. Python's `all` over a string, dict or number behaves differently from `all` over a list.
- A `clarificationQuestions` value that is neither null nor a list of dicts is not modelled. `enumerate` and `dict` accept some other values, such as strings and lists of pairs, with their own results.
- A `briefs` entry of the `find_briefs` payload that is neither absent, null nor a list of brief records is not modelled.
- The supplier-response report and download (`DownloadBriefResponsesView`, CSV/ODS output) are not modelled. Their code is not part of this model; only their tests are.
- `app/main/forms/award_or_cancel.py` is not modelled. It only wraps WTForms; its one line of logic is a label fallback.
- `Dashboard.DosRequirementsDraftsApart` assumes the draft annotation keeps every brief's status. The code of `add_unanswered_counts_to_briefs` is not part of this model, so the draft-table property is only proved under that assumption.
- `Dashboard.DosRequirementsTiesInInputOrder` covers the live and closed tables only. The draft table's tie order also depends on the order `add_unanswered_counts_to_briefs` returns, whose code is not part of this model.
- `Overview.CompletedSections` does not model the dict's insertion order. Only the keys and values are modelled.
