/**
 The brief record as the buyer views read it from the data API, and the
 status lists that app/main/views/buyers.py declares at module level.
 */
module Briefs {
  import opened PyValues

  /**
   A timestamp field of a brief, as `datetime.strptime(brief[key], DATETIME_FORMAT)`
   sees it: the key may be absent (KeyError), its value may not be a string,
   such as null (TypeError), its string may not parse (ValueError), or it
   denotes an instant, abstracted as an integer that orders instants as
   datetime comparison does.
   */
  datatype Stamp = Missing | NonString | Malformed | At(time: int)

  /** The three timestamp keys the dashboard sorts by. */
  datatype StampField = CreatedAt | PublishedAt | ApplicationsClosedAt

  /**
   The fields of a brief that the modelled views read. An absent
   `awardedBriefResponseId` is JNull (the view reads it with `.get`); the
   `clarificationQuestions` entry may be absent or null, which the view's
   direct indexing and iteration tell apart.
   */
  datatype Brief = Brief(
    id: int,
    title: string,
    status: string,
    createdAt: Stamp,
    publishedAt: Stamp,
    applicationsClosedAt: Stamp,
    awardedBriefResponseId: Json,
    clarificationQuestions: Entry<seq<Dict>>)

  /** The dictionary key of a timestamp field. */
  function KeyName(f: StampField): string
  {
    match f
    case CreatedAt => "createdAt"
    case PublishedAt => "publishedAt"
    case ApplicationsClosedAt => "applicationsClosedAt"
  }

  function StampOf(b: Brief, f: StampField): Stamp
  {
    match f
    case CreatedAt => b.createdAt
    case PublishedAt => b.publishedAt
    case ApplicationsClosedAt => b.applicationsClosedAt
  }

  /** Statuses listed on the dashboard's closed table. */
  const ClosedBriefStatuses: seq<string> := ["closed", "withdrawn", "awarded", "cancelled", "unsuccessful"]

  /** Statuses of briefs that were published and closed, whose responses a buyer may view. */
  const ClosedPublishedBriefStatuses: seq<string> := ["closed", "awarded", "cancelled", "unsuccessful"]

  /** The list `s` with every occurrence of `x` removed, order kept. */
  function Without(s: seq<string>, x: string): (r: seq<string>)
    ensures forall y :: y in r <==> y in s && y != x
    ensures |r| <= |s|
  {
    if s == [] then [] else (if s[0] == x then [] else [s[0]]) + Without(s[1..], x)
  }

  /** The published-closed list is the closed list with exactly "withdrawn" taken out, in the same order. */
  lemma ClosedPublishedIsClosedWithoutWithdrawn()
    ensures ClosedPublishedBriefStatuses == Without(ClosedBriefStatuses, "withdrawn")
    ensures forall s :: s in ClosedPublishedBriefStatuses <==> s in ClosedBriefStatuses && s != "withdrawn"
    ensures "withdrawn" in ClosedBriefStatuses && "withdrawn" !in ClosedPublishedBriefStatuses
  {
  }

  /** Neither "draft" nor "live" is a closed status, so the dashboard's three filters select disjoint statuses. */
  lemma DashboardStatusesDisjoint()
    ensures "draft" !in ClosedBriefStatuses && "live" !in ClosedBriefStatuses
    ensures forall s :: s in ClosedPublishedBriefStatuses ==> s in ClosedBriefStatuses
  {
  }
}
