/**
 The buyer's dashboards: `buyer_dashboard`, which decides whether the buyer has
 any direct-award projects, and `buyer_dos_requirements`, which splits the
 buyer's briefs into draft, live and closed tables, each newest first.
 */
module Dashboard {
  import opened PyValues
  import opened Briefs

  // ---------------------------------------------------------------------------
  // buyer_dashboard
  // ---------------------------------------------------------------------------

  /**
   `user_has_projects`: `bool(awaiting or all_projects)` over the two project
   counts, the locked projects awaiting an outcome and all of the buyer's
   projects. The second count comes from an API call the view makes only when
   the first is zero; here it is passed in as already fetched.
   */
  function UserHasProjects(awaitingOutcomesTotal: int, allProjectsTotal: int): (r: bool)
    ensures r <==> awaitingOutcomesTotal != 0 || allProjectsTotal != 0
  {
    Truthy(Or(JInt(awaitingOutcomesTotal), JInt(allProjectsTotal)))
  }

  /**
   When some project awaits an outcome, `or` yields the first count without
   looking at the second, so the second call can be skipped: any value gives
   the same answer.
   */
  lemma UserHasProjectsShortCircuits(awaitingOutcomesTotal: int, t1: int, t2: int)
    requires awaitingOutcomesTotal != 0
    ensures Or(JInt(awaitingOutcomesTotal), JInt(t1)) == Or(JInt(awaitingOutcomesTotal), JInt(t2))
    ensures UserHasProjects(awaitingOutcomesTotal, t1) && UserHasProjects(awaitingOutcomesTotal, t2)
  {
  }

  // ---------------------------------------------------------------------------
  // Status filters
  // ---------------------------------------------------------------------------

  /** The list comprehension `[brief for brief in briefs if brief['status'] in statuses]`. */
  function WithStatusIn(briefs: seq<Brief>, statuses: seq<string>): (r: seq<Brief>)
    ensures forall i :: 0 <= i < |r| ==> r[i].status in statuses
    ensures |r| <= |briefs|
  {
    if briefs == [] then []
    else (if briefs[0].status in statuses then [briefs[0]] else []) + WithStatusIn(briefs[1..], statuses)
  }

  /** The filter keeps each brief whose status is listed, as often as in the input, and drops every other brief. */
  lemma {:induction false} WithStatusInCounts(briefs: seq<Brief>, statuses: seq<string>)
    ensures forall b :: multiset(WithStatusIn(briefs, statuses))[b] ==
                          if b.status in statuses then multiset(briefs)[b] else 0
  {
    if briefs != [] {
      assert briefs == [briefs[0]] + briefs[1..];
      WithStatusInCounts(briefs[1..], statuses);
    }
  }

  /**
   The filter keeps input order: filtering a concatenation concatenates the
   filtered parts, and a single brief is kept exactly when its status is
   listed.
   */
  lemma {:induction false} WithStatusInKeepsOrder(a: seq<Brief>, b: seq<Brief>, statuses: seq<string>)
    ensures WithStatusIn(a + b, statuses) == WithStatusIn(a, statuses) + WithStatusIn(b, statuses)
    ensures |a| == 1 ==> WithStatusIn(a, statuses) == if a[0].status in statuses then a else []
  {
    if a != [] {
      var h := if a[0].status in statuses then [a[0]] else [];
      assert (a + b)[0] == a[0] && (a + b)[1..] == a[1..] + b;
      assert WithStatusIn(a + b, statuses) == h + WithStatusIn(a[1..] + b, statuses);
      assert WithStatusIn(a, statuses) == h + WithStatusIn(a[1..], statuses);
      WithStatusInKeepsOrder(a[1..], b, statuses);
      assert h + (WithStatusIn(a[1..], statuses) + WithStatusIn(b, statuses)) == (h + WithStatusIn(a[1..], statuses)) + WithStatusIn(b, statuses);
    } else {
      assert a + b == b;
    }
  }

  // ---------------------------------------------------------------------------
  // sorted(..., key=strptime(brief[field]), reverse=True)
  // ---------------------------------------------------------------------------

  /** The sort key of a brief; only read once every brief of the list is known to carry a parseable stamp. */
  function Key(b: Brief, f: StampField): int
  {
    match StampOf(b, f)
    case At(t) => t
    case _ => 0
  }

  /** The exception the key function raises on `b`, if any. */
  function StampError(b: Brief, f: StampField): (e: Option<PyError>)
    ensures e.None? <==> StampOf(b, f).At?
  {
    match StampOf(b, f)
    case Missing => Some(KeyError(KeyName(f)))
    case NonString => Some(TypeError(KeyName(f)))
    case Malformed => Some(ValueError(KeyName(f)))
    case At(_) => None
  }

  /**
   `sorted` applies the key function to the elements in order before
   comparing any, so the exception that escapes is that of the first brief
   whose stamp is absent or does not parse.
   */
  function FirstStampError(s: seq<Brief>, f: StampField): (e: Option<PyError>)
    ensures e.None? <==> forall i :: 0 <= i < |s| ==> StampOf(s[i], f).At?
    ensures e.Some? ==> exists i :: 0 <= i < |s| && e == StampError(s[i], f) &&
                          forall j :: 0 <= j < i ==> StampOf(s[j], f).At?
  {
    if s == [] then None
    else if StampError(s[0], f).Some? then StampError(s[0], f)
    else
      var e := FirstStampError(s[1..], f);
      if e.Some? then
        var i :| 0 <= i < |s[1..]| && e == StampError(s[1..][i], f) &&
                 forall j :: 0 <= j < i ==> StampOf(s[1..][j], f).At?;
        assert e == StampError(s[i + 1], f);
        e
      else e
  }

  /** Newest first: keys never increase along the list. */
  ghost predicate NewestFirst(s: seq<Brief>, f: StampField)
  {
    forall i, j :: 0 <= i < j < |s| ==> Key(s[i], f) >= Key(s[j], f)
  }

  /** The subsequence of `s` whose key is `k`, in order. */
  function WithKey(s: seq<Brief>, f: StampField, k: int): seq<Brief>
  {
    if s == [] then [] else (if Key(s[0], f) == k then [s[0]] else []) + WithKey(s[1..], f, k)
  }

  lemma {:induction false} WithKeyConcat(a: seq<Brief>, b: seq<Brief>, f: StampField, k: int)
    ensures WithKey(a + b, f, k) == WithKey(a, f, k) + WithKey(b, f, k)
  {
    if a == [] {
      assert a + b == b;
    } else {
      var h := if Key(a[0], f) == k then [a[0]] else [];
      assert (a + b)[0] == a[0] && (a + b)[1..] == a[1..] + b;
      WithKeyConcat(a[1..], b, f, k);
      assert h + (WithKey(a[1..], f, k) + WithKey(b, f, k)) == (h + WithKey(a[1..], f, k)) + WithKey(b, f, k);
    }
  }

  /** Filtering by status and picking one key class can be done in either order. */
  lemma {:induction false} StatusAndKeyFiltersCommute(s: seq<Brief>, statuses: seq<string>, f: StampField, k: int)
    ensures WithKey(WithStatusIn(s, statuses), f, k) == WithStatusIn(WithKey(s, f, k), statuses)
  {
    if s != [] {
      var h1 := if s[0].status in statuses then [s[0]] else [];
      var h2 := if Key(s[0], f) == k then [s[0]] else [];
      StatusAndKeyFiltersCommute(s[1..], statuses, f, k);
      WithKeyConcat(h1, WithStatusIn(s[1..], statuses), f, k);
      WithStatusInKeepsOrder(h2, WithKey(s[1..], f, k), statuses);
      assert WithKey(h1, f, k) == WithStatusIn(h2, statuses) by {
        if h1 != [] { assert h1[1..] == []; }
        if h2 != [] { assert h2[1..] == []; }
      }
    }
  }

  /**
   `r` is what a stable sort of `s` by descending key yields: newest first, a
   permutation of `s`, and briefs with equal keys in their order in `s`.
   */
  ghost predicate StablyNewestFirst(r: seq<Brief>, s: seq<Brief>, f: StampField)
  {
    && NewestFirst(r, f)
    && multiset(r) == multiset(s)
    && forall k :: WithKey(r, f, k) == WithKey(s, f, k)
  }

  /** Put `x` before the first brief whose key is not greater than its own. */
  function Insert(x: Brief, s: seq<Brief>, f: StampField): seq<Brief>
  {
    if s == [] || Key(s[0], f) <= Key(x, f) then [x] + s
    else [s[0]] + Insert(x, s[1..], f)
  }

  /** Stable insertion sort, newest first. */
  function SortNewestFirst(s: seq<Brief>, f: StampField): seq<Brief>
  {
    if s == [] then [] else Insert(s[0], SortNewestFirst(s[1..], f), f)
  }

  lemma {:induction false} InsertPermutes(x: Brief, s: seq<Brief>, f: StampField)
    ensures multiset(Insert(x, s, f)) == multiset(s) + multiset{x}
  {
    if s != [] && Key(s[0], f) > Key(x, f) {
      InsertPermutes(x, s[1..], f);
      assert s == [s[0]] + s[1..];
    }
  }

  lemma {:induction false} InsertKeepsNewestFirst(x: Brief, s: seq<Brief>, f: StampField)
    requires NewestFirst(s, f)
    ensures NewestFirst(Insert(x, s, f), f)
    ensures |Insert(x, s, f)| == |s| + 1
    ensures Insert(x, s, f)[0] == x || (s != [] && Insert(x, s, f)[0] == s[0])
  {
    if s != [] && Key(s[0], f) > Key(x, f) {
      var t := Insert(x, s[1..], f);
      assert NewestFirst(s[1..], f) by {
        forall i, j | 0 <= i < j < |s[1..]| ensures Key(s[1..][i], f) >= Key(s[1..][j], f) {
          assert s[1..][i] == s[i + 1] && s[1..][j] == s[j + 1];
        }
      }
      InsertKeepsNewestFirst(x, s[1..], f);
      assert Key(s[0], f) >= Key(t[0], f);
      var r := [s[0]] + t;
      forall i, j | 0 <= i < j < |r| ensures Key(r[i], f) >= Key(r[j], f) {
        if i == 0 {
          assert r[j] == t[j - 1];
          if j > 1 { assert Key(t[0], f) >= Key(t[j - 1], f); }
        } else {
          assert r[i] == t[i - 1] && r[j] == t[j - 1];
        }
      }
    }
  }

  /** Inserting `x` where the sort puts it does not change the order of any key class. */
  lemma {:induction false} InsertKeepsKeyOrder(x: Brief, s: seq<Brief>, f: StampField, k: int)
    ensures WithKey(Insert(x, s, f), f, k) == WithKey([x] + s, f, k)
  {
    assert ([x] + s)[1..] == s;
    if s != [] && Key(s[0], f) > Key(x, f) {
      InsertKeepsKeyOrder(x, s[1..], f, k);
      assert ([s[0]] + Insert(x, s[1..], f))[1..] == Insert(x, s[1..], f);
      assert ([x] + s[1..])[1..] == s[1..];
    }
  }

  lemma {:induction false} SortPermutes(s: seq<Brief>, f: StampField)
    ensures multiset(SortNewestFirst(s, f)) == multiset(s)
  {
    if s != [] {
      SortPermutes(s[1..], f);
      InsertPermutes(s[0], SortNewestFirst(s[1..], f), f);
      assert s == [s[0]] + s[1..];
    }
  }

  lemma {:induction false} SortOrders(s: seq<Brief>, f: StampField)
    ensures NewestFirst(SortNewestFirst(s, f), f)
  {
    if s != [] {
      SortOrders(s[1..], f);
      InsertKeepsNewestFirst(s[0], SortNewestFirst(s[1..], f), f);
    }
  }

  lemma {:induction false} SortKeepsKeyOrder(s: seq<Brief>, f: StampField, k: int)
    ensures WithKey(SortNewestFirst(s, f), f, k) == WithKey(s, f, k)
  {
    if s != [] {
      var t := SortNewestFirst(s[1..], f);
      SortKeepsKeyOrder(s[1..], f, k);
      InsertKeepsKeyOrder(s[0], t, f, k);
      assert ([s[0]] + t)[1..] == t;
    }
  }

  /** The sort is stable, newest first, and a permutation. */
  lemma SortIsStablyNewestFirst(s: seq<Brief>, f: StampField)
    ensures StablyNewestFirst(SortNewestFirst(s, f), s, f)
  {
    SortPermutes(s, f);
    SortOrders(s, f);
    forall k ensures WithKey(SortNewestFirst(s, f), f, k) == WithKey(s, f, k) {
      SortKeepsKeyOrder(s, f, k);
    }
  }

  // Uniqueness: the three properties determine the sorted list.

  lemma {:induction false} HeadHasLargestKey(a: seq<Brief>, b: Brief, f: StampField)
    requires NewestFirst(a, f) && b in multiset(a)
    ensures Key(b, f) <= Key(a[0], f)
  {
  }

  /** Two newest-first permutations of each other whose key classes agree start with the same brief. */
  lemma {:induction false} SameHead(a: seq<Brief>, b: seq<Brief>, f: StampField)
    requires a != [] && b != []
    requires NewestFirst(a, f) && NewestFirst(b, f)
    requires multiset(a) == multiset(b)
    requires forall k :: WithKey(a, f, k) == WithKey(b, f, k)
    ensures a[0] == b[0]
  {
    assert a[0] in multiset(b) && b[0] in multiset(a);
    HeadHasLargestKey(b, a[0], f);
    HeadHasLargestKey(a, b[0], f);
    var k := Key(a[0], f);
    assert Key(b[0], f) == k;
    assert WithKey(a, f, k) == [a[0]] + WithKey(a[1..], f, k);
    assert WithKey(b, f, k) == [b[0]] + WithKey(b[1..], f, k);
    assert WithKey(a, f, k)[0] == a[0];
    assert WithKey(b, f, k)[0] == b[0];
  }

  lemma NewestFirstTail(a: seq<Brief>, f: StampField)
    requires a != [] && NewestFirst(a, f)
    ensures NewestFirst(a[1..], f)
  {
  }

  lemma MultisetTail(a: seq<Brief>, b: seq<Brief>)
    requires a != [] && b != [] && a[0] == b[0] && multiset(a) == multiset(b)
    ensures multiset(a[1..]) == multiset(b[1..])
  {
    assert a == [a[0]] + a[1..] && b == [b[0]] + b[1..];
    assert multiset(a[1..]) == multiset(a) - multiset{a[0]};
    assert multiset(b[1..]) == multiset(b) - multiset{b[0]};
  }

  lemma WithKeyTail(a: seq<Brief>, b: seq<Brief>, f: StampField, k: int)
    requires a != [] && b != [] && a[0] == b[0] && WithKey(a, f, k) == WithKey(b, f, k)
    ensures WithKey(a[1..], f, k) == WithKey(b[1..], f, k)
  {
    var p := if Key(a[0], f) == k then [a[0]] else [];
    assert WithKey(a, f, k) == p + WithKey(a[1..], f, k);
    assert WithKey(b, f, k) == p + WithKey(b[1..], f, k);
    assert WithKey(a[1..], f, k) == WithKey(a, f, k)[|p|..];
    assert WithKey(b[1..], f, k) == WithKey(b, f, k)[|p|..];
  }

  lemma {:induction false} StablyNewestFirstUnique(a: seq<Brief>, b: seq<Brief>, f: StampField)
    requires NewestFirst(a, f) && NewestFirst(b, f)
    requires multiset(a) == multiset(b)
    requires forall k :: WithKey(a, f, k) == WithKey(b, f, k)
    ensures a == b
    decreases |a|
  {
    if a == [] || b == [] {
      assert |multiset(a)| == |a| && |multiset(b)| == |b|;
    } else {
      SameHead(a, b, f);
      MultisetTail(a, b);
      NewestFirstTail(a, f);
      NewestFirstTail(b, f);
      forall k ensures WithKey(a[1..], f, k) == WithKey(b[1..], f, k) {
        WithKeyTail(a, b, f, k);
      }
      StablyNewestFirstUnique(a[1..], b[1..], f);
      assert a == [a[0]] + a[1..] && b == [b[0]] + b[1..];
    }
  }

  /** The sort is the only stable newest-first permutation: the specification determines the result. */
  lemma SortNewestFirstCharacterised(r: seq<Brief>, s: seq<Brief>, f: StampField)
    ensures StablyNewestFirst(r, s, f) <==> r == SortNewestFirst(s, f)
  {
    SortIsStablyNewestFirst(s, f);
    if StablyNewestFirst(r, s, f) {
      StablyNewestFirstUnique(r, SortNewestFirst(s, f), f);
    }
  }

  /**
   `sorted(s, key=lambda i: strptime(i[field]), reverse=True)`: the exception
   of the first brief without a parseable stamp, or the stable newest-first
   order of `s`.
   */
  function SortedByStamp(s: seq<Brief>, f: StampField): (r: Result<seq<Brief>, PyError>)
    ensures r.Failure? <==> exists i :: 0 <= i < |s| && !StampOf(s[i], f).At?
    ensures r.Failure? ==> r == Failure(FirstStampError(s, f).value)
    ensures r.Success? ==> StablyNewestFirst(r.value, s, f)
  {
    SortIsStablyNewestFirst(s, f);
    match FirstStampError(s, f)
    case Some(e) => Failure(e)
    case None => Success(SortNewestFirst(s, f))
  }

  // ---------------------------------------------------------------------------
  // buyer_dos_requirements
  // ---------------------------------------------------------------------------

  /** The helper that annotates the draft briefs with their unanswered-question counts. */
  type DraftAnnotation = seq<Brief> -> seq<Brief>

  datatype DashboardTables = DashboardTables(draft: seq<Brief>, live: seq<Brief>, closed: seq<Brief>)

  /**
   The briefs of the API's `find_briefs` payload, read with
   `.get('briefs', [])`: an absent key gives the empty list. A null entry
   gives None, which the first comprehension fails to iterate; that case is
   handled by `DosRequirements` before this list is used.
   */
  function FoundBriefs(found: Entry<seq<Brief>>): seq<Brief>
  {
    if found.Present? then found.value else []
  }

  /** Every brief of `s` carries a parseable `f` stamp. */
  predicate AllStamped(s: seq<Brief>, f: StampField)
  {
    forall i :: 0 <= i < |s| ==> StampOf(s[i], f).At?
  }

  /**
   The three dashboard tables built from the API's `find_briefs` payload
   (`found` is its "briefs" entry). A null entry makes the draft
   comprehension raise TypeError. `addUnansweredCounts` stands for the helper
   that annotates the draft briefs before they are sorted. The tables are
   computed in the order draft, live, closed, so the first failing one
   decides the exception.
   */
  function DosRequirements(found: Entry<seq<Brief>>, addUnansweredCounts: DraftAnnotation): (r: Result<DashboardTables, PyError>)
    ensures
      var briefs := FoundBriefs(found);
      var drafts := addUnansweredCounts(WithStatusIn(briefs, ["draft"]));
      var live := WithStatusIn(briefs, ["live"]);
      var closed := WithStatusIn(briefs, ClosedBriefStatuses);
      && (found.Null? ==> r == Failure(TypeError("briefs")))
      && (r.Success? <==>
            !found.Null? && AllStamped(drafts, CreatedAt) && AllStamped(live, PublishedAt) &&
            AllStamped(closed, ApplicationsClosedAt))
      && (r.Failure? && !found.Null? ==>
            r.error == (if !AllStamped(drafts, CreatedAt) then FirstStampError(drafts, CreatedAt)
                        else if !AllStamped(live, PublishedAt) then FirstStampError(live, PublishedAt)
                        else FirstStampError(closed, ApplicationsClosedAt)).value)
      && (r.Success? ==>
            && StablyNewestFirst(r.value.draft, drafts, CreatedAt)
            && StablyNewestFirst(r.value.live, live, PublishedAt)
            && StablyNewestFirst(r.value.closed, closed, ApplicationsClosedAt))
  {
    if found.Null? then Failure(TypeError("briefs"))
    else
      var briefs := FoundBriefs(found);
      var draft := SortedByStamp(addUnansweredCounts(WithStatusIn(briefs, ["draft"])), CreatedAt);
      var live := SortedByStamp(WithStatusIn(briefs, ["live"]), PublishedAt);
      var closed := SortedByStamp(WithStatusIn(briefs, ClosedBriefStatuses), ApplicationsClosedAt);
      if draft.Failure? then Failure(draft.error)
      else if live.Failure? then Failure(live.error)
      else if closed.Failure? then Failure(closed.error)
      else Success(DashboardTables(draft.value, live.value, closed.value))
  }

  /**
   The live and closed tables hold exactly the briefs of those statuses, each
   as often as in the input, and no brief of any other status; they share no
   brief.
   */
  lemma DosRequirementsPartition(found: Entry<seq<Brief>>, addUnansweredCounts: DraftAnnotation)
    ensures
      var r := DosRequirements(found, addUnansweredCounts);
      r.Success? ==>
        var briefs := FoundBriefs(found);
        var t := r.value;
        && (forall b :: multiset(t.live)[b] == if b.status == "live" then multiset(briefs)[b] else 0)
        && (forall b :: multiset(t.closed)[b] ==
              if b.status in ClosedBriefStatuses then multiset(briefs)[b] else 0)
        && multiset(t.live) !! multiset(t.closed)
  {
    var r := DosRequirements(found, addUnansweredCounts);
    if r.Success? {
      var briefs := FoundBriefs(found);
      var t := r.value;
      var live, closed := WithStatusIn(briefs, ["live"]), WithStatusIn(briefs, ClosedBriefStatuses);
      assert multiset(t.live) == multiset(live) && multiset(t.closed) == multiset(closed);
      WithStatusInCounts(briefs, ["live"]);
      WithStatusInCounts(briefs, ClosedBriefStatuses);
      DashboardStatusesDisjoint();
      forall b ensures multiset(t.live)[b] == 0 || multiset(t.closed)[b] == 0 {
        assert b.status in ["live"] <==> b.status == "live";
      }
    }
  }

  /**
   Live or closed briefs that share a timestamp appear in their table in the
   order of the API's list, since the filter and the sort both keep it.
   */
  lemma DosRequirementsTiesInInputOrder(found: Entry<seq<Brief>>, addUnansweredCounts: DraftAnnotation, k: int)
    ensures
      var r := DosRequirements(found, addUnansweredCounts);
      r.Success? ==>
        var briefs := FoundBriefs(found);
        var t := r.value;
        && WithKey(t.live, PublishedAt, k) == WithStatusIn(WithKey(briefs, PublishedAt, k), ["live"])
        && WithKey(t.closed, ApplicationsClosedAt, k) ==
             WithStatusIn(WithKey(briefs, ApplicationsClosedAt, k), ClosedBriefStatuses)
  {
    var r := DosRequirements(found, addUnansweredCounts);
    if r.Success? {
      var briefs := FoundBriefs(found);
      StatusAndKeyFiltersCommute(briefs, ["live"], PublishedAt, k);
      StatusAndKeyFiltersCommute(briefs, ClosedBriefStatuses, ApplicationsClosedAt, k);
    }
  }

  /**
   If the draft annotation keeps every brief's status (as adding unanswered
   counts does), the draft table holds only drafts and shares no brief with
   the live and closed tables.
   */
  lemma DosRequirementsDraftsApart(found: Entry<seq<Brief>>, addUnansweredCounts: DraftAnnotation)
    requires
      var d := WithStatusIn(FoundBriefs(found), ["draft"]);
      |addUnansweredCounts(d)| == |d| &&
      forall i :: 0 <= i < |d| ==> addUnansweredCounts(d)[i].status == d[i].status
    ensures
      var r := DosRequirements(found, addUnansweredCounts);
      r.Success? ==>
        var t := r.value;
        && (forall b :: b in t.draft ==> b.status == "draft")
        && multiset(t.draft) !! multiset(t.live)
        && multiset(t.draft) !! multiset(t.closed)
  {
    var r := DosRequirements(found, addUnansweredCounts);
    if r.Success? {
      var briefs := FoundBriefs(found);
      var t := r.value;
      var d := WithStatusIn(briefs, ["draft"]);
      StatusesCarryOver(t.draft, addUnansweredCounts(d), d);
      DashboardStatusesDisjoint();
      DisjointByStatus(t.draft, t.live, WithStatusIn(briefs, ["live"]), ["live"]);
      DisjointByStatus(t.draft, t.closed, WithStatusIn(briefs, ClosedBriefStatuses), ClosedBriefStatuses);
    }
  }

  /** A permutation of a status-preserving image of drafts holds only drafts. */
  lemma StatusesCarryOver(r: seq<Brief>, a: seq<Brief>, d: seq<Brief>)
    requires multiset(r) == multiset(a)
    requires |a| == |d| && forall i :: 0 <= i < |d| ==> a[i].status == d[i].status
    requires forall i :: 0 <= i < |d| ==> d[i].status in ["draft"]
    ensures forall b :: b in r ==> b.status == "draft"
  {
    forall b | b in r ensures b.status == "draft" {
      assert b in multiset(a);
      var m :| 0 <= m < |a| && a[m] == b;
      assert d[m].status in ["draft"];
    }
  }

  /** A list of drafts shares no brief with a permutation of a list of non-drafts. */
  lemma DisjointByStatus(drafts: seq<Brief>, r: seq<Brief>, s: seq<Brief>, statuses: seq<string>)
    requires forall b :: b in drafts ==> b.status == "draft"
    requires "draft" !in statuses
    requires multiset(r) == multiset(s) && forall i :: 0 <= i < |s| ==> s[i].status in statuses
    ensures multiset(drafts) !! multiset(r)
  {
  }
}
