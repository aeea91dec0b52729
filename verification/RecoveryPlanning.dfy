/** Building recovery plans page by page (src/capture/recovery.ts:61-97). */
module RecoveryPlanning {
  import opened Prelude
  import opened CaptureRecords
  import opened SpoolTables
  import opened Recovery

  const PAGE_ROWS: nat := 200

  datatype Skipped = Skipped(id: DeliveryId, reason: Ineligibility)

  /** The body of a plan, without the fields that name the build. */
  datatype Page = Page(selections: seq<Selection>, ineligible: seq<Skipped>, nextCursor: Option<DeliveryId>)

  ghost predicate Increasing(ids: seq<DeliveryId>) {
    forall i, j :: 0 <= i < j < |ids| ==> ids[i] < ids[j]
  }

  /** The spool and the repository that a walk over all pages looks at; neither changes while it lasts. */
  datatype Query = Query(spool: Spool, experience: Experience, repositoryId: string)
  {
    function Candidates(): set<DeliveryId> {
      set id | id in spool.records.Keys + spool.quarantine.Keys
    }

    predicate InScope(id: DeliveryId)
      requires IsCandidate(spool, id)
    {
      RecordScope(CandidateOf(spool, id).payload, experience) == Some(repositoryId)
    }

    predicate Selects(id: DeliveryId)
      requires IsCandidate(spool, id)
    {
      InScope(id) && IneligibilityOf(CandidateOf(spool, id)).None?
    }

    predicate Skips(id: DeliveryId)
      requires IsCandidate(spool, id)
    {
      InScope(id) && IneligibilityOf(CandidateOf(spool, id)).Some?
    }

    ghost predicate Known(ids: seq<DeliveryId>) {
      forall id :: id in ids ==> IsCandidate(spool, id)
    }

    /** The selections a plan makes of the rows, in order. */
    function Selected(ids: seq<DeliveryId>): seq<Selection>
      requires Known(ids)
    {
      if ids == [] then [] else
        var id := ids[|ids| - 1];
        Selected(ids[..|ids| - 1]) + if Selects(id) then [SelectionFor(CandidateOf(spool, id))] else []
    }

    function Rejected(ids: seq<DeliveryId>): seq<Skipped>
      requires Known(ids)
    {
      if ids == [] then [] else
        var id := ids[|ids| - 1];
        Rejected(ids[..|ids| - 1])
        + if Skips(id) then [Skipped(id, IneligibilityOf(CandidateOf(spool, id)).value)] else []
    }

    /** The candidates after the cursor, in order. */
    ghost predicate IsTail(cursor: Option<DeliveryId>, ids: seq<DeliveryId>) {
      && Increasing(ids)
      && forall id :: id in ids <==> id in Candidates() && (cursor.None? || id > cursor.value)
    }

    /** Where a page ends: at the row that fills the selection limit, or after two hundred rows. */
    function End(rows: seq<DeliveryId>, limit: nat, from: nat): (end: nat)
      requires Known(rows) && from <= |rows|
      ensures from <= end <= |rows|
      ensures from < |rows| && from < PAGE_ROWS ==> end > from
      decreases |rows| - from
    {
      if from == |rows| || from >= PAGE_ROWS then from
      else if |Selected(rows[..from + 1])| >= limit then from + 1
      else End(rows, limit, from + 1)
    }

    function PageOf(rows: seq<DeliveryId>, limit: nat): Page
      requires Known(rows)
    {
      var end := End(rows, limit, 0);
      var exhausted := |rows| <= PAGE_ROWS && end == |rows|;
      Page(Selected(rows[..end]), Rejected(rows[..end]), if exhausted || end == 0 then None else Some(rows[end - 1]))
    }

    lemma PageBegins(rows: seq<DeliveryId>, limit: nat)
      requires Known(rows)
      ensures Selected(rows[..0]) == [] && Rejected(rows[..0]) == []
    {
    }

    lemma PageGoesOn(rows: seq<DeliveryId>, limit: nat, i: nat)
      requires Known(rows) && i < |rows| && i < PAGE_ROWS
      ensures var candidate := CandidateOf(spool, rows[i]);
        && Selected(rows[..i + 1]) == Selected(rows[..i]) + (if Selects(rows[i]) then [SelectionFor(candidate)] else [])
        && Rejected(rows[..i + 1]) ==
           Rejected(rows[..i]) + (if Skips(rows[i]) then [Skipped(rows[i], IneligibilityOf(candidate).value)] else [])
      ensures End(rows, limit, i) == if |Selected(rows[..i + 1])| >= limit then i + 1 else End(rows, limit, i + 1)
    {
      assert rows[..i + 1][..i] == rows[..i];
    }

    lemma PageEnds(rows: seq<DeliveryId>, limit: nat, i: nat)
      requires Known(rows) && i <= |rows|
      ensures i == |rows| || i >= PAGE_ROWS ==> End(rows, limit, i) == i
    {
    }

    /**
     * One plan from the rows of the page query, of which there is one more than a page looks at; None for a bad limit.
     */
    method CreatePage(rows: seq<DeliveryId>, limit: int) returns (page: Option<Page>)
      requires Known(rows) && Increasing(rows) && |rows| <= PAGE_ROWS + 1
      ensures page == if 1 <= limit <= 100 then Some(PageOf(rows, limit)) else None
    {
      if limit < 1 || limit > 100 {
        return None;
      }
      hide End, Selected, Rejected, RecordScope, IneligibilityOf;
      PageBegins(rows, limit);
      var selections: seq<Selection> := [];
      var ineligible: seq<Skipped> := [];
      var lastCursor: Option<DeliveryId> := None;
      var i := 0;
      while i < |rows| && i < PAGE_ROWS
        invariant 0 <= i <= |rows| && i <= PAGE_ROWS
        invariant selections == Selected(rows[..i]) && ineligible == Rejected(rows[..i]) && |selections| < limit
        invariant lastCursor == if i == 0 then None else Some(rows[i - 1])
        invariant End(rows, limit, 0) == End(rows, limit, i)
      {
        var id := rows[i];
        PageGoesOn(rows, limit, i);
        i := i + 1;
        lastCursor := Some(id);
        if RecordScope(CandidateOf(spool, id).payload, experience) != Some(repositoryId) {
          continue;
        }
        var reason := IneligibilityOf(CandidateOf(spool, id));
        if reason.Some? {
          ineligible := ineligible + [Skipped(id, reason.value)];
        } else {
          selections := selections + [SelectionFor(CandidateOf(spool, id))];
        }
        if |selections| >= limit {
          break;
        }
      }
      PageEnds(rows, limit, i);
      assert End(rows, limit, 0) == i && selections == Selected(rows[..i]) && ineligible == Rejected(rows[..i]);
      assert lastCursor == if i == 0 then None else Some(rows[i - 1]);
      assert 0 < i < |rows| ==> rows[i - 1] < rows[|rows| - 1];
      var exhausted := |rows| <= PAGE_ROWS && (lastCursor.None? || lastCursor == Some(rows[|rows| - 1]));
      assert exhausted <==> |rows| <= PAGE_ROWS && i == |rows|;
      return Some(Page(selections, ineligible, if exhausted then None else lastCursor));
    }

    /** A page stops where it is full, at its two hundredth row or at the last row, whichever comes first. */
    lemma {:induction false} PageStops(rows: seq<DeliveryId>, limit: nat, from: nat)
      requires Known(rows) && from <= |rows| && from <= 200 && limit > 0 && |Selected(rows[..from])| < limit
      ensures var end := End(rows, limit, from);
        && end <= 200 && |Selected(rows[..end])| <= limit
        && (end == |rows| || end == 200 || |Selected(rows[..end])| == limit)
        && forall n :: from <= n < end ==> |Selected(rows[..n])| < limit
      decreases |rows| - from
    {
      if from < |rows| && from < 200 {
        PageGoesOn(rows, limit, from);
        if |Selected(rows[..from + 1])| < limit {
          PageStops(rows, limit, from + 1);
        }
      }
    }

    // ---- following the cursor ----

    function FirstRows(ids: seq<DeliveryId>): (rows: seq<DeliveryId>)
      ensures forall id :: id in rows ==> id in ids
    {
      if |ids| <= PAGE_ROWS + 1 then ids else ids[..PAGE_ROWS + 1]
    }

    /** Only the rows a page looks at decide where it ends. */
    lemma EndOfFirstRows(ids: seq<DeliveryId>, limit: nat, from: nat)
      requires Known(ids) && from <= |FirstRows(ids)| && from <= PAGE_ROWS
      ensures End(FirstRows(ids), limit, from) == End(ids, limit, from) <= PAGE_ROWS
      decreases |ids| - from
    {
      if from < |ids| && from < PAGE_ROWS {
        assert FirstRows(ids)[..from + 1] == ids[..from + 1];
        if |Selected(ids[..from + 1])| < limit {
          EndOfFirstRows(ids, limit, from + 1);
        }
      }
    }

    /** The pages from here on, when each plan is made with the cursor of the one before. */
    function Walk(ids: seq<DeliveryId>, limit: nat): (pages: seq<Page>)
      requires Known(ids)
      ensures pages != []
      decreases |ids|
    {
      var page := PageOf(FirstRows(ids), limit);
      if page.nextCursor.None? then [page] else
        [page] + Walk(ids[End(FirstRows(ids), limit, 0)..], limit)
    }

    /** The rows after the cursor of a page are the rows that the page did not look at. */
    lemma NextRows(cursor: Option<DeliveryId>, ids: seq<DeliveryId>, end: nat)
      requires IsTail(cursor, ids) && 0 < end <= |ids|
      ensures cursor.Some? ==> ids[end - 1] > cursor.value
      ensures IsTail(Some(ids[end - 1]), ids[end..])
    {
      var last := ids[end - 1];
      var rest := ids[end..];
      assert last in ids;
      forall id ensures id in rest <==> id in Candidates() && id > last {
        if id in rest {
          var i :| 0 <= i < |rest| && rest[i] == id;
          assert ids[end + i] == id && id in ids;
        }
        if id in Candidates() && id > last {
          assert id in ids;
          var i :| 0 <= i < |ids| && ids[i] == id;
          assert i >= end;
          assert rest[i - end] == id;
        }
      }
    }

    lemma {:induction false} Split(a: seq<DeliveryId>, b: seq<DeliveryId>)
      requires Known(a) && Known(b)
      ensures Known(a + b) && Selected(a + b) == Selected(a) + Selected(b)
              && Rejected(a + b) == Rejected(a) + Rejected(b)
    {
      if b == [] {
        assert a + b == a;
      } else {
        Split(a, b[..|b| - 1]);
        assert (a + b)[..|a + b| - 1] == a + b[..|b| - 1];
      }
    }

    /** The cursors of the pages increase, start after the given one, and only the last page has none. */
    ghost predicate CursorsIncrease(cursor: Option<DeliveryId>, pages: seq<Page>)
      requires pages != []
    {
      && pages[|pages| - 1].nextCursor.None?
      && (forall i :: 0 <= i < |pages| - 1 ==> pages[i].nextCursor.Some?)
      && (forall i, j :: 0 <= i < j < |pages| - 1 ==> pages[i].nextCursor.value < pages[j].nextCursor.value)
      && (forall i :: 0 <= i < |pages| - 1 && cursor.Some? ==> cursor.value < pages[i].nextCursor.value)
    }

    lemma OneMorePage(cursor: Option<DeliveryId>, page: Page, rest: seq<Page>)
      requires rest != [] && page.nextCursor.Some? && CursorsIncrease(page.nextCursor, rest)
      requires cursor.Some? ==> page.nextCursor.value > cursor.value
      ensures CursorsIncrease(cursor, [page] + rest)
    {
      var pages := [page] + rest;
      forall i, j | 0 <= i < j < |pages| - 1 ensures pages[i].nextCursor.value < pages[j].nextCursor.value {
        assert pages[j] == rest[j - 1];
        if i > 0 { assert pages[i] == rest[i - 1]; }
      }
    }

    /**
     * Paging is complete. Whatever the limit, the pages of a walk over an unchanged spool list, in order, every
     * selection and every ineligible row that a single plan over all candidates would list; the cursors only increase.
     */
    lemma {:induction false} PagingIsComplete(cursor: Option<DeliveryId>, ids: seq<DeliveryId>, limit: nat)
      requires 1 <= limit <= 100 && IsTail(cursor, ids) && Known(ids)
      ensures AllSelections(Walk(ids, limit)) == Selected(ids)
      ensures AllIneligible(Walk(ids, limit)) == Rejected(ids)
      ensures CursorsIncrease(cursor, Walk(ids, limit))
      decreases |ids|
    {
      hide Selected, Rejected, PageOf, FirstRows, End, IsTail, CursorsIncrease;
      var page := PageOf(FirstRows(ids), limit);
      var end := End(FirstRows(ids), limit, 0);
      FirstPage(ids, limit);
      if page.nextCursor.None? {
        assert [page][1..] == [];
        OnlyPage(cursor, page);
      } else {
        var rest := Walk(ids[end..], limit);
        NextRows(cursor, ids, end);
        PagingIsComplete(page.nextCursor, ids[end..], limit);
        Split(ids[..end], ids[end..]);
        assert ids[..end] + ids[end..] == ids;
        assert ([page] + rest)[1..] == rest;
        OneMorePage(cursor, page, rest);
      }
    }

    /** What the first page lists, and when there is another one. */
    lemma FirstPage(ids: seq<DeliveryId>, limit: nat)
      requires Known(ids)
      ensures var end := End(FirstRows(ids), limit, 0); var page := PageOf(FirstRows(ids), limit);
        && end <= |ids| && page.selections == Selected(ids[..end]) && page.ineligible == Rejected(ids[..end])
        && (page.nextCursor.None? ==> ids[..end] == ids)
        && (page.nextCursor.Some? ==> end > 0 && page.nextCursor == Some(ids[end - 1]))
    {
      hide Selected, Rejected;
      var end := End(FirstRows(ids), limit, 0);
      EndOfFirstRows(ids, limit, 0);
      assert FirstRows(ids)[..end] == ids[..end];
    }

    lemma OnlyPage(cursor: Option<DeliveryId>, page: Page)
      requires page.nextCursor.None?
      ensures CursorsIncrease(cursor, [page])
    {
    }

    /** No row is listed twice in a list of increasing rows: the listed ids increase too. */
    lemma {:induction false} ListedInOrder(ids: seq<DeliveryId>)
      requires Known(ids) && Increasing(ids)
      ensures forall i :: 0 <= i < |Selected(ids)| ==> Selected(ids)[i].id in ids && Selects(Selected(ids)[i].id)
      ensures forall i :: 0 <= i < |Rejected(ids)| ==> Rejected(ids)[i].id in ids && Skips(Rejected(ids)[i].id)
      ensures forall i, j :: 0 <= i < j < |Selected(ids)| ==> Selected(ids)[i].id < Selected(ids)[j].id
      ensures forall i, j :: 0 <= i < j < |Rejected(ids)| ==> Rejected(ids)[i].id < Rejected(ids)[j].id
    {
      if ids != [] {
        var front := ids[..|ids| - 1];
        ListedInOrder(front);
        assert forall id :: id in front ==> id in ids && id < ids[|ids| - 1];
      }
    }

    /**
     * Every row in scope is listed: as a selection exactly when it is eligible, as ineligible exactly when it is not.
     */
    lemma {:induction false} EveryRowListed(ids: seq<DeliveryId>, id: DeliveryId)
      requires Known(ids) && id in ids
      ensures Selects(id) ==> SelectionFor(CandidateOf(spool, id)) in Selected(ids)
      ensures Skips(id) ==> Skipped(id, IneligibilityOf(CandidateOf(spool, id)).value) in Rejected(ids)
    {
      var front := ids[..|ids| - 1];
      if id in front {
        EveryRowListed(front, id);
      } else {
        assert ids == front + [ids[|ids| - 1]];
      }
    }
  }

  function AllSelections(pages: seq<Page>): seq<Selection> {
    if pages == [] then [] else pages[0].selections + AllSelections(pages[1..])
  }

  function AllIneligible(pages: seq<Page>): seq<Skipped> {
    if pages == [] then [] else pages[0].ineligible + AllIneligible(pages[1..])
  }
}
