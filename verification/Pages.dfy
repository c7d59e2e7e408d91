/**
 Cursor pages: the three page decoders, and what following their cursors gives.
 */
module Pages {
  import opened Options

  // ----- JavaScript's order on strings

  predicate Less(a: string, b: string)
    decreases |a|
  {
    b != "" && (a == "" || a[0] < b[0] || (a[0] == b[0] && Less(a[1..], b[1..])))
  }

  lemma {:induction false} LessIsTransitive(a: string, b: string, c: string)
    requires Less(a, b) && Less(b, c)
    ensures Less(a, c)
    decreases |a|
  {
    if a != "" && a[0] == b[0] == c[0] {
      LessIsTransitive(a[1..], b[1..], c[1..]);
    }
  }

  lemma {:induction false} LessIsIrreflexive(a: string)
    ensures !Less(a, a)
  {
    if a != "" {
      LessIsIrreflexive(a[1..]);
    }
  }

  lemma {:induction false} LessIsTotal(a: string, b: string)
    ensures Less(a, b) || Less(b, a) || a == b
    decreases |a|
  {
    if a != "" && b != "" && a[0] == b[0] {
      LessIsTotal(a[1..], b[1..]);
    }
  }

  /** The strings agree up to `k`, where the first ends or has the smaller character. */
  predicate DiffersAt(a: string, b: string, k: nat) {
    k <= |a| && k < |b| && a[..k] == b[..k] && (k < |a| ==> a[k] < b[k])
  }

  /** The order is the lexicographic one. */
  lemma {:induction false} LessIffDiffers(a: string, b: string)
    ensures Less(a, b) <==> exists k: nat :: DiffersAt(a, b, k)
    decreases |a|
  {
    if Less(a, b) {
      var k := FirstDifference(a, b);
    }
    if k: nat :| DiffersAt(a, b, k) {
      DifferenceDecides(a, b, k);
    }
  }

  lemma {:induction false} FirstDifference(a: string, b: string) returns (k: nat)
    requires Less(a, b)
    ensures DiffersAt(a, b, k)
    decreases |a|
  {
    if a == "" || a[0] < b[0] {
      k := 0;
    } else {
      k := FirstDifference(a[1..], b[1..]);
      k := k + 1;
      assert a[..k] == [a[0]] + a[1..][..k - 1] && b[..k] == [b[0]] + b[1..][..k - 1];
    }
  }

  lemma {:induction false} DifferenceDecides(a: string, b: string, k: nat)
    requires DiffersAt(a, b, k)
    ensures Less(a, b)
    decreases k
  {
    if k > 0 {
      assert a[0] == a[..k][0] == b[..k][0] == b[0];
      assert a[1..][..k - 1] == a[..k][1..] && b[1..][..k - 1] == b[..k][1..];
      DifferenceDecides(a[1..], b[1..], k - 1);
    }
  }

  /** `a <= b` as JavaScript computes it. */
  predicate AtMost(a: string, b: string) {
    !Less(b, a)
  }

  // ----- the decoders

  datatype Page = Page(ids: seq<string>, next: Option<string>)

  function OrEmpty(after: Option<string>): string {
    if after.Some? then after.value else ""
  }

  /** What the item at `i` is compared with: the item before it, or the cursor. */
  function Before(ids: seq<string>, i: nat, low: string): string
    requires i < |ids|
  {
    if i > 0 then ids[i - 1] else low
  }

  /** The order check shared by the observer and the member pages. */
  predicate OrderedAfter(p: Page, after: Option<string>) {
    && (forall i | 0 <= i < |p.ids| :: !AtMost(p.ids[i], Before(p.ids, i, OrEmpty(after))))
    && (p.next.Some? ==>
          !AtMost(p.next.value, OrEmpty(after)) && forall i | 0 <= i < |p.ids| :: !Less(p.next.value, p.ids[i]))
  }

  datatype Grant = Grant(grantId: string, projectId: string, subject: string, owner: string, active: bool,
                         revocation: Option<string>, expiresAt: int)

  datatype Refusal = Malformed | WrongProject | WrongMachine | OutOfOrder | BadCursor | OutOfScope

  function GrantIds(items: seq<Grant>): seq<string> {
    seq(|items|, i requires 0 <= i < |items| => items[i].grantId)
  }

  /** `decodeObserverPage` after its schema check. */
  function DecodeObserverPage(project: string, items: seq<Grant>, next: Option<string>, principal: string,
                              wanted: string, after: Option<string>, now: int):
    Result<Page, Refusal>
  {
    if project != wanted then Err(OutOfScope)
    else if exists i | 0 <= i < |items| ::
              || items[i].projectId != wanted || items[i].subject != principal || items[i].owner == principal
              || !items[i].active || items[i].revocation.Some? || items[i].expiresAt <= now
    then Err(OutOfScope)
    else if !OrderedAfter(Page(GrantIds(items), next), after) then Err(OutOfOrder)
    else Ok(Page(GrantIds(items), next))
  }

  /** `decodeProjectObserverPage` after its schema check. */
  function DecodeProjectObserverPage(project: string, ids: seq<string>, next: Option<string>, wanted: string,
                                     after: Option<string>): Result<Page, Refusal> {
    if project != wanted then Err(WrongProject)
    else if !OrderedAfter(Page(ids, next), after) then Err(OutOfOrder)
    else Ok(Page(ids, next))
  }

  datatype Execution = Execution(operationId: string, machineId: string, workspaceId: Option<string>)

  function ExecutionIds(items: seq<Execution>): seq<string> {
    seq(|items|, i requires 0 <= i < |items| => items[i].operationId)
  }

  /**
   What the page decoder demands: one machine, ids ascending from the empty string, and a cursor that is the last id.
   */
  predicate ManagedDecodes(machineId: string, items: seq<Execution>, next: Option<string>) {
    && |items| <= 50
    && (forall i | 0 <= i < |items| ::
        items[i].machineId == machineId && Less(Before(ExecutionIds(items), i, ""), items[i].operationId))
    && (next.Some? ==> items != [] && next.value == items[|items| - 1].operationId)
  }

  /** The loop that threads `previous` through the items, then checks the cursor. */
  method DecodeManagedExecutionPage(machineId: string, items: seq<Execution>, next: Option<string>)
    returns (page: Result<Page, Refusal>)
    ensures page.Ok? <==> ManagedDecodes(machineId, items, next)
    ensures page.Ok? ==> page.value == Page(ExecutionIds(items), next)
    ensures page.Err? ==>
              page.error == if |items| > 50 then Malformed
                            else if ManagedDecodes(machineId, items, None) then BadCursor else OutOfOrder
  {
    hide Less;
    if |items| > 50 {
      return Err(Malformed);
    }
    var previous := "";
    var ids: seq<string> := [];
    var i := 0;
    while i < |items|
      invariant 0 <= i <= |items|
      invariant previous == if i > 0 then items[i - 1].operationId else ""
      invariant |ids| == i && forall j | 0 <= j < i :: ids[j] == items[j].operationId
      invariant forall j | 0 <= j < i ::
                items[j].machineId == machineId && Less(Before(ExecutionIds(items), j, ""), items[j].operationId)
    {
      var item := items[i];
      assert previous == Before(ExecutionIds(items), i, "");
      if item.machineId != machineId || AtMost(item.operationId, previous) {
        return Err(OutOfOrder);
      }
      previous := item.operationId;
      ids := ids + [item.operationId];
      i := i + 1;
    }
    if next.Some? && (items == [] || next.value != previous) {
      return Err(BadCursor);
    }
    assert ids == ExecutionIds(items);
    return Ok(Page(ids, next));
  }

  /** What the client then checks against the question it asked. */
  predicate AnswersQuestion(machineId: string, asked: string, items: seq<Execution>, workspace: Option<string>,
                            after: Option<string>) {
    && machineId == asked
    && forall i | 0 <= i < |items| ::
         && (workspace.Some? ==> items[i].workspaceId == workspace)
         && (after.Some? ==> !AtMost(items[i].operationId, after.value))
  }

  // ----- one page

  predicate Ascending(s: seq<string>) {
    forall i, j | 0 <= i < j < |s| :: Less(s[i], s[j])
  }

  predicate AllAbove(s: seq<string>, low: string) {
    forall i | 0 <= i < |s| :: Less(low, s[i])
  }

  /**
   What all three decoders promise of a page: ascending, above the cursor asked for, and a cursor above that and not
   below any item.
   */
  predicate GoodPage(p: Page, after: Option<string>) {
    && Ascending(p.ids)
    && AllAbove(p.ids, OrEmpty(after))
    && (p.next.Some? ==>
          && Less(OrEmpty(after), p.next.value)
          && forall i | 0 <= i < |p.ids| :: p.ids[i] == p.next.value || Less(p.ids[i], p.next.value))
  }

  lemma {:induction false} ChainAscends(s: seq<string>, i: nat, j: nat)
    requires forall k | 1 <= k < |s| :: Less(s[k - 1], s[k])
    requires i < j < |s|
    ensures Less(s[i], s[j])
    decreases j - i
  {
    if i + 1 < j {
      ChainAscends(s, i, j - 1);
      LessIsTransitive(s[i], s[j - 1], s[j]);
    }
  }

  lemma ChainIsAscending(s: seq<string>, low: string)
    requires forall i | 0 <= i < |s| :: Less(Before(s, i, low), s[i])
    ensures Ascending(s) && AllAbove(s, low)
  {
    assert forall k | 1 <= k < |s| :: Before(s, k, low) == s[k - 1];
    assert s != [] ==> Before(s, 0, low) == low;
    forall i, j | 0 <= i < j < |s|
      ensures Less(s[i], s[j])
    {
      ChainAscends(s, i, j);
    }
    forall i | 0 <= i < |s|
      ensures Less(low, s[i])
    {
      if i > 0 {
        ChainAscends(s, 0, i);
        LessIsTransitive(low, s[0], s[i]);
      }
    }
  }

  lemma GoodIsOrdered(p: Page, after: Option<string>)
    requires GoodPage(p, after)
    ensures OrderedAfter(p, after)
  {
    hide Less;
    forall i | p.next.Some? && 0 <= i < |p.ids|
      ensures !Less(p.next.value, p.ids[i])
    {
      LessIsIrreflexive(p.next.value);
      if Less(p.ids[i], p.next.value) && Less(p.next.value, p.ids[i]) {
        LessIsTransitive(p.next.value, p.ids[i], p.next.value);
      }
    }
  }

  lemma OrderedIsGood(p: Page, after: Option<string>)
    requires OrderedAfter(p, after)
    ensures GoodPage(p, after)
  {
    ChainIsAscending(p.ids, OrEmpty(after));
    if p.next.Some? {
      forall i | 0 <= i < |p.ids|
        ensures p.ids[i] == p.next.value || Less(p.ids[i], p.next.value)
      {
        LessIsTotal(p.ids[i], p.next.value);
      }
    }
  }

  lemma ManagedPageIsGood(machineId: string, asked: string, items: seq<Execution>, next: Option<string>,
                          workspace: Option<string>, after: Option<string>)
    requires ManagedDecodes(machineId, items, next) && AnswersQuestion(machineId, asked, items, workspace, after)
    ensures GoodPage(Page(ExecutionIds(items), next), after)
  {
    var ids := ExecutionIds(items);
    assert forall i | 0 <= i < |items| :: ids[i] == items[i].operationId;
    ChainIsAscending(ids, "");
    if next.Some? {
      assert next.value == ids[|ids| - 1];
    }
  }

  /** A live grant of this project to this observer, owned by someone else. */
  predicate InScope(g: Grant, principal: string, wanted: string, now: int) {
    && g.projectId == wanted && g.subject == principal && g.owner != principal
    && g.active && g.revocation.None? && now < g.expiresAt
  }

  /** The decoder accepts exactly the good pages of live grants in scope. */
  lemma ObserverPageIsGood(project: string, items: seq<Grant>, next: Option<string>, principal: string, wanted: string,
                           after: Option<string>, now: int)
    ensures var page := DecodeObserverPage(project, items, next, principal, wanted, after, now);
            var p := Page(GrantIds(items), next);
            && (page.Ok? <==>
                  && GoodPage(p, after) && project == wanted
                  && forall i | 0 <= i < |items| :: InScope(items[i], principal, wanted, now))
            && (page.Ok? ==> page.value == p)
            && (page == Err(OutOfOrder) <==>
                  && !GoodPage(p, after) && project == wanted
                  && forall i | 0 <= i < |items| :: InScope(items[i], principal, wanted, now))
            && (page.Err? ==> page.error == OutOfOrder || page.error == OutOfScope)
  {
    hide Less, GoodPage, OrderedAfter;
    var p := Page(GrantIds(items), next);
    if OrderedAfter(p, after) {
      OrderedIsGood(p, after);
    }
    if GoodPage(p, after) {
      GoodIsOrdered(p, after);
    }
  }

  lemma ProjectObserverPageIsGood(project: string, ids: seq<string>, next: Option<string>, wanted: string,
                                  after: Option<string>)
    ensures var page := DecodeProjectObserverPage(project, ids, next, wanted, after);
            && (page.Ok? <==> GoodPage(Page(ids, next), after) && project == wanted)
            && (page.Ok? ==> page.value == Page(ids, next))
            && (page.Err? ==> page.error == if project == wanted then OutOfOrder else WrongProject)
  {
    hide Less, GoodPage, OrderedAfter;
    if OrderedAfter(Page(ids, next), after) {
      OrderedIsGood(Page(ids, next), after);
    }
    if GoodPage(Page(ids, next), after) {
      GoodIsOrdered(Page(ids, next), after);
    }
  }

  // ----- following cursors

  /** Each page was asked for with the cursor of the page before it. */
  predicate Walk(pages: seq<Page>, after: Option<string>)
    decreases |pages|
  {
    || pages == []
    || (GoodPage(pages[0], after) && (|pages| > 1 ==> pages[0].next.Some?) && Walk(pages[1..], pages[0].next))
  }

  function AllIds(pages: seq<Page>): seq<string> {
    if pages == [] then [] else pages[0].ids + AllIds(pages[1..])
  }

  function Cursors(pages: seq<Page>): seq<string> {
    if pages == [] then [] else (if pages[0].next.Some? then [pages[0].next.value] else []) + Cursors(pages[1..])
  }

  lemma JoinAscends(a: seq<string>, b: seq<string>, low: string, mid: string)
    requires Ascending(a) && AllAbove(a, low) && Ascending(b) && AllAbove(b, mid) && Less(low, mid)
    requires forall i | 0 <= i < |a| :: a[i] == mid || Less(a[i], mid)
    ensures Ascending(a + b) && AllAbove(a + b, low)
  {
    forall i, j | 0 <= i < j < |a + b|
      ensures Less((a + b)[i], (a + b)[j])
    {
      if i < |a| <= j && a[i] != mid {
        LessIsTransitive(a[i], mid, b[j - |a|]);
      }
    }
    forall i | 0 <= i < |a + b|
      ensures Less(low, (a + b)[i])
    {
      if i >= |a| {
        LessIsTransitive(low, mid, b[i - |a|]);
      }
    }
  }

  /**
   Following cursors through any number of accepted pages gives one strictly ascending list, all of it
   above the first cursor; and the cursors themselves strictly ascend.
   */
  lemma {:induction false} WalkAscends(pages: seq<Page>, after: Option<string>)
    requires Walk(pages, after)
    ensures Ascending(AllIds(pages)) && AllAbove(AllIds(pages), OrEmpty(after))
    ensures Ascending(Cursors(pages)) && AllAbove(Cursors(pages), OrEmpty(after))
    decreases |pages|
  {
    if pages != [] {
      var p, rest := pages[0], pages[1..];
      WalkAscends(rest, p.next);
      if p.next.Some? {
        JoinAscends(p.ids, AllIds(rest), OrEmpty(after), p.next.value);
        JoinAscends([p.next.value], Cursors(rest), OrEmpty(after), p.next.value);
      } else {
        assert rest == [];
        assert AllIds(pages) == p.ids && Cursors(pages) == [];
      }
    }
  }

  /** So no item is delivered twice. */
  lemma WalkHasNoDuplicates(pages: seq<Page>, after: Option<string>, i: nat, j: nat)
    requires Walk(pages, after) && i < j < |AllIds(pages)|
    ensures AllIds(pages)[i] != AllIds(pages)[j]
  {
    WalkAscends(pages, after);
    LessIsIrreflexive(AllIds(pages)[i]);
  }

  lemma {:induction false} AscendingFitsIn(s: seq<string>, ids: set<string>)
    requires Ascending(s) && forall i | 0 <= i < |s| :: s[i] in ids
    ensures |s| <= |ids|
    decreases |s|
  {
    if s != [] {
      var last, front := s[|s| - 1], s[..|s| - 1];
      forall i | 0 <= i < |front|
        ensures front[i] in ids - {last}
      {
        assert Less(s[i], last);
        LessIsIrreflexive(last);
      }
      AscendingFitsIn(front, ids - {last});
    }
  }

  lemma {:induction false} CursorCount(pages: seq<Page>, after: Option<string>)
    requires Walk(pages, after)
    ensures |pages| <= |Cursors(pages)| + 1
    decreases |pages|
  {
    if pages != [] {
      CursorCount(pages[1..], pages[0].next);
    }
  }

  /** A walk whose cursors come from a finite set of ids ends: it has at most one page more than there are ids. */
  lemma WalkEnds(pages: seq<Page>, after: Option<string>, ids: set<string>)
    requires Walk(pages, after) && forall i | 0 <= i < |Cursors(pages)| :: Cursors(pages)[i] in ids
    ensures |pages| <= |ids| + 1
  {
    WalkAscends(pages, after);
    AscendingFitsIn(Cursors(pages), ids);
    CursorCount(pages, after);
  }
}
