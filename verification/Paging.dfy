/**
 * The walk over a paginated read. The server is any function of the number of the
 * request and of the query it carries, so it may answer two equal queries differently.
 */
module Paging {
  import opened Common
  import opened Text

  datatype PageRequest = PageRequest(offset: Option<int>, limit: Option<int>, search: Option<string>)

  datatype Page<T> = Page(items: seq<T>, total: int, offset: int, limit: int)

  /** The query of a request, before its numbers are printed. */
  datatype Query = Query(offset: int, limit: Option<int>, search: Option<string>)

  function NormalizeSearch(term: Option<string>): Option<string> {
    if term.Some? && Trim(term.value) != "" then Some(Trim(term.value)) else None
  }

  function OffsetOf(request: PageRequest): int {
    if request.offset.Some? then request.offset.value else 0
  }

  function PageQuery(request: PageRequest): Query {
    Query(OffsetOf(request), request.limit, NormalizeSearch(request.search))
  }

  predicate HasMore<T>(page: Page<T>) {
    |page.items| > 0 && page.offset + |page.items| < page.total
  }

  // ---------- The walk against any server ----------

  datatype Walk<T> = Walk(request: PageRequest, out: seq<T>, pages: seq<Page<T>>, asked: seq<Query>, done: bool)

  function Start<T>(start: PageRequest): Walk<T> {
    Walk(start.(offset := Some(OffsetOf(start))), [], [], [], false)
  }

  function Onward<T>(server: (nat, Query) -> Page<T>, w: Walk<T>): Walk<T> {
    if w.done then w
    else
      var query := PageQuery(w.request);
      var page := server(|w.asked|, query);
      var next := page.offset + |page.items|;
      var seen := w.(out := w.out + page.items, pages := w.pages + [page], asked := w.asked + [query]);
      if |page.items| == 0 || next >= page.total then seen.(done := true)
      else seen.(request := w.request.(offset := Some(next)))
  }

  /** The walk after at most `k` requests. */
  function After<T>(server: (nat, Query) -> Page<T>, start: PageRequest, k: nat): Walk<T> {
    if k == 0 then Start(start) else Onward(server, After(server, start, k - 1))
  }

  ghost predicate Ends<T>(server: (nat, Query) -> Page<T>, start: PageRequest) {
    exists k: nat :: After(server, start, k).done
  }

  lemma {:induction false} DoneStays<T>(server: (nat, Query) -> Page<T>, start: PageRequest, k: nat, later: nat)
    requires k <= later && After(server, start, k).done
    ensures After(server, start, later) == After(server, start, k)
  {
    if k < later {
      DoneStays(server, start, k, later - 1);
    }
  }

  lemma DoneForGood<T>(server: (nat, Query) -> Page<T>, start: PageRequest, n: nat)
    requires After(server, start, n).done
    ensures forall k: nat :: After(server, start, k).done ==> After(server, start, k) == After(server, start, n)
  {
    forall k: nat | After(server, start, k).done
      ensures After(server, start, k) == After(server, start, n)
    {
      if k <= n {
        DoneStays(server, start, k, n);
      } else {
        DoneStays(server, start, n, k);
      }
    }
  }

  lemma {:induction false} AskedCount<T>(server: (nat, Query) -> Page<T>, start: PageRequest, k: nat)
    ensures |After(server, start, k).asked| <= k
    ensures !After(server, start, k).done ==> |After(server, start, k).asked| == k
  {
    if k > 0 {
      AskedCount(server, start, k - 1);
    }
  }

  /**
   * The walk as the program runs it, on every server that it ends on. A server that keeps it
   * going for ever is what `MisreportingNeverEnds` is about.
   */
  method CollectPages<T>(server: (nat, Query) -> Page<T>, start: PageRequest)
    returns (out: seq<T>)
    requires Ends(server, start)
    ensures forall k: nat :: After(server, start, k).done ==> out == After(server, start, k).out
  {
    ghost var bound: nat :| After(server, start, bound).done;
    var request := PageRequest(Some(OffsetOf(start)), start.limit, start.search);
    out := [];
    var calls := 0;
    assert !After(server, start, 0).done;
    while true
      invariant !After(server, start, calls).done
      invariant request == After(server, start, calls).request && out == After(server, start, calls).out
      invariant calls < bound
      decreases bound - calls
    {
      AskedCount(server, start, calls);
      var page := server(calls, PageQuery(request));
      calls := calls + 1;
      out := out + page.items;
      var next := page.offset + |page.items|;
      if |page.items| == 0 || next >= page.total {
        DoneForGood(server, start, calls);
        return;
      }
      request := PageRequest(Some(next), request.limit, request.search);
      if calls >= bound {
        DoneStays(server, start, bound, calls);
      }
    }
  }

  // ---------- What every walk keeps ----------

  function Concat<T>(pages: seq<Page<T>>): seq<T> {
    if pages == [] then [] else Concat(pages[..|pages| - 1]) + pages[|pages| - 1].items
  }

  /** Where the next query starts: where the last page ended. */
  function Resume<T>(start: PageRequest, pages: seq<Page<T>>): int {
    if pages == [] then OffsetOf(start) else pages[|pages| - 1].offset + |pages[|pages| - 1].items|
  }

  /** Query `i` carries the limit and search of the start, and begins where page `i - 1` ended. */
  predicate QueryFits<T>(start: PageRequest, w: Walk<T>, i: nat)
    requires i < |w.asked| == |w.pages|
  {
    w.asked[i] == Query(Resume(start, w.pages[..i]), start.limit, NormalizeSearch(start.search))
  }

  /** The result is the pages in order, the queries fit, and only the last page may be final. */
  ghost predicate Faithful<T>(start: PageRequest, w: Walk<T>) {
    && w.out == Concat(w.pages)
    && |w.pages| == |w.asked|
    && (forall i :: 0 <= i < |w.asked| ==> QueryFits(start, w, i))
    && (forall i :: 0 <= i < |w.pages| ==> (HasMore(w.pages[i]) <==> !w.done || i < |w.pages| - 1))
  }

  predicate Carries<T>(start: PageRequest, w: Walk<T>) {
    !w.done ==> w.request == PageRequest(Some(Resume(start, w.pages)), start.limit, start.search)
  }

  lemma StepIsFaithful<T>(server: (nat, Query) -> Page<T>, start: PageRequest, w: Walk<T>)
    requires Faithful(start, w) && Carries(start, w) && !w.done
    ensures Faithful(start, Onward(server, w)) && Carries(start, Onward(server, w))
  {
    var w', n := Onward(server, w), |w.pages|;
    assert w'.pages[..n] == w.pages;
    forall i | 0 <= i < |w'.asked|
      ensures QueryFits(start, w', i)
    {
      if i < n {
        assert QueryFits(start, w, i);
        assert w'.pages[..i] == w.pages[..i];
      }
    }
  }

  lemma {:induction false} EveryWalkIsFaithful<T>(server: (nat, Query) -> Page<T>, start: PageRequest, k: nat)
    ensures Faithful(start, After(server, start, k)) && Carries(start, After(server, start, k))
  {
    if k > 0 {
      EveryWalkIsFaithful(server, start, k - 1);
      if !After(server, start, k - 1).done {
        StepIsFaithful(server, start, After(server, start, k - 1));
      }
    }
  }

  // ---------- Servers that echo the offset ----------

  /** The server tells the offset it was asked for, and never a total above the bound. */
  ghost predicate EchoesWithin<T>(server: (nat, Query) -> Page<T>, bound: int) {
    forall i, query :: server(i, query).offset == query.offset && server(i, query).total <= bound
  }

  lemma {:induction false} EchoAdvances<T>(server: (nat, Query) -> Page<T>, start: PageRequest, bound: int, k: nat)
    requires EchoesWithin(server, bound)
    ensures var w := After(server, start, k);
            !w.done ==> OffsetOf(start) + k <= OffsetOf(w.request) && (k > 0 ==> OffsetOf(w.request) < bound)
  {
    if k > 0 {
      EchoAdvances(server, start, bound, k - 1);
    }
  }

  /** However wrong its totals and items, such a server is asked at most once for each item below the bound. */
  lemma EchoedWalkEnds<T>(server: (nat, Query) -> Page<T>, start: PageRequest, bound: int)
    requires EchoesWithin(server, bound)
    ensures var most := if bound - OffsetOf(start) > 1 then bound - OffsetOf(start) else 1;
            var w := After(server, start, most);
            w.done && |w.asked| <= most && w.out == Concat(w.pages)
  {
    var most := if bound - OffsetOf(start) > 1 then bound - OffsetOf(start) else 1;
    EchoAdvances(server, start, bound, most);
    AskedCount(server, start, most);
    EveryWalkIsFaithful(server, start, most);
  }

  // ---------- Honest servers ----------

  /**
   * The server filters its rows by the search of the query and answers with a stretch of them
   * that starts at the offset; it may clamp the stretch, but not to nothing while rows remain.
   */
  ghost predicate Honest<T>(server: (nat, Query) -> Page<T>, rows: Option<string> -> seq<T>) {
    forall i, query: Query :: 0 <= query.offset ==>
      var page, all := server(i, query), rows(query.search);
      && page.total == |all| && page.offset == query.offset
      && if |all| <= query.offset then page.items == []
         else 1 <= |page.items| <= |all| - query.offset
              && page.items == all[query.offset..query.offset + |page.items|]
  }

  function From<T>(all: seq<T>, offset: nat): seq<T> {
    if offset <= |all| then all[offset..] else []
  }

  ghost predicate Gathered<T>(all: seq<T>, offset: nat, k: nat, w: Walk<T>) {
    if w.done then w.out == From(all, offset)
    else
      var reached := OffsetOf(w.request);
      && offset + k <= reached
      && (k == 0 ==> reached == offset && w.out == [])
      && (k > 0 ==> reached < |all| && w.out == all[offset..reached])
  }

  lemma HonestStep<T>(server: (nat, Query) -> Page<T>, rows: Option<string> -> seq<T>,
                      offset: nat, k: nat, w: Walk<T>)
    requires Honest(server, rows) && !w.done
    requires Gathered(rows(PageQuery(w.request).search), offset, k, w)
    ensures Gathered(rows(PageQuery(w.request).search), offset, k + 1, Onward(server, w))
  {
    var query := PageQuery(w.request);
    var all, page, reached := rows(query.search), server(|w.asked|, query), query.offset;
    assert page.total == |all| && page.offset == reached;
    if reached < |all| {
      assert all[offset..reached] + page.items == all[offset..reached + |page.items|];
      assert reached + |page.items| == |all| ==> all[offset..|all|] == all[offset..];
    }
  }

  lemma {:induction false} HonestWalk<T>(server: (nat, Query) -> Page<T>, rows: Option<string> -> seq<T>,
                                         start: PageRequest, k: nat)
    requires Honest(server, rows) && 0 <= OffsetOf(start)
    ensures Gathered(rows(NormalizeSearch(start.search)), OffsetOf(start), k, After(server, start, k))
  {
    if k > 0 {
      var before := After(server, start, k - 1);
      HonestWalk(server, rows, start, k - 1);
      EveryWalkIsFaithful(server, start, k - 1);
      if !before.done {
        HonestStep(server, rows, OffsetOf(start), k - 1, before);
      }
    }
  }

  /**
   * From an honest server the walk gathers every matching row from the start offset on, once and in
   * order, in at most one request a row.
   */
  lemma HonestWalkIsComplete<T>(server: (nat, Query) -> Page<T>, rows: Option<string> -> seq<T>,
                                start: PageRequest, k: nat)
    requires Honest(server, rows) && 0 <= OffsetOf(start)
    ensures After(server, start, k).done ==>
              After(server, start, k).out == From(rows(NormalizeSearch(start.search)), OffsetOf(start))
    ensures var left := |rows(NormalizeSearch(start.search))| - OffsetOf(start);
            var w := After(server, start, if left > 1 then left else 1);
            w.done && |w.asked| <= if left > 1 then left else 1
    ensures Ends(server, start)
  {
    var left := |rows(NormalizeSearch(start.search))| - OffsetOf(start);
    var most := if left > 1 then left else 1;
    HonestWalk(server, rows, start, k);
    HonestWalk(server, rows, start, most);
    AskedCount(server, start, most);
  }

  /**
   * A walk that is done has gathered all rows of the search if the start named no offset, and
   * otherwise those from the offset it named.
   */
  lemma WalkFromTheStart<T>(server: (nat, Query) -> Page<T>, rows: Option<string> -> seq<T>,
                            start: PageRequest, k: nat)
    requires Honest(server, rows) && (start.offset.Some? ==> 0 <= start.offset.value)
    requires After(server, start, k).done
    ensures var out, all := After(server, start, k).out, rows(NormalizeSearch(start.search));
            && (start.offset.None? ==> out == all)
            && (start.offset.Some? && start.offset.value <= |all| ==> out == all[start.offset.value..])
            && (start.offset.Some? && |all| < start.offset.value ==> out == [])
  {
    HonestWalkIsComplete(server, rows, start, k);
  }

  /** The first query asks for the offset of the start, or for 0, with its limit and its trimmed search. */
  lemma FirstQuery<T>(server: (nat, Query) -> Page<T>, start: PageRequest, k: nat)
    requires k > 0
    ensures var asked := After(server, start, k).asked;
            && |asked| > 0
            && asked[0] == Query(match start.offset case Some(n) => n case None => 0, start.limit,
                                 NormalizeSearch(start.search))
  {
    EveryWalkIsFaithful(server, start, k);
    AskedCount(server, start, 1);
    AtLeastOne(server, start, k);
    assert QueryFits(start, After(server, start, k), 0);
  }

  lemma {:induction false} AtLeastOne<T>(server: (nat, Query) -> Page<T>, start: PageRequest, k: nat)
    requires k > 0
    ensures |After(server, start, k).asked| > 0
  {
    if k > 1 {
      AtLeastOne(server, start, k - 1);
    }
  }

  // ---------- Servers that keep the walk going ----------

  /** An empty page is the last request of the walk, whatever its total says, and adds nothing. */
  lemma EmptyPageIsLast<T>(server: (nat, Query) -> Page<T>, start: PageRequest, k: nat, later: nat)
    requires k < later && !After(server, start, k).done
    requires server(k, PageQuery(After(server, start, k).request)).items == []
    ensures var w := After(server, start, later);
            w.done && |w.asked| == k + 1 && w.out == After(server, start, k).out
  {
    AskedCount(server, start, k);
    DoneStays(server, start, k + 1, later);
  }

  /** The answer to request `k` of the walk, which is made, is a page that nothing follows. */
  predicate LastAt<T>(server: (nat, Query) -> Page<T>, start: PageRequest, k: nat) {
    && !After(server, start, k).done
    && !HasMore(server(k, PageQuery(After(server, start, k).request)))
  }

  /** On every server the walk ends exactly when one of its requests is answered by a page without more. */
  lemma EndsIff<T>(server: (nat, Query) -> Page<T>, start: PageRequest)
    ensures Ends(server, start) <==> exists k: nat :: LastAt(server, start, k)
  {
    if Ends(server, start) {
      var n: nat :| After(server, start, n).done;
      var k := LastRequest(server, start, n);
    }
    if k: nat :| LastAt(server, start, k) {
      AskedCount(server, start, k);
      assert After(server, start, k + 1).done;
    }
  }

  lemma {:induction false} LastRequest<T>(server: (nat, Query) -> Page<T>, start: PageRequest, n: nat)
    returns (k: nat)
    requires After(server, start, n).done
    ensures k < n && LastAt(server, start, k)
  {
    if After(server, start, n - 1).done {
      k := LastRequest(server, start, n - 1);
    } else {
      k := n - 1;
      AskedCount(server, start, k);
    }
  }

  /** Always the same row, told to be the first of two. */
  function StuckServer(): (nat, Query) -> Page<int> {
    (i, query) => Page([7], 2, 0, 1)
  }

  /** A total that runs ahead of the walk, with offsets echoed. */
  function GrowingServer(): (nat, Query) -> Page<int> {
    (i, query: Query) => Page([7], query.offset + 2, query.offset, 1)
  }

  /**
   * Each of the two conditions of `EchoedWalkEnds` is needed: one misreported offset, or totals
   * without bound, keep the walk asking for ever.
   */
  lemma {:induction false} MisreportingNeverEnds(start: PageRequest, k: nat)
    ensures !After(StuckServer(), start, k).done && !After(GrowingServer(), start, k).done
  {
    if k > 0 {
      MisreportingNeverEnds(start, k - 1);
    }
  }

  lemma MisreportedServersMissOneCondition()
    ensures forall i, query :: StuckServer()(i, query).total <= 2
    ensures forall i, query :: GrowingServer()(i, query).offset == query.offset
    ensures !Ends(StuckServer(), PageRequest(None, None, None))
    ensures !Ends(GrowingServer(), PageRequest(None, None, None))
  {
    forall k: nat
      ensures !After(StuckServer(), PageRequest(None, None, None), k).done
      ensures !After(GrowingServer(), PageRequest(None, None, None), k).done
    {
      MisreportingNeverEnds(PageRequest(None, None, None), k);
    }
  }

  // ---------- The search term ----------

  /** Normalising is done once for all, and drops exactly the blank terms. */
  lemma NormalizeSearchSettles(term: Option<string>)
    ensures NormalizeSearch(NormalizeSearch(term)) == NormalizeSearch(term)
    ensures NormalizeSearch(term).None? <==>
            term.None? || forall i :: 0 <= i < |term.value| ==> IsSpace(term.value[i])
    ensures NormalizeSearch(term).Some? ==> Trimmed(NormalizeSearch(term).value)
  {
    if term.Some? {
      TrimIsTrimmed(term.value);
      TrimFixes(Trim(term.value));
      TrimEmptyIff(term.value);
    }
  }

  /** What is searched for is the term without the whitespace around it. */
  lemma NormalizeSearchCuts(term: string) returns (lead: string, trail: string)
    ensures AllSpace(lead) && AllSpace(trail)
    ensures match NormalizeSearch(Some(term))
            case Some(kept) => kept != "" && Trimmed(kept) && term == lead + kept + trail
            case None => term == lead + trail
  {
    lead, trail := TrimCuts(term);
    assert lead + "" + trail == lead + trail;
  }

  lemma TrimEmptyIff(s: string)
    ensures Trim(s) == "" <==> forall i :: 0 <= i < |s| ==> IsSpace(s[i])
  {
    TrimStartStops(s);
    TrimStartEmptyIff(s);
    var t := TrimStart(s);
    TrimEndKeepsFront(t);
    if t != "" {
      TrimEndKeepsInk(t);
    }
  }

  lemma {:induction false} TrimEndKeepsInk(s: string)
    requires s != "" && !IsSpace(s[0])
    ensures TrimEnd(s) != ""
  {
    if IsSpace(s[|s| - 1]) {
      TrimEndKeepsInk(s[..|s| - 1]);
    }
  }
}
