/** Node collection, page by page and by a pool of workers (internal/chefapi/client.go).

    The search answers each offset with a page or an error; a page may hold any rows.
    The pool is a queue of offsets, the offsets being worked on, and a buffered channel
    of results; its steps interleave in any order. */
module NodePaging {
  import opened Wrappers

  /** One row of a search response; its attributes pass through untouched. */
  datatype Row = Row(url: string, data: map<string, string>)

  /** The total the first page reports, and the rows each offset is answered with; an
      offset outside `page` is answered with an error. */
  datatype Search = Search(total: int, page: map<int, seq<Row>>)

  datatype PageResult = PageResult(start: int, rows: Result<seq<Row>>)

  function PageSize(requested: int): (size: int)
    ensures size >= 1
  {
    if requested <= 0 then 1000 else requested
  }

  // ---------------------------------------------------------------------------
  // One page after another
  // ---------------------------------------------------------------------------

  /** The rows of the pages from offset `start` on, or an error if one of them fails. */
  function PagesFrom(search: Search, size: int, start: int): Result<seq<Row>>
    requires size >= 1
    decreases search.total - start
  {
    if start >= search.total then Ok([])
    else if start !in search.page then Err
    else
      match PagesFrom(search, size, start + size)
      case Err => Err
      case Ok(rows) => Ok(search.page[start] + rows)
  }

  /** All pages in order; the first is always asked for. */
  function AllPages(search: Search, size: int): Result<seq<Row>>
    requires size >= 1
  {
    if 0 !in search.page then Err
    else
      match PagesFrom(search, size, size)
      case Err => Err
      case Ok(rows) => Ok(search.page[0] + rows)
  }

  method CollectAllNodes(search: Search, pageSize: int) returns (r: Result<seq<Row>>)
    ensures r == AllPages(search, PageSize(pageSize))
  {
    var size := PageSize(pageSize);
    if 0 !in search.page {
      return Err;
    }
    var allRows := search.page[0];
    var start := size;
    while start < search.total
      invariant AllPages(search, size) ==
                match PagesFrom(search, size, start) case Err => Err case Ok(rows) => Ok(allRows + rows)
      decreases search.total - start
    {
      if start !in search.page {
        return Err;
      }
      Associate(allRows, search.page[start], PagesFrom(search, size, start + size));
      allRows := allRows + search.page[start];
      start := start + size;
    }
    assert allRows + [] == allRows;
    return Ok(allRows);
  }

  lemma Associate(a: seq<Row>, b: seq<Row>, c: Result<seq<Row>>)
    ensures c.Ok? ==> a + (b + c.value) == (a + b) + c.value
  {
  }

  // ---------------------------------------------------------------------------
  // The number of pages
  // ---------------------------------------------------------------------------

  /** The offsets queued for the workers. */
  function Offsets(start: int, size: int, total: int): (r: seq<int>)
    requires size >= 1
    decreases total - start
  {
    if start >= total then [] else [start] + Offsets(start + size, size, total)
  }

  /** The number of pages, as the source computes it. */
  function TotalPages(total: int, size: int): int
    requires size >= 1
  {
    if total > size then (total + size - 1) / size else 1
  }

  lemma DivUnique(x: int, d: int, q: int, r: int)
    requires d >= 1 && x == q * d + r && 0 <= r < d
    ensures x / d == q
  {
    var q' := x / d;
    var gap := q' - q;
    assert gap * d == q' * d - q * d;
    assert -d < gap * d < d;
    NoSmallMultiple(gap, d);
  }

  lemma NoSmallMultiple(gap: int, d: int)
    requires d >= 1
    ensures gap >= 1 ==> gap * d >= d
    ensures gap <= -1 ==> gap * d <= -d
  {
  }

  lemma {:induction false} OffsetCount(start: int, size: int, total: int)
    requires size >= 1 && start < total + size
    ensures |Offsets(start, size, total)| == (total - start + size - 1) / size
    decreases total - start
  {
    var x := total - start + size - 1;
    if start >= total {
      DivUnique(x, size, 0, x);
    } else {
      OffsetCount(start + size, size, total);
      var q, r := (x - size) / size, (x - size) % size;
      assert x == (q + 1) * size + r;
      DivUnique(x, size, q + 1, r);
    }
  }

  /** The receive loop waits for exactly as many results as offsets were queued. */
  lemma ReceivesEveryOffset(total: int, size: int)
    requires size >= 1
    ensures |Offsets(size, size, total)| == TotalPages(total, size) - 1
  {
    if total > size {
      OffsetCount(size, size, total);
      var x := total - size + size - 1;
      var q, r := x / size, x % size;
      assert x + size == (q + 1) * size + r;
      DivUnique(x + size, size, q + 1, r);
    }
  }

  // ---------------------------------------------------------------------------
  // What the collection is
  // ---------------------------------------------------------------------------

  /** The answer to page `k`, the one at offset `k * size`. */
  function PageNo(search: Search, size: int, k: nat): Option<seq<Row>> {
    if k * size in search.page then Some(search.page[k * size]) else None
  }

  /** Page `first + k` lies in `rows` between two neighbouring places. */
  ghost predicate LiesAt(search: Search, size: int, first: nat, rows: seq<Row>, places: seq<nat>, k: nat)
    requires k + 1 < |places|
  {
    && places[k] <= places[k + 1] <= |rows|
    && PageNo(search, size, first + k) == Some(rows[places[k]..places[k + 1]])
  }

  /** The pages from number `first` on lie in `rows` one after another, in order and without
      a gap; `places` says where each begins, and the end. */
  ghost predicate Laid(search: Search, size: int, first: nat, rows: seq<Row>, places: seq<nat>) {
    && |places| >= 1 && places[0] == 0 && places[|places| - 1] == |rows|
    && forall k: nat :: k + 1 < |places| ==> LiesAt(search, size, first, rows, places, k)
  }

  /** After the first there are as many pages as offsets below the total. */
  lemma PageBelowTotal(total: int, size: int, k: nat)
    requires size >= 1 && k >= 1
    ensures k < TotalPages(total, size) <==> k * size < total
  {
    if total > size {
      var q, r := (total + size - 1) / size, (total + size - 1) % size;
      assert total + size - 1 == q * size + r;
      if k < q { NoSmallMultiple(q - k, size); assert (q - k) * size == q * size - k * size; }
      if k >= q { if k > q { NoSmallMultiple(k - q, size); } assert (k - q) * size == k * size - q * size; }
    } else {
      NoSmallMultiple(k, size);
    }
  }

  lemma NextOffset(k: nat, size: int)
    ensures (k + 1) * size == k * size + size
  {
  }

  lemma LaidCons(search: Search, size: int, first: nat, page: seq<Row>, rows: seq<Row>, places: seq<nat>)
    returns (all: seq<nat>)
    requires PageNo(search, size, first) == Some(page) && Laid(search, size, first + 1, rows, places)
    ensures |all| == |places| + 1 && Laid(search, size, first, page + rows, all)
  {
    var n := |page|;
    all := [0] + seq(|places|, i requires 0 <= i < |places| => n + places[i]);
    forall k: nat | k + 1 < |all| ensures LiesAt(search, size, first, page + rows, all, k) {
      if k > 0 {
        assert LiesAt(search, size, first + 1, rows, places, k - 1);
        assert (page + rows)[n + places[k - 1]..n + places[k]] == rows[places[k - 1]..places[k]];
        assert first + 1 + (k - 1) == first + k;
      } else {
        assert (page + rows)[0..n] == page;
      }
    }
  }

  lemma {:induction false} PagesLaid(search: Search, size: int, first: nat) returns (places: seq<nat>)
    requires size >= 1 && first >= 1
    ensures var r := PagesFrom(search, size, first * size);
            && (r.Ok? ==> Laid(search, size, first, r.value, places))
            && (r.Ok? && first <= TotalPages(search.total, size) ==> |places| == TotalPages(search.total, size) - first + 1)
            && (r.Err? <==> exists k: nat :: first <= k < TotalPages(search.total, size) && PageNo(search, size, k).None?)
    decreases search.total - first * size
  {
    places := [0];
    PageBelowTotal(search.total, size, first);
    if first * size < search.total {
      NextOffset(first, size);
      var later := PagesLaid(search, size, first + 1);
      var r := PagesFrom(search, size, (first + 1) * size);
      if r.Ok? && PageNo(search, size, first).Some? {
        places := LaidCons(search, size, first, search.page[first * size], r.value, later);
      }
    }
  }

  /** The collection fails exactly when some page is not answered. Otherwise its rows are those
      of all pages: the first, and one for each further `size` rows of the total, each whole,
      in order, at its own place, with nothing between and nothing after. */
  lemma AllPagesLaid(search: Search, size: int) returns (places: seq<nat>)
    requires size >= 1
    ensures var r := AllPages(search, size);
            && (r.Err? <==> exists k: nat :: k < TotalPages(search.total, size) && PageNo(search, size, k).None?)
            && (r.Ok? ==> |places| == TotalPages(search.total, size) + 1 && Laid(search, size, 0, r.value, places))
  {
    places := [];
    assert 0 * size == 0 && 1 * size == size;
    var later := PagesLaid(search, size, 1);
    PageBelowTotal(search.total, size, 1);
    assert PageNo(search, size, 0).Some? <==> 0 in search.page;
    var r := PagesFrom(search, size, size);
    if r.Ok? && 0 in search.page {
      places := LaidCons(search, size, 0, search.page[0], r.value, later);
    }
  }

  function Slice(index: seq<Row>, from: int, size: nat): seq<Row> {
    if from < 0 || from >= |index| then [] else if from + size <= |index| then index[from..from + size] else index[from..]
  }

  /** The search answers the first page, and every further one below the total, with its part
      of one index of all nodes. */
  ghost predicate Serves(search: Search, size: nat, index: seq<Row>) {
    && search.total == |index|
    && forall k: nat :: k == 0 || k * size < |index| ==> PageNo(search, size, k) == Some(Slice(index, k * size, size))
  }

  lemma JoinRest(index: seq<Row>, start: nat, size: nat)
    requires start <= |index|
    ensures Slice(index, start, size) + (if start + size <= |index| then index[start + size..] else []) == index[start..]
  {
  }

  lemma {:induction false} RestOfIndex(search: Search, size: nat, index: seq<Row>, first: nat)
    requires size >= 1 && Serves(search, size, index)
    ensures PagesFrom(search, size, first * size) == Ok(if first * size <= |index| then index[first * size..] else [])
    decreases search.total - first * size
  {
    var start := first * size;
    if start < search.total {
      assert PageNo(search, size, first) == Some(Slice(index, start, size));
      NextOffset(first, size);
      RestOfIndex(search, size, index, first + 1);
      JoinRest(index, start, size);
    } else {
      assert index[|index|..] == [];
    }
  }

  /** So a server that pages through one index is collected whole, nodes in their order. */
  lemma IndexIsCollected(search: Search, size: nat, index: seq<Row>)
    requires size >= 1 && Serves(search, size, index)
    ensures AllPages(search, size) == Ok(index)
  {
    assert 0 * size == 0 && 1 * size == size;
    assert PageNo(search, size, 0) == Some(Slice(index, 0, size));
    RestOfIndex(search, size, index, 1);
    JoinRest(index, 0, size);
    assert index == index[0..];
  }

  // ---------------------------------------------------------------------------
  // The worker pool
  // ---------------------------------------------------------------------------

  datatype Pool = Pool(
    queue: seq<int>,                // offsets no worker has taken yet
    inFlight: multiset<int>,        // offsets being worked on
    results: seq<PageResult>,    // the result channel, oldest first
    received: nat,                  // results the receiver has taken
    pageMap: map<int, seq<Row>>,
    firstErr: Option<int>,          // the offset of the first error received
    cancelled: bool)

  function Start(search: Search, size: int): Pool
    requires size >= 1 && 0 in search.page
  {
    Pool(Offsets(size, size, search.total), multiset{}, [], 0, map[0 := search.page[0]], None, false)
  }

  /** A worker takes the next offset off the queue. */
  function Take(p: Pool): Pool
    requires p.queue != []
  {
    p.(queue := p.queue[1..], inFlight := p.inFlight + multiset{p.queue[0]})
  }

  /** A worker sends what became of its offset. */
  function Send(p: Pool, result: PageResult): Pool {
    p.(inFlight := p.inFlight - multiset{result.start}, results := p.results + [result])
  }

  /** The receiver takes the oldest result. */
  function Receive(p: Pool): Pool
    requires p.results != []
  {
    var r := p.results[0];
    p.(results := p.results[1..],
       received := p.received + 1,
       pageMap := if r.rows.Ok? then p.pageMap[r.start := r.rows.value] else p.pageMap,
       firstErr := if r.rows.Err? && p.firstErr.None? then Some(r.start) else p.firstErr)
  }

  /** What a worker may send for an offset: the answer, or an error once the run has
      been cancelled. */
  predicate MaySend(search: Search, p: Pool, result: PageResult) {
    match result.rows
    case Ok(rows) => result.start in search.page && rows == search.page[result.start]
    case Err => result.start !in search.page || p.cancelled
  }

  /** One step of the pool with at most `workers` workers and a channel that holds at
      most `capacity` results. */
  ghost predicate Step(search: Search, workers: nat, capacity: nat, p: Pool, q: Pool) {
    || (p.queue != [] && |p.inFlight| < workers && q == Take(p))
    || (|p.results| < capacity && exists result: PageResult ::
          result.start in p.inFlight && MaySend(search, p, result) && q == Send(p, result))
    || (p.results != [] && p.received < capacity && q == Receive(p))
    || (!p.cancelled && q == p.(cancelled := true))
  }

  /** Every queued offset is queued, being worked on, sent or received exactly once, and
      the workers take them from the front. */
  ghost predicate Counted(offsets: seq<int>, p: Pool) {
    && |p.queue| + |p.inFlight| + |p.results| + p.received == |offsets|
    && p.queue == offsets[|offsets| - |p.queue|..]
  }

  ghost predicate Waiting(results: seq<PageResult>, o: int) {
    exists i :: 0 <= i < |results| && results[i].start == o
  }

  /** Offset `o` is still on its way, or its rows or some error have been received. */
  ghost predicate Somewhere(p: Pool, o: int) {
    o in p.queue || o in p.inFlight || Waiting(p.results, o) || o in p.pageMap || p.firstErr.Some?
  }

  ghost predicate Covered(offsets: seq<int>, p: Pool) {
    forall o :: o in offsets ==> Somewhere(p, o)
  }

  /** Only queued offsets are worked on; pages and errors are the search's own. */
  ghost predicate Genuine(search: Search, offsets: seq<int>, p: Pool) {
    && 0 in p.pageMap
    && (forall o :: o in p.pageMap ==> o in search.page && p.pageMap[o] == search.page[o])
    && (forall o :: o in p.inFlight ==> o in offsets)
    && (forall i :: 0 <= i < |p.results| ==> p.results[i].start in offsets && MaySend(search, p, p.results[i]))
    && (p.firstErr.Some? ==> p.firstErr.value in offsets && (p.firstErr.value !in search.page || p.cancelled))
  }

  /** What every reachable pool satisfies: nothing queued is lost or made up, whatever
      order the workers run in. */
  ghost predicate Inv(search: Search, offsets: seq<int>, p: Pool) {
    Counted(offsets, p) && Covered(offsets, p) && Genuine(search, offsets, p)
  }

  lemma StartInv(search: Search, size: int)
    requires size >= 1 && 0 in search.page
    ensures Inv(search, Offsets(size, size, search.total), Start(search, size))
  {
  }

  lemma TakeInv(search: Search, offsets: seq<int>, p: Pool)
    requires Inv(search, offsets, p) && p.queue != []
    ensures Inv(search, offsets, Take(p))
  {
  }

  lemma SendInv(search: Search, offsets: seq<int>, p: Pool, result: PageResult)
    requires Inv(search, offsets, p)
    requires result.start in p.inFlight && MaySend(search, p, result)
    ensures Inv(search, offsets, Send(p, result))
  {
    var q := Send(p, result);
    assert Counted(offsets, q);
    assert q.results[|p.results|].start == result.start;
    forall o | o in offsets ensures Somewhere(q, o) {
      assert Somewhere(p, o);
      if i :| 0 <= i < |p.results| && p.results[i].start == o { assert q.results[i].start == o; }
    }
    assert Genuine(search, offsets, q);
  }

  lemma ReceiveInv(search: Search, offsets: seq<int>, p: Pool)
    requires Inv(search, offsets, p) && p.results != []
    ensures Inv(search, offsets, Receive(p))
  {
  }

  lemma CancelInv(search: Search, offsets: seq<int>, p: Pool)
    requires Inv(search, offsets, p)
    ensures Inv(search, offsets, p.(cancelled := true))
  {
  }

  /** Every step keeps the invariant. */
  lemma StepInv(search: Search, offsets: seq<int>, workers: nat, p: Pool, q: Pool)
    requires Inv(search, offsets, p) && Step(search, workers, |offsets|, p, q)
    ensures Inv(search, offsets, q)
  {
    if p.queue != [] && q == Take(p) {
      TakeInv(search, offsets, p);
    } else if result: PageResult :| result.start in p.inFlight && MaySend(search, p, result) && q == Send(p, result) {
      SendInv(search, offsets, p, result);
    } else if p.results != [] && q == Receive(p) {
      ReceiveInv(search, offsets, p);
    } else {
      CancelInv(search, offsets, p);
    }
  }

  /** How many steps are left at most. */
  function StepsLeft(p: Pool): nat {
    3 * |p.queue| + 2 * |p.inFlight| + |p.results| + if p.cancelled then 0 else 1
  }

  lemma StepsRunOut(search: Search, workers: nat, capacity: nat, p: Pool, q: Pool)
    requires Step(search, workers, capacity, p, q)
    ensures StepsLeft(q) < StepsLeft(p)
  {
  }

  /** Until every result has been received some worker or the receiver can move, and a
      worker that has a result can always send it: the channel is never full then. */
  lemma NeverStuck(search: Search, offsets: seq<int>, workers: nat, p: Pool)
    requires workers >= 1 && Inv(search, offsets, p) && p.received < |offsets|
    ensures |p.inFlight| > 0 ==> |p.results| < |offsets|
    ensures exists q: Pool :: q.cancelled == p.cancelled && Step(search, workers, |offsets|, p, q)
  {
    if p.results != [] {
      assert Step(search, workers, |offsets|, p, Receive(p));
    } else if |p.inFlight| > 0 {
      var o := SomeMember(p.inFlight);
      var result := PageResult(o, if o in search.page then Ok(search.page[o]) else Err);
      assert MaySend(search, p, result);
      assert Step(search, workers, |offsets|, p, Send(p, result));
    } else {
      assert Step(search, workers, |offsets|, p, Take(p));
    }
  }

  lemma SomeMember(s: multiset<int>) returns (o: int)
    requires |s| > 0
    ensures o in s
  {
    NoMemberIsEmpty(s);
    o :| o in s;
  }

  lemma NoMemberIsEmpty(s: multiset<int>)
    ensures (forall o :: o !in s) ==> s == multiset{}
  {
    if forall o :: o !in s { assert s == multiset{}; }
  }

  /** The rows the receiver puts together: the received pages in offset order. */
  function Assemble(pageMap: map<int, seq<Row>>, size: int, start: int, total: int): seq<Row>
    requires size >= 1
    decreases total - start
  {
    if start >= total then []
    else (if start in pageMap then pageMap[start] else []) + Assemble(pageMap, size, start + size, total)
  }

  /** What the collection returns once every result has been received. */
  function Outcome(search: Search, size: int, p: Pool): Result<seq<Row>>
    requires size >= 1
  {
    if p.firstErr.Some? then Err else Ok(Assemble(p.pageMap, size, 0, search.total))
  }

  lemma {:induction false} AssembleComplete(search: Search, size: int, pageMap: map<int, seq<Row>>, start: int)
    requires size >= 1
    requires forall o :: o in pageMap ==> o in search.page && pageMap[o] == search.page[o]
    requires forall o :: o in Offsets(start, size, search.total) ==> o in pageMap
    ensures PagesFrom(search, size, start) == Ok(Assemble(pageMap, size, start, search.total))
    decreases search.total - start
  {
    if start < search.total {
      assert start in Offsets(start, size, search.total);
      forall o | o in Offsets(start + size, size, search.total) ensures o in pageMap {}
      AssembleComplete(search, size, pageMap, start + size);
    }
  }

  lemma {:induction false} FailingPageFails(search: Search, size: int, start: int, o: int)
    requires size >= 1 && o in Offsets(start, size, search.total) && o !in search.page
    ensures PagesFrom(search, size, start) == Err
    decreases search.total - start
  {
    if start != o { FailingPageFails(search, size, start + size, o); }
  }

  /** A finished pool has nothing left in it, and what it returns is what the sequential
      collection returns, error included; only cancellation can turn that into an error. */
  lemma FinishedPoolAgrees(search: Search, size: int, p: Pool)
    requires size >= 1 && search.total > size && 0 in search.page
    requires Inv(search, Offsets(size, size, search.total), p)
    requires p.received == |Offsets(size, size, search.total)|
    ensures p.queue == [] && p.inFlight == multiset{} && p.results == []
    ensures Outcome(search, size, p) == AllPages(search, size) || (p.cancelled && Outcome(search, size, p) == Err)
  {
    var offsets := Offsets(size, size, search.total);
    assert |p.inFlight| == 0;
    if p.firstErr.Some? {
      if p.firstErr.value !in search.page {
        FailingPageFails(search, size, size, p.firstErr.value);
      }
    } else {
      forall o | o in offsets ensures o in p.pageMap { assert Somewhere(p, o); }
      AssembleComplete(search, size, p.pageMap, size);
    }
  }

  // ---------------------------------------------------------------------------
  // Whole runs
  // ---------------------------------------------------------------------------

  /** A run: from the start, one step after another. */
  ghost predicate Run(search: Search, size: int, workers: nat, run: seq<Pool>)
    requires size >= 1
  {
    && 0 in search.page && run != [] && run[0] == Start(search, size)
    && forall i :: 0 <= i < |run| - 1 ==> Step(search, workers, |Offsets(size, size, search.total)|, run[i], run[i + 1])
  }

  /** In every run, of any number of workers and any interleaving, the invariant holds
      throughout and the length is bounded by three steps per page. */
  lemma {:induction false} RunsAreSafe(search: Search, size: int, workers: nat, run: seq<Pool>)
    requires size >= 1 && Run(search, size, workers, run)
    ensures Inv(search, Offsets(size, size, search.total), run[|run| - 1])
    ensures |run| + StepsLeft(run[|run| - 1]) <= 3 * (TotalPages(search.total, size) - 1) + 2
  {
    var offsets := Offsets(size, size, search.total);
    if |run| == 1 {
      StartInv(search, size);
      ReceivesEveryOffset(search.total, size);
    } else {
      var n := |run| - 1;
      RunsAreSafe(search, size, workers, run[..n]);
      assert Step(search, workers, |offsets|, run[n - 1], run[n - 1 + 1]);
      StepInv(search, offsets, workers, run[n - 1], run[n]);
      StepsRunOut(search, workers, |offsets|, run[n - 1], run[n]);
    }
  }

  /** Any run that has received every result returns what the sequential collection does. */
  lemma FinishedRunsAgree(search: Search, size: int, workers: nat, run: seq<Pool>)
    requires size >= 1 && search.total > size && Run(search, size, workers, run)
    requires run[|run| - 1].received == TotalPages(search.total, size) - 1
    ensures var p := run[|run| - 1];
            Outcome(search, size, p) == AllPages(search, size) || (p.cancelled && Outcome(search, size, p) == Err)
  {
    RunsAreSafe(search, size, workers, run);
    ReceivesEveryOffset(search.total, size);
    FinishedPoolAgrees(search, size, run[|run| - 1]);
  }

  /** A worker answers one of the offsets in flight; once the run is cancelled it may
      report an error instead of the page. */
  method Answer(search: Search, p: Pool) returns (result: PageResult)
    requires |p.inFlight| > 0
    ensures result.start in p.inFlight && MaySend(search, p, result)
  {
    ghost var _ := SomeMember(p.inFlight);
    var start :| start in p.inFlight;
    var givesUp: bool := *;
    if start !in search.page || (p.cancelled && givesUp) {
      return PageResult(start, Err);
    }
    return PageResult(start, Ok(search.page[start]));
  }

  /** The collection itself: any ready worker or the receiver moves next. */
  method CollectAllNodesConcurrent(search: Search, pageSize: int, concurrency: int)
    returns (r: Result<seq<Row>>, cancelled: bool)
    ensures r == AllPages(search, PageSize(pageSize)) || (cancelled && r == Err)
  {
    var size := PageSize(pageSize);
    var workers := if concurrency <= 0 then 1 else concurrency;
    cancelled := false;
    if 0 !in search.page {
      return Err, cancelled;
    }
    var totalPages := TotalPages(search.total, size);
    ReceivesEveryOffset(search.total, size);
    if totalPages <= 1 {
      assert search.total <= size;
      assert search.page[0] + [] == search.page[0];
      return Ok(search.page[0]), cancelled;
    }
    if workers > totalPages - 1 {
      workers := totalPages - 1;
    }
    var pool := RunPool(search, size, workers, totalPages - 1);
    FinishedPoolAgrees(search, size, pool);
    return Outcome(search, size, pool), pool.cancelled;
  }

  method RunPool(search: Search, size: int, workers: nat, pages: nat) returns (pool: Pool)
    requires size >= 1 && workers >= 1 && 0 in search.page
    requires pages == |Offsets(size, size, search.total)|
    ensures Inv(search, Offsets(size, size, search.total), pool) && pool.received == pages
  {
    ghost var offsets := Offsets(size, size, search.total);
    pool := Start(search, size);
    StartInv(search, size);
    while pool.received < pages
      invariant Inv(search, offsets, pool) && pool.received <= pages
      decreases StepsLeft(pool)
    {
      if {
        case |pool.queue| > 0 && |pool.inFlight| < workers =>
          TakeInv(search, offsets, pool);
          pool := Take(pool);
        case |pool.inFlight| > 0 =>
          var result := Answer(search, pool);
          SendInv(search, offsets, pool, result);
          pool := Send(pool, result);
        case |pool.results| > 0 =>
          ReceiveInv(search, offsets, pool);
          pool := Receive(pool);
        case !pool.cancelled =>
          CancelInv(search, offsets, pool);
          pool := pool.(cancelled := true);
      }
    }
  }
}
