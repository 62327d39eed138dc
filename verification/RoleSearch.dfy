/** Role collection from the paged search index (internal/chefapi/roles_search.go).

    The server is a fixed index of rows together with the total it claims and the number
    of rows it is willing to return from each offset. A page never exceeds what was asked
    for, what the server is willing to return, or what is left; the claimed total may be
    wrong either way.
 */
module RoleSearch {
  import opened Ordering
  import opened Wrappers

  /** A decoded JSON value, as far as role rows are looked into. */
  datatype Json = Text(s: string) | Array(items: seq<Json>) | Object(fields: map<string, Json>) | Other

  /** One row of a search response; a row may carry no data at all. */
  datatype Row = Row(data: Option<map<string, Json>>)

  datatype RoleDetail = RoleDetail(
    name: string,
    runList: Option<seq<string>>,
    envRunLists: Option<map<string, seq<string>>>)

  // ---------------------------------------------------------------------------
  // Decoding a row
  // ---------------------------------------------------------------------------

  function Field(data: map<string, Json>, name: string): Json {
    if name in data then data[name] else Other
  }

  function TextsOf(items: seq<Json>): seq<string> {
    if items == [] then []
    else
      var last := items[|items| - 1];
      TextsOf(items[..|items| - 1]) + if last.Text? then [last.s] else []
  }

  function DecodeStringList(v: Json): Option<seq<string>> {
    if v.Array? then Some(TextsOf(v.items)) else None
  }

  function DecodeEnvRunLists(v: Json): Option<map<string, seq<string>>> {
    if v.Object? then
      Some(map env | env in v.fields && v.fields[env].Array? :: TextsOf(v.fields[env].items))
    else None
  }

  /** A row with no usable name is dropped. */
  function DecodeRoleRow(row: Row): Option<RoleDetail> {
    if row.data.None? then None
    else
      var name := Field(row.data.value, "name");
      if !name.Text? || name.s == "" then None
      else Some(RoleDetail(
        name.s,
        DecodeStringList(Field(row.data.value, "run_list")),
        DecodeEnvRunLists(Field(row.data.value, "env_run_lists"))))
  }

  // --- What a decoded role carries ---------------------------------------------

  /** `texts` are the texts among the items, at the places `at`: all of them, in order. */
  ghost predicate PicksTexts(items: seq<Json>, texts: seq<string>, at: seq<nat>) {
    && |at| == |texts| && Increasing(at)
    && (forall k :: 0 <= k < |at| ==> at[k] < |items| && items[at[k]] == Text(texts[k]))
    && (forall i: nat :: i < |items| && items[i].Text? ==> i in at)
  }

  /** The value is a list, and `texts` are the texts in it. */
  ghost predicate ListsTexts(v: Json, texts: seq<string>) {
    v.Array? && exists at :: PicksTexts(v.items, texts, at)
  }

  lemma PicksOneMore(items: seq<Json>, texts: seq<string>, at: seq<nat>, item: Json)
    requires PicksTexts(items, texts, at)
    ensures item.Text? ==> PicksTexts(items + [item], texts + [item.s], at + [|items|])
    ensures !item.Text? ==> PicksTexts(items + [item], texts, at)
  {
    var all, n := items + [item], |items|;
    forall i: nat | i < |all| && all[i].Text? ensures if i < n then i in at else item.Text? {
      if i < n { assert all[i] == items[i]; }
    }
    if item.Text? {
      forall i: nat | i < |all| && all[i].Text? ensures i in at + [n] {}
    }
  }

  lemma {:induction false} TextsInOrder(items: seq<Json>) returns (at: seq<nat>)
    ensures PicksTexts(items, TextsOf(items), at)
  {
    at := [];
    if items != [] {
      var n := |items| - 1;
      var front := TextsInOrder(items[..n]);
      PicksOneMore(items[..n], TextsOf(items[..n]), front, items[n]);
      assert items == items[..n] + [items[n]];
      at := if items[n].Text? then front + [n] else front;
    }
  }

  lemma LastPicked(items: seq<Json>, texts: seq<string>, at: seq<nat>)
    requires PicksTexts(items, texts, at) && items != [] && items[|items| - 1].Text?
    ensures |at| > 0 && at[|at| - 1] == |items| - 1 && texts[|at| - 1] == items[|items| - 1].s
  {
    var n: nat := |items| - 1;
    assert n < |items| && items[n].Text?;
    var k :| 0 <= k < |at| && at[k] == n;
    assert k == |at| - 1;
  }

  lemma PicksOneLess(items: seq<Json>, texts: seq<string>, at: seq<nat>)
    requires PicksTexts(items, texts, at) && items != [] && items[|items| - 1].Text?
    ensures |at| > 0 && texts[|at| - 1] == items[|items| - 1].s
    ensures PicksTexts(items[..|items| - 1], texts[..|at| - 1], at[..|at| - 1])
  {
    LastPicked(items, texts, at);
    var n, m := |items| - 1, |at| - 1;
    forall i: nat | i < n && items[..n][i].Text? ensures i in at[..m] {
      assert items[i].Text? && i in at;
      var k :| 0 <= k < |at| && at[k] == i;
      assert at[..m][k] == i;
    }
  }

  lemma PicksAllBefore(items: seq<Json>, texts: seq<string>, at: seq<nat>)
    requires PicksTexts(items, texts, at) && items != [] && !items[|items| - 1].Text?
    ensures PicksTexts(items[..|items| - 1], texts, at)
  {
  }

  lemma {:induction false} PickedTextsAre(items: seq<Json>, texts: seq<string>, at: seq<nat>)
    requires PicksTexts(items, texts, at)
    ensures texts == TextsOf(items)
  {
    if items != [] {
      var n, m := |items| - 1, |at| - 1;
      if items[n].Text? {
        PicksOneLess(items, texts, at);
        PickedTextsAre(items[..n], texts[..m], at[..m]);
        assert texts == texts[..m] + [items[n].s];
      } else {
        PicksAllBefore(items, texts, at);
        PickedTextsAre(items[..n], texts, at);
      }
    }
  }

  lemma TextsListed(v: Json, texts: seq<string>)
    ensures DecodeStringList(v) == Some(texts) <==> ListsTexts(v, texts)
  {
    if v.Array? {
      var at := TextsInOrder(v.items);
      if other :| PicksTexts(v.items, texts, other) { PickedTextsAre(v.items, texts, other); }
    }
  }

  /** Every environment with a list is there, with the texts in it, and no other. */
  ghost predicate EnvsOf(v: Json, m: map<string, seq<string>>) {
    && v.Object? && (forall env :: env in m <==> env in v.fields && v.fields[env].Array?)
    && (forall env :: env in m ==> ListsTexts(v.fields[env], m[env]))
  }

  /** The role has the row's name, its run list when that is a list, and the run list of
      every environment that has one; an item that is no text is left out, and only that. */
  ghost predicate IsRoleOf(data: map<string, Json>, role: RoleDetail) {
    var runList, envs := Field(data, "run_list"), Field(data, "env_run_lists");
    && role.name != "" && Field(data, "name") == Text(role.name)
    && (role.runList.Some? <==> runList.Array?)
    && (role.runList.Some? ==> ListsTexts(runList, role.runList.value))
    && (role.envRunLists.Some? <==> envs.Object?)
    && (role.envRunLists.Some? ==> EnvsOf(envs, role.envRunLists.value))
  }

  lemma EnvTextsListed(v: Json, m: map<string, seq<string>>)
    requires v.Object?
    ensures DecodeEnvRunLists(v) == Some(m) <==> EnvsOf(v, m)
  {
    var decoded := DecodeEnvRunLists(v).value;
    forall env | env in v.fields && v.fields[env].Array?
      ensures env in m ==> (ListsTexts(v.fields[env], m[env]) <==> m[env] == decoded[env])
    {
      if env in m { TextsListed(v.fields[env], m[env]); }
    }
    if EnvsOf(v, m) { assert m == decoded; }
  }

  /** A row is decoded exactly when it has data with a non-empty name, and then to the one
      role that is its role. */
  lemma DecodedIsRole(row: Row)
    ensures DecodeRoleRow(row).Some? <==> row.data.Some? && exists name :: name != "" && Field(row.data.value, "name") == Text(name)
    ensures row.data.Some? ==> forall role :: DecodeRoleRow(row) == Some(role) <==> IsRoleOf(row.data.value, role)
  {
    if row.data.Some? {
      var data := row.data.value;
      var runList, envs := Field(data, "run_list"), Field(data, "env_run_lists");
      forall role ensures DecodeRoleRow(row) == Some(role) <==> IsRoleOf(data, role) {
        if role.runList.Some? { TextsListed(runList, role.runList.value); }
        if envs.Object? && role.envRunLists.Some? { EnvTextsListed(envs, role.envRunLists.value); }
      }
    }
  }

  // ---------------------------------------------------------------------------
  // The server
  // ---------------------------------------------------------------------------

  /** `pageLen[s]` rows at most are returned from offset `s`; a request at an offset in
      `failsAt` gets an error (or is cancelled). */
  datatype Server = Server(index: seq<Row>, total: nat, pageLen: seq<nat>, failsAt: set<int>) {
    ghost predicate Valid() { |pageLen| == |index| }
  }

  function Min(a: int, b: int): int { if a <= b then a else b }

  /** The rows a request for `size` rows from `start` is answered with. */
  function PageAt(server: Server, size: nat, start: nat): (rows: seq<Row>)
    requires server.Valid()
    ensures |rows| <= size
    ensures start + |rows| <= |server.index| || rows == []
  {
    if start >= |server.index| then []
    else server.index[start..start + Min(Min(size, server.pageLen[start]), |server.index| - start)]
  }

  function PartialSearch(server: Server, size: nat, start: nat): Result<seq<Row>>
    requires server.Valid()
  {
    if start in server.failsAt then Err else Ok(PageAt(server, size, start))
  }

  // ---------------------------------------------------------------------------
  // Gathering roles, first occurrence of each name kept
  // ---------------------------------------------------------------------------

  function Names(roles: seq<RoleDetail>): set<string> {
    set i | 0 <= i < |roles| :: roles[i].name
  }

  lemma NamesAppend(roles: seq<RoleDetail>, role: RoleDetail)
    ensures Names(roles + [role]) == Names(roles) + {role.name}
  {
    var all := roles + [role];
    forall n | n in Names(roles) ensures n in Names(all) {
      var i :| 0 <= i < |roles| && roles[i].name == n;
      assert all[i].name == n;
    }
    assert all[|roles|].name == role.name;
  }

  /** The decodable rows, each name's first one only, in row order. */
  function FirstByName(rows: seq<Row>): (r: seq<RoleDetail>) {
    if rows == [] then []
    else
      var r := FirstByName(rows[..|rows| - 1]);
      match DecodeRoleRow(rows[|rows| - 1])
      case None => r
      case Some(role) => if role.name in Names(r) then r else r + [role]
  }

  /** The slice and the set of seen names that the source's closure appends to. */
  class RoleCollector {
    var roles: seq<RoleDetail>
    var seen: set<string>
    ghost var rows: seq<Row>

    ghost predicate Valid()
      reads this
    {
      roles == FirstByName(rows) && seen == Names(roles)
    }

    constructor ()
      ensures Valid() && rows == []
    {
      roles, seen, rows := [], {}, [];
    }

    method AppendRows(page: seq<Row>)
      requires Valid()
      modifies this
      ensures Valid() && rows == old(rows) + page
    {
      for i := 0 to |page|
        invariant Valid() && rows == old(rows) + page[..i]
      {
        var decoded := DecodeRoleRow(page[i]);
        rows := rows + [page[i]];
        assert rows[..|rows| - 1] == old(rows) + page[..i];
        if decoded.Some? && decoded.value.name !in seen {
          seen := seen + {decoded.value.name};
          roles := roles + [decoded.value];
          assert roles[..|roles| - 1] + [decoded.value] == roles;
          assert Names(roles) == seen by { NamesAppend(roles[..|roles| - 1], decoded.value); }
        }
      }
    }
  }

  // ---------------------------------------------------------------------------
  // The walk
  // ---------------------------------------------------------------------------

  /** Up to `count` offsets below `total`, `stride` apart. */
  function Offsets(start: nat, stride: nat, total: nat, count: nat): (r: seq<nat>)
    ensures |r| <= count
    ensures r == [] <==> count == 0 || start >= total
    ensures forall i :: 0 <= i < |r| ==> r[i] < total
    decreases count
  {
    if count == 0 || start >= total then []
    else [start] + Offsets(start + stride, stride, total, count - 1)
  }

  /** The rows of a wave up to its first empty page, and whether there is one. */
  function WaveRows(server: Server, size: nat, offsets: seq<nat>): (r: (seq<Row>, bool))
    requires server.Valid()
    ensures !r.1 ==> |r.0| >= |offsets|
  {
    if offsets == [] then ([], false)
    else
      var page := PageAt(server, size, offsets[0]);
      if page == [] then ([], true)
      else
        var rest := WaveRows(server, size, offsets[1..]);
        (page + rest.0, rest.1)
  }

  /** Rows already read, followed by what the rest of the walk reads. */
  function Then(rows: seq<Row>, rest: Result<seq<Row>>): Result<seq<Row>> {
    if rest.Err? then Err else Ok(rows + rest.value)
  }

  lemma ThenAssociates(a: seq<Row>, b: seq<Row>, rest: Result<seq<Row>>)
    ensures Then(a, Then(b, rest)) == Then(a + b, rest)
  {
    if rest.Ok? { assert a + (b + rest.value) == (a + b) + rest.value; }
  }

  ghost predicate SomeFails(server: Server, offsets: seq<nat>) {
    exists s :: s in offsets && s in server.failsAt
  }

  /** What one wave brings: its rows, and whether it met an empty page. */
  type WaveResult = Result<(seq<Row>, bool)>

  /** The wave from offset `next`. */
  ghost function Wave(server: Server, size: nat, concurrency: nat, stride: nat, next: nat): (r: WaveResult)
    requires server.Valid() && concurrency >= 1 && next < server.total
    ensures r.Ok? && !r.value.1 ==> |r.value.0| >= 1
  {
    var offsets := Offsets(next, stride, server.total, concurrency);
    if SomeFails(server, offsets) then Err else Ok(WaveRows(server, size, offsets))
  }

  /** The waves from every offset there is. */
  ghost function Waves(server: Server, size: nat, concurrency: nat, stride: nat): (r: seq<WaveResult>)
    requires server.Valid() && concurrency >= 1
    ensures Progress(r)
  {
    seq(server.total, next requires 0 <= next < server.total => Wave(server, size, concurrency, stride, next))
  }

  ghost predicate AreWaves(server: Server, size: nat, concurrency: nat, stride: nat, waves: seq<WaveResult>)
    requires server.Valid() && concurrency >= 1
  {
    && |waves| == server.total && Progress(waves)
    && forall next: nat {:trigger Wave(server, size, concurrency, stride, next)} :: next < |waves| ==>
         waves[next] == Wave(server, size, concurrency, stride, next)
  }

  /** A wave that met no empty page brought at least one row. */
  ghost predicate Progress(waves: seq<WaveResult>) {
    forall n :: 0 <= n < |waves| && waves[n].Ok? && !waves[n].value.1 ==> |waves[n].value.0| >= 1
  }

  /** Every row the walk appends from offset `next` on: after a full wave it moves on by
      as many rows as the wave brought. */
  ghost function Walk(waves: seq<WaveResult>, next: nat): Result<seq<Row>>
    requires Progress(waves)
    decreases |waves| - next
  {
    if next >= |waves| then Ok([])
    else if waves[next].Err? then Err
    else if waves[next].value.1 then Ok(waves[next].value.0)
    else Then(waves[next].value.0, Walk(waves, next + |waves[next].value.0|))
  }

  /** A full wave moves its rows from what is left to read to what has been read. */
  lemma WalkStep(waves: seq<WaveResult>, next: nat, before: seq<Row>, after: seq<Row>, moved: nat)
    requires Progress(waves) && next < |waves| && waves[next].Ok?
    requires after == before + waves[next].value.0 && moved == next + |waves[next].value.0|
    ensures Then(before, Walk(waves, next)) ==
            if waves[next].value.1 then Ok(after) else Then(after, Walk(waves, moved))
  {
    if !waves[next].value.1 { ThenAssociates(before, waves[next].value.0, Walk(waves, moved)); }
  }

  /** Every row the collection reads, in the order it reads them. */
  ghost function RowsRead(server: Server, size: nat, concurrency: nat): Result<seq<Row>>
    requires server.Valid() && concurrency >= 1
  {
    if 0 in server.failsAt then Err
    else
      var first := PageAt(server, size, 0);
      if first == [] then Ok([])
      else Then(first, Walk(Waves(server, size, concurrency, |first|), |first|))
  }

  function PageSize(requested: int): nat { if requested <= 0 then 1000 else requested }

  function Workers(requested: int): nat { if requested <= 0 then 1 else requested }

  predicate ByName(a: RoleDetail, b: RoleDetail) { StrLess(a.name, b.name) }

  lemma OffsetsStep(before: seq<nat>, at: nat, stride: nat, total: nat, count: nat)
    requires count > 0 && at < total
    ensures before + Offsets(at, stride, total, count) == (before + [at]) + Offsets(at + stride, stride, total, count - 1)
  {
  }

  lemma OneStrideOn(i: nat, stride: nat)
    ensures (i + 1) * stride == i * stride + stride
  {
  }

  /** The offsets of one wave, as the source's inner loop computes them. */
  method WaveOffsets(next: nat, effective: nat, total: nat, concurrency: nat) returns (offsets: seq<nat>)
    ensures offsets == Offsets(next, effective, total, concurrency)
  {
    offsets := [];
    var i := 0;
    ghost var at: nat := next;
    while i < concurrency
      invariant 0 <= i <= concurrency
      invariant at == next + i * effective
      invariant offsets + Offsets(at, effective, total, concurrency - i) ==
                Offsets(next, effective, total, concurrency)
    {
      var start := next + i * effective;
      if start >= total {
        break;
      }
      OffsetsStep(offsets, at, effective, total, concurrency - i);
      OneStrideOn(i, effective);
      offsets := offsets + [start];
      i, at := i + 1, at + effective;
    }
  }

  /** Fetch a wave's pages concurrently into one map: the pages finish in any order,
      and any failure discards them all. */
  method FetchRolePages(server: Server, offsets: seq<nat>, size: nat) returns (r: Result<map<nat, seq<Row>>>)
    requires server.Valid()
    ensures r.Err? <==> SomeFails(server, offsets)
    ensures r.Ok? ==> r.value == map s | s in offsets :: PageAt(server, size, s)
  {
    var running := set s | s in offsets;
    var pages: map<nat, seq<Row>> := map[];
    var failed := false;
    while running != {}
      invariant running <= set s | s in offsets
      invariant failed <==> exists s :: s in offsets && s !in running && s in server.failsAt
      invariant !failed ==> pages == map s | s in offsets && s !in running :: PageAt(server, size, s)
    {
      var start :| start in running;
      running := running - {start};
      match PartialSearch(server, size, start)
      case Err => failed := true;
      case Ok(rows) => pages := pages[start := rows];
    }
    if failed {
      return Err;
    }
    return Ok(pages);
  }

  lemma RestOfWave(server: Server, size: nat, offsets: seq<nat>, i: nat, read: seq<Row>)
    requires server.Valid() && i < |offsets|
    ensures var page, rest, later := PageAt(server, size, offsets[i]), WaveRows(server, size, offsets[i..]), WaveRows(server, size, offsets[i + 1..]);
            if page == [] then rest == ([], true)
            else rest.1 == later.1 && read + rest.0 == (read + page) + later.0
  {
    assert offsets[i..][1..] == offsets[i + 1..];
  }

  /** Append a wave's pages in offset order, whatever order they arrived in, stopping
      at the first empty one. */
  method AssembleWave(server: Server, size: nat, offsets: seq<nat>, pages: map<nat, seq<Row>>, collector: RoleCollector)
    returns (fetched: nat, short: bool)
    requires server.Valid() && collector.Valid()
    requires pages == map s | s in offsets :: PageAt(server, size, s)
    modifies collector
    ensures collector.Valid()
    ensures collector.rows == old(collector.rows) + WaveRows(server, size, offsets).0
    ensures fetched == |WaveRows(server, size, offsets).0|
    ensures short == WaveRows(server, size, offsets).1
  {
    ghost var before, wave := collector.rows, WaveRows(server, size, offsets);
    fetched, short := 0, false;
    assert offsets[0..] == offsets;
    for i := 0 to |offsets|
      invariant collector.Valid() && !short
      invariant fetched == |collector.rows| - |before|
      invariant collector.rows + WaveRows(server, size, offsets[i..]).0 == before + wave.0
      invariant WaveRows(server, size, offsets[i..]).1 == wave.1
    {
      var rows := pages[offsets[i]];
      RestOfWave(server, size, offsets, i, collector.rows);
      collector.AppendRows(rows);
      fetched := fetched + |rows|;
      if |rows| == 0 {
        short := true;
        break;
      }
    }
  }

  /** One wave: its requests, and the pages appended in order. */
  method ReadWave(server: Server, size: nat, concurrency: nat, effective: nat, next: nat, collector: RoleCollector,
                  ghost waves: seq<WaveResult>)
    returns (ok: bool, fetched: nat, short: bool)
    requires server.Valid() && collector.Valid() && concurrency >= 1 && next < server.total
    requires AreWaves(server, size, concurrency, effective, waves)
    modifies collector
    ensures collector.Valid() && ok == waves[next].Ok?
    ensures ok ==> collector.rows == old(collector.rows) + waves[next].value.0
    ensures ok ==> fetched == |waves[next].value.0| && short == waves[next].value.1
  {
    assert waves[next] == Wave(server, size, concurrency, effective, next);
    var offsets := WaveOffsets(next, effective, server.total, concurrency);
    var pages := FetchRolePages(server, offsets, size);
    ok, fetched, short := pages.Ok?, 0, false;
    if ok {
      fetched, short := AssembleWave(server, size, offsets, pages.value, collector);
    }
  }

  /** The waves after the first page: `concurrency` requests at a time, then on by as
      many rows as actually came back. */
  method WalkWaves(server: Server, size: nat, concurrency: nat, effective: nat, collector: RoleCollector,
                   ghost waves: seq<WaveResult>)
    returns (ok: bool)
    requires server.Valid() && collector.Valid() && concurrency >= 1
    requires AreWaves(server, size, concurrency, effective, waves)
    modifies collector
    ensures collector.Valid()
    ensures (if ok then Ok(collector.rows) else Err) == Then(old(collector.rows), Walk(waves, effective))
  {
    var next := effective;
    ghost var goal := Then(collector.rows, Walk(waves, effective));
    while next < server.total
      invariant collector.Valid() && Then(collector.rows, Walk(waves, next)) == goal
      decreases server.total - next
    {
      ghost var before := collector.rows;
      var arrived, fetched, short := ReadWave(server, size, concurrency, effective, next, collector, waves);
      if !arrived {
        return false;
      }
      WalkStep(waves, next, before, collector.rows, next + fetched);
      if short {
        return true;
      }
      next := next + fetched;
    }
    assert collector.rows + [] == collector.rows;
    return true;
  }

  method CollectAllRoles(server: Server, pageSize: int, concurrency: int) returns (r: Result<seq<RoleDetail>>)
    requires server.Valid()
    ensures match RowsRead(server, PageSize(pageSize), Workers(concurrency))
            case Err => r == Err
            case Ok(rows) => r == Ok(Sort(FirstByName(rows), ByName))
  {
    var size, workers := PageSize(pageSize), Workers(concurrency);
    var first := PartialSearch(server, size, 0);
    if first.Err? {
      return Err;
    }
    var collector := new RoleCollector();
    collector.AppendRows(first.value);
    var effective := |first.value|;
    if effective == 0 {
      return Ok(collector.roles);
    }
    assert collector.rows == first.value;
    ghost var waves := Waves(server, size, workers, effective);
    assert AreWaves(server, size, workers, effective, waves);
    var ok := WalkWaves(server, size, workers, effective, collector, waves);
    if !ok {
      return Err;
    }
    r := Ok(Sort(collector.roles, ByName));
  }

  // ---------------------------------------------------------------------------
  // What the gathered roles are
  // ---------------------------------------------------------------------------

  /** Row `i` is the first one carrying its role's name. */
  ghost predicate FirstNamed(rows: seq<Row>, i: nat, role: RoleDetail)
    requires i < |rows|
  {
    && DecodeRoleRow(rows[i]) == Some(role)
    && forall j :: 0 <= j < i && DecodeRoleRow(rows[j]).Some? ==> DecodeRoleRow(rows[j]).value.name != role.name
  }

  /** Gathering keeps exactly the first row of each name. */
  lemma {:induction false} GatheredAreFirst(rows: seq<Row>)
    ensures forall i, role :: 0 <= i < |rows| && FirstNamed(rows, i, role) ==> role in FirstByName(rows)
    ensures forall role :: role in FirstByName(rows) ==> exists i :: 0 <= i < |rows| && FirstNamed(rows, i, role)
    ensures forall row :: row in rows && DecodeRoleRow(row).Some? ==> DecodeRoleRow(row).value.name in Names(FirstByName(rows))
  {
    if rows != [] {
      var n := |rows| - 1;
      var front, last := rows[..n], DecodeRoleRow(rows[n]);
      GatheredAreFirst(front);
      if last.Some? { NamesAppend(FirstByName(front), last.value); }
      forall i, role | 0 <= i < |rows| && FirstNamed(rows, i, role) ensures role in FirstByName(rows) {
        if i < n {
          assert FirstNamed(front, i, role);
        } else {
          NewNameIsGathered(front, role.name);
        }
      }
      forall role | role in FirstByName(rows) ensures exists i :: 0 <= i < |rows| && FirstNamed(rows, i, role) {
        if role in FirstByName(front) {
          var i :| 0 <= i < n && FirstNamed(front, i, role);
          assert FirstNamed(rows, i, role);
        } else {
          assert FirstNamed(rows, n, role);
        }
      }
    }
  }

  /** A name no decodable row carries is not among the gathered names. */
  lemma {:induction false} NewNameIsGathered(rows: seq<Row>, name: string)
    requires forall j :: 0 <= j < |rows| && DecodeRoleRow(rows[j]).Some? ==> DecodeRoleRow(rows[j]).value.name != name
    ensures name !in Names(FirstByName(rows))
  {
    if rows != [] {
      var front := rows[..|rows| - 1];
      NewNameIsGathered(front, name);
      var last := DecodeRoleRow(rows[|rows| - 1]);
      if last.Some? { NamesAppend(FirstByName(front), last.value); }
    }
  }

  lemma {:induction false} GatheredDistinct(rows: seq<Row>)
    ensures KeysDiffer(FirstByName(rows), ByName)
  {
    if rows != [] {
      var n := |rows| - 1;
      var front := FirstByName(rows[..n]);
      GatheredDistinct(rows[..n]);
      var last := DecodeRoleRow(rows[n]);
      if last.Some? && last.value.name !in Names(front) {
        forall i | 0 <= i < |front| ensures ByName(front[i], last.value) || ByName(last.value, front[i]) {
          assert front[i].name in Names(front);
          StrLessTotal(front[i].name, last.value.name);
        }
      }
    }
  }

  lemma ByNameIsSortKey()
    ensures SortKey(ByName)
  {
    forall a, b, c ensures !ByName(a, a) && (ByName(a, b) && ByName(b, c) ==> ByName(a, c)) {
      StrLessIrreflexive(a.name);
      if ByName(a, b) && ByName(b, c) { StrLessTransitive(a.name, b.name, c.name); }
    }
  }

  /** The collected list is strictly sorted by name and holds the gathered roles. */
  lemma CollectedAreSorted(rows: seq<Row>)
    ensures StrictlyOrdered(Sort(FirstByName(rows), ByName), ByName)
    ensures forall role :: role in Sort(FirstByName(rows), ByName) <==> role in FirstByName(rows)
  {
    GatheredDistinct(rows);
    ByNameIsSortKey();
    SortStrict(FirstByName(rows), ByName);
  }

  /** Row `i` is the first that carries the role's name, and the role is that row's. */
  ghost predicate FirstRowOf(rows: seq<Row>, i: nat, role: RoleDetail)
    requires i < |rows|
  {
    && rows[i].data.Some? && IsRoleOf(rows[i].data.value, role)
    && forall j :: 0 <= j < i && rows[j].data.Some? ==> Field(rows[j].data.value, "name") != Text(role.name)
  }

  lemma FirstRowIsFirstNamed(rows: seq<Row>, i: nat, role: RoleDetail)
    requires i < |rows|
    ensures FirstRowOf(rows, i, role) <==> FirstNamed(rows, i, role)
  {
    DecodedIsRole(rows[i]);
    forall j | 0 <= j < i && rows[j].data.Some? && role.name != ""
      ensures Field(rows[j].data.value, "name") == Text(role.name) <==>
              DecodeRoleRow(rows[j]).Some? && DecodeRoleRow(rows[j]).value.name == role.name
    {
    }
  }

  /** The roles collected are exactly those that some row is the first to name, each with the
      lists of that row. */
  lemma CollectedRolesAre(rows: seq<Row>, role: RoleDetail)
    ensures role in Sort(FirstByName(rows), ByName) <==> exists i: nat :: i < |rows| && FirstRowOf(rows, i, role)
  {
    GatheredAreFirst(rows);
    if i: nat :| i < |rows| && FirstRowOf(rows, i, role) {
      FirstRowIsFirstNamed(rows, i, role);
    }
    if role in FirstByName(rows) {
      var i: nat :| i < |rows| && FirstNamed(rows, i, role);
      FirstRowIsFirstNamed(rows, i, role);
    }
  }

  // ---------------------------------------------------------------------------
  // Coverage: does the walk read every row?
  // ---------------------------------------------------------------------------

  /** Every page that has rows left to give gives at least one. */
  ghost predicate NonEmptyPages(server: Server) {
    server.Valid() && forall s :: 0 <= s < |server.index| ==> server.pageLen[s] >= 1
  }

  /** The server caps every page at the same number of rows. */
  ghost predicate ConstantCap(server: Server, cap: nat) {
    server.Valid() && forall s :: 0 <= s < |server.index| ==> server.pageLen[s] == cap
  }

  /** Every page is full but for the last: `stride` rows, or what is left. */
  ghost predicate EvenPages(server: Server, size: nat, stride: nat) {
    && server.Valid() && stride >= 1
    && forall s: nat :: s < |server.index| ==> |PageAt(server, size, s)| == Min(stride, |server.index| - s)
  }

  /** The run of rows that a wave from `n` brings, and whether it met an empty page: it moves
      on, unless the index has no more rows. */
  ghost predicate IsRun(wave: (seq<Row>, bool), index: seq<Row>, n: nat) {
    && n + |wave.0| <= |index| && wave.0 == index[n..n + |wave.0|]
    && if wave.1 then n + |wave.0| == |index| else |wave.0| >= 1
  }

  /** Each wave from within the index that arrives is the run of rows from its own offset. */
  ghost predicate Contiguous(waves: seq<WaveResult>, index: seq<Row>) {
    forall n :: 0 <= n < |waves| && n <= |index| && waves[n].Ok? ==> IsRun(waves[n].value, index, n)
  }

  /** The offsets of the wave from each offset there is. */
  ghost function Requests(total: nat, concurrency: nat, stride: nat): seq<set<nat>> {
    seq(total, next requires 0 <= next < total => set s | s in Offsets(next, stride, total, concurrency))
  }

  /** The offsets requested from `next` on. */
  ghost function Asked(waves: seq<WaveResult>, requests: seq<set<nat>>, next: nat): set<nat>
    requires Progress(waves) && |requests| == |waves|
    decreases |waves| - next
  {
    if next >= |waves| then {}
    else if waves[next].Err? || waves[next].value.1 then requests[next]
    else requests[next] + Asked(waves, requests, next + |waves[next].value.0|)
  }

  /** Every offset the collection requests. */
  ghost function AskedInAll(server: Server, size: nat, concurrency: nat): set<nat>
    requires server.Valid() && concurrency >= 1
  {
    var first := PageAt(server, size, 0);
    if 0 in server.failsAt || first == [] then {0}
    else {0} + Asked(Waves(server, size, concurrency, |first|), Requests(server.total, concurrency, |first|), |first|)
  }

  ghost predicate HitsFailure(failsAt: set<int>, asked: set<nat>) {
    exists s :: s in asked && s in failsAt
  }

  lemma EitherHitsFailure(failsAt: set<int>, a: set<nat>, b: set<nat>)
    ensures HitsFailure(failsAt, a + b) <==> HitsFailure(failsAt, a) || HitsFailure(failsAt, b)
  {
  }

  lemma {:induction false} WalkFailsIff(waves: seq<WaveResult>, requests: seq<set<nat>>, failsAt: set<int>, next: nat)
    requires Progress(waves) && |requests| == |waves|
    requires forall n :: 0 <= n < |waves| ==> (waves[n].Err? <==> HitsFailure(failsAt, requests[n]))
    ensures Walk(waves, next).Err? <==> HitsFailure(failsAt, Asked(waves, requests, next))
    decreases |waves| - next
  {
    if next < |waves| && waves[next].Ok? && !waves[next].value.1 {
      var later := next + |waves[next].value.0|;
      WalkFailsIff(waves, requests, failsAt, later);
      EitherHitsFailure(failsAt, requests[next], Asked(waves, requests, later));
    }
  }

  lemma WaveFailsIff(server: Server, size: nat, concurrency: nat, stride: nat, n: nat)
    requires server.Valid() && concurrency >= 1 && n < server.total
    ensures Waves(server, size, concurrency, stride)[n].Err? <==>
            HitsFailure(server.failsAt, Requests(server.total, concurrency, stride)[n])
  {
    var offsets := Offsets(n, stride, server.total, concurrency);
    assert SomeFails(server, offsets) <==> HitsFailure(server.failsAt, set s | s in offsets);
  }

  /** The collection fails exactly when one of the requests it makes does. */
  lemma FailsIffARequestDoes(server: Server, size: nat, concurrency: nat)
    requires server.Valid() && concurrency >= 1
    ensures RowsRead(server, size, concurrency).Err? <==> HitsFailure(server.failsAt, AskedInAll(server, size, concurrency))
  {
    var first := PageAt(server, size, 0);
    if 0 !in server.failsAt && first != [] {
      var waves, requests := Waves(server, size, concurrency, |first|), Requests(server.total, concurrency, |first|);
      forall n: nat | n < server.total ensures waves[n].Err? <==> HitsFailure(server.failsAt, requests[n]) {
        WaveFailsIff(server, size, concurrency, |first|, n);
      }
      WalkFailsIff(waves, requests, server.failsAt, |first|);
      EitherHitsFailure(server.failsAt, {0}, Asked(waves, requests, |first|));
    }
  }

  /** An error exactly when a request fails; otherwise the rows read are a first part of the
      index that reaches at least to the claimed total, so all of it unless the server claims
      fewer rows than it has. */
  ghost predicate ReadsAll(server: Server, size: nat, concurrency: nat)
    requires server.Valid() && concurrency >= 1
  {
    var r := RowsRead(server, size, concurrency);
    && (r.Err? <==> HitsFailure(server.failsAt, AskedInAll(server, size, concurrency)))
    && (r.Ok? ==> r.value <= server.index && |r.value| >= Min(server.total, |server.index|))
  }

  lemma {:induction false} ContiguousWalk(waves: seq<WaveResult>, index: seq<Row>, next: nat) returns (end: nat)
    requires Contiguous(waves, index) && Progress(waves) && next <= |index|
    ensures next <= end <= |index| && (Walk(waves, next).Ok? ==> end >= Min(|waves|, |index|))
    ensures Walk(waves, next).Ok? ==> Walk(waves, next).value == index[next..end]
    decreases |index| - next
  {
    end := next;
    if next >= |waves| {
      assert index[next..next] == [];
    } else if waves[next].Ok? {
      assert IsRun(waves[next].value, index, next);
      var rows := waves[next].value.0;
      end := next + |rows|;
      if !waves[next].value.1 {
        end := ContiguousWalk(waves, index, next + |rows|);
        SliceJoin(index, next, next + |rows|, end);
      }
    }
  }

  lemma WaveCons(server: Server, size: nat, start: nat, later: seq<nat>)
    requires server.Valid() && PageAt(server, size, start) != []
    ensures WaveRows(server, size, [start] + later) ==
            (PageAt(server, size, start) + WaveRows(server, size, later).0, WaveRows(server, size, later).1)
  {
  }

  lemma SliceJoin(index: seq<Row>, a: nat, b: nat, c: nat)
    requires a <= b <= c <= |index|
    ensures index[a..b] + index[b..c] == index[a..c]
  {
  }

  /** Past the end of the index there are only empty pages. */
  lemma PastTheEnd(server: Server, size: nat, offsets: seq<nat>)
    requires server.Valid() && (offsets != [] ==> offsets[0] >= |server.index|)
    ensures WaveRows(server, size, offsets) == ([], offsets != [])
  {
  }

  /** A page and what the rest of its wave brings make one run. */
  lemma RunCons(index: seq<Row>, start: nat, middle: nat, rest: (seq<Row>, bool))
    requires start < middle <= |index|
    requires rest == ([], false) || IsRun(rest, index, middle)
    ensures IsRun((index[start..middle] + rest.0, rest.1), index, start)
  {
    if rest == ([], false) {
      assert index[start..middle] + [] == index[start..middle];
    } else {
      SliceJoin(index, start, middle, middle + |rest.0|);
    }
  }

  lemma EndIsRun(index: seq<Row>)
    ensures IsRun(([], true), index, |index|)
  {
    assert index[|index|..|index|] == [];
  }

  /** Offsets one stride apart. */
  ghost predicate Strides(offsets: seq<nat>, stride: nat) {
    forall i :: 0 < i < |offsets| ==> offsets[i] == offsets[i - 1] + stride
  }

  lemma {:induction false} OffsetsStride(start: nat, stride: nat, total: nat, count: nat)
    ensures Strides(Offsets(start, stride, total, count), stride)
    ensures Offsets(start, stride, total, count) != [] ==> Offsets(start, stride, total, count)[0] == start
    decreases count
  {
    if count > 0 && start < total { OffsetsStride(start + stride, stride, total, count - 1); }
  }

  lemma EvenPage(server: Server, size: nat, stride: nat, start: nat)
    requires EvenPages(server, size, stride) && start < |server.index|
    ensures PageAt(server, size, start) == server.index[start..Min(start + stride, |server.index|)] != []
  {
    assert |PageAt(server, size, start)| == Min(stride, |server.index| - start);
  }

  lemma {:induction false} EvenWave(server: Server, size: nat, stride: nat, offsets: seq<nat>)
    requires EvenPages(server, size, stride) && Strides(offsets, stride)
    requires offsets != [] && offsets[0] <= |server.index|
    ensures IsRun(WaveRows(server, size, offsets), server.index, offsets[0])
    decreases |offsets|
  {
    var index, start, later := server.index, offsets[0], offsets[1..];
    EndIsRun(index);
    if start < |index| {
      EvenPage(server, size, stride, start);
      if later == [] || later[0] >= |index| {
        PastTheEnd(server, size, later);
      } else {
        EvenWave(server, size, stride, later);
      }
      RunCons(index, start, Min(start + stride, |index|), WaveRows(server, size, later));
    }
  }

  lemma EvenWavesContiguous(server: Server, size: nat, stride: nat, concurrency: nat)
    requires EvenPages(server, size, stride) && concurrency >= 1
    ensures Contiguous(Waves(server, size, concurrency, stride), server.index)
  {
    forall n: nat | n < server.total && n <= |server.index| && Wave(server, size, concurrency, stride, n).Ok?
      ensures IsRun(Wave(server, size, concurrency, stride, n).value, server.index, n)
    {
      OffsetsStride(n, stride, server.total, concurrency);
      EvenWave(server, size, stride, Offsets(n, stride, server.total, concurrency));
    }
  }

  lemma SingleWave(server: Server, size: nat, stride: nat, n: nat)
    requires NonEmptyPages(server) && size >= 1 && n < server.total && n <= |server.index|
    ensures IsRun(WaveRows(server, size, Offsets(n, stride, server.total, 1)), server.index, n)
  {
    assert Offsets(n, stride, server.total, 1) == [n];
    if n == |server.index| {
      PastTheEnd(server, size, [n]);
      assert server.index[n..n] == [];
    } else {
      WaveCons(server, size, n, []);
      assert [n] + [] == [n];
      assert PageAt(server, size, n) + [] == PageAt(server, size, n);
    }
  }

  lemma SingleWavesContiguous(server: Server, size: nat, stride: nat)
    requires NonEmptyPages(server) && size >= 1
    ensures Contiguous(Waves(server, size, 1, stride), server.index)
  {
    forall n: nat | n < server.total && n <= |server.index| && Wave(server, size, 1, stride, n).Ok?
      ensures IsRun(Wave(server, size, 1, stride, n).value, server.index, n)
    {
      SingleWave(server, size, stride, n);
    }
  }

  lemma ContiguousIsReadWhole(server: Server, size: nat, concurrency: nat)
    requires server.Valid() && concurrency >= 1 && (server.index != [] ==> PageAt(server, size, 0) != [])
    requires Contiguous(Waves(server, size, concurrency, |PageAt(server, size, 0)|), server.index)
    ensures ReadsAll(server, size, concurrency)
  {
    FailsIffARequestDoes(server, size, concurrency);
    var first := PageAt(server, size, 0);
    if first != [] {
      var end := ContiguousWalk(Waves(server, size, concurrency, |first|), server.index, |first|);
      SliceJoin(server.index, 0, |first|, end);
    }
  }

  /** A constant page cap, lower or higher than the page size asked for, never loses a
      row, whatever the page size and the number of concurrent requests. */
  lemma CappedServerIsReadWhole(server: Server, cap: nat, pageSize: int, concurrency: int)
    requires ConstantCap(server, cap) && cap >= 1
    ensures ReadsAll(server, PageSize(pageSize), Workers(concurrency))
  {
    var size, workers := PageSize(pageSize), Workers(concurrency);
    if server.index == [] {
      FailsIffARequestDoes(server, size, workers);
    } else {
      var stride := |PageAt(server, size, 0)|;
      assert EvenPages(server, size, stride);
      EvenWavesContiguous(server, size, stride, workers);
      ContiguousIsReadWhole(server, size, workers);
    }
  }

  /** One request at a time never loses a row, however page lengths vary. */
  lemma SingleRequestsReadWhole(server: Server, pageSize: int, concurrency: int)
    requires NonEmptyPages(server) && concurrency <= 1
    ensures ReadsAll(server, PageSize(pageSize), Workers(concurrency))
  {
    var size := PageSize(pageSize);
    SingleWavesContiguous(server, size, |PageAt(server, size, 0)|);
    ContiguousIsReadWhole(server, size, 1);
  }

  /** Pages of one row leave no room for pages to vary. */
  lemma UnitPagesReadWhole(server: Server, concurrency: int)
    requires NonEmptyPages(server)
    ensures ReadsAll(server, 1, Workers(concurrency))
  {
    if server.index == [] {
      FailsIffARequestDoes(server, 1, Workers(concurrency));
    } else {
      EvenWavesContiguous(server, 1, 1, Workers(concurrency));
      ContiguousIsReadWhole(server, 1, Workers(concurrency));
    }
  }

  // --- Concurrent requests against pages of varying length --------------------

  function NameOf(i: nat): string { seq(i + 1, _ => 'r') }

  function NamedRow(i: nat): Row { Row(Some(map["name" := Text(NameOf(i))])) }

  /** `concurrency + 2` roles on pages of one row each, except that the second page
      holds two. */
  function UnevenServer(concurrency: nat): Server {
    Server(
      seq(concurrency + 2, i requires 0 <= i => NamedRow(i)),
      concurrency + 2,
      seq(concurrency + 2, i => if i == 1 then 2 else 1),
      {})
  }

  lemma UnevenPage(concurrency: nat, size: nat, start: nat)
    requires size >= 2 && 2 <= start < concurrency + 2
    ensures var server := UnevenServer(concurrency); PageAt(server, size, start) == server.index[start..start + 1]
  {
    assert UnevenServer(concurrency).pageLen[start] == 1;
  }

  /** A wave of pages of one row each. */
  lemma {:induction false} UnitWave(server: Server, size: nat, start: nat, count: nat)
    requires server.Valid() && start + count <= |server.index| && start + count <= server.total
    requires forall s: nat :: start <= s < start + count ==> PageAt(server, size, s) == server.index[s..s + 1]
    ensures WaveRows(server, size, Offsets(start, 1, server.total, count)) == (server.index[start..start + count], false)
    decreases count
  {
    if count == 0 {
      assert server.index[start..start] == [];
    } else {
      UnitWave(server, size, start + 1, count - 1);
      assert PageAt(server, size, start) == server.index[start..start + 1];
      WaveCons(server, size, start, Offsets(start + 1, 1, server.total, count - 1));
      SliceJoin(server.index, start, start + 1, start + count);
    }
  }

  /** The rows read from the uneven server: the first, the double page, and the pages
      after the double page's first row. */
  function UnevenRows(concurrency: nat): seq<Row>
    requires concurrency >= 2
  {
    var index := UnevenServer(concurrency).index;
    index[..1] + (index[1..3] + index[2..concurrency + 1])
  }

  lemma UnevenRowsRead(concurrency: nat, size: nat)
    requires concurrency >= 2 && size >= 2
    ensures RowsRead(UnevenServer(concurrency), size, concurrency) == Ok(UnevenRows(concurrency))
  {
    var server := UnevenServer(concurrency);
    assert PageAt(server, size, 0) == server.index[..1];
    assert PageAt(server, size, 1) == server.index[1..3];
    forall s: nat | 2 <= s < concurrency + 1 ensures PageAt(server, size, s) == server.index[s..s + 1] {
      UnevenPage(concurrency, size, s);
    }
    UnitWave(server, size, 2, concurrency - 1);
    WaveCons(server, size, 1, Offsets(2, 1, server.total, concurrency - 1));
    var wave := server.index[1..3] + server.index[2..concurrency + 1];
    var waves := Waves(server, size, concurrency, 1);
    assert waves[1] == Ok((wave, false));
    assert 1 + |wave| == |waves|;
    assert wave + [] == wave;
    assert Walk(waves, 1) == Ok(wave);
  }

  /** With two or more requests in flight the extra row pushes the next wave past a row
      nobody asked for: the last role is never read. */
  lemma UnevenServerLosesARole(concurrency: nat, size: nat)
    requires concurrency >= 2 && size >= 2
    ensures RowsRead(UnevenServer(concurrency), size, concurrency).Ok?
    ensures NameOf(concurrency + 1) !in Names(FirstByName(RowsRead(UnevenServer(concurrency), size, concurrency).value))
    ensures NameOf(concurrency + 1) in Names(FirstByName(UnevenServer(concurrency).index))
  {
    UnevenRowsRead(concurrency, size);
    UnevenRowsAreEarlier(concurrency);
    OnlyEarlierRolesGathered(UnevenRows(concurrency), concurrency + 1);
    RoleIsGathered(UnevenServer(concurrency).index, concurrency + 1);
  }

  lemma RoleIsGathered(index: seq<Row>, n: nat)
    requires n < |index| && index[n] == NamedRow(n)
    ensures NameOf(n) in Names(FirstByName(index))
  {
    GatheredAreFirst(index);
    assert index[n] in index && DecodeRoleRow(index[n]).value.name == NameOf(n);
  }

  lemma UnevenRowsAreEarlier(concurrency: nat)
    requires concurrency >= 2
    ensures var rows := UnevenRows(concurrency); forall j :: 0 <= j < |rows| ==> AmongFirst(rows[j], concurrency + 1)
  {
    var rows := UnevenRows(concurrency);
    forall j | 0 <= j < |rows| ensures AmongFirst(rows[j], concurrency + 1) {
      var k: nat := if j < 3 then j else j - 1;
      assert rows[j] == NamedRow(k);
    }
  }

  ghost predicate AmongFirst(row: Row, n: nat) {
    exists k: nat :: k < n && row == NamedRow(k)
  }

  /** Rows of the first `n` roles never give role number `n`. */
  lemma OnlyEarlierRolesGathered(rows: seq<Row>, n: nat)
    requires forall j :: 0 <= j < |rows| ==> AmongFirst(rows[j], n)
    ensures NameOf(n) !in Names(FirstByName(rows))
  {
    GatheredAreFirst(rows);
    forall i | 0 <= i < |FirstByName(rows)| ensures FirstByName(rows)[i].name != NameOf(n) {
      var role := FirstByName(rows)[i];
      assert role in FirstByName(rows);
      var j :| 0 <= j < |rows| && FirstNamed(rows, j, role);
      assert AmongFirst(rows[j], n);
      var k: nat :| k < n && rows[j] == NamedRow(k);
      assert |role.name| == k + 1;
    }
  }

  /** The roles collected are those of the index. */
  ghost predicate CollectsIndex(server: Server, size: nat, concurrency: nat)
    requires server.Valid() && concurrency >= 1
  {
    var r := RowsRead(server, size, concurrency);
    r.Ok? && FirstByName(r.value) == FirstByName(server.index)
  }

  /** No page is empty, nothing fails, and the claimed total is not too low. */
  ghost predicate Dependable(server: Server) {
    NonEmptyPages(server) && server.failsAt == {} && server.total >= |server.index|
  }

  /** Whether the walk can be trusted on every index whose pages vary in length (none
      being empty): exactly when requests go one at a time or ask for one row each. */
  lemma VaryingPagesCollectedIff(pageSize: int, concurrency: int)
    ensures (forall server :: Dependable(server) ==> CollectsIndex(server, PageSize(pageSize), Workers(concurrency)))
            <==> concurrency <= 1 || pageSize == 1
  {
    var size, workers := PageSize(pageSize), Workers(concurrency);
    if concurrency <= 1 || pageSize == 1 {
      forall server | Dependable(server) ensures CollectsIndex(server, size, workers) {
        if concurrency <= 1 {
          SingleRequestsReadWhole(server, pageSize, concurrency);
        } else {
          UnitPagesReadWhole(server, concurrency);
        }
        assert RowsRead(server, size, workers).value == server.index;
      }
    } else {
      UnevenServerLosesARole(workers, size);
      assert Dependable(UnevenServer(workers));
      assert !CollectsIndex(UnevenServer(workers), size, workers);
    }
  }
}
