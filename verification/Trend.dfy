/** The trend recomputed from stored fingerprints (internal/analysis/cookstyle_recompute.go).

    Times are integers: nanoseconds since the epoch. */
module Trend {
  import opened CopClassification
  import opened Fingerprint
  import opened Ordering
  import opened Wrappers

  datatype Kind = ServerCookbook | GitRepo

  datatype Row = Row(
    kind: Kind, organisation: string, cookbook: string, version: string,
    repoName: string, repoUrl: string, target: string,
    scannedAt: int, cops: seq<Entry>)

  datatype History = History(key: string, rows: seq<Row>)

  // ---------------------------------------------------------------------------
  // Grouping rows into histories
  // ---------------------------------------------------------------------------

  const NUL: string := ['\0']

  function ResultKey(r: Row): string {
    match r.kind
    case ServerCookbook =>
      "server" + NUL + r.organisation + NUL + r.cookbook + NUL + r.version + NUL + r.target
    case GitRepo => "git" + NUL + r.repoName + NUL + r.repoUrl + NUL + r.target
  }

  /** The rows of one key, in order. */
  function RowsOf(rows: seq<Row>, key: string): seq<Row> {
    if rows == [] then []
    else
      var front := RowsOf(rows[..|rows| - 1], key);
      if ResultKey(rows[|rows| - 1]) == key then front + [rows[|rows| - 1]] else front
  }

  lemma {:induction false} RowsOfKey(rows: seq<Row>, key: string)
    ensures forall r :: r in RowsOf(rows, key) <==> r in rows && ResultKey(r) == key
  {
    if rows != [] {
      RowsOfKey(rows[..|rows| - 1], key);
      assert rows == rows[..|rows| - 1] + [rows[|rows| - 1]];
    }
  }

  function HistoryKeys(histories: seq<History>): (r: seq<string>)
    ensures |r| == |histories|
    ensures forall i :: 0 <= i < |r| ==> r[i] == histories[i].key
  {
    seq(|histories|, i requires 0 <= i < |histories| => histories[i].key)
  }

  /** The keys that occur, in the order of their first rows. */
  function KeysSeen(rows: seq<Row>): seq<string> {
    if rows == [] then []
    else
      var front, key := KeysSeen(rows[..|rows| - 1]), ResultKey(rows[|rows| - 1]);
      if key in front then front else front + [key]
  }

  /** One history for each key that occurs, in the order of first rows, holding that key's
      rows in their order. */
  ghost predicate IsGrouping(histories: seq<History>, rows: seq<Row>) {
    && HistoryKeys(histories) == KeysSeen(rows)
    && Distinct(HistoryKeys(histories))
    && (forall i :: 0 <= i < |histories| ==> histories[i].rows == RowsOf(rows, histories[i].key) != [])
    && (forall r :: r in rows ==> ResultKey(r) in HistoryKeys(histories))
  }

  lemma RowsOfAppend(rows: seq<Row>, row: Row, key: string)
    ensures RowsOf(rows + [row], key) == RowsOf(rows, key) + if ResultKey(row) == key then [row] else []
    ensures KeysSeen(rows + [row]) == KeysSeen(rows) + if ResultKey(row) in KeysSeen(rows) then [] else [ResultKey(row)]
  {
  }

  lemma NewHistory(histories: seq<History>, rows: seq<Row>, row: Row)
    requires IsGrouping(histories, rows) && ResultKey(row) !in HistoryKeys(histories)
    ensures var longer := histories + [History(ResultKey(row), [row])];
            IsGrouping(longer, rows + [row]) && HistoryKeys(longer) == HistoryKeys(histories) + [ResultKey(row)]
  {
    var key := ResultKey(row);
    var longer := histories + [History(key, [row])];
    assert HistoryKeys(longer) == HistoryKeys(histories) + [key];
    RowsOfKey(rows, key);
    HasMember(RowsOf(rows, key));
    RowsOfAppend(rows, row, key);
    forall i | 0 <= i < |longer| ensures longer[i].rows == RowsOf(rows + [row], longer[i].key) != [] {
      if i < |histories| {
        assert HistoryKeys(histories)[i] != key;
        RowsOfAppend(rows, row, histories[i].key);
      }
    }
  }

  lemma LongerHistory(histories: seq<History>, rows: seq<Row>, row: Row, pos: nat)
    requires IsGrouping(histories, rows) && pos < |histories| && histories[pos].key == ResultKey(row)
    ensures var longer := histories[pos := History(ResultKey(row), histories[pos].rows + [row])];
            IsGrouping(longer, rows + [row]) && HistoryKeys(longer) == HistoryKeys(histories)
  {
  }

  /** The index knows every history's place by its key. */
  ghost predicate Indexes(index: map<string, nat>, histories: seq<History>) {
    && (forall k :: k in index <==> k in HistoryKeys(histories))
    && (forall k :: k in index ==> index[k] < |histories| && histories[index[k]].key == k)
  }

  lemma IndexesNew(index: map<string, nat>, histories: seq<History>, key: string, rows: seq<Row>)
    requires Indexes(index, histories)
    ensures Indexes(index[key := |histories|], histories + [History(key, rows)])
  {
    assert HistoryKeys(histories + [History(key, rows)]) == HistoryKeys(histories) + [key];
  }

  lemma IndexesSame(index: map<string, nat>, histories: seq<History>, key: string, rows: seq<Row>)
    requires Indexes(index, histories) && key in index
    ensures Indexes(index, histories[index[key] := History(key, rows)])
  {
    assert HistoryKeys(histories[index[key] := History(key, rows)]) == HistoryKeys(histories);
  }

  method GroupHistories(rows: seq<Row>) returns (histories: seq<History>)
    ensures IsGrouping(histories, rows)
  {
    histories := [];
    var index: map<string, nat> := map[];
    for n := 0 to |rows|
      invariant IsGrouping(histories, rows[..n])
      invariant Indexes(index, histories)
    {
      var key := ResultKey(rows[n]);
      assert rows[..n + 1] == rows[..n] + [rows[n]];
      if key !in index {
        NewHistory(histories, rows[..n], rows[n]);
        IndexesNew(index, histories, key, [rows[n]]);
        index := index[key := |histories|];
        histories := histories + [History(key, [rows[n]])];
      } else {
        var pos := index[key];
        LongerHistory(histories, rows[..n], rows[n], pos);
        IndexesSame(index, histories, key, histories[pos].rows + [rows[n]]);
        histories := histories[pos := History(key, histories[pos].rows + [rows[n]])];
      }
    }
    assert rows[..|rows|] == rows;
  }

  /** Which rows have the key. */
  function HaveKey(rows: seq<Row>, key: string): (r: seq<bool>)
    ensures |r| == |rows| && forall i :: 0 <= i < |r| ==> r[i] == (ResultKey(rows[i]) == key)
  {
    seq(|rows|, i requires 0 <= i < |rows| => ResultKey(rows[i]) == key)
  }

  lemma {:induction false} RowsInOrder(rows: seq<Row>, key: string) returns (at: seq<nat>)
    ensures Picks(rows, HaveKey(rows, key), RowsOf(rows, key), at)
  {
    at := [];
    if rows != [] {
      var n := |rows| - 1;
      var front := RowsInOrder(rows[..n], key);
      PicksNext(rows[..n], HaveKey(rows[..n], key), RowsOf(rows[..n], key), front, rows[n]);
      assert rows == rows[..n] + [rows[n]];
      assert HaveKey(rows, key) == HaveKey(rows[..n], key) + [ResultKey(rows[n]) == key];
      at := if ResultKey(rows[n]) == key then front + [n] else front;
    }
  }

  /** `at[k]` is where key `k` comes first, and these places ascend. */
  ghost predicate FirstSeenAt(rows: seq<Row>, keys: seq<string>, at: seq<nat>) {
    && |at| == |keys| && Increasing(at)
    && (forall k :: 0 <= k < |at| ==> at[k] < |rows| && IsFirstOf(rows, keys[k], at[k]))
  }

  ghost predicate IsFirstOf(rows: seq<Row>, key: string, i: nat)
    requires i < |rows|
  {
    ResultKey(rows[i]) == key && forall j :: 0 <= j < i ==> ResultKey(rows[j]) != key
  }

  lemma FirstSeenStep(rows: seq<Row>, keys: seq<string>, at: seq<nat>, row: Row)
    requires FirstSeenAt(rows, keys, at) && forall i :: 0 <= i < |rows| ==> ResultKey(rows[i]) in keys
    ensures FirstSeenAt(rows + [row], keys, at)
    ensures ResultKey(row) !in keys ==> FirstSeenAt(rows + [row], keys + [ResultKey(row)], at + [|rows|])
  {
    forall k | 0 <= k < |at| ensures IsFirstOf(rows + [row], keys[k], at[k]) {
      assert IsFirstOf(rows, keys[k], at[k]);
    }
    if ResultKey(row) !in keys {
      assert IsFirstOf(rows + [row], ResultKey(row), |rows|);
    }
  }

  lemma {:induction false} AllKeysSeen(rows: seq<Row>)
    ensures forall i :: 0 <= i < |rows| ==> ResultKey(rows[i]) in KeysSeen(rows)
  {
    if rows != [] {
      var n := |rows| - 1;
      AllKeysSeen(rows[..n]);
      forall i | 0 <= i < n ensures ResultKey(rows[i]) in KeysSeen(rows[..n]) { assert rows[..n][i] == rows[i]; }
    }
  }

  lemma {:induction false} KeysInOrder(rows: seq<Row>) returns (at: seq<nat>)
    ensures FirstSeenAt(rows, KeysSeen(rows), at)
  {
    at := [];
    if rows != [] {
      var n := |rows| - 1;
      var front := KeysInOrder(rows[..n]);
      AllKeysSeen(rows[..n]);
      FirstSeenStep(rows[..n], KeysSeen(rows[..n]), front, rows[n]);
      assert rows == rows[..n] + [rows[n]];
      at := if ResultKey(rows[n]) in KeysSeen(rows[..n]) then front else front + [n];
    }
  }

  ghost predicate InOrder(h: History, rows: seq<Row>) { exists at :: Picks(rows, HaveKey(rows, h.key), h.rows, at) }

  /** A history is the ordered list of all its key's rows, and histories come in the order of
      their first rows. */
  lemma HistoriesInOrder(histories: seq<History>, rows: seq<Row>) returns (at: seq<nat>)
    requires IsGrouping(histories, rows)
    ensures FirstSeenAt(rows, HistoryKeys(histories), at)
    ensures forall i :: 0 <= i < |histories| ==> InOrder(histories[i], rows)
  {
    at := KeysInOrder(rows);
    forall i | 0 <= i < |histories| ensures InOrder(histories[i], rows) {
      var places := RowsInOrder(rows, histories[i].key);
      assert histories[i].rows == RowsOf(rows, histories[i].key);
    }
  }

  // --- When a key identifies its result ----------------------------------------

  /** The fields that identify a result, in the order of the key. */
  function Identity(r: Row): seq<string> {
    match r.kind
    case ServerCookbook => [r.organisation, r.cookbook, r.version, r.target]
    case GitRepo => [r.repoName, r.repoUrl, r.target]
  }

  /** The rows belong to the same result: the same cookbook version, or the same
      repository, against the same target. */
  predicate SameResult(a: Row, b: Row) { a.kind == b.kind && Identity(a) == Identity(b) }

  predicate NulFree(s: string) { '\0' !in s }

  ghost predicate NulFreeIdentity(r: Row) { forall i :: 0 <= i < |Identity(r)| ==> NulFree(Identity(r)[i]) }

  /** Fields with a NUL between each two. */
  function Joined(fields: seq<string>): string
    requires fields != []
  {
    if |fields| == 1 then fields[0] else fields[0] + NUL + Joined(fields[1..])
  }

  lemma KeyIsJoined(r: Row)
    ensures ResultKey(r) == (if r.kind.GitRepo? then "git" else "server") + NUL + Joined(Identity(r))
  {
    match r.kind
    case ServerCookbook =>
      JoinedFour(r.organisation, r.cookbook, r.version, r.target);
      var rest := r.version + NUL + r.target;
      Reassociate("server" + NUL + r.organisation + NUL + r.cookbook, r.version, r.target);
      Reassociate("server" + NUL + r.organisation, r.cookbook, rest);
      Reassociate("server", r.organisation, r.cookbook + NUL + rest);
    case GitRepo =>
      JoinedThree(r.repoName, r.repoUrl, r.target);
      Reassociate("git" + NUL + r.repoName, r.repoUrl, r.target);
      Reassociate("git", r.repoName, r.repoUrl + NUL + r.target);
  }

  lemma Reassociate(front: string, a: string, b: string)
    ensures front + NUL + a + NUL + b == front + NUL + (a + NUL + b)
  {
    Associate(front + NUL, a, NUL);
    Associate(front + NUL, a + NUL, b);
  }

  lemma Associate(a: string, b: string, c: string)
    ensures (a + b) + c == a + (b + c)
  {
  }

  lemma JoinedThree(a: string, b: string, c: string)
    ensures Joined([a, b, c]) == a + NUL + (b + NUL + c)
  {
    assert [a, b, c][1..] == [b, c] && [b, c][1..] == [c];
    assert Joined([b, c]) == b + NUL + c;
  }

  lemma JoinedFour(a: string, b: string, c: string, d: string)
    ensures Joined([a, b, c, d]) == a + NUL + (b + NUL + (c + NUL + d))
  {
    JoinedThree(b, c, d);
    assert [a, b, c, d][1..] == [b, c, d];
  }

  function Nuls(s: string): nat {
    if s == "" then 0 else (if s[0] == '\0' then 1 else 0) + Nuls(s[1..])
  }

  lemma {:induction false} NulsAppend(a: string, b: string)
    ensures Nuls(a + b) == Nuls(a) + Nuls(b)
  {
    if a == "" {
      assert a + b == b;
    } else {
      NulsAppend(a[1..], b);
      assert (a + b)[1..] == a[1..] + b;
    }
  }

  lemma {:induction false} NulFreeIff(s: string)
    ensures NulFree(s) <==> Nuls(s) == 0
  {
    if s != "" {
      NulFreeIff(s[1..]);
      assert s == [s[0]] + s[1..];
    }
  }

  /** Joining adds one NUL between each two fields, so as many as there are fields but one
      means that no field has any. */
  lemma {:induction false} JoinedNuls(fields: seq<string>)
    requires fields != []
    ensures Nuls(Joined(fields)) >= |fields| - 1
    ensures Nuls(Joined(fields)) == |fields| - 1 <==> forall i :: 0 <= i < |fields| ==> NulFree(fields[i])
  {
    NulFreeIff(fields[0]);
    if |fields| > 1 {
      JoinedNuls(fields[1..]);
      NulsAppend(fields[0] + NUL, Joined(fields[1..]));
      NulsAppend(fields[0], NUL);
      assert Nuls(NUL) == 1 + Nuls("");
      assert (forall i :: 0 <= i < |fields| ==> NulFree(fields[i])) <==>
             NulFree(fields[0]) && forall i :: 0 <= i < |fields[1..]| ==> NulFree(fields[1..][i]);
    }
  }

  lemma SplitAtNul(a: string, x: string, b: string, y: string)
    requires NulFree(a) && NulFree(b) && a + NUL + x == b + NUL + y
    ensures a == b && x == y
  {
    var s, t := a + NUL + x, b + NUL + y;
    assert s[|a|] == '\0' && t[|b|] == '\0';
    assert forall i :: 0 <= i < |a| ==> s[i] == a[i];
    assert forall i :: 0 <= i < |b| ==> t[i] == b[i];
    assert |a| == |b|;
    assert a == s[..|a|] && b == t[..|b|];
    assert x == s[|a| + 1..] && y == t[|b| + 1..];
  }

  lemma {:induction false} JoinedInjective(a: seq<string>, b: seq<string>)
    requires |a| == |b| > 0 && Joined(a) == Joined(b)
    requires forall i :: 0 <= i < |a| ==> NulFree(a[i])
    ensures a == b
  {
    JoinedNuls(a);
    JoinedNuls(b);
    if |a| > 1 {
      SplitAtNul(a[0], Joined(a[1..]), b[0], Joined(b[1..]));
      JoinedInjective(a[1..], b[1..]);
      assert a == [a[0]] + a[1..] && b == [b[0]] + b[1..];
    }
  }

  /** What follows a NUL inside a field may as well open the next one. */
  lemma {:induction false} NulMovesOn(fields: seq<string>, i: nat, head: string, tail: string)
    requires i + 1 < |fields| && fields[i] == head + NUL + tail
    ensures Joined(fields[i := head][i + 1 := tail + NUL + fields[i + 1]]) == Joined(fields)
  {
    var moved := fields[i := head][i + 1 := tail + NUL + fields[i + 1]];
    if i > 0 {
      NulMovesOn(fields[1..], i - 1, head, tail);
      assert moved[1..] == fields[1..][i - 1 := head][i := tail + NUL + fields[i + 1]];
    } else {
      var next, rest := fields[1], fields[2..];
      assert fields[1..][1..] == rest && moved[1..][1..] == rest && moved[1..][0] == tail + NUL + next;
      if |fields| == 2 {
        assert head + NUL + (tail + NUL + next) == (head + NUL + tail) + NUL + next;
      } else {
        assert head + NUL + ((tail + NUL + next) + NUL + Joined(rest)) == (head + NUL + tail) + NUL + (next + NUL + Joined(rest));
      }
    }
  }

  /** Other fields, as many, that join to the same string. */
  lemma OtherFields(fields: seq<string>, i: nat) returns (other: seq<string>)
    requires |fields| >= 2 && i < |fields| && !NulFree(fields[i])
    ensures |other| == |fields| && other != fields && Joined(other) == Joined(fields)
  {
    var at :| 0 <= at < |fields[i]| && fields[i][at] == '\0';
    var head, tail := fields[i][..at], fields[i][at + 1..];
    assert fields[i] == head + NUL + tail;
    if i + 1 < |fields| {
      other := fields[i := head][i + 1 := tail + NUL + fields[i + 1]];
      NulMovesOn(fields, i, head, tail);
      assert other[i] != fields[i];
    } else {
      other := fields[i - 1 := fields[i - 1] + NUL + head][i := tail];
      NulMovesOn(other, i - 1, fields[i - 1], head);
      assert other[i - 1 := fields[i - 1]][i := head + NUL + tail] == fields;
      assert other[i] != fields[i];
    }
  }

  /** The row of a result with the given identity. */
  function WithIdentity(r: Row, f: seq<string>): Row
    requires |f| == |Identity(r)|
  {
    match r.kind
    case ServerCookbook => r.(organisation := f[0], cookbook := f[1], version := f[2], target := f[3])
    case GitRepo => r.(repoName := f[0], repoUrl := f[1], target := f[2])
  }

  lemma KeysOfOneKind(a: Row, b: Row)
    requires ResultKey(a) == ResultKey(b)
    ensures a.kind == b.kind && Joined(Identity(a)) == Joined(Identity(b))
  {
    KeyIsJoined(a);
    KeyIsJoined(b);
    var tagA, tagB := if a.kind.GitRepo? then "git" else "server", if b.kind.GitRepo? then "git" else "server";
    SplitAtNul(tagA, Joined(Identity(a)), tagB, Joined(Identity(b)));
  }

  /** A key belongs to one result alone exactly when no identity field of that result has a
      NUL in it. */
  lemma KeyIdentifiesResultIff(a: Row)
    ensures (forall b :: ResultKey(a) == ResultKey(b) ==> SameResult(a, b)) <==> NulFreeIdentity(a)
  {
    if NulFreeIdentity(a) {
      forall b | ResultKey(a) == ResultKey(b) ensures SameResult(a, b) {
        KeysOfOneKind(a, b);
        JoinedInjective(Identity(a), Identity(b));
      }
    } else {
      var i: nat :| i < |Identity(a)| && !NulFree(Identity(a)[i]);
      var other := OtherFields(Identity(a), i);
      var b := WithIdentity(a, other);
      assert Identity(b) == other;
      KeyIsJoined(a);
      KeyIsJoined(b);
      assert ResultKey(a) == ResultKey(b) && !SameResult(a, b);
    }
  }

  /** So rows whose texts hold no NUL share a key exactly when they belong to one result. */
  lemma KeyIdentifiesResult(a: Row, b: Row)
    requires NulFreeIdentity(a)
    ensures ResultKey(a) == ResultKey(b) <==> SameResult(a, b)
  {
    KeyIdentifiesResultIff(a);
    KeyIsJoined(a);
    KeyIsJoined(b);
  }

  // ---------------------------------------------------------------------------
  // The fingerprint in force at a time
  // ---------------------------------------------------------------------------

  /** How many leading rows were scanned by time `t`. */
  function ScannedBy(rows: seq<Row>, t: int): (n: nat)
    ensures n <= |rows|
    ensures n < |rows| ==> rows[n].scannedAt > t
    ensures forall i :: 0 <= i < n ==> rows[i].scannedAt <= t
  {
    if rows == [] || rows[0].scannedAt > t then 0 else 1 + ScannedBy(rows[1..], t)
  }

  function ValidAt(rows: seq<Row>, t: int): Option<seq<Entry>> {
    var n := ScannedBy(rows, t);
    if n == 0 then None else Some(rows[n - 1].cops)
  }

  method FingerprintValidAt(rows: seq<Row>, t: int) returns (cops: Option<seq<Entry>>)
    ensures cops == ValidAt(rows, t)
  {
    var idx := -1;
    var i := 0;
    while i < |rows|
      invariant 0 <= i <= |rows| && idx == i - 1
      invariant forall j :: 0 <= j < i ==> rows[j].scannedAt <= t
    {
      if rows[i].scannedAt > t {
        break;
      }
      idx := i;
      i := i + 1;
    }
    if idx < 0 {
      return None;
    }
    return Some(rows[idx].cops);
  }

  ghost predicate Ascending(rows: seq<Row>) {
    forall i, j :: 0 <= i < j < |rows| ==> rows[i].scannedAt <= rows[j].scannedAt
  }

  /** In an ascending history the fingerprint in force is that of the latest scan not
      after `t`. */
  lemma {:induction false} LatestScanIsInForce(rows: seq<Row>, t: int)
    requires Ascending(rows)
    ensures ValidAt(rows, t).None? <==> forall i :: 0 <= i < |rows| ==> rows[i].scannedAt > t
    ensures ValidAt(rows, t).Some? ==>
              exists i :: 0 <= i < |rows| && rows[i].scannedAt <= t && rows[i].cops == ValidAt(rows, t).value &&
                          forall j :: i < j < |rows| ==> rows[j].scannedAt > t
  {
    var n := ScannedBy(rows, t);
    if n > 0 {
      assert rows[n - 1].scannedAt <= t;
    }
  }

  // ---------------------------------------------------------------------------
  // The rollup at a time
  // ---------------------------------------------------------------------------

  datatype Rollup = Rollup(
    ready: nat, needsReview: nat, blocked: nat, untested: nat,
    totalComplexity: nat, membersWithData: nat)

  function Counted(out: Rollup, cops: Option<seq<Entry>>, r: Resolver): Rollup {
    match cops
    case None => out.(untested := out.untested + 1)
    case Some(entries) =>
      var out := out.(membersWithData := out.membersWithData + 1,
                      totalComplexity := out.totalComplexity + EntriesComplexity(r, entries));
      match RollUp(EntryLevels(r, entries))
      case Blocked => out.(blocked := out.blocked + 1)
      case NeedsReview => out.(needsReview := out.needsReview + 1)
      case Ready => out.(ready := out.ready + 1)
  }

  function RollupAt(histories: seq<History>, t: int, r: Resolver): Rollup {
    if histories == [] then Rollup(0, 0, 0, 0, 0, 0)
    else
      var n := |histories| - 1;
      Counted(RollupAt(histories[..n], t, r), ValidAt(histories[n].rows, t), r)
  }

  method RecomputeRollupAt(histories: seq<History>, t: int, r: Resolver) returns (out: Rollup)
    ensures out == RollupAt(histories, t, r)
  {
    out := Rollup(0, 0, 0, 0, 0, 0);
    for i := 0 to |histories|
      invariant out == RollupAt(histories[..i], t, r)
    {
      assert histories[..i + 1][..i] == histories[..i];
      var cops := FingerprintValidAt(histories[i].rows, t);
      if cops.None? {
        out := out.(untested := out.untested + 1);
        continue;
      }
      out := out.(membersWithData := out.membersWithData + 1);
      var status := DeriveStatusFromFingerprint(cops.value, r);
      match status {
        case Blocked => out := out.(blocked := out.blocked + 1);
        case NeedsReview => out := out.(needsReview := out.needsReview + 1);
        case Ready => out := out.(ready := out.ready + 1);
      }
      var complexity := ComplexityFromFingerprint(cops.value, r);
      out := out.(totalComplexity := out.totalComplexity + complexity);
    }
    assert histories[..|histories|] == histories;
  }

  /** A fingerprint is in force at `t`, and this is the verdict re-derived from it. */
  predicate HasVerdict(h: History, t: int, r: Resolver, status: Status) {
    ValidAt(h.rows, t).Some? && RollUp(EntryLevels(r, ValidAt(h.rows, t).value)) == status
  }

  ghost function MembersAt(histories: seq<History>, t: int, r: Resolver, status: Status): set<nat> {
    set i: nat | i < |histories| && HasVerdict(histories[i], t, r, status)
  }

  /** The members without one. */
  ghost function UntestedAt(histories: seq<History>, t: int): set<nat> {
    set i: nat | i < |histories| && ValidAt(histories[i].rows, t).None?
  }

  /** A member's complexity; one without data has none. */
  function ComplexityAt(h: History, t: int, r: Resolver): nat {
    match ValidAt(h.rows, t) case None => 0 case Some(entries) => EntriesComplexity(r, entries)
  }

  function ComplexitiesAt(histories: seq<History>, t: int, r: Resolver): (s: seq<nat>)
    ensures |s| == |histories|
  {
    seq(|histories|, i requires 0 <= i < |histories| => ComplexityAt(histories[i], t, r))
  }

  function Sum(s: seq<nat>): nat { if s == [] then 0 else Sum(s[..|s| - 1]) + s[|s| - 1] }

  lemma MembersStep(histories: seq<History>, t: int, r: Resolver, status: Status)
    requires histories != []
    ensures var n := |histories| - 1;
            |MembersAt(histories, t, r, status)| ==
            |MembersAt(histories[..n], t, r, status)| + if HasVerdict(histories[n], t, r, status) then 1 else 0
  {
    var n := |histories| - 1;
    var before, after := MembersAt(histories[..n], t, r, status), MembersAt(histories, t, r, status);
    forall i: nat ensures i in after <==> i in before || (i == n && HasVerdict(histories[n], t, r, status)) {
      if i < n { assert histories[..n][i] == histories[i]; }
    }
    assert after == if HasVerdict(histories[n], t, r, status) then before + {n} else before;
  }

  lemma UntestedStep(histories: seq<History>, t: int)
    requires histories != []
    ensures var n := |histories| - 1;
            |UntestedAt(histories, t)| == |UntestedAt(histories[..n], t)| + if ValidAt(histories[n].rows, t).None? then 1 else 0
  {
    var n := |histories| - 1;
    var last: set<nat> := if ValidAt(histories[n].rows, t).None? then {n} else {};
    assert UntestedAt(histories, t) == UntestedAt(histories[..n], t) + last;
  }

  /** A member raises the counter of its verdict, or the untested one, and nothing else but the
      complexity. */
  lemma CountedOnce(before: Rollup, h: History, t: int, r: Resolver)
    ensures var after := Counted(before, ValidAt(h.rows, t), r);
            && after.ready == before.ready + (if HasVerdict(h, t, r, Ready) then 1 else 0)
            && after.needsReview == before.needsReview + (if HasVerdict(h, t, r, NeedsReview) then 1 else 0)
            && after.blocked == before.blocked + (if HasVerdict(h, t, r, Blocked) then 1 else 0)
            && after.untested == before.untested + (if ValidAt(h.rows, t).None? then 1 else 0)
            && after.membersWithData == before.membersWithData + (if ValidAt(h.rows, t).Some? then 1 else 0)
  {
  }

  /** Every counter of a trend point is the number of members it is named after. */
  lemma {:induction false} RollupCounts(histories: seq<History>, t: int, r: Resolver)
    ensures var out := RollupAt(histories, t, r);
            && out.ready == |MembersAt(histories, t, r, Ready)|
            && out.needsReview == |MembersAt(histories, t, r, NeedsReview)|
            && out.blocked == |MembersAt(histories, t, r, Blocked)|
            && out.untested == |UntestedAt(histories, t)|
  {
    if histories != [] {
      var n := |histories| - 1;
      RollupCounts(histories[..n], t, r);
      MembersStep(histories, t, r, Ready);
      MembersStep(histories, t, r, NeedsReview);
      MembersStep(histories, t, r, Blocked);
      UntestedStep(histories, t);
      CountedOnce(RollupAt(histories[..n], t, r), histories[n], t, r);
    }
  }

  /** Its complexity is the sum over the members with data. */
  lemma {:induction false} RollupComplexity(histories: seq<History>, t: int, r: Resolver)
    ensures RollupAt(histories, t, r).totalComplexity == Sum(ComplexitiesAt(histories, t, r))
  {
    if histories != [] {
      var n := |histories| - 1;
      RollupComplexity(histories[..n], t, r);
      assert ComplexitiesAt(histories, t, r)[..n] == ComplexitiesAt(histories[..n], t, r);
      CountedComplexity(RollupAt(histories[..n], t, r), histories[n], t, r);
    }
  }

  lemma CountedComplexity(before: Rollup, h: History, t: int, r: Resolver)
    ensures Counted(before, ValidAt(h.rows, t), r).totalComplexity == before.totalComplexity + ComplexityAt(h, t, r)
  {
  }

  /** The four counts always partition the membership. */
  lemma {:induction false} RollupPartitions(histories: seq<History>, t: int, r: Resolver)
    ensures var out := RollupAt(histories, t, r);
            && out.ready + out.needsReview + out.blocked + out.untested == |histories|
            && out.membersWithData == out.ready + out.needsReview + out.blocked
  {
    if histories != [] {
      var n := |histories| - 1;
      RollupPartitions(histories[..n], t, r);
      CountedOnce(RollupAt(histories[..n], t, r), histories[n], t, r);
      assert RollupAt(histories, t, r) == Counted(RollupAt(histories[..n], t, r), ValidAt(histories[n].rows, t), r);
    }
  }

  // ---------------------------------------------------------------------------
  // Change points
  // ---------------------------------------------------------------------------

  predicate Before(a: int, b: int) { a < b }

  lemma BeforeIsSortKey()
    ensures SortKey(Before)
  {
    forall a, b, c ensures !Before(a, a) && (Before(a, b) && Before(b, c) ==> Before(a, c)) {}
  }

  /** Some row of some history was scanned at `t`. */
  ghost predicate ScannedAt(histories: seq<History>, t: int) {
    exists i, j :: 0 <= i < |histories| && 0 <= j < |histories[i].rows| && histories[i].rows[j].scannedAt == t
  }

  method DistinctScanTimes(histories: seq<History>) returns (times: seq<int>)
    ensures StrictlyOrdered(times, Before)
    ensures forall t :: t in times <==> ScannedAt(histories, t)
  {
    var seen: set<int> := {};
    times := [];
    for i := 0 to |histories|
      invariant KeysDiffer(times, Before)
      invariant forall t :: t in times <==> t in seen
      invariant forall t :: t in times <==> ScannedAt(histories[..i], t)
    {
      var rows := histories[i].rows;
      ghost var before := times;
      for j := 0 to |rows|
        invariant KeysDiffer(times, Before)
        invariant forall t :: t in times <==> t in seen
        invariant forall t :: t in times <==> t in before || exists k :: 0 <= k < j && rows[k].scannedAt == t
      {
        if rows[j].scannedAt !in seen {
          seen := seen + {rows[j].scannedAt};
          times := times + [rows[j].scannedAt];
        }
      }
      ScannedAtStep(histories, i);
    }
    assert histories[..|histories|] == histories;
    BeforeIsSortKey();
    SortStrict(times, Before);
    times := Sort(times, Before);
  }

  lemma ScannedAtStep(histories: seq<History>, i: nat)
    requires i < |histories|
    ensures forall t :: ScannedAt(histories[..i + 1], t) <==>
              ScannedAt(histories[..i], t) || exists k :: 0 <= k < |histories[i].rows| && histories[i].rows[k].scannedAt == t
  {
  }

  lemma {:induction false} SameScansSameFingerprint(rows: seq<Row>, u: int, t: int)
    requires u <= t
    requires forall i :: 0 <= i < |rows| ==> rows[i].scannedAt <= u || rows[i].scannedAt > t
    ensures ValidAt(rows, t) == ValidAt(rows, u)
  {
  }

  lemma PrefixScans(histories: seq<History>, n: nat)
    requires n <= |histories|
    ensures forall s :: ScannedAt(histories[..n], s) ==> ScannedAt(histories, s)
  {
  }

  lemma {:induction false} NoScanNoChange(histories: seq<History>, u: int, t: int, r: Resolver)
    requires u <= t
    requires forall s :: u < s <= t ==> !ScannedAt(histories, s)
    ensures RollupAt(histories, t, r) == RollupAt(histories, u, r)
  {
    if histories != [] {
      var n := |histories| - 1;
      PrefixScans(histories, n);
      NoScanNoChange(histories[..n], u, t, r);
      forall i | 0 <= i < |histories[n].rows|
        ensures histories[n].rows[i].scannedAt <= u || histories[n].rows[i].scannedAt > t
      {
        assert ScannedAt(histories, histories[n].rows[i].scannedAt);
      }
      SameScansSameFingerprint(histories[n].rows, u, t);
    }
  }

  /** The recomputed series is a step function: at any time it has the value it had at the
      latest scan time not after it. Holds whether or not the histories are ascending. */
  lemma StepFunction(histories: seq<History>, times: seq<int>, t: int, i: nat, r: Resolver)
    requires StrictlyOrdered(times, Before) && forall s :: s in times <==> ScannedAt(histories, s)
    requires i < |times| && times[i] <= t && (i + 1 < |times| ==> times[i + 1] > t)
    ensures RollupAt(histories, t, r) == RollupAt(histories, times[i], r)
  {
    forall s | s in times ensures s <= times[i] || s > t {
      var k :| 0 <= k < |times| && times[k] == s;
      if k > i + 1 { assert Before(times[i + 1], times[k]); }
      if k < i { assert Before(times[k], times[i]); }
    }
    NoScanNoChange(histories, times[i], t, r);
  }

  /** Before the first scan every member is untested. */
  lemma BeforeFirstScan(histories: seq<History>, times: seq<int>, t: int, r: Resolver)
    requires StrictlyOrdered(times, Before) && forall s :: s in times <==> ScannedAt(histories, s)
    requires times != [] ==> t < times[0]
    ensures RollupAt(histories, t, r) == Rollup(0, 0, 0, |histories|, 0, 0)
  {
    forall s | s in times ensures s > t {
      var k :| 0 <= k < |times| && times[k] == s;
      if k > 0 { assert Before(times[0], times[k]); }
    }
    NothingScannedYet(histories, t, r);
  }

  lemma {:induction false} NothingScannedYet(histories: seq<History>, t: int, r: Resolver)
    requires forall s :: s <= t ==> !ScannedAt(histories, s)
    ensures RollupAt(histories, t, r) == Rollup(0, 0, 0, |histories|, 0, 0)
  {
    if histories != [] {
      var n := |histories| - 1;
      PrefixScans(histories, n);
      NothingScannedYet(histories[..n], t, r);
      if histories[n].rows != [] {
        assert ScannedAt(histories, histories[n].rows[0].scannedAt);
      }
    }
  }

  /** Members with data never become untested again. */
  lemma {:induction false} DataOnlyGrows(histories: seq<History>, t: int, later: int, r: Resolver)
    requires t <= later
    ensures RollupAt(histories, t, r).membersWithData <= RollupAt(histories, later, r).membersWithData
  {
    if histories != [] { DataOnlyGrows(histories[..|histories| - 1], t, later, r); }
  }

  // ---------------------------------------------------------------------------
  // The boundary of recomputable data
  // ---------------------------------------------------------------------------

  method DataBoundary(histories: seq<History>) returns (earliest: int, found: bool)
    ensures found <==> exists i :: 0 <= i < |histories| && histories[i].rows != []
    ensures found ==> IsBoundary(histories, earliest)
  {
    earliest, found := 0, false;
    for i := 0 to |histories|
      invariant found <==> exists j :: 0 <= j < i && histories[j].rows != []
      invariant found ==> IsBoundary(histories[..i], earliest)
    {
      var rows := histories[i].rows;
      if |rows| == 0 {
        continue;
      }
      if !found || rows[0].scannedAt < earliest {
        earliest, found := rows[0].scannedAt, true;
        assert histories[..i + 1][i].rows == rows;
      } else {
        var j :| 0 <= j < i && histories[..i][j].rows != [] && histories[..i][j].rows[0].scannedAt == earliest;
        assert histories[..i + 1][j] == histories[j];
      }
    }
    assert histories[..|histories|] == histories;
  }

  /** The least first-scan time of any history. */
  ghost predicate IsBoundary(histories: seq<History>, b: int) {
    && (exists i :: 0 <= i < |histories| && histories[i].rows != [] && histories[i].rows[0].scannedAt == b)
    && (forall i :: 0 <= i < |histories| && histories[i].rows != [] ==> histories[i].rows[0].scannedAt >= b)
  }

  /** The history's first scan is not after `t`. */
  predicate StartedBy(h: History, t: int) { h.rows != [] && h.rows[0].scannedAt <= t }

  lemma DataStep(histories: seq<History>, t: int, r: Resolver)
    requires histories != []
    ensures var n := |histories| - 1;
            RollupAt(histories, t, r).membersWithData ==
            RollupAt(histories[..n], t, r).membersWithData + if StartedBy(histories[n], t) then 1 else 0
  {
    var h := histories[|histories| - 1];
    assert ValidAt(h.rows, t).Some? <==> ScannedBy(h.rows, t) > 0;
  }

  lemma {:induction false} DataIffStarted(histories: seq<History>, t: int, r: Resolver)
    ensures RollupAt(histories, t, r).membersWithData > 0 <==> exists i :: 0 <= i < |histories| && StartedBy(histories[i], t)
  {
    if histories != [] {
      var n := |histories| - 1;
      DataIffStarted(histories[..n], t, r);
      DataStep(histories, t, r);
      if i :| 0 <= i < n && StartedBy(histories[i], t) {
        assert StartedBy(histories[..n][i], t);
      }
    }
  }

  /** A trend point has data exactly from the boundary on, and never without one. */
  lemma DataFromBoundaryOn(histories: seq<History>, t: int, r: Resolver)
    ensures forall b :: IsBoundary(histories, b) ==> (RollupAt(histories, t, r).membersWithData > 0 <==> t >= b)
    ensures (forall b :: !IsBoundary(histories, b)) ==> RollupAt(histories, t, r).membersWithData == 0
  {
    DataIffStarted(histories, t, r);
    if i :| 0 <= i < |histories| && StartedBy(histories[i], t) {
      var b := BoundaryOf(histories, i);
    }
  }

  /** Where some history has a row there is a boundary. */
  lemma {:induction false} BoundaryOf(histories: seq<History>, i: nat) returns (b: int)
    requires i < |histories| && histories[i].rows != []
    ensures IsBoundary(histories, b)
  {
    var n := |histories| - 1;
    if k: nat :| k < n && histories[k].rows != [] {
      b := BoundaryOf(histories[..n], k);
      var j :| 0 <= j < n && histories[..n][j].rows != [] && histories[..n][j].rows[0].scannedAt == b;
      assert histories[j].rows != [] && histories[j].rows[0].scannedAt == b;
      if histories[n].rows != [] && histories[n].rows[0].scannedAt < b {
        b := histories[n].rows[0].scannedAt;
      }
      assert forall m :: 0 <= m < n ==> histories[..n][m] == histories[m];
    } else {
      b := histories[i].rows[0].scannedAt;
    }
  }

  /** With ascending histories the boundary is the earliest scan of all. */
  lemma BoundaryIsEarliestScan(histories: seq<History>, b: int)
    requires IsBoundary(histories, b)
    requires forall i :: 0 <= i < |histories| ==> Ascending(histories[i].rows)
    ensures ScannedAt(histories, b) && forall t :: ScannedAt(histories, t) ==> b <= t
  {
  }

  // ---------------------------------------------------------------------------
  // Raising the target
  // ---------------------------------------------------------------------------

  /** Recomputing the trend for a higher target never unblocks a member, never makes one
      ready, and never lowers the complexity; who has data does not change. */
  lemma {:induction false} RollupMonotone(histories: seq<History>, t: int, r: Resolver, later: Resolver)
    requires RaisedTo(r, later)
    ensures var now, then' := RollupAt(histories, t, r), RollupAt(histories, t, later);
            && now.blocked <= then'.blocked && now.ready >= then'.ready
            && now.totalComplexity <= then'.totalComplexity
            && now.untested == then'.untested && now.membersWithData == then'.membersWithData
  {
    if histories != [] {
      var n := |histories| - 1;
      RollupMonotone(histories[..n], t, r, later);
      var cops := ValidAt(histories[n].rows, t);
      if cops.Some? {
        FingerprintVerdictMonotone(r, later, cops.value);
        ComplexityMonotone(r, later, cops.value);
      }
    }
  }
}
