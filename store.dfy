/** The `requests` table: one row per forwarded call, with an id and a
    timestamp that the database assigns on insert, and the two reads the
    views make of it (the newest 1000 rows, and one row by id). */
module Storage {
  import opened GoText

  /** A row of the table: id, timestamp, request, response, url_path, duration_ms. */
  datatype Record = Record(
    id: int, timestamp: int, request: GoString, response: GoString,
    urlPath: GoString, durationMs: int)

  /** The four values the INSERT statement binds. */
  datatype Insertion = Insertion(request: GoString, response: GoString, urlPath: GoString, durationMs: int)

  /** The row the database makes of an insertion: id and timestamp are its own. */
  function Stamp(ins: Insertion, id: int, now: int): Record
  {
    Record(id, now, ins.request, ins.response, ins.urlPath, ins.durationMs)
  }

  /** AUTOINCREMENT ids: positive, increasing in insertion order, below the next id. */
  ghost predicate IdsBelow(records: seq<Record>, nextId: int)
  {
    && (forall i :: 0 <= i < |records| ==> 1 <= records[i].id < nextId)
    && (forall i, j :: 0 <= i < j < |records| ==> records[i].id < records[j].id)
  }

  class Store {
    var records: seq<Record>
    var nextId: int

    ghost predicate Valid()
      reads this
    {
      1 <= nextId && IdsBelow(records, nextId)
    }

    /** The table as CREATE TABLE IF NOT EXISTS leaves a new database file. */
    constructor ()
      ensures Valid() && records == [] && nextId == 1
    {
      records := [];
      nextId := 1;
    }

    /** stmt.Exec of the prepared INSERT: when the database accepts it, one
        row is appended with the next id and the current time; otherwise
        nothing changes. Ids are never reused. */
    method Insert(ins: Insertion, now: int, accepted: bool) returns (id: Option<int>)
      requires Valid()
      modifies this
      ensures Valid()
      ensures accepted ==> id == Some(old(nextId)) && nextId == old(nextId) + 1
      ensures accepted ==> records == old(records) + [Stamp(ins, old(nextId), now)]
      ensures !accepted ==> id == None && records == old(records) && nextId == old(nextId)
    {
      if !accepted {
        return None;
      }
      id := Some(nextId);
      records := records + [Stamp(ins, nextId, now)];
      nextId := nextId + 1;
    }
  }

  // ---- SELECT ... WHERE id = ?

  /** The row with the given id, if there is one. */
  function Find(records: seq<Record>, id: int): (r: Option<Record>)
    ensures r.Some? ==> r.value in records && r.value.id == id
    ensures r.None? <==> forall i :: 0 <= i < |records| ==> records[i].id != id
  {
    if records == [] then None
    else if records[0].id == id then Some(records[0])
    else Find(records[1..], id)
  }

  // ---- SELECT ... ORDER BY timestamp DESC LIMIT 1000

  const ListLimit: nat := 1000

  ghost predicate NewestFirstOrder(s: seq<Record>)
  {
    forall i, j :: 0 <= i < j < |s| ==> s[i].timestamp >= s[j].timestamp
  }

  /** Places `r` before the first row that is not newer than it. */
  function InsertByTime(r: Record, s: seq<Record>): seq<Record>
  {
    if s == [] then [r]
    else if s[0].timestamp <= r.timestamp then [r] + s
    else [s[0]] + InsertByTime(r, s[1..])
  }

  /** The rows newest first; among rows with equal timestamps the later insert comes first. */
  function SortNewestFirst(rs: seq<Record>): seq<Record>
  {
    if rs == [] then [] else InsertByTime(rs[|rs| - 1], SortNewestFirst(rs[..|rs| - 1]))
  }

  /** The rows the listing query returns. */
  function Recent(rs: seq<Record>): seq<Record>
  {
    var sorted := SortNewestFirst(rs);
    if |sorted| <= ListLimit then sorted else sorted[..ListLimit]
  }

  lemma {:induction false} InsertByTimeContents(r: Record, s: seq<Record>)
    ensures multiset(InsertByTime(r, s)) == multiset(s) + multiset{r}
    ensures forall x :: x in InsertByTime(r, s) ==> x == r || x in s
  {
    if s != [] && s[0].timestamp > r.timestamp {
      InsertByTimeContents(r, s[1..]);
      assert s == [s[0]] + s[1..];
    }
  }

  /** No row of `s` is newer than `ts`. */
  ghost predicate NoneNewer(s: seq<Record>, ts: int)
  {
    forall k :: 0 <= k < |s| ==> s[k].timestamp <= ts
  }

  lemma ConsSorted(x: Record, t: seq<Record>)
    requires NewestFirstOrder(t) && NoneNewer(t, x.timestamp)
    ensures NewestFirstOrder([x] + t)
  {
    var u := [x] + t;
    forall i, j | 0 <= i < j < |u|
      ensures u[i].timestamp >= u[j].timestamp
    {
      assert u[j] == t[j - 1];
      if i > 0 {
        assert u[i] == t[i - 1];
      }
    }
  }

  lemma {:induction false} InsertKeepsBound(r: Record, s: seq<Record>, ts: int)
    requires NoneNewer(s, ts) && r.timestamp <= ts
    ensures NoneNewer(InsertByTime(r, s), ts)
  {
    if s != [] && s[0].timestamp > r.timestamp {
      InsertKeepsBound(r, s[1..], ts);
      var t := InsertByTime(r, s[1..]);
      assert InsertByTime(r, s) == [s[0]] + t;
    }
  }

  lemma {:induction false} InsertByTimeSorted(r: Record, s: seq<Record>)
    requires NewestFirstOrder(s)
    ensures NewestFirstOrder(InsertByTime(r, s))
  {
    if s == [] {
    } else if s[0].timestamp <= r.timestamp {
      ConsSorted(r, s);
    } else {
      var t := InsertByTime(r, s[1..]);
      InsertByTimeSorted(r, s[1..]);
      assert NoneNewer(s[1..], s[0].timestamp);
      InsertKeepsBound(r, s[1..], s[0].timestamp);
      ConsSorted(s[0], t);
    }
  }

  lemma {:induction false} SortNewestFirstSorted(rs: seq<Record>)
    ensures NewestFirstOrder(SortNewestFirst(rs))
  {
    if rs != [] {
      SortNewestFirstSorted(rs[..|rs| - 1]);
      InsertByTimeSorted(rs[|rs| - 1], SortNewestFirst(rs[..|rs| - 1]));
    }
  }

  lemma {:induction false} SortNewestFirstPermutes(rs: seq<Record>)
    ensures multiset(SortNewestFirst(rs)) == multiset(rs)
  {
    if rs != [] {
      var init, last := rs[..|rs| - 1], rs[|rs| - 1];
      assert SortNewestFirst(rs) == InsertByTime(last, SortNewestFirst(init));
      SortNewestFirstPermutes(init);
      InsertByTimeContents(last, SortNewestFirst(init));
      assert rs == init + [last];
      assert multiset(rs) == multiset(init) + multiset{last};
    }
  }

  /** The query order: newest first, and a permutation of the table. */
  lemma SortNewestFirstCorrect(rs: seq<Record>)
    ensures NewestFirstOrder(SortNewestFirst(rs))
    ensures multiset(SortNewestFirst(rs)) == multiset(rs)
    ensures |SortNewestFirst(rs)| == |rs|
  {
    SortNewestFirstSorted(rs);
    SortNewestFirstPermutes(rs);
    assert |multiset(SortNewestFirst(rs))| == |multiset(rs)|;
  }

  /** The listing query's promise: at most 1000 rows, newest first, each a
      row of the table, and no row left out that is newer than one listed. */
  lemma RecentCorrect(rs: seq<Record>)
    ensures |Recent(rs)| == Min(|rs|, ListLimit)
    ensures NewestFirstOrder(Recent(rs))
    ensures multiset(Recent(rs)) <= multiset(rs)
    ensures forall r :: r in rs && r !in Recent(rs) ==>
              forall j :: 0 <= j < |Recent(rs)| ==> Recent(rs)[j].timestamp >= r.timestamp
  {
    var sorted := SortNewestFirst(rs);
    SortNewestFirstCorrect(rs);
    var out := Recent(rs);
    if |sorted| <= ListLimit {
      forall r | r in rs
        ensures r in out
      {
        assert r in multiset(rs);
      }
    } else {
      assert sorted == out + sorted[ListLimit..];
      assert multiset(sorted) == multiset(out) + multiset(sorted[ListLimit..]);
      forall r | r in rs && r !in out
        ensures forall j :: 0 <= j < |out| ==> out[j].timestamp >= r.timestamp
      {
        var tail := sorted[ListLimit..];
        assert r in multiset(sorted) && r !in multiset(out);
        assert r in multiset(tail);
        var k :| 0 <= k < |tail| && tail[k] == r;
        forall j | 0 <= j < |out|
          ensures out[j].timestamp >= r.timestamp
        {
          assert out[j] == sorted[j] && r == sorted[ListLimit + k];
        }
      }
    }
  }
}
