/** Which checks a dispatch is handed. */
module DueChecks {
  import opened Text

  /** The fields of a listed check that decide when it runs; times and intervals in nanoseconds. */
  datatype Listed = Listed(checkId: int, lastChecked: Option<int>, interval: int)

  predicate Due(row: Listed, now: int) {
    row.lastChecked.None? || row.lastChecked.value + row.interval <= now
  }

  /** The due rows in table order, cut off at `limit`. */
  function FirstDue(rows: seq<Listed>, now: int, limit: nat): seq<Listed> {
    if rows == [] || limit == 0 then []
    else if Due(rows[0], now) then [rows[0]] + FirstDue(rows[1..], now, limit - 1)
    else FirstDue(rows[1..], now, limit)
  }

  function Ids(rows: seq<Listed>): (ids: seq<int>)
    ensures |ids| == |rows| && forall i :: 0 <= i < |rows| ==> ids[i] == rows[i].checkId
  {
    if rows == [] then [] else [rows[0].checkId] + Ids(rows[1..])
  }

  method ListDue(all: seq<Listed>, now: int, limit: int) returns (due: seq<Listed>)
    ensures due == if limit < 1 then [] else FirstDue(all, now, limit)
  {
    if limit < 1 {
      return [];
    }
    due := [];
    for i := 0 to |all|
      invariant |due| < limit
      invariant due + FirstDue(all[i..], now, limit - |due|) == FirstDue(all, now, limit)
    {
      var row := all[i];
      assert all[i..][0] == row && all[i..][1..] == all[i + 1..];
      if row.lastChecked.Some? && row.lastChecked.value + row.interval > now {
        continue;
      }
      due := due + [row];
      if |due| == limit {
        break;
      }
    }
  }

  /** Only due rows are listed, each as often as the table has it; a list shorter than its limit has left out none. */
  lemma {:induction false} FirstDueIsSound(rows: seq<Listed>, now: int, limit: nat)
    ensures var due := FirstDue(rows, now, limit);
            && |due| <= limit
            && (forall r :: r in due ==> r in rows && Due(r, now))
            && (|due| < limit ==> forall r :: r in rows && Due(r, now) ==> r in due)
  {
    if rows != [] && limit > 0 {
      FirstDueIsSound(rows[1..], now, if Due(rows[0], now) then limit - 1 else limit);
      assert rows == [rows[0]] + rows[1..];
    }
  }

  /** A listed check was never run, or its interval has passed since; a check left out although there was room is neither. */
  lemma DueMeans(rows: seq<Listed>, now: int, limit: nat, r: Listed)
    requires r in rows
    ensures r in FirstDue(rows, now, limit) ==> r.lastChecked.None? || r.lastChecked.value + r.interval <= now
    ensures |FirstDue(rows, now, limit)| < limit && (r.lastChecked.None? || now - r.lastChecked.value >= r.interval) ==> r in FirstDue(rows, now, limit)
  {
    FirstDueIsSound(rows, now, limit);
  }

  /** Every row that is due, in the order of the table. */
  function AllDue(rows: seq<Listed>, now: int): seq<Listed> {
    if rows == [] then []
    else
      var n := |rows| - 1;
      AllDue(rows[..n], now) + (if rows[n].lastChecked.None? || now - rows[n].lastChecked.value >= rows[n].interval then [rows[n]] else [])
  }

  lemma {:induction false} AllDueFromFront(rows: seq<Listed>, now: int)
    requires rows != []
    ensures AllDue(rows, now) == (if Due(rows[0], now) then [rows[0]] else []) + AllDue(rows[1..], now)
  {
    var n := |rows| - 1;
    if n > 0 {
      AllDueFromFront(rows[..n], now);
      assert rows[..n][1..] == rows[1..][..n - 1];
    } else {
      assert rows[..0] == [] && rows[1..] == [];
    }
  }

  /** The list is the beginning of all due rows in the order of the table: all of them if they are within the limit. */
  lemma {:induction false} FirstDueIsBeginning(rows: seq<Listed>, now: int, limit: nat)
    ensures var due := AllDue(rows, now); FirstDue(rows, now, limit) == due[..if |due| <= limit then |due| else limit]
  {
    if rows != [] && limit > 0 {
      AllDueFromFront(rows, now);
      FirstDueIsBeginning(rows[1..], now, if Due(rows[0], now) then limit - 1 else limit);
    }
  }

  predicate DistinctIds(rows: seq<Listed>) {
    forall i, j :: 0 <= i < j < |rows| ==> rows[i].checkId != rows[j].checkId
  }

  lemma {:induction false} FirstDueKeepsDistinct(rows: seq<Listed>, now: int, limit: nat)
    requires DistinctIds(rows)
    ensures DistinctIds(FirstDue(rows, now, limit))
  {
    if rows != [] && limit > 0 {
      var rest := limit - (if Due(rows[0], now) then 1 else 0);
      FirstDueKeepsDistinct(rows[1..], now, rest);
      FirstDueIsSound(rows[1..], now, rest);
      forall r | r in rows[1..] ensures r.checkId != rows[0].checkId {
        var k :| 0 <= k < |rows[1..]| && rows[1..][k] == r;
        assert rows[k + 1] == r;
      }
    }
  }
}
