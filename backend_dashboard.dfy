/**
 * The status histogram of `get_dashboard` in backend/app.py (lines 191-195).
 * The statuses are those of the rows the contacts query returned; the
 * follow-up count comes from a database query and is not modelled.
 */
module BackendDashboard {

  /** The sum of the counts of a histogram. */
  ghost function Sum(m: map<string, nat>): nat
    decreases |m.Keys|
  {
    if m.Keys == {} then 0
    else
      var k :| k in m.Keys;
      m[k] + Sum(m - {k})
  }

  /** The sum does not depend on which key is taken first. */
  lemma {:induction false} SumRemove(m: map<string, nat>, k: string)
    requires k in m
    ensures Sum(m) == m[k] + Sum(m - {k})
    decreases |m.Keys|
  {
    var j :| j in m.Keys && Sum(m) == m[j] + Sum(m - {j});
    if j != k {
      assert |(m - {j}).Keys| < |m.Keys| by {
        assert (m - {j}).Keys < m.Keys;
      }
      assert |(m - {k}).Keys| < |m.Keys| by {
        assert (m - {k}).Keys < m.Keys;
      }
      SumRemove(m - {j}, k);
      SumRemove(m - {k}, j);
      assert m - {j} - {k} == m - {k} - {j};
    }
  }

  /** Counting one more `s` adds one to the sum. */
  lemma SumBump(m: map<string, nat>, s: string)
    ensures Sum(m[s := (if s in m then m[s] else 0) + 1]) == Sum(m) + 1
  {
    var m' := m[s := (if s in m then m[s] else 0) + 1];
    SumRemove(m', s);
    assert m' - {s} == m - {s};
    if s in m {
      SumRemove(m, s);
    } else {
      assert m - {s} == m;
    }
  }

  /** `byStatus` counts the statuses of `seen`: a key for each that occurs, with its number of rows. */
  ghost predicate Counts(byStatus: map<string, nat>, seen: seq<string>) {
    && (forall s :: s in byStatus <==> s in seen)
    && (forall s :: s in byStatus ==> byStatus[s] == multiset(seen)[s])
  }

  /** One more row, one more in its status's count. */
  lemma CountsStep(byStatus: map<string, nat>, seen: seq<string>, s: string)
    requires Counts(byStatus, seen)
    ensures Counts(byStatus[s := (if s in byStatus then byStatus[s] else 0) + 1], seen + [s])
  {
    assert multiset(seen + [s]) == multiset(seen)[s := multiset(seen)[s] + 1];
  }

  /**
   * The loop of lines 193-195. The histogram has a key for every status that
   * occurs and no other, each counting the rows with that status, and the
   * counts add up to the total of line 191.
   */
  method CountByStatus(statuses: seq<string>) returns (total: nat, byStatus: map<string, nat>)
    ensures total == |statuses|
    ensures forall s :: s in byStatus <==> s in statuses
    ensures forall s :: s in byStatus ==> byStatus[s] == multiset(statuses)[s]
    ensures Sum(byStatus) == total
  {
    total := |statuses|;
    byStatus := map[];
    for i := 0 to |statuses|
      invariant Counts(byStatus, statuses[..i])
      invariant Sum(byStatus) == i
    {
      var s := statuses[i];
      assert statuses[..i + 1] == statuses[..i] + [s];
      CountsStep(byStatus, statuses[..i], s);
      SumBump(byStatus, s);
      byStatus := byStatus[s := (if s in byStatus then byStatus[s] else 0) + 1];
    }
    assert statuses[..|statuses|] == statuses;
  }
}
