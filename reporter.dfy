/**
  The repository-level report: the per-file results of one comparison of two
  commits, echoed together with the totals of lines added and removed and the
  number of files.
 */
module Reporter {
  import opened Wrappers
  import LcsAlgo

  /** One file's entry in the per-file results. The entries are dictionaries,
      so every key may be missing; the report reads only "added" and
      "removed" and carries the rest unchanged. */
  datatype FileRecord = FileRecord(
    lenA: Option<int>,
    lenB: Option<int>,
    lcsLen: Option<int>,
    added: Option<int>,
    removed: Option<int>,
    similarity: Option<real>,
    matches: Option<seq<LcsAlgo.MatchPair>>)

  /** The two columns the report totals. */
  datatype Column = Added | Removed

  /** The record's value in column `c`, counted as 0 when the key is missing. */
  function Count(r: FileRecord, c: Column): int
  {
    match c
    case Added => r.added.GetOr(0)
    case Removed => r.removed.GetOr(0)
  }

  /** The per-file results dictionary: its entries keyed by file path and the
      order in which iteration visits them (insertion order). */
  datatype Table = Table(entries: map<string, FileRecord>, order: seq<string>)

  /** The order visits every key of the entries exactly once. */
  predicate IsEnumeration(m: map<string, FileRecord>, keys: seq<string>)
  {
    && (forall k :: k in m ==> k in keys)
    && (forall i :: 0 <= i < |keys| ==> keys[i] in m)
    && (forall p, q :: 0 <= p < q < |keys| ==> keys[p] != keys[q])
  }

  type PerFileResults = t: Table | IsEnumeration(t.entries, t.order) witness Table(map[], [])

  /** The records met when iterating over `keys` (the dictionary's `values()`). */
  function ValuesIn(m: map<string, FileRecord>, keys: seq<string>): (vs: seq<FileRecord>)
    requires forall i :: 0 <= i < |keys| ==> keys[i] in m
    ensures |vs| == |keys|
    ensures forall i :: 0 <= i < |keys| ==> vs[i] == m[keys[i]]
  {
    if keys == [] then [] else [m[keys[0]]] + ValuesIn(m, keys[1..])
  }

  /** The sum of column `c` over a sequence of records. */
  function Sum(vs: seq<FileRecord>, c: Column): int
  {
    if vs == [] then 0 else Count(vs[0], c) + Sum(vs[1..], c)
  }

  /** The sum of column `c` over the entries of a map, in no particular order:
      the reference the totals are checked against. */
  ghost function MapTotal(m: map<string, FileRecord>, c: Column): int
    decreases |m|
  {
    if m == map[] then 0
    else
      var k :| k in m;
      Count(m[k], c) + MapTotal(m - {k}, c)
  }

  /** The report of one comparison of commit `commitA` with commit `commitB`. */
  datatype Report = Report(
    commitA: string,
    commitB: string,
    files: PerFileResults,
    totalAdded: int,
    totalRemoved: int,
    totalFiles: nat)

  /** Builds the report: the per-file results and both commit identifiers
      unchanged, the totals of "added" and "removed" over the iterated
      values, and the number of files. Whatever the iteration order, the
      totals are the sums over all entries, and the file count is the number
      of records summed. */
  function BuildReport(perFile: PerFileResults, commitA: string, commitB: string): (r: Report)
    ensures r.commitA == commitA && r.commitB == commitB && r.files == perFile
    ensures r.totalAdded == MapTotal(perFile.entries, Added)
    ensures r.totalRemoved == MapTotal(perFile.entries, Removed)
    ensures r.totalFiles == |perFile.entries| == |ValuesIn(perFile.entries, perFile.order)|
  {
    var values := ValuesIn(perFile.entries, perFile.order);
    SumOfEnumeration(perFile.entries, perFile.order, Added);
    SumOfEnumeration(perFile.entries, perFile.order, Removed);
    Report(commitA, commitB, perFile, Sum(values, Added), Sum(values, Removed), |perFile.entries|)
  }

  /** The order-free total may take out any entry first. */
  lemma {:induction false} MapTotalRemove(m: map<string, FileRecord>, k: string, c: Column)
    requires k in m
    ensures MapTotal(m, c) == Count(m[k], c) + MapTotal(m - {k}, c)
    decreases |m|
  {
    var k' :| k' in m && MapTotal(m, c) == Count(m[k'], c) + MapTotal(m - {k'}, c);
    if k' != k {
      MapTotalRemove(m - {k'}, k, c);
      MapTotalRemove(m - {k}, k', c);
      assert m - {k'} - {k} == m - {k} - {k'};
    }
  }

  /** Records looked up through keys that avoid `k` do not depend on `k`'s entry. */
  lemma {:induction false} ValuesInWithout(m: map<string, FileRecord>, keys: seq<string>, k: string)
    requires forall i :: 0 <= i < |keys| ==> keys[i] in m && keys[i] != k
    ensures ValuesIn(m - {k}, keys) == ValuesIn(m, keys)
  {
    if keys != [] {
      ValuesInWithout(m, keys[1..], k);
    }
  }

  /** Dropping the first key of an enumeration enumerates the other entries. */
  lemma EnumerationTail(m: map<string, FileRecord>, keys: seq<string>)
    requires IsEnumeration(m, keys) && keys != []
    ensures IsEnumeration(m - {keys[0]}, keys[1..])
    ensures |m - {keys[0]}| == |m| - 1
  {
    var k, rest, m' := keys[0], keys[1..], m - {keys[0]};
    forall x | x in m' ensures x in rest {
      var p :| 0 <= p < |keys| && keys[p] == x;
      assert p != 0 && rest[p - 1] == x;
    }
    forall i | 0 <= i < |rest| ensures rest[i] in m' {
      assert rest[i] == keys[i + 1] != keys[0];
    }
    assert m'.Keys == m.Keys - {k};
  }

  /** Summing over an enumeration of the keys gives the order-free total, and
      the enumeration has one key per entry. */
  lemma {:induction false} SumOfEnumeration(m: map<string, FileRecord>, keys: seq<string>, c: Column)
    requires IsEnumeration(m, keys)
    ensures Sum(ValuesIn(m, keys), c) == MapTotal(m, c)
    ensures |keys| == |m|
  {
    if keys == [] {
      assert m == map[];
    } else {
      var k, rest := keys[0], keys[1..];
      EnumerationTail(m, keys);
      calc {
        Sum(ValuesIn(m, keys), c);
        Count(m[k], c) + Sum(ValuesIn(m, rest), c);
        { ValuesInWithout(m, rest, k); }
        Count(m[k], c) + Sum(ValuesIn(m - {k}, rest), c);
        { SumOfEnumeration(m - {k}, rest, c); }
        Count(m[k], c) + MapTotal(m - {k}, c);
        { MapTotalRemove(m, k, c); }
        MapTotal(m, c);
      }
      SumOfEnumeration(m - {k}, rest, c);
    }
  }

  /** Two dictionaries with the same entries, iterated in different orders,
      give the same totals and file count. */
  lemma TotalsIgnoreOrder(t1: PerFileResults, t2: PerFileResults, commitA: string, commitB: string)
    requires t1.entries == t2.entries
    ensures BuildReport(t1, commitA, commitB).totalAdded == BuildReport(t2, commitA, commitB).totalAdded
    ensures BuildReport(t1, commitA, commitB).totalRemoved == BuildReport(t2, commitA, commitB).totalRemoved
    ensures BuildReport(t1, commitA, commitB).totalFiles == BuildReport(t2, commitA, commitB).totalFiles
  {
  }

  /** Two files, one with a line added and one removed, the other with two
      lines removed; a record without "added" counts as adding nothing. */
  lemma TwoFileScenario()
    ensures
      var first := FileRecord(Some(4), Some(4), Some(3), Some(1), Some(1), Some(75.0), None);
      var second := FileRecord(Some(2), None, None, None, Some(2), None, None);
      var results := Table(map["a.py" := first, "b.py" := second], ["a.py", "b.py"]);
      IsEnumeration(results.entries, results.order) &&
      var r := BuildReport(results, "c1", "c2");
      r.totalAdded == 1 && r.totalRemoved == 3 && r.totalFiles == 2
  {
    var first := FileRecord(Some(4), Some(4), Some(3), Some(1), Some(1), Some(75.0), None);
    var second := FileRecord(Some(2), None, None, None, Some(2), None, None);
    var results := Table(map["a.py" := first, "b.py" := second], ["a.py", "b.py"]);
    assert "a.py" != "b.py";
    assert IsEnumeration(results.entries, results.order);
  }
}
