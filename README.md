# LCS-based commit diff analyzer — verified model

This project models the core of a tool that compares two versions of a set of
files (two commits) line by line. Its engine computes the longest common
subsequence (LCS) of two line sequences with a dynamic-programming table. It
then walks the table back to recover the matched line pairs and derives the
statistics of the comparison:

- `added` and `removed` line counts;
- `similarity`, the LCS length as a percentage of the longer file.

A reporter then assembles the per-file results of one comparison into a
report with repository-level totals.

Modules:

- `LcsAlgo` (`lcs_algo.dfy`) models `lcs_algo.py`.
  - `LcsLength` is the reference recurrence. It is recursive, and returns the
    value of the table entry dp[|a|][|b|].
  - `FillTable` fills the (m+1)×(n+1) table in an `array2` with the source's
    nested loops. Each entry is proved equal to `LcsLength` of the two prefixes.
  - `WalkBack` walks the filled table back from (m, n): a match when the two
    elements are equal, else a step up when dp[i-1][j] >= dp[i][j-1] and a step
    left otherwise. It collects the pairs last-first and reverses them at the end.
  - `LcsDp` returns (0, []) when either input is empty. Otherwise it fills the
    table, walks it back and returns dp[m][n] with the pairs.
  - `Backtrack` is the functional image of that walk, with the same tie-break.
    `LcsDp` is proved to return exactly `Backtrack(a, b)`.
  - `BacktrackIsCommon` and `LongestCommon` show that the walk gives a common
    subsequence of length `LcsLength`, and that no common subsequence is longer.
    So `LcsLength` really is the length of a longest common subsequence.
  - `DeriveStats` and `ComputeStats` model `compute_stats_using_lcs`.
    `similarity` is an exact `real`.
- `Reporter` (`reporter.dfy`) models `build_report` of `reporter.py`.
  - A Python dictionary is modelled as its entries (`map<string, FileRecord>`)
    together with its iteration order (a sequence that lists every key once).
  - The totals are summed over the values in that order, as the source's
    generator expressions do. They are proved equal to an order-free reference
    sum over the map, `MapTotal`.
  - Every field of a `FileRecord` is optional, as a dictionary key may be
    absent. `get("added", 0)` is modelled by counting a missing value as 0.
- `Wrappers` (`wrappers.dfy`) is a small `Option` type.

Line elements are of any type with equality (`T(==)`), as Python compares
lines by value.

## Model

| member | source | states |
|---|---|---|
| `LcsAlgo.Max` | lcs_algo.py:23 | the selected value is one of the two operands and is at least as large as both |
| `LcsAlgo.LcsBound` | lcs_algo.py:15-23 | the LCS length of two sequences lies between 0 and the length of each |
| `LcsAlgo.LcsPrefixStep` | lcs_algo.py:19-23 | the DP recurrence on prefixes: equal last elements give the diagonal entry plus one, otherwise the larger of the entry above and the entry to the left |
| `LcsAlgo.FillTable` | lcs_algo.py:14-23 | the table has (m+1)×(n+1) entries; every dp[i][j] is the LCS length of a[..i] and b[..j], so row 0 and column 0 are 0 and every entry obeys the recurrence |
| `LcsAlgo.BacktrackPrefixStep` | lcs_algo.py:28-37 | one step of the walk from (i, j): a match on equal elements; otherwise up if dp[i-1][j] >= dp[i][j-1], else left |
| `LcsAlgo.Reverse` | lcs_algo.py:38 | the reversed list has the same length, and its k-th element is the original's element at position len - 1 - k |
| `LcsAlgo.ReverseAppend` | lcs_algo.py:30-38 | a pair appended during the walk comes first after the final reversal |
| `LcsAlgo.WalkBack` | lcs_algo.py:25-38 | given a table whose every entry is the LCS length of the two prefixes, the walk from (m, n) with its tie-break returns exactly the pairs of `Backtrack`, in increasing order after the reversal |
| `LcsAlgo.LcsDp` | lcs_algo.py:4-39 | returns (0, []) when either input is empty; the returned length equals dp[m][n] (the LCS length) and is at most min(len(a), len(b)); the pairs are exactly those of the walk with its tie-break, one per unit of length, in bounds, naming equal elements and strictly increasing in both coordinates |
| `LcsAlgo.BacktrackIsCommon` | lcs_algo.py:26-39 | the walk's pairs form a valid matching (in bounds, equal elements, strictly increasing) with as many pairs as the LCS length |
| `LcsAlgo.LongestCommon` | lcs_algo.py:4-8 | every valid matching of the two sequences has at most LcsLength pairs, so the returned pairs form a longest common subsequence |
| `LcsAlgo.LcsSymmetric` | lcs_algo.py:15-23 | the LCS length does not depend on the order of the two sequences |
| `LcsAlgo.LcsIdentity` | lcs_algo.py:15-37 | aligning a sequence with itself gives its full length and the pairs (i, i) for every i |
| `LcsAlgo.LcsDisjoint` | lcs_algo.py:15-37 | sequences with no common element give length 0 and no pairs |
| `LcsAlgo.DeriveStats` | lcs_algo.py:44-55 | added + lcs_len == len_b and removed + lcs_len == len_a; both are non-negative when lcs_len is within the lengths; similarity is in [0, 100] when lcs_len is at most the longer length, is 0 exactly when lcs_len is 0, and is 100 when lcs_len equals the longer length and is positive; the denominator is at least 1, so empty inputs need no special case |
| `LcsAlgo.ComputeStats` | lcs_algo.py:42-55 | for any inputs: the stats are those derived from the LCS length and pairs; added and removed are non-negative and complete lcs_len to len_b and len_a; similarity is in [0, 100], and 0 when both inputs are empty; the matches are a valid matching of length lcs_len |
| `LcsAlgo.IdenticalStats` | lcs_algo.py:42-55 | two identical non-empty inputs give similarity 100 and nothing added or removed |
| `LcsAlgo.BasicScenario` | tests/test_lcs.py:4-9 | a b c d against a x c d gives length 3 and pairs (0,0), (2,2), (3,3), with one line added, one removed and similarity 75 |
| `LcsAlgo.EmptySideScenario` | lcs_algo.py:10-12 | an empty side against two lines gives length 0, no pairs, two lines added, none removed and similarity 0 |
| `Reporter.ValuesIn` | reporter.py:7-8 | the values visited are the map's records, in the iteration order of the keys |
| `Reporter.BuildReport` | reporter.py:6-17 | both commit identifiers and the per-file results are echoed unchanged; total_added and total_removed equal the order-free sums of each record's "added" and "removed", a missing key counting 0; total_files is the number of entries and of records summed |
| `Reporter.MapTotalRemove` | reporter.py:7-8 | the order-free total can take out any entry first |
| `Reporter.ValuesInWithout` | reporter.py:7-8 | records looked up through keys other than k do not depend on k's entry |
| `Reporter.SumOfEnumeration` | reporter.py:7-15 | summing over any iteration order that lists every key once gives the order-free total, and such an order lists as many keys as the map has entries |
| `Reporter.TotalsIgnoreOrder` | reporter.py:7-15 | two dictionaries with the same entries in different iteration orders give the same totals and file count |
| `Reporter.TwoFileScenario` | reporter.py:6-17 | files with (added 1, removed 1) and (no "added", removed 2) give total_added 1, total_removed 3 and total_files 2 |

## Left out

- `save_report_json` and `save_report_csv` (reporter.py:19-38): file I/O and JSON/CSV serialisation by library code.
- `git_utils.py`, `github_api_utils.py` and `streamlit_app.py` are not part of this model. They are repository access (git commands), an HTTP client with base64/UTF-8 decoding, and the user interface. The interface's own per-file stats come from `difflib.SequenceMatcher`, not from the engine.
- The interface's overall-similarity average and its rounding to two decimals are floating-point display logic.
- `LcsAlgo.DeriveStats`: similarity is exact real arithmetic, not IEEE double. Rounding of the division and of the multiplication by 100 is not modelled.
- `LcsAlgo.ComputeStats`: its similarity is the exact real of `DeriveStats`, for the same reason.
- `LcsAlgo.FillTable`: the Python table is a list of row lists. It is modelled as one `array2`, so the rows cannot alias each other.
- `Reporter.FileRecord`: only the keys the engine and the interface write are modelled (len_a, len_b, lcs_len, added, removed, similarity, matches). Their values are typed: an "added" or "removed" that is present is an integer. `build_report` itself accepts arbitrary dictionaries.
- `Reporter.PerFileResults`: the dictionary's insertion order is an explicit key sequence. A Python dict always has one.
- `Reporter.BuildReport`: the source stores the same dictionary object under "files", so a later change to the per-file results would show in the report. The model's report holds a value copy, so this aliasing is not captured.
