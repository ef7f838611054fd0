/** Python's `sorted(s)` on a finite set of integers: its elements as a
    strictly ascending sequence. */
module SortedSets {

  predicate StrictlyAscending(s: seq<int>) {
    forall i, j :: 0 <= i < j < |s| ==> s[i] < s[j]
  }

  /** The set of values a sequence holds. */
  function Elements(s: seq<int>): set<int> {
    set i | 0 <= i < |s| :: s[i]
  }

  /** The members of `s` that lie in `[lo, hi]`, in ascending order. When
      every member of `s` lies in `[lo, hi]` this is `sorted(s)`. */
  function SortedWithin(s: set<int>, lo: int, hi: int): (r: seq<int>)
    ensures StrictlyAscending(r)
    ensures Elements(r) == set x | x in s && lo <= x <= hi
    decreases hi - lo
  {
    if lo > hi then []
    else
      var rest := SortedWithin(s, lo + 1, hi);
      assert forall j :: 0 <= j < |rest| ==> rest[j] in Elements(rest);
      if lo in s then
        assert Elements([lo] + rest) == {lo} + Elements(rest) by {
          forall x | x in Elements([lo] + rest) ensures x in {lo} + Elements(rest) {
            var i :| 0 <= i < |[lo] + rest| && ([lo] + rest)[i] == x;
            if i > 0 {
              assert rest[i - 1] == x;
            }
          }
          forall x | x in Elements(rest) ensures x in Elements([lo] + rest) {
            var i :| 0 <= i < |rest| && rest[i] == x;
            assert ([lo] + rest)[i + 1] == x;
          }
          assert ([lo] + rest)[0] == lo;
        }
        [lo] + rest
      else rest
  }

  /** Two strictly ascending sequences with the same elements are equal, so
      `SortedWithin` is the only ascending listing of its elements. */
  lemma {:induction false} AscendingUnique(a: seq<int>, b: seq<int>)
    requires StrictlyAscending(a) && StrictlyAscending(b)
    requires Elements(a) == Elements(b)
    ensures a == b
  {
    assert |b| > 0 ==> b[0] in Elements(b);
    if |a| > 0 {
      assert a[0] in Elements(a);
      var kb :| 0 <= kb < |b| && b[kb] == a[0];
      assert b[0] in Elements(b);
      var ka :| 0 <= ka < |a| && a[ka] == b[0];
      assert a[0] == b[0];
      assert Elements(a[1..]) == Elements(b[1..]) by {
        forall x | x in Elements(a[1..]) ensures x in Elements(b[1..]) {
          var k :| 0 <= k < |a[1..]| && a[1..][k] == x;
          assert a[k + 1] == x && a[0] < x;
          assert x in Elements(b);
          var j :| 0 <= j < |b| && b[j] == x;
          assert j > 0 && b[1..][j - 1] == x;
        }
        forall x | x in Elements(b[1..]) ensures x in Elements(a[1..]) {
          var k :| 0 <= k < |b[1..]| && b[1..][k] == x;
          assert b[k + 1] == x && b[0] < x;
          assert x in Elements(a);
          var j :| 0 <= j < |a| && a[j] == x;
          assert j > 0 && a[1..][j - 1] == x;
        }
      }
      AscendingUnique(a[1..], b[1..]);
      assert a == [a[0]] + a[1..];
      assert b == [b[0]] + b[1..];
    }
  }
}
