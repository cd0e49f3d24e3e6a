/** Fixed tables of rows and columns, seen as sequences of rows. */
module Grids {

  /** The rows of the table. */
  ghost function Rows<T>(a: array2<T>): (r: seq<seq<T>>)
    reads a
    ensures |r| == a.Length0
    ensures forall i :: 0 <= i < a.Length0 ==> |r[i]| == a.Length1
    ensures forall i, j :: 0 <= i < a.Length0 && 0 <= j < a.Length1 ==> r[i][j] == a[i, j]
  {
    seq(a.Length0, i requires 0 <= i < a.Length0 reads a => Row(a, i))
  }

  ghost function Row<T>(a: array2<T>, i: nat): (r: seq<T>)
    requires i < a.Length0
    reads a
    ensures |r| == a.Length1 && forall j :: 0 <= j < a.Length1 ==> r[j] == a[i, j]
  {
    seq(a.Length1, j requires 0 <= j < a.Length1 && i < a.Length0 reads a => a[i, j])
  }

  /** Two tables that agree but for one place. */
  lemma OnePlace<T>(r: seq<seq<T>>, r': seq<seq<T>>, i: nat, j: nat, e: T)
    requires |r'| == |r| && i < |r| && j < |r[i]| && forall k :: 0 <= k < |r| ==> |r'[k]| == |r[k]|
    requires r'[i][j] == e
    requires forall k, m :: 0 <= k < |r| && 0 <= m < |r[k]| && (k != i || m != j) ==> r'[k][m] == r[k][m]
    ensures r' == r[i := r[i][j := e]]
  {
    var s := r[i := r[i][j := e]];
    forall k | 0 <= k < |r| ensures r'[k] == s[k] {
      assert forall m :: 0 <= m < |r[k]| ==> r'[k][m] == s[k][m];
    }
  }
}
