/** A matrix in one flat buffer, row after row, as the CPU kernels address it. */
module FlatRows {
  import opened Arith

  function RowOf<T>(m: seq<T>, width: nat, n: nat, b: nat): (row: seq<T>)
    requires |m| == n * width && b < n
    ensures |row| == width
  {
    RowInside(b, n, width);
    m[b * width..b * width + width]
  }

  /** A write at place i of row b changes that place of that row only. */
  lemma WriteInRow<T>(m: seq<T>, width: nat, n: nat, b: nat, i: nat, v: T)
    requires |m| == n * width && b < n && i < width
    ensures b * width + i < |m|
    ensures RowOf(m[b * width + i := v], width, n, b) == RowOf(m, width, n, b)[i := v]
    ensures forall c :: 0 <= c < n && c != b ==>
      RowOf(m[b * width + i := v], width, n, c) == RowOf(m, width, n, c)
  {
    RowInside(b, n, width);
    var after := m[b * width + i := v];
    forall c | 0 <= c < n && c != b ensures RowOf(after, width, n, c) == RowOf(m, width, n, c) {
      hide RowOf;
      RowsApart(b, c, width);
      SameRow(m, after, width, n, c);
    }
  }

  lemma InRow<T>(m: seq<T>, width: nat, n: nat, b: nat, i: nat)
    requires |m| == n * width && b < n && i < width
    ensures b * width + i < |m| && m[b * width + i] == RowOf(m, width, n, b)[i]
  {
    RowInside(b, n, width);
  }

  /** Different rows do not overlap. */
  lemma RowsApart(b: nat, c: nat, width: nat)
    ensures b < c ==> b * width + width <= c * width
    ensures c < b ==> c * width + width <= b * width
  {
    if b < c {
      RowInside(b, c, width);
    } else if c < b {
      RowInside(c, b, width);
    }
  }

  lemma SameRow<T>(m: seq<T>, after: seq<T>, width: nat, n: nat, b: nat)
    requires |m| == |after| == n * width && b < n
    requires forall k :: 0 <= k < |m| && b * width <= k < b * width + width ==> after[k] == m[k]
    ensures RowOf(after, width, n, b) == RowOf(m, width, n, b)
  {
    RowInside(b, n, width);
  }

  /** Overwriting the beginning of row b changes that row only. */
  lemma WriteSlice<T>(m: seq<T>, after: seq<T>, width: nat, n: nat, b: nat, v: seq<T>)
    requires |m| == |after| == n * width && b < n && |v| <= width
    requires forall k :: 0 <= k < |m| ==>
      after[k] == if b * width <= k < b * width + |v| then v[k - b * width] else m[k]
    ensures RowOf(after, width, n, b) == v + RowOf(m, width, n, b)[|v|..]
    ensures forall c :: 0 <= c < n && c != b ==> RowOf(after, width, n, c) == RowOf(m, width, n, c)
  {
    RowInside(b, n, width);
    forall c | 0 <= c < n && c != b ensures RowOf(after, width, n, c) == RowOf(m, width, n, c) {
      hide RowOf;
      RowsApart(b, c, width);
      SameRow(m, after, width, n, c);
    }
  }

  lemma ConstantRows<T>(m: seq<T>, width: nat, n: nat, v: T)
    requires |m| == n * width && forall k :: 0 <= k < |m| ==> m[k] == v
    ensures forall b :: 0 <= b < n ==> RowOf(m, width, n, b) == seq(width, _ => v)
  {
    forall b | 0 <= b < n ensures RowOf(m, width, n, b) == seq(width, _ => v) {
      RowInside(b, n, width);
    }
  }
}
