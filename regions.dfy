/**
 * The order in which the nested `for y { for x { ... } }` loops of the
 * fill and extract routines visit a rectangle: row by row, each row left
 * to right.
 */
module Regions {
  import opened Common

  /** The points (x0, y), ..., (xEnd - 1, y), left to right. */
  function Span(x0: int, xEnd: int, y: int): (s: seq<Point>)
    ensures |s| == if x0 <= xEnd then xEnd - x0 else 0
    decreases xEnd - x0
  {
    if xEnd <= x0 then [] else Span(x0, xEnd - 1, y) + [Point(xEnd - 1, y)]
  }

  lemma {:induction false} SpanMembers(x0: int, xEnd: int, y: int)
    ensures forall p :: p in Span(x0, xEnd, y) <==> x0 <= p.x < xEnd && p.y == y
    decreases xEnd - x0
  {
    if xEnd > x0 {
      SpanMembers(x0, xEnd - 1, y);
    }
  }

  lemma {:induction false} SpanAt(x0: int, xEnd: int, y: int, i: int)
    requires 0 <= i < |Span(x0, xEnd, y)|
    ensures Span(x0, xEnd, y)[i] == Point(x0 + i, y)
    decreases xEnd - x0
  {
    if i < |Span(x0, xEnd, y)| - 1 {
      SpanAt(x0, xEnd - 1, y, i);
    }
  }

  /** Rows y0, ..., yEnd - 1, each scanned from x0 to x1 inclusive. */
  function Rows(x0: int, x1: int, y0: int, yEnd: int): seq<Point>
    decreases yEnd - y0
  {
    if yEnd <= y0 then [] else Rows(x0, x1, y0, yEnd - 1) + Span(x0, x1 + 1, yEnd - 1)
  }

  lemma {:induction false} RowsMembers(x0: int, x1: int, y0: int, yEnd: int)
    ensures forall p :: p in Rows(x0, x1, y0, yEnd) <==> x0 <= p.x <= x1 && y0 <= p.y < yEnd
    decreases yEnd - y0
  {
    if yEnd > y0 {
      RowsMembers(x0, x1, y0, yEnd - 1);
      SpanMembers(x0, x1 + 1, yEnd - 1);
    }
  }

  /** The inclusive rectangle (x0, y0)-(x1, y1) in loop order. */
  function RowMajor(x0: int, y0: int, x1: int, y1: int): seq<Point> {
    Rows(x0, x1, y0, y1 + 1)
  }

  /** The scan visits exactly the points of the rectangle. */
  lemma RowMajorMembers(x0: int, y0: int, x1: int, y1: int)
    ensures forall p :: p in RowMajor(x0, y0, x1, y1) <==> InRect(p, x0, y0, x1, y1)
  {
    RowsMembers(x0, x1, y0, y1 + 1);
  }

  predicate InRect(p: Point, x0: int, y0: int, x1: int, y1: int) {
    x0 <= p.x <= x1 && y0 <= p.y <= y1
  }

  lemma SpanPrefix(x0: int, x: int, xEnd: int, y: int)
    requires x <= xEnd
    ensures Span(x0, x, y) <= Span(x0, xEnd, y)
  {
    var a, b := Span(x0, x, y), Span(x0, xEnd, y);
    forall i | 0 <= i < |a|
      ensures a[i] == b[i]
    {
      SpanAt(x0, x, y, i);
      SpanAt(x0, xEnd, y, i);
    }
    assert a == b[..|a|];
  }

  lemma {:induction false} RowsPrefix(x0: int, x1: int, y0: int, y: int, yEnd: int)
    requires y <= yEnd
    ensures Rows(x0, x1, y0, y) <= Rows(x0, x1, y0, yEnd)
    decreases yEnd - y
  {
    if y < yEnd && y0 < yEnd {
      RowsPrefix(x0, x1, y0, y, yEnd - 1);
      PrefixTransitive(Rows(x0, x1, y0, y), Rows(x0, x1, y0, yEnd - 1), Rows(x0, x1, y0, yEnd));
    }
  }

  lemma PrefixTransitive<T>(a: seq<T>, b: seq<T>, c: seq<T>)
    requires a <= b && b <= c
    ensures a <= c
  {
    assert a == c[..|a|];
  }

  lemma PrefixAppend<T>(a: seq<T>, b: seq<T>, c: seq<T>)
    requires b <= c
    ensures a + b <= a + c
  {
    assert a + b == (a + c)[..|a + b|];
  }

  /** One more step of the inner loop. */
  lemma SpanStep(pre: seq<Point>, x0: int, x: int, y: int)
    requires x0 <= x
    ensures pre + Span(x0, x, y) + [Point(x, y)] == pre + Span(x0, x + 1, y)
  {
  }

  /** One more row of the outer loop. */
  lemma RowsStep(x0: int, x1: int, y0: int, y: int)
    requires y0 <= y
    ensures Rows(x0, x1, y0, y) + Span(x0, x1 + 1, y) == Rows(x0, x1, y0, y + 1)
  {
  }

  /** A row scan cut at column b. */
  lemma {:induction false} SpanSplit(a: int, b: int, c: int, y: int)
    requires a <= b <= c
    ensures Span(a, b, y) + Span(b, c, y) == Span(a, c, y)
    decreases c - b
  {
    if c > b {
      SpanSplit(a, b, c - 1, y);
      assert Span(a, b, y) + Span(b, c, y) == (Span(a, b, y) + Span(b, c - 1, y)) + [Point(c - 1, y)];
    }
  }

  /** A rectangle scan cut at row b. */
  lemma {:induction false} RowsSplit(x0: int, x1: int, a: int, b: int, c: int)
    requires a <= b <= c
    ensures Rows(x0, x1, a, b) + Rows(x0, x1, b, c) == Rows(x0, x1, a, c)
    decreases c - b
  {
    if c > b {
      RowsSplit(x0, x1, a, b, c - 1);
      assert Rows(x0, x1, a, b) + Rows(x0, x1, b, c) == (Rows(x0, x1, a, b) + Rows(x0, x1, b, c - 1)) + Span(x0, x1 + 1, c - 1);
    }
  }

  /** The outer loop finished: it visited the whole rectangle. */
  lemma RowsDone(x0: int, x1: int, y0: int, y1: int, y: int)
    requires y == y0 || y0 <= y <= y1 + 1
    requires y > y1
    ensures Rows(x0, x1, y0, y) == RowMajor(x0, y0, x1, y1)
  {
  }
}
