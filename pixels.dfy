/**
 * Rasters as numpy holds them: rows of 8-bit samples. The two pixelwise
 * combinators the service applies itself, cv2.bitwise_not and
 * cv2.bitwise_and, have exact uint8 semantics and are modelled here.
 */
module Pixels {

  /** An unsigned 8-bit sample (numpy uint8). */
  type byte = bv8

  /** A colour sample in the blue-green-red order cv2.imdecode produces. */
  datatype Bgr = Bgr(blue: byte, green: byte, red: byte)

  /** A raster, row by row: g[row][column]. */
  type Grid<T> = seq<seq<T>>

  function Height<T>(g: Grid<T>): nat {
    |g|
  }

  /** The width numpy reports as shape[1]: the length of the first row. */
  function Width<T>(g: Grid<T>): nat {
    if |g| == 0 then 0 else |g[0]|
  }

  predicate HasShape<T>(g: Grid<T>, h: nat, w: nat) {
    |g| == h && forall i :: 0 <= i < |g| ==> |g[i]| == w
  }

  /** Every row has the same length, as in a numpy array. */
  predicate IsRect<T>(g: Grid<T>) {
    HasShape(g, Height(g), Width(g))
  }

  predicate SameShape<T, U>(a: Grid<T>, b: Grid<U>) {
    |a| == |b| && forall i :: 0 <= i < |a| ==> |a[i]| == |b[i]|
  }

  lemma ShapeIsRect<T>(g: Grid<T>, h: nat, w: nat)
    requires HasShape(g, h, w) && (h > 0 || w == 0)
    ensures IsRect(g) && Height(g) == h && Width(g) == w
  {
  }

  lemma SameShapeKeepsShape<T, U>(a: Grid<T>, b: Grid<U>, h: nat, w: nat)
    requires SameShape(a, b) && HasShape(b, h, w)
    ensures HasShape(a, h, w)
  {
  }

  /** The two levels of a thresholded mask. */
  predicate IsBinaryValue(v: byte) {
    v == 0 || v == 255
  }

  predicate IsBinary(g: Grid<byte>) {
    forall i, j :: 0 <= i < |g| && 0 <= j < |g[i]| ==> IsBinaryValue(g[i][j])
  }

  /** One sample of cv2.bitwise_not: the bitwise complement, which is 255 - v. */
  function Not(v: byte): (r: byte)
    ensures r == 255 - v && r as int == 255 - v as int
    ensures IsBinaryValue(r) <==> IsBinaryValue(v)
  {
    !v
  }

  /** One sample of cv2.bitwise_and. */
  function AndPx(a: byte, b: byte): (r: byte)
    ensures r <= a && r <= b
    ensures IsBinaryValue(a) && IsBinaryValue(b) ==> IsBinaryValue(r) && (r == 255 <==> a == 255 && b == 255)
  {
    a & b
  }

  function InvertRow(row: seq<byte>): (r: seq<byte>)
    ensures |r| == |row|
    ensures forall j :: 0 <= j < |row| ==> r[j] == Not(row[j])
  {
    if row == [] then [] else [Not(row[0])] + InvertRow(row[1..])
  }

  /** cv2.bitwise_not over a whole raster. */
  function Invert(g: Grid<byte>): (r: Grid<byte>)
    ensures SameShape(r, g)
    ensures forall i, j :: 0 <= i < |g| && 0 <= j < |g[i]| ==> r[i][j] == Not(g[i][j])
  {
    seq(|g|, i requires 0 <= i < |g| => InvertRow(g[i]))
  }

  /** Inverting twice gives back the raster exactly. */
  lemma InvertInvolutive(g: Grid<byte>)
    ensures Invert(Invert(g)) == g
  {
    var r := Invert(Invert(g));
    forall i | 0 <= i < |g|
      ensures r[i] == g[i]
    {
      assert |r[i]| == |g[i]|;
      assert forall j :: 0 <= j < |g[i]| ==> r[i][j] == g[i][j];
    }
  }

  lemma InvertKeepsShape(g: Grid<byte>, h: nat, w: nat)
    requires HasShape(g, h, w)
    ensures HasShape(Invert(g), h, w)
  {
    SameShapeKeepsShape(Invert(g), g, h, w);
  }

  /** A raster is a {0,255} mask exactly when its inversion is. */
  lemma InvertBinaryIff(g: Grid<byte>)
    ensures IsBinary(Invert(g)) <==> IsBinary(g)
  {
    var r := Invert(g);
    if IsBinary(r) {
      forall i, j | 0 <= i < |g| && 0 <= j < |g[i]|
        ensures IsBinaryValue(g[i][j])
      {
        assert IsBinaryValue(r[i][j]);
      }
    }
  }

  function AndRow(x: seq<byte>, y: seq<byte>): (r: seq<byte>)
    requires |x| == |y|
    ensures |r| == |x|
    ensures forall j :: 0 <= j < |x| ==> r[j] == AndPx(x[j], y[j])
  {
    if x == [] then [] else [AndPx(x[0], y[0])] + AndRow(x[1..], y[1..])
  }

  /** cv2.bitwise_and of two rasters of the same size. */
  function And(a: Grid<byte>, b: Grid<byte>): (r: Grid<byte>)
    requires SameShape(a, b)
    ensures SameShape(r, a)
    ensures forall i, j :: 0 <= i < |a| && 0 <= j < |a[i]| ==> r[i][j] == AndPx(a[i][j], b[i][j])
    ensures forall i, j :: 0 <= i < |a| && 0 <= j < |a[i]| ==> r[i][j] <= a[i][j] && r[i][j] <= b[i][j]
  {
    seq(|a|, i requires 0 <= i < |a| => AndRow(a[i], b[i]))
  }

  lemma AndCommutative(a: Grid<byte>, b: Grid<byte>)
    requires SameShape(a, b)
    ensures And(a, b) == And(b, a)
  {
    var l, r := And(a, b), And(b, a);
    forall i | 0 <= i < |a|
      ensures l[i] == r[i]
    {
      forall j | 0 <= j < |a[i]|
        ensures l[i][j] == r[i][j]
      {
        assert l[i][j] == AndPx(a[i][j], b[i][j]);
        assert r[i][j] == AndPx(b[i][j], a[i][j]);
      }
    }
  }

  /** On two {0,255} masks, a combined pixel is 255 exactly when both inputs are 255. */
  lemma AndOfMasks(a: Grid<byte>, b: Grid<byte>)
    requires SameShape(a, b) && IsBinary(a) && IsBinary(b)
    ensures IsBinary(And(a, b))
    ensures forall i, j :: 0 <= i < |a| && 0 <= j < |a[i]| ==>
      (And(a, b)[i][j] == 255 <==> a[i][j] == 255 && b[i][j] == 255)
  {
    var r := And(a, b);
    forall i, j | 0 <= i < |a| && 0 <= j < |a[i]|
      ensures IsBinaryValue(r[i][j]) && (r[i][j] == 255 <==> a[i][j] == 255 && b[i][j] == 255)
    {
      assert r[i][j] == AndPx(a[i][j], b[i][j]);
    }
  }
}
