/** The in-place numpy operations the node bodies perform on array data
    (`*=`, `+=`, `-=`, `[...] = 0.0`, and writes into a facet view or a block
    of rows), each as a loop over the array with its effect stated in terms
    of the array's old contents. */
module ArrayOps {

  /** Every index of the map lies in [0, bound). */
  predicate InRange(ix: seq<nat>, bound: nat)
  {
    forall q :: 0 <= q < |ix| ==> ix[q] < bound
  }

  /** No index appears twice, as in a numpy view or a row selection. */
  predicate Injective(ix: seq<nat>)
  {
    forall q, q' :: 0 <= q < q' < |ix| ==> ix[q] != ix[q']
  }

  /** `a *= scale` with scale = w[..., newaxis]: every pixel of plane p scaled by w[p]. */
  method ScaleRows(a: array2<real>, w: array<real>)
    requires w.Length == a.Length0
    modifies a
    ensures forall p, j :: 0 <= p < a.Length0 && 0 <= j < a.Length1 ==> a[p, j] == w[p] * old(a[p, j])
  {
    for p := 0 to a.Length0
      invariant forall p', j :: 0 <= p' < p && 0 <= j < a.Length1 ==> a[p', j] == w[p'] * old(a[p', j])
      invariant forall p', j :: p <= p' < a.Length0 && 0 <= j < a.Length1 ==> a[p', j] == old(a[p', j])
    {
      for j := 0 to a.Length1
        invariant forall p', j' :: 0 <= p' < p && 0 <= j' < a.Length1 ==> a[p', j'] == w[p'] * old(a[p', j'])
        invariant forall p', j' :: p < p' < a.Length0 && 0 <= j' < a.Length1 ==> a[p', j'] == old(a[p', j'])
        invariant forall j' :: 0 <= j' < j ==> a[p, j'] == w[p] * old(a[p, j'])
        invariant forall j' :: j <= j' < a.Length1 ==> a[p, j'] == old(a[p, j'])
      {
        a[p, j] := w[p] * a[p, j];
      }
    }
  }

  /** `acc += scale * img` with the per-plane weight broadcast over the pixels. */
  method AddScaledRows(acc: array2<real>, img: array2<real>, w: array<real>)
    requires acc != img
    requires img.Length0 == acc.Length0 && img.Length1 == acc.Length1 && w.Length == acc.Length0
    modifies acc
    ensures forall p, j :: 0 <= p < acc.Length0 && 0 <= j < acc.Length1 ==>
              acc[p, j] == old(acc[p, j]) + w[p] * img[p, j]
  {
    for p := 0 to acc.Length0
      invariant forall p', j :: 0 <= p' < p && 0 <= j < acc.Length1 ==> acc[p', j] == old(acc[p', j]) + w[p'] * img[p', j]
      invariant forall p', j :: p <= p' < acc.Length0 && 0 <= j < acc.Length1 ==> acc[p', j] == old(acc[p', j])
    {
      for j := 0 to acc.Length1
        invariant forall p', j' :: 0 <= p' < p && 0 <= j' < acc.Length1 ==> acc[p', j'] == old(acc[p', j']) + w[p'] * img[p', j']
        invariant forall p', j' :: p < p' < acc.Length0 && 0 <= j' < acc.Length1 ==> acc[p', j'] == old(acc[p', j'])
        invariant forall j' :: 0 <= j' < j ==> acc[p, j'] == old(acc[p, j']) + w[p] * img[p, j']
        invariant forall j' :: j <= j' < acc.Length1 ==> acc[p, j'] == old(acc[p, j'])
      {
        acc[p, j] := acc[p, j] + w[p] * img[p, j];
      }
    }
  }

  /** `acc += other` on image data; acc and other may be the same array. */
  method AddRows(acc: array2<real>, other: array2<real>)
    requires other.Length0 == acc.Length0 && other.Length1 == acc.Length1
    modifies acc
    ensures forall p, j :: 0 <= p < acc.Length0 && 0 <= j < acc.Length1 ==>
              acc[p, j] == old(acc[p, j]) + old(other[p, j])
  {
    for p := 0 to acc.Length0
      invariant forall p', j :: 0 <= p' < p && 0 <= j < acc.Length1 ==> acc[p', j] == old(acc[p', j]) + old(other[p', j])
      invariant forall p', j :: p <= p' < acc.Length0 && 0 <= j < acc.Length1 ==>
                  acc[p', j] == old(acc[p', j]) && other[p', j] == old(other[p', j])
    {
      for j := 0 to acc.Length1
        invariant forall p', j' :: 0 <= p' < p && 0 <= j' < acc.Length1 ==> acc[p', j'] == old(acc[p', j']) + old(other[p', j'])
        invariant forall p', j' :: p < p' < acc.Length0 && 0 <= j' < acc.Length1 ==>
                    acc[p', j'] == old(acc[p', j']) && other[p', j'] == old(other[p', j'])
        invariant forall j' :: 0 <= j' < j ==> acc[p, j'] == old(acc[p, j']) + old(other[p, j'])
        invariant forall j' :: j <= j' < acc.Length1 ==> acc[p, j'] == old(acc[p, j']) && other[p, j'] == old(other[p, j'])
      {
        acc[p, j] := acc[p, j] + other[p, j];
      }
    }
  }

  /** `acc += other` element-wise; acc and other may be the same array. */
  method AddInto(acc: array<real>, other: array<real>)
    requires other.Length == acc.Length
    modifies acc
    ensures forall k :: 0 <= k < acc.Length ==> acc[k] == old(acc[k]) + old(other[k])
  {
    for k := 0 to acc.Length
      invariant forall k' :: 0 <= k' < k ==> acc[k'] == old(acc[k']) + old(other[k'])
      invariant forall k' :: k <= k' < acc.Length ==> acc[k'] == old(acc[k']) && other[k'] == old(other[k'])
    {
      acc[k] := acc[k] + other[k];
    }
  }

  /** `acc -= other` element-wise; acc and other may be the same array. */
  method SubtractInto(acc: array<real>, other: array<real>)
    requires other.Length == acc.Length
    modifies acc
    ensures forall k :: 0 <= k < acc.Length ==> acc[k] == old(acc[k]) - old(other[k])
  {
    for k := 0 to acc.Length
      invariant forall k' :: 0 <= k' < k ==> acc[k'] == old(acc[k']) - old(other[k'])
      invariant forall k' :: k <= k' < acc.Length ==> acc[k'] == old(acc[k']) && other[k'] == old(other[k'])
    {
      acc[k] := acc[k] - other[k];
    }
  }

  /** `a[...] = x`. */
  method Fill(a: array<real>, x: real)
    modifies a
    ensures forall k :: 0 <= k < a.Length ==> a[k] == x
  {
    for k := 0 to a.Length
      invariant forall k' :: 0 <= k' < k ==> a[k'] == x
    {
      a[k] := x;
    }
  }

  /** `dpatch.data[...] = src[...]` where dpatch is the view of dst through the
      pixel map patch: local pixel q of the patch is pixel patch[q] of dst. */
  method WritePatch(dst: array2<real>, patch: seq<nat>, src: array2<real>)
    requires dst != src
    requires src.Length0 == dst.Length0 && src.Length1 == |patch|
    requires InRange(patch, dst.Length1) && Injective(patch)
    modifies dst
    ensures forall p, q :: 0 <= p < dst.Length0 && 0 <= q < |patch| ==> dst[p, patch[q]] == src[p, q]
    ensures forall p, g :: 0 <= p < dst.Length0 && 0 <= g < dst.Length1 && g !in patch ==> dst[p, g] == old(dst[p, g])
  {
    for p := 0 to dst.Length0
      invariant forall p', q :: 0 <= p' < p && 0 <= q < |patch| ==> dst[p', patch[q]] == src[p', q]
      invariant forall p', g :: 0 <= p' < dst.Length0 && 0 <= g < dst.Length1 && (p <= p' || g !in patch) ==>
                  dst[p', g] == old(dst[p', g])
    {
      for q := 0 to |patch|
        invariant forall p', q' :: 0 <= p' < p && 0 <= q' < |patch| ==> dst[p', patch[q']] == src[p', q']
        invariant forall q' :: 0 <= q' < q ==> dst[p, patch[q']] == src[p, q']
        invariant forall p', g :: 0 <= p' < dst.Length0 && 0 <= g < dst.Length1 && (p < p' || g !in patch) ==>
                    dst[p', g] == old(dst[p', g])
        invariant forall g :: 0 <= g < dst.Length1 && g !in patch[..q] ==> dst[p, g] == old(dst[p, g])
      {
        dst[p, patch[q]] := src[p, q];
      }
    }
  }

  /** `dst[rows] = src`: row rows[q] of dst receives src[q]. */
  method WriteRows(dst: array<real>, rows: seq<nat>, src: array<real>)
    requires dst != src
    requires src.Length == |rows|
    requires InRange(rows, dst.Length) && Injective(rows)
    modifies dst
    ensures forall q :: 0 <= q < |rows| ==> dst[rows[q]] == src[q]
    ensures forall g :: 0 <= g < dst.Length && g !in rows ==> dst[g] == old(dst[g])
  {
    for q := 0 to |rows|
      invariant forall q' :: 0 <= q' < q ==> dst[rows[q']] == src[q']
      invariant forall g :: 0 <= g < dst.Length && g !in rows[..q] ==> dst[g] == old(dst[g])
    {
      dst[rows[q]] := src[q];
    }
  }
}
