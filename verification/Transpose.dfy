/** The matrix transposes tuned for a small cache: whatever the order in which they move the elements, what they leave in
    B is the transpose of A. */
module Transpose {

  const K: nat := 16

  /** The elements of rows r0 to r1 and columns c0 to c1 of A are in their places in B. */
  ghost predicate Moved(A: array2<int>, B: array2<int>, r0: int, r1: int, c0: int, c1: int)
    requires A.Length0 == B.Length1 && A.Length1 == B.Length0
    reads A, B
  {
    forall r, c :: 0 <= r < A.Length0 && 0 <= c < A.Length1 && r0 <= r < r1 && c0 <= c < c1 ==> B[c, r] == A[r, c]
  }

  /** `trans` */
  method Trans(A: array2<int>, B: array2<int>)
    requires A != B && A.Length0 == B.Length1 && A.Length1 == B.Length0
    modifies B
    ensures Moved(A, B, 0, A.Length0, 0, A.Length1)
  {
    for i := 0 to A.Length0
      invariant Moved(A, B, 0, i, 0, A.Length1)
    {
      for j := 0 to A.Length1
        invariant Moved(A, B, 0, i, 0, A.Length1) && Moved(A, B, i, i + 1, 0, j)
      {
        var tmp := A[i, j];
        B[j, i] := tmp;
      }
    }
  }

  /** The elements of a tile outside of which B is as it was. */
  twostate predicate OnlyTile(A: array2<int>, B: array2<int>, r0: int, r1: int, c0: int, c1: int)
    requires A.Length0 == B.Length1 && A.Length1 == B.Length0
    reads B
  {
    forall r, c :: 0 <= r < A.Length0 && 0 <= c < A.Length1 && !(r0 <= r < r1 && c0 <= c < c1) ==> B[c, r] == old(B[c, r])
  }

  /** The first two loops of `transpose_submit` over a tile: into tmp, and from there transposed into tmpTranspose. */
  method LoadTile(A: array2<int>, tmp: array2<int>, tmpTranspose: array2<int>, r0: nat, c0: nat, h: nat, w: nat)
    requires tmp != tmpTranspose && A != tmp && A != tmpTranspose
    requires tmp.Length0 == tmp.Length1 == tmpTranspose.Length0 == tmpTranspose.Length1 == K
    requires h <= K && w <= K && r0 + h <= A.Length0 && c0 + w <= A.Length1
    modifies tmp, tmpTranspose
    ensures forall x, y :: 0 <= x < h && 0 <= y < w ==> tmpTranspose[y, x] == A[r0 + x, c0 + y]
  {
    for u := 0 to h
      invariant forall x, y :: 0 <= x < u && 0 <= y < w ==> tmp[x, y] == A[r0 + x, c0 + y]
    {
      for v := 0 to w
        invariant forall x, y :: 0 <= x < u && 0 <= y < w ==> tmp[x, y] == A[r0 + x, c0 + y]
        invariant forall y :: 0 <= y < v ==> tmp[u, y] == A[r0 + u, c0 + y]
      {
        tmp[u, v] := A[r0 + u, c0 + v];
      }
    }
    for u := 0 to h
      modifies tmpTranspose
      invariant forall x, y :: 0 <= x < u && 0 <= y < w ==> tmpTranspose[y, x] == tmp[x, y]
    {
      for v := 0 to w
        modifies tmpTranspose
        invariant forall x, y :: 0 <= x < u && 0 <= y < w ==> tmpTranspose[y, x] == tmp[x, y]
        invariant forall y :: 0 <= y < v ==> tmpTranspose[y, u] == tmp[u, y]
      {
        tmpTranspose[v, u] := tmp[u, v];
      }
    }
  }

  /** One tile of `transpose_submit`. */
  method Tile(A: array2<int>, B: array2<int>, tmp: array2<int>, tmpTranspose: array2<int>, r0: nat, c0: nat, h: nat, w: nat)
    requires A != B && tmp != tmpTranspose && A != tmp && A != tmpTranspose && B != tmp && B != tmpTranspose
    requires A.Length0 == B.Length1 && A.Length1 == B.Length0
    requires tmp.Length0 == tmp.Length1 == tmpTranspose.Length0 == tmpTranspose.Length1 == K
    requires h <= K && w <= K && r0 + h <= A.Length0 && c0 + w <= A.Length1
    modifies B, tmp, tmpTranspose
    ensures Moved(A, B, r0, r0 + h, c0, c0 + w) && OnlyTile(A, B, r0, r0 + h, c0, c0 + w)
  {
    LoadTile(A, tmp, tmpTranspose, r0, c0, h, w);
    for u := 0 to h
      modifies B
      invariant Moved(A, B, r0, r0 + u, c0, c0 + w) && OnlyTile(A, B, r0, r0 + u, c0, c0 + w)
    {
      for v := 0 to w
        modifies B
        invariant Moved(A, B, r0, r0 + u, c0, c0 + w) && Moved(A, B, r0 + u, r0 + u + 1, c0, c0 + v)
        invariant OnlyTile(A, B, r0, r0 + u + 1, c0, c0 + w)
      {
        B[c0 + v, r0 + u] := tmpTranspose[v, u];
      }
    }
  }

  /** `transpose_submit`: the whole tiles, the strip below them, the strip to the right of them, and the corner. */
  method TransposeSubmit(A: array2<int>, B: array2<int>)
    requires A != B && A.Length0 == B.Length1 && A.Length1 == B.Length0 && A.Length0 > 0
    modifies B
    ensures Moved(A, B, 0, A.Length0, 0, A.Length1)
  {
    var N, M := A.Length0, A.Length1;
    var tmp, tmpTranspose := new int[K, K], new int[K, K];
    var i, j: int := 0, *;
    while i < N / K
      modifies B, tmp, tmpTranspose
      invariant 0 <= i <= N / K && (i > 0 ==> j == M / K)
      invariant Moved(A, B, 0, i * K, 0, M / K * K)
    {
      j := 0;
      while j < M / K
        modifies B, tmp, tmpTranspose
        invariant 0 <= j <= M / K
        invariant Moved(A, B, 0, i * K, 0, M / K * K) && Moved(A, B, i * K, i * K + K, 0, j * K)
      {
        Tile(A, B, tmp, tmpTranspose, i * K, j * K, K, K);
        j := j + 1;
      }
      i := i + 1;
    }
    if i * K < N {
      j := 0;
      while j < M / K
        modifies B, tmp, tmpTranspose
        invariant 0 <= j <= M / K
        invariant Moved(A, B, 0, i * K, 0, M / K * K) && Moved(A, B, i * K, N, 0, j * K)
      {
        Tile(A, B, tmp, tmpTranspose, i * K, j * K, N % K, K);
        j := j + 1;
      }
    }
    assert Moved(A, B, 0, N, 0, j * K);
    if j * K < M {
      i := 0;
      while i < N / K
        modifies B, tmp, tmpTranspose
        invariant 0 <= i <= N / K
        invariant Moved(A, B, 0, N, 0, j * K) && Moved(A, B, 0, i * K, j * K, M)
      {
        Tile(A, B, tmp, tmpTranspose, i * K, j * K, K, M % K);
        i := i + 1;
      }
    }
    if j * K < M && i * K < N {
      Tile(A, B, tmp, tmpTranspose, i * K, j * K, N % K, M % K);
    }
  }

  /** One row of a block: the diagonal element is kept back and written last. */
  method Row(A: array2<int>, B: array2<int>, k: nat, j: nat, size: nat)
    requires A != B && A.Length0 == B.Length1 && A.Length1 == B.Length0
    requires k < A.Length0 && j + size <= A.Length1
    modifies B
    ensures Moved(A, B, k, k + 1, j, j + size) && OnlyTile(A, B, k, k + 1, j, j + size)
  {
    var diagTouched, diag: int := false, *;
    for l := j to j + size
      invariant OnlyTile(A, B, k, k + 1, j, l)
      invariant forall c :: j <= c < l && c != k ==> B[c, k] == A[k, c]
      invariant diagTouched <==> j <= k < l
      invariant diagTouched ==> diag == A[k, k]
    {
      if k == l {
        diagTouched := true;
        diag := A[k, l];
        continue;
      }
      var tmp := A[k, l];
      B[l, k] := tmp;
    }
    if diagTouched {
      B[k, k] := diag;
    }
  }

  /** `transpose32`: the blocks of 8 by 8 that fit are transposed, and nothing else is written. All of B is the transpose
      when 8 divides both sizes. */
  method Transpose32(A: array2<int>, B: array2<int>)
    requires A != B && A.Length0 == B.Length1 && A.Length1 == B.Length0
    modifies B
    ensures var n, m := A.Length0 - A.Length0 % 8, A.Length1 - A.Length1 % 8;
            Moved(A, B, 0, n, 0, m) && OnlyTile(A, B, 0, n, 0, m)
  {
    var N, M := A.Length0, A.Length1;
    var i := 0;
    while i <= N - 8
      invariant 0 <= i <= N && i % 8 == 0
      invariant Moved(A, B, 0, i, 0, M - M % 8) && OnlyTile(A, B, 0, i, 0, M - M % 8)
    {
      var j := 0;
      while j <= M - 8
        invariant 0 <= j <= M && j % 8 == 0
        invariant Moved(A, B, 0, i, 0, M - M % 8) && Moved(A, B, i, i + 8, 0, j)
        invariant OnlyTile(A, B, 0, i + 8, 0, M - M % 8)
      {
        for k := i to i + 8
          invariant Moved(A, B, 0, i, 0, M - M % 8) && Moved(A, B, i, i + 8, 0, j) && Moved(A, B, i, k, j, j + 8)
          invariant OnlyTile(A, B, 0, i + 8, 0, M - M % 8)
        {
          Row(A, B, k, j, 8);
        }
        j := j + 8;
      }
      i := i + 8;
    }
  }

  /** `transpose64`: two blocks of 4 by 4 at a time, the right one through a buffer. Every row it reads has the columns
      it reads unless 4 to 7 columns are left over. */
  method Transpose64(A: array2<int>, B: array2<int>)
    requires A != B && A.Length0 == B.Length1 && A.Length1 == B.Length0
    requires A.Length1 % 8 < 4 || A.Length0 < 4
    modifies B
    ensures var n, m := A.Length0 - A.Length0 % 4, A.Length1 - A.Length1 % 8;
            Moved(A, B, 0, n, 0, m) && OnlyTile(A, B, 0, n, 0, m)
  {
    var N, M := A.Length0, A.Length1;
    var evenBlock := new int[4, 4];
    var i := 0;
    while i <= N - 4
      modifies B, evenBlock
      invariant 0 <= i <= N && i % 4 == 0
      invariant Moved(A, B, 0, i, 0, M - M % 8) && OnlyTile(A, B, 0, i, 0, M - M % 8)
    {
      var j := 0;
      while j <= M - 4
        modifies B, evenBlock
        invariant 0 <= j <= M - M % 8 && j % 8 == 0
        invariant Moved(A, B, 0, i, 0, M - M % 8) && Moved(A, B, i, i + 4, 0, j)
        invariant OnlyTile(A, B, 0, i + 4, 0, M - M % 8)
      {
        LeftBlock(A, B, evenBlock, i, j);
        StoreBlock(A, B, evenBlock, i, j);
        j := j + 8;
      }
      i := i + 4;
    }
  }

  /** The left block of `transpose64`, with the right one read into the buffer. */
  method LeftBlock(A: array2<int>, B: array2<int>, evenBlock: array2<int>, i: nat, j: nat)
    requires A != B && A != evenBlock && B != evenBlock && A.Length0 == B.Length1 && A.Length1 == B.Length0
    requires evenBlock.Length0 == evenBlock.Length1 == 4 && i % 4 == 0 && i + 4 <= A.Length0 && j + 8 <= A.Length1
    modifies B, evenBlock
    ensures Moved(A, B, i, i + 4, j, j + 4) && OnlyTile(A, B, i, i + 4, j, j + 4)
    ensures forall x, y :: 0 <= x < 4 && 0 <= y < 4 ==> evenBlock[x, y] == A[i + x, j + 4 + y]
  {
    for k := i to i + 4
      invariant Moved(A, B, i, k, j, j + 4) && OnlyTile(A, B, i, k, j, j + 4)
      invariant forall x, y :: 0 <= x < k - i && 0 <= y < 4 ==> evenBlock[x, y] == A[i + x, j + 4 + y]
    {
      Row(A, B, k, j, 4);
      ghost var x0 := k - i;
      assert k % 4 == x0;
      BufferRow(A, evenBlock, k, j + 4);
      assert forall y :: 0 <= y < 4 ==> evenBlock[x0, y] == A[i + x0, j + 4 + y];
    }
  }

  /** Four elements of row k, from column c on, into the buffer. */
  method BufferRow(A: array2<int>, evenBlock: array2<int>, k: nat, c: nat)
    requires A != evenBlock && evenBlock.Length0 == evenBlock.Length1 == 4 && k < A.Length0 && c + 4 <= A.Length1
    modifies evenBlock
    ensures forall y :: 0 <= y < 4 ==> evenBlock[k % 4, y] == A[k, c + y]
    ensures forall x, y :: 0 <= x < 4 && 0 <= y < 4 && x != k % 4 ==> evenBlock[x, y] == old(evenBlock[x, y])
  {
    var x0 := k % 4;
    for m := 0 to 4
      invariant forall y :: 0 <= y < m ==> evenBlock[x0, y] == A[k, c + y]
      invariant forall x, y :: 0 <= x < 4 && 0 <= y < 4 && x != x0 ==> evenBlock[x, y] == old(evenBlock[x, y])
    {
      evenBlock[k % 4, m] := A[k, c + m];
    }
  }

  /** The buffered right block of `transpose64`. */
  method StoreBlock(A: array2<int>, B: array2<int>, evenBlock: array2<int>, i: nat, j: nat)
    requires A != B && B != evenBlock && A.Length0 == B.Length1 && A.Length1 == B.Length0
    requires evenBlock.Length0 == evenBlock.Length1 == 4 && i + 4 <= A.Length0 && j + 8 <= A.Length1
    requires forall x, y :: 0 <= x < 4 && 0 <= y < 4 ==> evenBlock[x, y] == A[i + x, j + 4 + y]
    modifies B
    ensures Moved(A, B, i, i + 4, j + 4, j + 8) && OnlyTile(A, B, i, i + 4, j + 4, j + 8)
  {
    for n := 0 to 4
      invariant Moved(A, B, i, i + n, j + 4, j + 8) && OnlyTile(A, B, i, i + n, j + 4, j + 8)
    {
      for m := 0 to 4
        invariant Moved(A, B, i, i + n, j + 4, j + 8) && Moved(A, B, i + n, i + n + 1, j + 4, j + 4 + m)
        invariant OnlyTile(A, B, i, i + n + 1, j + 4, j + 8)
      {
        B[j + 4 + m, i + n] := evenBlock[n, m];
      }
    }
  }
}
