/** Byte rings: size bytes, of which those from tail up to head, around the end, are queued. */
module Ring {
  /** x & (size - 1), for the x less than once around that occur. */
  function Wrap(x: int, size: int): (r: int)
    requires size > 0 && -size <= x < 2 * size
    ensures 0 <= r < size
  {
    if x < 0 then x + size else if x < size then x else x - size
  }

  /** The n bytes from tail on. */
  function Window(buf: seq<int>, tail: nat, n: nat): (r: seq<int>)
    requires tail < |buf| && n <= |buf|
    ensures |r| == n && forall i | 0 <= i < n :: r[i] == buf[Wrap(tail + i, |buf|)]
  {
    seq(n, i requires 0 <= i < n => buf[Wrap(tail + i, |buf|)])
  }

  /** A byte put at the head joins the queue at its end. */
  lemma Put(buf: seq<int>, tail: nat, n: nat, b: int)
    requires tail < |buf| && n < |buf|
    ensures Window(buf[Wrap(tail + n, |buf|) := b], tail, n + 1) == Window(buf, tail, n) + [b]
  {
    var w := Window(buf[Wrap(tail + n, |buf|) := b], tail, n + 1);
    forall i | 0 <= i <= n ensures w[i] == (Window(buf, tail, n) + [b])[i] {
      assert i < n ==> Wrap(tail + i, |buf|) != Wrap(tail + n, |buf|);
    }
  }

  /** Moving the tail takes bytes off the front; moving the head back takes them off the end. */
  lemma Take(buf: seq<int>, tail: nat, n: nat, k: nat)
    requires tail < |buf| && k <= n <= |buf| && k < |buf|
    ensures Window(buf, Wrap(tail + k, |buf|), n - k) == Window(buf, tail, n)[k..]
    ensures Window(buf, tail, k) == Window(buf, tail, n)[..k]
  {
    var w := Window(buf, Wrap(tail + k, |buf|), n - k);
    forall i | 0 <= i < n - k ensures w[i] == Window(buf, tail, n)[k + i] {
      assert Wrap(Wrap(tail + k, |buf|) + i, |buf|) == Wrap(tail + (k + i), |buf|);
    }
  }

  lemma HeadIsWrapped(head: nat, tail: nat, size: nat)
    requires head < size && tail < size
    ensures head == Wrap(tail + Wrap(head - tail, size), size)
  {}

  /** The masks of the source: sizes are powers of two. */
  lemma MaskIsWrap(x: int)
    ensures -1024 <= x < 2048 ==> Wrap(x, 1024) == x % 1024
    ensures -4096 <= x < 8192 ==> Wrap(x, 4096) == x % 4096
  {}
}
