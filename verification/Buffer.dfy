// Messages that are hashed block by block: their whole blocks, the rest that waits in a buffer, copying into it and
// bytes to fill it up.

module Buffer {
  import opened Arithmetic

  function Zeros(n: nat): (z: seq<bv8>)
    ensures |z| == n && forall i :: 0 <= i < n ==> z[i] == 0
  {
    seq(n, _ => 0)
  }

  /** How many bytes are left over by whole blocks. */
  function TailSize(m: seq<bv8>, block: nat): (t: nat)
    requires 0 < block
    ensures t < block && t <= |m|
  {
    Division(|m|, block);
    |m| % block
  }

  lemma Division(x: nat, m: nat)
    requires 0 < m
    ensures x == x / m * m + x % m && x % m <= x
  {
  }

  function Whole(m: seq<bv8>, block: nat): seq<bv8>
    requires 0 < block
  {
    m[..|m| - TailSize(m, block)]
  }

  function Tail(m: seq<bv8>, block: nat): seq<bv8>
    requires 0 < block
  {
    m[|m| - TailSize(m, block)..]
  }

  lemma NothingWaits(block: nat)
    requires 0 < block
    ensures Whole([], block) == [] && Tail([], block) == [] && TailSize([], block) == 0
  {
    hide TailSize;
    assert TailSize([], block) == 0;
  }

  /** Bytes that do not fill the block. */
  lemma FeedPartial(m: seq<bv8>, d: seq<bv8>, block: nat)
    requires 0 < block && TailSize(m, block) + |d| < block
    ensures TailSize(m + d, block) == TailSize(m, block) + |d|
    ensures Whole(m + d, block) == Whole(m, block) && Tail(m + d, block) == Tail(m, block) + d
  {
    Division(|m|, block);
    Remainder(|m| + |d|, |m| / block, |m| % block + |d|, block);
    var k := |m| - TailSize(m, block);
    assert (m + d)[..k] == m[..k];
    assert (m + d)[k..] == m[k..] + d;
  }

  /** Bytes that fill the block exactly. */
  lemma FeedWhole(m: seq<bv8>, d: seq<bv8>, block: nat)
    requires 0 < block && TailSize(m, block) + |d| == block
    ensures TailSize(m + d, block) == 0 && Tail(m + d, block) == []
    ensures |Whole(m, block)| % block == 0 && |Tail(m, block) + d| == block
    ensures Whole(m + d, block) == Whole(m, block) + (Tail(m, block) + d)
  {
    var q := |m| / block;
    Division(|m|, block);
    assert (q + 1) * block == q * block + block;
    Remainder(|m| + |d|, q + 1, 0, block);
    Remainder(q * block, q, 0, block);
    assert (m + d)[..|m| + |d|] == m + d;
  }

  lemma Rejoined(m: seq<bv8>, data: seq<bv8>, i: nat, j: nat)
    requires i <= j <= |data|
    ensures m + data[..i] + data[i..j] == m + data[..j]
    ensures m + data[..j] + data[j..] == m + data
    ensures m + data[..0] == m
  {
  }

  lemma Extended(m: seq<bv8>, data: seq<bv8>, i: nat, j: nat, k: nat)
    requires i <= j <= k <= |data|
    ensures m + data[i..j] + data[j..k] == m + data[i..k]
    ensures m + data[i..i] == m
  {
  }

  lemma PrefixOf(b: seq<bv8>, c: seq<bv8>, d: seq<bv8>, t: nat)
    requires t + |d| <= |b| && c == b[..t] + d + b[t + |d|..]
    ensures |c| == |b| && c[..t + |d|] == b[..t] + d
  {
  }

  /** `memcpy`. */
  method Copy(buf: array<bv8>, at: nat, source: seq<bv8>)
    requires at + |source| <= buf.Length
    modifies buf
    ensures buf[..] == old(buf[..at]) + source + old(buf[at + |source|..])
  {
    for i := 0 to |source|
      invariant forall j :: 0 <= j < buf.Length ==>
        buf[j] == if at <= j < at + i then source[j - at] else old(buf[j])
    {
      buf[at + i] := source[i];
    }
  }
}
