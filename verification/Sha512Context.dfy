// Streaming: plibsys/src/pcryptohash-sha2-512.c keeps a hash value, a partial block and a 128-bit length, on a
// little-endian host.

module Sha512Context {
  import opened Arithmetic
  import opened Buffer
  import opened Sha512Standard
  import opened Sha512
  import opened Sha512Padding
  import opened Words64

  // ----- messages as whole blocks and a tail -----

  lemma {:induction false} AbsorbedConcat(h: seq<Word>, a: seq<Byte>, b: seq<Byte>)
    requires |h| == 8 && |a| % 128 == 0
    ensures Absorbed(h, a + b) == Absorbed(Absorbed(h, a), b)
    decreases |a|
  {
    hide Compressed, Parsed;
    if a == [] {
      assert a + b == b;
    } else {
      assert (a + b)[..128] == a[..128] && (a + b)[128..] == a[128..] + b;
      AbsorbedConcat(Compressed(h, Parsed(a[..128])), a[128..], b);
    }
  }

  lemma AbsorbedBlock(h: seq<Word>, x: seq<Byte>)
    requires |h| == 8 && |x| == 128
    ensures Absorbed(h, x) == Compressed(h, Parsed(x))
  {
    hide Compressed, Parsed;
    assert x[..128] == x && x[128..] == [];
  }

  /** Filling the buffer exactly absorbs one block of the message. */
  lemma FeedBlock(h: seq<Word>, m: seq<Byte>, d: seq<Byte>)
    requires |h| == 8 && TailSize(m, 128) + |d| == 128
    ensures Tail(m + d, 128) == [] && TailSize(m + d, 128) == 0
    ensures Absorbed(h, Whole(m + d, 128)) == Compressed(Absorbed(h, Whole(m, 128)), Parsed(Tail(m, 128) + d))
  {
    hide Compressed, Parsed, Absorbed;
    FeedWhole(m, d, 128);
    hide TailSize, Whole, Tail;
    AbsorbedConcat(h, Whole(m, 128), Tail(m, 128) + d);
    AbsorbedBlock(Absorbed(h, Whole(m, 128)), Tail(m, 128) + d);
  }

  /** Hash value `h` has taken in the whole blocks of `m`, and the buffer starts with the rest. */
  ghost predicate Holds(initial: seq<Word>, h: seq<Word>, b: seq<Byte>, m: seq<Byte>) {
    |initial| == 8 && |b| == 128 && h == Absorbed(initial, Whole(m, 128)) && b[..TailSize(m, 128)] == Tail(m, 128)
  }

  lemma AbsorbedNothing(h: seq<Word>)
    requires |h| == 8
    ensures Absorbed(h, []) == h
  {
    hide Compressed, Parsed;
  }

  lemma HoldsNothing(initial: seq<Word>, b: seq<Byte>)
    requires |initial| == 8 && |b| == 128
    ensures Holds(initial, initial, b, [])
  {
    NothingWaits(128);
    AbsorbedNothing(initial);
    hide Absorbed, Whole, Tail;
  }

  lemma HoldsMore(initial: seq<Word>, h: seq<Word>, b: seq<Byte>, c: seq<Byte>, m: seq<Byte>, d: seq<Byte>)
    requires Holds(initial, h, b, m) && TailSize(m, 128) + |d| < 128
    requires c == b[..TailSize(m, 128)] + d + b[TailSize(m, 128) + |d|..]
    ensures Holds(initial, h, c, m + d)
  {
    FeedPartial(m, d, 128);
    PrefixOf(b, c, d, TailSize(m, 128));
    hide Absorbed;
    assert TailSize(m + d, 128) == |Tail(m, 128) + d|;
  }

  lemma HoldsBlock(initial: seq<Word>, h: seq<Word>, b: seq<Byte>, c: seq<Byte>, m: seq<Byte>, d: seq<Byte>)
    requires Holds(initial, h, b, m) && TailSize(m, 128) + |d| == 128 && |c| == 128
    ensures |b[..TailSize(m, 128)] + d| == 128 && TailSize(m + d, 128) == 0
    ensures |h| == 8 && Holds(initial, Compressed(h, Parsed(b[..TailSize(m, 128)] + d)), c, m + d)
  {
    hide Absorbed, Compressed, Parsed;
    FeedBlock(initial, m, d);
  }

  // ----- the 128-bit length -----

  ghost predicate Counts(low: nat, high: nat, n: nat) {
    low < TWO_64 && high < TWO_64 && high * TWO_64 + low == n % TWO_128
  }

  lemma CountedTail(low: nat, high: nat, n: nat)
    requires Counts(low, high, n)
    ensures low % 128 == n % 128
  {
  }

  /** The counter carries into its high word and wraps around at 2 to the 128. */
  lemma CountGrows(low: nat, high: nat, n: nat, len: nat)
    requires Counts(low, high, n) && len < TWO_64
    ensures var l := (low + len) % TWO_64;
      Counts(l, if l < len then (high + 1) % TWO_64 else high, n + len)
  {
    var q := n / TWO_128;
    assert n == q * TWO_128 + high * TWO_64 + low;
    if low + len < TWO_64 {
      Remainder(n + len, q, high * TWO_64 + low + len, TWO_128);
      Remainder(low + len, 0, low + len, TWO_64);
    } else {
      var l := low + len - TWO_64;
      Remainder(low + len, 1, l, TWO_64);
      if high + 1 < TWO_64 {
        Remainder(high + 1, 0, high + 1, TWO_64);
        Remainder(n + len, q, (high + 1) * TWO_64 + l, TWO_128);
      } else {
        Remainder(high + 1, 1, 0, TWO_64);
        Remainder(n + len, q + 1, l, TWO_128);
      }
    }
  }

  const TWO_61: nat := 0x2000_0000_0000_0000

  /** The two length words that the last block ends with. */
  lemma CountedBits(low: nat, high: nat, n: nat)
    requires Counts(low, high, n)
    ensures low * 8 % TWO_64 == 8 * n % TWO_64
    ensures high * 8 % TWO_64 + low / TWO_61 == 8 * n / TWO_64 % TWO_64
  {
    var q, c, r := n / TWO_128, low / TWO_61, low % TWO_61;
    var d, g := high / TWO_61, high % TWO_61;
    assert n == q * TWO_128 + high * TWO_64 + low;
    Remainder(low * 8, c, r * 8, TWO_64);
    Remainder(8 * n, 8 * q * TWO_64 + 8 * high + c, r * 8, TWO_64);
    Remainder(high * 8, d, g * 8, TWO_64);
    Remainder(8 * q * TWO_64 + 8 * high + c, 8 * q + d, g * 8 + c, TWO_64);
  }

  lemma LengthWordsAre(low: nat, high: nat, n: nat)
    requires Counts(low, high, n)
    ensures ToWord(low * 8 % TWO_64) == LengthLow(n)
    ensures ToWord(high * 8 % TWO_64 + low / TWO_61) == LengthHigh(n)
  {
    hide ToWord, Counts;
    CountedBits(low, high, n);
  }

  // ----- byte order -----

  function Reversed8(b: seq<Byte>): (r: seq<Byte>)
    requires |b| == 8
    ensures |r| == 8
  {
    [b[7], b[6], b[5], b[4], b[3], b[2], b[1], b[0]]
  }

  /** How the host reads eight bytes as a word, and writes a word as eight bytes. */
  function NativeWord(b: seq<Byte>): Word
    requires |b| == 8
  {
    WordOf(Reversed8(b))
  }

  function NativeBytes(w: Word): (b: seq<Byte>)
    ensures |b| == 8
  {
    Reversed8(BigEndian(w))
  }

  /** The sixteen words of a buffer, as `buf_w` shows them. */
  function NativeWords(b: seq<Byte>): (w: seq<Word>)
    requires |b| == 128
    ensures |w| == 16
  {
    seq(16, i requires 0 <= i < 16 => NativeWord(b[8 * i..8 * i + 8]))
  }

  /** `after` is `before` with the bytes of its first `words` words reversed. */
  ghost predicate Swapped(before: seq<Byte>, after: seq<Byte>, words: nat)
    requires 8 * words <= |before|
  {
    && |after| == |before| && after[8 * words..] == before[8 * words..]
    && forall i :: 0 <= i < words ==> after[8 * i..8 * i + 8] == Reversed8(before[8 * i..8 * i + 8])
  }

  lemma TwiceReversed(b: seq<Byte>)
    requires |b| == 8
    ensures Reversed8(Reversed8(b)) == b
  {
  }

  /** Swapping first makes the host read the words of the standard. */
  lemma SwappedParses(b: seq<Byte>, c: seq<Byte>)
    requires |b| == 128 && Swapped(b, c, 16)
    ensures NativeWords(c) == Parsed(b)
  {
    hide WordOf, Reversed8;
    forall i | 0 <= i < 16
      ensures NativeWords(c)[i] == Parsed(b)[i]
    {
      TwiceReversed(b[8 * i..8 * i + 8]);
    }
  }

  /** The last block: its two length words are stored natively and left out of the swap. */
  lemma LastBlockParses(b: seq<Byte>, u: seq<Byte>, v: seq<Byte>, c: seq<Byte>)
    requires |b| == 112 && |u| == 8 && |v| == 8 && Swapped(b + Reversed8(u) + Reversed8(v), c, 14)
    ensures NativeWords(c) == Parsed(b + u + v)
  {
    hide WordOf;
    forall i | 0 <= i < 16
      ensures NativeWords(c)[i] == Parsed(b + u + v)[i]
    {
      LastBlockWord(b, u, v, c, i);
    }
  }

  lemma LastBlockWord(b: seq<Byte>, u: seq<Byte>, v: seq<Byte>, c: seq<Byte>, i: nat)
    requires |b| == 112 && |u| == 8 && |v| == 8 && Swapped(b + Reversed8(u) + Reversed8(v), c, 14) && i < 16
    ensures Reversed8(c[8 * i..8 * i + 8]) == (b + u + v)[8 * i..8 * i + 8]
  {
    hide Reversed8;
    var x, y := b + Reversed8(u) + Reversed8(v), b + u + v;
    if i < 14 {
      assert x[8 * i..8 * i + 8] == b[8 * i..8 * i + 8] == y[8 * i..8 * i + 8];
      TwiceReversed(b[8 * i..8 * i + 8]);
    } else {
      var rest := c[112..];
      assert rest == Reversed8(u) + Reversed8(v);
      assert c[112..120] == rest[..8] == Reversed8(u) && c[120..128] == rest[8..] == Reversed8(v);
      assert y[112..120] == u && y[120..128] == v;
      TwiceReversed(u);
      TwiceReversed(v);
    }
  }

  /** `pp_crypto_hash_sha2_512_swap_bytes`. */
  method SwapBytes(buf: array<Byte>, words: nat)
    requires 8 * words <= buf.Length
    modifies buf
    ensures Swapped(old(buf[..]), buf[..], words)
  {
    for w := 0 to words
      invariant Swapped(old(buf[..]), buf[..], w)
    {
      ghost var before := buf[..];
      SwapWord(buf, 8 * w);
      OneMoreSwapped(old(buf[..]), before, buf[..], w);
    }
  }

  lemma OneMoreSwapped(b: seq<Byte>, c: seq<Byte>, d: seq<Byte>, w: nat)
    requires 8 * w + 8 <= |b| && Swapped(b, c, w) && |d| == |b|
    requires d[..8 * w] == c[..8 * w] && d[8 * w + 8..] == c[8 * w + 8..]
    requires d[8 * w..8 * w + 8] == Reversed8(c[8 * w..8 * w + 8])
    ensures Swapped(b, d, w + 1)
  {
    hide Reversed8;
    var at := 8 * w;
    SlicesOfDrop(b, at);
    SlicesOfDrop(c, at);
    forall i | 0 <= i < w
      ensures d[8 * i..8 * i + 8] == Reversed8(b[8 * i..8 * i + 8])
    {
      SliceOfTake(c, 8 * i, at);
      SliceOfTake(d, 8 * i, at);
    }
  }

  lemma SlicesOfDrop(s: seq<Byte>, at: nat)
    requires at + 8 <= |s|
    ensures s[at..at + 8] == s[at..][..8] && s[at + 8..] == s[at..][8..]
  {
  }

  lemma SliceOfTake(s: seq<Byte>, i: nat, at: nat)
    requires i + 8 <= at <= |s|
    ensures s[i..i + 8] == s[..at][i..i + 8]
  {
  }

  method SwapWord(buf: array<Byte>, p: nat)
    requires p + 8 <= buf.Length
    modifies buf
    ensures buf[..p] == old(buf[..p]) && buf[p + 8..] == old(buf[p + 8..])
    ensures buf[p..p + 8] == Reversed8(old(buf[p..p + 8]))
  {
    buf[p], buf[p + 1], buf[p + 2], buf[p + 3], buf[p + 4], buf[p + 5], buf[p + 6], buf[p + 7] :=
      buf[p + 7], buf[p + 6], buf[p + 5], buf[p + 4], buf[p + 3], buf[p + 2], buf[p + 1], buf[p];
  }

  method SetAll(hash: array<Word>, words: seq<Word>)
    requires hash.Length == |words|
    modifies hash
    ensures hash[..] == words
  {
    for i := 0 to hash.Length
      invariant hash[..i] == words[..i]
    {
      hash[i] := words[i];
    }
  }

  // ----- the context -----

  const PAD: seq<Byte> := [0x80] + Zeros(127)

  lemma PadIsFiller(n: nat, left: nat)
    requires left == n % 128
    ensures var last := if left < 112 then 112 - left else 240 - left;
      0 < last <= 128 && PAD[..last] == Filler(n)
  {
  }

  /** `PHashSHA2_512`; `message` is what was fed since the last reset. */
  class Context {
    const is384: bool
    const buf: array<Byte>
    const hash: array<Word>
    var lenLow: nat
    var lenHigh: nat
    ghost var message: seq<Byte>

    /** The hash value has taken in the whole blocks of `m` and the buffer holds the rest. */
    ghost predicate Follows(m: seq<Byte>)
      reads buf, hash
    {
      buf.Length == 128 && hash.Length == 8 && Holds(Initial(is384), hash[..], buf[..], m)
    }

    /** Still taking bytes. */
    ghost predicate Open()
      reads this, buf, hash
    {
      Follows(message) && Counts(lenLow, lenHigh, |message|)
    }

    /** Finished: the words of the hash value show the digest on the host. */
    ghost predicate Closed()
      reads this, buf, hash
    {
      && buf.Length == 128 && hash.Length == 8
      && NativeAll(hash[..])[..DigestSize(is384)] == Digest(is384, message)
    }

    /** `pp_crypto_hash_sha2_512_new_internal`. */
    constructor (is384: bool)
      ensures Open() && message == [] && this.is384 == is384 && fresh(buf) && fresh(hash)
    {
      this.is384 := is384;
      buf := new Byte[128];
      hash := new Word[8];
      new;
      Reset();
    }

    /** `p_crypto_hash_sha2_512_reset`. */
    method Reset()
      requires buf.Length == 128 && hash.Length == 8
      modifies this, buf, hash
      ensures Open() && message == []
    {
      var initial := Initial(is384);
      hide Initial, Holds;
      for i := 0 to 128
        modifies buf
      {
        buf[i] := 0;
      }
      SetAll(hash, initial);
      lenLow, lenHigh, message := 0, 0, [];
      HoldsNothing(initial, buf[..]);
    }

    /** Bytes that fill the buffer are copied in and the block is processed. */
    method TakeBlock(left: nat, data: seq<Byte>, ghost m: seq<Byte>)
      requires Follows(m) && left == TailSize(m, 128) && left + |data| == 128
      modifies buf, hash
      ensures Follows(m + data) && TailSize(m + data, 128) == 0
    {
      hide Holds, Initial, Swapped, Compressed, Parsed, NativeWords;
      ghost var before := buf[..];
      Copy(buf, left, data);
      ghost var block := buf[..];
      assert block == before[..left] + data;
      SwapBytes(buf, 16);
      HoldsBlock(Initial(is384), hash[..], before, buf[..], m, data);
      SwappedParses(block, buf[..]);
      Process(hash, NativeWords(buf[..]));
    }

    /** The loop over the whole blocks of `data` from `start` on. */
    method TakeBlocks(left: nat, data: seq<Byte>, start: nat, ghost m: seq<Byte>) returns (at: nat)
      requires start <= |data| && Follows(m) && left == TailSize(m, 128)
      requires left == 0 || left + |data| - start < 128
      modifies buf, hash
      ensures start <= at <= |data| && left + |data| - at < 128
      ensures Follows(m + data[start..at]) && TailSize(m + data[start..at], 128) == left
    {
      hide *;
      Extended(m, data, start, start, start);
      at := start;
      while |data| - at >= 128
        invariant start <= at <= |data|
        invariant left == 0 || left + |data| - at < 128
        invariant Follows(m + data[start..at]) && TailSize(m + data[start..at], 128) == left
        modifies buf, hash
      {
        TakeBlock(0, data[at..at + 128], m + data[start..at]);
        Extended(m, data, start, at, at + 128);
        at := at + 128;
      }
    }

    /** Bytes that do not fill the buffer are kept for later. */
    method Keep(left: nat, data: seq<Byte>, ghost m: seq<Byte>)
      requires Follows(m) && left == TailSize(m, 128) && left + |data| < 128
      modifies buf
      ensures Follows(m + data)
    {
      hide Holds, Initial;
      ghost var before := buf[..];
      if |data| > 0 {
        Copy(buf, left, data);
      }
      assert buf[..] == before[..left] + data + before[left + |data|..];
      HoldsMore(Initial(is384), hash[..], before, buf[..], m, data);
    }

    /** What an update does with its bytes. */
    method TakeBytes(oldLeft: nat, data: seq<Byte>, ghost m: seq<Byte>)
      requires Follows(m) && oldLeft == TailSize(m, 128)
      modifies buf, hash
      ensures Follows(m + data)
    {
      hide *;
      var left, toFill, at := oldLeft, 128 - oldLeft, 0;
      Rejoined(m, data, 0, 0);
      if left != 0 && |data| >= toFill {
        TakeBlock(left, data[..toFill], m);
        left, at := 0, toFill;
      }
      var end := TakeBlocks(left, data, at, m + data[..at]);
      Rejoined(m, data, at, end);
      Keep(left, data[end..], m + data[..end]);
    }

    method CountBytes(len: nat)
      requires Counts(lenLow, lenHigh, |message|) && len < TWO_64
      modifies this`lenLow, this`lenHigh
      ensures Counts(lenLow, lenHigh, |message| + len)
    {
      CountGrows(lenLow, lenHigh, |message|, len);
      lenLow := (lenLow + len) % TWO_64;
      if lenLow < len {
        lenHigh := (lenHigh + 1) % TWO_64;
      }
    }

    /** `p_crypto_hash_sha2_512_update`. */
    method Update(data: seq<Byte>)
      requires Open() && |data| < TWO_64
      modifies this, buf, hash
      ensures Open() && message == old(message) + data
    {
      hide Holds, Counts, TWO_64;
      var left := lenLow % 128;
      CountedTail(lenLow, lenHigh, |message|);
      CountBytes(|data|);
      TakeBytes(left, data, message);
      message := message + data;
    }

    /** The two words of the length in bits. The bits that the source joins by `or` do not overlap, so a sum
        joins them here. */
    method LengthWords() returns (high: Word, low: Word)
      requires Counts(lenLow, lenHigh, |message|)
      ensures high == LengthHigh(|message|) && low == LengthLow(|message|)
      ensures NumberOf(low) == lenLow * 8 % TWO_64
      ensures NumberOf(high) == lenHigh * 8 % TWO_64 + lenLow / TWO_61
    {
      CountedBits(lenLow, lenHigh, |message|);
      ToWordDenotes(lenLow * 8 % TWO_64);
      ToWordDenotes(lenHigh * 8 % TWO_64 + lenLow / TWO_61);
      hide ToWord, LengthHigh, LengthLow, Counts, NumberOf;
      LengthWordsAre(lenLow, lenHigh, |message|);
      low := ToWord(lenLow * 8 % TWO_64);
      high := ToWord(lenHigh * 8 % TWO_64 + lenLow / TWO_61);
    }

    /** `p_crypto_hash_sha2_512_finish`. */
    method Finish()
      requires Open()
      modifies this, buf, hash
      ensures Closed() && message == old(message)
    {
      ghost var m := message;
      var left := lenLow % 128;
      var last := if left < 112 then 112 - left else 240 - left;
      CountedTail(lenLow, lenHigh, |m|);
      PadIsFiller(|m|, left);
      var high, low := LengthWords();
      hide LengthHigh, LengthLow, Absorbed, Initial, BigEndian;
      if last > 0 {
        Update(PAD[..last]);
      }
      message := m;
      LastBlock(high, low, m + Filler(|m|));
      SwapHash(m);
    }

    /** The length goes into the last block. */
    method LastBlock(high: Word, low: Word, ghost m: seq<Byte>)
      requires Follows(m) && TailSize(m, 128) == 112
      modifies buf, hash
      ensures hash.Length == 8
      ensures hash[..] == Absorbed(Initial(is384), m + BigEndian(high) + BigEndian(low))
    {
      hide Initial, Swapped, Compressed, Parsed, NativeWords, BigEndian, Absorbed;
      Copy(buf, 112, NativeBytes(high));
      Copy(buf, 120, NativeBytes(low));
      ghost var before := buf[..];
      assert before == Tail(m, 128) + Reversed8(BigEndian(high)) + Reversed8(BigEndian(low));
      SwapBytes(buf, 14);
      LastBlockParses(Tail(m, 128), BigEndian(high), BigEndian(low), buf[..]);
      Process(hash, NativeWords(buf[..]));
      LastBlockAbsorbs(Initial(is384), m, BigEndian(high), BigEndian(low));
    }

    /** The final swap of the hash value. */
    method SwapHash(ghost m: seq<Byte>)
      requires buf.Length == 128 && hash.Length == 8 && m == message
      requires hash[..] == Absorbed(Initial(is384), Padded(m))
      modifies hash
      ensures Closed()
    {
      hide SwappedWord, Absorbed, Padded, Initial, NativeAll, Written;
      ghost var h := hash[..];
      var words := if is384 then 6 else 8;
      for i := 0 to words
        invariant forall j :: 0 <= j < i ==> hash[j] == SwappedWord(h[j])
        invariant forall j :: i <= j < 8 ==> hash[j] == h[j]
      {
        hash[i] := SwappedWord(hash[i]);
      }
      SwapShows(h, hash[..], words);
    }

    /** `p_crypto_hash_sha2_512_digest`, as far as the caller reads it. */
    method ReadDigest() returns (digest: seq<Byte>)
      requires Closed()
      ensures digest == Digest(is384, message)
    {
      digest := NativeAll(hash[..])[..DigestSize(is384)];
    }
  }

  lemma LastBlockAbsorbs(h: seq<Word>, m: seq<Byte>, u: seq<Byte>, v: seq<Byte>)
    requires |h| == 8 && TailSize(m, 128) == 112 && |u| == 8 && |v| == 8
    ensures Absorbed(h, m + u + v) == Compressed(Absorbed(h, Whole(m, 128)), Parsed(Tail(m, 128) + u + v))
  {
    hide Absorbed, Compressed, Parsed;
    FeedBlock(h, m, u + v);
    assert m + (u + v) == m + u + v && Tail(m, 128) + (u + v) == Tail(m, 128) + u + v;
    assert Whole(m + u + v, 128) == m + u + v;
  }

  /** How `PUINT64_TO_BE` changes a word on a little-endian host. */
  function SwappedWord(w: Word): Word { NativeWord(BigEndian(w)) }

  lemma BytesOfWord(b0: bv8, b1: bv8, b2: bv8, b3: bv8, b4: bv8, b5: bv8, b6: bv8, b7: bv8, w: bv64)
    requires w == Joined(b0, b1, b2, b3, b4, b5, b6, b7)
    ensures ((w >> 56) & 0xFF) as bv8 == b0 && ((w >> 48) & 0xFF) as bv8 == b1
    ensures ((w >> 40) & 0xFF) as bv8 == b2 && ((w >> 32) & 0xFF) as bv8 == b3
    ensures ((w >> 24) & 0xFF) as bv8 == b4 && ((w >> 16) & 0xFF) as bv8 == b5
    ensures ((w >> 8) & 0xFF) as bv8 == b6 && (w & 0xFF) as bv8 == b7
  {
  }

  lemma BigEndianIs(w: Word, b: seq<Byte>)
    requires |b| == 8
    requires ((w >> 56) & 0xFF) as bv8 == b[0] && ((w >> 48) & 0xFF) as bv8 == b[1]
    requires ((w >> 40) & 0xFF) as bv8 == b[2] && ((w >> 32) & 0xFF) as bv8 == b[3]
    requires ((w >> 24) & 0xFF) as bv8 == b[4] && ((w >> 16) & 0xFF) as bv8 == b[5]
    requires ((w >> 8) & 0xFF) as bv8 == b[6] && (w & 0xFF) as bv8 == b[7]
    ensures BigEndian(w) == b
  {
  }

  lemma SwappedWordShows(w: Word)
    ensures NativeBytes(SwappedWord(w)) == BigEndian(w)
  {
    var b := Reversed8(BigEndian(w));
    WordOfBytes(b, WordOf(b));
    TwiceReversed(BigEndian(w));
  }

  lemma BytesOfSeq(b: seq<Byte>, w: Word)
    requires |b| == 8 && w == WordOf(b)
    ensures ((w >> 56) & 0xFF) as bv8 == b[0] && ((w >> 48) & 0xFF) as bv8 == b[1]
    ensures ((w >> 40) & 0xFF) as bv8 == b[2] && ((w >> 32) & 0xFF) as bv8 == b[3]
    ensures ((w >> 24) & 0xFF) as bv8 == b[4] && ((w >> 16) & 0xFF) as bv8 == b[5]
    ensures ((w >> 8) & 0xFF) as bv8 == b[6] && (w & 0xFF) as bv8 == b[7]
  {
    hide Joined;
    BytesOfWord(b[0], b[1], b[2], b[3], b[4], b[5], b[6], b[7], w);
  }

  lemma WordOfBytes(b: seq<Byte>, w: Word)
    requires |b| == 8 && w == WordOf(b)
    ensures BigEndian(w) == b
  {
    hide *;
    BytesOfSeq(b, w);
    BigEndianIs(w, b);
  }

  lemma {:induction false} SwapShows(h: seq<Word>, g: seq<Word>, words: nat)
    requires words <= |h| == |g| && forall j :: 0 <= j < words ==> g[j] == SwappedWord(h[j])
    ensures NativeAll(g)[..8 * words] == Written(h[..words])
  {
    hide BigEndian, NativeBytes, SwappedWord;
    if |g| > words {
      var n := |g| - 1;
      SwapShows(h[..n], g[..n], words);
      assert h[..n][..words] == h[..words];
    } else if words > 0 {
      var n := words - 1;
      SwapShows(h[..n], g[..n], n);
      SwappedWordShows(h[n]);
      assert h[..n][..n] == h[..n] && h[..words] == h;
    }
  }

  function DigestSize(is384: bool): nat { if is384 then 48 else 64 }

  /** The bytes of an array of words on the host. */
  function NativeAll(h: seq<Word>): (b: seq<Byte>)
    ensures |b| == 8 * |h|
  {
    if h == [] then [] else NativeAll(h[..|h| - 1]) + NativeBytes(h[|h| - 1])
  }
}
