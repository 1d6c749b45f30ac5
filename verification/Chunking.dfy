/** Cutting a byte string into payload-sized chunks and joining chunks back. */
module Chunking {
  import opened Common

  /** The chunks that `push_payload` cuts: `size` bytes each, the last one possibly shorter. */
  function Chunks(d: Bytes, size: Positive): (r: seq<Bytes>)
  {
    if d == [] then []
    else [d[..Min(size, |d|)]] + Chunks(d[Min(size, |d|)..], size)
  }

  /** b"".join. */
  function Join(chunks: seq<Bytes>): Bytes {
    if chunks == [] then [] else chunks[0] + Join(chunks[1..])
  }

  lemma {:induction false} JoinAppend(a: seq<Bytes>, b: seq<Bytes>)
    ensures Join(a + b) == Join(a) + Join(b)
  {
    if a == [] {
      assert a + b == b;
    } else {
      assert (a + b)[1..] == a[1..] + b;
      JoinAppend(a[1..], b);
    }
  }

  lemma JoinNext(chunks: seq<Bytes>, n: nat, m: nat)
    requires n <= m <= |chunks|
    ensures Join(chunks[..m]) == Join(chunks[..n]) + Join(chunks[n..m])
  {
    JoinAppend(chunks[..n], chunks[n..m]);
    assert chunks[..n] + chunks[n..m] == chunks[..m];
  }

  lemma {:induction false} JoinChunks(d: Bytes, size: Positive)
    ensures Join(Chunks(d, size)) == d
  {
    if d == [] {
    } else {
      var m := Min(size, |d|);
      JoinChunks(d[m..], size);
      assert d == d[..m] + d[m..];
      assert Chunks(d, size)[1..] == Chunks(d[m..], size);
    }
  }

  lemma {:induction false} ChunkLengths(d: Bytes)
    ensures var n := |Chunks(d, PAYLOAD_SIZE)|;
      && |d| <= n * PAYLOAD_SIZE
      && (d != [] ==> (n - 1) * PAYLOAD_SIZE < |d|)
  {
    if d != [] {
      ChunkLengths(d[Min(PAYLOAD_SIZE, |d|)..]);
    }
  }

  lemma {:induction false} ChunksFit(d: Bytes, chunk: Bytes)
    requires chunk in Chunks(d, PAYLOAD_SIZE)
    ensures 0 < |chunk| <= PAYLOAD_SIZE
  {
    var m := Min(PAYLOAD_SIZE, |d|);
    if chunk != d[..m] {
      ChunksFit(d[m..], chunk);
    }
  }

  /** The chunks from byte i on: the bytes i..end, then the chunks from `end` on. */
  lemma ChunksFrom(d: Bytes, size: Positive, i: nat, end: nat)
    requires i < |d| && end == Min(i + size, |d|)
    ensures Chunks(d[i..], size) == [d[i..end]] + Chunks(d[end..], size)
  {
    var rest := d[i..];
    assert rest[..end - i] == d[i..end];
    assert rest[end - i..] == d[end..];
  }

  lemma ChunksCons(h: Bytes, rest: Bytes)
    requires |h| == PAYLOAD_SIZE
    ensures Chunks(h + rest, PAYLOAD_SIZE) == [h] + Chunks(rest, PAYLOAD_SIZE)
  {
    assert (h + rest)[..PAYLOAD_SIZE] == h;
    assert (h + rest)[PAYLOAD_SIZE..] == rest;
  }

  /** Chunking distributes over a concatenation whose left part is k full payloads. */
  lemma {:induction false} ChunksAppend(a: Bytes, b: Bytes, k: nat)
    requires |a| == k * PAYLOAD_SIZE
    ensures |Chunks(a, PAYLOAD_SIZE)| == k
    ensures Chunks(a + b, PAYLOAD_SIZE) == Chunks(a, PAYLOAD_SIZE) + Chunks(b, PAYLOAD_SIZE)
  {
    if k == 0 {
      assert a + b == b;
    } else {
      var h := a[..PAYLOAD_SIZE];
      var rest := a[PAYLOAD_SIZE..];
      ChunksAppend(rest, b, k - 1);
      ChunksCons(h, rest);
      ChunksCons(h, rest + b);
      assert a == h + rest;
      assert a + b == h + (rest + b);
    }
  }

  /** The first k chunks are the chunks of the first k payloads. */
  lemma ChunksTake(d: Bytes, k: nat, m: nat)
    requires m == Min(k * PAYLOAD_SIZE, |d|)
    ensures Chunks(d[..m], PAYLOAD_SIZE) == Chunks(d, PAYLOAD_SIZE)[..Min(k, |Chunks(d, PAYLOAD_SIZE)|)]
  {
    if k * PAYLOAD_SIZE <= |d| {
      ChunksAppend(d[..m], d[m..], k);
      assert d == d[..m] + d[m..];
    } else {
      ChunkLengths(d);
      assert d[..|d|] == d;
    }
  }

  /** The other chunks are the chunks of what remains after k payloads. */
  lemma ChunksDrop(d: Bytes, k: nat, m: nat)
    requires m == Min(k * PAYLOAD_SIZE, |d|)
    ensures Chunks(d[m..], PAYLOAD_SIZE) == Chunks(d, PAYLOAD_SIZE)[Min(k, |Chunks(d, PAYLOAD_SIZE)|)..]
  {
    if k * PAYLOAD_SIZE <= |d| {
      ChunksAppend(d[..m], d[m..], k);
      assert d == d[..m] + d[m..];
    } else {
      ChunkLengths(d);
    }
  }

  lemma AppendOne<T>(a: seq<T>, x: T, b: seq<T>)
    ensures a + [x] + b == a + ([x] + b)
  {
  }

  lemma SliceOfRest<T>(s: seq<T>, a: nat, b: nat)
    requires a <= b <= |s|
    ensures s[a..][..b - a] == s[a..b]
  {
  }

  /** One read of `k` payloads that starts after `from` payloads covers the bytes a..b; the chunks
      it is cut into are consecutive chunks of the whole. */
  lemma ReadIsChunkRange(d: Bytes, from: nat, k: nat, a: nat, b: nat)
    requires a == Min(from * PAYLOAD_SIZE, |d|) && b == Min((from + k) * PAYLOAD_SIZE, |d|)
    ensures var all := Chunks(d, PAYLOAD_SIZE);
      Chunks(d[a..b], PAYLOAD_SIZE) == all[Min(from, |all|)..Min(from + k, |all|)]
  {
    var all := Chunks(d, PAYLOAD_SIZE);
    ChunksDrop(d, from, a);
    ChunksTake(d[a..], k, b - a);
    SliceOfRest(d, a, b);
    SliceOfRest(all, Min(from, |all|), Min(from + k, |all|));
  }
}
