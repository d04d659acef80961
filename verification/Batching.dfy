/** Cutting a list into consecutive chunks, the shape of every batched statement. */
module Batching {

  function Min(a: int, b: int): int {
    if a <= b then a else b
  }

  /** The slices `s[i:end]` taken by `for i := 0; i < len(s); i += n`. */
  function Chunks<T>(s: seq<T>, n: nat): (cs: seq<seq<T>>)
    requires n > 0
    decreases |s|
  {
    if s == [] then [] else [s[..Min(n, |s|)]] + Chunks(s[Min(n, |s|)..], n)
  }

  function Flatten<T>(cs: seq<seq<T>>): seq<T> {
    if cs == [] then [] else cs[0] + Flatten(cs[1..])
  }

  /** No row is lost, duplicated or moved by chunking, and no chunk is empty or too long. */
  lemma {:induction false} ChunksPartition<T>(s: seq<T>, n: nat)
    requires n > 0
    ensures Flatten(Chunks(s, n)) == s
    ensures forall i :: 0 <= i < |Chunks(s, n)| ==> 0 < |Chunks(s, n)[i]| <= n
    ensures forall i :: 0 <= i < |Chunks(s, n)| - 1 ==> |Chunks(s, n)[i]| == n
    decreases |s|
  {
    if s != [] {
      var m := Min(n, |s|);
      ChunksPartition(s[m..], n);
      assert s[..m] + s[m..] == s;
    }
  }

  lemma FlattenCons<T>(c: seq<T>, rest: seq<seq<T>>)
    ensures Flatten([c] + rest) == c + Flatten(rest)
  {
    assert ([c] + rest)[1..] == rest;
  }

  lemma {:induction false} FlattenAppend<T>(a: seq<seq<T>>, b: seq<seq<T>>)
    ensures Flatten(a + b) == Flatten(a) + Flatten(b)
  {
    hide Flatten;
    if a == [] {
      FlattenNone<T>();
      assert a + b == b;
      assert [] + Flatten(b) == Flatten(b);
    } else {
      FlattenAppend(a[1..], b);
      FlattenCons(a[0], a[1..] + b);
      FlattenCons(a[0], a[1..]);
      assert [a[0]] + a[1..] == a && [a[0]] + (a[1..] + b) == a + b;
      assert a[0] + (Flatten(a[1..]) + Flatten(b)) == a[0] + Flatten(a[1..]) + Flatten(b);
    }
  }

  lemma FlattenNone<T>()
    ensures Flatten<T>([]) == []
  {
  }

  lemma FlattenSnoc<T>(a: seq<seq<T>>, c: seq<T>)
    ensures Flatten(a + [c]) == Flatten(a) + c
  {
    FlattenAppend(a, [c]);
    assert Flatten([c]) == c + Flatten([]);
  }

  /** The chunk that the loop cuts at `i`, and the chunks after it. */
  lemma NextChunk<T>(s: seq<T>, n: nat, i: nat)
    requires n > 0 && i < |s|
    ensures Chunks(s[i..], n) == [s[i..Min(i + n, |s|)]] + Chunks(s[Min(i + n, |s|)..], n)
  {
    var rest := s[i..];
    assert rest[..Min(n, |rest|)] == s[i..Min(i + n, |s|)];
    assert rest[Min(n, |rest|)..] == s[Min(i + n, |s|)..];
  }

  /** Behind the end the loop cuts nothing. */
  lemma NoChunkLeft<T>(s: seq<T>, n: nat, i: nat)
    requires n > 0 && i >= |s|
    ensures Chunks(s[Min(i, |s|)..], n) == []
  {
    assert s[|s|..] == [];
  }

  /** A list that fits into one chunk is one. */
  lemma SingleChunk<T>(s: seq<T>, n: nat)
    requires 0 < |s| <= n
    ensures Chunks(s, n) == [s]
  {
    assert s[..|s|] == s && s[|s|..] == [];
  }
}
