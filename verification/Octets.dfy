/** Bytes, and lists of byte strings laid end to end. */
module Octets {

  newtype Byte = x: int | 0 <= x < 256
  type Bytes = seq<Byte>

  function Flat(chunks: seq<Bytes>): Bytes {
    if chunks == [] then [] else Flat(chunks[..|chunks| - 1]) + chunks[|chunks| - 1]
  }

  lemma {:induction false} FlatConcat(a: seq<Bytes>, b: seq<Bytes>)
    ensures Flat(a + b) == Flat(a) + Flat(b)
  {
    if b == [] {
      assert a + b == a;
    } else {
      FlatConcat(a, b[..|b| - 1]);
      assert (a + b)[..|a + b| - 1] == a + b[..|b| - 1];
    }
  }

  lemma Assoc(a: Bytes, b: Bytes, c: Bytes)
    ensures (a + b) + c == a + (b + c)
  {
  }

  lemma FlatPush(a: seq<Bytes>, c: Bytes)
    ensures Flat(a + [c]) == Flat(a) + c
  {
    assert (a + [c])[..|a|] == a;
  }

  lemma FlatCons(c: Bytes, rest: seq<Bytes>)
    ensures Flat([c] + rest) == c + Flat(rest)
  {
    FlatConcat([c], rest);
    assert [c][..0] == [];
  }

  lemma FlatHead(chunks: seq<Bytes>)
    requires chunks != []
    ensures Flat(chunks) == chunks[0] + Flat(chunks[1..])
  {
    FlatCons(chunks[0], chunks[1..]);
    assert chunks == [chunks[0]] + chunks[1..];
  }

  lemma FlatSnoc(fs: seq<Bytes>, i: nat)
    requires i < |fs|
    ensures Flat(fs[..i + 1]) == Flat(fs[..i]) + fs[i]
  {
    assert fs[..i + 1][..i] == fs[..i];
  }

  lemma {:induction false} FlatBound(chunks: seq<Bytes>, k: nat)
    requires k <= |chunks|
    ensures |Flat(chunks[..k])| <= |Flat(chunks)|
  {
    if k == |chunks| {
      assert chunks[..k] == chunks;
    } else {
      FlatBound(chunks[..|chunks| - 1], k);
      assert chunks[..|chunks| - 1][..k] == chunks[..k];
    }
  }
}
