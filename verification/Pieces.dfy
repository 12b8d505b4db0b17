/** Pieces of data, one after the other. */
module Pieces {
  import opened Common

  function Joined(pieces: seq<seq<byte>>): seq<byte> {
    if pieces == [] then [] else pieces[0] + Joined(pieces[1..])
  }

  lemma {:induction false} JoinedAppend(a: seq<seq<byte>>, b: seq<seq<byte>>)
    ensures Joined(a + b) == Joined(a) + Joined(b)
  {
    if a == [] {
      assert a + b == b;
    } else {
      JoinedAppend(a[1..], b);
      assert (a + b)[1..] == a[1..] + b;
      Associative(a[0], Joined(a[1..]), Joined(b));
    }
  }

  lemma JoinedOne(a: seq<seq<byte>>, p: seq<byte>)
    ensures Joined(a + [p]) == Joined(a) + p
  {
    JoinedAppend(a, [p]);
    assert [p][1..] == [] && p + [] == p;
  }

  lemma Associative(a: seq<byte>, b: seq<byte>, c: seq<byte>)
    ensures (a + b) + c == a + (b + c)
  {
  }

  /** Pieces of one size are found by their numbers. */
  lemma {:induction false} JoinedAt(pieces: seq<seq<byte>>, w: nat, i: nat)
    requires i < |pieces| && forall k | 0 <= k < |pieces| :: |pieces[k]| == w
    ensures 0 <= w * i && w * i + w <= |Joined(pieces)| == w * |pieces|
    ensures Joined(pieces)[w * i..w * i + w] == pieces[i]
    decreases |pieces|
  {
    var rest := pieces[1..];
    JoinedSize(rest, w);
    assert w * |pieces| == w + w * |rest|;
    if i > 0 {
      JoinedAt(rest, w, i - 1);
      assert w * i == w + w * (i - 1);
      Shifted(pieces[0], Joined(rest), w * (i - 1), w);
    }
  }

  lemma Shifted(a: seq<byte>, b: seq<byte>, x: nat, n: nat)
    requires x + n <= |b|
    ensures (a + b)[|a| + x..|a| + x + n] == b[x..x + n]
  {
  }

  lemma {:induction false} JoinedSize(pieces: seq<seq<byte>>, w: nat)
    requires forall k | 0 <= k < |pieces| :: |pieces[k]| == w
    ensures |Joined(pieces)| == w * |pieces|
  {
    if pieces != [] {
      JoinedSize(pieces[1..], w);
      assert w * |pieces| == w + w * (|pieces| - 1);
    }
  }
}
