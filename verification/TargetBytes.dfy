/** Numbers in target byte order, as a dump file holds them. */
module TargetBytes {
  import opened Common
  import opened Arith

  /** A number in `w` bytes, most significant first if `big`; what does not fit is cut
      off. */
  function Word(n: nat, w: nat, big: bool): (r: seq<byte>)
    ensures |r| == w
  {
    if w == 0 then []
    else if big then Word(n / 256, w - 1, big) + [n % 256]
    else [n % 256] + Word(n / 256, w - 1, big)
  }

  /** The least significant byte comes last if `big`, and first otherwise. */
  lemma ByteOrder(n: nat, w: nat)
    requires w > 0
    ensures Word(n, w, true)[w - 1] == n % 256 == Word(n, w, false)[0]
  {
  }

  function Value(bytes: seq<byte>, big: bool): nat {
    if bytes == [] then 0
    else if big then Value(bytes[..|bytes| - 1], big) * 256 + bytes[|bytes| - 1]
    else bytes[0] + 256 * Value(bytes[1..], big)
  }

  function Range(w: nat): (r: nat)
    ensures r > 0
  {
    if w == 0 then 1 else 256 * Range(w - 1)
  }

  lemma {:induction false} ValueOfWord(n: nat, w: nat, big: bool)
    ensures Value(Word(n, w, big), big) == n % Range(w)
    ensures n < Range(w) ==> Value(Word(n, w, big), big) == n
  {
    if w > 0 {
      ValueOfWord(n / 256, w - 1, big);
      SplitRemainder(n, Range(w - 1));
      var r := Word(n, w, big);
      if big {
        assert r[..w - 1] == Word(n / 256, w - 1, big);
      } else {
        assert r[1..] == Word(n / 256, w - 1, big);
      }
    }
  }

  lemma SplitRemainder(n: nat, m: nat)
    requires m > 0
    ensures n % (256 * m) == n % 256 + 256 * (n / 256 % m)
  {
    var q, r := n / 256 / m, n / 256 % m;
    assert n == 256 * (m * q + r) + n % 256;
    assert 256 * (m * q + r) == (256 * m) * q + 256 * r;
    DivModUnique(n, 256 * m, q, n % 256 + 256 * r);
  }
}
