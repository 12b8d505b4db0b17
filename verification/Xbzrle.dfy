/** XOR based zero run length encoding: how a changed page is sent as the runs
    in which it differs from the copy the receiver already has.
  */
module Xbzrle {
  import opened Common
  import Pieces
  import opened WordTest

  const ULEB_MAX: nat := 0x3fff

  // ---------------------------------------------------------------------
  // Lengths
  // ---------------------------------------------------------------------

  /** `uleb128_encode_small`. */
  function Uleb(n: nat): (r: seq<byte>)
    requires n <= ULEB_MAX
    ensures |r| == UlebSize(n)
  {
    if n < 0x80 then [n] else [n % 0x80 + 0x80, n / 0x80]
  }

  function UlebSize(n: nat): nat {
    if n < 0x80 then 1 else 2
  }

  /** `uleb128_decode_small` at position `i`: the number and the bytes it takes. */
  function UlebDecode(src: seq<byte>, i: nat): (r: Option<(nat, nat)>)
    requires i + 2 <= |src|
    ensures r.Some? ==> 1 <= r.value.1 <= 2
  {
    if src[i] < 0x80 then Some((src[i], 1))
    else if src[i + 1] >= 0x80 then None
    else Some((src[i] as int - 0x80 + src[i + 1] as int * 0x80, 2))
  }

  lemma UlebRoundTrip(src: seq<byte>, i: nat, n: nat)
    requires n <= ULEB_MAX && i + 2 <= |src| && src[i..i + UlebSize(n)] == Uleb(n)
    ensures UlebDecode(src, i) == Some((n, UlebSize(n)))
  {
    assert src[i] == Uleb(n)[0];
    assert n >= 0x80 ==> src[i + 1] == Uleb(n)[1];
  }

  // ---------------------------------------------------------------------
  // Decoding
  // ---------------------------------------------------------------------

  /** The page with the bytes from `d` on replaced by `bytes`. */
  function Patched(dst: seq<byte>, d: nat, bytes: seq<byte>): (r: seq<byte>)
    requires d + |bytes| <= |dst|
    ensures |r| == |dst|
  {
    seq(|dst|, i requires 0 <= i < |dst| => if d <= i < d + |bytes| then bytes[i - d] else dst[i])
  }

  /** The two lengths of a run, and how many bytes they take. */
  datatype Head = Head(zeros: nat, count: nat, size: nat)

  /** Reads the lengths of a run at position `i`; `room` is what is left of the
      page. */
  function ParseHead(src: seq<byte>, i: nat, room: nat): (r: Option<Head>)
    ensures r.Some? ==> 0 < r.value.size && i + r.value.size + r.value.count <= |src|
    ensures r.Some? ==> r.value.zeros + r.value.count <= room
  {
    if i + 2 > |src| then None
    else
      var zrun := UlebDecode(src, i);
      if zrun.None? || (i != 0 && zrun.value.0 == 0) || zrun.value.0 > room then None
      else
        var i1 := i + zrun.value.1;
        if i1 + 2 > |src| then None
        else
          var nzrun := UlebDecode(src, i1);
          if nzrun.None? || nzrun.value.0 == 0 then None
          else
            var h := Head(zrun.value.0, nzrun.value.0, zrun.value.1 + nzrun.value.1);
            if h.zeros + h.count > room || i + h.size + h.count > |src| then None else Some(h)
  }

  /** `xbzrle_decode_buffer`, from position `i` of the input and `d` of the page
      on. */
  function DecodeFrom(src: seq<byte>, i: nat, dst: seq<byte>, d: nat): (r: Option<seq<byte>>)
    requires d <= |dst|
    ensures r.Some? ==> |r.value| == |dst|
    decreases |src| - i
  {
    if i >= |src| then Some(dst)
    else
      var head := ParseHead(src, i, |dst| - d);
      if head.None? then None
      else
        var h := head.value;
        var data := i + h.size;
        DecodeFrom(src, data + h.count, Patched(dst, d + h.zeros, src[data..data + h.count]), d + h.zeros + h.count)
  }

  function Decode(src: seq<byte>, page: seq<byte>): Option<seq<byte>> {
    DecodeFrom(src, 0, page, 0)
  }

  /** The lengths of the next run; `ok` is false where the decoder gives up. */
  method ReadHead(src: seq<byte>, i: nat, room: nat) returns (ok: bool, h: Head)
    ensures ParseHead(src, i, room) == if ok then Some(h) else None
  {
    ok, h := false, Head(0, 0, 0);
    if |src| < i + 2 {
      return;
    }
    var zrun := UlebDecode(src, i);
    if zrun.None? || (i != 0 && zrun.value.0 == 0) {
      return;
    }
    if zrun.value.0 > room {
      return;
    }
    var i1 := i + zrun.value.1;
    if |src| < i1 + 2 {
      return;
    }
    var nzrun := UlebDecode(src, i1);
    if nzrun.None? || nzrun.value.0 == 0 {
      return;
    }
    if zrun.value.0 + nzrun.value.0 > room || i1 + nzrun.value.1 + nzrun.value.0 > |src| {
      return;
    }
    ok, h := true, Head(zrun.value.0, nzrun.value.0, zrun.value.1 + nzrun.value.1);
  }

  /** `memcpy` into the page. */
  method CopyInto(dst: array<byte>, at: nat, bytes: seq<byte>)
    requires at + |bytes| <= dst.Length
    modifies dst
    ensures dst[..] == Patched(old(dst[..]), at, bytes)
  {
    forall k | 0 <= k < |bytes| {
      dst[at + k] := bytes[k];
    }
  }

  /** Decoding one run does not change the outcome. */
  lemma DecodeStep(src: seq<byte>, i: nat, dst: seq<byte>, d: nat, h: Head, i': nat, dst': seq<byte>, d': nat)
    requires i < |src| && d <= |dst| && ParseHead(src, i, |dst| - d) == Some(h)
    requires i' == i + h.size + h.count && d' == d + h.zeros + h.count
    requires dst' == Patched(dst, d + h.zeros, src[i + h.size..i'])
    ensures DecodeFrom(src, i, dst, d) == DecodeFrom(src, i', dst', d')
  {
    assert src[i + h.size..i'] == src[i + h.size..i + h.size + h.count];
  }

  /** One round of the decoding loop, in place on the receiver's page. */
  method DecodeNext(src: seq<byte>, i: nat, dst: array<byte>, d: nat) returns (head: Option<Head>)
    requires i < |src| && d <= dst.Length
    modifies dst
    ensures head == ParseHead(src, i, dst.Length - d)
    ensures head.Some? ==>
              dst[..] == Patched(old(dst[..]), d + head.value.zeros,
                                 src[i + head.value.size..i + head.value.size + head.value.count])
    ensures head.None? ==> dst[..] == old(dst[..])
  {
    var ok, h := ReadHead(src, i, dst.Length - d);
    if !ok {
      return None;
    }
    CopyInto(dst, d + h.zeros, src[i + h.size..i + h.size + h.count]);
    head := Some(h);
  }

  /** `xbzrle_decode_buffer`. */
  method DecodeBuffer(src: seq<byte>, dst: array<byte>) returns (ret: int)
    modifies dst
    ensures ret == -1 <==> Decode(src, old(dst[..])).None?
    ensures ret != -1 ==> Decode(src, old(dst[..])) == Some(dst[..]) && 0 <= ret <= dst.Length
  {
    var i, d := 0, 0;
    ghost var page := dst[..];
    ghost var result := DecodeFrom(src, 0, page, 0);
    while i < |src|
      invariant 0 <= i <= |src| && 0 <= d <= dst.Length
      invariant dst[..] == page
      invariant DecodeFrom(src, i, page, d) == result
    {
      var head := DecodeNext(src, i, dst, d);
      if head.None? {
        return -1;
      }
      var h := head.value;
      var i', d' := i + h.size + h.count, d + h.zeros + h.count;
      DecodeStep(src, i, page, d, h, i', dst[..], d');
      page := dst[..];
      i, d := i', d';
    }
    ret := d;
  }

  // ---------------------------------------------------------------------
  // The encoding of a page
  // ---------------------------------------------------------------------

  /** The first changed byte from `i` on. */
  function FirstChanged(was: seq<byte>, now: seq<byte>, i: nat): (r: nat)
    requires |was| == |now| && i <= |was|
    ensures i <= r <= |was| && (r == |was| || was[r] != now[r])
    decreases |was| - i
  {
    if i == |was| || was[i] != now[i] then i else FirstChanged(was, now, i + 1)
  }

  lemma {:induction false} ChangedAt(was: seq<byte>, now: seq<byte>, i: nat, nz: nat)
    requires |was| == |now| && i <= nz <= |was|
    ensures nz == FirstChanged(was, now, i)
            <==> (forall k | i <= k < nz :: was[k] == now[k]) && (nz == |was| || was[nz] != now[nz])
    decreases |was| - i
  {
    if i < nz {
      ChangedAt(was, now, i + 1, nz);
    }
  }

  /** The first unchanged byte from `i` on. */
  function FirstUnchanged(was: seq<byte>, now: seq<byte>, i: nat): (r: nat)
    requires |was| == |now| && i <= |was|
    ensures i <= r <= |was| && (r == |was| || was[r] == now[r])
    decreases |was| - i
  {
    if i == |was| || was[i] == now[i] then i else FirstUnchanged(was, now, i + 1)
  }

  lemma {:induction false} UnchangedAt(was: seq<byte>, now: seq<byte>, i: nat, end: nat)
    requires |was| == |now| && i <= end <= |was|
    ensures end == FirstUnchanged(was, now, i)
            <==> (forall k | i <= k < end :: was[k] != now[k]) && (end == |was| || was[end] == now[end])
    decreases |was| - i
  {
    if i < end {
      UnchangedAt(was, now, i + 1, end);
    }
  }

  lemma RunEnds(was: seq<byte>, now: seq<byte>, nz: nat, end: nat)
    requires |was| == |now| && nz < |was| && was[nz] != now[nz] && end == FirstUnchanged(was, now, nz)
    ensures nz < end && was[end - 1] != now[end - 1]
  {
    UnchangedAt(was, now, nz, end);
  }

  /** A run of `zeros` unchanged bytes and the changed bytes after it. */
  function EncodeRun(zeros: nat, bytes: seq<byte>): (e: seq<byte>)
    requires zeros <= ULEB_MAX && |bytes| <= ULEB_MAX
    ensures |e| == UlebSize(zeros) + UlebSize(|bytes|) + |bytes|
  {
    Uleb(zeros) + Uleb(|bytes|) + bytes
  }

  /** The example in the description of the format: 1001 equal bytes and 15 changed ones,
      3 equal and one changed, one equal and one changed. */
  lemma DocumentedRuns(changed: seq<byte>)
    requires changed == [1, 2, 3, 4, 5, 6, 7, 8, 9, 10, 11, 12, 13, 14, 15]
    ensures EncodeRun(1001, changed) + EncodeRun(3, [0x67]) + EncodeRun(1, [0x69])
            == [0xe9, 0x07, 0x0f] + changed + [0x03, 0x01, 0x67, 0x01, 0x01, 0x69]
  {
    assert |changed| == 15;
    assert Uleb(1001) == [0xe9, 0x07];
  }

  /** How `now` differs from `was` from position `i` on, in the longest possible
      runs.  Nothing is said about unchanged bytes at the end. */
  function EncodeFrom(was: seq<byte>, now: seq<byte>, i: nat): seq<byte>
    requires |was| == |now| <= ULEB_MAX && i <= |was|
    decreases |was| - i
  {
    var nz := FirstChanged(was, now, i);
    if nz == |was| then []
    else
      var end := FirstUnchanged(was, now, nz);
      EncodeRun(nz - i, now[nz..end]) + EncodeFrom(was, now, end)
  }

  /** The room that the encoder asks for: two bytes more than the encoding takes when
      the page ends in an unchanged byte, although nothing is written for that run. */
  function RoomNeeded(was: seq<byte>, now: seq<byte>): nat
    requires |was| == |now| <= ULEB_MAX
  {
    |EncodeFrom(was, now, 0)| + if was != [] && was[|was| - 1] == now[|was| - 1] then 2 else 0
  }

  // ---------------------------------------------------------------------
  // The round trip
  // ---------------------------------------------------------------------

  lemma Parts(a: seq<byte>, b: seq<byte>, c: seq<byte>)
    ensures var e := a + b + c; e[0..|a|] == a && e[|a|..|a| + |b|] == b && e[|a| + |b|..|e|] == c
  {
  }

  lemma SliceOf(src: seq<byte>, i: nat, i': nat, e: seq<byte>, lo: nat, hi: nat)
    requires i <= i' <= |src| && src[i..i'] == e && lo <= hi <= |e|
    ensures src[i + lo..i + hi] == e[lo..hi]
  {
    assert forall k | lo <= k < hi :: src[i + k] == src[i..i'][k] == e[k];
  }

  lemma ParseEncoded(zeros: nat, bytes: seq<byte>, src: seq<byte>, i: nat, i': nat, room: nat)
    requires zeros <= ULEB_MAX && 0 < |bytes| <= ULEB_MAX && zeros + |bytes| <= room && (i == 0 || zeros > 0)
    requires i' == i + |EncodeRun(zeros, bytes)| <= |src| && src[i..i'] == EncodeRun(zeros, bytes)
    ensures ParseHead(src, i, room) == Some(Head(zeros, |bytes|, UlebSize(zeros) + UlebSize(|bytes|)))
    ensures src[i + UlebSize(zeros) + UlebSize(|bytes|)..i'] == bytes
  {
    var e := EncodeRun(zeros, bytes);
    var a, b := UlebSize(zeros), UlebSize(|bytes|);
    Parts(Uleb(zeros), Uleb(|bytes|), bytes);
    SliceOf(src, i, i', e, 0, a);
    SliceOf(src, i, i', e, a, a + b);
    SliceOf(src, i, i', e, a + b, |e|);
    UlebRoundTrip(src, i, zeros);
    UlebRoundTrip(src, i + a, |bytes|);
  }

  /** The old page with the bytes before position `at` replaced. */
  function Mixed(was: seq<byte>, now: seq<byte>, at: nat): (r: seq<byte>)
    requires |was| == |now| && at <= |was|
    ensures |r| == |was|
  {
    seq(|was|, i requires 0 <= i < |was| => if i < at then now[i] else was[i])
  }

  lemma PatchedMixed(was: seq<byte>, now: seq<byte>, at: nat, nz: nat, end: nat)
    requires |was| == |now| && at <= nz <= end <= |was| && forall k | at <= k < nz :: was[k] == now[k]
    ensures Patched(Mixed(was, now, at), nz, now[nz..end]) == Mixed(was, now, end)
  {
  }

  lemma Split(src: seq<byte>, i: nat, a: seq<byte>, b: seq<byte>)
    requires i <= |src| && src[i..] == a + b
    ensures i + |a| <= |src| && src[i..i + |a|] == a && src[i + |a|..] == b
  {
    assert src[i..i + |a|] == src[i..][..|a|];
    assert src[i + |a|..] == src[i..][|a|..];
  }

  /** One encoded run takes the decoder from one partly restored page to the next. */
  lemma DecodeRun(was: seq<byte>, now: seq<byte>, src: seq<byte>, i: nat, i': nat, at: nat, nz: nat, end: nat)
    requires |was| == |now| <= ULEB_MAX && at <= nz < end <= |was| && (i == 0 || at < nz)
    requires forall k | at <= k < nz :: was[k] == now[k]
    requires i' == i + |EncodeRun(nz - at, now[nz..end])| <= |src| && src[i..i'] == EncodeRun(nz - at, now[nz..end])
    ensures DecodeFrom(src, i, Mixed(was, now, at), at) == DecodeFrom(src, i', Mixed(was, now, end), end)
  {
    var zeros, bytes := nz - at, now[nz..end];
    ParseEncoded(zeros, bytes, src, i, i', |was| - at);
    PatchedMixed(was, now, at, nz, end);
    var h := Head(zeros, |bytes|, UlebSize(zeros) + UlebSize(|bytes|));
    DecodeStep(src, i, Mixed(was, now, at), at, h, i', Mixed(was, now, end), end);
  }

  /** The decoder goes over the next run. */
  lemma DecodeNextRun(was: seq<byte>, now: seq<byte>, src: seq<byte>, i: nat, at: nat) returns (i': nat, end: nat)
    requires |was| == |now| <= ULEB_MAX && at <= |was| && i <= |src|
    requires src[i..] == EncodeFrom(was, now, at) && FirstChanged(was, now, at) < |was|
    requires i == 0 || at == |was| || was[at] == now[at]
    ensures at < end <= |was| && (end == |was| || was[end] == now[end])
    ensures i' <= |src| && src[i'..] == EncodeFrom(was, now, end)
    ensures DecodeFrom(src, i, Mixed(was, now, at), at) == DecodeFrom(src, i', Mixed(was, now, end), end)
  {
    var nz := FirstChanged(was, now, at);
    ChangedAt(was, now, at, nz);
    end := FirstUnchanged(was, now, nz);
    RunEnds(was, now, nz, end);
    var e := EncodeRun(nz - at, now[nz..end]);
    i' := i + |e|;
    Split(src, i, e, EncodeFrom(was, now, end));
    DecodeRun(was, now, src, i, i', at, nz, end);
  }

  /** The page is restored from the encoding of what is still different. */
  lemma {:induction false} DecodeEncoded(was: seq<byte>, now: seq<byte>, src: seq<byte>, i: nat, at: nat)
    requires |was| == |now| <= ULEB_MAX && at <= |was| && i <= |src|
    requires src[i..] == EncodeFrom(was, now, at)
    requires i == 0 || at == |was| || was[at] == now[at]
    ensures DecodeFrom(src, i, Mixed(was, now, at), at) == Some(now)
    decreases |was| - at
  {
    if FirstChanged(was, now, at) == |was| {
      ChangedAt(was, now, at, |was|);
      assert i == |src| && Mixed(was, now, at) == now;
    } else {
      var i', end := DecodeNextRun(was, now, src, i, at);
      DecodeEncoded(was, now, src, i', end);
    }
  }

  /** The encoding of any page against any older page decodes to the page. */
  lemma RoundTrip(was: seq<byte>, now: seq<byte>)
    requires |was| == |now| <= ULEB_MAX
    ensures Decode(EncodeFrom(was, now, 0), was) == Some(now)
    ensures EncodeFrom(was, now, 0) == [] <==> was == now
  {
    DecodeEncoded(was, now, EncodeFrom(was, now, 0), 0, 0);
    assert Mixed(was, now, 0) == was;
    var nz := FirstChanged(was, now, 0);
    ChangedAt(was, now, 0, nz);
    assert nz == |was| ==> was == now;
    assert nz < |was| ==> was[nz] != now[nz];
  }

  // ---------------------------------------------------------------------
  // Encoding
  // ---------------------------------------------------------------------

  /** The end of the unchanged run at `start`: byte by byte up to a word boundary
      counted from the end, then word by word. */
  method ZeroRun(was: seq<byte>, now: seq<byte>, start: nat) returns (i: nat)
    requires |was| == |now| && start <= |was|
    ensures i == FirstChanged(was, now, start)
  {
    i := start;
    var res := (|was| - i) % WORD;
    ghost var words: nat := (|was| - i) / WORD;
    while res > 0 && was[i] == now[i]
      invariant 0 <= res && |was| - i == res + WORD * words
      invariant FirstChanged(was, now, i) == FirstChanged(was, now, start)
    {
      i, res := i + 1, res - 1;
    }
    if res == 0 {
      while i < |was| && WordAt(was, i) == WordAt(now, i)
        invariant |was| - i == WORD * words
        invariant FirstChanged(was, now, i) == FirstChanged(was, now, start)
      {
        EqualWord(was, now, i);
        i := i + WORD;
        words := words - 1;
      }
      while i < |was| && was[i] == now[i]
        invariant i <= |was| && FirstChanged(was, now, i) == FirstChanged(was, now, start)
      {
        i := i + 1;
      }
    }
  }

  lemma EqualWord(was: seq<byte>, now: seq<byte>, i: nat)
    requires |was| == |now| && i + WORD <= |was| && WordAt(was, i) == WordAt(now, i)
    ensures FirstChanged(was, now, i) == FirstChanged(was, now, i + WORD)
  {
    WordBytes(was, now, i);
    ChangedAt(was, now, i, FirstChanged(was, now, i + WORD));
    ChangedAt(was, now, i + WORD, FirstChanged(was, now, i + WORD));
  }

  /** A word that agrees in some byte holds the end of the changed run. */
  lemma ChangedWord(was: seq<byte>, now: seq<byte>, i: nat, agree: bool)
    requires |was| == |now| && i + WORD <= |was|
    requires agree <==> exists k :: i <= k < i + WORD && was[k] == now[k]
    ensures agree <==> FirstUnchanged(was, now, i) < i + WORD
    ensures !agree ==> FirstUnchanged(was, now, i) == FirstUnchanged(was, now, i + WORD)
  {
    UnchangedAt(was, now, i, FirstUnchanged(was, now, i));
    UnchangedAt(was, now, i, FirstUnchanged(was, now, i + WORD));
    UnchangedAt(was, now, i + WORD, FirstUnchanged(was, now, i + WORD));
  }

  /** The test of a word of the two pages. */
  method WordHasEqual(was: seq<byte>, now: seq<byte>, i: nat) returns (r: bool)
    requires |was| == |now| && i + WORD <= |was|
    ensures r <==> exists k :: i <= k < i + WORD && was[k] == now[k]
  {
    WordBytes(was, now, i);
    r := TestWords(WordAt(was, i), WordAt(now, i));
  }

  /** The end of the changed run at `start`. */
  method NonzeroRun(was: seq<byte>, now: seq<byte>, start: nat) returns (i: nat)
    requires |was| == |now| && start <= |was|
    ensures i == FirstUnchanged(was, now, start)
  {
    i := start;
    ghost var stop := FirstUnchanged(was, now, start);
    var res := (|was| - i) % WORD;
    ghost var words: nat := (|was| - i) / WORD;
    while res > 0 && was[i] != now[i]
      invariant 0 <= res && |was| - i == res + WORD * words
      invariant FirstUnchanged(was, now, i) == stop
    {
      i, res := i + 1, res - 1;
    }
    if res == 0 {
      while i < |was|
        invariant |was| - i == WORD * words
        invariant FirstUnchanged(was, now, i) == stop
      {
        var agree := WordHasEqual(was, now, i);
        ChangedWord(was, now, i, agree);
        if agree {
          while was[i] != now[i]
            invariant i <= stop < |was| && FirstUnchanged(was, now, i) == stop
            decreases stop - i
          {
            i := i + 1;
          }
          break;
        } else {
          i := i + WORD;
          words := words - 1;
        }
      }
    }
  }

  /** The encoder has produced `out` for the first `i` bytes. */
  ghost predicate Encoded(out: seq<byte>, was: seq<byte>, now: seq<byte>, i: nat)
    requires |was| == |now| <= ULEB_MAX
  {
    && i <= |was| && (i == 0 || was[i - 1] != now[i - 1])
    && EncodeFrom(was, now, 0) == out + EncodeFrom(was, now, i)
  }

  /** One more run. */
  lemma EncodedNext(out: seq<byte>, e: seq<byte>, was: seq<byte>, now: seq<byte>, i: nat, nz: nat, end: nat)
    requires |was| == |now| <= ULEB_MAX && Encoded(out, was, now, i)
    requires nz == FirstChanged(was, now, i) < |was| && end == FirstUnchanged(was, now, nz)
    requires e == EncodeRun(nz - i, now[nz..end])
    ensures nz < end && Encoded(out + e, was, now, end)
    ensures RoomNeeded(was, now) >= |out| + |e|
  {
    RunEnds(was, now, nz, end);
    EncodedMore(out, e, was, now, i, end);
  }

  lemma EncodedMore(out: seq<byte>, e: seq<byte>, was: seq<byte>, now: seq<byte>, i: nat, end: nat)
    requires |was| == |now| <= ULEB_MAX && Encoded(out, was, now, i)
    requires 0 < end <= |was| && was[end - 1] != now[end - 1]
    requires EncodeFrom(was, now, i) == e + EncodeFrom(was, now, end)
    ensures Encoded(out + e, was, now, end) && RoomNeeded(was, now) >= |out| + |e|
  {
    Pieces.Associative(out, e, EncodeFrom(was, now, end));
  }

  lemma RunBytes(out: seq<byte>, zeros: nat, bytes: seq<byte>)
    requires zeros <= ULEB_MAX && |bytes| <= ULEB_MAX
    ensures out + Uleb(zeros) + Uleb(|bytes|) + bytes == out + EncodeRun(zeros, bytes)
  {
  }

  /** No changed byte is left. */
  lemma EncodedAll(out: seq<byte>, was: seq<byte>, now: seq<byte>, i: nat)
    requires |was| == |now| <= ULEB_MAX && Encoded(out, was, now, i) && FirstChanged(was, now, i) == |was|
    ensures out == EncodeFrom(was, now, 0)
    ensures RoomNeeded(was, now) == |out| + if i < |was| then 2 else 0
  {
    ChangedAt(was, now, i, |was|);
    assert out + [] == out;
  }

  /** The room that is needed at the start of a round. */
  lemma RoomAhead(out: seq<byte>, was: seq<byte>, now: seq<byte>, i: nat)
    requires |was| == |now| <= ULEB_MAX && Encoded(out, was, now, i) && i < |was|
    ensures RoomNeeded(was, now) >= |out| + 2
  {
    var nz := FirstChanged(was, now, i);
    if nz == |was| {
      EncodedAll(out, was, now, i);
    } else {
      var end := FirstUnchanged(was, now, nz);
      EncodedNext(out, EncodeRun(nz - i, now[nz..end]), was, now, i, nz, end);
    }
  }

  /** Writes one run if there is room for it. */
  method WriteRun(was: seq<byte>, now: seq<byte>, out: seq<byte>, zeros: nat, nz: nat, dlen: nat)
      returns (ok: bool, out': seq<byte>, end: nat)
    requires |was| == |now| <= ULEB_MAX && zeros <= nz < |was| && was[nz] != now[nz]
    ensures ok <==> |out| + |EncodeRun(zeros, now[nz..FirstUnchanged(was, now, nz)])| <= dlen
    ensures ok ==> end == FirstUnchanged(was, now, nz) && out' == out + EncodeRun(zeros, now[nz..end])
  {
    RunEnds(was, now, nz, FirstUnchanged(was, now, nz));
    out', end := out + Uleb(zeros), nz;
    if |out'| + 2 > dlen {
      return false, out', end;
    }
    end := NonzeroRun(was, now, nz);
    out' := out' + Uleb(end - nz);
    if |out'| + (end - nz) > dlen {
      return false, out', end;
    }
    RunBytes(out, zeros, now[nz..end]);
    ok, out' := true, out' + now[nz..end];
  }

  /** Encodes the next run. */
  method EncodeNext(was: seq<byte>, now: seq<byte>, out: seq<byte>, i: nat, nz: nat, dlen: nat)
      returns (ok: bool, out': seq<byte>, end: nat)
    requires |was| == |now| <= ULEB_MAX && Encoded(out, was, now, i) && nz == FirstChanged(was, now, i) < |was|
    ensures ok ==> i < end && Encoded(out', was, now, end) && |out'| <= dlen
    ensures !ok ==> RoomNeeded(was, now) > dlen
  {
    ghost var end' := FirstUnchanged(was, now, nz);
    EncodedNext(out, EncodeRun(nz - i, now[nz..end']), was, now, i, nz, end');
    ok, out', end := WriteRun(was, now, out, nz - i, nz, dlen);
  }

  /** `xbzrle_encode_buffer`: -1 when the encoding does not fit, 0 when nothing
      changed, and the length of the encoding otherwise. */
  method EncodeBuffer(was: seq<byte>, now: seq<byte>, dlen: nat) returns (ret: int, out: seq<byte>)
    requires |was| == |now| <= ULEB_MAX && |was| % WORD == 0
    ensures ret == -1 <==> RoomNeeded(was, now) > dlen
    ensures ret != -1 ==> out == EncodeFrom(was, now, 0) && ret == |out| <= dlen
    ensures ret != -1 ==> Decode(out, was) == Some(now) && (ret == 0 <==> was == now)
  {
    out := [];
    var i := 0;
    RoundTrip(was, now);
    while i < |was|
      invariant Encoded(out, was, now, i) && |out| <= dlen
    {
      RoomAhead(out, was, now, i);
      if |out| + 2 > dlen {
        return -1, out;
      }
      var nz := ZeroRun(was, now, i);
      if nz == |was| {
        EncodedAll(out, was, now, i);
      }
      if nz - i == |was| {
        return 0, out;
      }
      if nz == |was| {
        return |out|, out;
      }
      var ok;
      ok, out, i := EncodeNext(was, now, out, i, nz, dlen);
      if !ok {
        return -1, out;
      }
    }
    EncodedAll(out, was, now, i);
    ret := |out|;
  }
}
