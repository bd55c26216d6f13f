/** Octet strings, outcomes of the Go functions, and positional (big-endian) arithmetic. */
module Bytes {

  type byte = b: int | 0 <= b < 256

  type bytes = seq<byte>

  /** A Go string: its octets. */
  type Text = bytes

  /** Outcome of a Go function: a value, a non-nil error, or a run-time fault. */
  datatype Result<+T> = Ok(value: T) | Err | Panic {
    predicate IsFailure() {
      !Ok?
    }

    function PropagateFailure<U>(): Result<U>
      requires IsFailure()
    {
      if Err? then Err else Panic
    }

    function Extract(): T
      requires Ok?
    {
      value
    }
  }

  datatype Option<+T> = None | Some(value: T)

  /**
   * A Go slice of octets: what its length shows, and what its capacity reaches behind that. Slicing a slice is
   * checked against the capacity, indexing it against the length.
   */
  datatype View = View(seen: bytes, beyond: bytes) {
    /** The backing array from the start of the slice on. */
    function Memory(): bytes {
      seen + beyond
    }
  }

  /** `s[offset : offset+length]` without a bounds check of its own: it panics past the capacity only. */
  function Cut(s: View, offset: nat, length: nat): (r: Result<View>)
    ensures r.Ok? ==> offset + length <= |s.Memory()|
    ensures r.Ok? ==> |r.value.seen| == length && r.value.Memory() == s.Memory()[offset..]
  {
    var memory := s.Memory();
    if offset + length > |memory| then Panic
    else
      assert memory[offset..] == memory[offset..offset + length] + memory[offset + length..];
      Ok(View(memory[offset..offset + length], memory[offset + length..]))
  }

  /** The first `n` octets of `s` in view, the rest of it and `tail` behind them. */
  function Part(s: bytes, n: nat, tail: bytes): (v: View)
    requires n <= |s|
    ensures |v.seen| == n && v.Memory() == s + tail
  {
    assert s[..n] + (s[n..] + tail) == s + tail;
    View(s[..n], s[n..] + tail)
  }

  lemma WholePart(s: bytes, tail: bytes)
    ensures Part(s, |s|, tail) == View(s, tail)
  {
    assert s[..|s|] == s && s[|s|..] + tail == tail;
  }

  /** A slice within a content that stands in memory shows that much of the content. */
  lemma CutPart(s: View, offset: nat, n: nat, content: bytes, tail: bytes)
    requires offset <= |s.Memory()| && s.Memory()[offset..] == content + tail && n <= |content|
    ensures Cut(s, offset, n) == Ok(Part(content, n, tail))
  {
    var memory := s.Memory();
    assert memory[offset..offset + n] == memory[offset..][..n] == content[..n];
    assert memory[offset + n..] == memory[offset..][n..] == content[n..] + tail;
  }

  /** `buf[offset : offset+length]` where nothing behind the length may be touched. */
  function Sliced(buf: bytes, offset: nat, length: nat): (r: Result<bytes>)
    ensures r.Ok? ==> |r.value| == length
  {
    if offset + length > |buf| then Panic else Ok(buf[offset..offset + length])
  }

  /** `buf[i]` without a bounds check of its own. */
  function Octet(buf: bytes, i: nat): Result<byte> {
    if i >= |buf| then Panic else Ok(buf[i])
  }

  /** What appending `body` in front makes of a later outcome. */
  function Prefixed(body: bytes, r: Result<bytes>): Result<bytes> {
    if r.Ok? then Ok(body + r.value) else r
  }

  lemma PrefixedTwice(a: bytes, b: bytes, r: Result<bytes>)
    ensures Prefixed(a, Prefixed(b, r)) == Prefixed(a + b, r)
    ensures Prefixed([], r) == r
    ensures Prefixed(a, Ok([])) == Ok(a)
  {
    assert a + [] == a;
    if r.Ok? {
      assert a + (b + r.value) == (a + b) + r.value;
      assert [] + r.value == r.value;
    }
  }

  /** The octets `s` stand in `buf` at position `off`. */
  predicate At(buf: bytes, off: int, s: bytes) {
    0 <= off && off + |s| <= |buf| && buf[off..off + |s|] == s
  }

  lemma AtConcat(buf: bytes, off: int, a: bytes, b: bytes)
    ensures At(buf, off, a + b) <==> At(buf, off, a) && At(buf, off + |a|, b)
  {
    if At(buf, off, a + b) {
      assert buf[off..off + |a|] == (a + b)[..|a|] == a;
      assert buf[off + |a|..off + |a| + |b|] == (a + b)[|a|..] == b;
    }
    if At(buf, off, a) && At(buf, off + |a|, b) {
      assert buf[off..off + |a + b|] == buf[off..off + |a|] + buf[off + |a|..off + |a| + |b|];
    }
  }

  lemma AtHead(buf: bytes, off: int, x: byte, rest: bytes)
    requires At(buf, off, [x] + rest)
    ensures 0 <= off < |buf| && buf[off] == x && At(buf, off + 1, rest)
  {
    AtConcat(buf, off, [x], rest);
    assert buf[off..off + 1][0] == x;
  }

  lemma AtOne(buf: bytes, off: int, x: byte)
    requires At(buf, off, [x])
    ensures 0 <= off < |buf| && buf[off] == x
  {
    assert buf[off..off + 1][0] == x;
  }

  lemma AtSlice(buf: bytes, off: int, s: bytes)
    requires At(buf, off, s)
    ensures 0 <= off && off + |s| <= |buf| && buf[off..off + |s|] == s
  {
  }

  lemma AtWhole(s: bytes)
    ensures At(s, 0, s)
  {
    assert s[0..|s|] == s;
  }

  function Pow256(k: nat): (p: nat)
    ensures p >= 1
  {
    if k == 0 then 1 else 256 * Pow256(k - 1)
  }

  /** The unsigned number written by `bs`, most significant octet first. */
  function FromBE(bs: bytes): (n: nat)
    ensures n < Pow256(|bs|)
  {
    if bs == [] then 0 else FromBE(bs[..|bs| - 1]) * 256 + bs[|bs| - 1]
  }

  /** The low `k` octets of `n`, most significant first. */
  function ToBE(n: nat, k: nat): (bs: bytes)
    ensures |bs| == k
  {
    if k == 0 then [] else ToBE(n / 256, k - 1) + [n % 256]
  }

  lemma {:induction false} FromToBE(n: nat, k: nat)
    requires n < Pow256(k)
    ensures FromBE(ToBE(n, k)) == n
  {
    if k > 0 {
      FromToBE(n / 256, k - 1);
      assert ToBE(n, k)[..k - 1] == ToBE(n / 256, k - 1);
    }
  }

  lemma QuotientAndRest(q: nat, r: byte)
    ensures (q * 256 + r) / 256 == q && (q * 256 + r) % 256 == r
  {
  }

  lemma {:induction false} ToFromBE(bs: bytes)
    ensures ToBE(FromBE(bs), |bs|) == bs
  {
    hide Pow256;
    if bs != [] {
      var init, last := bs[..|bs| - 1], bs[|bs| - 1];
      ToFromBE(init);
      QuotientAndRest(FromBE(init), last);
      assert ToBE(FromBE(bs), |bs|) == ToBE(FromBE(init), |init|) + [last];
    }
  }

  lemma {:induction false} FromBEConcat(a: bytes, b: bytes)
    ensures FromBE(a + b) == FromBE(a) * Pow256(|b|) + FromBE(b)
  {
    if b == [] {
      assert a + b == a;
    } else {
      hide Pow256;
      var c := b[..|b| - 1];
      FromBEConcat(a, c);
      assert (a + b)[..|a + b| - 1] == a + c;
      var high := FromBE(a) * Pow256(|c|);
      assert FromBE(a + b) == (high + FromBE(c)) * 256 + b[|b| - 1];
      TimesPower(FromBE(a), |c|);
      assert FromBE(a) * Pow256(|b|) == high * 256;
    }
  }

  lemma TimesPower(n: nat, k: nat)
    ensures n * Pow256(k + 1) == n * Pow256(k) * 256
  {
  }

  lemma FromBEOne(x: byte)
    ensures FromBE([x]) == x
  {
    assert [x][..0] == [];
  }

  lemma FromBECons(x: byte, b: bytes)
    ensures FromBE([x] + b) == x * Pow256(|b|) + FromBE(b)
  {
    FromBEOne(x);
    FromBEConcat([x], b);
  }
}
