/**
 Image comparison: the two loops of qemu-img compare.
 */
module ImageCompare {
  import opened ImageBuffers

  /** What bdrv_block_status_above reports; `other` are the flags that only strict mode looks at. */
  datatype Answer = StatusError | Answer(zero: bool, alloc: bool, other: nat, pnum: nat)

  /** An image, and what the block layer answers about it. */
  datatype Image = Image(data: seq<Byte>, status: (nat, nat) -> Answer, readable: (nat, nat) -> bool)

  /** Answers are true: they cover part of what was asked, and what is reported as zero or as not allocated
      in the whole chain reads as zero. */
  ghost predicate Honest(m: Image, offset: nat, most: nat)
    requires offset + most <= |m.data|
  {
    var a := m.status(offset, most);
    a.Answer? ==> 0 < a.pnum <= most && (a.zero || !a.alloc ==> IsZero(m.data[offset..offset + a.pnum]))
  }

  ghost predicate Truthful(m: Image) {
    forall offset: nat, most: nat {:trigger m.status(offset, most)} | 0 < most && offset + most <= |m.data| ::
           Honest(m, offset, most)
  }

  ghost predicate ErrorFree(m: Image) {
    && (forall offset: nat, most: nat :: m.status(offset, most).Answer?)
    && (forall offset: nat, count: nat :: m.readable(offset, count))
  }

  ghost predicate SameUpTo(a: seq<Byte>, b: seq<Byte>, n: nat) {
    forall i: nat | i < n :: At(a, i) == At(b, i)
  }

  /** The shorter image, extended with zeroes, equals the longer one. */
  ghost predicate SameContent(a: seq<Byte>, b: seq<Byte>) {
    forall i: nat :: At(a, i) == At(b, i)
  }

  /** Block status that strict mode takes for a difference. */
  predicate FlagsDiffer(x: Answer, y: Answer) {
    x.Answer? && y.Answer? && (x.zero != y.zero || x.alloc != y.alloc || x.other != y.other)
  }

  function StatusAt(m: Image, offset: nat): Answer
    requires offset < |m.data|
  {
    m.status(offset, |m.data| - offset)
  }

  /** How far one comparison gets with flags that agree: data is compared in pieces of the buffer size. */
  function StrictChunk(x: Answer, y: Answer): nat
    requires x.Answer? && y.Answer?
  {
    var n := Min(x.pnum, y.pnum);
    if x.zero || !x.alloc then n else Min(n, IO_BUF_SIZE)
  }

  /** At all offsets that strict mode looks at, from `offset` on, the flags agree. */
  ghost predicate StatusAgrees(a: Image, b: Image, offset: nat)
    requires Truthful(a) && Truthful(b)
    decreases |a.data| - offset
  {
    offset < |a.data| && offset < |b.data| ==>
      var x, y := StatusAt(a, offset), StatusAt(b, offset);
      x.Answer? && y.Answer? ==>
        assert Honest(a, offset, |a.data| - offset) && Honest(b, offset, |b.data| - offset);
        !FlagsDiffer(x, y) && StatusAgrees(a, b, offset + StrictChunk(x, y))
  }

  /** The exit status of the command. */
  datatype Verdict = Identical | Different | StatusFailed | ReadFailed

  /** check_empty_sectors. */
  method CheckEmpty(m: Image, offset: nat, count: nat) returns (v: Verdict)
    requires offset + count <= |m.data|
    ensures v.Identical? ==> IsZero(m.data[offset..offset + count])
    ensures v.Different? ==> !IsZero(m.data[offset..offset + count])
    ensures v.ReadFailed? <==> !m.readable(offset, count)
    ensures !v.StatusFailed?
  {
    if !m.readable(offset, count) {
      return ReadFailed;
    }
    var idx := FindNonzero(m.data[offset..offset + count]);
    return if idx >= 0 then Different else Identical;
  }

  lemma SameMore(a: seq<Byte>, b: seq<Byte>, n: nat, k: nat)
    requires SameUpTo(a, b, n) && n + k <= |a| && n + k <= |b| && a[n..n + k] == b[n..n + k]
    ensures SameUpTo(a, b, n + k)
  {
    forall i: nat | i < n + k ensures At(a, i) == At(b, i) {
      if i >= n {
        assert a[n..n + k][i - n] == b[n..n + k][i - n];
      }
    }
  }

  lemma DifferHere(a: seq<Byte>, b: seq<Byte>, n: nat, k: nat)
    requires n + k <= |a| && n + k <= |b| && a[n..n + k] != b[n..n + k]
    ensures !SameContent(a, b)
  {
    var i :| 0 <= i < k && a[n..n + k][i] != b[n..n + k][i];
    assert At(a, n + i) != At(b, n + i);
  }

  lemma ZeroMeansSame(a: seq<Byte>, b: seq<Byte>, n: nat, k: nat)
    requires n + k <= |a| && n + k <= |b| && IsZero(b[n..n + k])
    ensures IsZero(a[n..n + k]) <==> a[n..n + k] == b[n..n + k]
  {
    var x, y := a[n..n + k], b[n..n + k];
    if IsZero(x) {
      forall i | 0 <= i < k ensures x[i] == y[i] {
        assert y[i] == 0;
      }
    } else {
      var i :| 0 <= i < k && x[i] != 0;
      assert y[i] == 0;
    }
  }

  lemma ZeroPart(s: seq<Byte>, n: nat, k: nat, m: nat)
    requires k <= m && n + m <= |s| && IsZero(s[n..n + m])
    ensures IsZero(s[n..n + k])
  {
    var x, y := s[n..n + k], s[n..n + m];
    forall i | 0 <= i < k ensures x[i] == 0 {
      assert y[i] == 0;
    }
  }

  /** Reads a piece of both images and compares it. */
  method CompareData(a: Image, b: Image, offset: nat, chunk: nat) returns (v: Verdict)
    requires 0 < chunk && offset + chunk <= |a.data| && offset + chunk <= |b.data|
    ensures v.Identical? ==> a.data[offset..offset + chunk] == b.data[offset..offset + chunk]
    ensures v.Different? ==> a.data[offset..offset + chunk] != b.data[offset..offset + chunk]
    ensures v.ReadFailed? <==> !a.readable(offset, chunk) || !b.readable(offset, chunk)
    ensures !v.StatusFailed?
  {
    if !a.readable(offset, chunk) || !b.readable(offset, chunk) {
      return ReadFailed;
    }
    var buf1, buf2 := a.data[offset..offset + chunk], b.data[offset..offset + chunk];
    var differs, pnum := CompareBuffers(buf1, buf2, 0);
    if differs || pnum != chunk {
      return Different;
    }
    assert buf1[..pnum] == buf1 && buf2[..pnum] == buf2;
    return Identical;
  }

  /** Compares a chunk for which the block status of both images is known. */
  method CompareChunk(a: Image, b: Image, offset: nat, x: Answer, y: Answer) returns (v: Verdict, chunk: nat)
    requires x.Answer? && y.Answer? && 0 < x.pnum && 0 < y.pnum
    requires offset + x.pnum <= |a.data| && offset + y.pnum <= |b.data|
    requires x.zero || !x.alloc ==> IsZero(a.data[offset..offset + x.pnum])
    requires y.zero || !y.alloc ==> IsZero(b.data[offset..offset + y.pnum])
    ensures 0 < chunk && offset + chunk <= |a.data| && offset + chunk <= |b.data|
    ensures v.Identical? ==> a.data[offset..offset + chunk] == b.data[offset..offset + chunk]
    ensures v.Different? ==> a.data[offset..offset + chunk] != b.data[offset..offset + chunk]
    ensures !FlagsDiffer(x, y) ==> chunk == StrictChunk(x, y)
    ensures ErrorFree(a) && ErrorFree(b) ==> v.Identical? || v.Different?
  {
    chunk := Min(x.pnum, y.pnum);
    if x.zero || !x.alloc {
      ZeroPart(a.data, offset, chunk, x.pnum);
      ZeroPart(a.data, offset, Min(chunk, IO_BUF_SIZE), x.pnum);
    }
    if y.zero || !y.alloc {
      ZeroPart(b.data, offset, chunk, y.pnum);
      ZeroPart(b.data, offset, Min(chunk, IO_BUF_SIZE), y.pnum);
    }
    if x.zero && y.zero {
      ZeroMeansSame(a.data, b.data, offset, chunk);
      return Identical, chunk;
    }
    if x.alloc == y.alloc {
      if !x.alloc {
        ZeroMeansSame(a.data, b.data, offset, chunk);
        return Identical, chunk;
      }
      chunk := Min(chunk, IO_BUF_SIZE);
      v := CompareData(a, b, offset, chunk);
      return;
    }
    chunk := Min(chunk, IO_BUF_SIZE);
    if x.alloc {
      ZeroMeansSame(a.data, b.data, offset, chunk);
      v := CheckEmpty(a, offset, chunk);
    } else {
      ZeroMeansSame(b.data, a.data, offset, chunk);
      v := CheckEmpty(b, offset, chunk);
    }
  }

  /** The first loop, over what both images have. */
  method CompareCommon(a: Image, b: Image, strict: bool) returns (v: Verdict)
    requires Truthful(a) && Truthful(b)
    ensures v.Identical? ==> SameUpTo(a.data, b.data, Min(|a.data|, |b.data|)) && (strict ==> StatusAgrees(a, b, 0))
    ensures v.Different? ==> !SameContent(a.data, b.data) || (strict && !StatusAgrees(a, b, 0))
    ensures ErrorFree(a) && ErrorFree(b) ==> v.Identical? || v.Different?
  {
    var offset, total := 0, Min(|a.data|, |b.data|);
    while offset < total
      invariant offset <= total && SameUpTo(a.data, b.data, offset)
      invariant strict ==> (StatusAgrees(a, b, offset) <==> StatusAgrees(a, b, 0))
    {
      var x := a.status(offset, |a.data| - offset);
      if x.StatusError? {
        return StatusFailed;
      }
      var y := b.status(offset, |b.data| - offset);
      if y.StatusError? {
        return StatusFailed;
      }
      assert Honest(a, offset, |a.data| - offset) && Honest(b, offset, |b.data| - offset);
      if strict && FlagsDiffer(x, y) {
        return Different;
      }
      var chunk;
      v, chunk := CompareChunk(a, b, offset, x, y);
      if !v.Identical? {
        if v.Different? {
          DifferHere(a.data, b.data, offset, chunk);
        }
        return;
      }
      SameMore(a.data, b.data, offset, chunk);
      offset := offset + chunk;
    }
    return Identical;
  }

  /** The second loop, over what only the longer image has. */
  method CheckRest(m: Image, start: nat) returns (v: Verdict)
    requires Truthful(m) && start <= |m.data|
    ensures v.Identical? ==> IsZero(m.data[start..])
    ensures v.Different? ==> !IsZero(m.data[start..])
    ensures ErrorFree(m) ==> v.Identical? || v.Different?
  {
    var offset := start;
    while offset < |m.data|
      invariant start <= offset <= |m.data| && IsZero(m.data[start..offset])
    {
      var a := m.status(offset, |m.data| - offset);
      if a.StatusError? {
        return StatusFailed;
      }
      assert Honest(m, offset, |m.data| - offset);
      var chunk := a.pnum;
      if a.alloc && !a.zero {
        chunk := Min(chunk, IO_BUF_SIZE);
        v := CheckEmpty(m, offset, chunk);
        if v.Different? {
          var i :| 0 <= i < chunk && m.data[offset..offset + chunk][i] != 0;
          assert m.data[start..][offset - start + i] != 0;
        }
        if !v.Identical? {
          return;
        }
      }
      ZeroJoin(m.data, start, offset, offset + chunk);
      offset := offset + chunk;
    }
    assert m.data[start..offset] == m.data[start..];
    return Identical;
  }

  lemma ZeroJoin(s: seq<Byte>, i: nat, j: nat, k: nat)
    requires i <= j <= k <= |s| && IsZero(s[i..j]) && IsZero(s[j..k])
    ensures IsZero(s[i..k])
  {
    forall x | 0 <= x < k - i ensures s[i..k][x] == 0 {
      if x < j - i {
        assert s[i..j][x] == 0;
      } else {
        assert s[j..k][x - (j - i)] == 0;
      }
    }
  }

  lemma RestDecides(a: seq<Byte>, b: seq<Byte>)
    requires |a| <= |b| && SameUpTo(a, b, |a|)
    ensures SameContent(a, b) <==> IsZero(b[|a|..])
    ensures SameContent(b, a) <==> IsZero(b[|a|..])
  {
    if IsZero(b[|a|..]) {
      forall i: nat ensures At(a, i) == At(b, i) {
        if |a| <= i < |b| {
          assert b[|a|..][i - |a|] == 0;
        }
      }
    } else {
      var k :| 0 <= k < |b| - |a| && b[|a|..][k] != 0;
      assert At(a, |a| + k) != At(b, |a| + k);
    }
  }

  /** img_compare.  Without errors the images are reported identical exactly if the shorter one, extended
      with zeroes, equals the longer one; in strict mode also the sizes and the block status at every offset
      that the loop visits must agree. */
  method Compare(a: Image, b: Image, strict: bool) returns (v: Verdict)
    requires Truthful(a) && Truthful(b)
    ensures v.Identical? ==> SameContent(a.data, b.data) && (strict ==> |a.data| == |b.data| && StatusAgrees(a, b, 0))
    ensures v.Different? ==>
              !SameContent(a.data, b.data) || (strict && (|a.data| != |b.data| || !StatusAgrees(a, b, 0)))
    ensures ErrorFree(a) && ErrorFree(b) ==> v.Identical? || v.Different?
    ensures !strict && ErrorFree(a) && ErrorFree(b) ==> (v.Identical? <==> SameContent(a.data, b.data))
    ensures strict && ErrorFree(a) && ErrorFree(b) ==>
              (v.Identical? <==> |a.data| == |b.data| && SameContent(a.data, b.data) && StatusAgrees(a, b, 0))
  {
    if strict && |a.data| != |b.data| {
      return Different;
    }
    v := CompareCommon(a, b, strict);
    if !v.Identical? {
      return;
    }
    if |a.data| > |b.data| {
      v := CheckRest(a, |b.data|);
      SameSwap(a.data, b.data, |b.data|);
      RestDecides(b.data, a.data);
    } else {
      RestDecides(a.data, b.data);
      if |a.data| < |b.data| {
        v := CheckRest(b, |a.data|);
      }
    }
  }

  lemma SameSwap(a: seq<Byte>, b: seq<Byte>, n: nat)
    requires SameUpTo(a, b, n)
    ensures SameUpTo(b, a, n)
  {
  }
}
