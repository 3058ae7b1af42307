/**
  LZ4_decompress_safe on byte arrays, with the overlapping copies of the x86-64 build:
  four single bytes, a corrected four-byte step, then eight-byte steps that may run past
  the end of the match.  Proved against the byte-at-a-time decoder of Lz4Format.
 */
module Lz4Decoder {
  import opened Lz4Format

  const STEPSIZE: int := 8
  const dec32table: seq<int> := [0, 3, 2, 3, 0, 0, 0, 0]
  const dec64table: seq<int> := [0, 0, 0, -1, 0, 1, 2, 3]

  // ------------------------------------------------------ repeating bytes

  /** Bytes `lo` up to `hi` repeat with period `d`. */
  ghost predicate Repeats(x: seq<byte>, lo: nat, hi: nat, d: nat) {
    d <= lo <= hi <= |x| && forall k {:trigger x[k]} :: lo <= k < hi ==> x[k] == x[k - d]
  }

  /** Going back `m` periods at once. */
  lemma {:induction false} RepeatsMany(x: seq<byte>, lo: nat, hi: nat, d: nat, m: nat, k: nat)
    requires Repeats(x, lo, hi, d)
    requires k < hi && m * d <= k && (m > 0 ==> lo <= k - (m - 1) * d)
    ensures x[k] == x[k - m * d]
    decreases m
  {
    if m > 0 {
      assert (m - 1) * d == m * d - d;
      if m > 1 { assert (m - 2) * d == (m - 1) * d - d; }
      RepeatsMany(x, lo, hi, d, m - 1, k);
    }
  }

  /** `y` is `x` after one load-then-store of `w` bytes from `from` to `to`. */
  ghost predicate Moved(x: seq<byte>, y: seq<byte>, from: nat, to: nat, w: nat) {
    && |y| == |x| && from + w <= |x| && to + w <= |x|
    && (forall k {:trigger y[k]} :: 0 <= k < |x| && !(to <= k < to + w) ==> y[k] == x[k])
    && (forall k {:trigger y[k]} :: to <= k < to + w ==> y[k] == x[k - to + from])
  }

  /** `stride` is a positive number of whole periods. */
  ghost predicate WholePeriods(stride: nat, d: nat) {
    d >= 1 && exists m: nat :: m >= 1 && m * d == stride
  }

  lemma {:induction false} StrideBack(x: seq<byte>, lo: nat, hi: nat, d: nat, stride: nat, k: nat)
    requires Repeats(x, lo, hi, d) && WholePeriods(stride, d)
    requires d <= k && k - d < hi && lo <= k - stride + d
    ensures x[k - d] == x[k - stride]
  {
    var m: nat :| m >= 1 && m * d == stride;
    assert (m - 1) * d == stride - d;
    if m >= 2 { assert (m - 2) * d == stride - 2 * d; }
    RepeatsMany(x, lo, hi, d, m - 1, k - d);
  }

  /** A step from a whole number of periods behind extends the repetition. */
  lemma {:induction false} StepExtends(x: seq<byte>, y: seq<byte>, lo: nat, o: nat, w: nat, d: nat, stride: nat)
    requires Repeats(x, lo, o, d) && WholePeriods(stride, d)
    requires w <= stride <= d + (o - lo) && o + w <= |x|
    requires Moved(x, y, o - stride, o, w)
    ensures Repeats(y, lo, o + w, d)
  {
    forall k {:trigger y[k]} | lo <= k < o + w ensures y[k] == y[k - d] {
      if k >= o {
        StepExtendsAt(x, y, lo, o, w, d, stride, k);
      }
    }
  }

  lemma {:induction false} StepExtendsAt(x: seq<byte>, y: seq<byte>, lo: nat, o: nat, w: nat, d: nat, stride: nat,
                                         k: nat)
    requires Repeats(x, lo, o, d) && WholePeriods(stride, d)
    requires w <= stride <= d + (o - lo) && o + w <= |x|
    requires Moved(x, y, o - stride, o, w)
    requires o <= k < o + w
    ensures y[k] == y[k - d]
  {
    assert y[k] == x[k - stride];
    if k - d < o {
      assert y[k - d] == x[k - d];
      StrideBack(x, lo, o, d, stride, k);
    } else {
      assert y[k - d] == x[k - d - stride];
      assert x[k - stride] == x[k - stride - d];
    }
  }

  /** Nothing but positions `lo` up to `hi` differs. */
  ghost predicate SameOutside(x: seq<byte>, y: seq<byte>, lo: nat, hi: nat) {
    |x| == |y| && forall k {:trigger y[k]} :: 0 <= k < |x| && !(lo <= k < hi) ==> y[k] == x[k]
  }

  lemma {:induction false} SameOutsideSelf(x: seq<byte>, lo: nat, hi: nat)
    ensures SameOutside(x, x, lo, hi)
  {
  }

  lemma {:induction false} SameOutsideMoved(x: seq<byte>, y: seq<byte>, z: seq<byte>, lo: nat, hi: nat,
                                            from: nat, to: nat, w: nat)
    requires SameOutside(x, y, lo, hi) && Moved(y, z, from, to, w)
    requires lo <= to && to + w <= hi
    ensures SameOutside(x, z, lo, hi)
  {
  }

  // ----------------------------------------------------------- copy steps

  /** A32(d) = A32(s), A64(d) = A64(s) and *d = *s: load all `w` bytes, then store them. */
  method CopyStep(a: array<byte>, from: nat, to: nat, w: nat)
    requires from + w <= a.Length && to + w <= a.Length
    modifies a
    ensures Moved(old(a[..]), a[..], from, to, w)
  {
    forall k | 0 <= k < w { a[to + k] := a[from + k]; }
  }

  /** LZ4_WILDCOPY inside one buffer. */
  method WildCopyWithin(a: array<byte>, from: nat, to: nat, end: int, limit: nat, ghost lo: nat, ghost d: nat)
    returns (from': nat, to': nat)
    requires from <= to && to + 8 <= limit <= a.Length && end + 7 <= limit
    requires lo <= to
    requires d >= 1 ==> Repeats(a[..], lo, to, d) && WholePeriods(to - from, d) && 8 <= to - from <= d + (to - lo)
    modifies a
    ensures end <= to' <= limit && to < to' && to' - from' == to - from
    ensures SameOutside(old(a[..]), a[..], lo, limit)
    ensures d >= 1 ==> Repeats(a[..], lo, to', d)
  {
    hide *;
    from', to' := from, to;
    SameOutsideSelf(a[..], lo, limit);
    while true
      invariant from' <= to' && to <= to' && to' - from' == to - from
      invariant SameOutside(old(a[..]), a[..], lo, limit)
      invariant d >= 1 ==> Repeats(a[..], lo, to', d)
      invariant to' + 8 <= limit
      decreases limit - to'
    {
      ghost var before := a[..];
      CopyStep(a, from', to', 8);
      SameOutsideMoved(old(a[..]), before, a[..], lo, limit, from', to', 8);
      if d >= 1 { StepExtends(before, a[..], lo, to', 8, d, to - from); }
      from', to' := from' + 8, to' + 8;
      if !(to' < end) { break; }
    }
  }

  /** The correction tables turn every distance below eight into a stride of whole periods. */
  lemma {:induction false} TableStrides(d: nat)
    requires 1 <= d < 8
    ensures var s4 := d + dec32table[d];
            var s8 := s4 + 4 + dec64table[d];
            && 4 <= s4 <= d + 4 && WholePeriods(s4, d)
            && 8 <= s8 <= d + 8 && WholePeriods(s8, d)
  {
    var s4 := d + dec32table[d];
    var s8 := s4 + 4 + dec64table[d];
    assert [4, 2, 2, 1, 1, 1, 1][d - 1] * d == s4;
    assert [8, 4, 3, 2, 2, 2, 2][d - 1] * d == s8;
  }

  /** The first eight bytes of a match at `op` copied from `ref`; leaves a distance of at least eight. */
  method CopyFirstEight(a: array<byte>, op: nat, ref: nat) returns (o: nat, r: nat)
    requires ref <= op && op + 8 <= a.Length
    modifies a
    ensures o == op + 8 && r <= o
    ensures SameOutside(old(a[..]), a[..], op, op + 8)
    ensures var d := op - ref;
            d >= 1 ==> Repeats(a[..], op, o, d) && WholePeriods(o - r, d) && 8 <= o - r <= d + 8
  {
    if op - ref < STEPSIZE {
      o, r := CopyFirstEightClose(a, op, ref);
    } else {
      CopyStep(a, ref, op, 8);
      assert 1 * (op - ref) == op - ref;
      StepExtends(old(a[..]), a[..], op, op, 8, op - ref, op - ref);
      o, r := op + 8, ref + 8;
    }
  }

  /** The same for a distance below eight, using the correction tables. */
  method CopyFirstEightClose(a: array<byte>, op: nat, ref: nat) returns (o: nat, r: nat)
    requires ref <= op < ref + 8 && op + 8 <= a.Length
    modifies a
    ensures o == op + 8 && r <= o
    ensures SameOutside(old(a[..]), a[..], op, op + 8)
    ensures var d := op - ref;
            d >= 1 ==> Repeats(a[..], op, o, d) && WholePeriods(o - r, d) && 8 <= o - r <= d + 8
  {
    ghost var d := op - ref;
    var dec64 := dec64table[op - ref];
    if d >= 1 { TableStrides(d); }
    CopyFourBytes(a, op, ref);
    o, r := op + 4, ref + 4;
    r := r - dec32table[o - r];
    CopyStepKeeps(a, r, o, 4, op, d);
    o, r := o + (STEPSIZE - 4), r - dec64;
  }

  /** A copy step that keeps extending the repetition begun at `lo`. */
  method CopyStepKeeps(a: array<byte>, from: nat, to: nat, w: nat, ghost lo: nat, ghost d: nat)
    requires from <= to && lo <= to && to + w <= a.Length
    requires d >= 1 ==> Repeats(a[..], lo, to, d) && WholePeriods(to - from, d) && w <= to - from <= d + (to - lo)
    modifies a
    ensures SameOutside(old(a[..]), a[..], to, to + w)
    ensures d >= 1 ==> Repeats(a[..], lo, to + w, d)
  {
    hide Repeats, WholePeriods;
    CopyStep(a, from, to, w);
    if d >= 1 { StepExtends(old(a[..]), a[..], lo, to, w, d, to - from); }
  }

  /** op[0] = ref[0]; ... op[3] = ref[3]; in that order. */
  method CopyFourBytes(a: array<byte>, op: nat, ref: nat)
    requires ref <= op && op + 4 <= a.Length
    modifies a
    ensures SameOutside(old(a[..]), a[..], op, op + 8)
    ensures var d := op - ref; d >= 1 ==> Repeats(a[..], op, op + 4, d)
  {
    CopyByte(a, op, ref, 0);
    CopyByte(a, op, ref, 1);
    CopyByte(a, op, ref, 2);
    CopyByte(a, op, ref, 3);
  }

  method CopyByte(a: array<byte>, op: nat, ref: nat, i: nat)
    requires ref <= op && op + i < a.Length && i < 8
    requires var d := op - ref; d >= 1 ==> Repeats(a[..], op, op + i, d)
    modifies a
    ensures SameOutside(old(a[..]), a[..], op, op + 8)
    ensures var d := op - ref; d >= 1 ==> Repeats(a[..], op, op + i + 1, d)
  {
    ghost var d := op - ref;
    CopyStep(a, ref + i, op + i, 1);
    if d >= 1 {
      assert 1 * d == d;
      StepExtends(old(a[..]), a[..], op, op + i, 1, d, d);
    }
  }

  /**
    Copy a match of `length` + 4 bytes to `op` from `offset` behind, never writing at or past
    `oend`.  Fails exactly when the match would leave fewer than LASTLITERALS bytes.
   */
  method CopyMatchWithin(a: array<byte>, op: nat, offset: nat, length: nat, oend: nat) returns (ok: bool, op': nat)
    requires offset <= op && op + MFLIMIT <= oend <= a.Length
    modifies a
    ensures ok <==> op + length + 4 <= oend - LASTLITERALS
    ensures ok ==> op' == op + length + 4
    ensures SameOutside(old(a[..]), a[..], op, oend)
    ensures ok && offset >= 1 ==> a[..op'] == CopyMatch(old(a[..op]), offset, length + 4)
  {
    ok, op' := PlaceMatch(a, op, offset, length, oend);
    if ok && offset >= 1 {
      CopyMatchUnique(old(a[..op]), offset, length + 4, a[..op']);
    }
  }

  method PlaceMatch(a: array<byte>, op: nat, offset: nat, length: nat, oend: nat) returns (ok: bool, op': nat)
    requires offset <= op && op + MFLIMIT <= oend <= a.Length
    modifies a
    ensures ok <==> op + length + 4 <= oend - LASTLITERALS
    ensures ok ==> op' == op + length + 4
    ensures SameOutside(old(a[..]), a[..], op, oend)
    ensures ok && offset >= 1 ==> Repeats(a[..], op, op', offset)
  {
    var o, ref := CopyFirstEight(a, op, op - offset);
    var cpy := o + length - (STEPSIZE - 4);
    op' := cpy;
    if cpy > oend - COPYLENGTH - (STEPSIZE - 4) {
      if cpy > oend - LASTLITERALS { return false, op'; }
      // LZ4_SECURECOPY
      if o < oend - COPYLENGTH {
        ref, o := WildCopyWithin(a, ref, o, oend - COPYLENGTH, oend, op, offset);
      }
      ref, o := SlowTail(a, ref, o, cpy, op, offset);
      return true, op';
    }
    ref, o := WildCopyWithin(a, ref, o, cpy, oend, op, offset);
    ok := true;
  }

  /** while(op < cpy) *op++ = *ref++; */
  method SlowTail(a: array<byte>, from: nat, to: nat, cpy: nat, ghost lo: nat, ghost d: nat)
    returns (from': nat, to': nat)
    requires from <= to && lo <= to && cpy <= a.Length
    requires d >= 1 ==> Repeats(a[..], lo, to, d) && WholePeriods(to - from, d) && 8 <= to - from <= d + (to - lo)
    modifies a
    ensures cpy <= to' && to <= to'
    ensures SameOutside(old(a[..]), a[..], lo, if lo < cpy then cpy else lo)
    ensures d >= 1 ==> Repeats(a[..], lo, to', d)
  {
    hide *;
    from', to' := from, to;
    ghost var hi := if lo < cpy then cpy else lo;
    SameOutsideSelf(a[..], lo, hi);
    while to' < cpy
      invariant from' <= to' && to <= to' && to' - from' == to - from
      invariant SameOutside(old(a[..]), a[..], lo, hi)
      invariant d >= 1 ==> Repeats(a[..], lo, to', d)
    {
      ghost var before := a[..];
      CopyStep(a, from', to', 1);
      SameOutsideMoved(old(a[..]), before, a[..], lo, hi, from', to', 1);
      if d >= 1 { StepExtends(before, a[..], lo, to', 1, d, to - from); }
      from', to' := from' + 1, to' + 1;
    }
  }

  // ------------------------------------------------------------- decoding

  /** Run length of the token at `start`, reading continuation bytes while there is input. */
  method ScanLiteralRun(src: array<byte>, start: nat, iend: nat) returns (length: nat, ip: nat)
    requires start < iend <= src.Length
    ensures (length, ip) == LiteralRun(src[..iend], start)
  {
    length, ip := src[start] / 16, start + 1;
    if length == RUN_MASK {
      var s: nat := 255;
      while ip < iend && s == 255
        invariant start < ip <= iend && s <= 255
        invariant s == 255 ==> LiteralRun(src[..iend], start) == ReadLiteralLength(src[..iend], ip, length)
        invariant s != 255 ==> LiteralRun(src[..iend], start) == (length, ip)
      {
        s := src[ip];
        length, ip := length + s, ip + 1;
      }
    }
  }

  /** Match length announced by `token`; the last LASTLITERALS + 1 input bytes are never read. */
  method ScanMatchRun(src: array<byte>, token: byte, start: nat, iend: nat) returns (length: nat, ip: nat)
    requires iend <= src.Length && start <= iend - (LASTLITERALS + 1)
    ensures (length + MINMATCH, ip) == MatchRun(token, src[..iend], start)
  {
    length, ip := token % 16, start;
    if length == ML_MASK {
      while ip < iend - (LASTLITERALS + 1)
        invariant start <= ip <= iend - (LASTLITERALS + 1)
        invariant MatchRun(token, src[..iend], start)
               == (ReadMatchLength(src[..iend], ip, length).0 + MINMATCH, ReadMatchLength(src[..iend], ip, length).1)
      {
        var s := src[ip];
        length, ip := length + s, ip + 1;
        if s == 255 { continue; }
        assert MatchRun(token, src[..iend], start) == (length + MINMATCH, ip);
        return;
      }
    }
  }

  /** memcpy of the final literals. */
  method CopyLiterals(src: array<byte>, from: nat, dst: array<byte>, to: nat, iend: nat)
    requires src != dst && from <= iend <= src.Length && to + iend - from <= dst.Length
    modifies dst
    ensures dst[to..to + iend - from] == src[..iend][from..]
    ensures SameOutside(old(dst[..]), dst[..], to, to + iend - from)
  {
    forall k | 0 <= k < iend - from { dst[to + k] := src[from + k]; }
  }

  lemma {:induction false} PrefixKept(x: seq<byte>, y: seq<byte>, lo: nat, hi: nat, end: nat)
    requires SameOutside(x, y, lo, hi) && lo <= end <= |x|
    ensures y[..end] == x[..lo] + y[lo..end]
  {
  }

  /** LZ4_WILDCOPY from the input: `n` bytes wanted, written eight at a time. */
  method WildCopyLiterals(src: array<byte>, from: nat, dst: array<byte>, to: nat, n: nat, iend: nat, oend: nat)
    requires src != dst
    requires from + n + 8 <= iend <= src.Length && to + n + 8 <= oend <= dst.Length
    modifies dst
    ensures dst[to..to + n] == src[..iend][from..from + n]
    ensures SameOutside(old(dst[..]), dst[..], to, oend)
  {
    var ip, op, cpy := from, to, to + n;
    while true
      invariant to <= op <= oend - 8 && op < to + n + 8 && ip - from == op - to
      invariant op < cpy || op == to
      invariant forall k {:trigger dst[k]} :: to <= k < op ==> dst[k] == src[from + k - to]
      invariant SameOutside(old(dst[..]), dst[..], to, oend)
      decreases oend - op
    {
      forall k | 0 <= k < 8 { dst[op + k] := src[ip + k]; }
      ip, op := ip + 8, op + 8;
      if !(op < cpy) { break; }
    }
  }

  /** One trip round the decoding loop. */
  datatype LoopResult = Continue(ip: nat, op: nat) | Finished(written: nat) | Rejected(consumed: nat)

  /**
    Decode one sequence.  `DecodeStep` over the bytes produced so far is exactly what
    happens, unless it meets a distance of zero, which the code copies from stale bytes.
   */
  method DecodeSequence(src: array<byte>, dst: array<byte>, ip0: nat, op0: nat, iend: nat, oend: nat)
    returns (r: LoopResult)
    requires src != dst && ip0 < iend <= src.Length && op0 <= oend <= dst.Length
    modifies dst
    ensures SameOutside(old(dst[..]), dst[..], op0, oend)
    ensures r.Continue? ==> ip0 < r.ip <= iend - (LASTLITERALS + 1) && op0 <= r.op <= oend
    ensures r.Finished? ==> r.written <= oend
    ensures match DecodeStep(src[..iend], ip0, old(dst[..op0]), oend)
            case Next(ip', out) => r == Continue(ip', |out|) && dst[..|out|] == out
            case Final(Done(out)) => r == Finished(|out|) && dst[..|out|] == out
            case Final(Malformed(consumed)) => r == Rejected(consumed)
            case Final(Unspecified) => true
  {
    ghost var input, out := src[..iend], old(dst[..op0]);
    ghost var step := DecodeStep(input, ip0, out, oend);
    hide LiteralRun, MatchRun, CopyMatch, DecodeStep;
    var length, ip := ScanLiteralRun(src, ip0, iend);
    var cpy := op0 + length;
    if cpy > oend - MFLIMIT || ip + length > iend - (2 + 1 + LASTLITERALS) {
      if ip + length != iend || cpy > oend { return Rejected(ip); }
      CopyLiterals(src, ip, dst, op0, iend);
      PrefixKept(old(dst[..]), dst[..], op0, cpy, cpy);
      return Finished(cpy);
    }
    r := DecodeMatch(src, dst, ip0, op0, iend, oend, ip, length);
  }

  lemma {:induction false} StepWithMatch(input: seq<byte>, ip0: nat, out: seq<byte>, cap: nat)
    requires ip0 < |input|
    requires var (run, ip) := LiteralRun(input, ip0);
             |out| + run <= cap - MFLIMIT && ip + run <= |input| - (2 + 1 + LASTLITERALS)
    ensures var (run, ip) := LiteralRun(input, ip0);
            var at := ip + run;
            var out1 := out + input[ip..at];
            var offset := ReadOffset(input, at);
            var (n, end) := MatchRun(input[ip0], input, at + 2);
            DecodeStep(input, ip0, out, cap)
            == if offset > |out1| then Final(Malformed(at + 2))
               else if offset == 0 then Final(Unspecified)
               else if |out1| + n > cap - LASTLITERALS then Final(Malformed(end))
               else Next(end, CopyMatch(out1, offset, n))
  {
  }

  /** The part of a sequence that holds a back reference. */
  method DecodeMatch(src: array<byte>, dst: array<byte>, ip0: nat, op0: nat, iend: nat, oend: nat,
                     literals: nat, length: nat)
    returns (r: LoopResult)
    requires src != dst && ip0 < iend <= src.Length && op0 <= oend <= dst.Length
    requires LiteralRun(src[..iend], ip0) == (length, literals)
    requires op0 + length <= oend - MFLIMIT && literals + length <= iend - (2 + 1 + LASTLITERALS)
    modifies dst
    ensures SameOutside(old(dst[..]), dst[..], op0, oend)
    ensures !r.Finished?
    ensures r.Continue? ==> ip0 < r.ip <= iend - (LASTLITERALS + 1) && op0 <= r.op <= oend
    ensures match DecodeStep(src[..iend], ip0, old(dst[..op0]), oend)
            case Next(ip', out) => r == Continue(ip', |out|) && dst[..|out|] == out
            case Final(Done(out)) => false
            case Final(Malformed(consumed)) => r == Rejected(consumed)
            case Final(Unspecified) => true
  {
    ghost var input, out := src[..iend], old(dst[..op0]);
    StepWithMatch(input, ip0, out, oend);
    hide LiteralRun, MatchRun, CopyMatch, DecodeStep, SameOutside;
    var cpy := op0 + length;
    WildCopyLiterals(src, literals, dst, op0, length, iend, oend);
    ghost var mid := dst[..];
    PrefixKept(old(dst[..]), mid, op0, oend, cpy);
    assert dst[..cpy] == out + input[literals..literals + length];
    var ip := literals + length;
    var offset: nat := (src[ip] as int) + 256 * (src[ip + 1] as int);
    ip := ip + 2;
    if cpy < offset { return Rejected(ip); }
    var more, ip' := ScanMatchRun(src, src[ip0], ip, iend);
    var ok, op' := CopyMatchWithin(dst, cpy, offset, more, oend);
    if !ok { return Rejected(ip'); }
    r := Continue(ip', op');
  }

  /**
    Decompress `src[..inputSize]` into `dst`, writing nothing at or past `maxOutputSize`.
    The result is the number of bytes produced, or minus one minus the number of input
    bytes consumed when the block is rejected.
   */
  method DecompressSafe(src: array<byte>, dst: array<byte>, inputSize: nat, maxOutputSize: nat) returns (r: int)
    requires src != dst && 1 <= inputSize <= src.Length && maxOutputSize <= dst.Length
    modifies dst
    ensures SameOutside(old(dst[..]), dst[..], 0, maxOutputSize)
    ensures r <= maxOutputSize
    ensures maxOutputSize == 0 ==> r == -1
    ensures maxOutputSize > 0 ==>
              match Decode(src[..inputSize], 0, [], maxOutputSize)
              case Done(out) => r == |out| && dst[..r] == out
              case Malformed(consumed) => r == -1 - consumed
              case Unspecified => true
  {
    if maxOutputSize == 0 { return -1; }
    var ip, op := 0, 0;
    ghost var input := src[..inputSize];
    ghost var specified := true;
    while true
      invariant 0 <= ip < inputSize && 0 <= op <= maxOutputSize
      invariant SameOutside(old(dst[..]), dst[..], 0, maxOutputSize)
      invariant specified ==> Decode(input, 0, [], maxOutputSize) == Decode(input, ip, dst[..op], maxOutputSize)
      invariant !specified ==> Decode(input, 0, [], maxOutputSize) == Unspecified
      decreases inputSize - ip
    {
      ghost var step := DecodeStep(input, ip, dst[..op], maxOutputSize);
      if specified { UnfoldDecode(input, ip, dst[..op], maxOutputSize); }
      hide Decode, DecodeStep;
      ghost var before := dst[..];
      var s := DecodeSequence(src, dst, ip, op, inputSize, maxOutputSize);
      if step == Final(Unspecified) { specified := false; }
      match s {
        case Continue(ip', op') => ip, op := ip', op';
        case Finished(written) => return written;
        case Rejected(consumed) => return -1 - consumed;
      }
    }
  }

  lemma {:induction false} UnfoldDecode(input: seq<byte>, ip: nat, out: seq<byte>, cap: nat)
    requires ip < |input|
    ensures match DecodeStep(input, ip, out, cap)
            case Next(ip', out') => Decode(input, ip, out, cap) == Decode(input, ip', out', cap)
            case Final(outcome) => Decode(input, ip, out, cap) == outcome
  {
  }
}
