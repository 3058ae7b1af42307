/**
  The LZ4 block format as HAMMER2 stores it: what a compressed block looks like,
  what it expands to, and a byte-at-a-time reference decoder with exactly the
  acceptance rules of the safe decoder.
 */
module Lz4Format {

  type byte = x: int | 0 <= x < 256

  const MINMATCH: int := 4
  const LASTLITERALS: int := 5
  const COPYLENGTH: int := 8
  const MFLIMIT: int := 12
  const MAX_DISTANCE: int := 65535
  const RUN_MASK: int := 15
  const ML_MASK: int := 15

  // ---------------------------------------------------------------- lengths

  function Nibble(n: nat): nat { if n < 15 then n else 15 }

  /** The bytes that continue a length whose nibble is saturated. */
  function Extension(n: nat): seq<byte> {
    if n < 255 then [n] else [255] + Extension(n - 255)
  }

  function LengthBytes(n: nat): seq<byte> {
    if n < 15 then [] else Extension(n - 15)
  }

  // -------------------------------------------------------------- sequences

  /** A literal run followed by a back reference. */
  datatype Sequence = Sequence(literals: seq<byte>, offset: nat, matchLength: nat)

  ghost predicate EncodableSequence(s: Sequence) {
    1 <= s.offset <= MAX_DISTANCE && MINMATCH <= s.matchLength
  }

  function LiteralPart(token: byte, literals: seq<byte>): seq<byte> {
    [token] + LengthBytes(|literals|) + literals
  }

  function Token(s: Sequence): byte
    requires EncodableSequence(s)
  {
    16 * Nibble(|s.literals|) + Nibble(s.matchLength - 4)
  }

  lemma {:induction false} TokenNibbles(s: Sequence)
    requires EncodableSequence(s)
    ensures Token(s) / 16 == Nibble(|s.literals|) && Token(s) % 16 == Nibble(s.matchLength - 4)
  {
  }

  function OffsetBytes(s: Sequence): seq<byte>
    requires EncodableSequence(s)
  {
    [s.offset % 256, s.offset / 256]
  }

  function MatchPart(s: Sequence): seq<byte>
    requires EncodableSequence(s)
  {
    OffsetBytes(s) + LengthBytes(s.matchLength - 4)
  }

  function EncodeSequence(s: Sequence): seq<byte>
    requires EncodableSequence(s)
  {
    LiteralPart(Token(s), s.literals) + MatchPart(s)
  }

  function EncodeLast(literals: seq<byte>): seq<byte> {
    LiteralPart(16 * Nibble(|literals|), literals)
  }

  /** The meaning of a back reference: copy one byte at a time from `offset` behind. */
  function CopyMatch(out: seq<byte>, offset: nat, n: nat): (r: seq<byte>)
    requires 1 <= offset <= |out|
    ensures |r| == |out| + n
    decreases n
  {
    if n == 0 then out else CopyMatch(out + [out[|out| - offset]], offset, n - 1)
  }

  /** From `from` on every byte equals the one `d` before it. */
  ghost predicate Periodic(x: seq<byte>, from: nat, d: nat) {
    d <= from && forall k {:trigger x[k]} :: from <= k < |x| ==> x[k] == x[k - d]
  }

  lemma {:induction false} PeriodicFirst(x: seq<byte>, from: nat, d: nat)
    requires Periodic(x, from, d) && from < |x|
    ensures d <= from && x[from] == x[from - d] && Periodic(x, from + 1, d)
    ensures x[..from + 1] == x[..from] + [x[from]]
  {
  }

  lemma {:induction false} CopyMatchIs(out: seq<byte>, offset: nat, n: nat, x: seq<byte>)
    requires 1 <= offset <= |out| && |x| == |out| + n && x[..|out|] == out && Periodic(x, |out|, offset)
    ensures x == CopyMatch(out, offset, n)
    decreases n
  {
    hide Periodic;
    if n > 0 {
      PeriodicFirst(x, |out|, offset);
      assert out[|out| - offset] == x[..|out|][|out| - offset];
      CopyMatchIs(out + [out[|out| - offset]], offset, n - 1, x);
    }
  }

  /** A byte string that repeats with period `offset` past `out` is what the back reference yields. */
  lemma {:induction false} CopyMatchUnique(out: seq<byte>, offset: nat, n: nat, x: seq<byte>)
    requires 1 <= offset <= |out|
    requires |x| == |out| + n && x[..|out|] == out
    requires forall k {:trigger x[k]} :: |out| <= k < |x| ==> x[k] == x[k - offset]
    ensures x == CopyMatch(out, offset, n)
  {
    hide CopyMatch;
    CopyMatchIs(out, offset, n, x);
  }

  lemma {:induction false} CopyMatchPeriodic(out: seq<byte>, offset: nat, n: nat)
    requires 1 <= offset <= |out|
    ensures var x := CopyMatch(out, offset, n);
            && x[..|out|] == out
            && forall k {:trigger x[k]} :: |out| <= k < |x| ==> x[k] == x[k - offset]
    decreases n
  {
    if n > 0 {
      var next := out + [out[|out| - offset]];
      var x := CopyMatch(out, offset, n);
      CopyMatchPeriodic(next, offset, n - 1);
      assert x[..|out|] == x[..|next|][..|out|];
      assert x[|out|] == x[..|next|][|out|];
      assert x[|out| - offset] == x[..|next|][|out| - offset];
    }
  }

  // ------------------------------------------------------- the bytes, as laid out

  /** A length from 15 on: bytes of 255, then the remainder. */
  lemma {:induction false} ExtensionBytes(n: nat)
    ensures |Extension(n)| == n / 255 + 1 && Extension(n)[n / 255] == n % 255
    ensures forall k {:trigger Extension(n)[k]} :: 0 <= k < n / 255 ==> Extension(n)[k] == 255
    decreases n
  {
    if n >= 255 {
      ExtensionBytes(n - 255);
      var e := Extension(n - 255);
      assert Extension(n) == [255] + e && n / 255 == (n - 255) / 255 + 1;
      forall k | 0 <= k < n / 255 ensures Extension(n)[k] == 255 {
        if k > 0 { assert Extension(n)[k] == e[k - 1]; }
      }
      assert Extension(n)[n / 255] == e[n / 255 - 1];
    }
  }

  /** How many bytes continue a length. */
  function More(n: nat): nat { if n < 15 then 0 else (n - 15) / 255 + 1 }

  function Low(n: nat): nat { if n < 15 then n else 15 }

  /** The bytes of one sequence: token, literal length, literals, offset with its low byte first, match length. */
  lemma {:induction false} Layout(s: Sequence)
    requires 1 <= s.offset <= 65535 && 4 <= s.matchLength
    ensures EncodableSequence(s)
    ensures var (n, m) := (|s.literals|, s.matchLength - 4);
            && IsLength(LengthBytes(n), n) && IsLength(LengthBytes(m), m)
            && EncodeSequence(s) == [(16 * Low(n) + Low(m)) as byte] + LengthBytes(n) + s.literals
                                    + [(s.offset % 256) as byte, (s.offset / 256) as byte] + LengthBytes(m)
  {
    hide LengthBytes, IsLength;
    var n, m := |s.literals|, s.matchLength - 4;
    LengthIs(n);
    LengthIs(m);
    SequenceBytes(s, LengthBytes(n), LengthBytes(m));
  }

  lemma {:induction false} SequenceBytes(s: Sequence, a: seq<byte>, b: seq<byte>)
    requires EncodableSequence(s) && a == LengthBytes(|s.literals|) && b == LengthBytes(s.matchLength - 4)
    ensures var t := 16 * Low(|s.literals|) + Low(s.matchLength - 4);
            t < 256 && EncodeSequence(s) == [t as byte] + a + s.literals
                                            + [(s.offset % 256) as byte, (s.offset / 256) as byte] + b
  {
    hide LengthBytes;
    var head, offset := LiteralPart(Token(s), s.literals), OffsetBytes(s);
    assert head + offset + b == head + (offset + b);
  }

  /** Bytes of 255 and a last byte below it, which together are what 15 lacks; none for less than 15. */
  ghost predicate IsLength(bytes: seq<byte>, n: nat) {
    |bytes| == More(n) &&
    (n < 15 || (bytes[|bytes| - 1] == (n - 15) % 255 && forall k :: 0 <= k < |bytes| - 1 ==> bytes[k] == 255))
  }

  lemma {:induction false} LengthIs(n: nat)
    ensures |LengthBytes(n)| == More(n) && IsLength(LengthBytes(n), n)
  {
    if n >= 15 { ExtensionBytes(n - 15); }
  }

  /** What sequence `i` has to keep to in a block of `n` bytes, by the numbers of the format. */
  ghost predicate Keeps(ss: seq<Sequence>, n: nat, i: nat)
    requires i < |ss|
  {
    var start := |Expand(ss[..i])| + |ss[i].literals|;
    && 1 <= ss[i].offset <= 65535 && ss[i].offset <= start && 4 <= ss[i].matchLength
    && start + 12 <= n && start + ss[i].matchLength + 5 <= n
  }

  /** Sequences are well formed exactly if each keeps to that. */
  lemma {:induction false} Rules(ss: seq<Sequence>, n: nat)
    ensures WellFormed(ss, n) <==> forall i :: 0 <= i < |ss| ==> Keeps(ss, n, i)
    decreases |ss|
  {
    if ss != [] {
      var last := |ss| - 1;
      Rules(ss[..last], n);
      assert WellFormed(ss, n) <==> WellFormed(ss[..last], n) && Keeps(ss, n, last);
      forall i | 0 <= i < last ensures Keeps(ss[..last], n, i) <==> Keeps(ss, n, i) {
        assert ss[..last][..i] == ss[..i];
      }
      hide WellFormed, Keeps;
    }
  }

  // ----------------------------------------------------- reference decoder

  /**
    What decoding a block gives.  `Malformed(consumed)`: rejected after reading
    `consumed` input bytes.  `Unspecified`: the block holds a back reference of
    distance zero, whose result depends on what the output buffer held before.
   */
  datatype Outcome = Done(out: seq<byte>) | Malformed(consumed: nat) | Unspecified

  /** Read the continuation bytes of a literal length; stops at a byte below 255 or at the end. */
  function ReadLiteralLength(input: seq<byte>, ip: nat, length: nat): (r: (nat, nat))
    requires ip <= |input|
    ensures length <= r.0 && ip <= r.1 <= |input|
    decreases |input| - ip
  {
    if ip == |input| then (length, ip)
    else if input[ip] == 255 then ReadLiteralLength(input, ip + 1, length + 255)
    else (length + input[ip], ip + 1)
  }

  /** Read the continuation bytes of a match length; never touches the last LASTLITERALS + 1 bytes. */
  function ReadMatchLength(input: seq<byte>, ip: nat, length: nat): (r: (nat, nat))
    requires ip <= |input|
    ensures length <= r.0 && ip <= r.1 <= |input|
    ensures ip <= |input| - 6 ==> r.1 <= |input| - 6
    decreases |input| - ip
  {
    if ip >= |input| - (LASTLITERALS + 1) then (length, ip)
    else if input[ip] == 255 then ReadMatchLength(input, ip + 1, length + 255)
    else (length + input[ip], ip + 1)
  }

  /** The literal run announced by the token at `ip`, and where its literals start. */
  function LiteralRun(input: seq<byte>, ip: nat): (r: (nat, nat))
    requires ip < |input|
    ensures ip < r.1 <= |input|
  {
    if input[ip] / 16 == RUN_MASK then ReadLiteralLength(input, ip + 1, RUN_MASK)
    else (input[ip] / 16, ip + 1)
  }

  /** The match length announced by `token` when its continuation bytes start at `ip`, and where they end. */
  function MatchRun(token: byte, input: seq<byte>, ip: nat): (r: (nat, nat))
    requires ip <= |input| - (LASTLITERALS + 1)
    ensures ip <= r.1 <= |input| - (LASTLITERALS + 1)
    ensures r.0 >= MINMATCH
  {
    var (more, ip') := if token % 16 == ML_MASK then ReadMatchLength(input, ip, ML_MASK)
                       else (token % 16 as nat, ip);
    (more + MINMATCH, ip')
  }

  function ReadOffset(input: seq<byte>, ip: nat): nat
    requires ip + 2 <= |input|
  {
    (input[ip] as int) + 256 * (input[ip + 1] as int)
  }

  /** One sequence either leads to the next input position and output, or ends the block. */
  datatype Step = Next(ip: nat, out: seq<byte>) | Final(outcome: Outcome)

  /** Decode the sequence at input position `ip` with `out` already produced and room for `cap` bytes. */
  function DecodeStep(input: seq<byte>, ip: nat, out: seq<byte>, cap: nat): (r: Step)
    requires ip < |input|
    ensures r.Next? ==> ip < r.ip <= |input| - (LASTLITERALS + 1) && |r.out| <= cap - LASTLITERALS
  {
    var (run, ip1) := LiteralRun(input, ip);
    if |out| + run > cap - MFLIMIT || ip1 + run > |input| - (2 + 1 + LASTLITERALS) then
      if ip1 + run != |input| || |out| + run > cap then Final(Malformed(ip1))
      else Final(Done(out + input[ip1..]))
    else
      var ip2 := ip1 + run;
      var out1 := out + input[ip1..ip2];
      var offset := ReadOffset(input, ip2);
      if offset > |out1| then Final(Malformed(ip2 + 2))
      else if offset == 0 then Final(Unspecified)
      else
        var (n, ip3) := MatchRun(input[ip], input, ip2 + 2);
        if |out1| + n > cap - LASTLITERALS then Final(Malformed(ip3))
        else Next(ip3, CopyMatch(out1, offset, n))
  }

  function Decode(input: seq<byte>, ip: nat, out: seq<byte>, cap: nat): Outcome
    requires ip < |input|
    decreases |input| - ip
  {
    match DecodeStep(input, ip, out, cap)
    case Next(ip', out') => Decode(input, ip', out', cap)
    case Final(outcome) => outcome
  }

  // ------------------------------------------------- blocks and round trip

  ghost predicate Encodable(ss: seq<Sequence>) {
    forall i :: 0 <= i < |ss| ==> EncodableSequence(ss[i])
  }

  /** The bytes of a list of sequences, in order. */
  ghost function EncodeSequences(ss: seq<Sequence>): seq<byte>
    requires Encodable(ss)
  {
    if ss == [] then [] else EncodeSequences(ss[..|ss| - 1]) + EncodeSequence(ss[|ss| - 1])
  }

  /** What a list of sequences stands for; a reference outside the data so far contributes nothing. */
  ghost function Expand(ss: seq<Sequence>): seq<byte> {
    if ss == [] then [] else
      var s := ss[|ss| - 1];
      var before := Expand(ss[..|ss| - 1]) + s.literals;
      if 1 <= s.offset <= |before| then CopyMatch(before, s.offset, s.matchLength) else before
  }

  /**
    The end-of-block rules for a block of `n` bytes: every reference points into data
    already produced, starts at least MFLIMIT bytes before the end and leaves the last
    LASTLITERALS bytes to literals.
   */
  ghost predicate WellFormed(ss: seq<Sequence>, n: nat) {
    ss == [] ||
    var s := ss[|ss| - 1];
    var start := |Expand(ss[..|ss| - 1])| + |s.literals|;
    && WellFormed(ss[..|ss| - 1], n)
    && EncodableSequence(s)
    && s.offset <= start <= n - MFLIMIT
    && start + s.matchLength <= n - LASTLITERALS
  }

  lemma {:induction false} WellFormedEncodable(ss: seq<Sequence>, n: nat)
    requires WellFormed(ss, n)
    ensures Encodable(ss)
  {
    if ss != [] { WellFormedEncodable(ss[..|ss| - 1], n); }
  }

  lemma {:induction false} Snoc(ss: seq<Sequence>, s: Sequence, n: nat)
    ensures Expand(ss + [s])
         == (var before := Expand(ss) + s.literals;
             if 1 <= s.offset <= |before| then CopyMatch(before, s.offset, s.matchLength) else before)
    ensures WellFormed(ss + [s], n) <==>
            && WellFormed(ss, n) && EncodableSequence(s)
            && s.offset <= |Expand(ss)| + |s.literals| <= n - MFLIMIT
            && |Expand(ss)| + |s.literals| + s.matchLength <= n - LASTLITERALS
  {
  }

  lemma {:induction false} SnocEncode(ss: seq<Sequence>, s: Sequence)
    requires Encodable(ss) && EncodableSequence(s)
    ensures Encodable(ss + [s])
    ensures EncodeSequences(ss + [s]) == EncodeSequences(ss) + EncodeSequence(s)
  {
  }

  /** `p` lies in `input` from position `ip` on. */
  ghost predicate At(input: seq<byte>, ip: nat, p: seq<byte>) {
    ip + |p| <= |input| && forall k {:trigger p[k]} :: 0 <= k < |p| ==> input[ip + k] == p[k]
  }

  lemma {:induction false} AtSplit(input: seq<byte>, ip: nat, a: seq<byte>, b: seq<byte>)
    requires At(input, ip, a + b)
    ensures At(input, ip, a) && At(input, ip + |a|, b)
  {
    forall k | 0 <= k < |a| ensures input[ip + k] == a[k] { assert (a + b)[k] == a[k]; }
    forall k | 0 <= k < |b| ensures input[ip + |a| + k] == b[k] { assert (a + b)[|a| + k] == b[k]; }
  }

  lemma {:induction false} AtSlice(input: seq<byte>, ip: nat, p: seq<byte>)
    requires At(input, ip, p)
    ensures input[ip..ip + |p|] == p
  {
  }

  lemma {:induction false} LiteralLengthRoundTrip(input: seq<byte>, ip: nat, n: nat, base: nat)
    requires At(input, ip, Extension(n))
    ensures ReadLiteralLength(input, ip, base) == (base + n, ip + |Extension(n)|)
    decreases n
  {
    assert input[ip] == Extension(n)[0];
    if n >= 255 {
      AtSplit(input, ip, [255], Extension(n - 255));
      LiteralLengthRoundTrip(input, ip + 1, n - 255, base + 255);
    }
  }

  lemma {:induction false} MatchLengthRoundTrip(input: seq<byte>, ip: nat, n: nat, base: nat)
    requires At(input, ip, Extension(n)) && ip + |Extension(n)| <= |input| - (LASTLITERALS + 1)
    ensures ReadMatchLength(input, ip, base) == (base + n, ip + |Extension(n)|)
    decreases n
  {
    assert input[ip] == Extension(n)[0];
    if n >= 255 {
      AtSplit(input, ip, [255], Extension(n - 255));
      MatchLengthRoundTrip(input, ip + 1, n - 255, base + 255);
    }
  }

  /** Reading a literal part back: the run length, and where the literals lie. */
  lemma {:induction false} ReadLiteralPart(input: seq<byte>, ip: nat, token: byte, literals: seq<byte>)
    requires token / 16 == Nibble(|literals|)
    requires At(input, ip, LiteralPart(token, literals))
    ensures input[ip] == token
    ensures var end := ip + |LiteralPart(token, literals)|;
            && LiteralRun(input, ip) == (|literals|, end - |literals|)
            && At(input, end - |literals|, literals)
  {
    var e := LengthBytes(|literals|);
    AtSplit(input, ip, [token] + e, literals);
    AtSplit(input, ip, [token], e);
    assert input[ip] == [token][0];
    if token / 16 == RUN_MASK {
      LiteralLengthRoundTrip(input, ip + 1, |literals| - 15, RUN_MASK);
    }
  }

  /** Reading the back reference of a sequence: offset and match length. */
  lemma {:induction false} ReadMatchPart(input: seq<byte>, at: nat, s: Sequence)
    requires EncodableSequence(s)
    requires At(input, at, MatchPart(s)) && at + |MatchPart(s)| <= |input| - (LASTLITERALS + 1)
    ensures ReadOffset(input, at) == s.offset
    ensures MatchRun(Token(s), input, at + 2) == (s.matchLength, at + |MatchPart(s)|)
  {
    var e := LengthBytes(s.matchLength - 4);
    AtSplit(input, at, OffsetBytes(s), e);
    assert ReadOffset(input, at) == s.offset by {
      assert input[at] == OffsetBytes(s)[0] && input[at + 1] == OffsetBytes(s)[1];
    }
    hide ReadOffset, OffsetBytes, At, Extension, ReadMatchLength;
    TokenNibbles(s);
    hide Token;
    if Nibble(s.matchLength - 4) == ML_MASK {
      MatchLengthRoundTrip(input, at + 2, s.matchLength - 4 - 15, ML_MASK);
    }
  }

  lemma {:induction false} SequenceParts(s: Sequence)
    requires EncodableSequence(s)
    ensures EncodeSequence(s) == LiteralPart(Token(s), s.literals) + MatchPart(s)
    ensures |EncodeSequence(s)| == |LiteralPart(Token(s), s.literals)| + |MatchPart(s)|
    ensures |MatchPart(s)| >= 2 && 1 <= s.offset && LASTLITERALS == 5
    ensures Token(s) / 16 == Nibble(|s.literals|)
  {
  }

  lemma {:induction false} StepFromParts(input: seq<byte>, ip: nat, literals: seq<byte>, at: nat, offset: nat, n: nat,
                                         end: nat,
                      out: seq<byte>, cap: nat)
    requires ip < |input| && |literals| <= at <= |input| - 8
    requires LiteralRun(input, ip) == (|literals|, at - |literals|) && At(input, at - |literals|, literals)
    requires ReadOffset(input, at) == offset && MatchRun(input[ip], input, at + 2) == (n, end)
    requires 1 <= offset <= |out| + |literals| <= cap - MFLIMIT
    requires |out| + |literals| + n <= cap - LASTLITERALS
    ensures DecodeStep(input, ip, out, cap) == Next(end, CopyMatch(out + literals, offset, n))
  {
    AtSlice(input, at - |literals|, literals);
    hide CopyMatch, LiteralRun, MatchRun, ReadOffset, At;
  }

  /** One sequence, decoded in any block that leaves room for the final literals. */
  lemma {:induction false} DecodeOneSequence(input: seq<byte>, ip: nat, literals: seq<byte>, offset: nat, n: nat,
                          out: seq<byte>, cap: nat)
    requires EncodableSequence(Sequence(literals, offset, n))
    requires var code := EncodeSequence(Sequence(literals, offset, n));
             At(input, ip, code) && ip + |code| <= |input| - (LASTLITERALS + 1)
    requires offset <= |out| + |literals| <= cap - MFLIMIT
    requires |out| + |literals| + n <= cap - LASTLITERALS
    ensures DecodeStep(input, ip, out, cap)
         == Next(ip + |EncodeSequence(Sequence(literals, offset, n))|, CopyMatch(out + literals, offset, n))
  {
    var s := Sequence(literals, offset, n);
    var at := ip + |LiteralPart(Token(s), literals)|;
    SequenceParts(s);
    AtSplit(input, ip, LiteralPart(Token(s), literals), MatchPart(s));
    ReadMatchPart(input, at, s);
    ReadLiteralPart(input, ip, Token(s), literals);
    StepFromParts(input, ip, literals, at, offset, n, at + |MatchPart(s)|, out, cap);
  }

  /** The closing literals finish the block. */
  lemma {:induction false} DecodeLast(input: seq<byte>, ip: nat, literals: seq<byte>, out: seq<byte>, cap: nat)
    requires At(input, ip, EncodeLast(literals)) && ip + |EncodeLast(literals)| == |input|
    requires |out| + |literals| <= cap
    ensures DecodeStep(input, ip, out, cap) == Final(Done(out + literals))
  {
    ReadLiteralPart(input, ip, 16 * Nibble(|literals|), literals);
    AtSlice(input, |input| - |literals|, literals);
    assert input[|input| - |literals|..] == input[|input| - |literals|..|input|];
  }

  /** A list of sequences by its last. */
  lemma {:induction false} ByLast(ss: seq<Sequence>, n: nat)
    requires WellFormed(ss, n) && Encodable(ss) && ss != []
    ensures var init, s := ss[..|ss| - 1], ss[|ss| - 1];
            && WellFormed(init, n) && Encodable(init) && EncodableSequence(s)
            && EncodeSequences(ss) == EncodeSequences(init) + EncodeSequence(s)
            && 1 <= s.offset <= |Expand(init)| + |s.literals| <= n - MFLIMIT
            && |Expand(init)| + |s.literals| + s.matchLength <= n - LASTLITERALS
            && Expand(ss) == CopyMatch(Expand(init) + s.literals, s.offset, s.matchLength)
  {
  }

  lemma {:induction false} DecodeSequences(input: seq<byte>, ss: seq<Sequence>, n: nat, cap: nat)
    requires WellFormed(ss, n) && n <= cap
    requires Encodable(ss)
    requires At(input, 0, EncodeSequences(ss)) && |EncodeSequences(ss)| <= |input| - (LASTLITERALS + 1)
    ensures Decode(input, 0, [], cap) == Decode(input, |EncodeSequences(ss)|, Expand(ss), cap)
    decreases |ss|
  {
    hide EncodeSequence, EncodeSequences, Expand, WellFormed, Encodable, DecodeStep, Decode, CopyMatch, At;
    if ss == [] {
      NoSequences();
    } else {
      ByLast(ss, n);
      var init, s := ss[..|ss| - 1], ss[|ss| - 1];
      AtSplit(input, 0, EncodeSequences(init), EncodeSequence(s));
      DecodeSequences(input, init, n, cap);
      var at := |EncodeSequences(init)|;
      DecodeOneSequence(input, at, s.literals, s.offset, s.matchLength, Expand(init), cap);
      DecodeOn(input, at, Expand(init), cap);
    }
  }

  lemma {:induction false} NoSequences()
    ensures EncodeSequences([]) == [] && Expand([]) == []
  {
  }

  lemma {:induction false} DecodeOn(input: seq<byte>, ip: nat, out: seq<byte>, cap: nat)
    requires ip < |input| && DecodeStep(input, ip, out, cap).Next?
    ensures var step := DecodeStep(input, ip, out, cap);
            step.ip < |input| && Decode(input, ip, out, cap) == Decode(input, step.ip, step.out, cap)
  {
  }

  /**
    Round trip at the level of the format: a block built from well-formed sequences and
    closing literals decodes to what it stands for, whatever room beyond `n` bytes is offered.
    `literals` carries at least LASTLITERALS bytes unless there is no back reference at all.
   */
  lemma {:induction false} BlockRoundTrip(ss: seq<Sequence>, literals: seq<byte>, n: nat, cap: nat)
    requires WellFormed(ss, n)
    requires Encodable(ss)
    requires |Expand(ss)| + |literals| == n <= cap
    requires ss == [] || LASTLITERALS <= |literals|
    ensures var block := EncodeSequences(ss) + EncodeLast(literals);
            |block| > 0 && Decode(block, 0, [], cap) == Done(Expand(ss) + literals)
  {
    var a, b := EncodeSequences(ss), EncodeLast(literals);
    var block := a + b;
    AtSplit(block, 0, a, b);
    if ss != [] { DecodeSequences(block, ss, n, cap); }
    DecodeLast(block, |a|, literals, Expand(ss), cap);
  }
}
