/**
  Which inputs the compressor can be led past its limit by: none shorter than 5652 bytes, and one
  of every length from there on.
 */
module Lz4Overshoot {
  import opened Lz4Format
  import opened Lz4Encoder

  /** The limit of the example: byte 5655 is the first past it. */
  const LIMIT: nat := 5655

  /** Blocks of four bytes whose words are all different for a while: a zero, a two-digit number, a one. */
  function Plain(p: nat): byte {
    var j := p / 4;
    match p % 4
    case 0 => 0
    case 1 => 1 + j / 100 % 200
    case 2 => 1 + j % 100
    case _ => 1
  }

  /** Plain bytes, but for six that repeat what is thirteen bytes before. */
  function InputByte(p: nat): byte {
    if 5625 <= p < 5631 then Plain(p - 13) else Plain(p)
  }

  function Input(n: nat): (data: seq<byte>)
    ensures |data| == n && forall p :: 0 <= p < n ==> data[p] == InputByte(p)
  {
    seq(n, p requires 0 <= p => InputByte(p))
  }

  lemma {:induction false} PlainIs(j: nat, r: nat)
    requires r < 4
    ensures Plain(4 * j + r) == match r case 0 => 0 case 1 => 1 + j / 100 % 200 case 2 => 1 + j % 100 case _ => 1
  {
    assert (4 * j + r) / 4 == j && (4 * j + r) % 4 == r;
  }

  /** No four bytes of the plain part occur twice: where they differ. */
  lemma {:induction false} PlainDiffers(p: nat, q: nat) returns (k: nat)
    requires p < q <= 5621
    ensures k < 4 && Plain(p + k) != Plain(q + k)
  {
    var s, t, i, j := p % 4, q % 4, p / 4, q / 4;
    if s != t {
      k := (4 - s) % 4;
      assert (p + k) % 4 == 0 && (q + k) % 4 != 0;
    } else {
      assert p == 4 * i + s && q == 4 * j + s && i < j <= 1405;
      k := PlainBlocks(i, j, s);
    }
  }

  /** Words at the same place of two blocks: each has a number's lower digit, and the upper of it or of the next. */
  lemma {:induction false} PlainBlocks(i: nat, j: nat, s: nat) returns (k: nat)
    requires i < j <= 1405 && s < 4
    ensures k < 4 && Plain(4 * i + s + k) != Plain(4 * j + s + k)
  {
    match s
    case 0 => k := DigitsDiffer(i, j, 0); k := if k == 0 then 1 else 2;
    case 1 => k := DigitsDiffer(i, j, 0); k := if k == 0 then 0 else 1;
    case 2 => k := DigitsDiffer(i, j, 1); k := if k == 0 then 3 else 0;
    case _ => k := DigitsDiffer(i + 1, j + 1, 0); k := if k == 0 then 2 else 3;
  }

  /** Of block `a` the lower digit, of block `a + e` the upper: one tells two blocks apart. */
  lemma {:induction false} DigitsDiffer(a: nat, b: nat, e: nat) returns (which: nat)
    requires a < b <= 1406 && e <= 1
    ensures which <= 1
    ensures if which == 0 then Plain(4 * (a + e) + 1) != Plain(4 * (b + e) + 1)
            else Plain(4 * a + 2) != Plain(4 * b + 2)
  {
    PlainIs(a, 2);
    PlainIs(b, 2);
    PlainIs(a + e, 1);
    PlainIs(b + e, 1);
    hide Plain;
    which := 1;
    if a % 100 == b % 100 {
      Digits(a, b, e);
      which := 0;
    }
  }

  lemma {:induction false} Digits(a: nat, b: nat, e: int)
    requires a < b <= 1406 && a % 100 == b % 100 && 0 <= e <= 1
    ensures (a + e) / 100 % 200 != (b + e) / 100 % 200
  {
  }

  /** So no probe before 5627 finds an equal word behind it. */
  lemma {:induction false} WordsDiffer(n: nat, p: nat, q: nat)
    requires 5652 <= n && p < q <= 5621
    ensures A32(Input(n), p) != A32(Input(n), q)
  {
    var data := Input(n);
    var k := PlainDiffers(p, q);
    A32Equal(data, q, q - p);
    hide A32, Plain;
    assert data[q + k] == Plain(q + k) && data[q + k - (q - p)] == Plain(p + k);
  }

  /** The probe at 5614 leaves the table entry that the probe at 5627 finds. */
  lemma {:induction false} LastProbes(n: nat, t: seq<nat>)
    requires 5652 <= n && TableBelow(t, 5614)
    ensures Search(Input(n), t, 5614, 880) == Match(5627, 5614)
  {
    var data := Input(n);
    var t' := t[Hash(data, 5614) := 5614];
    A32Equal(data, 5627, 13);
    assert A32(data, 5614) == A32(data, 5627);
    WordsDiffer(n, t[Hash(data, 5614)], 5614);
    assert Hash(data, 5614) == Hash(data, 5627);
    hide A32, Hash;
    assert TableBelow(t', 5627);
    assert Search(data, t', 5627, 881) == Match(5627, 5614);
  }

  lemma {:induction false} SearchGoesOn(data: seq<byte>, t: seq<nat>, ip: nat, a: nat)
    requires TableBelow(t, ip) && SKIP <= a && ip + a / SKIP <= |data| - MFLIMIT &&
             A32(data, t[Hash(data, ip)]) != A32(data, ip)
    ensures TableBelow(t[Hash(data, ip) := ip], ip + a / SKIP)
    ensures Search(data, t, ip, a) == Search(data, t[Hash(data, ip) := ip], ip + a / SKIP, a + 1)
  {
    hide A32, Hash;
  }

  /** From any earlier probe, whatever the table holds, the search gets there. */
  lemma {:induction false} SearchArrives(n: nat, t: seq<nat>, ip: nat, a: nat)
    requires 5652 <= n && 67 <= a <= 880 && ip == 1 + Probe(a) <= 5614 && TableBelow(t, ip)
    ensures Search(Input(n), t, ip, a) == Match(5627, 5614)
    decreases 880 - a
  {
    hide A32, Hash, Probe, Search, Input;
    var data := Input(n);
    if a == 880 {
      assert Probe(880) == 5613 by { ProbesBefore(880); }
      LastProbes(n, t);
    } else {
      ProbeStep(a);
      ProbesBefore(a + 1);
      WordsDiffer(n, t[Hash(data, ip)], ip);
      SearchGoesOn(data, t, ip, a);
      SearchArrives(n, t[Hash(data, ip) := ip], ip + a / SKIP, a + 1);
    }
  }

  lemma {:induction false} ProbesBefore(a: nat)
    requires 67 <= a <= 880
    ensures 0 <= Probe(a) <= 5613 && Probe(880) == 5613
    decreases 880 - a
  {
    if a < 880 {
      ProbesBefore(a + 1);
      ProbeStep(a);
    }
    LowProbe(a);
  }

  lemma {:induction false} LowProbe(a: nat)
    requires 67 <= a
    ensures Probe(a) >= 0
  {
    var q, r := a / 64, a % 64;
    if q >= 2 { assert q * (q - 1) >= 2; }
  }

  /** The first run of literals has 5625 bytes. */
  lemma {:induction false} InputRun(n: nat)
    requires 5652 <= n
    ensures First(Input(n)).Match? && FirstRun(Input(n)) == 5625
  {
    var data := Input(n);
    ProbeStep(67);
    SearchArrives(n, Empty(), 1, 67);
    assert First(data) == Match(5627, 5614);
    hide Search, Plain;
    assert Plain(5624) != Plain(5611);
    assert Back(data, 0, 5625, 5612) == 5625;
    assert Back(data, 0, 5626, 5613) == 5625;
  }

  /** Some input of `n` bytes makes the compressor copy literals past some limit exactly if `n` is at least 5652. */
  lemma {:induction false} OvershootsIff(n: nat)
    ensures (exists data: seq<byte>, limit: nat :: |data| == n && FirstPast(data, limit)) <==> n >= 5652
    ensures n >= 5652 ==> FirstPast(Input(n), LIMIT)
  {
    hide FirstPast;
    if n >= 5652 {
      InputRun(n);
      LengthBytesSize(5625);
      assert PastLimit(0, 5625, LIMIT);
      assert |Input(n)| == n && FirstPast(Input(n), LIMIT) by { IsFirstPast(Input(n), LIMIT); }
    } else {
      forall data: seq<byte>, limit: nat | |data| == n && FirstPast(data, limit) ensures false {
        ShortStays(data, limit);
      }
    }
  }

  lemma {:induction false} IsFirstPast(data: seq<byte>, limit: nat)
    requires MINLENGTH <= |data| && First(data).Match? && PastLimit(0, FirstRun(data), limit)
    ensures FirstPast(data, limit)
  {
  }

  lemma {:induction false} ShortStays(data: seq<byte>, limit: nat)
    requires FirstPast(data, limit)
    ensures |data| >= 5652
  {
    var f, length := First(data), FirstRun(data);
    ProbeStep(67);
    SearchProbes(data, Empty(), 1, 67, 1);
    ProbedRun(|data|, 0, length, f.ip);
    BlindCopyInsideIff(0, length);
  }

  /**
    A call that stores past its limit: byte 5655 of the output is there before the call with a
    value of zero, and is one after it.
   */
  method Overshoot(n: nat, dst: array<byte>) returns (data: seq<byte>, r: nat)
    requires 5652 <= n <= INT_MAX && LIMIT + Slack(n) <= dst.Length && dst[LIMIT] == 0
    modifies dst
    ensures |data| == n && r == 0 && dst[LIMIT] == 1
  {
    hide Search, FirstRun, First, Spilled, FirstPast, Example, Block, WellFormed, CompressBound;
    data := Example(n);
    ghost var ss, last;
    r, ss, last := CompressLimitedOutput(data, dst, LIMIT);
    SpilledThere(n, dst[..]);
  }

  /** An input of that length whose first literals go past the limit. */
  function Example(n: nat): (data: seq<byte>)
    requires 5652 <= n
    ensures |data| == n && FirstPast(data, LIMIT)
  {
    OvershootsIff(n);
    Input(n)
  }

  lemma {:induction false} SpilledThere(n: nat, out: seq<byte>)
    requires 5652 <= n && Spilled(Example(n), out, 0, 0, FirstRun(Example(n)), LIMIT)
    ensures LIMIT < |out| && out[LIMIT] == 1
  {
    OvershootsIff(n);
    InputRun(n);
    LengthBytesSize(5625);
    hide Search, FirstRun, First;
    assert out[LIMIT] == Example(n)[5631];
    assert Plain(5631) == 1;
  }
}
