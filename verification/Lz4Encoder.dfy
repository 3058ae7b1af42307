/**
  The hash-table LZ4 compressor with limited output: match finder, token, length and
  offset emission, closing literals.  Every block it returns is a well-formed block that
  stands for the input, hence decodes to it.
 */
module Lz4Encoder {
  import opened Lz4Format
  import Lz4Decoder

  const TABLESIZE: nat := 4096
  const MINLENGTH: int := 13
  const SKIP: nat := 64   // 1 << SKIPSTRENGTH
  const INT_MAX: int := 0x7FFF_FFFF

  // ------------------------------------------------------- reading words

  function A16(data: seq<byte>, p: nat): (r: nat)
    requires p + 2 <= |data|
    ensures r < 0x1_0000
  {
    (data[p] as int) + 0x100 * (data[p + 1] as int)
  }

  function A32(data: seq<byte>, p: nat): (r: nat)
    requires p + 4 <= |data|
    ensures r < 0x1_0000_0000
  {
    A16(data, p) + 0x1_0000 * A16(data, p + 2)
  }

  /** From `ip` up to `end` every byte equals the one `d` before it. */
  ghost predicate MatchesBack(data: seq<byte>, ip: nat, end: nat, d: nat) {
    d <= ip <= end <= |data| && forall k {:trigger data[k]} :: ip <= k < end ==> data[k] == data[k - d]
  }

  lemma {:induction false} MatchesSplit(data: seq<byte>, a: nat, b: nat, c: nat, d: nat)
    requires d <= a <= b <= c <= |data|
    ensures MatchesBack(data, a, c, d) <==> MatchesBack(data, a, b, d) && MatchesBack(data, b, c, d)
  {
  }

  lemma {:induction false} MatchesOne(data: seq<byte>, ip: nat, d: nat)
    requires d <= ip < |data|
    ensures MatchesBack(data, ip, ip + 1, d) <==> data[ip] == data[ip - d]
  {
  }

  lemma {:induction false} MatchesNone(data: seq<byte>, ip: nat, d: nat)
    requires d <= ip <= |data|
    ensures MatchesBack(data, ip, ip, d)
  {
  }

  /** Equal little-endian words are equal bytes. */
  lemma {:induction false} A16Equal(data: seq<byte>, ip: nat, d: nat)
    requires d <= ip && ip + 2 <= |data|
    ensures A16(data, ip - d) == A16(data, ip) <==> MatchesBack(data, ip, ip + 2, d)
  {
  }

  lemma {:induction false} A32Equal(data: seq<byte>, ip: nat, d: nat)
    requires d <= ip && ip + 4 <= |data|
    ensures A32(data, ip - d) == A32(data, ip) <==> MatchesBack(data, ip, ip + 4, d)
  {
    A16Equal(data, ip, d);
    A16Equal(data, ip + 2, d);
    hide A16;
    assert MatchesBack(data, ip, ip + 4, d) <==>
           MatchesBack(data, ip, ip + 2, d) && MatchesBack(data, ip + 2, ip + 4, d);
  }

  /** The multiplicative hash on 32-bit words, keeping the top 12 bits. */
  function Hash(data: seq<byte>, p: nat): (h: nat)
    requires p + 4 <= |data|
    ensures h < TABLESIZE
  {
    (A32(data, p) * 2654435761) % 0x1_0000_0000 / 0x10_0000
  }

  /** The upper 12 of the 32 bits of the product: what is left below them are 20 bits. */
  lemma {:induction false} HashBits(data: seq<byte>, p: nat) returns (high: nat, low: nat)
    requires p + 4 <= |data|
    ensures Hash(data, p) < 4096 && low < 0x10_0000
    ensures A32(data, p) * 2654435761 == 0x1_0000_0000 * high + 0x10_0000 * Hash(data, p) + low
  {
    var product := A32(data, p) * 2654435761;
    high, low := product / 0x1_0000_0000, product % 0x1_0000_0000 % 0x10_0000;
  }

  /** Four bytes as a word, the first the least. */
  lemma {:induction false} WordOfBytes(data: seq<byte>, p: nat)
    requires p + 4 <= |data|
    ensures var (b0, b1, b2, b3) := (data[p] as int, data[p + 1] as int, data[p + 2] as int, data[p + 3] as int);
            A32(data, p) == b0 + 256 * (b1 + 256 * (b2 + 256 * b3))
  {
  }

  ghost predicate TableBelow(t: seq<nat>, ip: nat) {
    |t| == TABLESIZE && forall h {:trigger t[h]} :: 0 <= h < TABLESIZE ==> t[h] < ip
  }

  // ------------------------------------------------------ matching forward

  /**
    The number of leading bytes the `n`-byte words at `ip - d` and `ip` share: on a
    little-endian machine, the trailing zero bits of their exclusive or divided by eight.
   */
  function NbCommonBytes(data: seq<byte>, ip: nat, d: nat, n: nat): (r: nat)
    requires d <= ip && ip + n <= |data|
    ensures r <= n && MatchesBack(data, ip, ip + r, d)
    ensures r < n ==> data[ip + r] != data[ip + r - d]
    decreases n
  {
    hide *;
    MatchesNone(data, ip, d);
    if n > 0 && data[ip] == data[ip - d] then
      var m := NbCommonBytes(data, ip + 1, d, n - 1);
      MatchesOne(data, ip, d);
      MatchesSplit(data, ip, ip + 1, ip + (1 + m), d);
      1 + m
    else 0
  }

  /**
    Extend a match from `ip0` for as long as bytes agree, never past `matchlimit`: eight bytes
    at a time, then a last four, two and one.
   */
  method CountMatch(data: seq<byte>, ip0: nat, d: nat, matchlimit: nat) returns (ip: nat)
    requires d <= ip0 <= matchlimit && matchlimit + LASTLITERALS <= |data|
    ensures ip0 <= ip <= matchlimit && MatchesBack(data, ip0, ip, d)
    ensures ip < matchlimit ==> data[ip] != data[ip - d]
  {
    ip := ip0;
    hide NbCommonBytes;
    while ip < matchlimit - 7
      invariant ip0 <= ip <= matchlimit && MatchesBack(data, ip0, ip, d)
    {
      var same := NbCommonBytes(data, ip, d, 8);
      MatchesSplit(data, ip0, ip, ip + same, d);
      ip := ip + same;
      if same < 8 { return; }
    }
    ip := CountTail(data, ip0, ip, d, matchlimit);
  }

  /** The last seven bytes at most: four, two, one. */
  method CountTail(data: seq<byte>, ghost ip0: nat, ip1: nat, d: nat, matchlimit: nat) returns (ip: nat)
    requires d <= ip0 <= ip1 <= matchlimit <= ip1 + 7 && matchlimit + LASTLITERALS <= |data|
    requires MatchesBack(data, ip0, ip1, d)
    ensures ip0 <= ip <= matchlimit && MatchesBack(data, ip0, ip, d)
    ensures ip < matchlimit ==> data[ip] != data[ip - d]
  {
    hide A32, A16, MatchesBack;
    ip := ip1;
    if ip < matchlimit - 3 {
      A32Equal(data, ip, d);
      if A32(data, ip - d) == A32(data, ip) {
        MatchesSplit(data, ip0, ip, ip + 4, d);
        ip := ip + 4;
      } else {
        MatchesSplit(data, ip, ip + 2, ip + 4, d);
      }
    }
    assert ip <= matchlimit - 4 ==> !(MatchesBack(data, ip, ip + 2, d) && MatchesBack(data, ip + 2, ip + 4, d));
    if ip < matchlimit - 1 {
      A16Equal(data, ip, d);
      if A16(data, ip - d) == A16(data, ip) {
        MatchesSplit(data, ip0, ip, ip + 2, d);
        ip := ip + 2;
      }
    }
    assert ip <= matchlimit - 2 ==> !MatchesBack(data, ip, ip + 2, d);
    if ip < matchlimit {
      MatchesOne(data, ip, d);
      if data[ip - d] == data[ip] {
        MatchesSplit(data, ip0, ip, ip + 1, d);
        if ip + 1 < matchlimit {
          MatchesSplit(data, ip, ip + 1, ip + 2, d);
          MatchesOne(data, ip + 1, d);
        }
        ip := ip + 1;
      }
    }
  }

  /** Match finder result: no match before mflimit, or a position and an earlier reference. */
  datatype Found = NoMatch | Match(ip: nat, ref: nat)

  ghost predicate GoodMatch(data: seq<byte>, ip: nat, ref: nat) {
    ref < ip <= ref + MAX_DISTANCE && ip <= |data| - MFLIMIT && MatchesBack(data, ip, ip + MINMATCH, ip - ref)
  }

  /** How far the probe of attempt `a` lies behind the first, which is attempt 67: the step is `a / SKIP`. */
  function Probe(a: nat): int {
    SKIP / 2 * (a / SKIP) * (a / SKIP - 1) + a % SKIP * (a / SKIP) - 3
  }

  lemma {:induction false} ProbeStep(a: nat)
    ensures Probe(67) == 0 && Probe(a + 1) == Probe(a) + a / SKIP
  {
    var q, r := a / 64, a % 64;
    if r == 63 {
      assert (a + 1) / 64 == q + 1 && (a + 1) % 64 == 0;
      assert 32 * (q + 1) * q == 32 * q * (q - 1) + 64 * q;
    } else {
      assert (a + 1) / 64 == q && (a + 1) % 64 == r + 1;
      assert (r + 1) * q == r * q + q;
    }
  }

  /** The search has stopped at one of its probes, and the probe after it is not too close to the end. */
  ghost predicate Probed(n: nat, ip0: nat, ip: nat) {
    exists a: nat :: 67 <= a && ip == ip0 + Probe(a) && ip0 + Probe(a + 1) <= n - MFLIMIT
  }

  /** The first probe that is 5624 or more bytes behind the first lies at 5626, and the next at 5639. */
  lemma {:induction false} LongProbe(a: nat)
    requires 67 <= a
    ensures Probe(a) >= 5624 ==> Probe(a + 1) >= 5639
  {
    var q, r := a / 64, a % 64;
    ProbeStep(a);
    if q <= 12 {
      assert q * (q - 1) <= 12 * 11 && r * q <= 63 * 12;
    } else if q >= 14 {
      assert q * (q - 1) >= 14 * 13;
    }
  }

  /** The search, with the table's contents `t`, from attempt `a` at `ip` on. */
  function Search(data: seq<byte>, t: seq<nat>, ip: nat, a: nat): (f: Found)
    requires TableBelow(t, ip) && ip + 4 <= |data| && SKIP <= a
    ensures f.Match? ==> ip <= f.ip && GoodMatch(data, f.ip, f.ref) && f.ip < |data| - MFLIMIT
    decreases |data| - ip
  {
    var next := ip + a / SKIP;
    if next > |data| - MFLIMIT then NoMatch
    else
      var ref := t[Hash(data, ip)];
      A32Equal(data, ip, ip - ref);
      if !(ref < ip - MAX_DISTANCE || A32(data, ref) != A32(data, ip)) then Match(ip, ref)
      else Search(data, t[Hash(data, ip) := ip], next, a + 1)
  }

  /** The table that a successful search leaves. */
  function SearchTable(data: seq<byte>, t: seq<nat>, ip: nat, a: nat): (r: seq<nat>)
    requires TableBelow(t, ip) && ip + 4 <= |data| && SKIP <= a
    ensures Search(data, t, ip, a).Match? ==> TableBelow(r, Search(data, t, ip, a).ip + 1)
    decreases |data| - ip
  {
    hide A32, MatchesBack;
    var next, ref, t' := ip + a / SKIP, t[Hash(data, ip)], t[Hash(data, ip) := ip];
    if next > |data| - MFLIMIT || Search(data, t, ip, a) == Match(ip, ref) then t'
    else SearchTable(data, t', next, a + 1)
  }

  lemma {:induction false} SearchProbes(data: seq<byte>, t: seq<nat>, ip: nat, a: nat, ip0: nat)
    requires TableBelow(t, ip) && ip + 4 <= |data| && 67 <= a && ip == ip0 + Probe(a)
    ensures Search(data, t, ip, a).Match? ==> Probed(|data|, ip0, Search(data, t, ip, a).ip)
    decreases |data| - ip
  {
    ProbeStep(a);
    hide Hash, Probe;
    var next := ip + a / SKIP;
    if next <= |data| - MFLIMIT {
      var t' := t[Hash(data, ip) := ip];
      if Search(data, t, ip, a) == Search(data, t', next, a + 1) { SearchProbes(data, t', next, a + 1, ip0); }
    }
  }

  /** The search from `ip0` on comes by `ip` on attempt `a`, with the table changed to `t`. */
  ghost predicate SearchedTo(data: seq<byte>, t0: seq<nat>, ip0: nat, t: seq<nat>, ip: nat, a: nat) {
    && TableBelow(t0, ip0) && TableBelow(t, ip) && ip0 + 4 <= |data| && ip + 4 <= |data| && SKIP <= a
    && Search(data, t0, ip0, 67) == Search(data, t, ip, a)
    && (Search(data, t0, ip0, 67).Match? ==> SearchTable(data, t0, ip0, 67) == SearchTable(data, t, ip, a))
  }

  lemma {:induction false} SearchStarts(data: seq<byte>, t: seq<nat>, ip: nat)
    requires TableBelow(t, ip) && ip + 4 <= |data|
    ensures SearchedTo(data, t, ip, t, ip, 67)
  {
  }

  /** One attempt: no room for the next, a match here, or on to the next. */
  lemma {:induction false} SearchGoes(data: seq<byte>, t0: seq<nat>, ip0: nat, t: seq<nat>, ip: nat, a: nat)
    requires SearchedTo(data, t0, ip0, t, ip, a)
    ensures TableBelow(t0, ip0) && TableBelow(t, ip) && ip0 + 4 <= |data| && ip + 4 <= |data| && SKIP <= a
    ensures var next, t', ref := ip + a / SKIP, t[Hash(data, ip) := ip], t[Hash(data, ip)];
            if next > |data| - MFLIMIT then Search(data, t0, ip0, 67) == NoMatch
            else if !(ref < ip - MAX_DISTANCE || A32(data, ref) != A32(data, ip)) then
              Search(data, t0, ip0, 67) == Match(ip, ref) && SearchTable(data, t0, ip0, 67) == t'
            else SearchedTo(data, t0, ip0, t', next, a + 1)
  {
    hide A32, MatchesBack;
  }

  /** Step forward, faster and faster, until a table entry names an equal 32-bit word close enough behind. */
  method FindMatch(data: seq<byte>, table: array<nat>, ip0: nat, h0: nat) returns (f: Found)
    requires table.Length == TABLESIZE && TableBelow(table[..], ip0)
    requires MINLENGTH <= |data| && ip0 + 4 <= |data| && h0 == Hash(data, ip0)
    modifies table
    ensures f == Search(data, old(table[..]), ip0, 67)
    ensures f.Match? ==> ip0 <= f.ip && GoodMatch(data, f.ip, f.ref) && f.ip < |data| - MFLIMIT
    ensures f.Match? ==> TableBelow(table[..], f.ip + 1) && Probed(|data|, ip0, f.ip)
    ensures f.Match? ==> table[..] == SearchTable(data, old(table[..]), ip0, 67)
  {
    var findMatchAttempts := SKIP + 3;
    var forwardIp: nat, forwardH, ip: nat := ip0, h0, ip0;
    var mflimit := |data| - MFLIMIT;
    ProbeStep(67);
    SearchProbes(data, table[..], ip0, 67, ip0);
    hide Hash, Probe, Probed, A32, MatchesBack, SearchedTo, Search, SearchTable;
    SearchStarts(data, table[..], ip0);
    while true
      invariant ip0 <= forwardIp && forwardIp + 4 <= |data| && findMatchAttempts >= 67
      invariant forwardH == Hash(data, forwardIp)
      invariant TableBelow(table[..], forwardIp)
      invariant SearchedTo(data, old(table[..]), ip0, table[..], forwardIp, findMatchAttempts)
      decreases |data| - forwardIp
    {
      var h := forwardH;
      var step := findMatchAttempts / SKIP;
      findMatchAttempts := findMatchAttempts + 1;
      ip := forwardIp;
      forwardIp := ip + step;
      ghost var t := table[..];
      SearchGoes(data, old(table[..]), ip0, t, ip, findMatchAttempts - 1);
      if forwardIp > mflimit { return NoMatch; }
      forwardH := Hash(data, forwardIp);
      var ref := table[h];
      table[h] := ip;
      assert table[..] == t[h := ip];
      if !(ref < ip - MAX_DISTANCE || A32(data, ref) != A32(data, ip)) {
        return Match(ip, ref);
      }
    }
  }

  /** Where a match at `ip` begins when it is extended backwards over bytes not yet emitted. */
  function Back(data: seq<byte>, anchor: nat, ip: nat, ref: nat): (r: nat)
    requires anchor <= ip <= |data| && ref < ip
    ensures anchor <= r <= ip && ip - r <= ref
    ensures anchor < r && ip - r < ref ==> data[r - 1] != data[r - 1 - (ip - ref)]
    decreases ip
  {
    if ip > anchor && ref > 0 && data[ip - 1] == data[ref - 1] then Back(data, anchor, ip - 1, ref - 1) else ip
  }

  /** Extend a match backwards over bytes not yet emitted. */
  method CatchUp(data: seq<byte>, anchor: nat, ip0: nat, ref0: nat) returns (ip: nat, ref: nat)
    requires anchor <= ip0 && GoodMatch(data, ip0, ref0)
    ensures ip == Back(data, anchor, ip0, ref0)
    ensures anchor <= ip <= ip0 && ip - ref == ip0 - ref0 && GoodMatch(data, ip, ref)
    ensures MatchesBack(data, ip, ip0 + MINMATCH, ip - ref)
  {
    ip, ref := ip0, ref0;
    hide MatchesBack;
    while ip > anchor && ref > 0 && data[ip - 1] == data[ref - 1]
      invariant anchor <= ip <= ip0 && ref >= 0 && ip - ref == ip0 - ref0
      invariant MatchesBack(data, ip, ip0 + MINMATCH, ip - ref)
      invariant Back(data, anchor, ip0, ref0) == Back(data, anchor, ip, ref)
    {
      MatchesOne(data, ip - 1, ip - ref);
      MatchesSplit(data, ip - 1, ip, ip0 + MINMATCH, ip - ref);
      ip, ref := ip - 1, ref - 1;
    }
    MatchesSplit(data, ip, ip + MINMATCH, ip0 + MINMATCH, ip - ref);
  }

  /** Where a match ends that begins at `ip`: at the first byte that differs, or before the last literals. */
  function Forward(data: seq<byte>, ip: nat, d: nat): (r: nat)
    requires d <= ip <= |data| - LASTLITERALS
    ensures ip <= r <= |data| - LASTLITERALS && MatchesBack(data, ip, r, d)
    ensures r < |data| - LASTLITERALS ==> data[r] != data[r - d]
    decreases |data| - ip
  {
    hide MatchesBack;
    MatchesNone(data, ip, d);
    if ip < |data| - LASTLITERALS && data[ip] == data[ip - d] then
      var r := Forward(data, ip + 1, d);
      MatchesOne(data, ip, d);
      MatchesSplit(data, ip, ip + 1, r, d);
      r
    else ip
  }

  lemma {:induction false} ForwardIs(data: seq<byte>, ip: nat, d: nat, r: nat)
    requires d <= ip <= r <= |data| - LASTLITERALS && MatchesBack(data, ip, r, d)
    requires r < |data| - LASTLITERALS ==> data[r] != data[r - d]
    ensures r == Forward(data, ip, d)
  {
  }

  // -------------------------------------------------------- the greedy plan

  /** The sequence stands for the input from `anchor` to `end`, and keeps to the rules for its end. */
  ghost predicate Covers(data: seq<byte>, anchor: nat, s: Sequence, end: nat) {
    var from := anchor + |s.literals|;
    && EncodableSequence(s) && end == from + s.matchLength && s.offset <= from
    && from <= |data| - MFLIMIT && end <= |data| - LASTLITERALS
    && s.literals == data[anchor..from] && MatchesBack(data, from, end, s.offset)
  }

  /** The sequence that a match at `at` gives behind literals that begin at `anchor`. */
  function Piece(data: seq<byte>, anchor: nat, at: nat, ref: nat): (s: Sequence)
    requires anchor <= at && GoodMatch(data, at, ref)
    ensures Covers(data, anchor, s, anchor + |s.literals| + s.matchLength)
    ensures at < anchor + |s.literals| + s.matchLength
  {
    var from := Back(data, anchor, at, ref);
    BackMatches(data, anchor, at, ref);
    var end := Forward(data, from, at - ref);
    MaximalPast(data, from, at, end, at - ref);
    Sequence(data[anchor..from], at - ref, end - from)
  }

  lemma {:induction false} PieceIs(data: seq<byte>, anchor: nat, at: nat, ref: nat, from: nat, end: nat)
    requires anchor <= at && GoodMatch(data, at, ref)
    requires from == Back(data, anchor, at, ref) && end == Forward(data, from, at - ref)
    ensures from <= end && EncodableSequence(Sequence(data[anchor..from], at - ref, end - from))
    ensures Piece(data, anchor, at, ref) == Sequence(data[anchor..from], at - ref, end - from)
  {
    hide Back, Forward, MatchesBack;
    var s := Piece(data, anchor, at, ref);
  }

  /** Between sequences: the table, how far the input is done, and whether a match has just ended there. */
  datatype State = State(table: seq<nat>, ip: nat, adjacent: bool)

  datatype Turn = Ends | Goes(s: Sequence, next: State)

  ghost predicate Fine(data: seq<byte>, st: State) {
    && MINLENGTH <= |data| && st.ip <= |data| - LASTLITERALS && (st.adjacent ==> 2 <= st.ip)
    && TableBelow(st.table, if st.adjacent then st.ip else st.ip + 1)
  }

  function Put(data: seq<byte>, anchor: nat, at: nat, ref: nat, t: seq<nat>): (r: Turn)
    requires MINLENGTH <= |data| && anchor <= at && GoodMatch(data, at, ref) && TableBelow(t, at + 1)
    ensures r.Goes? && Covers(data, anchor, r.s, r.next.ip) && Fine(data, r.next) && r.next.adjacent && at < r.next.ip
  {
    var s := Piece(data, anchor, at, ref);
    Goes(s, State(t, anchor + |s.literals| + s.matchLength, true))
  }

  function SearchTurn(data: seq<byte>, t: seq<nat>, anchor: nat): (r: Turn)
    requires Fine(data, State(t, anchor, false))
    ensures r.Goes? ==>
            Covers(data, anchor, r.s, r.next.ip) && Fine(data, r.next) && r.next.adjacent && anchor < r.next.ip
  {
    match Search(data, t, anchor + 1, 67)
    case NoMatch => Ends
    case Match(at, ref) => Put(data, anchor, at, ref, SearchTable(data, t, anchor + 1, 67))
  }

  /** The table's two entries when a match has ended at `ip`, and the candidate found between them. */
  function AfterMatch(data: seq<byte>, t: seq<nat>, ip: nat): (r: (nat, seq<nat>))
    requires TableBelow(t, ip) && 2 <= ip && ip + 4 <= |data|
    ensures r.0 < ip && TableBelow(r.1, ip + 1)
  {
    var t' := t[Hash(data, ip - 2) := ip - 2];
    (t'[Hash(data, ip)], t'[Hash(data, ip) := ip])
  }

  /** A match has just ended at `ip`: another right here, or what the search finds. */
  function HereTurn(data: seq<byte>, t0: seq<nat>, ip: nat): (r: Turn)
    requires Fine(data, State(t0, ip, true)) && ip <= |data| - MFLIMIT
    ensures r.Goes? ==>
            Covers(data, ip, r.s, r.next.ip) && Fine(data, r.next) && r.next.adjacent && ip < r.next.ip
  {
    hide A32, Hash, MatchesBack, TableBelow, Covers, Search, SearchTurn, Put, AfterMatch;
    var (ref, t) := AfterMatch(data, t0, ip);
    A32Equal(data, ip, ip - ref);
    if ref >= ip - MAX_DISTANCE && A32(data, ref) == A32(data, ip) then Put(data, ip, ip, ref, t)
    else SearchTurn(data, t, ip)
  }

  /** The next sequence: a match right here if one has just ended, or the one that the search finds. */
  function Next(data: seq<byte>, st: State): (r: Turn)
    requires Fine(data, st)
    ensures r.Goes? ==>
            Covers(data, st.ip, r.s, r.next.ip) && Fine(data, r.next) && r.next.adjacent && st.ip < r.next.ip
  {
    if !st.adjacent then SearchTurn(data, st.table, st.ip)
    else if st.ip > |data| - MFLIMIT then Ends
    else HereTurn(data, st.table, st.ip)
  }

  /** All sequences from here on, and where the closing literals begin. */
  function Plan(data: seq<byte>, st: State): (r: (seq<Sequence>, nat))
    requires Fine(data, st)
    ensures Encodable(r.0) && st.ip <= r.1 <= |data| - LASTLITERALS
    decreases |data| - st.ip
  {
    hide Next, TableBelow, MatchesBack;
    match Next(data, st)
    case Ends => ([], st.ip)
    case Goes(s, next) =>
      var (ss, rest) := Plan(data, next);
      ([s] + ss, rest)
  }

  function Cost(s: Sequence): nat
    requires EncodableSequence(s)
  {
    3 + |LengthBytes(|s.literals|)| + |s.literals| + |LengthBytes(s.matchLength - 4)|
  }

  function Total(ss: seq<Sequence>): nat
    requires Encodable(ss)
  {
    if ss == [] then 0 else Cost(ss[0]) + Total(ss[1..])
  }

  /** After `ss0` the plan from `st0` on goes on with what takes `ss0` to `ss`, and then from `st` on. */
  ghost predicate Follows(data: seq<byte>, st0: State, ss0: seq<Sequence>, op0: nat, st: State, ss: seq<Sequence>,
                          op: nat)
  {
    && Fine(data, st0) && Fine(data, st)
    && ss0 + Plan(data, st0).0 == ss + Plan(data, st).0 && Plan(data, st0).1 == Plan(data, st).1
    && op0 + Total(Plan(data, st0).0) == op + Total(Plan(data, st).0)
  }

  /** The output from `op` on and a token with five closing literals do not fit. */
  ghost predicate Overfull(data: seq<byte>, st: State, op: nat, oend: nat) {
    Fine(data, st) && oend < op + Total(Plan(data, st).0) + 6
  }

  lemma {:induction false} BackMatches(data: seq<byte>, anchor: nat, ip: nat, ref: nat)
    requires anchor <= ip && GoodMatch(data, ip, ref)
    ensures var from := Back(data, anchor, ip, ref);
            MatchesBack(data, from, ip + MINMATCH, ip - ref)
    decreases ip
  {
    var d := ip - ref;
    if ip > anchor && ref > 0 && data[ip - 1] == data[ref - 1] {
      MatchesOne(data, ip - 1, d);
      MatchesSplit(data, ip - 1, ip, ip + MINMATCH, d);
      MatchesSplit(data, ip - 1, ip - 1 + MINMATCH, ip + MINMATCH, d);
      BackMatches(data, anchor, ip - 1, ref - 1);
      var from := Back(data, anchor, ip, ref);
      MatchesSplit(data, from, ip - 1, ip - 1 + MINMATCH, d);
      MatchesSplit(data, from, ip - 1, ip + MINMATCH, d);
    }
  }

  /** A match extended as far as it goes covers the word it was found by. */
  lemma {:induction false} MaximalPast(data: seq<byte>, from: nat, at: nat, ip: nat, d: nat)
    requires d <= from <= at <= |data| - MFLIMIT && MatchesBack(data, from, at + MINMATCH, d)
    requires from <= ip <= |data| - LASTLITERALS && (ip < |data| - LASTLITERALS ==> data[ip] != data[ip - d])
    ensures at < ip && from + MINMATCH <= ip
  {
  }

  /** One turn taken. */
  lemma {:induction false} Taken(data: seq<byte>, st: State, ss: seq<Sequence>, op: nat)
    requires Fine(data, st) && Next(data, st).Goes?
    ensures var turn := Next(data, st);
            Follows(data, st, ss, op, turn.next, ss + [turn.s], op + Cost(turn.s))
  {
    hide Next, Cost, Fine;
    var turn := Next(data, st);
    var rest := Plan(data, turn.next).0;
    assert ss + ([turn.s] + rest) == ss + [turn.s] + rest;
    assert ([turn.s] + rest)[1..] == rest;
  }

  /** The code's estimate of a length's continuation bytes is never above their number. */
  lemma {:induction false} EstimateBelow(length: nat)
    ensures length / 256 <= |LengthBytes(length)|
  {
    LengthBytesSize(length);
  }

  /** The two output checks made while a sequence is written. */
  ghost predicate Passes(op: nat, s: Sequence, oend: nat) {
    && LiteralCheck(op, |s.literals|, oend)
    && op + 1 + |LengthBytes(|s.literals|)| + |s.literals| + 8 + (s.matchLength - 4) / 256 <= oend
  }

  /** A sequence refused by one of the two checks makes the output too long, whatever comes after it. */
  lemma {:induction false} Refused(data: seq<byte>, st: State, op: nat, oend: nat)
    requires Fine(data, st) && Next(data, st).Goes? && !Passes(op, Next(data, st).s, oend)
    ensures Overfull(data, st, op, oend)
  {
    hide Next, LengthBytes, Fine;
    var turn := Next(data, st);
    EstimateBelow(|turn.s.literals|);
    EstimateBelow(turn.s.matchLength - 4);
    Taken(data, st, [], op);
  }

  lemma {:induction false} FollowsOn(data: seq<byte>, a: State, ssa: seq<Sequence>, opa: nat, b: State,
                                     ssb: seq<Sequence>, opb: nat, oend: nat)
    requires Follows(data, a, ssa, opa, b, ssb, opb)
    ensures forall c, ssc, opc :: Follows(data, b, ssb, opb, c, ssc, opc) ==> Follows(data, a, ssa, opa, c, ssc, opc)
    ensures Overfull(data, b, opb, oend) ==> Overfull(data, a, opa, oend)
  {
    hide Fine, Plan, Total;
  }

  lemma {:induction false} FollowsSelf(data: seq<byte>, st: State, ss: seq<Sequence>, op: nat)
    requires Fine(data, st)
    ensures Follows(data, st, ss, op, st, ss, op)
  {
  }

  /** No match right here: the search goes on from the same place. */
  lemma {:induction false} Missed(data: seq<byte>, t: seq<nat>, ip: nat, ss: seq<Sequence>, op: nat)
    requires Fine(data, State(t, ip, true)) && ip <= |data| - MFLIMIT
    requires var (ref, _) := AfterMatch(data, t, ip);
             !(ref >= ip - MAX_DISTANCE && A32(data, ref) == A32(data, ip))
    ensures var st := State(AfterMatch(data, t, ip).1, ip, false);
            Follows(data, State(t, ip, true), ss, op, st, ss, op)
  {
    hide A32, Hash, MatchesBack, TableBelow, Total, SearchTurn;
  }

  /** A match right here: written or refused. */
  lemma {:induction false} MatchedHere(data: seq<byte>, st: State, ref: nat, t: seq<nat>, ss: seq<Sequence>, op: nat,
                                       oend: nat)
    requires Fine(data, st) && st.adjacent && st.ip <= |data| - MFLIMIT && AfterMatch(data, st.table, st.ip) == (ref, t)
    requires ref >= st.ip - MAX_DISTANCE && A32(data, ref) == A32(data, st.ip) && GoodMatch(data, st.ip, ref)
    ensures var s := Piece(data, st.ip, st.ip, ref);
            && (!Passes(op, s, oend) ==> Overfull(data, st, op, oend))
            && forall ss', ip, op' :: Wrote(s, ss, st.ip, op, ss', ip, op') ==>
                 Follows(data, st, ss, op, State(t, ip, true), ss', op')
  {
    hide A32, Hash, MatchesBack, Piece, TableBelow, AfterMatch, Passes, Overfull, Follows, GoodMatch;
    assert Next(data, st) == Put(data, st.ip, st.ip, ref, t);
    if !Passes(op, Piece(data, st.ip, st.ip, ref), oend) { Refused(data, st, op, oend); }
    Taken(data, st, ss, op);
  }

  /** A match found by the search: written or refused. */
  lemma {:induction false} MatchedLater(data: seq<byte>, st: State, at: nat, ref: nat, t: seq<nat>, ss: seq<Sequence>,
                                        op: nat, oend: nat)
    requires Fine(data, st) && !st.adjacent && Search(data, st.table, st.ip + 1, 67) == Match(at, ref)
    requires t == SearchTable(data, st.table, st.ip + 1, 67)
    ensures GoodMatch(data, at, ref) && st.ip <= at
    ensures var s := Piece(data, st.ip, at, ref);
            && (!Passes(op, s, oend) ==> Overfull(data, st, op, oend))
            && forall ss', ip, op' :: Wrote(s, ss, st.ip, op, ss', ip, op') ==>
                 Follows(data, st, ss, op, State(t, ip, true), ss', op')
  {
    hide Search, SearchTable, A32, Hash, MatchesBack, Piece, TableBelow, Passes, Overfull, Follows, GoodMatch;
    assert Next(data, st) == Put(data, st.ip, at, ref, t);
    if !Passes(op, Piece(data, st.ip, at, ref), oend) { Refused(data, st, op, oend); }
    Taken(data, st, ss, op);
  }

  /** The search finds nothing more: this was all. */
  lemma {:induction false} SearchEnds(data: seq<byte>, st: State, ss: seq<Sequence>, op: nat)
    requires Follows(data, Start(), [], 0, st, ss, op) && !st.adjacent
    requires Search(data, st.table, st.ip + 1, 67).NoMatch?
    ensures (ss, st.ip) == Plan(data, Start())
  {
    hide Search, A32, MatchesBack, Total;
    var plan := Plan(data, Start()).0;
    assert Next(data, st).Ends?;
    assert [] + plan == plan && ss + [] == ss;
  }

  /** A match has ended too close to the end: this was all. */
  lemma {:induction false} RunEnds(data: seq<byte>, st: State, ss: seq<Sequence>, op: nat)
    requires Follows(data, Start(), [], 0, st, ss, op) && st.adjacent && st.ip > |data| - MFLIMIT
    ensures (ss, st.ip) == Plan(data, Start())
  {
    hide Search, A32, MatchesBack, Total;
    var plan := Plan(data, Start()).0;
    assert Next(data, st).Ends?;
    assert [] + plan == plan && ss + [] == ss;
  }

  lemma {:induction false} TotalMore(ss: seq<Sequence>, s: Sequence)
    requires Encodable(ss) && EncodableSequence(s)
    ensures Encodable(ss + [s]) && Total(ss + [s]) == Total(ss) + Cost(s)
    decreases |ss|
  {
    hide Cost, EncodableSequence;
    if ss != [] {
      TotalMore(ss[1..], s);
      assert (ss + [s])[1..] == ss[1..] + [s];
    } else {
      assert ss + [s] == [s] && [s][1..] == [];
    }
  }

  /** The sequences take that many bytes. */
  lemma {:induction false} TotalIsSize(ss: seq<Sequence>)
    requires Encodable(ss)
    ensures |EncodeSequences(ss)| == Total(ss)
    decreases |ss|
  {
    hide LengthBytes, EncodeSequence, Total, Cost;
    if ss != [] {
      var n := |ss| - 1;
      TotalIsSize(ss[..n]);
      TotalMore(ss[..n], ss[n]);
      assert ss[..n] + [ss[n]] == ss;
      SnocEncode(ss[..n], ss[n]);
      SizeOfOne(ss[n]);
    } else {
      NoneTotal();
    }
  }

  lemma {:induction false} SizeOfOne(s: Sequence)
    requires EncodableSequence(s)
    ensures |EncodeSequence(s)| == Cost(s)
  {
    hide LengthBytes;
  }

  lemma {:induction false} NoneTotal()
    ensures Total([]) == 0
  {
  }

  // -------------------------------------------------------------- emission

  lemma {:induction false} ExtensionLength(n: nat)
    ensures |Extension(n)| == n / 255 + 1
    decreases n
  {
    if n >= 255 { ExtensionLength(n - 255); }
  }

  /** One continuation byte of 255. */
  method Put255(dst: array<byte>, op: nat, n: nat, ghost lim: nat)
    requires n >= 255 && op < lim <= dst.Length
    modifies dst
    ensures dst[lim..] == old(dst[lim..])
    ensures dst[..op + 1] + Extension(n - 255) == old(dst[..op]) + Extension(n)
    ensures |Extension(n)| == 1 + |Extension(n - 255)|
  {
    dst[op] := 255;
    assert dst[..op + 1] == old(dst[..op]) + [255];
  }

  /** Continuation bytes of a literal length, one 255 at a time. */
  method WriteExtension(dst: array<byte>, op0: nat, n: nat, ghost lim: nat) returns (op: nat)
    requires op0 + n / 255 + 1 <= lim <= dst.Length
    modifies dst
    ensures dst[lim..] == old(dst[lim..])
    ensures op == op0 + |Extension(n)| <= lim && dst[..op] == old(dst[..op0]) + Extension(n)
  {
    var len := n;
    op := op0;
    ExtensionLength(n);
    while len >= 255
      invariant op + |Extension(len)| == op0 + |Extension(n)| <= lim && dst[lim..] == old(dst[lim..])
      invariant dst[..op] + Extension(len) == old(dst[..op0]) + Extension(n)
    {
      Put255(dst, op, len, lim);
      op, len := op + 1, len - 255;
    }
    dst[op] := len;
    op := op + 1;
    assert dst[..op] == dst[..op - 1] + Extension(len);
  }

  /** Continuation bytes of a match length, two at a time, then one, then the rest. */
  method WriteExtensionPairs(dst: array<byte>, op0: nat, n: nat, ghost lim: nat) returns (op: nat)
    requires op0 + n / 255 + 1 <= lim <= dst.Length
    modifies dst
    ensures dst[lim..] == old(dst[lim..])
    ensures op == op0 + |Extension(n)| <= lim && dst[..op] == old(dst[..op0]) + Extension(n)
  {
    var length := n;
    op := op0;
    ExtensionLength(n);
    while length > 509
      invariant op + |Extension(length)| == op0 + |Extension(n)| <= lim && dst[lim..] == old(dst[lim..])
      invariant dst[..op] + Extension(length) == old(dst[..op0]) + Extension(n)
    {
      Put255(dst, op, length, lim);
      Put255(dst, op + 1, length - 255, lim);
      op, length := op + 2, length - 510;
    }
    if length >= 255 {
      Put255(dst, op, length, lim);
      op, length := op + 1, length - 255;
    }
    dst[op] := length;
    op := op + 1;
    assert dst[..op] == dst[..op - 1] + Extension(length);
  }

  lemma {:induction false} LengthBytesSize(length: nat)
    ensures |LengthBytes(length)| == if length < 15 then 0 else (length - 15) / 255 + 1
  {
    if length >= 15 { ExtensionLength(length - 15); }
  }

  /** Bytes LZ4_BLINDCOPY stores for `n` wanted: whole blocks of eight, at least one. */
  function BlocksOfEight(n: nat): nat { if n == 0 then 8 else (n + 7) / 8 * 8 }

  /**
    The literal check does not always cover the blocks of eight: they stay within every
    limit the check accepts exactly for the run lengths below.  The shortest that does not
    is 5625 bytes long and stores one byte past the limit.
   */
  lemma {:induction false} BlindCopyInsideIff(op0: nat, length: nat)
    ensures (forall oend {:trigger LiteralCheck(op0, length, oend)} ::
               LiteralCheck(op0, length, oend) ==> op0 + 1 + |LengthBytes(length)| + BlocksOfEight(length) <= oend)
            <==> |LengthBytes(length)| + BlocksOfEight(length) <= length + 8 + length / 256
    ensures length < 5625 ==> |LengthBytes(length)| + BlocksOfEight(length) <= length + 8 + length / 256
    ensures length == 5625 ==> |LengthBytes(length)| + BlocksOfEight(length) == length + 8 + length / 256 + 1
  {
    LengthBytesSize(length);
    assert LiteralCheck(op0, length, op0 + 9 + length + length / 256);
    if 15 <= length < 5625 { BlocksFit(length); }
  }

  lemma {:induction false} BlocksFit(length: nat)
    requires 15 <= length < 5625
    ensures (length - 15) / 255 + 1 + BlocksOfEight(length) <= length + 8 + length / 256
  {
    var q, r := length / 256, length % 256;
    assert (length - 15) / 255 <= q + 1 && q <= 21;
    if (length - 15) / 255 == q + 1 {
      assert 255 * (q + 1) + 15 <= 256 * q + r;
      assert r >= 270 - q >= 249;
      assert length % 8 == r % 8;
    }
  }

  /** The copy behind an accepted check passes the limit, and the offset behind the run does not. */
  ghost predicate PastLimit(op0: nat, length: nat, oend: nat) {
    && LiteralCheck(op0, length, oend)
    && op0 + 1 + |LengthBytes(length)| + length + 2 <= oend < op0 + 1 + |LengthBytes(length)| + BlocksOfEight(length)
  }

  /** The literals copied there are found past the limit. */
  ghost predicate Spilled(data: seq<byte>, out: seq<byte>, anchor: nat, op0: nat, length: nat, oend: nat) {
    var lit := op0 + 1 + |LengthBytes(length)|;
    && lit <= oend < lit + BlocksOfEight(length) <= |out| && anchor + BlocksOfEight(length) <= |data|
    && forall k :: oend <= k < lit + BlocksOfEight(length) ==> out[k] == data[anchor + k - lit]
  }

  /** The room the code asks for before it writes a token and `length` literals at `op0`. */
  ghost predicate LiteralCheck(op0: nat, length: nat, oend: int) {
    op0 + 1 + length + (2 + 1 + LASTLITERALS) + length / 256 <= oend
  }

  lemma {:induction false} NextBlock(n: nat, done: nat)
    requires done % 8 == 0 && (done < n || done == 0)
    ensures done + 8 <= BlocksOfEight(n)
  {
  }

  lemma {:induction false} AllBlocks(n: nat, done: nat)
    requires done % 8 == 0 && 0 < done && n <= done && (done < n + 8 || done == 8)
    ensures done == BlocksOfEight(n)
  {
  }

  /** Bytes of the input from `from` on stand in the output from `to` on. */
  ghost predicate Copied(data: seq<byte>, from: nat, out: seq<byte>, to: nat, n: nat) {
    from + n <= |data| && to + n <= |out| && forall k {:trigger out[k]} :: to <= k < to + n ==>
      out[k] == data[from + k - to]
  }

  /** LZ4_COPYSTEP: eight bytes, which extend what has been copied from `to` on. */
  method CopyStep(data: seq<byte>, from: nat, dst: array<byte>, to: nat, done: nat, ghost was: seq<byte>)
    requires from + done + 8 <= |data| && to + done + 8 <= dst.Length
    requires Lz4Decoder.SameOutside(was, dst[..], to, to + done) && Copied(data, from, dst[..], to, done)
    modifies dst
    ensures Lz4Decoder.SameOutside(was, dst[..], to, to + done + 8) && Copied(data, from, dst[..], to, done + 8)
  {
    forall k | 0 <= k < 8 { dst[to + done + k] := data[from + done + k]; }
  }

  /** LZ4_BLINDCOPY: `n` bytes wanted, stored eight at a time, at least eight. */
  method BlindCopy(data: seq<byte>, from: nat, dst: array<byte>, to: nat, n: nat, ghost lim: nat)
    requires from + n + 8 <= |data|
    requires to + BlocksOfEight(n) <= lim <= dst.Length
    modifies dst
    ensures dst[lim..] == old(dst[lim..])
    ensures dst[..to + n] == old(dst[..to]) + data[from..from + n]
    ensures Lz4Decoder.SameOutside(old(dst[..]), dst[..], to, to + BlocksOfEight(n))
    ensures Copied(data, from, dst[..], to, BlocksOfEight(n))
  {
    var s, d, e := from, to, to + n;
    ghost var was := dst[..];
    NextBlock(n, 0);
    assert Lz4Decoder.SameOutside(was, dst[..], to, to) && Copied(data, from, dst[..], to, 0);
    hide BlocksOfEight, Lz4Decoder.SameOutside, Copied;
    while true
      invariant d < e + 8 && s - from == d - to && to <= d <= to + BlocksOfEight(n)
      invariant (d < e || d == to) && (d - to) % 8 == 0
      invariant Lz4Decoder.SameOutside(was, dst[..], to, d) && Copied(data, from, dst[..], to, d - to)
      decreases e + 8 - d
    {
      NextBlock(n, d - to);
      CopyStep(data, from, dst, to, d - to, was);
      s, d := s + 8, d + 8;
      if !(d < e) { break; }
    }
    AllBlocks(n, d - to);
    FirstOfBlocks(data, was, dst[..], from, to, n, d - to, lim);
  }

  lemma {:induction false} FirstOfBlocks(data: seq<byte>, was: seq<byte>, out: seq<byte>, from: nat, to: nat, n: nat,
                                         m: nat, lim: nat)
    requires n <= m && to + m <= lim <= |out|
    requires Lz4Decoder.SameOutside(was, out, to, to + m) && Copied(data, from, out, to, m)
    ensures from + m <= |data| && |was| == |out| && out[lim..] == was[lim..] &&
            out[..to + n] == was[..to] + data[from..from + n]
  {
  }

  /** How far past its limit the compressor may store: not at all for an input shorter than 5652 bytes. */
  function Slack(n: nat): nat {
    if n < 5652 then 0 else n / 65280 + 1
  }

  /** The literal runs that an input of `n` bytes can have in front of a match. */
  ghost predicate RunAllowed(length: nat, n: nat) {
    length <= n - MFLIMIT && (length >= 5625 ==> n >= 5652)
  }

  /** A run that long ends at a probe behind which another 13 bytes, and 12 more, must follow. */
  lemma {:induction false} ProbedRun(n: nat, anchor: nat, from: nat, at: nat)
    requires Probed(n, anchor + 1, at) && anchor <= from <= at
    ensures RunAllowed(from - anchor, n)
  {
    var a: nat :| 67 <= a && at == anchor + 1 + Probe(a) && anchor + 1 + Probe(a + 1) <= n - MFLIMIT;
    ProbeStep(a);
    LongProbe(a);
    hide Probe;
  }

  /** Continuation bytes exceed the code's estimate, length / 256, by no more than this. */
  lemma {:induction false} RunEstimate(length: nat, n: nat)
    requires length <= n
    ensures |LengthBytes(length)| <= length / 256 + Slack(n) + 2
  {
    LengthBytesSize(length);
  }

  /** So the blocks of eight stay within the slack. */
  lemma {:induction false} BlocksWithinSlack(length: nat, n: nat)
    requires RunAllowed(length, n)
    ensures |LengthBytes(length)| + BlocksOfEight(length) <= length + 8 + length / 256 + Slack(n)
  {
    LengthBytesSize(length);
    BlindCopyInsideIff(0, length);
  }

  /** A token with its literal-length half, and the continuation bytes of that length. */
  method WriteToken(dst: array<byte>, op0: nat, length: nat, ghost lim: nat) returns (op: nat)
    requires op0 + 1 + |LengthBytes(length)| <= lim <= dst.Length
    modifies dst
    ensures dst[lim..] == old(dst[lim..])
    ensures op == op0 + 1 + |LengthBytes(length)|
    ensures dst[..op] == old(dst[..op0]) + ([16 * Nibble(length) as byte] + LengthBytes(length))
  {
    LengthBytesSize(length);
    op := op0 + 1;
    if length >= RUN_MASK {
      dst[op0] := 240;
      op := WriteExtension(dst, op, length - RUN_MASK, lim);
    } else {
      dst[op0] := 16 * length;
    }
  }

  lemma {:induction false} Associate(a: seq<byte>, b: seq<byte>, c: seq<byte>)
    ensures a + b + c == a + (b + c)
  {
  }

  lemma {:induction false} CopySpills(data: seq<byte>, out: seq<byte>, anchor: nat, op0: nat, length: nat, oend: nat)
    requires PastLimit(op0, length, oend)
    requires Copied(data, anchor, out, op0 + 1 + |LengthBytes(length)|, BlocksOfEight(length))
    ensures Spilled(data, out, anchor, op0, length, oend)
  {
    hide LengthBytes, BlocksOfEight;
  }

  /** Token and literals of one sequence; gives up when the remaining output may not suffice. */
  method EmitLiterals(data: seq<byte>, anchor: nat, ip: nat, dst: array<byte>, op0: nat, oend: nat)
    returns (ok: bool, op: nat)
    requires anchor <= ip <= |data| - MFLIMIT && RunAllowed(ip - anchor, |data|)
    requires oend + Slack(|data|) <= dst.Length && op0 <= dst.Length
    modifies dst
    ensures dst[oend + Slack(|data|)..] == old(dst[oend + Slack(|data|)..])
    ensures ok <==> LiteralCheck(op0, ip - anchor, oend)
    ensures ok ==> op == op0 + 1 + |LengthBytes(ip - anchor)| + (ip - anchor)
    ensures ok ==> op0 < op <= oend + Slack(|data|) - 6 && dst[op0] == 16 * Nibble(ip - anchor)
    ensures ok ==> dst[..op] == old(dst[..op0]) + LiteralPart(16 * Nibble(ip - anchor), data[anchor..ip])
    ensures PastLimit(op0, ip - anchor, oend) ==> Spilled(data, dst[..], anchor, op0, ip - anchor, oend)
  {
    var length := ip - anchor;
    if op0 + 1 + length + (2 + 1 + LASTLITERALS) +
      length / 256 > oend { NotPast(op0, length, oend); return false, op0; }
    RunEstimate(length, |data|);
    BlocksWithinSlack(length, |data|);
    op := WriteToken(dst, op0, length, oend + Slack(|data|));
    hide LengthBytes, Copied, Spilled, PastLimit, BlocksOfEight, LiteralCheck;
    assert dst[..op][op0] == 16 * Nibble(length);
    BlindCopy(data, anchor, dst, op, length, oend + Slack(|data|));
    assert dst[..op + length][op0] == 16 * Nibble(length);
    if PastLimit(op0, length, oend) { CopySpills(data, dst[..], anchor, op0, length, oend); }
    Associate(old(dst[..op0]), [16 * Nibble(length) as byte] + LengthBytes(length), data[anchor..ip]);
    op := op + length;
    ok := true;
  }

  /** The bytes of a back reference do not depend on the literals before it. */
  function Reference(d: nat, n: nat): seq<byte>
    requires 1 <= d <= MAX_DISTANCE && MINMATCH <= n
  {
    MatchPart(Sequence([], d, n))
  }

  /** Two offset bytes, little-endian. */
  method WriteOffset(dst: array<byte>, op: nat, d: nat, ghost lim: nat)
    requires 1 <= d <= MAX_DISTANCE && op + 2 <= lim <= dst.Length
    modifies dst
    ensures dst[lim..] == old(dst[lim..])
    ensures dst[..op + 2] == old(dst[..op]) + [(d % 256) as byte, (d / 256) as byte]
  {
    dst[op] := d % 256;
    dst[op + 1] := d / 256;
  }

  /** The match-length half of the token, and the continuation bytes of that length. */
  method WriteMatchLength(dst: array<byte>, token: nat, op0: nat, length: nat, ghost lim: nat) returns (op: nat)
    requires token < op0 && op0 + |LengthBytes(length)| <= lim <= dst.Length && dst[token] <= 240
    modifies dst
    ensures dst[lim..] == old(dst[lim..])
    ensures op == op0 + |LengthBytes(length)|
    ensures dst[..op] == old(dst[..op0])[token := old(dst[token]) + Nibble(length)] + LengthBytes(length)
  {
    LengthBytesSize(length);
    op := op0;
    if length >= ML_MASK {
      dst[token] := dst[token] + ML_MASK;
      op := WriteExtensionPairs(dst, op, length - ML_MASK, lim);
    } else {
      dst[token] := dst[token] + length;
    }
  }

  /** Offset and match length of the sequence whose token is at `token`. */
  method WriteReference(dst: array<byte>, token: nat, op0: nat, d: nat, n: nat, ghost lim: nat) returns (op: nat)
    requires 1 <= d <= MAX_DISTANCE && MINMATCH <= n
    requires token < op0 && op0 + 2 + |LengthBytes(n - 4)| <= lim <= dst.Length && dst[token] <= 240
    modifies dst
    ensures dst[lim..] == old(dst[lim..])
    ensures op == op0 + 2 + |LengthBytes(n - 4)|
    ensures dst[..op] == old(dst[..op0])[token := old(dst[token]) + Nibble(n - 4)] + Reference(d, n)
  {
    WriteOffset(dst, op0, d, lim);
    op := WriteMatchLength(dst, token, op0 + 2, n - 4, lim);
    hide LengthBytes;
  }

  /** Offset, match extent and match length of the sequence whose token is at `token`. */
  method EmitMatch(data: seq<byte>, ip0: nat, ref0: nat, dst: array<byte>, token: nat, op0: nat, oend: nat)
    returns (ok: bool, ip: nat, op: nat)
    requires GoodMatch(data, ip0, ref0)
    requires oend + Slack(|data|) <= dst.Length
    requires token < op0 <= oend + Slack(|data|) - 2 && dst[token] <= 240
    modifies dst
    ensures dst[oend + Slack(|data|)..] == old(dst[oend + Slack(|data|)..])
    ensures ip0 + MINMATCH <= ip <= |data| - LASTLITERALS && MatchesBack(data, ip0, ip, ip0 - ref0)
    ensures ip < |data| - LASTLITERALS ==> data[ip] != data[ip - (ip0 - ref0)]
    ensures ip == Forward(data, ip0, ip0 - ref0)
    ensures ok <==> op0 + 8 + (ip - ip0 - 4) / 256 <= oend
    ensures ok ==> op == op0 + 2 + |LengthBytes(ip - ip0 - 4)| <= oend + Slack(|data|) - 3
    ensures !ok ==> Lz4Decoder.SameOutside(old(dst[..]), dst[..], op0, op0 + 2)
    ensures ok ==> dst[..op] == old(dst[..op0])[token := old(dst[token]) + Nibble(ip - ip0 - 4)]
                                + Reference(ip0 - ref0, ip - ip0)
  {
    hide LengthBytes, MatchesBack, Reference, Extension;
    assert MatchesBack(data, ip0, ip0 + MINMATCH, ip0 - ref0);
    ip := CountMatch(data, ip0 + MINMATCH, ip0 - ref0, |data| - LASTLITERALS);
    MatchesSplit(data, ip0, ip0 + MINMATCH, ip, ip0 - ref0);
    ForwardIs(data, ip0, ip0 - ref0, ip);
    var length := ip - (ip0 + MINMATCH);
    if op0 + 2 + (1 + LASTLITERALS) + length / 256 > oend {
      dst[op0], dst[op0 + 1] := (ip0 - ref0) % 256, (ip0 - ref0) / 256;
      return false, ip, op0 + 2;
    }
    RunEstimate(length, |data|);
    op := WriteReference(dst, token, op0, ip0 - ref0, ip - ip0, oend + Slack(|data|));
    ok := true;
  }

  /** Patching the token of a literal part completes the sequence. */
  lemma {:induction false} CompleteSequence(e: seq<byte>, literals: seq<byte>, d: nat, n: nat)
    requires 1 <= d <= MAX_DISTANCE && MINMATCH <= n
    ensures var token: byte := 16 * Nibble(|literals|) + Nibble(n - 4);
            (e + LiteralPart(16 * Nibble(|literals|), literals))[|e| := token] + Reference(d, n)
            == e + EncodeSequence(Sequence(literals, d, n))
  {
    var s := Sequence(literals, d, n);
    var tail := LengthBytes(|literals|) + literals;
    assert MatchPart(s) == Reference(d, n);
    forall t: byte ensures LiteralPart(t, literals) == [t] + tail { }
    hide LengthBytes, MatchPart;
    assert (e + ([16 * Nibble(|literals|) as byte] + tail))[|e| := Token(s)] == e + ([Token(s)] + tail);
    Associate(e, LiteralPart(Token(s), literals), MatchPart(s));
  }

  // ------------------------------------------------------------ compressor

  /** Output that always suffices. */
  function CompressBound(n: nat): nat { n + n / 255 + 16 }

  /** The output never outgrows the input it stands for by more than one part in 255. */
  ghost predicate Compact(op: nat, anchor: nat) { 255 * op <= 256 * anchor }

  lemma {:induction false} SequenceCost(op: nat, anchor: nat, ip: nat, end: nat)
    requires Compact(op, anchor) && anchor <= ip && ip + MINMATCH <= end
    ensures Compact(op + 3 + (ip - anchor) + |LengthBytes(ip - anchor)| + |LengthBytes(end - ip - 4)|, end)
  {
    LengthBytesSize(ip - anchor);
    LengthBytesSize(end - ip - 4);
  }

  /** Neither check of a sequence fails when the bound is offered. */
  lemma {:induction false} SequenceFits(op: nat, anchor: nat, ip: nat, end: nat, n: nat)
    requires Compact(op, anchor) && anchor <= ip <= n - MFLIMIT && ip + MINMATCH <= end <= n - LASTLITERALS
    ensures op + 9 + (ip - anchor) + (ip - anchor) / 256 <= CompressBound(n)
    ensures op + 1 + |LengthBytes(ip - anchor)| + (ip - anchor) + 8 + (end - ip - 4) / 256 <= CompressBound(n)
  {
    LengthBytesSize(ip - anchor);
  }

  /** What has been emitted so far: well-formed sequences standing for the input up to `anchor`. */
  ghost predicate Emitted(data: seq<byte>, out: seq<byte>, anchor: nat, ss: seq<Sequence>) {
    && anchor <= |data|
    && WellFormed(ss, |data|) && Encodable(ss)
    && Expand(ss) == data[..anchor]
    && out == EncodeSequences(ss)
  }

  lemma {:induction false} MatchIsCopy(data: seq<byte>, ip: nat, d: nat, end: nat)
    requires 1 <= d && MatchesBack(data, ip, end, d)
    ensures CopyMatch(data[..ip], d, end - ip) == data[..end]
  {
    CopyMatchUnique(data[..ip], d, end - ip, data[..end]);
  }

  /** One more literal run and match. */
  lemma {:induction false} EmittedStep(data: seq<byte>, out: seq<byte>, anchor: nat, ss: seq<Sequence>,
                                       ip: nat, d: nat, end: nat)
    requires Emitted(data, out, anchor, ss)
    requires anchor <= ip <= |data| - MFLIMIT && 1 <= d <= ip && d <= MAX_DISTANCE
    requires ip + MINMATCH <= end <= |data| - LASTLITERALS && MatchesBack(data, ip, end, d)
    ensures var s := Sequence(data[anchor..ip], d, end - ip);
            Emitted(data, out + EncodeSequence(s), end, ss + [s])
  {
    hide EncodeSequence, EncodeSequences, WellFormed, Expand, CopyMatch, MatchesBack, Encodable;
    var s := Sequence(data[anchor..ip], d, end - ip);
    Snoc(ss, s, |data|);
    SnocEncode(ss, s);
    assert Expand(ss) + s.literals == data[..ip];
    MatchIsCopy(data, ip, d, end);
  }

  lemma {:induction false} NotPast(op0: nat, length: nat, oend: nat)
    requires !LiteralCheck(op0, length, oend)
    ensures !PastLimit(op0, length, oend)
  {
  }

  /** The offset behind such a run leaves it, and the check of the match then fails. */
  lemma {:induction false} StaysSpilled(data: seq<byte>, out: seq<byte>, out': seq<byte>, anchor: nat, op0: nat,
                                        length: nat, oend: nat)
    requires PastLimit(op0, length, oend) && Spilled(data, out, anchor, op0, length, oend)
    ensures var op := op0 + 1 + |LengthBytes(length)| + length;
            && op + 8 > oend
            && (Lz4Decoder.SameOutside(out, out', op, op + 2) ==> Spilled(data, out', anchor, op0, length, oend))
  {
    hide LengthBytes;
  }

  /** One more sequence has been written. */
  ghost predicate Wrote(s: Sequence, ss: seq<Sequence>, anchor: nat, op0: nat, ss': seq<Sequence>, ip: nat, op: nat) {
    EncodableSequence(s) && ss' == ss + [s] && ip == anchor + |s.literals| + s.matchLength && op == op0 + Cost(s)
  }

  /** The state after literal run and match: where the next search or the closing literals start. */
  method EmitSequence(data: seq<byte>, anchor: nat, at: nat, ref0: nat, dst: array<byte>, op0: nat, oend: nat,
                      ghost ss: seq<Sequence>)
    returns (ok: bool, ip: nat, op: nat, ghost ss': seq<Sequence>)
    requires GoodMatch(data, at, ref0) && anchor < at && Probed(|data|, anchor + 1, at)
    requires oend + Slack(|data|) <= dst.Length && op0 <= dst.Length
    requires Emitted(data, dst[..op0], anchor, ss) && Compact(op0, anchor)
    modifies dst
    ensures dst[oend + Slack(|data|)..] == old(dst[oend + Slack(|data|)..])
    ensures ok ==> at < ip <= |data| - LASTLITERALS && op <= oend + Slack(|data|) - 3
    ensures ok ==> Emitted(data, dst[..op], ip, ss') && Compact(op, ip)
    ensures oend >= CompressBound(|data|) ==> ok
    ensures var length := Back(data, anchor, at, ref0) - anchor;
            PastLimit(op0, length, oend) ==> !ok && Spilled(data, dst[..], anchor, op0, length, oend)
    ensures ok <==> Passes(op0, Piece(data, anchor, at, ref0), oend)
    ensures ok ==> Wrote(Piece(data, anchor, at, ref0), ss, anchor, op0, ss', ip, op)
  {
    hide LiteralPart, EncodeSequence, Emitted, MatchesBack, Reference, LengthBytes, Compact, CompressBound, Probed,
         PastLimit, Spilled, Back, Forward, Lz4Decoder.SameOutside, Piece, Slack, EncodableSequence;
    var from, ref := CatchUp(data, anchor, at, ref0);
    ip, ss' := at, ss;
    ProbedRun(|data|, anchor, from, at);
    SequenceFits(op0, anchor, from, from + 4, |data|);
    ok, op := EmitLiterals(data, anchor, from, dst, op0, oend);
    if !ok {
      NotPast(op0, from - anchor, oend);
      PieceIs(data, anchor, at, ref0, from, Forward(data, from, from - ref));
      return;
    }
    ghost var out, mid := dst[..], op;
    ok, ip, op := EmitMatch(data, from, ref, dst, op0, op, oend);
    PieceIs(data, anchor, at, ref0, from, ip);
    if PastLimit(op0, from - anchor, oend) { StaysSpilled(data, out, dst[..], anchor, op0, from - anchor, oend); }
    SequenceFits(op0, anchor, from, ip, |data|);
    if !ok { return; }
    MaximalPast(data, from, at, ip, from - ref);
    SequenceCost(op0, anchor, from, ip);
    CompleteSequence(old(dst[..op0]), data[anchor..from], from - ref, ip - from);
    assert |old(dst[..op0])| == op0;
    EmittedStep(data, old(dst[..op0]), anchor, ss, from, from - ref, ip);
    ss' := ss + [Sequence(data[anchor..from], from - ref, ip - from)];
  }

  /** The token of an empty literal run. */
  method PutEmptyToken(dst: array<byte>, op0: nat, ghost lim: nat) returns (op: nat)
    requires op0 < lim <= dst.Length
    modifies dst
    ensures dst[lim..] == old(dst[lim..])
    ensures op == op0 + 1 && dst[op0] == 0
    ensures dst[..op] == old(dst[..op0]) + LiteralPart(16 * Nibble(0), [])
  {
    dst[op0] := 0;
    op := op0 + 1;
  }

  /** A match that starts right after the previous one: an empty literal run. */
  method EmitAdjacent(data: seq<byte>, at: nat, ref: nat, dst: array<byte>, op0: nat, oend: nat,
                      ghost ss: seq<Sequence>)
    returns (ok: bool, ip: nat, op: nat, ghost ss': seq<Sequence>)
    requires GoodMatch(data, at, ref)
    requires oend + Slack(|data|) <= dst.Length && op0 <= oend + Slack(|data|) - 3
    requires Emitted(data, dst[..op0], at, ss) && Compact(op0, at)
    modifies dst
    ensures dst[oend + Slack(|data|)..] == old(dst[oend + Slack(|data|)..])
    ensures ok ==> at < ip <= |data| - LASTLITERALS && op <= oend + Slack(|data|) - 3
    ensures ok ==> Emitted(data, dst[..op], ip, ss') && Compact(op, ip)
    ensures oend >= CompressBound(|data|) ==> ok
    ensures ok <==> Passes(op0, Piece(data, at, at, ref), oend)
    ensures ok ==> Wrote(Piece(data, at, at, ref), ss, at, op0, ss', ip, op)
  {
    hide LiteralPart, EncodeSequence, Emitted, MatchesBack, Reference, LengthBytes, Compact, CompressBound, Forward;
    ss' := ss;
    op := PutEmptyToken(dst, op0, oend + Slack(|data|));
    ok, ip, op := EmitMatch(data, at, ref, dst, op0, op, oend);
    LengthBytesSize(at - at);
    SequenceFits(op0, at, at, ip, |data|);
    if !ok { return; }
    SequenceCost(op0, at, at, ip);
    assert data[at..at] == [];
    CompleteSequence(old(dst[..op0]), data[at..at], at - ref, ip - at);
    assert |old(dst[..op0])| == op0;
    EmittedStep(data, old(dst[..op0]), at, ss, at, at - ref, ip);
    ss' := ss + [Sequence(data[at..at], at - ref, ip - at)];
  }

  /** From the end of one match, as long as the next position matches too. */
  method EmitRun(data: seq<byte>, table: array<nat>, ip0: nat, dst: array<byte>, op0: nat, oend: nat,
                 ghost ss0: seq<Sequence>)
    returns (ok: bool, ip: nat, op: nat, ghost ss: seq<Sequence>)
    requires table.Length == TABLESIZE && TableBelow(table[..], ip0) && 2 <= ip0 <= |data| - LASTLITERALS
    requires MINLENGTH <= |data|
    requires oend + Slack(|data|) <= dst.Length && op0 <= oend + Slack(|data|) - 3
    requires Emitted(data, dst[..op0], ip0, ss0) && Compact(op0, ip0)
    modifies dst, table
    ensures dst[oend + Slack(|data|)..] == old(dst[oend + Slack(|data|)..])
    ensures ok ==>
            ip0 <= ip <= |data| - LASTLITERALS && op <= oend + Slack(|data|) - 3 && Emitted(data, dst[..op], ip, ss)
    ensures ok ==> TableBelow(table[..], ip + 1) && Compact(op, ip)
    ensures oend >= CompressBound(|data|) ==> ok
    ensures var st := State(old(table[..]), ip0, true);
            if ok then Follows(data, st, ss0, op0, State(table[..], ip, ip > |data| - MFLIMIT), ss, op)
            else Overfull(data, st, op0, oend)
  {
    hide Emitted, Hash, A32, Compact, CompressBound, MatchesBack, Follows, Overfull, Passes, Wrote, Piece;
    ghost var st0 := State(table[..], ip0, true);
    ip, op, ss := ip0, op0, ss0;
    FollowsSelf(data, st0, ss, op);
    while ip <= |data| - MFLIMIT
      invariant ip0 <= ip <= |data| - LASTLITERALS && op <= oend + Slack(|data|) - 3
      invariant TableBelow(table[..], ip) && dst[oend + Slack(|data|)..] == old(dst[oend + Slack(|data|)..])
      invariant Emitted(data, dst[..op], ip, ss) && Compact(op, ip)
      invariant Follows(data, st0, ss0, op0, State(table[..], ip, true), ss, op)
    {
      ghost var st, ss1, op1 := State(table[..], ip, true), ss, op;
      FollowsOn(data, st0, ss0, op0, st, ss, op, oend);
      table[Hash(data, ip - 2)] := ip - 2;
      var ref := table[Hash(data, ip)];
      table[Hash(data, ip)] := ip;
      assert AfterMatch(data, st.table, ip) == (ref, table[..]);
      if !(ref >= ip - MAX_DISTANCE && A32(data, ref) == A32(data, ip)) {
        Missed(data, st.table, ip, ss, op);
        return true, ip, op, ss;
      }
      A32Equal(data, ip, ip - ref);
      MatchedHere(data, st, ref, table[..], ss, op, oend);
      ok, ip, op, ss := EmitAdjacent(data, ip, ref, dst, op, oend, ss);
      if !ok { return; }
    }
    ok := true;
  }

  /** The closing literals, if they fit. */
  method EmitLast(data: seq<byte>, anchor: nat, dst: array<byte>, op0: nat, maxOutputSize: nat) returns (r: nat)
    requires anchor <= |data| && maxOutputSize <= dst.Length && op0 <= dst.Length
    modifies dst
    ensures r <= maxOutputSize && dst[maxOutputSize..] == old(dst[maxOutputSize..])
    ensures r > 0 ==> dst[..r] == old(dst[..op0]) + EncodeLast(data[anchor..])
    ensures Compact(op0, anchor) && maxOutputSize >= CompressBound(|data|) ==> r > 0
    ensures r > 0 <==> op0 + |EncodeLast(data[anchor..])| <= maxOutputSize
  {
    var lastRun := |data| - anchor;
    LengthBytesSize(lastRun);
    if op0 + lastRun + 1 + (lastRun + 255 - RUN_MASK) / 255 > maxOutputSize { return 0; }
    var op := WriteToken(dst, op0, lastRun, maxOutputSize);
    ghost var before := dst[..op];
    forall k | 0 <= k < lastRun { dst[op + k] := data[anchor + k]; }
    assert dst[..op + lastRun] == before + data[anchor..];
    hide LengthBytes;
    Associate(old(dst[..op0]), [16 * Nibble(lastRun) as byte] + LengthBytes(lastRun), data[anchor..]);
    r := op + lastRun;
  }

  function Empty(): seq<nat> { seq(TABLESIZE, _ => 0) }

  /** Nothing is done yet. */
  function Start(): State { State(Empty(), 0, false) }

  /** The first match of an input. */
  function First(data: seq<byte>): Found
    requires MINLENGTH <= |data|
  {
    Search(data, Empty(), 1, 67)
  }

  /** The literals in front of it. */
  function FirstRun(data: seq<byte>): nat
    requires MINLENGTH <= |data| && First(data).Match?
  {
    Back(data, 0, First(data).ip, First(data).ref)
  }

  /** The first literals are copied past the limit. */
  ghost predicate FirstPast(data: seq<byte>, limit: nat) {
    MINLENGTH <= |data| && First(data).Match? && PastLimit(0, FirstRun(data), limit)
  }

  /** All sequences of the block: alternately search for a match and emit runs of matches. */
  method EmitSequences(data: seq<byte>, dst: array<byte>, oend: nat)
    returns (ok: bool, anchor: nat, op: nat, ghost ss: seq<Sequence>)
    requires MINLENGTH <= |data| && oend + Slack(|data|) <= dst.Length
    modifies dst
    ensures dst[oend + Slack(|data|)..] == old(dst[oend + Slack(|data|)..])
    ensures ok ==> op <= dst.Length && Emitted(data, dst[..op], anchor, ss) && Compact(op, anchor)
    ensures oend >= CompressBound(|data|) ==> ok
    ensures FirstPast(data, oend) ==> !ok && Spilled(data, dst[..], 0, 0, FirstRun(data), oend)
    ensures if ok then (ss, anchor) == Plan(data, Start()) else Overfull(data, Start(), 0, oend)
  {
    hide Hash, Follows, Overfull, Wrote, Passes, Plan, Next, Piece, MatchesBack, Probed, Search, SearchTable,
         PastLimit, Spilled, A32, Forward, Back, LengthBytes;
    var table := new nat[TABLESIZE](_ => 0);
    table[Hash(data, 0)] := 0;
    var ip := 1;
    anchor, op, ss := 0, 0, [];
    assert dst[..0] == [] && data[..0] == [];
    var forwardH := Hash(data, ip);
    assert table[..] == Empty();
    FollowsSelf(data, Start(), ss, op);
    while true
      invariant anchor + 1 == ip <= |data| - MFLIMIT + 1 && forwardH == Hash(data, ip)
      invariant TableBelow(table[..], ip) && fresh(table)
      invariant dst[oend + Slack(|data|)..] == old(dst[oend + Slack(|data|)..])
      invariant FirstPast(data, oend) ==> anchor == op == 0 && ip == 1 && table[..] == Empty()
      invariant op <= dst.Length && Emitted(data, dst[..op], anchor, ss) && Compact(op, anchor)
      invariant Follows(data, Start(), [], 0, State(table[..], anchor, false), ss, op)
      decreases |data| - ip
    {
      ghost var st := State(table[..], anchor, false);
      FollowsOn(data, Start(), [], 0, st, ss, op, oend);
      var f := FindMatch(data, table, ip, forwardH);
      if f.NoMatch? {
        SearchEnds(data, st, ss, op);
        return true, anchor, op, ss;
      }
      MatchedLater(data, st, f.ip, f.ref, table[..], ss, op, oend);
      ok, anchor, op, ss := EmitSequence(data, anchor, f.ip, f.ref, dst, op, oend, ss);
      if !ok { return; }
      FollowsOn(data, Start(), [], 0, State(table[..], anchor, true), ss, op, oend);
      ok, anchor, op, ss := EmitRun(data, table, anchor, dst, op, oend, ss);
      if !ok { return; }
      if anchor > |data| - MFLIMIT {
        RunEnds(data, State(table[..], anchor, true), ss, op);
        return;
      }
      ip := anchor + 1;
      forwardH := Hash(data, ip);
    }
  }

  /** The sequences of an input, and where its closing literals begin. */
  function WholePlan(data: seq<byte>): (r: (seq<Sequence>, nat))
    ensures Encodable(r.0) && r.1 <= |data|
  {
    if |data| < MINLENGTH then ([], 0) else Plan(data, Start())
  }

  /** The block of an input, whatever the limit. */
  ghost function Block(data: seq<byte>): seq<byte> {
    EncodeSequences(WholePlan(data).0) + EncodeLast(data[WholePlan(data).1..])
  }

  /** One more sequence that covers what comes next. */
  lemma {:induction false} CoverOne(data: seq<byte>, ss: seq<Sequence>, anchor: nat, s: Sequence, end: nat)
    requires Encodable(ss) && Emitted(data, EncodeSequences(ss), anchor, ss) && Compact(|EncodeSequences(ss)|, anchor)
    requires Covers(data, anchor, s, end)
    ensures Encodable(ss + [s]) && Emitted(data, EncodeSequences(ss + [s]), end, ss + [s])
    ensures Compact(|EncodeSequences(ss + [s])|, end)
  {
    hide EncodeSequence, EncodeSequences, Compact, LengthBytes, MatchesBack, WellFormed, Expand;
    var from := anchor + |s.literals|;
    EmittedStep(data, EncodeSequences(ss), anchor, ss, from, s.offset, end);
    SequenceCost(|EncodeSequences(ss)|, anchor, from, end);
    SnocEncode(ss, s);
    SizeOfOne(s);
  }

  /** The sequences of the plan stand for the input up to the closing literals, in no more space than bounded. */
  lemma {:induction false} PlanEmits(data: seq<byte>, st: State, ss: seq<Sequence>)
    requires Fine(data, st) && Encodable(ss)
    requires Emitted(data, EncodeSequences(ss), st.ip, ss) && Compact(|EncodeSequences(ss)|, st.ip)
    ensures var (more, rest) := Plan(data, st);
            && Encodable(ss + more) && Emitted(data, EncodeSequences(ss + more), rest, ss + more)
            && Compact(|EncodeSequences(ss + more)|, rest)
    decreases |data| - st.ip
  {
    hide Next, Emitted, Compact, Covers, EncodeSequences, TableBelow;
    var turn := Next(data, st);
    if turn.Goes? {
      CoverOne(data, ss, st.ip, turn.s, turn.next.ip);
      PlanEmits(data, turn.next, ss + [turn.s]);
      assert ss + ([turn.s] + Plan(data, turn.next).0) == ss + [turn.s] + Plan(data, turn.next).0;
    } else {
      assert ss + [] == ss;
    }
  }

  /** The same of the whole plan. */
  lemma {:induction false} WholePlanEmits(data: seq<byte>)
    ensures var (ss, rest) := WholePlan(data);
            && Emitted(data, EncodeSequences(ss), rest, ss) && Compact(|EncodeSequences(ss)|, rest)
            && (ss == [] || rest <= |data| - LASTLITERALS)
  {
    hide Plan, Emitted, Compact, EncodeSequences, TableBelow;
    NothingEmitted(data);
    if |data| >= MINLENGTH {
      PlanEmits(data, Start(), []);
      assert [] + WholePlan(data).0 == WholePlan(data).0;
    }
  }

  /** The block of an input decodes to it wherever there is room, and is never longer than the bound. */
  lemma {:induction false} BlockStandsFor(data: seq<byte>, cap: nat)
    requires |data| <= cap
    ensures 0 < |Block(data)| <= CompressBound(|data|)
    ensures Decode(Block(data), 0, [], cap) == Done(data)
  {
    hide WholePlan, EncodeLast, Decode, LengthBytes, EncodeSequence;
    var (ss, rest) := WholePlan(data);
    WholePlanEmits(data);
    assert data[..rest] + data[rest..] == data;
    BlockRoundTrip(ss, data[rest..], |data|, cap);
    LastSize(data[rest..]);
  }

  lemma {:induction false} NothingEmitted(data: seq<byte>)
    ensures Encodable([]) && Emitted(data, EncodeSequences([]), 0, []) && Compact(|EncodeSequences([])|, 0)
    ensures |data| >= MINLENGTH ==> Fine(data, Start())
  {
  }

  lemma {:induction false} LastSize(literals: seq<byte>)
    ensures |EncodeLast(literals)| == 1 + |LengthBytes(|literals|)| + |literals|
    ensures |LengthBytes(|literals|)| <= |literals| / 255 + 1
  {
    LengthBytesSize(|literals|);
  }

  lemma {:induction false} PlanTooLong(data: seq<byte>, limit: nat)
    requires Overfull(data, Start(), 0, limit)
    ensures |Block(data)| > limit
  {
    TotalIsSize(Plan(data, Start()).0);
    hide Plan, Total;
  }

  /**
    Compress `data` into at most `maxOutputSize` bytes of `dst`; zero when the output would
    not fit.  An input shorter than 5652 bytes is compressed without a store past the limit; a
    longer one may cause stores past it, within the slack that `dst` has to provide for.
    On success the block is well formed and stands for `data`.
   */
  method CompressLimitedOutput(data: seq<byte>, dst: array<byte>, maxOutputSize: nat)
    returns (r: nat, ghost ss: seq<Sequence>, ghost last: seq<byte>)
    requires |data| <= INT_MAX && maxOutputSize + Slack(|data|) <= dst.Length
    modifies dst
    ensures r <= maxOutputSize
    ensures dst[maxOutputSize + Slack(|data|)..] == old(dst[maxOutputSize + Slack(|data|)..])
    ensures maxOutputSize >= CompressBound(|data|) ==> r > 0
    ensures FirstPast(data, maxOutputSize) ==> r == 0 && Spilled(data, dst[..], 0, 0, FirstRun(data), maxOutputSize)
    ensures (r > 0 <==> |Block(data)| <= maxOutputSize) && (r > 0 ==> dst[..r] == Block(data))
    ensures r > 0 ==> WellFormed(ss, |data|) && Encodable(ss) && (ss == [] || LASTLITERALS <= |last|)
    ensures r > 0 ==> Expand(ss) + last == data && dst[..r] == EncodeSequences(ss) + EncodeLast(last)
  {
    hide Plan, Search, FirstRun, PastLimit, Spilled, LiteralPart, CompressBound, LengthBytes, Slack, Overfull;
    var ok, anchor, op := true, 0, 0;
    ss := [];
    if |data| >= MINLENGTH {
      ok, anchor, op, ss := EmitSequences(data, dst, maxOutputSize);
      if !ok {
        PlanTooLong(data, maxOutputSize);
        return 0, [], [];
      }
    } else {
      assert dst[..0] == [] && data[..0] == [];
    }
    assert Emitted(data, dst[..op], anchor, ss);
    last := data[anchor..];
    assert data == data[..anchor] + last;
    r := EmitLast(data, anchor, dst, op, maxOutputSize);
  }

  /**
    The round trip: whatever a successful compression stored, decoding it with room for at
    least the original length gives back the original.
   */
  method RoundTrip(data: seq<byte>, block: array<byte>, limit: nat, dst: array<byte>, room: nat)
    returns (n: nat, r: int)
    requires 0 < |data| <= INT_MAX && limit + Slack(|data|) <= block.Length
    requires |data| <= room <= dst.Length && block != dst
    modifies block, dst
    ensures n <= limit && (limit >= CompressBound(|data|) ==> n > 0)
    ensures n > 0 <==> |Block(data)| <= limit
    ensures block[limit + Slack(|data|)..] == old(block[limit + Slack(|data|)..])
    ensures dst[room..] == old(dst[room..])
    ensures n > 0 ==> r == |data| && dst[..r] == data
  {
    ghost var ss, last;
    n, ss, last := CompressLimitedOutput(data, block, limit);
    r := -1;
    if n > 0 {
      BlockRoundTrip(ss, last, |data|, room);
      r := Lz4Decoder.DecompressSafe(block, dst, n, room);
    }
  }
}
