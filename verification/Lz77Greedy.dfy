/** The greedy parse that the compressor of benchmark/src/compression.c makes, the method that computes it, and how
    good it is: the round trip under both capacity limits, the token bounds, and the factor-2 bound against every
    other token list for the same source. */
module Lz77Greedy {
  import opened Lz77

  predicate InWindow(pos: nat, dist: nat) {
    1 <= dist <= Min(pos, WINDOW_SIZE)
  }

  /** `(dist, len)` is what the window search settles on: no match in the window is longer, and none that starts
      earlier in the window is as long.  `len == 0` and `dist == 0` together mean that nothing matches at all. */
  ghost predicate IsLongest(src: seq<Byte>, pos: nat, dist: nat, len: nat) {
    && len <= MAX_MATCH
    && (if len == 0 then dist == 0 else InWindow(pos, dist) && MatchAt(src, pos, dist, len))
    && (forall d: nat, l: nat :: InWindow(pos, d) && l <= MAX_MATCH && MatchAt(src, pos, d, l) ==> l <= len)
    && (forall d: nat, l: nat ::
          InWindow(pos, d) && 0 < l <= MAX_MATCH && MatchAt(src, pos, d, l) && dist < d ==> l < len)
  }

  ghost predicate NoUsableMatch(src: seq<Byte>, pos: nat) {
    forall d: nat, l: nat :: InWindow(pos, d) && MIN_MATCH <= l <= MAX_MATCH ==> !MatchAt(src, pos, d, l)
  }

  ghost predicate GreedyToken(src: seq<Byte>, pos: nat, t: Token) {
    && pos < |src|
    && if t.distance == 0 then t.length == 0 && t.lit == src[pos] && NoUsableMatch(src, pos)
       else t.lit == 0 && t.length >= MIN_MATCH && IsLongest(src, pos, t.distance, t.length)
  }

  ghost predicate Greedy(src: seq<Byte>, ts: seq<Token>, pos: nat) {
    ts == [] || (GreedyToken(src, pos, ts[0]) && Greedy(src, ts[1..], pos + Width(ts[0])))
  }

  // ---- The compressor ----

  /** The innermost loop: how far the bytes at `s` and at `pos` agree, up to `MAX_MATCH`. */
  method MatchLength(src: seq<Byte>, s: nat, pos: nat) returns (mlen: nat)
    requires s < pos < |src|
    ensures mlen <= 18 && MatchAt(src, pos, pos - s, mlen)
    ensures forall d: nat, l: nat :: d == pos - s && l <= 18 && MatchAt(src, pos, d, l) ==> l <= mlen
  {
    mlen := 0;
    while mlen < MAX_MATCH && pos + mlen < |src| && src[s + mlen] == src[pos + mlen]
      invariant mlen <= MAX_MATCH && MatchAt(src, pos, pos - s, mlen)
    {
      mlen := mlen + 1;
    }
  }

  /** The window search. */
  method LongestMatch(src: seq<Byte>, pos: nat) returns (bestLen: nat, bestDist: nat)
    requires pos < |src|
    ensures IsLongest(src, pos, bestDist, bestLen)
    ensures forall d: nat, l: nat :: 1 <= d <= 512 && l <= 18 && MatchAt(src, pos, d, l) ==> l <= bestLen
  {
    bestLen, bestDist := 0, 0;
    var winStart := if pos > WINDOW_SIZE then pos - WINDOW_SIZE else 0;
    for s := winStart to pos
      invariant bestLen <= MAX_MATCH
      invariant if bestLen == 0 then bestDist == 0
                else InWindow(pos, bestDist) && pos - s < bestDist && MatchAt(src, pos, bestDist, bestLen)
      invariant forall d: nat, l: nat :: InWindow(pos, d) && pos - s < d && l <= MAX_MATCH && MatchAt(src, pos, d, l)
                  ==> l <= bestLen
      invariant forall d: nat, l: nat ::
                  InWindow(pos, d) && bestDist < d && pos - s < d && 0 < l <= MAX_MATCH && MatchAt(src, pos, d, l)
                  ==> l < bestLen
    {
      var mlen := MatchLength(src, s, pos);
      if mlen > bestLen {
        bestLen := mlen;
        bestDist := pos - s;
      }
    }
  }

  /** Writes the greedy parse of `src` into `tokens`, as far as it fits, and returns the number of tokens.  The two
      remainders are the narrowing stores into the token's 16-bit and 8-bit fields. */
  method Compress(src: seq<Byte>, tokens: array<Token>, maxTokens: nat) returns (ntok: nat)
    requires maxTokens <= tokens.Length
    modifies tokens
    ensures ntok <= maxTokens
    ensures Greedy(src, tokens[..ntok], 0)
    ensures ntok < maxTokens ==> Covered(tokens[..ntok]) == |src|
    ensures forall j :: ntok <= j < tokens.Length ==> tokens[j] == old(tokens[j])
  {
    hide Greedy, Covered;
    NothingParsed(src);
    var pos := 0;
    ntok := 0;
    while pos < |src| && ntok < maxTokens
      invariant ntok <= maxTokens && pos <= |src|
      invariant Greedy(src, tokens[..ntok], 0) && pos == Covered(tokens[..ntok])
      invariant forall j :: ntok <= j < tokens.Length ==> tokens[j] == old(tokens[j])
      decreases maxTokens - ntok
    {
      ghost var before := tokens[..ntok];
      var bestLen, bestDist := LongestMatch(src, pos);
      var t;
      if bestLen >= MIN_MATCH {
        t := Token(bestDist % 0x1_0000, bestLen % 0x100, 0);
      } else {
        t := Token(0, 0, src[pos]);
      }
      tokens[ntok] := t;
      ntok := ntok + 1;
      pos := pos + (if bestLen >= MIN_MATCH then bestLen else 1);
      assert tokens[..ntok] == before + [t];
      GreedySnoc(src, before, t, 0);
    }
  }

  lemma NothingParsed(src: seq<Byte>)
    ensures Greedy(src, [], 0) && Covered([]) == 0
  {
  }

  lemma {:induction false} GreedySnoc(src: seq<Byte>, ts: seq<Token>, t: Token, pos: nat)
    ensures Covered(ts + [t]) == Covered(ts) + Width(t)
    ensures Greedy(src, ts + [t], pos) <==> Greedy(src, ts, pos) && GreedyToken(src, pos + Covered(ts), t)
  {
    if ts == [] {
      assert ts + [t] == [t] && [t][1..] == [];
    } else {
      assert (ts + [t])[1..] == ts[1..] + [t];
      GreedySnoc(src, ts[1..], t, pos + Width(ts[0]));
    }
  }

  // ---- What the parse is ----

  /** A greedy token in plain numbers: a literal, or a match of distance 1..512 and length 3..18, such that no match in
      these ranges is longer, and none from farther back is as long. */
  lemma GreedyInNumbers(src: seq<Byte>, pos: nat, g: Token)
    ensures GreedyToken(src, pos, g) <==>
      && pos < |src|
      && (if g.distance == 0 then g == Token(0, 0, src[pos])
          else g.lit == 0 && g.distance <= 512 && 3 <= g.length <= 18 && MatchAt(src, pos, g.distance, g.length))
      && forall d: nat, l: nat :: 1 <= d <= 512 && 3 <= l <= 18 && MatchAt(src, pos, d, l)
           ==> l < Width(g) || (l == Width(g) && d <= g.distance)
  {
    if pos < |src| && g.distance != 0 && 3 <= g.length <= 18 && MatchAt(src, pos, g.distance, g.length) {
      assert forall d: nat, l: nat :: MatchAt(src, pos, d, l) ==> d <= pos;
    }
  }

  lemma GreedyTokenUnique(src: seq<Byte>, pos: nat, t: Token, u: Token)
    requires GreedyToken(src, pos, t) && GreedyToken(src, pos, u)
    ensures t == u
  {
    if t.distance != 0 && u.distance != 0 {
      assert MatchAt(src, pos, t.distance, t.length) && MatchAt(src, pos, u.distance, u.length);
    }
  }

  /** The parse is determined by the source: of two greedy parses one is a prefix of the other. */
  lemma {:induction false} GreedyUnique(src: seq<Byte>, ts: seq<Token>, us: seq<Token>, pos: nat)
    requires Greedy(src, ts, pos) && Greedy(src, us, pos) && |ts| <= |us|
    ensures ts <= us
  {
    if ts != [] {
      GreedyTokenUnique(src, pos, ts[0], us[0]);
      GreedyUnique(src, ts[1..], us[1..], pos + Width(ts[0]));
    }
  }

  lemma {:induction false} GreedyDescribes(src: seq<Byte>, ts: seq<Token>, pos: nat)
    requires Greedy(src, ts, pos)
    ensures Describes(src, ts, pos)
    ensures |ts| <= Covered(ts)
  {
    if ts != [] {
      GreedyDescribes(src, ts[1..], pos + Width(ts[0]));
    }
  }

  /** The round trip: whatever the two limits, decompression is safe to run on the compressor's tokens and returns
      exactly the bytes they cover, cut at the output capacity. */
  lemma RoundTrip(src: seq<Byte>, ts: seq<Token>, cap: nat)
    requires Greedy(src, ts, 0)
    ensures Decodable(ts, 0, cap)
    ensures Covered(ts) <= |src|
    ensures Decode(ts, [], cap) == src[..Min(cap, Covered(ts))]
  {
    GreedyDescribes(src, ts, 0);
    assert src[..0] == [];
    DecodeDescription(src, ts, 0, cap);
  }

  /** Compression followed by decompression, as the benchmark runs them. */
  method CompressThenDecompress(src: seq<Byte>, maxTokens: nat, outCap: nat) returns (ts: seq<Token>, output: seq<Byte>)
    ensures |ts| <= maxTokens && Greedy(src, ts, 0) && Covered(ts) <= |src|
    ensures output == src[..Min(outCap, Covered(ts))]
    ensures maxTokens >= |src| && outCap >= |src| ==> output == src
  {
    var tokens := new Token[maxTokens](_ => Token(0, 0, 0));
    var out := new Byte[outCap](_ => 0);
    var ntok := Compress(src, tokens, maxTokens);
    ts := tokens[..ntok];
    RoundTrip(src, ts, outCap);
    GreedyDescribes(src, ts, 0);
    var got := Decompress(tokens, ntok, out, outCap);
    output := out[..got];
  }

  // ---- How long the parse is ----

  lemma {:induction false} FirstTokenIsLiteral(src: seq<Byte>, ts: seq<Token>)
    requires Greedy(src, ts, 0) && ts != []
    ensures ts[0] == Token(0, 0, src[0])
  {
    assert !InWindow(0, ts[0].distance);
  }

  /** Every token is a literal or a match of distance 1..512 and length 3..18, so storing it loses nothing. */
  lemma {:induction false} TokenRanges(src: seq<Byte>, ts: seq<Token>, pos: nat, i: nat)
    requires Greedy(src, ts, pos) && i < |ts|
    ensures ts[i].distance == 0 || (1 <= ts[i].distance <= 512 && 3 <= ts[i].length <= 18)
    ensures 1 <= Width(ts[i]) <= 18
  {
    if i > 0 {
      TokenRanges(src, ts[1..], pos + Width(ts[0]), i - 1);
    }
  }

  lemma {:induction false} WidthBounds(src: seq<Byte>, ts: seq<Token>, pos: nat)
    requires Greedy(src, ts, pos)
    ensures |ts| <= Covered(ts) <= MAX_MATCH * |ts|
  {
    if ts != [] {
      TokenRanges(src, ts, pos, 0);
      WidthBounds(src, ts[1..], pos + Width(ts[0]));
    }
  }

  /** A complete parse of a non-empty source has between `(|src| + 17) / 18` and `|src|` tokens, so that the reported
      ratio, at 4 bytes a token, is at least 1/4 and below 9/2. */
  lemma TokenCountAndRatio(src: seq<Byte>, ts: seq<Token>)
    requires Greedy(src, ts, 0) && Covered(ts) == |src| && src != []
    ensures |ts| <= |src| <= 18 * |ts| - 17
    ensures 0.25 <= |src| as real / (|ts| as real * 4.0) < 4.5
  {
    FirstTokenIsLiteral(src, ts);
    WidthBounds(src, ts[1..], 1);
    var n, m := |src| as real, |ts| as real * 4.0;
    RatioBounds(n, m);
  }

  // ---- Runs of equal bytes, where both limits are reached ----

  ghost predicate AllEqual(src: seq<Byte>) {
    forall i, j :: 0 <= i < j < |src| ==> src[i] == src[j]
  }

  /** Inside a run the token reaches 18 bytes forward and comes from 512 bytes back, or as far as there are bytes. */
  lemma EqualBytesToken(src: seq<Byte>, pos: nat, g: Token)
    requires AllEqual(src) && 1 <= pos && GreedyToken(src, pos, g)
    ensures if |src| - pos >= 3 then g == Token(Min(512, pos), Min(18, |src| - pos), 0) else g == Token(0, 0, src[pos])
  {
    GreedyInNumbers(src, pos, g);
    if |src| - pos >= 3 {
      assert MatchAt(src, pos, Min(512, pos), Min(18, |src| - pos));
    }
  }

  /** The number of tokens for `n` more bytes of a run: 18 bytes each, then one for 3 to 17 bytes, or a literal for each
      of one or two. */
  function RunTokens(n: nat): nat {
    n / 18 + (if n % 18 >= 3 then 1 else n % 18)
  }

  lemma RunTokensStep(n: nat)
    ensures n >= 18 ==> RunTokens(n) == 1 + RunTokens(n - 18)
    ensures 3 <= n < 18 ==> RunTokens(n) == 1
    ensures n < 3 ==> RunTokens(n) == n
  {
  }

  lemma {:induction false} EqualBytesRest(src: seq<Byte>, gs: seq<Token>, pos: nat)
    requires AllEqual(src) && 1 <= pos && Greedy(src, gs, pos) && pos + Covered(gs) == |src|
    ensures |gs| == RunTokens(|src| - pos)
    decreases |gs|
  {
    hide AllEqual, GreedyToken, RunTokens;
    RunTokensStep(|src| - pos);
    if gs != [] {
      EqualBytesToken(src, pos, gs[0]);
      RunTokensStep(|src| - pos - Width(gs[0]));
      EqualBytesRest(src, gs[1..], pos + Width(gs[0]));
    }
  }

  /** The exact number of tokens for `n` equal bytes. */
  lemma EqualBytesCount(src: seq<Byte>, gs: seq<Token>)
    requires AllEqual(src) && Greedy(src, gs, 0) && Covered(gs) == |src|
    ensures |src| == 0 ==> |gs| == 0
    ensures |src| > 0 ==>
      |gs| == 1 + (|src| - 1) / 18 + (if (|src| - 1) % 18 >= 3 then 1 else (|src| - 1) % 18)
  {
    hide AllEqual, GreedyToken;
    if gs != [] {
      FirstTokenIsLiteral(src, gs);
      EqualBytesRest(src, gs[1..], 1);
    }
  }

  lemma RatioBounds(n: real, m: real)
    requires m > 0.0 && m <= 4.0 * n && n < 4.5 * m
    ensures 0.25 <= n / m < 4.5
  {
    assert n / m * m == n;
  }

  /** What a competitor may use: literals, and matches of distance 1..512 and length 1..18. */
  predicate Admissible(t: Token) {
    t.distance == 0 || (1 <= t.distance <= 512 && 1 <= t.length <= 18)
  }

  /** From inside a token of the competitor the greedy parse gets to its end or past it in at most two tokens: what is
      left of a match is a match at the same distance, and only a rest of one or two bytes is too short to be used. */
  lemma SuffixIsReached(src: seq<Byte>, start: nat, t: Token, pos: nat, g: Token)
    requires TokenAt(src, start, t) && Admissible(t)
    requires start <= pos < start + Width(t)
    requires GreedyToken(src, pos, g)
    ensures pos + Width(g) >= start + Width(t) || (Width(g) == 1 && pos + 2 == start + Width(t))
  {
    if t.distance != 0 {
      var rest := start + Width(t) - pos;
      assert MatchAt(src, pos, t.distance, rest);
      assert InWindow(pos, t.distance);
    }
  }

  /** One for a token of one byte, two for a longer match. */
  function Price(ts: seq<Token>): (p: nat)
    ensures p <= 2 * |ts|
  {
    if ts == [] then 0 else (if Width(ts[0]) <= 1 then 1 else 2) + Price(ts[1..])
  }

  /** Greedy parsing against any other token list for the same bytes: each token of the other list costs the greedy
      parse at most its price. */
  lemma {:induction false} GreedyWithinPrice(src: seq<Byte>, gs: seq<Token>, pos: nat, ts: seq<Token>, start: nat)
    requires Greedy(src, gs, pos)
    requires Describes(src, ts, start) && (forall t :: t in ts ==> Admissible(t))
    requires start <= pos && start + Covered(ts) == |src|
    ensures |gs| <= Price(ts)
    decreases |gs| + |ts|
  {
    if gs != [] {
      assert ts != [];
      var end := start + Width(ts[0]);
      var pos1 := pos + Width(gs[0]);
      if end <= pos {
        GreedyWithinPrice(src, gs, pos, ts[1..], end);
      } else {
        SuffixIsReached(src, start, ts[0], pos, gs[0]);
        if end <= pos1 {
          GreedyWithinPrice(src, gs[1..], pos1, ts[1..], end);
        } else if |gs| > 1 {
          SuffixIsReached(src, start, ts[0], pos1, gs[1]);
          assert gs[1..][1..] == gs[2..];
          GreedyWithinPrice(src, gs[2..], pos1 + Width(gs[1]), ts[1..], end);
        }
      }
    }
  }

  lemma DecodesToDescribes(src: seq<Byte>, ts: seq<Token>)
    requires Decodable(ts, 0, |src| + 1) && Decode(ts, [], |src| + 1) == src
    ensures Describes(src, ts, 0) && Covered(ts) == |src|
    ensures ts != [] ==> Runnable(0, ts[0])
    ensures src != [] ==> ts != []
  {
    assert src[..0] == [];
    DescribesIffDecodes(src, ts, 0);
  }

  /** The bound in terms of decompression: however many tokens the compressor was allowed to emit, no admissible list
      of `m` tokens that decompresses to `src` leaves it at `2 * m` tokens or more, unless `src` is empty. */
  lemma CompressorWithinTwice(src: seq<Byte>, gs: seq<Token>, ts: seq<Token>)
    requires Greedy(src, gs, 0)
    requires forall t :: t in ts ==> Admissible(t)
    requires Decodable(ts, 0, |src| + 1) && Decode(ts, [], |src| + 1) == src
    ensures |gs| <= Price(ts) <= 2 * |ts|
    ensures src != [] ==> |gs| < 2 * |ts|
  {
    hide Greedy, Describes, Decodable, Decode, Admissible, Price;
    DecodesToDescribes(src, ts);
    GreedyWithinPrice(src, gs, 0, ts, 0);
    if src != [] {
      assert ts[0] in ts;
      FirstTokenIsCheap(ts);
    }
  }

  lemma FirstTokenIsCheap(ts: seq<Token>)
    requires ts != [] && Runnable(0, ts[0]) && Admissible(ts[0])
    ensures Price(ts) <= 2 * |ts| - 1
  {
  }

  /** The compressor does not always emit the fewest tokens: three equal bytes take it three literals, while a literal
      and a match of length 2, shorter than `MIN_MATCH`, would do.  Here the bound is attained: 3 is `2 * 2 - 1`. */
  lemma GreedyIsNotOptimal(gs: seq<Token>)
    requires Greedy([7, 7, 7], gs, 0) && Covered(gs) == 3
    ensures |gs| == 3
    ensures Decodable([Token(0, 0, 7), Token(1, 2, 0)], 0, 4)
    ensures Decode([Token(0, 0, 7), Token(1, 2, 0)], [], 4) == [7, 7, 7]
  {
    var src: seq<Byte> := [7, 7, 7];
    var ts := [Token(0, 0, 7), Token(1, 2, 0)];
    WidthBounds(src, gs, 0);
    FirstTokenIsLiteral(src, gs);
    GreedyDescribes(src, gs[1..], 1);
    DescribedLength(src, gs[1..], 1);
    GreedyDescribes(src, gs[1..][1..], 2);
    DescribedLength(src, gs[1..][1..], 2);
    assert ts[1..] == [Token(1, 2, 0)] && ts[1..][1..] == [];
    assert src[..0] == [];
    assert Describes(src, ts[1..], 1);
    DecodeDescription(src, ts, 0, 4);
  }
}
