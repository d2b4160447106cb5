/** The LZ77 compressor and decompressor of benchmark/src/compression.c.

    A token list is given two meanings that do not mention each other: `Decode` runs it, and
    `Describes` says that it spells a stretch of a given source.  `DescribesIffDecodes` connects them.
 */
module Lz77 {
  const WINDOW_SIZE: nat := 512
  const MIN_MATCH: nat := 3
  const MAX_MATCH: nat := 18

  type Byte = bv8
  type Uint8 = x: int | 0 <= x < 0x100
  type Uint16 = x: int | 0 <= x < 0x1_0000

  /** `distance == 0` marks a literal, whose byte is `lit`. */
  datatype Token = Token(distance: Uint16, length: Uint8, lit: Byte)

  function Min(a: int, b: int): int { if a <= b then a else b }

  /** The number of bytes a token stands for. */
  function Width(t: Token): nat {
    if t.distance == 0 then 1 else t.length
  }

  function Covered(ts: seq<Token>): nat {
    if ts == [] then 0 else Width(ts[0]) + Covered(ts[1..])
  }

  // ---- What a token list says about a source ----

  /** The `len` bytes of `src` at `pos` repeat the bytes `dist` places earlier.  The two stretches may overlap. */
  predicate MatchAt(src: seq<Byte>, pos: nat, dist: nat, len: nat) {
    && 1 <= dist <= pos
    && pos + len <= |src|
    && forall i :: pos <= i < pos + len ==> src[i] == src[i - dist]
  }

  predicate TokenAt(src: seq<Byte>, pos: nat, t: Token) {
    if t.distance == 0 then pos < |src| && src[pos] == t.lit
    else (t.length == 0 && pos <= |src|) || MatchAt(src, pos, t.distance, t.length)
  }

  /** `ts` spells `src[pos .. pos + Covered(ts)]`. */
  predicate Describes(src: seq<Byte>, ts: seq<Token>, pos: nat) {
    ts == [] || (TokenAt(src, pos, ts[0]) && Describes(src, ts[1..], pos + Width(ts[0])))
  }

  // ---- What a token list does when run ----

  /** Copies `len` bytes one at a time, each from `dist` places before the end, so that a copy may read its own
      output. */
  function CopyBack(out: seq<Byte>, dist: nat, len: nat): (r: seq<Byte>)
    requires len == 0 || 1 <= dist <= |out|
    ensures |r| == |out| + len && out <= r
    decreases len
  {
    if len == 0 then out else CopyBack(out + [out[|out| - dist]], dist, len - 1)
  }

  function Apply(out: seq<Byte>, t: Token): (r: seq<Byte>)
    requires Runnable(|out|, t)
    ensures |r| == |out| + Width(t) && out <= r
  {
    if t.distance == 0 then out + [t.lit] else CopyBack(out, t.distance, t.length)
  }

  /** A token that copies nothing may carry any distance. */
  predicate Runnable(pos: nat, t: Token) {
    t.distance == 0 || t.length == 0 || t.distance <= pos
  }

  /** No token that is reached before `cap` bytes are out refers to a place before the first byte. */
  predicate Decodable(ts: seq<Token>, pos: nat, cap: nat) {
    ts == [] || pos >= cap || (Runnable(pos, ts[0]) && Decodable(ts[1..], pos + Width(ts[0]), cap))
  }

  /** The output of running `ts` after `out`, stopping once `cap` bytes are there. */
  function Decode(ts: seq<Token>, out: seq<Byte>, cap: nat): (r: seq<Byte>)
    requires Decodable(ts, |out|, cap)
    requires |out| <= cap
    ensures out <= r && |r| == Min(cap, |out| + Covered(ts))
  {
    if ts == [] || |out| >= cap then out
    else
      var next := Apply(out, ts[0]);
      if |next| >= cap then next[..cap] else Decode(ts[1..], next, cap)
  }

  lemma {:induction false} CopyBackIsMatch(out: seq<Byte>, dist: nat, len: nat)
    requires 1 <= dist <= |out|
    ensures MatchAt(CopyBack(out, dist, len), |out|, dist, len)
    decreases len
  {
    if len > 0 {
      var next := out + [out[|out| - dist]];
      CopyBackIsMatch(next, dist, len - 1);
      assert CopyBack(out, dist, len)[..|next|] == next;
      assert CopyBack(out, dist, len)[|out|] == next[|out|];
      assert CopyBack(out, dist, len)[|out| - dist] == next[|out| - dist];
    }
  }

  lemma {:induction false} MatchIsCopyBack(src: seq<Byte>, pos: nat, dist: nat, len: nat)
    requires MatchAt(src, pos, dist, len)
    ensures CopyBack(src[..pos], dist, len) == src[..pos + len]
    decreases len
  {
    if len > 0 {
      assert src[..pos] + [src[pos - dist]] == src[..pos + 1];
      MatchIsCopyBack(src, pos + 1, dist, len - 1);
    }
  }

  /** One token: it reads as `src` at `pos` exactly when running it continues `src[..pos]` along `src`. */
  lemma {:induction false} TokenAtIffApplies(src: seq<Byte>, pos: nat, t: Token)
    requires pos <= |src|
    ensures TokenAt(src, pos, t) <==> Runnable(pos, t) && Apply(src[..pos], t) <= src
  {
    if t.distance == 0 {
      if pos < |src| && src[pos] == t.lit {
        assert src[..pos] + [t.lit] == src[..pos + 1];
      }
    } else if t.length != 0 {
      if TokenAt(src, pos, t) {
        MatchIsCopyBack(src, pos, t.distance, t.length);
      } else if Runnable(pos, t) {
        CopyBackIsMatch(src[..pos], t.distance, t.length);
      }
    }
  }

  lemma {:induction false} DescribedLength(src: seq<Byte>, ts: seq<Token>, pos: nat)
    requires pos <= |src| && Describes(src, ts, pos)
    ensures pos + Covered(ts) <= |src|
  {
    if ts != [] {
      DescribedLength(src, ts[1..], pos + Width(ts[0]));
    }
  }

  /** The relational and the operational meaning agree: a list decodes to a prefix of `src` from
      `src[..pos]` exactly when it describes `src` from `pos`. */
  lemma {:induction false} DescribesIffDecodes(src: seq<Byte>, ts: seq<Token>, pos: nat)
    requires pos <= |src|
    ensures Describes(src, ts, pos)
       <==> Decodable(ts, pos, |src| + 1) && Decode(ts, src[..pos], |src| + 1) <= src
    decreases |ts|
  {
    hide TokenAt, Apply;
    if Describes(src, ts, pos) {
      DescribedLength(src, ts, pos);
    }
    if ts != [] && pos + Covered(ts) <= |src| {
      TokenAtIffApplies(src, pos, ts[0]);
      var next := pos + Width(ts[0]);
      if Runnable(pos, ts[0]) {
        if Apply(src[..pos], ts[0]) <= src {
          assert Apply(src[..pos], ts[0]) == src[..next];
          DescribesIffDecodes(src, ts[1..], next);
        } else if Decodable(ts, pos, |src| + 1) {
          var r := Decode(ts, src[..pos], |src| + 1);
          assert Apply(src[..pos], ts[0]) <= r;
        }
      }
    }
  }

  /** Running a description of `src` with room for `cap` bytes gives exactly what it covers of `src`, cut at `cap`. */
  lemma {:induction false} DecodeDescription(src: seq<Byte>, ts: seq<Token>, pos: nat, cap: nat)
    requires pos <= |src| && pos <= cap
    requires Describes(src, ts, pos)
    ensures Decodable(ts, pos, cap)
    ensures pos + Covered(ts) <= |src|
    ensures Decode(ts, src[..pos], cap) == src[..Min(cap, pos + Covered(ts))]
    decreases |ts|
  {
    hide Apply, TokenAt;
    DescribedLength(src, ts, pos);
    if ts != [] && pos < cap {
      TokenAtIffApplies(src, pos, ts[0]);
      var next := pos + Width(ts[0]);
      DescribedLength(src, ts[1..], next);
      assert Apply(src[..pos], ts[0]) == src[..next];
      if next < cap {
        DecodeDescription(src, ts[1..], next, cap);
        assert Decode(ts, src[..pos], cap) == Decode(ts[1..], src[..next], cap);
      } else {
        assert src[..next][..cap] == src[..cap];
      }
    }
  }

  // ---- The decompressor ----

  lemma {:induction false} CopyBackSplit(out: seq<Byte>, dist: nat, k: nat)
    requires 1 <= dist <= |out|
    ensures CopyBack(out, dist, k + 1) == CopyBack(out, dist, k) + [CopyBack(out, dist, k)[|out| + k - dist]]
    decreases k
  {
    if k > 0 {
      CopyBackSplit(out + [out[|out| - dist]], dist, k - 1);
    }
  }

  lemma {:induction false} CopyBackPrefix(out: seq<Byte>, dist: nat, k: nat, len: nat)
    requires 1 <= dist <= |out|
    requires k <= len
    ensures CopyBack(out, dist, k) == CopyBack(out, dist, len)[..|out| + k]
    decreases k
  {
    if k > 0 {
      CopyBackPrefix(out + [out[|out| - dist]], dist, k - 1, len - 1);
    } else {
      assert out <= CopyBack(out, dist, len);
    }
  }

  /** The inner loop of `Decompress`: copies up to `len` bytes from `dist` places back, never past `outCap`.
      Each byte read lies at or after the start of `out` and before the write position. */
  method CopyMatch(out: array<Byte>, at: nat, dist: nat, len: nat, outCap: nat) returns (pos: nat)
    requires at < outCap <= out.Length
    requires len == 0 || 1 <= dist <= at
    modifies out
    ensures pos == Min(outCap, at + len)
    ensures out[..pos] == CopyBack(old(out[..at]), dist, len)[..pos]
    ensures forall j :: pos <= j < out.Length ==> out[j] == old(out[j])
  {
    ghost var before := out[..at];
    var start: int := at - dist;
    pos := at;
    var k := 0;
    while k < len && pos < outCap
      invariant 0 <= k <= len && pos == at + k <= outCap
      invariant out[..pos] == CopyBack(before, dist, k)
      invariant forall j :: pos <= j < out.Length ==> out[j] == old(out[j])
    {
      assert 0 <= start + k < pos;
      CopyBackSplit(before, dist, k);
      out[pos] := out[start + k];
      pos := pos + 1;
      k := k + 1;
    }
    if len > 0 {
      CopyBackPrefix(before, dist, k, len);
    }
  }

  /** The body of the loop of `Decompress`: runs one token, never past `outCap`. */
  method RunToken(out: array<Byte>, at: nat, t: Token, outCap: nat) returns (pos: nat)
    requires at < outCap <= out.Length && Runnable(at, t)
    modifies out
    ensures pos == Min(outCap, at + Width(t))
    ensures out[..pos] == Apply(old(out[..at]), t)[..pos]
    ensures forall j :: pos <= j < out.Length ==> out[j] == old(out[j])
  {
    if t.distance == 0 {
      out[at] := t.lit;
      pos := at + 1;
    } else {
      pos := CopyMatch(out, at, t.distance, t.length, outCap);
    }
  }

  lemma DecodeStep(ts: seq<Token>, i: nat, out: seq<Byte>, cap: nat)
    requires i < |ts| && |out| < cap
    requires Decodable(ts[i..], |out|, cap)
    ensures Runnable(|out|, ts[i])
    ensures var next := Apply(out, ts[i]);
      var cut := next[..Min(cap, |next|)];
      Decodable(ts[i + 1..], |cut|, cap) && Decode(ts[i..], out, cap) == Decode(ts[i + 1..], cut, cap)
  {
    assert ts[i..][1..] == ts[i + 1..];
    var next := Apply(out, ts[i]);
    assert |next| <= cap ==> next[..|next|] == next;
  }

  lemma DecodeDone(ts: seq<Token>, i: nat, out: seq<Byte>, cap: nat)
    requires i <= |ts| && |out| <= cap && (i == |ts| || |out| == cap)
    requires Decodable(ts[i..], |out|, cap)
    ensures Decode(ts[i..], out, cap) == out
  {
  }

  /** Fills `out` and returns how much of it was written. */
  method Decompress(tokens: array<Token>, ntok: nat, out: array<Byte>, outCap: nat) returns (pos: nat)
    requires ntok <= tokens.Length && outCap <= out.Length
    requires (tokens as object) != (out as object)
    requires Decodable(tokens[..ntok], 0, outCap)
    modifies out
    ensures pos == Min(outCap, Covered(tokens[..ntok]))
    ensures out[..pos] == Decode(tokens[..ntok], [], outCap)
    ensures forall j :: pos <= j < out.Length ==> out[j] == old(out[j])
  {
    hide Decode, Decodable, Apply;
    ghost var all := tokens[..ntok];
    ghost var done: seq<Byte> := [];
    pos := 0;
    var i := 0;
    assert all[0..] == all;
    while i < ntok && pos < outCap
      invariant 0 <= i <= ntok && |done| == pos <= outCap
      invariant out[..pos] == done
      invariant forall j :: pos <= j < out.Length ==> out[j] == old(out[j])
      invariant Decodable(all[i..], pos, outCap)
      invariant Decode(all[i..], done, outCap) == Decode(all, [], outCap)
    {
      DecodeStep(all, i, done, outCap);
      ghost var next := Apply(done, all[i]);
      pos := RunToken(out, pos, tokens[i], outCap);
      done := next[..pos];
      i := i + 1;
    }
    DecodeDone(all, i, done, outCap);
  }
}
