/** The integer and sequence parts of the server's inference helpers: padding a
    signal to whole windows, cutting it into windows, joining the processed windows
    and trimming the padding, and renaming the keys of a saved weight dictionary.
    A signal is its time axis, a sequence of samples. */
module Inference {
  import opened Wrappers
  import opened Text

  /** The number of zero samples that brings a length up to a multiple of `segLen`. */
  function Pad(t: nat, segLen: nat): nat
    requires segLen > 0
  {
    (segLen - t % segLen) % segLen
  }

  lemma PadBounds(t: nat, segLen: nat)
    requires segLen > 0
    ensures Pad(t, segLen) < segLen
    ensures (t + Pad(t, segLen)) % segLen == 0
    ensures Pad(t, segLen) == 0 <==> t % segLen == 0
  {
    var r := t % segLen;
    var q := t / segLen;
    assert t == q * segLen + r;
    if r == 0 {
      DivModOf(segLen, 1, 0, segLen);
      DivModOf(t, q, 0, segLen);
    } else {
      DivModOf(segLen - r, 0, segLen - r, segLen);
      assert (q + 1) * segLen == q * segLen + segLen;
      DivModOf(t + (segLen - r), q + 1, 0, segLen);
    }
  }

  function Zeros<T>(n: nat, zero: T): (z: seq<T>)
    ensures |z| == n && forall i :: 0 <= i < n ==> z[i] == zero
  {
    seq(n, _ => zero)
  }

  /** `x.unfold(dimension, size, step)` along the time axis with `step == size`:
      consecutive windows of `size` samples, a shorter tail being dropped. */
  function Unfold<T>(s: seq<T>, size: nat): (w: seq<seq<T>>)
    requires size > 0
    ensures forall k :: 0 <= k < |w| ==> |w[k]| == size
    decreases |s|
  {
    if |s| < size then [] else [s[..size]] + Unfold(s[size..], size)
  }

  datatype Segments<T> = Segments(windows: seq<seq<T>>, pad: nat)

  /** `_split_into_segments`: pad with zeros at the end, then cut into windows of
      `segLen`. An empty signal has no window of that size, which `unfold` rejects
      (`None`). */
  function SplitIntoSegments<T>(x: seq<T>, segLen: nat, zero: T): (r: Option<Segments<T>>)
    requires segLen > 0
    ensures r.None? <==> |x| == 0
  {
    var pad := Pad(|x|, segLen);
    var padded := if pad != 0 then x + Zeros(pad, zero) else x;
    if |padded| < segLen then None
    else Some(Segments(Unfold(padded, segLen), pad))
  }

  function Concat<T>(chunks: seq<seq<T>>): (r: seq<T>)
  {
    if chunks == [] then [] else chunks[0] + Concat(chunks[1..])
  }

  /** `_concat_and_trim`: join the windows and drop the last `pad` samples; an empty
      list is rejected by `torch.cat` (`None`). A `pad` longer than the joined
      signal leaves nothing, as Python's `[:-pad]` does. */
  function ConcatAndTrim<T>(chunks: seq<seq<T>>, pad: nat): (r: Option<seq<T>>)
    ensures r.None? <==> chunks == []
    ensures r.Some? && pad == 0 ==> r.value == Concat(chunks)
    ensures r.Some? && pad <= |Concat(chunks)| ==>
              |r.value| == |Concat(chunks)| - pad && r.value == Concat(chunks)[..|r.value|]
    ensures r.Some? && pad > |Concat(chunks)| ==> r.value == []
  {
    if chunks == [] then None
    else
      var full := Concat(chunks);
      Some(if pad != 0 then full[..if pad <= |full| then |full| - pad else 0] else full)
  }

  // ---- arithmetic ----

  lemma AtLeastOnce(k: int, d: nat)
    requires k >= 1
    ensures k * d >= d
  {
    assert k * d == d + (k - 1) * d;
  }

  lemma MulMono(k: nat, m: nat, d: nat)
    requires k <= m
    ensures k * d <= m * d
  {
    assert m * d == k * d + (m - k) * d;
  }

  /** Quotient and remainder are unique. */
  lemma DivModOf(n: nat, q: nat, r: nat, d: nat)
    requires 0 <= r < d && n == q * d + r
    ensures n / d == q && n % d == r
  {
    var Q := n / d;
    var R := n % d;
    assert n == Q * d + R;
    assert (q - Q) * d == R - r;
    if q > Q {
      AtLeastOnce(q - Q, d);
    } else if q < Q {
      AtLeastOnce(Q - q, d);
    }
  }

  lemma MulSucc(k: nat, d: nat)
    ensures k * d + d == (k + 1) * d
  {
  }

  /** A multiple of `d` is its quotient times `d`. */
  lemma ExactDiv(n: nat, d: nat)
    requires d > 0 && n % d == 0
    ensures n == (n / d) * d
  {
  }

  // ---- windows ----

  /** A signal of `q` whole windows unfolds into `q` windows. */
  lemma {:induction false} UnfoldLength<T>(s: seq<T>, size: nat, q: nat)
    requires size > 0 && |s| == q * size
    ensures |Unfold(s, size)| == q
    decreases q
  {
    if q == 0 {
      assert |s| == 0;
    } else {
      AtLeastOnce(q, size);
      MulSucc(q - 1, size);
      UnfoldLength(s[size..], size, q - 1);
    }
  }

  /** Window k is samples `[k * size, (k + 1) * size)`, whenever the signal reaches
      that far. */
  lemma {:induction false} WindowAt<T>(s: seq<T>, size: nat, k: nat)
    requires size > 0 && k * size + size <= |s|
    ensures k < |Unfold(s, size)|
    ensures Unfold(s, size)[k] == s[k * size .. k * size + size]
    decreases k
  {
    MulSucc(k, size);
    if k == 0 {
      assert 0 * size == 0;
    } else {
      var rest := s[size..];
      WindowAt(rest, size, k - 1);
      MulSucc(k - 1, size);
      assert rest[(k - 1) * size .. (k - 1) * size + size] == s[k * size .. k * size + size];
    }
  }

  /** Joining the windows of a signal of `q` whole windows gives the signal back. */
  lemma {:induction false} ConcatUnfold<T>(s: seq<T>, size: nat, q: nat)
    requires size > 0 && |s| == q * size
    ensures Concat(Unfold(s, size)) == s
    decreases q
  {
    if q == 0 {
      assert |s| == 0;
    } else {
      AtLeastOnce(q, size);
      MulSucc(q - 1, size);
      ConcatUnfold(s[size..], size, q - 1);
      assert s[..size] + s[size..] == s;
    }
  }

  /** A signal of `q` whole windows unfolds into `q` windows, window k being samples
      `[k * size, (k + 1) * size)`. */
  lemma Windows<T>(s: seq<T>, size: nat, q: nat)
    requires size > 0 && |s| == q * size
    ensures |Unfold(s, size)| == q
    ensures forall k :: 0 <= k < q ==>
              k * size + size <= |s| && Unfold(s, size)[k] == s[k * size .. k * size + size]
  {
    UnfoldLength(s, size, q);
    forall k | 0 <= k < q
      ensures k * size + size <= |s| && Unfold(s, size)[k] == s[k * size .. k * size + size]
    {
      MulMono(k + 1, q, size);
      MulSucc(k, size);
      WindowAt(s, size, k);
    }
  }

  /** Splitting pads a non-empty signal at the end with `Pad` zeros (less than one
      window) to a whole number of windows and unfolds the padded signal. */
  lemma SegmentsShape<T>(x: seq<T>, segLen: nat, zero: T)
    requires segLen > 0 && |x| > 0
    ensures SplitIntoSegments(x, segLen, zero).Some?
    ensures SplitIntoSegments(x, segLen, zero).value.pad == Pad(|x|, segLen) < segLen
    ensures var padded := x + Zeros(Pad(|x|, segLen), zero);
            |padded| % segLen == 0 &&
            SplitIntoSegments(x, segLen, zero).value.windows == Unfold(padded, segLen)
  {
    PadBounds(|x|, segLen);
    var pad := Pad(|x|, segLen);
    assert pad == 0 ==> x + Zeros(pad, zero) == x;
  }

  /** There are `(T + pad) / segLen` windows, window k being samples
      `[k * segLen, (k + 1) * segLen)` of the padded signal. */
  lemma SplitWindows<T>(x: seq<T>, segLen: nat, zero: T)
    requires segLen > 0 && |x| > 0
    ensures SplitIntoSegments(x, segLen, zero).Some?
    ensures var padded := x + Zeros(Pad(|x|, segLen), zero);
            var w := SplitIntoSegments(x, segLen, zero).value.windows;
            |w| == |padded| / segLen &&
            forall k :: 0 <= k < |w| ==>
              k * segLen + segLen <= |padded| && w[k] == padded[k * segLen .. k * segLen + segLen]
  {
    SegmentsShape(x, segLen, zero);
    var padded := x + Zeros(Pad(|x|, segLen), zero);
    var w := SplitIntoSegments(x, segLen, zero).value.windows;
    assert w == Unfold(padded, segLen);
    var q := |padded| / segLen;
    ExactDiv(|padded|, segLen);
    Windows(padded, segLen, q);
    assert |w| == q;
    forall k | 0 <= k < |w|
      ensures k * segLen + segLen <= |padded| && w[k] == padded[k * segLen .. k * segLen + segLen]
    {
      assert k < q;
    }
  }

  /** Splitting a non-empty signal and joining its windows again, trimming the pad,
      gives back the signal, same length, same samples. */
  lemma RoundTrip<T>(x: seq<T>, segLen: nat, zero: T)
    requires segLen > 0 && |x| > 0
    ensures SplitIntoSegments(x, segLen, zero).Some?
    ensures var sp := SplitIntoSegments(x, segLen, zero).value;
            ConcatAndTrim(sp.windows, sp.pad) == Some(x)
  {
    SegmentsShape(x, segLen, zero);
    var pad := Pad(|x|, segLen);
    var padded := x + Zeros(pad, zero);
    ExactDiv(|padded|, segLen);
    ConcatUnfold(padded, segLen, |padded| / segLen);
    assert padded[..|padded| - pad] == x;
  }

  // ---- weight keys ----

  const CompiledPrefix := "_orig_mod."

  /** Python's `str.removeprefix`. */
  function RemovePrefix(s: string, prefix: string): (r: string)
    ensures StartsWith(s, prefix) ==> prefix + r == s
    ensures !StartsWith(s, prefix) ==> r == s
  {
    if StartsWith(s, prefix) then s[|prefix|..] else s
  }

  /** At most one leading `_orig_mod.` is removed, and no other part of a key is
      rewritten (there is no `.block.` to `.net.` rename). */
  lemma RemovePrefixOnce(key: string)
    ensures RemovePrefix(CompiledPrefix + CompiledPrefix + key, CompiledPrefix) == CompiledPrefix + key
    ensures RemovePrefix(CompiledPrefix + key, CompiledPrefix) == key
    ensures RemovePrefix("enc.block.0.weight", CompiledPrefix) == "enc.block.0.weight"
  {
    assert (CompiledPrefix + CompiledPrefix + key)[..|CompiledPrefix|] == CompiledPrefix;
    assert (CompiledPrefix + key)[..|CompiledPrefix|] == CompiledPrefix;
    assert "enc.block.0.weight"[0] != CompiledPrefix[0];
  }

  /** `_remap`: the items of the loaded dictionary, in order, copied into a new one
      under their keys with the compile prefix removed. A later item whose key
      maps to the same name overwrites an earlier one. */
  method Remap<V>(items: seq<(string, V)>) returns (out: map<string, V>)
    ensures forall i :: 0 <= i < |items| ==> RemovePrefix(items[i].0, CompiledPrefix) in out
    ensures forall k :: k in out ==>
              exists i :: 0 <= i < |items| && RemovePrefix(items[i].0, CompiledPrefix) == k
    ensures forall i :: 0 <= i < |items| &&
              (forall j :: i < j < |items| ==>
                 RemovePrefix(items[j].0, CompiledPrefix) != RemovePrefix(items[i].0, CompiledPrefix))
              ==> out[RemovePrefix(items[i].0, CompiledPrefix)] == items[i].1
  {
    out := map[];
    for n := 0 to |items|
      invariant forall i :: 0 <= i < n ==> RemovePrefix(items[i].0, CompiledPrefix) in out
      invariant forall k :: k in out ==>
                  exists i :: 0 <= i < n && RemovePrefix(items[i].0, CompiledPrefix) == k
      invariant forall i :: 0 <= i < n &&
                  (forall j :: i < j < n ==>
                     RemovePrefix(items[j].0, CompiledPrefix) != RemovePrefix(items[i].0, CompiledPrefix))
                  ==> out[RemovePrefix(items[i].0, CompiledPrefix)] == items[i].1
    {
      var key := RemovePrefix(items[n].0, CompiledPrefix);
      out := out[key := items[n].1];
    }
  }
}
