/**
 * The two pure list helpers of the speech-recognition utilities module:
 * the projection of the transcript field out of a list of records
 * (get_text_list) and the validity mask of a padded sequence
 * (get_pad_mask), whose `true` entries mark real frames and whose `false`
 * entries mark padding.
 */
module Utils {

  // ------------------------------------------------------------------------
  // get_text_list
  // ------------------------------------------------------------------------

  /** Outcome of projecting the text field out of a list of records. The
      Python comprehension raises KeyError at the first record (in list
      order) that lacks the key; the model reports that record's position. */
  datatype TextList<V> = Texts(texts: seq<V>) | KeyError(at: nat)

  /** Every record carries `key`. */
  predicate AllHaveKey<K, V>(data: seq<map<K, V>>, key: K)
  {
    forall i :: 0 <= i < |data| ==> key in data[i]
  }

  /** `[item[key] for item in data]`, where `key` is the project's text-key
      constant, passed in as a parameter. */
  function GetTextList<K, V>(data: seq<map<K, V>>, key: K): (r: TextList<V>)
    ensures r.Texts? <==> AllHaveKey(data, key)
    ensures r.Texts? ==> |r.texts| == |data|
    ensures r.Texts? ==> forall i :: 0 <= i < |data| ==> r.texts[i] == data[i][key]
    ensures r.KeyError? ==> r.at < |data| && key !in data[r.at]
    ensures r.KeyError? ==> forall j :: 0 <= j < r.at ==> key in data[j]
  {
    if |data| == 0 then Texts([])
    else if key !in data[0] then KeyError(0)
    else
      match GetTextList(data[1..], key)
      case Texts(rest) => Texts([data[0][key]] + rest)
      case KeyError(j) => KeyError(j + 1)
  }

  /** The projection of `a + b` is the projection of `a` followed by that of
      `b`; a missing key in `b` is reported at its position in `a + b`. */
  lemma {:induction false} GetTextListConcat<K, V>(a: seq<map<K, V>>, b: seq<map<K, V>>, key: K)
    ensures GetTextList(a + b, key) ==
      match GetTextList(a, key)
      case KeyError(i) => KeyError(i)
      case Texts(ta) =>
        match GetTextList(b, key)
        case KeyError(j) => KeyError(|a| + j)
        case Texts(tb) => Texts(ta + tb)
  {
    if |a| > 0 {
      assert (a + b)[1..] == a[1..] + b;
      GetTextListConcat(a[1..], b, key);
    } else {
      assert a + b == b;
    }
  }

  // ------------------------------------------------------------------------
  // get_pad_mask
  // ------------------------------------------------------------------------

  /** The list `[i < seqLen for i in range(n)]`, built one iteration at a
      time; Python's `range(n)` is empty when `n <= 0`. */
  function MaskUpTo(n: int, seqLen: int): (mask: seq<bool>)
    ensures |mask| == if n <= 0 then 0 else n
    ensures forall i :: 0 <= i < |mask| ==> (mask[i] <==> i < seqLen)
    decreases n
  {
    if n <= 0 then [] else MaskUpTo(n - 1, seqLen) + [n - 1 < seqLen]
  }

  /** get_pad_mask(seq_len, pad_len) before its tensor wrapping: one entry
      per position of the padded sequence, `true` exactly on the first
      `seqLen` positions. */
  function PadMask(seqLen: int, padLen: int): (mask: seq<bool>)
    ensures |mask| == if seqLen + padLen <= 0 then 0 else seqLen + padLen
    ensures forall i :: 0 <= i < |mask| ==> (mask[i] <==> i < seqLen)
  {
    MaskUpTo(seqLen + padLen, seqLen)
  }

  /** Number of entries of `mask` equal to `b`. */
  function CountOf(mask: seq<bool>, b: bool): (n: nat)
    ensures n <= |mask|
  {
    if |mask| == 0 then 0
    else CountOf(mask[..|mask| - 1], b) + (if mask[|mask| - 1] == b then 1 else 0)
  }

  /** Every entry is either `true` or `false`. */
  lemma {:induction false} CountOfSplits(mask: seq<bool>)
    ensures CountOf(mask, true) + CountOf(mask, false) == |mask|
  {
    if |mask| > 0 {
      CountOfSplits(mask[..|mask| - 1]);
    }
  }

  /** The sequence of `n` copies of `b`. */
  function Constant(b: bool, n: nat): (s: seq<bool>)
  {
    seq(n, _ => b)
  }

  /** The smaller of `x` and `y`. */
  function Min(x: int, y: int): (m: int) { if x <= y then x else y }

  /** The larger of `x` and `y`. */
  function Max(x: int, y: int): (m: int) { if x <= y then y else x }

  /** For any integer `n`, `[i < seqLen for i in range(n)]` has
      `max(0, min(seqLen, n))` entries that are `true`. */
  lemma {:induction false} MaskUpToCount(n: int, seqLen: int)
    ensures CountOf(MaskUpTo(n, seqLen), true) == Max(0, Min(seqLen, n))
    decreases n
  {
    if n > 0 {
      var m := MaskUpTo(n, seqLen);
      assert m[..|m| - 1] == MaskUpTo(n - 1, seqLen);
      MaskUpToCount(n - 1, seqLen);
    }
  }

  /** For any Python integers: the mask has `max(0, min(seqLen, seqLen +
      padLen))` valid positions and the rest of its entries are padding. */
  lemma PadMaskCount(seqLen: int, padLen: int)
    ensures CountOf(PadMask(seqLen, padLen), true) == Max(0, Min(seqLen, seqLen + padLen))
    ensures CountOf(PadMask(seqLen, padLen), false)
      == |PadMask(seqLen, padLen)| - Max(0, Min(seqLen, seqLen + padLen))
  {
    MaskUpToCount(seqLen + padLen, seqLen);
    CountOfSplits(PadMask(seqLen, padLen));
  }

  /** For non-negative lengths: the mask has `seqLen + padLen`
      entries, `seqLen` of them valid and `padLen` of them padding. */
  lemma PadMaskLengths(seqLen: nat, padLen: nat)
    ensures |PadMask(seqLen, padLen)| == seqLen + padLen
    ensures CountOf(PadMask(seqLen, padLen), true) == seqLen
    ensures CountOf(PadMask(seqLen, padLen), false) == padLen
  {
    PadMaskCount(seqLen, padLen);
  }

  /** No valid position follows a padded one. */
  lemma PadMaskPrefixClosed(seqLen: int, padLen: int, i: nat, j: nat)
    requires i < j < |PadMask(seqLen, padLen)|
    requires PadMask(seqLen, padLen)[j]
    ensures PadMask(seqLen, padLen)[i]
  {
  }

  /** The mask is a block of valid positions followed by a block of padding. */
  lemma PadMaskBlocks(seqLen: nat, padLen: nat)
    ensures PadMask(seqLen, padLen) == Constant(true, seqLen) + Constant(false, padLen)
  {
  }

  /** Without padding every position is valid. */
  lemma PadMaskNoPadding(seqLen: nat)
    ensures PadMask(seqLen, 0) == Constant(true, seqLen)
  {
  }

  /** An empty sequence padded to `padLen` is all padding. */
  lemma PadMaskAllPadding(padLen: nat)
    ensures PadMask(0, padLen) == Constant(false, padLen)
  {
  }

  /** The unpadded length and the padding length can be read back from the
      mask, so different lengths give different masks. */
  lemma PadMaskInjective(s1: nat, p1: nat, s2: nat, p2: nat)
    requires PadMask(s1, p1) == PadMask(s2, p2)
    ensures s1 == s2 && p1 == p2
  {
    PadMaskLengths(s1, p1);
    PadMaskLengths(s2, p2);
  }
}
