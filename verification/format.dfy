/** The formatter as the Go code runs it: a dispatch on the value's kind and
    a slice loop that stops at the item limit. Each is held to `ValueText`. */
module Format {
  import opened Wrappers
  import opened Text
  import opened Decimal
  import opened Configuration
  import opened Values

  /** `valueOf`: the cell text of one value. */
  method ValueOf(v: Value, s: Settings, ff: FloatFormat) returns (r: string)
    ensures r == ValueText(v, s, ff)
    ensures v.IntVal? ==> r == DecimalText(v.n)
    ensures v.IntVal? && InWidth(v.width, v.n) ==> ParseInt(r) == Some(v.n)
    ensures v.BoolVal? ==> r == (if v.b then "true" else "false")
    ensures v.FloatVal? ==> r == ff(v.bits, s.floatPrecision)
    ensures v.StringVal? ==> r == v.s
    ensures v == PtrVal(None) ==> r == ""
    ensures v.PtrVal? && v.target.Some? ==> r == ValueText(v.target.value, s, ff)
    ensures v.OtherVal? ==> r == "<Unsupported kind:" + KindName(v.kind) + ">"
    decreases v, 1
  {
    match v
    case IntVal(w, n) =>
      r := DecimalText(n);
      if InWidth(w, n) {
        DecimalRoundTrip(n);
      }
    case SliceVal(_, _) =>
      r := ValueOfSlice(v, s, ff);
    case BoolVal(b) =>
      r := if b then "true" else "false";
    case FloatVal(_, bits) =>
      r := ff(bits, s.floatPrecision);
    case StringVal(t) =>
      r := t;
    case PtrVal(target) =>
      if target.None? {
        r := "";
      } else {
        r := ValueOf(target.value, s, ff);
      }
    case OtherVal(k) =>
      r := "<Unsupported kind:" + KindName(k) + ">";
  }

  /** `valueOfSlice`: formats items left to right and, once the limit is
      reached with items still left, appends ",..." and stops without
      visiting the rest. */
  method ValueOfSlice(v: Value, s: Settings, ff: FloatFormat) returns (r: string)
    requires v.SliceVal?
    ensures r == ValueText(v, s, ff)
    ensures |v.elems| == 0 ==> r == ""
    ensures Truncates(|v.elems|, s.maxPrintedSliceItems) ==>
              r == Join(ItemTexts(v, s, ff)[..s.maxPrintedSliceItems], ", ") + ",..."
    ensures !Truncates(|v.elems|, s.maxPrintedSliceItems) ==>
              r == Join(ItemTexts(v, s, ff), ", ")
    decreases v, 0
  {
    ghost var texts := ItemTexts(v, s, ff);
    var n := |v.elems|;
    var k := s.maxPrintedSliceItems;
    var values := "";
    var i := 0;
    while i < n
      invariant 0 <= i <= n
      invariant Truncates(n, k) ==> i < k
      invariant values == Partial(texts, i, ", ")
    {
      assert v.elems[i] in v.elems;
      var item := ValueOf(v.elems[i], s, ff);
      assert item == texts[i];
      PartialStep(texts, i, ", ");
      values := values + item;
      if i == k - 1 && n > k {
        r := values + ",...";
        assert r == SliceText(texts, k);
        return;
      } else if i < n - 1 {
        values := values + ", ";
      } else {
        assert texts[..i + 1] == texts;
      }
      i := i + 1;
    }
    assert !Truncates(n, k) && Shown(n, k) == n;
    assert texts[..n] == texts;
    r := values;
    assert r == SliceText(texts, k);
  }

  /** `n` non-nil pointers in front of `x`. */
  function Pointers(n: nat, x: Value): Value
  {
    if n == 0 then x else PtrVal(Some(Pointers(n - 1, x)))
  }

  /** A chain of non-nil pointers formats like the value at its end. */
  lemma {:induction false} PointerChainIsTransparent(n: nat, x: Value, s: Settings, ff: FloatFormat)
    ensures ValueText(Pointers(n, x), s, ff) == ValueText(x, s, ff)
  {
    if n > 0 {
      PointerChainIsTransparent(n - 1, x, s, ff);
    }
  }

  /** A truncated slice's text depends only on its first `k` items: the
      items after the limit are never looked at. */
  lemma SliceTextIgnoresTail(a: seq<Value>, b: seq<Value>, s: Settings, ff: FloatFormat)
    requires Truncates(|a|, s.maxPrintedSliceItems) && Truncates(|b|, s.maxPrintedSliceItems)
    requires a[..s.maxPrintedSliceItems] == b[..s.maxPrintedSliceItems]
    ensures ValueText(SliceVal(false, a), s, ff) == ValueText(SliceVal(true, b), s, ff)
  {
    var k := s.maxPrintedSliceItems;
    var ta := ItemTexts(SliceVal(false, a), s, ff);
    var tb := ItemTexts(SliceVal(true, b), s, ff);
    assert ta[..k] == tb[..k] by {
      forall i | 0 <= i < k ensures ta[i] == tb[i] {
        assert a[i] == a[..k][i] == b[..k][i] == b[i];
      }
    }
  }
}
