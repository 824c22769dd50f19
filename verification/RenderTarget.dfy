/** The render-target validator: whether an announced size suits the producer's capabilities, decided
    in 32- and 64-bit arithmetic; and what its last test decides, the existence of a content scale. */
module RenderTarget {
  import opened Common
  import opened Arithmetic
  import opened PoolSpec

  datatype TargetCaps = TargetCaps(
    revision: nat, refWidth: nat, refHeight: nat, mode: nat, minWidth: nat, minHeight: nat,
    maxWidth: nat, maxHeight: nat, alignWidth: nat, alignHeight: nat)

  datatype TargetConfig = TargetConfig(
    revision: nat, capsRevision: nat, width: nat, height: nat, format: Format, syncMode: nat, color: nat,
    memHint: nat, count: nat, path: BufferPath, source: MemorySource)

  predicate CapsInRange(c: TargetCaps) {
    && c.revision < U64_LIMIT && c.mode < U32_LIMIT
    && c.refWidth < U32_LIMIT && c.refHeight < U32_LIMIT && c.minWidth < U32_LIMIT && c.minHeight < U32_LIMIT
    && c.maxWidth < U32_LIMIT && c.maxHeight < U32_LIMIT && c.alignWidth < U32_LIMIT && c.alignHeight < U32_LIMIT
  }

  predicate ConfigInRange(c: TargetConfig) {
    c.revision < U64_LIMIT && c.capsRevision < U64_LIMIT && c.width < U32_LIMIT && c.height < U32_LIMIT
  }

  // ---------------------------------------------------------------- machine arithmetic

  function Sub32(a: nat, b: nat): nat { (a - b) % U32_LIMIT }
  function Mul64(a: nat, b: nat): nat { (a * b) % U64_LIMIT }

  lemma ProductFits(a: nat, b: nat)
    requires a < U32_LIMIT && b < U32_LIMIT
    ensures a * b < U64_LIMIT && Mul64(a, b) == a * b
  {
    hide Mul64;
    MulMono(a, U32_LIMIT - 1, b);
    MulMono(b, U32_LIMIT - 1, U32_LIMIT - 1);
    assert a * b < U64_LIMIT;
    SmallProduct(a, b);
  }

  lemma SmallProduct(a: nat, b: nat)
    requires a * b < U64_LIMIT
    ensures Mul64(a, b) == a * b
  {
  }

  lemma DifferenceFits(a: nat, b: nat)
    requires b <= a < U32_LIMIT
    ensures Sub32(a, b) == a - b
  {
  }

  lemma ScaleStrictly(a: nat, b: nat, k: nat)
    requires a < b && k > 0
    ensures a * k < b * k
  {
  }

  // ---------------------------------------------------------------- the questions asked

  /** Size, revision, range, divisibility and mode limits. */
  predicate Plausible(caps: TargetCaps, c: TargetConfig) {
    && (caps.mode == 1 || caps.mode == 2)
    && caps.refWidth != 0 && caps.refHeight != 0 && c.revision != 0 && c.capsRevision == caps.revision
    && caps.alignWidth != 0 && caps.alignHeight != 0 && c.width != 0 && c.height != 0
    && caps.minWidth <= c.width <= caps.maxWidth && caps.minHeight <= c.height <= caps.maxHeight
    && c.width % caps.alignWidth == 0 && c.height % caps.alignHeight == 0
    && (caps.mode == 1 ==> c.width <= caps.refWidth && c.height <= caps.refHeight)
    && (caps.mode == 2 ==>
          c.width <= (if caps.refWidth >= caps.refHeight then 7680 else 4320)
          && c.height <= (if caps.refWidth >= caps.refHeight then 4320 else 7680))
  }

  predicate MultipleOf(size: nat, align: nat) { exists k: nat :: k <= size && k * align == size }

  /** Which sizes are asked for at all: from capabilities and a configuration of one and the same revision, both
      dimensions positive multiples of their alignments within the advertised range; a renderer of mode 1 is never
      asked for more than its reference, one of mode 2 for at most 7680 along the longer side of its reference and
      4320 along the other, the width counting as the longer one of a square. */
  lemma PlausibleIs(caps: TargetCaps, c: TargetConfig)
    ensures Plausible(caps, c) <==>
            && caps.mode in {1, 2} && c.revision > 0 && c.capsRevision == caps.revision
            && caps.refWidth > 0 && caps.refHeight > 0 && caps.alignWidth > 0 && caps.alignHeight > 0
            && c.width > 0 && MultipleOf(c.width, caps.alignWidth) && caps.minWidth <= c.width && !(caps.maxWidth < c.width)
            && c.height > 0 && MultipleOf(c.height, caps.alignHeight) && caps.minHeight <= c.height && !(caps.maxHeight < c.height)
            && (caps.mode == 1 ==> !(caps.refWidth < c.width) && !(caps.refHeight < c.height))
            && (caps.mode == 2 && caps.refWidth < caps.refHeight ==> !(7680 < c.height) && !(4320 < c.width))
            && (caps.mode == 2 && caps.refHeight <= caps.refWidth ==> !(7680 < c.width) && !(4320 < c.height))
  {
    if caps.alignWidth > 0 { MultipleIs(c.width, caps.alignWidth); }
    if caps.alignHeight > 0 { MultipleIs(c.height, caps.alignHeight); }
    hide MultipleOf;
  }

  lemma MultipleIs(size: nat, align: nat)
    requires align > 0
    ensures size % align == 0 <==> MultipleOf(size, align)
  {
    if size % align == 0 {
      var k := size / align;
      assert k * align == size;
      MulMono(1, align, k);
      assert k <= size && k * align == size;
    }
    if k: nat :| k <= size && k * align == size { RemainderUnique(size, k, 0, align); }
  }

  /** `size` is the least multiple of `align` that covers `reference` scaled by p/q. */
  ghost predicate LeastCover(size: nat, align: nat, reference: nat, p: nat, q: nat)
    requires align > 0
  {
    && size % align == 0 && reference * p <= size * q
    && forall other: nat :: other % align == 0 && reference * p <= other * q ==> size <= other
  }

  /** One scale makes both dimensions least covers. */
  ghost predicate CommonScale(caps: TargetCaps, c: TargetConfig)
    requires caps.alignWidth > 0 && caps.alignHeight > 0
  {
    exists p: nat, q: nat :: p > 0 && q > 0
      && LeastCover(c.width, caps.alignWidth, caps.refWidth, p, q)
      && LeastCover(c.height, caps.alignHeight, caps.refHeight, p, q)
  }

  /** The last test, as the code computes it. */
  predicate CrossTest(caps: TargetCaps, c: TargetConfig) {
    && Mul64(Sub32(c.width, caps.alignWidth), caps.refHeight) < Mul64(c.height, caps.refWidth)
    && Mul64(Sub32(c.height, caps.alignHeight), caps.refWidth) < Mul64(c.width, caps.refHeight)
  }

  // ---------------------------------------------------------------- what the last test decides

  lemma Multiple(size: nat, align: nat)
    requires align > 0 && size > 0 && size % align == 0
    ensures align <= size && (size - align) % align == 0
  {
    var k := size / align;
    assert size == k * align;
    if k == 0 {
      assert false;
    } else {
      MulMono(1, k, align);
      assert size - align == (k - 1) * align;
      RemainderUnique(size - align, k - 1, 0, align);
    }
  }

  /** A multiple is the least cover exactly when the multiple below it does not cover. */
  lemma LeastCoverIs(size: nat, align: nat, reference: nat, p: nat, q: nat)
    requires align > 0 && size > 0 && size % align == 0 && q > 0
    ensures align <= size
    ensures LeastCover(size, align, reference, p, q) <==> (size - align) * q < reference * p <= size * q
  {
    Multiple(size, align);
    if LeastCover(size, align, reference, p, q) && reference * p <= (size - align) * q {
      assert false;
    }
    if (size - align) * q < reference * p <= size * q {
      forall other: nat | other % align == 0 && reference * p <= other * q ensures size <= other {
        if other < size {
          MultiplesApart(other, size, align);
          MulMono(other, size - align, q);
        }
      }
    }
  }

  lemma MultiplesApart(a: nat, b: nat, align: nat)
    requires align > 0 && a % align == 0 && b % align == 0 && a < b
    ensures a <= b - align
  {
    assert a == a / align * align && b == b / align * align;
    if a / align >= b / align {
      MulMono(b / align, a / align, align);
    } else {
      MulMono(a / align + 1, b / align, align);
    }
  }

  /** Neither the subtractions nor the products of the last test leave their width. */
  lemma NoOverflow(caps: TargetCaps, c: TargetConfig)
    requires CapsInRange(caps) && ConfigInRange(c) && Plausible(caps, c)
    ensures caps.alignWidth <= c.width && caps.alignHeight <= c.height
    ensures CrossTest(caps, c) <==>
            (c.width - caps.alignWidth) * caps.refHeight < c.height * caps.refWidth
            && (c.height - caps.alignHeight) * caps.refWidth < c.width * caps.refHeight
  {
    hide Mul64, Sub32;
    Multiple(c.width, caps.alignWidth);
    Multiple(c.height, caps.alignHeight);
    DifferenceFits(c.width, caps.alignWidth);
    DifferenceFits(c.height, caps.alignHeight);
    ProductFits(c.width - caps.alignWidth, caps.refHeight);
    ProductFits(c.height, caps.refWidth);
    ProductFits(c.height - caps.alignHeight, caps.refWidth);
    ProductFits(c.width, caps.refHeight);
  }

  /** From a scale to the cross products of one side. */
  lemma Crossed(size: nat, align: nat, reference: nat, other: nat, otherReference: nat, p: nat, q: nat)
    requires align <= size && q > 0 && reference > 0 && otherReference > 0
    requires (size - align) * q < reference * p && otherReference * p <= other * q
    ensures (size - align) * otherReference < other * reference
  {
    var low := size - align;
    if low * otherReference >= other * reference {
      calc {
        low * q * otherReference;
        (low * otherReference) * q;
      >= { MulMono(other * reference, low * otherReference, q); }
        (other * reference) * q;
        (other * q) * reference;
      >= { MulMono(otherReference * p, other * q, reference); }
        (otherReference * p) * reference;
        (reference * p) * otherReference;
      > { ScaleStrictly(low * q, reference * p, otherReference); }
        low * q * otherReference;
      }
      assert false;
    }
  }

  /** The last test passes exactly when both dimensions are least covers of one positive scale. */
  lemma CrossTestExactly(caps: TargetCaps, c: TargetConfig)
    requires CapsInRange(caps) && ConfigInRange(c) && Plausible(caps, c)
    ensures CrossTest(caps, c) <==> CommonScale(caps, c)
  {
    NoOverflow(caps, c);
    if CommonScale(caps, c) {
      var p: nat, q: nat :| p > 0 && q > 0
        && LeastCover(c.width, caps.alignWidth, caps.refWidth, p, q)
        && LeastCover(c.height, caps.alignHeight, caps.refHeight, p, q);
      LeastCoverIs(c.width, caps.alignWidth, caps.refWidth, p, q);
      LeastCoverIs(c.height, caps.alignHeight, caps.refHeight, p, q);
      Crossed(c.width, caps.alignWidth, caps.refWidth, c.height, caps.refHeight, p, q);
      Crossed(c.height, caps.alignHeight, caps.refHeight, c.width, caps.refWidth, p, q);
    }
    if CrossTest(caps, c) { ScaleOfTest(caps, c); }
  }

  /** The scale that fills the tighter dimension exactly makes the other a least cover too. */
  lemma Tighter(size: nat, align: nat, reference: nat, other: nat, otherAlign: nat, otherReference: nat)
    requires 0 < align <= size && size % align == 0 && 0 < otherAlign <= other && other % otherAlign == 0
    requires reference > 0 && otherReference > 0
    requires (other - otherAlign) * reference < size * otherReference <= other * reference
    ensures LeastCover(size, align, reference, size, reference)
    ensures LeastCover(other, otherAlign, otherReference, size, reference)
  {
    LeastCoverIs(size, align, reference, size, reference);
    LeastCoverIs(other, otherAlign, otherReference, size, reference);
    ScaleStrictly(size - align, size, reference);
    assert reference * size == size * reference && otherReference * size == size * otherReference;
  }

  lemma ScaleOfTest(caps: TargetCaps, c: TargetConfig)
    requires CapsInRange(caps) && ConfigInRange(c) && Plausible(caps, c)
    ensures CrossTest(caps, c) ==> CommonScale(caps, c)
  {
    hide LeastCover, Mul64, Sub32;
    NoOverflow(caps, c);
    if !CrossTest(caps, c) {
      return;
    }
    if c.width * caps.refHeight <= c.height * caps.refWidth {
      Tighter(c.width, caps.alignWidth, caps.refWidth, c.height, caps.alignHeight, caps.refHeight);
    } else {
      Tighter(c.height, caps.alignHeight, caps.refHeight, c.width, caps.alignWidth, caps.refWidth);
    }
  }

  // ---------------------------------------------------------------- the validator

  /** `render_target_directive`. */
  method Validate(caps: TargetCaps, c: TargetConfig) returns (rc: int, out: Option<Directive>)
    requires CapsInRange(caps) && ConfigInRange(c)
    ensures rc == 0 <==> Plausible(caps, c) && CommonScale(caps, c)
    ensures rc != 0 ==> rc == EINVAL && out == None
    ensures rc == 0 ==> out == Some(Directive(c.format, c.syncMode, c.color, c.memHint, c.count, c.path, c.source))
  {
    if (caps.mode != 1 && caps.mode != 2) || caps.refWidth == 0 || caps.refHeight == 0 || c.revision == 0
      || c.capsRevision != caps.revision || caps.alignWidth == 0 || caps.alignHeight == 0
      || c.width == 0 || c.height == 0 || c.width < caps.minWidth || c.height < caps.minHeight
      || c.width > caps.maxWidth || c.height > caps.maxHeight
      || c.width % caps.alignWidth != 0 || c.height % caps.alignHeight != 0
    {
      return EINVAL, None;
    }
    if caps.mode == 1 && (c.width > caps.refWidth || c.height > caps.refHeight) { return EINVAL, None; }
    var wide := caps.refWidth >= caps.refHeight;
    if caps.mode == 2 && (c.width > (if wide then 7680 else 4320) || c.height > (if wide then 4320 else 7680)) {
      return EINVAL, None;
    }
    CrossTestExactly(caps, c);
    if Mul64(Sub32(c.width, caps.alignWidth), caps.refHeight) >= Mul64(c.height, caps.refWidth)
      || Mul64(Sub32(c.height, caps.alignHeight), caps.refWidth) >= Mul64(c.width, caps.refHeight)
    {
      return EINVAL, None;
    }
    rc, out := 0, Some(Directive(c.format, c.syncMode, c.color, c.memHint, c.count, c.path, c.source));
  }
}
