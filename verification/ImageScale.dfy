/** Scaling images for the im_info blob (libraries/python/coco/generate_im_info.py), in exact
    arithmetic. */
module ImageScale {
  import opened Wrappers

  datatype Image = Image(height: nat, width: nat)

  datatype Info = Info(height: int, width: int, scale: real)

  /** numpy's round: to the nearest integer, halves to the even one. */
  function Round(x: real): int {
    var low := x.Floor;
    var part := x - low as real;
    if part < 0.5 || (part == 0.5 && low % 2 == 0) then low else low + 1
  }

  lemma RoundWhole(n: int)
    ensures Round(n as real) == n
  {
  }

  lemma RoundGrows(x: real, y: real)
    requires x <= y
    ensures Round(x) <= Round(y)
  {
    assert x.Floor <= y.Floor;
  }

  function Smaller(image: Image): nat {
    if image.height < image.width then image.height else image.width
  }

  function Larger(image: Image): nat {
    if image.height > image.width then image.height else image.width
  }

  function Times(x: real, y: real): real {
    x * y
  }

  /** A side after scaling. */
  function Side(length: nat, scale: real): int {
    Round(Times(scale, length as real))
  }

  /** The scale that makes a side as long as a limit. */
  function Quotient(limit: int, length: nat): real
    requires length > 0
  {
    limit as real / length as real
  }

  /** `getScale`; a side of length zero makes it divide by zero. */
  function GetScale(image: Image, minSize: int, maxSize: int): Result<real> {
    if Smaller(image) == 0 then Raised
    else
      var scale := Quotient(minSize, Smaller(image));
      Ok(if Side(Larger(image), scale) > maxSize then Quotient(maxSize, Larger(image)) else scale)
  }

  function Scaled(image: Image, scale: real): Info {
    Info(Side(image.height, scale), Side(image.width, scale), scale)
  }

  /** The size asserts of `run`. */
  predicate AssertsHold(info: Info, minSize: int, maxSize: int) {
    info.height <= maxSize && info.width <= maxSize &&
    if info.height < minSize || info.width < minSize then info.height == maxSize || info.width == maxSize
    else info.height == minSize || info.width == minSize
  }

  // Scaled sides

  lemma Grows(x: real, y: real, z: real)
    requires x <= y && z >= 0.0
    ensures x * z <= y * z
  {
  }

  lemma TimesGrows(x: real, y: real, z: real)
    requires x <= y
    ensures z >= 0.0 ==> Times(z, x) <= Times(z, y) && Times(x, z) <= Times(y, z)
    ensures z <= 0.0 ==> Times(z, x) >= Times(z, y)
  {
    if z >= 0.0 {
      Grows(x, y, z);
      assert x * z == z * x && y * z == z * y;
    }
    if z <= 0.0 {
      Grows(x, y, -z);
      assert x * -z == -(z * x) && y * -z == -(z * y);
    }
  }

  lemma TimesQuotient(x: real, y: real, q: real)
    requires y > 0.0 && q == x / y
    ensures q * y == x
  {
  }

  lemma SideBecomesLimit(limit: int, length: nat)
    requires length > 0
    ensures Side(length, Quotient(limit, length)) == limit
  {
    var scale := Quotient(limit, length);
    TimesQuotient(limit as real, length as real, scale);
    assert Times(scale, length as real) == limit as real;
    RoundWhole(limit);
  }

  lemma SideGrowsWithScale(length: nat, scale: real, other: real)
    requires scale <= other
    ensures Side(length, scale) <= Side(length, other)
  {
    hide Times;
    TimesGrows(scale, other, length as real);
    RoundGrows(Times(scale, length as real), Times(other, length as real));
  }

  lemma SideGrowsWithLength(a: nat, b: nat, scale: real)
    requires a <= b
    ensures scale >= 0.0 ==> Side(a, scale) <= Side(b, scale)
    ensures scale <= 0.0 ==> Side(b, scale) <= Side(a, scale)
  {
    hide Times;
    TimesGrows(a as real, b as real, scale);
    if scale >= 0.0 {
      RoundGrows(Times(scale, a as real), Times(scale, b as real));
    }
    if scale <= 0.0 {
      RoundGrows(Times(scale, b as real), Times(scale, a as real));
    }
  }

  lemma QuotientSign(limit: int, length: nat)
    requires length > 0
    ensures limit >= 0 ==> Quotient(limit, length) >= 0.0
    ensures limit <= 0 ==> Quotient(limit, length) <= 0.0
  {
  }

  lemma WholeProduct(m: int, n: int)
    ensures m as real * n as real == (m * n) as real
  {
  }

  lemma SideOfMultiple(limit: int, length: nat)
    ensures Side(length, Quotient(limit, 1)) == length * limit
  {
    assert Quotient(limit, 1) == limit as real;
    WholeProduct(limit, length);
    RoundWhole(length * limit);
  }

  lemma SmallQuotient(x: real, y: real)
    requires x < 0.0 && y > -2.0 * x
    ensures -0.5 < x / y < 0.0
  {
    var q := x / y;
    assert q * y == x;
    if q <= -0.5 {
      Grows(q, -0.5, y);
    }
    if q >= 0.0 {
      Grows(0.0, q, y);
    }
  }

  lemma LongSideShrinks(limit: int, length: nat)
    requires limit < 0 && length > -2 * limit
    ensures Side(1, Quotient(limit, length)) == 0
  {
    SmallQuotient(limit as real, length as real);
  }

  /** If scaling the smaller side to `minSize` makes the larger exceed `maxSize`, then scaling
      the larger to `maxSize` makes the smaller at most `minSize`. */
  lemma SecondScaleIsSmaller(small: nat, large: nat, minSize: int, maxSize: int)
    requires 0 < small <= large && Side(large, Quotient(minSize, small)) > maxSize
    ensures Side(small, Quotient(maxSize, large)) <= minSize
  {
    hide Side, Quotient;
    var first, second := Quotient(minSize, small), Quotient(maxSize, large);
    SideBecomesLimit(maxSize, large);
    SideBecomesLimit(minSize, small);
    if first < second {
      SideGrowsWithScale(large, first, second);
    }
    SideGrowsWithScale(small, second, first);
  }

  function ScaleOf(image: Image, minSize: int, maxSize: int): real
    requires Smaller(image) > 0
  {
    GetScale(image, minSize, maxSize).value
  }

  /** The image has sides to scale, and no assert fires on it. */
  predicate Passes(image: Image, minSize: int, maxSize: int) {
    Smaller(image) > 0 && AssertsHold(Scaled(image, ScaleOf(image, minSize, maxSize)), minSize, maxSize)
  }

  /** The asserts in terms of the smaller and the larger side. */
  lemma SmallAndLarge(image: Image, minSize: int, maxSize: int)
    requires Smaller(image) > 0
    ensures var scale := ScaleOf(image, minSize, maxSize);
      var small, large := Side(Smaller(image), scale), Side(Larger(image), scale);
      Passes(image, minSize, maxSize) <==>
        small <= maxSize && large <= maxSize &&
        if small < minSize || large < minSize then small == maxSize || large == maxSize
        else small == minSize || large == minSize
  {
    hide Side, Quotient, ScaleOf;
  }

  /** No assert of `run` fires for limits that are not negative, whatever the image. */
  lemma AssertsNeverFire(image: Image, minSize: int, maxSize: int)
    requires Smaller(image) > 0 && minSize >= 0 && maxSize >= 0
    ensures Passes(image, minSize, maxSize)
  {
    hide Side, Quotient, Passes;
    var small, large := Smaller(image), Larger(image);
    SmallAndLarge(image, minSize, maxSize);
    QuotientSign(minSize, small);
    QuotientSign(maxSize, large);
    SideBecomesLimit(minSize, small);
    SideBecomesLimit(maxSize, large);
    SideGrowsWithLength(small, large, Quotient(minSize, small));
    SideGrowsWithLength(small, large, Quotient(maxSize, large));
    if Side(large, Quotient(minSize, small)) > maxSize {
      SecondScaleIsSmaller(small, large, minSize, maxSize);
    }
  }

  lemma EqualLimits(image: Image, limit: int)
    requires Smaller(image) > 0 && limit < 0
    ensures Passes(image, limit, limit)
  {
    hide Side, Quotient, Passes;
    var small, large := Smaller(image), Larger(image);
    SmallAndLarge(image, limit, limit);
    QuotientSign(limit, small);
    SideBecomesLimit(limit, small);
    SideGrowsWithLength(small, large, Quotient(limit, small));
  }

  lemma MultipleFalls(k: int, m: int)
    requires k >= 2 && m < 0
    ensures k * m <= -k && k * m <= 2 * m
  {
    assert k * (-m - 1) >= 0 && (k - 2) * -m >= 0;
  }

  /** Other negative limits fail some image: one by k, for large k. */
  lemma NegativeLimitFails(minSize: int, maxSize: int) returns (image: Image)
    requires (minSize < 0 || maxSize < 0) && minSize != maxSize
    ensures Smaller(image) > 0 && !Passes(image, minSize, maxSize)
  {
    hide Side, Quotient, Passes;
    var k: nat := if minSize >= 0 then 1 - 2 * maxSize else if maxSize < 0 then 2 - maxSize else 2;
    image := Image(1, k);
    SmallAndLarge(image, minSize, maxSize);
    SideOfMultiple(minSize, k);
    SideBecomesLimit(minSize, 1);
    if minSize < 0 {
      MultipleFalls(k, minSize);
    } else {
      assert k * minSize >= 0;
      LongSideShrinks(maxSize, k);
    }
  }

  /** The asserts hold for every image exactly when neither limit is negative or both are equal. */
  lemma AssertsHoldIff(minSize: int, maxSize: int)
    ensures (forall image | Smaller(image) > 0 :: Passes(image, minSize, maxSize))
      <==> (minSize >= 0 && maxSize >= 0) || minSize == maxSize
  {
    hide Passes;
    if minSize >= 0 && maxSize >= 0 {
      forall image | Smaller(image) > 0 ensures Passes(image, minSize, maxSize) {
        AssertsNeverFire(image, minSize, maxSize);
      }
    } else if minSize == maxSize {
      forall image | Smaller(image) > 0 ensures Passes(image, minSize, maxSize) {
        EqualLimits(image, minSize);
      }
    } else {
      var image := NegativeLimitFails(minSize, maxSize);
    }
  }

  // Batches

  /** The batch size used: a size that is not positive asks for a single batch. */
  function BatchSize(images: seq<Image>, batchSize: int): nat {
    if batchSize > 0 then batchSize else |images|
  }

  function InfoOf(image: Image, minSize: int, maxSize: int): Info
    requires Smaller(image) > 0
  {
    Scaled(image, ScaleOf(image, minSize, maxSize))
  }

  /** Nearest to the number, and even where two are. */
  predicate IsRounded(n: int, x: real) {
    -0.5 <= x - n as real <= 0.5 && (x - n as real == 0.5 || x - n as real == -0.5 ==> n % 2 == 0)
  }

  lemma RoundIsNearest(x: real)
    ensures IsRounded(Round(x), x)
  {
  }

  /** A length after scaling. */
  predicate IsScaled(n: int, length: nat, scale: real) {
    IsRounded(n, scale * length as real)
  }

  lemma SideIsScaled(length: nat, scale: real)
    ensures IsScaled(Side(length, scale), length, scale)
  {
    hide Round, IsRounded;
    RoundIsNearest(Times(scale, length as real));
  }

  lemma ScaledOnce(m: int, n: int, length: nat, scale: real)
    requires IsScaled(m, length, scale) && IsScaled(n, length, scale)
    ensures m == n
  {
    hide IsRounded;
    RoundedOnce(m, n, scale * length as real);
  }

  /** Height and width are scaled alike: so that the smaller side gets its limit, unless the larger
      one would exceed its own, which it then gets. */
  lemma InfoIs(image: Image, minSize: int, maxSize: int, larger: int)
    requires Passes(image, minSize, maxSize)
    requires IsScaled(larger, Larger(image), minSize as real / Smaller(image) as real)
    ensures var info := InfoOf(image, minSize, maxSize);
      info.scale == (if larger > maxSize then maxSize as real / Larger(image) as real
                     else minSize as real / Smaller(image) as real) &&
      IsScaled(info.height, image.height, info.scale) && IsScaled(info.width, image.width, info.scale)
  {
    hide Side, IsScaled;
    var scale, info := Quotient(minSize, Smaller(image)), InfoOf(image, minSize, maxSize);
    SideIsScaled(Larger(image), scale);
    ScaledOnce(larger, Side(Larger(image), scale), Larger(image), scale);
    SideIsScaled(image.height, info.scale);
    SideIsScaled(image.width, info.scale);
  }

  lemma RoundedOnce(m: int, n: int, x: real)
    requires IsRounded(m, x) && IsRounded(n, x)
    ensures m == n
  {
  }

  function Flatten(batches: seq<seq<Info>>): seq<Info> {
    if batches == [] then [] else Flatten(batches[..|batches| - 1]) + batches[|batches| - 1]
  }

  /** The infos of the images from one index to another, in order. */
  ghost predicate Covers(infos: seq<Info>, images: seq<Image>, first: nat, last: nat, minSize: int, maxSize: int)
    requires first <= last <= |images|
  {
    |infos| == last - first &&
    forall k | first <= k < last ::
      Passes(images[k], minSize, maxSize) && infos[k - first] == InfoOf(images[k], minSize, maxSize)
  }

  /** The inner loop of `run`. */
  method RunBatch(images: seq<Image>, first: nat, last: nat, minSize: int, maxSize: int) returns (r: Result<seq<Info>>)
    requires first <= last <= |images|
    ensures r.Ok? ==> Covers(r.value, images, first, last, minSize, maxSize)
    ensures r.Raised? ==> exists k :: first <= k < last && !Passes(images[k], minSize, maxSize)
  {
    hide Side, Quotient;
    var batch: seq<Info> := [];
    for j := first to last
      invariant Covers(batch, images, first, j, minSize, maxSize)
    {
      var scale := GetScale(images[j], minSize, maxSize);
      if scale.Raised? {
        assert !Passes(images[j], minSize, maxSize);
        return Raised;
      }
      var info := Scaled(images[j], scale.value);
      if !AssertsHold(info, minSize, maxSize) {
        assert !Passes(images[j], minSize, maxSize);
        return Raised;
      }
      batch := batch + [info];
    }
    r := Ok(batch);
  }

  lemma NothingCovered(images: seq<Image>, minSize: int, maxSize: int)
    ensures Covers(Flatten([]), images, 0, 0, minSize, maxSize)
  {
  }

  /** One more batch. */
  lemma CoversMore(images: seq<Image>, batches: seq<seq<Info>>, batch: seq<Info>, first: nat, last: nat,
                   minSize: int, maxSize: int)
    requires first <= last <= |images| && Covers(Flatten(batches), images, 0, first, minSize, maxSize)
    requires Covers(batch, images, first, last, minSize, maxSize)
    ensures |batch| == last - first && Covers(Flatten(batches + [batch]), images, 0, last, minSize, maxSize)
  {
    hide Passes, InfoOf;
    assert (batches + [batch])[..|batches|] == batches;
  }

  lemma CoveredPass(images: seq<Image>, infos: seq<Info>, minSize: int, maxSize: int)
    requires Covers(infos, images, 0, |images|, minSize, maxSize)
    ensures forall i | 0 <= i < |images| :: Passes(images[i], minSize, maxSize)
  {
    hide Passes, InfoOf;
  }

  lemma WholeBatches(n: nat, size: nat, i: nat)
    requires size > 0
    ensures n % size == 0 <==> n == n / size * size
    ensures i < n / size ==> i * size <= (i + 1) * size <= n && (i + 1) * size == i * size + size
  {
    assert n == n / size * size + n % size;
    if i < n / size {
      assert (i + 1) * size <= n / size * size;
    }
  }

  /** `run`: batches of equal size that give the images' scaled sizes in order. It raises when
      there is nothing to batch, when the images do not fill the last batch, and when an image
      has a side of length zero or fails an assert. */
  method Run(images: seq<Image>, batchSize: int, minSize: int, maxSize: int) returns (r: Result<seq<seq<Info>>>)
    ensures var size := if batchSize > 0 then batchSize else |images|;
      r.Ok? <==> size > 0 && |images| % size == 0 && forall i | 0 <= i < |images| :: Passes(images[i], minSize, maxSize)
    ensures r.Ok? ==> Covers(Flatten(r.value), images, 0, |images|, minSize, maxSize)
    ensures r.Ok? ==> forall i | 0 <= i < |r.value| :: |r.value[i]| == if batchSize > 0 then batchSize else |images|
  {
    hide Passes, Covers, Flatten;
    var size := BatchSize(images, batchSize);
    if size == 0 {
      return Raised;
    }
    var numBatches := |images| / size;
    WholeBatches(|images|, size, 0);
    if |images| != numBatches * size {
      return Raised;
    }
    var batches: seq<seq<Info>> := [];
    NothingCovered(images, minSize, maxSize);
    for i := 0 to numBatches
      invariant 0 <= i * size <= |images|
      invariant Covers(Flatten(batches), images, 0, i * size, minSize, maxSize)
      invariant forall k | 0 <= k < |batches| :: |batches[k]| == size
    {
      WholeBatches(|images|, size, i);
      var batch := RunBatch(images, i * size, (i + 1) * size, minSize, maxSize);
      if batch.Raised? {
        return Raised;
      }
      CoversMore(images, batches, batch.value, i * size, (i + 1) * size, minSize, maxSize);
      batches := batches + [batch.value];
    }
    CoveredPass(images, Flatten(batches), minSize, maxSize);
    r := Ok(batches);
  }
}
