/** The self-contained helpers of the animation importer: piecewise-linear
    resampling of key data (`interpolate`), the NIF-to-Blender tables for
    cycle mode and key type, the F-curve path and group a channel gets,
    and the lines of the `Anim` text buffer that keep the text keys.
    Floats are modelled as `real`, so arithmetic here is exact. */
module AnimationImport {
  import opened Wrappers
  import opened Text

  predicate Sorted(a: seq<real>)
  {
    forall i, j :: 0 <= i <= j < |a| ==> a[i] <= a[j]
  }

  predicate StrictlyIncreasing(a: seq<real>)
  {
    forall i, j :: 0 <= i < j < |a| ==> a[i] < a[j]
  }

  /** Python's `bisect_left(a, x, lo, hi)`, the binary search it runs
      whether or not `a` is sorted. */
  function BisectFrom(a: seq<real>, x: real, lo: nat, hi: nat): (r: nat)
    requires lo <= hi <= |a|
    ensures lo <= r <= hi
    decreases hi - lo
  {
    if lo < hi then
      var mid := (lo + hi) / 2;
      if a[mid] < x then BisectFrom(a, x, mid + 1, hi) else BisectFrom(a, x, lo, mid)
    else lo
  }

  function BisectLeft(a: seq<real>, x: real): (r: nat)
    ensures r <= |a|
  {
    BisectFrom(a, x, 0, |a|)
  }

  lemma {:induction false} BisectFromSorted(a: seq<real>, x: real, lo: nat, hi: nat)
    requires Sorted(a) && lo <= hi <= |a|
    requires forall k :: 0 <= k < lo ==> a[k] < x
    requires forall k :: hi <= k < |a| ==> x <= a[k]
    ensures forall k :: 0 <= k < BisectFrom(a, x, lo, hi) ==> a[k] < x
    ensures forall k :: BisectFrom(a, x, lo, hi) <= k < |a| ==> x <= a[k]
    decreases hi - lo
  {
    if lo < hi {
      var mid := (lo + hi) / 2;
      if a[mid] < x {
        BisectFromSorted(a, x, mid + 1, hi);
      } else {
        BisectFromSorted(a, x, lo, mid);
      }
    }
  }

  /** On strictly increasing values the search for a value of the list,
      within bounds holding it, finds it. */
  lemma {:induction false} BisectFromKnot(a: seq<real>, j: nat, lo: nat, hi: nat)
    requires StrictlyIncreasing(a) && lo <= j <= hi <= |a| && j < |a|
    ensures BisectFrom(a, a[j], lo, hi) == j
    decreases hi - lo
  {
    if lo < hi {
      var mid := (lo + hi) / 2;
      if a[mid] < a[j] {
        assert mid < j;
        BisectFromKnot(a, j, mid + 1, hi);
      } else {
        assert j <= mid;
        BisectFromKnot(a, j, lo, mid);
      }
    }
  }

  /** On a sorted list `bisect_left` is the leftmost insertion point:
      everything before it is below `x`, nothing from it on is. */
  lemma BisectLeftSorted(a: seq<real>, x: real)
    requires Sorted(a)
    ensures forall k :: 0 <= k < BisectLeft(a, x) ==> a[k] < x
    ensures forall k :: BisectLeft(a, x) <= k < |a| ==> x <= a[k]
  {
    BisectFromSorted(a, x, 0, |a|);
  }

  /** The errors `interpolate` can raise: a division by zero in `slopes`,
      and an index out of range when there is a sample point but no
      input point. */
  datatype InterpError = ZeroDivision | IndexOutOfRange

  /** The number of pairs `zip(x_in, x_in[1:], y_in, y_in[1:])` yields. */
  function Segments(xIn: seq<real>, yIn: seq<real>): nat
  {
    if |xIn| == 0 || |yIn| == 0 then 0
    else if |xIn| <= |yIn| then |xIn| - 1 else |yIn| - 1
  }

  /** Two neighbouring input points among the first `n` segments share their x. */
  predicate RepeatedX(xIn: seq<real>, n: nat)
    requires n < |xIn| || n == 0
  {
    exists j :: 0 <= j < n && xIn[j + 1] == xIn[j]
  }

  function Slope(xIn: seq<real>, yIn: seq<real>, j: nat): real
    requires j < Segments(xIn, yIn) && xIn[j + 1] != xIn[j]
  {
    (yIn[j + 1] - yIn[j]) / (xIn[j + 1] - xIn[j])
  }

  /** The slopes of the first `n` segments, computed left to right, or the
      division by zero at the first segment of zero width. */
  function SlopesUpTo(xIn: seq<real>, yIn: seq<real>, n: nat): (r: Result<seq<real>, InterpError>)
    requires n <= Segments(xIn, yIn)
    ensures r.Failure? <==> RepeatedX(xIn, n)
    ensures r.Failure? ==> r.error == ZeroDivision
    ensures r.Success? ==> |r.value| == n && forall j :: 0 <= j < n ==> r.value[j] == Slope(xIn, yIn, j)
  {
    if n == 0 then Success([])
    else
      match SlopesUpTo(xIn, yIn, n - 1)
      case Failure(e) => Failure(e)
      case Success(s) =>
        if xIn[n] == xIn[n - 1] then Failure(ZeroDivision)
        else Success(s + [Slope(xIn, yIn, n - 1)])
  }

  /** `slopes` after the comprehension and the `[0]` fallback used when
      there is a single input point. */
  function Slopes(xIn: seq<real>, yIn: seq<real>): (r: Result<seq<real>, InterpError>)
    ensures r.Failure? <==> RepeatedX(xIn, Segments(xIn, yIn))
    ensures r.Success? ==> |r.value| == (if Segments(xIn, yIn) == 0 then 1 else Segments(xIn, yIn))
    ensures r.Success? ==> forall j :: 0 <= j < Segments(xIn, yIn) ==> r.value[j] == Slope(xIn, yIn, j)
    ensures r.Success? && Segments(xIn, yIn) == 0 ==> r.value == [0.0]
  {
    match SlopesUpTo(xIn, yIn, Segments(xIn, yIn))
    case Failure(e) => Failure(e)
    case Success(s) => if s == [] then Success([0.0]) else Success(s)
  }

  /** `max(min(bisect_left(x_in, x) - 1, m - 1), 0)`: the segment used for
      `x` when there are `m` slopes. */
  function SegmentFor(xIn: seq<real>, m: nat, x: real): (i: nat)
    requires 1 <= m
    ensures i < m
  {
    var b := BisectLeft(xIn, x) - 1;
    if b > m - 1 then m - 1 else if b < 0 then 0 else b
  }

  /** The value `interpolate` gives at `x`: the line through the segment
      `SegmentFor` picks. */
  function Sampled(xIn: seq<real>, yIn: seq<real>, x: real): real
    requires !RepeatedX(xIn, Segments(xIn, yIn)) && xIn != [] && yIn != []
  {
    var slopes := Slopes(xIn, yIn).value;
    var i := SegmentFor(xIn, |slopes|, x);
    yIn[i] + slopes[i] * (x - xIn[i])
  }

  /** `interpolate(x_out, x_in, y_in)`: one sample per point of `xOut`. */
  method Interpolate(xOut: seq<real>, xIn: seq<real>, yIn: seq<real>) returns (r: Result<seq<real>, InterpError>)
    ensures r == Failure(ZeroDivision) <==> RepeatedX(xIn, Segments(xIn, yIn))
    ensures r == Failure(IndexOutOfRange) <==>
              !RepeatedX(xIn, Segments(xIn, yIn)) && xOut != [] && (xIn == [] || yIn == [])
    ensures r.Success? ==>
              && !RepeatedX(xIn, Segments(xIn, yIn)) && (xOut == [] || (xIn != [] && yIn != []))
              && |r.value| == |xOut|
              && forall k :: 0 <= k < |xOut| ==> r.value[k] == Sampled(xIn, yIn, xOut[k])
  {
    var s := Slopes(xIn, yIn);
    if s.Failure? {
      r := Failure(ZeroDivision);
    } else {
      r := SampleAll(xOut, xIn, yIn, s.value);
    }
  }

  /** The loop of `interpolate` over `x_out`, once the slopes are known. */
  method SampleAll(xOut: seq<real>, xIn: seq<real>, yIn: seq<real>, slopes: seq<real>) returns (r: Result<seq<real>, InterpError>)
    requires Slopes(xIn, yIn) == Success(slopes)
    ensures r.Failure? <==> xOut != [] && (xIn == [] || yIn == [])
    ensures r.Failure? ==> r.error == IndexOutOfRange
    ensures r.Success? ==>
              && |r.value| == |xOut|
              && forall k :: 0 <= k < |xOut| ==> r.value[k] == Sampled(xIn, yIn, xOut[k])
  {
    assert !RepeatedX(xIn, Segments(xIn, yIn)) && slopes == Slopes(xIn, yIn).value;
    var yOut: seq<real> := [];
    var k := 0;
    r := Success([]);
    while k < |xOut|
      invariant 0 <= k <= |xOut| && |yOut| == k && r == Success([])
      invariant k > 0 ==> xIn != [] && yIn != []
      invariant forall j :: 0 <= j < k ==> yOut[j] == Sampled(xIn, yIn, xOut[j])
    {
      var x := xOut[k];
      var i := BisectLeft(xIn, x) - 1;
      i := if i < |slopes| - 1 then i else |slopes| - 1;
      i := if i > 0 then i else 0;
      assert i == SegmentFor(xIn, |slopes|, x);
      if i >= |yIn| || i >= |xIn| {
        r := Failure(IndexOutOfRange);
        break;
      }
      SampledAt(xIn, yIn, x, i);
      var y := yIn[i] + slopes[i] * (x - xIn[i]);
      SampledSnoc(xIn, yIn, xOut, yOut, y);
      yOut := yOut + [y];
      k := k + 1;
    }
    if r.Success? {
      r := Success(yOut);
    }
  }

  /** One more sample keeps `ys` the samples of the first `|ys|` points of `xs`. */
  lemma SampledSnoc(xIn: seq<real>, yIn: seq<real>, xs: seq<real>, ys: seq<real>, y: real)
    requires !RepeatedX(xIn, Segments(xIn, yIn)) && xIn != [] && yIn != []
    requires |ys| < |xs| && forall j :: 0 <= j < |ys| ==> ys[j] == Sampled(xIn, yIn, xs[j])
    requires y == Sampled(xIn, yIn, xs[|ys|])
    ensures forall j :: 0 <= j < |ys| + 1 ==> (ys + [y])[j] == Sampled(xIn, yIn, xs[j])
  {
  }

  /** `Sampled` is the line through the segment `SegmentFor` picks. */
  lemma SampledAt(xIn: seq<real>, yIn: seq<real>, x: real, i: nat)
    requires !RepeatedX(xIn, Segments(xIn, yIn)) && xIn != [] && yIn != []
    requires i == SegmentFor(xIn, |Slopes(xIn, yIn).value|, x)
    ensures i < |xIn| && i < |yIn|
    ensures Sampled(xIn, yIn, x) == yIn[i] + Slopes(xIn, yIn).value[i] * (x - xIn[i])
  {
  }

  /** With a single input point every sample is that point's value. */
  lemma SampledSingle(xIn: seq<real>, yIn: seq<real>, x: real)
    requires xIn != [] && yIn != [] && Segments(xIn, yIn) == 0
    ensures !RepeatedX(xIn, 0) && Sampled(xIn, yIn, x) == yIn[0]
  {
  }

  /** On strictly increasing x, sampling at a knot gives the knot's value. */
  lemma {:induction false} SampledAtKnot(xIn: seq<real>, yIn: seq<real>, j: nat)
    requires StrictlyIncreasing(xIn) && j < |xIn| && j < |yIn|
    ensures !RepeatedX(xIn, Segments(xIn, yIn)) && Sampled(xIn, yIn, xIn[j]) == yIn[j]
  {
    assert !RepeatedX(xIn, Segments(xIn, yIn));
    BisectFromKnot(xIn, j, 0, |xIn|);
    var slopes := Slopes(xIn, yIn).value;
    var i := SegmentFor(xIn, |slopes|, xIn[j]);
    SampledAt(xIn, yIn, xIn[j], i);
    if j > 0 {
      assert i == j - 1;
      assert slopes[i] == Slope(xIn, yIn, i);
      SlopeSpan(xIn, yIn, i);
    } else {
      assert i == 0 && xIn[j] - xIn[i] == 0.0;
    }
  }

  /** Following a segment's slope across its width climbs its rise. */
  lemma SlopeSpan(xIn: seq<real>, yIn: seq<real>, j: nat)
    requires j < Segments(xIn, yIn) && xIn[j + 1] != xIn[j]
    ensures yIn[j] + Slope(xIn, yIn, j) * (xIn[j + 1] - xIn[j]) == yIn[j + 1]
  {
    var d := xIn[j + 1] - xIn[j];
    var rise := yIn[j + 1] - yIn[j];
    assert (rise / d) * d == rise;
  }

  /** On sorted x, a point strictly after knot `j - 1` and up to knot `j`
      lies on the line of segment `j - 1`. */
  lemma SampledBetween(xIn: seq<real>, yIn: seq<real>, j: nat, x: real)
    requires Sorted(xIn) && !RepeatedX(xIn, Segments(xIn, yIn))
    requires 1 <= j <= Segments(xIn, yIn) && xIn[j - 1] < x <= xIn[j]
    ensures Sampled(xIn, yIn, x) == yIn[j - 1] + Slope(xIn, yIn, j - 1) * (x - xIn[j - 1])
  {
    BisectLeftSorted(xIn, x);
    var b := BisectLeft(xIn, x);
    if b < j {
      assert false;
    } else if b > j {
      assert false;
    }
  }

  /** On sorted x, points at or before the first knot extrapolate along
      the first segment, points after the last knot along the last one. */
  lemma {:induction false} SampledClamped(xIn: seq<real>, yIn: seq<real>, x: real)
    requires Sorted(xIn) && xIn != [] && yIn != [] && !RepeatedX(xIn, Segments(xIn, yIn))
    ensures var slopes := Slopes(xIn, yIn).value;
            && (x <= xIn[0] ==> Sampled(xIn, yIn, x) == yIn[0] + slopes[0] * (x - xIn[0]))
            && (x > xIn[|xIn| - 1] ==>
                  var m := |slopes| - 1;
                  Sampled(xIn, yIn, x) == yIn[m] + slopes[m] * (x - xIn[m]))
  {
    var slopes := Slopes(xIn, yIn).value;
    var i := SegmentFor(xIn, |slopes|, x);
    BisectLeftSorted(xIn, x);
    if x <= xIn[0] {
      assert BisectLeft(xIn, x) == 0;
      assert i == 0;
    } else if x > xIn[|xIn| - 1] {
      assert BisectLeft(xIn, x) == |xIn|;
      assert i == |slopes| - 1;
    }
  }

  /** Blender's F-curve extend modes as `get_extend_from_flags` names them. */
  datatype Extend = Const | Cyclic

  /** `get_extend_from_flags`: bits 1 and 2 of the controller flags; 4 is
      clamped, 0 is cyclic, anything else falls back to clamped. */
  function ExtendFromFlags(flags: bv16): (e: Extend)
    ensures e == Cyclic <==> flags & 6 == 0
  {
    if flags & 6 == 4 then Const
    else if flags & 6 == 0 then Cyclic
    else Const
  }

  /** Only the cycle-type bits of the flags matter. */
  lemma ExtendCycleBits(flags: bv16)
    ensures ExtendFromFlags(flags) == ExtendFromFlags(flags & 6)
    ensures ExtendFromFlags(flags) == ExtendFromFlags(flags | !6) || flags & 6 == 0
  {
  }

  /** What `set_extrapolation` does to each F-curve: constant extrapolation
      or a `CYCLES` modifier. */
  datatype Extrapolation = ConstantExtrapolation | CyclesModifier

  function ExtrapolationFor(flags: bv16): (x: Extrapolation)
    ensures x == CyclesModifier <==> flags & 6 == 0
  {
    match ExtendFromFlags(flags)
    case Const => ConstantExtrapolation
    case Cyclic => CyclesModifier
  }

  /** NIF key types (`KeyType` in nif.xml). */
  const LINEAR_KEY := 1
  const QUADRATIC_KEY := 2
  const TBC_KEY := 3
  const XYZ_ROTATION_KEY := 4

  /** Blender keyframe interpolation modes. */
  datatype BInterp = Linear | Bezier | Constant

  /** `get_b_interp_from_n_interp` */
  function BInterpFromNInterp(n: int): (b: BInterp)
    ensures b == Linear <==> n == LINEAR_KEY || n == XYZ_ROTATION_KEY
    ensures b == Constant <==> n == 0
    ensures b == Bezier <==> n != LINEAR_KEY && n != XYZ_ROTATION_KEY && n != 0
  {
    if n == LINEAR_KEY || n == XYZ_ROTATION_KEY then Linear
    else if n == QUADRATIC_KEY then Bezier
    else if n == 0 then Constant
    else Bezier
  }

  /** One F-curve as `create_fcurves` makes it. */
  datatype FCurve = FCurve(path: string, index: int, group: string, extrapolation: Extrapolation)

  /** The data path of a pose bone's channel. */
  function BonePath(bone: string, dtype: string): string
  {
    "pose.bones[\"" + bone + "\"]." + dtype
  }

  /** The action group of an object channel: transforms are lumped into
      `LocRotScale`, everything else has none. */
  function ObjectGroup(dtype: string): (g: string)
    ensures g == "LocRotScale" <==> Contains(dtype, "rotation") || Contains(dtype, "location") || Contains(dtype, "scale")
    ensures g != "LocRotScale" ==> g == ""
  {
    if Contains(dtype, "rotation") || Contains(dtype, "location") || Contains(dtype, "scale") then "LocRotScale" else ""
  }

  /** `create_fcurves`: one F-curve per index of `drange`, on the bone's
      channel when a non-empty bone name is given, else on the object. */
  function CreateFCurves(dtype: string, drange: seq<int>, flags: bv16, bone: Option<string>): (cs: seq<FCurve>)
    ensures |cs| == |drange|
    ensures forall k :: 0 <= k < |cs| ==> cs[k].index == drange[k] && cs[k].extrapolation == ExtrapolationFor(flags)
    ensures bone.Some? && bone.value != "" ==>
              forall k :: 0 <= k < |cs| ==> cs[k].path == BonePath(bone.value, dtype) && cs[k].group == bone.value
    ensures !(bone.Some? && bone.value != "") ==>
              forall k :: 0 <= k < |cs| ==> cs[k].path == dtype && cs[k].group == ObjectGroup(dtype)
  {
    var path := if bone.Some? && bone.value != "" then BonePath(bone.value, dtype) else dtype;
    var group := if bone.Some? && bone.value != "" then bone.value else ObjectGroup(dtype);
    seq(|drange|, k requires 0 <= k < |drange| => FCurve(path, drange[k], group, ExtrapolationFor(flags)))
  }

  /** A bone name without a double quote can be read back from its data
      path: it is what stands between `pose.bones["` and the next quote. */
  lemma BonePathParse(bone: string, dtype: string)
    requires '"' !in bone
    ensures var p := BonePath(bone, dtype);
            var start := |"pose.bones[\""|;
            && p[..start] == "pose.bones[\""
            && p[start..start + |bone|] == bone
            && p[start + |bone|] == '"'
            && p[start + |bone| + 3..] == dtype
  {
    var p := BonePath(bone, dtype);
    var head := "pose.bones[\"";
    assert p == head + bone + "\"]." + dtype;
    assert p[..|head|] == head;
    assert p[|head|..|head| + |bone|] == bone;
    assert p[|head| + |bone| + 3..] == dtype;
  }

  /** Python's `round` on a number: to the nearest integer, halves to even. */
  function RoundHalfEven(r: real): (n: int)
    ensures -0.5 <= (n as real) - r <= 0.5
    ensures ((n as real) - r == 0.5 || (n as real) - r == -0.5) ==> n % 2 == 0
  {
    var f := r.Floor;
    var d := r - f as real;
    if d < 0.5 then f
    else if d > 0.5 then f + 1
    else if f % 2 == 0 then f else f + 1
  }

  /** A text key: its time in seconds and its text. */
  datatype TextKey = TextKey(time: real, value: string)

  /** The frame of a time at `fps` frames per second. */
  function Frame(time: real, fps: int): int
  {
    RoundHalfEven(time * fps as real)
  }

  /** The text of a key in the buffer: every `\r\n` becomes `/`, then
      trailing slashes go. */
  function KeyText(value: string): string
  {
    RStrip(Replace(value, "\r\n", "/"), '/')
  }

  /** The buffer line of one key: `<frame>/<text>` and a newline. */
  function KeyLine(k: TextKey, fps: int): string
  {
    IntToDec(Frame(k.time, fps)) + "/" + KeyText(k.value) + "\n"
  }

  function KeysText(keys: seq<TextKey>, fps: int): string
    decreases |keys|
  {
    if keys == [] then "" else KeysText(keys[..|keys| - 1], fps) + KeyLine(keys[|keys| - 1], fps)
  }

  /** The `Anim` buffer and the scene's last frame after the text keys. */
  datatype AnimText = AnimText(text: string, frameEnd: int)

  /** The error `import_text_keys` runs into when the text key block holds
      no key: the last frame is never set. */
  datatype TextKeyError = NoTextKeys

  /** `import_text_keys` once the text key block (if any) is found: the
      buffer gets one line per key, and the scene ends at the last key's
      frame. */
  method ImportTextKeys(txk: Option<seq<TextKey>>, fps: int) returns (r: Result<Option<AnimText>, TextKeyError>)
    ensures txk.None? ==> r == Success(None)
    ensures txk == Some([]) ==> r == Failure(NoTextKeys)
    ensures txk.Some? && txk.value != [] ==>
              var keys := txk.value;
              r == Success(Some(AnimText(KeysText(keys, fps), Frame(keys[|keys| - 1].time, fps))))
  {
    if txk.None? {
      return Success(None);
    }
    var keys := txk.value;
    var text := "";
    var frame: Option<int> := None;
    for k := 0 to |keys|
      invariant text == KeysText(keys[..k], fps)
      invariant k == 0 <==> frame.None?
      invariant k > 0 ==> frame == Some(Frame(keys[k - 1].time, fps))
    {
      var newKey := KeyText(keys[k].value);
      var f := Frame(keys[k].time, fps);
      assert keys[..k + 1][..k] == keys[..k];
      text := text + (IntToDec(f) + "/" + newKey + "\n");
      frame := Some(f);
    }
    assert keys[..|keys|] == keys;
    if frame.None? {
      return Failure(NoTextKeys);
    }
    return Success(Some(AnimText(text, frame.value)));
  }

  /** No `\r\n` pair anywhere in `s`. */
  predicate NoCRLF(s: string)
  {
    forall k :: 0 <= k < |s| - 1 ==> !(s[k] == '\r' && s[k + 1] == '\n')
  }

  /** The first character of a replacement by `/` is the first character
      of the text or the `/` that replaced it. */
  lemma ReplaceHead(s: string)
    requires s != []
    ensures Replace(s, "\r\n", "/") != []
    ensures Replace(s, "\r\n", "/")[0] == s[0] || Replace(s, "\r\n", "/")[0] == '/'
  {
  }

  lemma {:induction false} ReplaceNoCRLF(s: string)
    ensures NoCRLF(Replace(s, "\r\n", "/"))
    decreases |s|
  {
    var r := Replace(s, "\r\n", "/");
    if |s| < 2 {
    } else if s[..2] == "\r\n" {
      ReplaceNoCRLF(s[2..]);
      var rest := Replace(s[2..], "\r\n", "/");
      assert r == "/" + rest;
      forall k | 0 <= k < |r| - 1
        ensures !(r[k] == '\r' && r[k + 1] == '\n')
      {
        if k > 0 {
          assert r[k] == rest[k - 1] && r[k + 1] == rest[k];
        }
      }
    } else {
      ReplaceNoCRLF(s[1..]);
      var rest := Replace(s[1..], "\r\n", "/");
      assert r == [s[0]] + rest;
      ReplaceHead(s[1..]);
      forall k | 0 <= k < |r| - 1
        ensures !(r[k] == '\r' && r[k + 1] == '\n')
      {
        if k > 0 {
          assert r[k] == rest[k - 1] && r[k + 1] == rest[k];
        } else {
          assert s[..2] == [s[0], s[1]];
        }
      }
    }
  }

  /** A key's text holds no `\r\n` and does not end in `/`. */
  lemma KeyTextClean(value: string)
    ensures NoCRLF(KeyText(value))
    ensures KeyText(value) == [] || KeyText(value)[|KeyText(value)| - 1] != '/'
  {
    ReplaceNoCRLF(value);
    var s := Replace(value, "\r\n", "/");
    var r := RStrip(s, '/');
    forall k | 0 <= k < |r| - 1
      ensures !(r[k] == '\r' && r[k + 1] == '\n')
    {
      assert r[k] == s[k] && r[k + 1] == s[k + 1];
    }
  }

  lemma NatToDecNoSlash(n: nat)
    ensures '/' !in NatToDec(n)
  {
    var s := NatToDec(n);
    assert forall k :: 0 <= k < |s| ==> s[k] != '/';
  }

  /** The text before the first `/` of a key's line is its frame. */
  lemma KeyLineFrame(k: TextKey, fps: int)
    ensures Split(KeyLine(k, fps), '/')[0] == IntToDec(Frame(k.time, fps))
  {
    var f := Frame(k.time, fps);
    var dec := IntToDec(f);
    if f < 0 {
      NatToDecNoSlash(-f);
      assert dec == "-" + NatToDec(-f);
    } else {
      NatToDecNoSlash(f);
    }
    assert '/' !in dec;
    var rest := KeyText(k.value) + "\n";
    assert KeyLine(k, fps) == dec + ['/'] + rest;
    SplitFirst(dec, '/', rest);
  }

  /** The text of a key as `import_text_keys` is written: the key's value
      is a byte string, so `str` gives its `repr`, and the replacement and
      the strip act on that. */
  function KeyTextAsWritten(value: string): string
  {
    RStrip(Replace(BytesRepr(value), "\r\n", "/"), '/')
  }

  /** The buffer line of one key as written. */
  function KeyLineAsWritten(k: TextKey, fps: int): string
  {
    IntToDec(Frame(k.time, fps)) + "/" + KeyTextAsWritten(k.value) + "\n"
  }

  /** As written, the text of a key is exactly the `repr` of its value:
      the `repr` holds no carriage return and ends in a quote, so neither
      the replacement nor the strip changes it; being longer than the
      value, it is never the intended text. */
  lemma KeyTextAsWrittenIsRepr(value: string)
    ensures KeyTextAsWritten(value) == BytesRepr(value)
    ensures KeyTextAsWritten(value) != KeyText(value)
  {
    var r := BytesRepr(value);
    assert forall k :: 0 <= k < |r| ==> r[k] != '\r';
    ReplaceAbsent(r, "\r\n", "/");
    ReplaceShrinks(value, "\r\n", "/");
  }

  /** Printable text holding no quote and no backslash and not ending in
      `/`, such as "start". */
  predicate PlainText(v: string)
  {
    && (forall k :: 0 <= k < |v| ==> ' ' <= v[k] <= '~' && v[k] != '\'' && v[k] != '\\')
    && (v == [] || v[|v| - 1] != '/')
  }

  lemma PlainRepr(v: string)
    requires PlainText(v)
    ensures ReprQuote(v) == '\'' && ReprQuote(v + "\r\n") == '\''
    ensures EscapeBytes(v, '\'') == v
  {
    assert forall k :: 0 <= k < |v| ==> v[k] != '\'';
    var w := v + "\r\n";
    assert forall k :: 0 <= k < |w| ==> w[k] != '\'' by {
      forall k | 0 <= k < |w|
        ensures w[k] != '\''
      {
        if k < |v| {
          assert w[k] == v[k];
        }
      }
    }
    EscapeBytesPlain(v, '\'');
  }

  /** Every key with plain text reaches the buffer, as written, with its
      text wrapped in `b'` and `'`, where the intended line holds the text
      itself: the key "start" at time 0 gives `0/b'start'` and not
      `0/start`. */
  lemma PlainKeyLineAsWritten(k: TextKey, fps: int)
    requires PlainText(k.value)
    ensures KeyLineAsWritten(k, fps) == IntToDec(Frame(k.time, fps)) + "/" + ("b'" + k.value + "'") + "\n"
    ensures KeyLine(k, fps) == IntToDec(Frame(k.time, fps)) + "/" + k.value + "\n"
  {
    var v := k.value;
    assert KeyTextAsWritten(v) == "b'" + v + "'" by {
      KeyTextAsWrittenIsRepr(v);
      PlainRepr(v);
      assert BytesRepr(v) == ['b', '\''] + v + ['\''];
    }
    assert KeyText(v) == v by {
      assert forall j :: 0 <= j < |v| ==> v[j] != '\r';
      ReplaceAbsent(v, "\r\n", "/");
    }
  }

  /** `\r\n` never leaves the `repr`'s escapes: as written, a plain text
      followed by `\r\n` reaches the buffer with `\r\n` spelled out
      inside `b'` and `'`, where the intended text is the plain text. */
  lemma CrLfKeyTextAsWritten(v: string)
    requires PlainText(v)
    ensures KeyTextAsWritten(v + "\r\n") == "b'" + (v + "\\r\\n") + "'"
    ensures KeyText(v + "\r\n") == v
  {
    var w := v + "\r\n";
    assert KeyTextAsWritten(w) == "b'" + (v + "\\r\\n") + "'" by {
      KeyTextAsWrittenIsRepr(w);
      PlainRepr(v);
      assert EscapeBytes(w, '\'') == v + "\\r\\n" by {
        CrLfEscaped(v);
      }
      assert BytesRepr(w) == ['b', '\''] + EscapeBytes(w, '\'') + ['\''];
    }
    assert KeyText(w) == v by {
      assert forall j :: 0 <= j < |v| ==> v[j] != '\r';
      ReplaceCrLfEnd(v);
      ReplaceAbsent(v, "\r\n", "/");
      assert RStrip(v + "/", '/') == RStrip(v, '/');
    }
  }

  lemma CrLfEscaped(v: string)
    requires PlainText(v)
    ensures EscapeBytes(v + "\r\n", '\'') == v + "\\r\\n"
  {
    var a := v + ['\r'];
    EscapeBytesPlain(v, '\'');
    EscapeBytesSnoc(v, '\r', '\'');
    EscapeByteControl('\r', '\'');
    assert EscapeBytes(a, '\'') == v + "\\r";
    EscapeBytesSnoc(a, '\n', '\'');
    EscapeByteControl('\n', '\'');
    assert a + ['\n'] == v + "\r\n";
    assert v + "\\r" + "\\n" == v + "\\r\\n";
  }

  /** Text without a carriage return followed by `\r\n` has only that
      pair replaced. */
  lemma {:induction false} ReplaceCrLfEnd(v: string)
    requires forall j :: 0 <= j < |v| ==> v[j] != '\r'
    ensures Replace(v + "\r\n", "\r\n", "/") == Replace(v, "\r\n", "/") + "/"
    decreases |v|
  {
    var w := v + "\r\n";
    if v == [] {
      assert w[..2] == "\r\n" && w[2..] == [];
    } else {
      assert w[..2] != "\r\n" by {
        assert w[0] == v[0];
      }
      assert w[1..] == v[1..] + "\r\n";
      ReplaceCrLfEnd(v[1..]);
      if |v| >= 2 {
        assert v[..2] != "\r\n" by {
          assert v[..2][0] == v[0];
        }
      }
    }
  }
}
