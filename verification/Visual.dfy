/** The pixel comparison of two screenshots (engine/visual.py). */
module Visual {
  import opened Sequences
  import opened Rounding

  newtype byte = x: int | 0 <= x < 256

  const TOLERANCE := 40

  datatype Pixel = Pixel(r: byte, g: byte, b: byte, a: byte)

  const RED: Pixel := Pixel(230, 30, 30, 255)
  const CLEAR: Pixel := Pixel(0, 0, 0, 0)

  function Apart(x: byte, y: byte): int { if x < y then y as int - x as int else x as int - y as int }

  predicate Changed(p: Pixel, q: Pixel) {
    Apart(p.r, q.r) > TOLERANCE || Apart(p.g, q.g) > TOLERANCE || Apart(p.b, q.b) > TOLERANCE || Apart(p.a, q.a) > TOLERANCE
  }

  /** 200 + g / 5 for the mean g of the colours, as a clamped byte array rounds it; no tie can occur. */
  function Grey(q: Pixel): byte {
    (200 + (q.r as int + q.g as int + q.b as int + 7) / 15) as byte
  }

  /** The rounding is to the nearest whole number: fifteen times the error is at most seven. */
  lemma GreyIsNearest(q: Pixel)
    ensures var exact := 3000 + q.r as int + q.g as int + q.b as int;
            -7 <= 15 * Grey(q) as int - exact <= 7
    ensures 200 <= Grey(q) <= 251
  {
  }

  /** The diff image shows a changed pixel red and any other faded to grey, with its opacity kept. */
  function Shown(p: Pixel, q: Pixel): Pixel {
    if Changed(p, q) then RED else Pixel(Grey(q), Grey(q), Grey(q), q.a)
  }

  /** Pixel i of a flat buffer of four bytes a pixel. */
  function At(data: seq<byte>, i: nat): Pixel
    requires 4 * i + 3 < |data|
  {
    Pixel(data[4 * i], data[4 * i + 1], data[4 * i + 2], data[4 * i + 3])
  }

  /** How many of the first n pixels differ. */
  function Differing(p: seq<byte>, q: seq<byte>, n: nat): nat
    requires 4 * n <= |p| && 4 * n <= |q|
  {
    if n == 0 then 0 else Differing(p, q, n - 1) + (if Changed(At(p, n - 1), At(q, n - 1)) then 1 else 0)
  }

  /** Overwrite the four bytes at i, and nothing else. */
  method Paint(data: array<byte>, i: nat, p: Pixel)
    requires i + 4 <= data.Length
    modifies data
    ensures data[..] == old(data[..i]) + [p.r, p.g, p.b, p.a] + old(data[i + 4..])
  {
    data[i], data[i + 1], data[i + 2], data[i + 3] := p.r, p.g, p.b, p.a;
  }

  /** The buffer after the first n pixels are painted. */
  ghost predicate Painted(base: seq<byte>, before: seq<byte>, now: seq<byte>, n: nat) {
    && |base| == |before| == |now| && 4 * n <= |now|
    && (forall k: nat :: k < n ==> At(now, k) == Shown(At(base, k), At(before, k)))
    && now[4 * n..] == before[4 * n..]
  }

  lemma PaintedOneMore(base: seq<byte>, before: seq<byte>, now: seq<byte>, next: seq<byte>, n: nat, p: Pixel)
    requires Painted(base, before, now, n) && 4 * n + 4 <= |now|
    requires p == Shown(At(base, n), At(before, n))
    requires next == now[..4 * n] + [p.r, p.g, p.b, p.a] + now[4 * n + 4..]
    ensures Painted(base, before, next, n + 1)
  {
    forall k: nat | k < n + 1 ensures At(next, k) == Shown(At(base, k), At(before, k)) {
      if k < n {
        assert At(next, k) == At(now, k);
      }
    }
    assert next[4 * n + 4..] == now[4 * n..][4..] == before[4 * n..][4..] == before[4 * n + 4..];
  }

  /** One turn of the loop, on the pixel at i. */
  method ComparePixel(pa: array<byte>, pb: array<byte>, i: nat) returns (differs: bool)
    requires pa != pb && i + 4 <= pa.Length && i + 4 <= pb.Length
    modifies pb
    ensures var p, q := Pixel(pa[i], pa[i + 1], pa[i + 2], pa[i + 3]), old(Pixel(pb[i], pb[i + 1], pb[i + 2], pb[i + 3]));
            var t := Shown(p, q);
            differs == Changed(p, q) && pb[..] == old(pb[..i]) + [t.r, t.g, t.b, t.a] + old(pb[i + 4..])
  {
    var p := Pixel(pa[i], pa[i + 1], pa[i + 2], pa[i + 3]);
    var q := Pixel(pb[i], pb[i + 1], pb[i + 2], pb[i + 3]);
    differs := Changed(p, q);
    if differs {
      Paint(pb, i, RED);
    } else {
      Paint(pb, i, Pixel(Grey(q), Grey(q), Grey(q), q.a));
    }
  }

  lemma Unpainted(before: seq<byte>, now: seq<byte>, n: nat)
    requires |before| == |now| && 4 * n + 4 <= |now| && now[4 * n..] == before[4 * n..]
    ensures At(now, n) == At(before, n)
  {
    assert forall j :: 0 <= j < 4 ==> now[4 * n + j] == now[4 * n..][j] == before[4 * n..][j] == before[4 * n + j];
  }

  /** The same turn, seen from the start of the loop. */
  method CompareNext(pa: array<byte>, pb: array<byte>, i: nat, ghost before: seq<byte>, ghost n: nat)
    returns (differs: bool)
    requires pa != pb && i == 4 * n && Painted(pa[..], before, pb[..], n) && 4 * n + 4 <= pb.Length
    modifies pb
    ensures differs == Changed(At(pa[..], n), At(before, n))
    ensures Painted(pa[..], before, pb[..], n + 1)
  {
    ghost var base, now := pa[..], pb[..];
    Unpainted(before, now, n);
    assert At(now, n) == Pixel(pb[i], pb[i + 1], pb[i + 2], pb[i + 3]);
    assert At(base, n) == Pixel(pa[i], pa[i + 1], pa[i + 2], pa[i + 3]);
    differs := ComparePixel(pa, pb, i);
    PaintedOneMore(base, before, now, pb[..], n, Shown(At(base, n), At(before, n)));
  }

  /** The pixel loop: each pixel of the current image is compared as it was before it is overwritten. */
  method ComparePixels(pa: array<byte>, pb: array<byte>) returns (changed: nat)
    requires pa != pb && pa.Length == pb.Length && pb.Length % 4 == 0
    modifies pb
    ensures changed == Differing(pa[..], old(pb[..]), pb.Length / 4)
    ensures Painted(pa[..], old(pb[..]), pb[..], pb.Length / 4)
  {
    changed := 0;
    ghost var before, n: nat := pb[..], 0;
    var i := 0;
    while i < pb.Length
      invariant i == 4 * n <= pb.Length
      invariant changed == Differing(pa[..], before, n)
      invariant Painted(pa[..], before, pb[..], n)
    {
      var differs := CompareNext(pa, pb, i, before, n);
      changed := changed + (if differs then 1 else 0);
      i := i + 4;
      n := n + 1;
    }
  }

  // ---- What the count means ----

  /** No pixel counts iff every one is within the tolerance; all count iff none is. */
  lemma {:induction false} DifferingBounds(p: seq<byte>, q: seq<byte>, n: nat)
    requires 4 * n <= |p| && 4 * n <= |q|
    ensures Differing(p, q, n) <= n
    ensures Differing(p, q, n) == 0 <==> forall i: nat :: i < n ==> !Changed(At(p, i), At(q, i))
    ensures Differing(p, q, n) == n <==> forall i: nat :: i < n ==> Changed(At(p, i), At(q, i))
  {
    if n > 0 {
      DifferingBounds(p, q, n - 1);
    }
  }

  lemma {:induction false} DifferingSymmetric(p: seq<byte>, q: seq<byte>, n: nat)
    requires 4 * n <= |p| && 4 * n <= |q|
    ensures Differing(p, q, n) == Differing(q, p, n)
  {
    if n > 0 {
      DifferingSymmetric(p, q, n - 1);
    }
  }

  // ---- Screenshots of different height ----

  /** A screenshot drawn on a canvas of n pixels of its width: the rows it lacks stay transparent. */
  function Drawn(image: seq<byte>, n: nat): (data: seq<byte>)
    requires |image| <= 4 * n
    ensures |data| == 4 * n
  {
    image + seq(4 * n - |image|, _ => 0 as byte)
  }

  ghost predicate Opaque(image: seq<byte>) {
    |image| % 4 == 0 && forall i: nat :: i < |image| / 4 ==> At(image, i).a == 255
  }

  /** With opaque screenshots, the pixels of the rows that only one of them has all count as changed. */
  lemma {:induction false} MissingRowsCount(short: seq<byte>, tall: seq<byte>, m: nat)
    requires Opaque(short) && Opaque(tall) && |short| / 4 <= m <= |tall| / 4
    ensures Differing(Drawn(short, |tall| / 4), tall, m)
         == Differing(short, tall, |short| / 4) + m - |short| / 4
  {
    var drawn := Drawn(short, |tall| / 4);
    if m > |short| / 4 {
      MissingRowsCount(short, tall, m - 1);
      assert At(drawn, m - 1) == CLEAR && At(tall, m - 1).a == 255;
    } else {
      SamePrefix(short, drawn, tall, m);
    }
  }

  lemma {:induction false} SamePrefix(p: seq<byte>, longer: seq<byte>, q: seq<byte>, n: nat)
    requires 4 * n <= |p| && p <= longer && 4 * n <= |q|
    ensures Differing(longer, q, n) == Differing(p, q, n)
  {
    if n > 0 {
      SamePrefix(p, longer, q, n - 1);
    }
  }

  datatype Screenshot = Screenshot(width: nat, data: seq<byte>)

  /** What `compare` returns: the share of changed pixels to five places, and the diff image. */
  datatype Comparison = Comparison(ratio: real, changed: nat, total: nat, sizeChanged: bool, diff: Option<seq<byte>>)

  /** The pixels of the taller image. */
  function Canvas(a: Screenshot, b: Screenshot): nat {
    (if |a.data| >= |b.data| then |a.data| else |b.data|) / 4
  }

  /** Compares two images of n pixels; what is painted on is a copy of the second. */
  method CompareDrawn(a: seq<byte>, b: seq<byte>, n: nat) returns (changed: nat, painted: seq<byte>)
    requires |a| == |b| == 4 * n
    ensures changed == Differing(a, b, n) && changed <= n
    ensures Painted(a, b, painted, n)
  {
    var pa := new byte[|a|](i requires 0 <= i < |a| => a[i]);
    var pb := new byte[|b|](i requires 0 <= i < |b| => b[i]);
    assert pa[..] == a && pb[..] == b;
    changed := ComparePixels(pa, pb);
    assert pb.Length / 4 == n;
    DifferingBounds(a, b, n);
    painted := pb[..];
  }

  /** `_COMPARE_JS`: another width counts as fully changed, without a diff image. */
  method Compare(baseline: Screenshot, current: Screenshot) returns (r: Comparison)
    requires |baseline.data| % 4 == 0 && |current.data| % 4 == 0 && |current.data| > 0
    ensures baseline.width != current.width ==>
      r == Comparison(1.0, |current.data| / 4, |current.data| / 4, true, None)
    ensures baseline.width == current.width ==>
      var n := Canvas(baseline, current);
      && r.total == n && (r.sizeChanged <==> |baseline.data| != |current.data|)
      && r.changed == Differing(Drawn(baseline.data, n), Drawn(current.data, n), n)
      && r.ratio == Round5(r.changed as real / n as real)
      && (r.diff.Some? <==> r.changed > 0)
      && (r.diff.Some? ==>
           Painted(Drawn(baseline.data, n), Drawn(current.data, n), r.diff.value, n) && |r.diff.value| == 4 * n)
    ensures r.changed <= r.total
  {
    if baseline.width != current.width {
      return Comparison(1.0, |current.data| / 4, |current.data| / 4, true, None);
    }
    var n := Canvas(baseline, current);
    var changed, painted := CompareDrawn(Drawn(baseline.data, n), Drawn(current.data, n), n);
    r := Comparison(Round5(changed as real / n as real), changed, n, |baseline.data| != |current.data|,
                    if changed > 0 then Some(painted) else None);
  }

  lemma ShareIsUnit(a: real, n: real)
    requires 0.0 <= a <= n && n > 0.0
    ensures 0.0 <= a / n <= 1.0
  {
  }

  /** The reported share lies in [0, 1], off by at most 0.000005; with nothing changed it is 0. */
  lemma RatioIsShare(changed: nat, total: nat)
    requires changed <= total && total > 0
    ensures var share := changed as real / total as real;
            && 0.0 <= Round5(share) <= 1.0 && share - 0.000005 <= Round5(share) <= share + 0.000005
            && (changed == 0 ==> Round5(share) == 0.0)
  {
    ShareIsUnit(changed as real, total as real);
    Round5Unit(changed as real / total as real);
    Round5Near(changed as real / total as real);
    assert (0.0).Floor == 0;
  }

  // ---- The comparison in terms of the bytes ----

  /** The bytes at this place of both images are at most forty apart. */
  predicate Close(p: seq<byte>, q: seq<byte>, j: nat)
    requires j < |p| && j < |q|
  {
    -40 <= p[j] as int - q[j] as int <= 40
  }

  /** A pixel differs iff one of its four bytes does, by more than forty. */
  lemma ChangedByBytes(p: seq<byte>, q: seq<byte>, i: nat)
    requires 4 * i + 3 < |p| && 4 * i + 3 < |q|
    ensures Changed(At(p, i), At(q, i))
       <==> !(Close(p, q, 4 * i) && Close(p, q, 4 * i + 1) && Close(p, q, 4 * i + 2) && Close(p, q, 4 * i + 3))
  {
  }

  /** The changed pixels, by their positions. */
  function FarPixels(p: seq<byte>, q: seq<byte>, n: nat): set<int>
    requires 4 * n <= |p| && 4 * n <= |q|
  {
    set i | 0 <= i < n && !(Close(p, q, 4 * i) && Close(p, q, 4 * i + 1) && Close(p, q, 4 * i + 2) && Close(p, q, 4 * i + 3))
  }

  lemma {:induction false} DifferingByBytes(p: seq<byte>, q: seq<byte>, n: nat)
    requires 4 * n <= |p| && 4 * n <= |q|
    ensures Differing(p, q, n) == |FarPixels(p, q, n)|
  {
    if n > 0 {
      DifferingByBytes(p, q, n - 1);
      ChangedByBytes(p, q, n - 1);
      assert FarPixels(p, q, n) == FarPixels(p, q, n - 1) + if Changed(At(p, n - 1), At(q, n - 1)) then {n - 1} else {};
    } else {
      assert FarPixels(p, q, 0) == {};
    }
  }

  /** Nothing is counted iff every byte is close. */
  lemma {:induction false} NoneFar(p: seq<byte>, q: seq<byte>, n: nat)
    requires 4 * n <= |p| && 4 * n <= |q|
    ensures Differing(p, q, n) == 0 <==> forall j: nat :: j < 4 * n ==> Close(p, q, j)
  {
    DifferingByBytes(p, q, n);
    if FarPixels(p, q, n) == {} {
      forall j: nat | j < 4 * n ensures Close(p, q, j) {
        assert j / 4 !in FarPixels(p, q, n);
      }
    }
  }

  /**
   * The diff image, pixel by pixel: (230, 30, 30, 255) where a byte is more than forty off, and elsewhere three equal
   * bytes within half of 200 plus a fifth of the mean of the current image's colours, with its opacity.
   */
  lemma {:induction false} DiffByBytes(p: seq<byte>, q: seq<byte>, diff: seq<byte>, n: nat, i: nat)
    requires Painted(p, q, diff, n) && i < n
    ensures var j := 4 * i;
            if i in FarPixels(p, q, n) then diff[j..j + 4] == [230, 30, 30, 255]
            else
              && diff[j] == diff[j + 1] == diff[j + 2] && diff[j + 3] == q[j + 3]
              && -7 <= 15 * diff[j] as int - (3000 + q[j] as int + q[j + 1] as int + q[j + 2] as int) <= 7
  {
    ChangedByBytes(p, q, i);
    var t := Shown(At(p, i), At(q, i));
    assert At(diff, i) == t;
    assert diff[4 * i..4 * i + 4] == [t.r, t.g, t.b, t.a];
    GreyIsNearest(At(q, i));
  }
}
