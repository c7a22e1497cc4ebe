/** Method-of-images paths in a water column: which arrivals exist, in what order, and how long they are. */
module GeometricScenes {
  import opened RealArithmetic

  const MAX_IMAGE_ORDER: int := 4

  /** A square root, given as a function with its defining property. */
  ghost predicate IsSquareRoot(root: real -> real) {
    forall x :: x >= 0.0 ==> root(x) >= 0.0 && root(x) * root(x) == x
  }

  lemma RootStrict(root: real -> real, x: real, y: real)
    requires IsSquareRoot(root) && 0.0 <= x < y
    ensures root(x) < root(y)
  {
    var a, b := root(x), root(y);
    assert a >= 0.0 && a * a == x && b >= 0.0 && b * b == y;
    if b <= a {
      ProductMonotone(b, a, b);
      ProductMonotone(b, a, a);
    }
  }

  lemma RootMonotone(root: real -> real, x: real, y: real)
    requires IsSquareRoot(root) && 0.0 <= x <= y
    ensures root(x) <= root(y)
  {
    if x < y {
      RootStrict(root, x, y);
    }
  }

  lemma SquareMonotone(a: real, b: real)
    requires 0.0 <= a <= b
    ensures a * a <= b * b
  {
    ProductMonotone(a, b, a);
    ProductMonotone(a, b, b);
  }

  datatype Geometry = Geometry(
    sourceDepth: real, receiverDepth: real, waterDepth: real, gammaSurface: real, gammaBottom: real,
    direct: bool, surface: bool, bottom: bool, surfaceBottom: bool, bottomSurface: bool, maxBounces: int)

  /** One candidate arrival: its bounces, its vertical image offset, its reflection product. */
  datatype Candidate = Candidate(order: int, dz: real, gamma: real, hasSurface: bool, hasBottom: bool, enabled: bool)

  function Candidates(g: Geometry): (c: seq<Candidate>)
    ensures |c| == 9
  {
    var zs, zr, d, gs, gb := g.sourceDepth, g.receiverDepth, g.waterDepth, g.gammaSurface, g.gammaBottom;
    [Candidate(0, zs - zr, 1.0, false, false, g.direct),
     Candidate(1, zs + zr, gs, true, false, g.surface),
     Candidate(1, 2.0 * d - zs - zr, gb, false, true, g.bottom),
     Candidate(2, 2.0 * d - zs + zr, gs * gb, true, true, g.surfaceBottom),
     Candidate(2, 2.0 * d + zs - zr, gs * gb, true, true, g.bottomSurface),
     Candidate(3, 2.0 * d + zs + zr, gs * gs * gb, true, true, true),
     Candidate(3, 4.0 * d - zs - zr, gs * gb * gb, true, true, true),
     Candidate(4, 4.0 * d + zs - zr, gs * gs * gb * gb, true, true, true),
     Candidate(4, 4.0 * d - zs + zr, gs * gs * gb * gb, true, true, true)]
  }

  /** What sound can be mirrored in. */
  datatype Boundary = Surface | Bottom

  /** The depth of a mirror image. */
  function Mirrored(b: Boundary, depth: real, water: real): real {
    if b.Surface? then -depth else 2.0 * water - depth
  }

  /** The depth the source appears at after these bounces, the first one first. */
  function ImageDepth(bounces: seq<Boundary>, depth: real, water: real): real {
    if bounces == [] then depth
    else Mirrored(bounces[|bounces| - 1], ImageDepth(bounces[..|bounces| - 1], depth, water), water)
  }

  /** What the bounces leave of the amplitude. */
  function Reflection(bounces: seq<Boundary>, g: Geometry): real {
    if bounces == [] then 1.0
    else Reflection(bounces[..|bounces| - 1], g) * (if bounces[|bounces| - 1].Surface? then g.gammaSurface else g.gammaBottom)
  }

  /** The candidate is the arrival with these bounces. */
  predicate IsImage(c: Candidate, g: Geometry, bounces: seq<Boundary>) {
    var h := ImageDepth(bounces, g.sourceDepth, g.waterDepth) - g.receiverDepth;
    && c.order == |bounces| && (c.dz == h || c.dz == -h) && c.gamma == Reflection(bounces, g)
    && (c.hasSurface <==> Surface in bounces) && (c.hasBottom <==> Bottom in bounces)
  }

  /** One bounce more mirrors the image and weakens the arrival once more. */
  predicate NextImage(bounces: seq<Boundary>, b: Boundary, g: Geometry) {
    && ImageDepth(bounces + [b], g.sourceDepth, g.waterDepth)
         == Mirrored(b, ImageDepth(bounces, g.sourceDepth, g.waterDepth), g.waterDepth)
    && Reflection(bounces + [b], g) == Reflection(bounces, g) * (if b.Surface? then g.gammaSurface else g.gammaBottom)
  }

  lemma ImageOfNext(bounces: seq<Boundary>, b: Boundary, g: Geometry)
    ensures NextImage(bounces, b, g)
  {
    assert (bounces + [b])[..|bounces|] == bounces;
  }

  /** Where the images lie. */
  lemma ImageDepths(g: Geometry)
    ensures var zs, d := g.sourceDepth, g.waterDepth;
      && ImageDepth([Surface], zs, d) == -zs && ImageDepth([Bottom], zs, d) == 2.0 * d - zs
      && ImageDepth([Bottom, Surface], zs, d) == zs - 2.0 * d && ImageDepth([Surface, Bottom], zs, d) == 2.0 * d + zs
      && ImageDepth([Surface, Bottom, Surface], zs, d) == -2.0 * d - zs
      && ImageDepth([Bottom, Surface, Bottom], zs, d) == 4.0 * d - zs
      && ImageDepth([Surface, Bottom, Surface, Bottom], zs, d) == 4.0 * d + zs
      && ImageDepth([Bottom, Surface, Bottom, Surface], zs, d) == zs - 4.0 * d
  {
    AllImages(g);
  }

  /** What their reflections leave, bounce by bounce. */
  lemma ReflectionProducts(g: Geometry)
    ensures var s, b := g.gammaSurface, g.gammaBottom;
      && Reflection([Surface], g) == 1.0 * s && Reflection([Bottom], g) == 1.0 * b
      && Reflection([Bottom, Surface], g) == 1.0 * b * s && Reflection([Surface, Bottom], g) == 1.0 * s * b
      && Reflection([Surface, Bottom, Surface], g) == 1.0 * s * b * s
      && Reflection([Bottom, Surface, Bottom], g) == 1.0 * b * s * b
      && Reflection([Surface, Bottom, Surface, Bottom], g) == 1.0 * s * b * s * b
      && Reflection([Bottom, Surface, Bottom, Surface], g) == 1.0 * b * s * b * s
  {
    AllImages(g);
  }

  /** Each of the eight paths is another path and a bounce more. */
  lemma AllImages(g: Geometry)
    ensures forall bounces, b :: NextImage(bounces, b, g)
    ensures [] + [Surface] == [Surface] && [] + [Bottom] == [Bottom]
    ensures [Bottom] + [Surface] == [Bottom, Surface] && [Surface] + [Bottom] == [Surface, Bottom]
    ensures [Surface, Bottom] + [Surface] == [Surface, Bottom, Surface]
    ensures [Bottom, Surface] + [Bottom] == [Bottom, Surface, Bottom]
    ensures [Surface, Bottom, Surface] + [Bottom] == [Surface, Bottom, Surface, Bottom]
    ensures [Bottom, Surface, Bottom] + [Surface] == [Bottom, Surface, Bottom, Surface]
  {
    forall bounces, b
      ensures NextImage(bounces, b, g)
    {
      ImageOfNext(bounces, b, g);
    }
  }

  lemma SameProducts(s: real, b: real)
    ensures 1.0 * b * s == s * b && 1.0 * s * b * s == s * s * b && 1.0 * b * s * b == s * b * b
    ensures 1.0 * s * b * s * b == s * s * b * b && 1.0 * b * s * b * s == s * s * b * b
  {
  }

  /** The table is the method of images: the candidates are the paths that alternate between surface and bottom,
      with up to four bounces, each with the offset of its image and the product of its reflections; and the five
      classic ones each hang on their own flag. */
  lemma CandidatesAreImages(g: Geometry)
    ensures var c := Candidates(g);
      && IsImage(c[0], g, []) && IsImage(c[1], g, [Surface]) && IsImage(c[2], g, [Bottom])
      && IsImage(c[3], g, [Bottom, Surface]) && IsImage(c[4], g, [Surface, Bottom])
      && IsImage(c[5], g, [Surface, Bottom, Surface]) && IsImage(c[6], g, [Bottom, Surface, Bottom])
      && IsImage(c[7], g, [Surface, Bottom, Surface, Bottom]) && IsImage(c[8], g, [Bottom, Surface, Bottom, Surface])
    ensures var c := Candidates(g);
      && c[0].enabled == g.direct && c[1].enabled == g.surface && c[2].enabled == g.bottom
      && c[3].enabled == g.surfaceBottom && c[4].enabled == g.bottomSurface
      && c[5].enabled && c[6].enabled && c[7].enabled && c[8].enabled
  {
    ImageDepths(g);
    ReflectionProducts(g);
    SameProducts(g.gammaSurface, g.gammaBottom);
  }

  function BounceLimit(g: Geometry): (n: int)
    ensures 0 <= n <= 4
    ensures 0 <= g.maxBounces <= 4 ==> n == g.maxBounces
    ensures g.maxBounces < 0 ==> n == 0
    ensures g.maxBounces > 4 ==> n == 4
  {
    if g.maxBounces < 0 then 0 else if g.maxBounces > MAX_IMAGE_ORDER then MAX_IMAGE_ORDER else g.maxBounces
  }

  predicate Active(g: Geometry, c: Candidate) {
    c.order <= BounceLimit(g) && c.enabled
  }

  /** Which of them arrive: the five classic paths on their flags, and each order only if that many bounces are
      allowed. */
  lemma ActiveByOrder(g: Geometry)
    ensures var c := Candidates(g);
      && (Active(g, c[0]) <==> g.direct)
      && (Active(g, c[1]) <==> g.surface && g.maxBounces >= 1) && (Active(g, c[2]) <==> g.bottom && g.maxBounces >= 1)
      && (Active(g, c[3]) <==> g.surfaceBottom && g.maxBounces >= 2) && (Active(g, c[4]) <==> g.bottomSurface && g.maxBounces >= 2)
      && (Active(g, c[5]) <==> g.maxBounces >= 3) && (Active(g, c[6]) <==> g.maxBounces >= 3)
      && (Active(g, c[7]) <==> g.maxBounces >= 4) && (Active(g, c[8]) <==> g.maxBounces >= 4)
  {
  }

  /** The active candidates of a prefix of the table, in table order. */
  function ActivePaths(g: Geometry, table: seq<Candidate>): seq<Candidate> {
    if table == [] then []
    else
      var front := ActivePaths(g, table[..|table| - 1]);
      var c := table[|table| - 1];
      if Active(g, c) then front + [c] else front
  }

  /** An arrival as emitted: its slant range and the candidate it came from. */
  datatype Path = Path(length: real, image: Candidate)

  function Square(x: real): (s: real)
    ensures s >= 0.0
  {
    HalfSquare(x);
    x * x
  }

  function Length(range: real, dz: real, root: real -> real): real {
    root(Square(range) + Square(dz))
  }

  /** The images behind a list of paths, in order. */
  function Images(paths: seq<Path>): (c: seq<Candidate>)
    ensures |c| == |paths|
  {
    seq(|paths|, i requires 0 <= i < |paths| => paths[i].image)
  }

  function CandidateOffsets(cs: seq<Candidate>): (o: seq<real>)
    ensures |o| == |cs|
  {
    seq(|cs|, i requires 0 <= i < |cs| => Square(cs[i].dz))
  }

  /** Squared offsets of a list of paths. */
  function Offsets(paths: seq<Path>): (o: seq<real>)
    ensures |o| == |paths|
  {
    CandidateOffsets(Images(paths))
  }

  lemma TakeOut<T>(s: seq<T>, i: nat)
    requires i < |s|
    ensures s == s[..i] + [s[i]] + s[i + 1..]
    ensures multiset(s[..i] + s[i + 1..]) == multiset(s) - multiset{s[i]}
  {
    assert s == s[..i] + [s[i]] + s[i + 1..];
  }

  /** Rearranging images rearranges their offsets. */
  lemma {:induction false} OffsetsRearranged(a: seq<Candidate>, b: seq<Candidate>)
    requires multiset(a) == multiset(b)
    ensures multiset(CandidateOffsets(a)) == multiset(CandidateOffsets(b))
    decreases |a|
  {
    if a == [] {
      assert |multiset(b)| == |b|;
    } else {
      var i := Find(b, a[0], multiset(a));
      TakeOut(a, 0);
      TakeOut(b, i);
      assert a[..0] + a[1..] == a[1..];
      OffsetsRearranged(a[1..], b[..i] + b[i + 1..]);
      SplitOffsets(a[..0], a[0], a[1..]);
      SplitOffsets(b[..i], b[i], b[i + 1..]);
    }
  }

  lemma Find(b: seq<Candidate>, c: Candidate, m: multiset<Candidate>) returns (i: nat)
    requires multiset(b) == m && c in m
    ensures i < |b| && b[i] == c
  {
    assert c in b;
    i :| i < |b| && b[i] == c;
  }

  lemma SplitOffsets(a: seq<Candidate>, c: Candidate, b: seq<Candidate>)
    ensures multiset(CandidateOffsets(a + [c] + b)) == multiset(CandidateOffsets(a + b)) + multiset{Square(c.dz)}
  {
    assert CandidateOffsets(a + [c] + b) == CandidateOffsets(a) + [Square(c.dz)] + CandidateOffsets(b);
    assert CandidateOffsets(a + b) == CandidateOffsets(a) + CandidateOffsets(b);
  }

  ghost predicate Sorted(s: seq<real>) {
    forall i, j :: 0 <= i <= j < |s| ==> s[i] <= s[j]
  }

  ghost predicate SortedByLength(paths: seq<Path>) {
    forall i, j :: 0 <= i <= j < |paths| ==> paths[i].length <= paths[j].length
  }

  ghost predicate LengthsAt(paths: seq<Path>, range: real, root: real -> real) {
    forall i :: 0 <= i < |paths| ==> paths[i].length == Length(range, paths[i].image.dz, root)
  }

  lemma ActivePathsNext(g: Geometry, table: seq<Candidate>, i: nat)
    requires i < |table|
    ensures var front, next := ActivePaths(g, table[..i]), ActivePaths(g, table[..i + 1]);
      next == if Active(g, table[i]) then front + [table[i]] else front
  {
    assert table[..i + 1][..i] == table[..i];
  }

  /** An arrival put in its place by length, after those of equal length. */
  function Place(paths: seq<Path>, p: Path): seq<Path> {
    if paths == [] || p.length < paths[0].length then [p] + paths else [paths[0]] + Place(paths[1..], p)
  }

  /** These images as arrivals at one horizontal range, shortest first. */
  function Arranged(cs: seq<Candidate>, range: real, root: real -> real): seq<Path> {
    if cs == [] then []
    else
      var c := cs[|cs| - 1];
      Place(Arranged(cs[..|cs| - 1], range, root), Path(Length(range, c.dz, root), c))
  }

  function PathsAt(g: Geometry, range: real, root: real -> real): seq<Path> {
    Arranged(ActivePaths(g, Candidates(g)), range, root)
  }

  /** Where the place is: past everything no longer than the arrival. */
  lemma {:induction false} PlaceIsAt(paths: seq<Path>, k: nat, p: Path)
    requires k <= |paths| && (forall j :: 0 <= j < k ==> paths[j].length <= p.length)
    requires k < |paths| ==> p.length < paths[k].length
    ensures Place(paths, p) == paths[..k] + [p] + paths[k..]
    decreases k
  {
    if k > 0 {
      PlaceIsAt(paths[1..], k - 1, p);
      assert paths[..k] == [paths[0]] + paths[1..][..k - 1] && paths[1..][k - 1..] == paths[k..];
    }
  }

  lemma {:induction false} FindPlace(paths: seq<Path>, p: Path) returns (k: nat)
    ensures k <= |paths| && (forall j :: 0 <= j < k ==> paths[j].length <= p.length)
    ensures k < |paths| ==> p.length < paths[k].length
  {
    k := 0;
    while k < |paths| && paths[k].length <= p.length
      invariant k <= |paths| && forall j :: 0 <= j < k ==> paths[j].length <= p.length
    {
      k := k + 1;
    }
  }

  lemma PlaceKeeps(paths: seq<Path>, p: Path)
    requires SortedByLength(paths)
    ensures SortedByLength(Place(paths, p)) && |Place(paths, p)| == |paths| + 1
    ensures multiset(Images(Place(paths, p))) == multiset(Images(paths)) + multiset{p.image}
    ensures forall k :: 0 <= k < |Place(paths, p)| ==> Place(paths, p)[k] == p || Place(paths, p)[k] in paths
  {
    var k := FindPlace(paths, p);
    PlaceIsAt(paths, k, p);
    InsertedImages(paths, k, p);
  }

  /** Arranging keeps every image, gives each its slant range, and puts the shortest first. */
  lemma {:induction false} ArrangedKeeps(cs: seq<Candidate>, range: real, root: real -> real)
    ensures SortedByLength(Arranged(cs, range, root)) && LengthsAt(Arranged(cs, range, root), range, root)
    ensures multiset(Images(Arranged(cs, range, root))) == multiset(cs) && |Arranged(cs, range, root)| == |cs|
  {
    if cs != [] {
      var front, c := cs[..|cs| - 1], cs[|cs| - 1];
      ArrangedKeeps(front, range, root);
      PlaceKeeps(Arranged(front, range, root), Path(Length(range, c.dz, root), c));
      assert cs == front + [c];
    }
  }

  lemma {:induction false} AtMostAll(g: Geometry, table: seq<Candidate>)
    ensures |ActivePaths(g, table)| <= |table|
  {
    if table != [] {
      AtMostAll(g, table[..|table| - 1]);
    }
  }

  /** One more candidate of the table. */
  lemma ArrangedNext(g: Geometry, table: seq<Candidate>, i: nat, range: real, root: real -> real)
    requires i < |table|
    ensures var front, c := Arranged(ActivePaths(g, table[..i]), range, root), table[i];
      && SortedByLength(front)
      && Arranged(ActivePaths(g, table[..i + 1]), range, root)
           == if Active(g, c) then Place(front, Path(Length(range, c.dz, root), c)) else front
  {
    ActivePathsNext(g, table, i);
    ArrangedKeeps(ActivePaths(g, table[..i]), range, root);
    var front := ActivePaths(g, table[..i]);
    assert (front + [table[i]])[..|front|] == front;
  }

  /** The arrivals at one horizontal range, shortest first. */
  method ComputePaths(g: Geometry, range: real, root: real -> real) returns (out: seq<Path>)
    ensures out == PathsAt(g, range, root)
    ensures SortedByLength(out) && LengthsAt(out, range, root)
    ensures multiset(Images(out)) == multiset(ActivePaths(g, Candidates(g)))
    ensures |out| == |ActivePaths(g, Candidates(g))| <= 9
  {
    out := ArrangeActive(g, Candidates(g), range, root);
    ArrangedKeeps(ActivePaths(g, Candidates(g)), range, root);
    AtMostAll(g, Candidates(g));
  }

  /** The loop over the candidate table. */
  method ArrangeActive(g: Geometry, table: seq<Candidate>, range: real, root: real -> real) returns (out: seq<Path>)
    ensures out == Arranged(ActivePaths(g, table), range, root)
  {
    out := [];
    var i := 0;
    while i < |table|
      invariant i <= |table| && out == Arranged(ActivePaths(g, table[..i]), range, root)
    {
      ArrangedNext(g, table, i, range, root);
      if Active(g, table[i]) {
        out := Insert(out, Path(Length(range, table[i].dz, root), table[i]));
      }
      i := i + 1;
    }
    assert table[..i] == table;
  }

  /** Sort step: put one arrival in its place by length. */
  method Insert(paths: seq<Path>, p: Path) returns (out: seq<Path>)
    requires SortedByLength(paths)
    ensures out == Place(paths, p)
    ensures SortedByLength(out) && |out| == |paths| + 1
    ensures multiset(Images(out)) == multiset(Images(paths)) + multiset{p.image}
    ensures forall k :: 0 <= k < |out| ==> out[k] == p || out[k] in paths
  {
    var k := 0;
    while k < |paths| && paths[k].length <= p.length
      invariant k <= |paths|
      invariant forall j :: 0 <= j < k ==> paths[j].length <= p.length
    {
      k := k + 1;
    }
    out := paths[..k] + [p] + paths[k..];
    PlaceIsAt(paths, k, p);
    PlaceKeeps(paths, p);
  }

  lemma ImagesConcat(a: seq<Path>, b: seq<Path>)
    ensures Images(a + b) == Images(a) + Images(b)
  {
  }

  lemma InsertedImages(paths: seq<Path>, k: nat, p: Path)
    requires k <= |paths|
    ensures multiset(Images(paths[..k] + [p] + paths[k..])) == multiset(Images(paths)) + multiset{p.image}
  {
    ImagesConcat(paths[..k] + [p], paths[k..]);
    ImagesConcat(paths[..k], [p]);
    ImagesConcat(paths[..k], paths[k..]);
    assert paths == paths[..k] + paths[k..];
    assert Images([p]) == [p.image];
  }

  lemma HeadIsLeast(a: seq<real>, b: seq<real>)
    requires a != [] && b != [] && Sorted(a) && multiset(a) == multiset(b)
    ensures a[0] <= b[0]
  {
    assert b[0] in multiset(b);
    assert b[0] in multiset(a);
    assert b[0] in a;
  }

  lemma DropHead(a: seq<real>)
    requires a != []
    ensures multiset(a[1..]) == multiset(a) - multiset{a[0]} && |multiset(a)| == |a|
  {
    assert a == [a[0]] + a[1..];
  }

  /** Two sorted sequences with the same elements are equal. */
  lemma {:induction false} SortedUnique(a: seq<real>, b: seq<real>)
    requires Sorted(a) && Sorted(b) && multiset(a) == multiset(b)
    ensures a == b
    decreases |a|
  {
    if a == [] || b == [] {
      assert |multiset(a)| == |multiset(b)|;
    } else {
      HeadIsLeast(a, b);
      HeadIsLeast(b, a);
      DropHead(a);
      DropHead(b);
      SortedUnique(a[1..], b[1..]);
      assert a == [a[0]] + a[1..] && b == [b[0]] + b[1..];
    }
  }

  /** Ordering by length is ordering by squared offset. */
  lemma LengthOrderIsOffsetOrder(paths: seq<Path>, range: real, root: real -> real)
    requires IsSquareRoot(root) && SortedByLength(paths) && LengthsAt(paths, range, root)
    ensures Sorted(Offsets(paths))
  {
    forall i, j | 0 <= i <= j < |paths|
      ensures Offsets(paths)[i] <= Offsets(paths)[j]
    {
      var e, f := Square(paths[i].image.dz), Square(paths[j].image.dz);
      if f < e {
        RootStrict(root, Square(range) + f, Square(range) + e);
      }
    }
  }

  /** Tap identity: the number of paths is the same at every range, and index k always denotes an image
      with the same offset magnitude, so that interpolating tap k between two ranges follows one path. */
  lemma TapIdentity(g: Geometry, r1: real, r2: real, root: real -> real, p1: seq<Path>, p2: seq<Path>)
    requires IsSquareRoot(root)
    requires SortedByLength(p1) && LengthsAt(p1, r1, root) && SortedByLength(p2) && LengthsAt(p2, r2, root)
    requires multiset(Images(p1)) == multiset(Images(p2)) == multiset(ActivePaths(g, Candidates(g)))
    ensures |p1| == |p2|
    ensures forall k :: 0 <= k < |p1| ==> Square(p1[k].image.dz) == Square(p2[k].image.dz)
  {
    LengthOrderIsOffsetOrder(p1, r1, root);
    LengthOrderIsOffsetOrder(p2, r2, root);
    OffsetsRearranged(Images(p1), Images(p2));
    SortedUnique(Offsets(p1), Offsets(p2));
    forall k | 0 <= k < |p1|
      ensures Square(p1[k].image.dz) == Square(p2[k].image.dz)
    {
      assert Offsets(p1)[k] == Offsets(p2)[k];
    }
  }

  /** The depths the scenario loader admits. */
  predicate LoaderDepths(g: Geometry) {
    0.0 < g.sourceDepth < g.waterDepth && 0.0 < g.receiverDepth < g.waterDepth
  }

  function Abs(x: real): real { if x >= 0.0 then x else -x }

  lemma OrdersSeparateOffsets(g: Geometry, i: nat, j: nat)
    requires LoaderDepths(g) && i < 9 && j < 9 && Candidates(g)[i].order < Candidates(g)[j].order
    ensures Abs(Candidates(g)[i].dz) < Abs(Candidates(g)[j].dz)
  {
  }

  lemma LongerOffset(range: real, a: real, b: real, root: real -> real)
    requires IsSquareRoot(root) && Abs(a) < Abs(b)
    ensures Length(range, a, root) < Length(range, b, root)
  {
    SquareStrict(Abs(a), Abs(b));
    assert Square(a) == Abs(a) * Abs(a) && Square(b) == Abs(b) * Abs(b);
    RootStrict(root, Square(range) + Square(a), Square(range) + Square(b));
  }

  /** Under those depths every path with fewer bounces is strictly shorter than every path with more. */
  lemma OrdersSeparateLengths(g: Geometry, i: nat, j: nat, range: real, root: real -> real)
    requires IsSquareRoot(root) && LoaderDepths(g) && i < 9 && j < 9
    requires Candidates(g)[i].order < Candidates(g)[j].order
    ensures Length(range, Candidates(g)[i].dz, root) < Length(range, Candidates(g)[j].dz, root)
  {
    OrdersSeparateOffsets(g, i, j);
    LongerOffset(range, Candidates(g)[i].dz, Candidates(g)[j].dz, root);
  }

  lemma SquareStrict(a: real, b: real)
    requires 0.0 <= a < b
    ensures a * a < b * b
  {
    PositiveFactors(b - a, b + a, b * b - a * a);
  }
}
