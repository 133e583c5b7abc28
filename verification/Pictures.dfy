/** Images of the lab-3 transformer, and their rotation by a quarter turn. */
module Pictures {
  import opened Words

  datatype Pixel = Pixel(b: Byte, g: Byte, r: Byte)

  /** The value of an image: rows of width pixels, one after the other. */
  datatype Picture = Picture(width: nat, height: nat, pixels: seq<Pixel>)

  /** ps has a cell for every place in h rows of w. */
  ghost predicate Boxed(ps: seq<Pixel>, w: nat, h: nat) { |ps| == w * h }

  ghost predicate Sized(p: Picture) { Boxed(p.pixels, p.width, p.height) }

  // ----- Cells and their places in the pixel array -----

  lemma {:induction false} CellInside(i: nat, j: nat, w: nat, h: nat)
    requires i < h && j < w
    ensures i * w + j < w * h
  {
    MulBounds(w, h - 1 - i);
    assert w * h == i * w + w + w * (h - 1 - i);
  }

  lemma {:induction false} CellUnique(i: nat, j: nat, w: nat)
    requires j < w
    ensures (i * w + j) / w == i && (i * w + j) % w == j
  {
    var x := i * w + j;
    assert x == w * (x / w) + x % w;
    var d := x / w - i;
    assert w * d == j - x % w;
    MulBounds(w, d);
  }

  function At(p: Picture, i: nat, j: nat): Pixel
    requires Sized(p) && i < p.height && j < p.width
  {
    CellInside(i, j, p.width, p.height);
    p.pixels[i * p.width + j]
  }

  lemma {:induction false} SamePicture(p: Picture, q: Picture)
    requires Sized(p) && Sized(q) && p.width == q.width && p.height == q.height
    requires forall i, j :: 0 <= i < p.height && 0 <= j < p.width ==> At(p, i, j) == At(q, i, j)
    ensures p == q
  {
    forall k | 0 <= k < |p.pixels| ensures p.pixels[k] == q.pixels[k] {
      var i, j := RowAndColumn(k, p.width, p.height);
      assert At(p, i, j) == At(q, i, j);
    }
  }

  lemma {:induction false} RowAndColumn(k: nat, w: nat, h: nat) returns (i: nat, j: nat)
    requires k < w * h
    ensures i < h && j < w && k == i * w + j
  {
    i, j := k / w, k % w;
    MulBounds(w, i - h);
    assert w * (i - h) == w * i - w * h;
  }

  // ----- Rotation -----

  /** Where rotate puts the source cell (i, j). */
  function Target(i: nat, j: nat, h: nat): nat
    requires i < h
  {
    j * h + (h - 1 - i)
  }

  /** Each destination index is the target of exactly one source cell. */
  lemma {:induction false} TargetIsBijection(w: nat, h: nat, d: nat) returns (i: nat, j: nat)
    requires d < w * h
    ensures i < h && j < w && Target(i, j, h) == d
    ensures forall i', j' :: 0 <= i' < h && 0 <= j' < w && Target(i', j', h) == d ==> i' == i && j' == j
  {
    var row, column := RowAndColumn(d, h, w);
    i, j := h - 1 - column, row;
    forall i', j' | 0 <= i' < h && 0 <= j' < w && Target(i', j', h) == d ensures i' == i && j' == j {
      CellUnique(j', h - 1 - i', h);
      CellUnique(row, column, h);
    }
  }

  /** p turned: the cell (i, j) of the source is at row j, column height - 1 - i. */
  ghost predicate IsRotation(p: Picture, q: Picture) {
    && Sized(p) && Sized(q) && q.width == p.height && q.height == p.width
    && forall i, j :: 0 <= i < p.height && 0 <= j < p.width ==> At(q, j, p.height - 1 - i) == At(p, i, j)
  }

  lemma {:induction false} RotationIsFunction(p: Picture, q: Picture, r: Picture)
    requires IsRotation(p, q) && IsRotation(p, r)
    ensures q == r
  {
    forall i, j | 0 <= i < q.height && 0 <= j < q.width ensures At(q, i, j) == At(r, i, j) {
      assert At(q, i, p.height - 1 - (p.height - 1 - j)) == At(p, p.height - 1 - j, i);
      assert At(r, i, p.height - 1 - (p.height - 1 - j)) == At(p, p.height - 1 - j, i);
    }
    SamePicture(q, r);
  }

  /** Four quarter turns give back the image. */
  lemma {:induction false} FourRotations(p: Picture, q: Picture, r: Picture, s: Picture, t: Picture)
    requires IsRotation(p, q) && IsRotation(q, r) && IsRotation(r, s) && IsRotation(s, t)
    ensures t == p
  {
    forall i, j | 0 <= i < p.height && 0 <= j < p.width ensures At(t, i, j) == At(p, i, j) {
      var h, w := p.height, p.width;
      assert At(q, j, h - 1 - i) == At(p, i, j);
      assert At(r, h - 1 - i, w - 1 - j) == At(q, j, h - 1 - i);
      assert At(s, w - 1 - j, i) == At(r, h - 1 - i, w - 1 - j);
      assert At(t, i, j) == At(s, w - 1 - j, i);
    }
    SamePicture(t, p);
  }

  // ----- Images in memory -----

  class Image {
    const width: nat
    const height: nat
    const data: array<Pixel>

    /** create_image: the product of the two 32-bit sizes is itself a 32-bit one. */
    constructor (width: nat, height: nat)
      requires width < UINT32 && height < UINT32
      ensures this.width == width && this.height == height
      ensures fresh(data) && data.Length == width * height % UINT32
    {
      this.width := width;
      this.height := height;
      var n := width * height % UINT32;
      data := new Pixel[n](_ => Pixel(0, 0, 0));
    }

    /** The array holds the whole image. */
    ghost predicate Valid()
      reads data
    {
      width < UINT32 && height < UINT32 && Boxed(data[..], width, height)
    }

    ghost function Value(): (p: Picture)
      requires Valid()
      reads data
      ensures Sized(p)
    {
      Picture(width, height, data[..])
    }
  }

  /** The cell (k, l) of src is at its target in dst. */
  ghost predicate Copied(src: seq<Pixel>, dst: seq<Pixel>, w: nat, h: nat, k: nat, l: nat) {
    k < h && k * w + l < |src| && Target(k, l, h) < |dst| && dst[Target(k, l, h)] == src[k * w + l]
  }

  /** The first i rows and the first j cells of row i are copied. */
  ghost predicate CopiedUpTo(src: seq<Pixel>, dst: seq<Pixel>, w: nat, h: nat, i: nat, j: nat) {
    && (forall k, l :: 0 <= k < i && 0 <= l < w ==> Copied(src, dst, w, h, k, l))
    && (forall l :: 0 <= l < j ==> Copied(src, dst, w, h, i, l))
  }

  lemma {:induction false} TargetInside(w: nat, h: nat, i: nat, j: nat)
    requires i < h && j < w
    ensures Target(i, j, h) < w * h
  {
    CellInside(j, h - 1 - i, h, w);
  }

  lemma {:induction false} TargetsApart(w: nat, h: nat, i: nat, j: nat, k: nat, l: nat)
    requires i < h && j < w && k < h && l < w && Target(i, j, h) == Target(k, l, h)
    ensures i == k && j == l
  {
    CellUnique(j, h - 1 - i, h);
    CellUnique(l, h - 1 - k, h);
  }

  lemma {:induction false} CopyOne(src: seq<Pixel>, dst: seq<Pixel>, w: nat, h: nat, i: nat, j: nat)
    requires |src| == w * h == |dst| && i < h && j < w && CopiedUpTo(src, dst, w, h, i, j)
    ensures i * w + j < w * h && Target(i, j, h) < w * h
    ensures CopiedUpTo(src, dst[Target(i, j, h) := src[i * w + j]], w, h, i, j + 1)
  {
    hide Target;
    CellInside(i, j, w, h);
    TargetInside(w, h, i, j);
    var out := dst[Target(i, j, h) := src[i * w + j]];
    forall k, l | 0 <= k < h && 0 <= l < w && Copied(src, dst, w, h, k, l) ensures Copied(src, out, w, h, k, l) {
      if Target(i, j, h) == Target(k, l, h) { TargetsApart(w, h, i, j, k, l); }
    }
  }

  lemma {:induction false} AllCopied(src: seq<Pixel>, dst: seq<Pixel>, w: nat, h: nat)
    requires |src| == w * h && |dst| == h * w && CopiedUpTo(src, dst, w, h, h, 0)
    ensures IsRotation(Picture(w, h, src), Picture(h, w, dst))
  {
    var p, q := Picture(w, h, src), Picture(h, w, dst);
    forall i, j | 0 <= i < h && 0 <= j < w ensures At(q, j, h - 1 - i) == At(p, i, j) {
      assert Copied(src, dst, w, h, i, j);
    }
  }

  /** rotate */
  method Rotate(source: Image) returns (image: Image)
    requires source.Valid() && source.width * source.height < UINT32
    ensures fresh(image) && image.Valid() && IsRotation(source.Value(), image.Value())
  {
    hide CopiedUpTo, IsRotation;
    var w, h := source.width, source.height;
    ghost var src := source.data[..];
    Swapped(w, h);
    image := new Image(h, w);
    NothingCopied(src, image.data[..], w, h);
    for i := 0 to h
      invariant image.data.Length == w * h && source.data[..] == src
      invariant CopiedUpTo(src, image.data[..], w, h, i, 0)
    {
      for j := 0 to w
        invariant image.data.Length == w * h && source.data[..] == src
        invariant CopiedUpTo(src, image.data[..], w, h, i, j)
      {
        ghost var dst := image.data[..];
        CopyOne(src, dst, w, h, i, j);
        image.data[j * h + (h - 1 - i)] := source.data[i * w + j];
        assert image.data[..] == dst[Target(i, j, h) := src[i * w + j]];
      }
      NextRow(src, image.data[..], w, h, i);
    }
    AllCopied(src, image.data[..], w, h);
  }

  lemma {:induction false} Swapped(w: nat, h: nat)
    requires w * h < UINT32
    ensures h * w == w * h && h * w % UINT32 == w * h
  {
  }

  lemma {:induction false} NothingCopied(src: seq<Pixel>, dst: seq<Pixel>, w: nat, h: nat)
    ensures CopiedUpTo(src, dst, w, h, 0, 0)
  {
  }

  lemma {:induction false} NextRow(src: seq<Pixel>, dst: seq<Pixel>, w: nat, h: nat, i: nat)
    requires CopiedUpTo(src, dst, w, h, i, w)
    ensures CopiedUpTo(src, dst, w, h, i + 1, 0)
  {
  }
}
