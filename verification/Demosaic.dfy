/** lib/r100/front_camera.c, GRBG_pack_16RGB: from one colour sample per site to three per pixel,
    by a pointer that walks over the image. */
module Demosaic {
  import opened Arithmetic

  datatype Colour = Red | Green | Blue

  /** The gain tables, indexed by the upper eight of ten bits. */
  datatype Gains = Gains(red: seq<bv16>, green: seq<bv16>, blue: seq<bv16>)

  predicate Tables(t: Gains)
  {
    |t.red| == |t.green| == |t.blue| == 256
  }

  /** Which colour a site of the GR/BG pattern has. */
  function ColourAt(r: int, c: int): Colour
  {
    if (r + c) % 2 == 0 then Green else if r % 2 == 0 then Red else Blue
  }

  /** Where a row starts. */
  function RowAt(w: nat, r: nat): nat
  {
    if r == 0 then 0 else RowAt(w, r - 1) + w
  }

  lemma {:induction false} RowAtIs(w: nat, r: nat)
    ensures RowAt(w, r) == r * w
  {
    if r == 0 {
    } else {
      RowAtIs(w, r - 1);
      assert (r - 1) * w == r * w - w;
    }
  }

  lemma RowMono(w: nat, r: nat, h: nat)
    requires r <= h
    ensures RowAt(w, r) <= RowAt(w, h)
    ensures r < h ==> RowAt(w, r) + w <= RowAt(w, h)
  {
  }

  /** An image of w by h samples of ten bits, row after row; both sides even and at least two. */
  ghost predicate Image(img: seq<nat>, w: nat, h: nat)
  {
    && w >= 2 && h >= 2 && w % 2 == 0 && h % 2 == 0 && |img| == RowAt(w, h)
    && forall k :: 0 <= k < |img| ==> img[k] < 1024
  }

  /** The site exists and has that colour. */
  predicate Has(w: nat, h: nat, k: Colour, r: int, c: int)
  {
    0 <= r < h && 0 <= c < w && ColourAt(r, c) == k
  }

  lemma Inside(w: nat, h: nat, r: nat, c: nat)
    requires r < h && c < w
    ensures RowAt(w, r) + c < RowAt(w, h)
  {
    RowMono(w, r, h);
  }

  function Value(img: seq<nat>, w: nat, h: nat, k: Colour, r: int, c: int): nat
    requires |img| == RowAt(w, h)
  {
    if Has(w, h, k, r, c) then
      Inside(w, h, r, c);
      img[RowAt(w, r) + c]
    else 0
  }

  function Count(w: nat, h: nat, k: Colour, r: int, c: int): nat
  {
    if Has(w, h, k, r, c) then 1 else 0
  }

  /** The samples of a colour at distance one. */
  function BesideSum(img: seq<nat>, w: nat, h: nat, k: Colour, r: int, c: int): nat
    requires |img| == RowAt(w, h)
  {
    Value(img, w, h, k, r - 1, c) + Value(img, w, h, k, r + 1, c) + Value(img, w, h, k, r, c - 1)
      + Value(img, w, h, k, r, c + 1)
  }

  function BesideCount(w: nat, h: nat, k: Colour, r: int, c: int): nat
  {
    Count(w, h, k, r - 1, c) + Count(w, h, k, r + 1, c) + Count(w, h, k, r, c - 1) + Count(w, h, k, r, c + 1)
  }

  /** And on the diagonals. */
  function DiagonalSum(img: seq<nat>, w: nat, h: nat, k: Colour, r: int, c: int): nat
    requires |img| == RowAt(w, h)
  {
    Value(img, w, h, k, r - 1, c - 1) + Value(img, w, h, k, r - 1, c + 1) + Value(img, w, h, k, r + 1, c - 1)
      + Value(img, w, h, k, r + 1, c + 1)
  }

  function DiagonalCount(w: nat, h: nat, k: Colour, r: int, c: int): nat
  {
    Count(w, h, k, r - 1, c - 1) + Count(w, h, k, r - 1, c + 1) + Count(w, h, k, r + 1, c - 1)
      + Count(w, h, k, r + 1, c + 1)
  }

  function Average(sum: nat, n: nat): nat
  {
    if n == 0 then 0 else sum / n
  }

  /** The truncated average of the nearest samples of the colour that exist. */
  function Channel(img: seq<nat>, w: nat, h: nat, k: Colour, r: int, c: int): nat
    requires |img| == RowAt(w, h)
  {
    if Has(w, h, k, r, c) then Value(img, w, h, k, r, c)
    else if BesideCount(w, h, k, r, c) > 0 then Average(BesideSum(img, w, h, k, r, c), BesideCount(w, h, k, r, c))
    else Average(DiagonalSum(img, w, h, k, r, c), DiagonalCount(w, h, k, r, c))
  }

  function Rgb(t: Gains, red: nat, green: nat, blue: nat): bv16
    requires Tables(t) && red < 1024 && green < 1024 && blue < 1024
  {
    t.red[red / 4] | t.green[green / 4] | t.blue[blue / 4]
  }

  // ------------------------------------------------------------ what the average is

  lemma DivBelow(a: nat, n: nat, m: nat)
    requires 0 < n <= 4 && a <= n * m
    ensures a / n <= m
  {
    if n == 1 {} else if n == 2 {} else if n == 3 {} else {}
  }

  lemma ValueBelow(img: seq<nat>, w: nat, h: nat, k: Colour, r: int, c: int)
    requires Image(img, w, h)
    ensures Value(img, w, h, k, r, c) <= 1023 * Count(w, h, k, r, c)
  {
    if Has(w, h, k, r, c) {
      Inside(w, h, r, c);
    }
  }

  lemma BesideBelow(img: seq<nat>, w: nat, h: nat, k: Colour, r: int, c: int)
    requires Image(img, w, h)
    ensures BesideSum(img, w, h, k, r, c) <= 1023 * BesideCount(w, h, k, r, c)
  {
    ValueBelow(img, w, h, k, r - 1, c);
    ValueBelow(img, w, h, k, r + 1, c);
    ValueBelow(img, w, h, k, r, c - 1);
    ValueBelow(img, w, h, k, r, c + 1);
  }

  lemma DiagonalBelow(img: seq<nat>, w: nat, h: nat, k: Colour, r: int, c: int)
    requires Image(img, w, h)
    ensures DiagonalSum(img, w, h, k, r, c) <= 1023 * DiagonalCount(w, h, k, r, c)
  {
    ValueBelow(img, w, h, k, r - 1, c - 1);
    ValueBelow(img, w, h, k, r - 1, c + 1);
    ValueBelow(img, w, h, k, r + 1, c - 1);
    ValueBelow(img, w, h, k, r + 1, c + 1);
  }

  lemma ChannelBelow(img: seq<nat>, w: nat, h: nat, k: Colour, r: int, c: int)
    requires Image(img, w, h)
    ensures Channel(img, w, h, k, r, c) < 1024
  {
    var n, m := BesideCount(w, h, k, r, c), DiagonalCount(w, h, k, r, c);
    ValueBelow(img, w, h, k, r, c);
    BesideBelow(img, w, h, k, r, c);
    DiagonalBelow(img, w, h, k, r, c);
    if n > 0 {
      DivBelow(BesideSum(img, w, h, k, r, c), n, 1023);
    }
    if m > 0 {
      DivBelow(DiagonalSum(img, w, h, k, r, c), m, 1023);
    }
  }

  /** Every pixel has a sample of each colour among itself and its eight neighbours. */
  lemma AlwaysOne(w: nat, h: nat, k: Colour, r: nat, c: nat)
    requires w >= 2 && h >= 2 && r < h && c < w
    ensures Has(w, h, k, r, c) || BesideCount(w, h, k, r, c) > 0 || DiagonalCount(w, h, k, r, c) > 0
  {
  }

  /** The scene has the same value v wherever it has colour k. */
  ghost predicate Flat(img: seq<nat>, w: nat, h: nat, k: Colour, v: nat)
    requires |img| == RowAt(w, h)
  {
    forall r, c :: Has(w, h, k, r, c) ==> Value(img, w, h, k, r, c) == v
  }

  /** An evenly coloured scene comes out as it is. */
  lemma EvenScene(img: seq<nat>, w: nat, h: nat, k: Colour, v: nat, r: nat, c: nat)
    requires Image(img, w, h) && r < h && c < w && Flat(img, w, h, k, v)
    ensures Channel(img, w, h, k, r, c) == v
  {
    AlwaysOne(w, h, k, r, c);
    FlatBeside(img, w, h, k, v, r, c);
    FlatDiagonal(img, w, h, k, v, r, c);
    var n, m := BesideCount(w, h, k, r, c), DiagonalCount(w, h, k, r, c);
    if n > 0 {
      DivExact(v, n);
    }
    if m > 0 {
      DivExact(v, m);
    }
  }

  lemma FlatBeside(img: seq<nat>, w: nat, h: nat, k: Colour, v: nat, r: nat, c: nat)
    requires Image(img, w, h) && Flat(img, w, h, k, v)
    ensures BesideSum(img, w, h, k, r, c) == v * BesideCount(w, h, k, r, c)
  {
    Distribute(v, Count(w, h, k, r - 1, c), Count(w, h, k, r + 1, c), Count(w, h, k, r, c - 1),
               Count(w, h, k, r, c + 1));
  }

  lemma FlatDiagonal(img: seq<nat>, w: nat, h: nat, k: Colour, v: nat, r: nat, c: nat)
    requires Image(img, w, h) && Flat(img, w, h, k, v)
    ensures DiagonalSum(img, w, h, k, r, c) == v * DiagonalCount(w, h, k, r, c)
  {
    Distribute(v, Count(w, h, k, r - 1, c - 1), Count(w, h, k, r - 1, c + 1), Count(w, h, k, r + 1, c - 1),
               Count(w, h, k, r + 1, c + 1));
  }

  lemma Distribute(v: nat, a: nat, b: nat, c: nat, d: nat)
    requires a <= 1 && b <= 1 && c <= 1 && d <= 1
    ensures v * (a + b + c + d)
      == (if a == 1 then v else 0) + (if b == 1 then v else 0) + (if c == 1 then v else 0) + (if d == 1 then v else 0)
  {
    assert v * (a + b + c + d) == v * a + v * b + v * c + v * d;
  }

  lemma DivExact(a: nat, n: nat)
    requires 0 < n <= 4
    ensures a * n / n == a
  {
    if n == 1 {} else if n == 2 {} else if n == 3 {} else {}
  }

  // ------------------------------------------------------------ the walk

  /** What the pointer reads, where it may read. */
  function Read(img: seq<nat>, i: int): nat
  {
    if 0 <= i < |img| then img[i] else 0
  }

  lemma ReadSite(img: seq<nat>, w: nat, h: nat, k: Colour, r: int, c: int, i: int)
    requires |img| == RowAt(w, h) && (0 <= r ==> i == RowAt(w, r) + c)
    ensures Value(img, w, h, k, r, c) == if Has(w, h, k, r, c) then Read(img, i) else 0
  {
    if Has(w, h, k, r, c) {
      Inside(w, h, r, c);
    }
  }

  lemma ReadAbove(img: seq<nat>, w: nat, h: nat, k: Colour, r: nat, c: int, p: int)
    requires |img| == RowAt(w, h) && p == RowAt(w, r) + c
    ensures Value(img, w, h, k, r - 1, c) == if Has(w, h, k, r - 1, c) then Read(img, p - w) else 0
  {
    if r > 0 {
      ReadSite(img, w, h, k, r - 1, c, p - w);
    }
  }

  lemma ReadBelow(img: seq<nat>, w: nat, h: nat, k: Colour, r: nat, c: int, p: int)
    requires |img| == RowAt(w, h) && p == RowAt(w, r) + c
    ensures Value(img, w, h, k, r + 1, c) == if Has(w, h, k, r + 1, c) then Read(img, p + w) else 0
  {
    ReadSite(img, w, h, k, r + 1, c, p + w);
  }

  /** The neighbours of the site under the pointer, by their distance from it. */
  lemma AroundBeside(img: seq<nat>, w: nat, h: nat, k: Colour, r: nat, c: int, p: int)
    requires |img| == RowAt(w, h) && p == RowAt(w, r) + c
    ensures BesideSum(img, w, h, k, r, c)
         == (if Has(w, h, k, r - 1, c) then Read(img, p - w) else 0)
          + (if Has(w, h, k, r + 1, c) then Read(img, p + w) else 0)
          + (if Has(w, h, k, r, c - 1) then Read(img, p - 1) else 0)
          + (if Has(w, h, k, r, c + 1) then Read(img, p + 1) else 0)
  {
    ReadAbove(img, w, h, k, r, c, p);
    ReadBelow(img, w, h, k, r, c, p);
    ReadSite(img, w, h, k, r, c - 1, p - 1);
    ReadSite(img, w, h, k, r, c + 1, p + 1);
  }

  lemma AboveDiagonal(img: seq<nat>, w: nat, h: nat, k: Colour, r: nat, c: int, p: int)
    requires |img| == RowAt(w, h) && p == RowAt(w, r) + c
    ensures Value(img, w, h, k, r - 1, c - 1) == if Has(w, h, k, r - 1, c - 1) then Read(img, p - w - 1) else 0
    ensures Value(img, w, h, k, r - 1, c + 1) == if Has(w, h, k, r - 1, c + 1) then Read(img, p - w + 1) else 0
  {
    ReadAbove(img, w, h, k, r, c - 1, p - 1);
    ReadAbove(img, w, h, k, r, c + 1, p + 1);
  }

  lemma BelowDiagonal(img: seq<nat>, w: nat, h: nat, k: Colour, r: nat, c: int, p: int)
    requires |img| == RowAt(w, h) && p == RowAt(w, r) + c
    ensures Value(img, w, h, k, r + 1, c - 1) == if Has(w, h, k, r + 1, c - 1) then Read(img, p + w - 1) else 0
    ensures Value(img, w, h, k, r + 1, c + 1) == if Has(w, h, k, r + 1, c + 1) then Read(img, p + w + 1) else 0
  {
    ReadBelow(img, w, h, k, r, c - 1, p - 1);
    ReadBelow(img, w, h, k, r, c + 1, p + 1);
  }

  lemma AroundDiagonal(img: seq<nat>, w: nat, h: nat, k: Colour, r: nat, c: int, p: int)
    requires |img| == RowAt(w, h) && p == RowAt(w, r) + c
    ensures DiagonalSum(img, w, h, k, r, c)
         == (if Has(w, h, k, r - 1, c - 1) then Read(img, p - w - 1) else 0)
          + (if Has(w, h, k, r - 1, c + 1) then Read(img, p - w + 1) else 0)
          + (if Has(w, h, k, r + 1, c - 1) then Read(img, p + w - 1) else 0)
          + (if Has(w, h, k, r + 1, c + 1) then Read(img, p + w + 1) else 0)
  {
    AboveDiagonal(img, w, h, k, r, c, p);
    BelowDiagonal(img, w, h, k, r, c, p);
  }

  // ------------------------------------------------------------ the two kinds of site

  /** The other colour in a row, and in a column, of a green site. */
  function InRow(r: int): Colour
  {
    if r % 2 == 0 then Red else Blue
  }

  function InColumn(r: int): Colour
  {
    if r % 2 == 0 then Blue else Red
  }

  lemma GreenNeighbours(r: int, c: int)
    requires ColourAt(r, c) == Green
    ensures ColourAt(r - 1, c) == ColourAt(r + 1, c) == InColumn(r)
    ensures ColourAt(r, c - 1) == ColourAt(r, c + 1) == InRow(r)
  {
  }

  lemma OtherNeighbours(r: int, c: int)
    requires ColourAt(r, c) != Green
    ensures ColourAt(r, c) == InRow(r)
    ensures ColourAt(r - 1, c) == ColourAt(r + 1, c) == ColourAt(r, c - 1) == ColourAt(r, c + 1) == Green
    ensures ColourAt(r - 1, c - 1) == ColourAt(r - 1, c + 1) == ColourAt(r + 1, c - 1) == ColourAt(r + 1, c + 1)
      == InColumn(r)
  {
  }

  lemma OwnColour(img: seq<nat>, w: nat, h: nat, r: nat, c: nat, p: int)
    requires |img| == RowAt(w, h) && p == RowAt(w, r) + c && r < h && c < w
    ensures Channel(img, w, h, ColourAt(r, c), r, c) == Read(img, p)
  {
    ReadSite(img, w, h, ColourAt(r, c), r, c, p);
  }

  lemma RowColour(img: seq<nat>, w: nat, h: nat, r: nat, c: nat, p: int)
    requires |img| == RowAt(w, h) && p == RowAt(w, r) + c && r < h && c < w && w >= 2 && ColourAt(r, c) == Green
    ensures Channel(img, w, h, InRow(r), r, c)
         == if c == 0 then Read(img, p + 1) else if c == w - 1 then Read(img, p - 1)
           else (Read(img, p - 1) + Read(img, p + 1)) / 2
  {
    var k := InRow(r);
    AroundBeside(img, w, h, k, r, c, p);
    GreenNeighbours(r, c);
    assert !Has(w, h, k, r, c) && !Has(w, h, k, r - 1, c) && !Has(w, h, k, r + 1, c);
  }

  lemma ColumnColour(img: seq<nat>, w: nat, h: nat, r: nat, c: nat, p: int)
    requires |img| == RowAt(w, h) && p == RowAt(w, r) + c && r < h && c < w && h >= 2 && ColourAt(r, c) == Green
    ensures Channel(img, w, h, InColumn(r), r, c)
         == if r == 0 then Read(img, p + w) else if r == h - 1 then Read(img, p - w)
           else (Read(img, p - w) + Read(img, p + w)) / 2
  {
    var k := InColumn(r);
    AroundBeside(img, w, h, k, r, c, p);
    GreenNeighbours(r, c);
    assert !Has(w, h, k, r, c) && !Has(w, h, k, r, c - 1) && !Has(w, h, k, r, c + 1);
  }

  /** As Average, by cases. */
  function Share(sum: nat, n: nat): nat
  {
    if n == 1 then sum else if n == 2 then sum / 2 else if n == 3 then sum / 3 else sum / 4
  }

  lemma ShareIs(sum: nat, n: nat)
    requires 1 <= n <= 4
    ensures Share(sum, n) == Average(sum, n)
  {
  }

  /** The reads of a green value where there is none: those that exist of four. */
  function Beside(img: seq<nat>, w: nat, h: nat, r: nat, c: nat, p: int): nat
  {
    Share((if r > 0 then Read(img, p - w) else 0) + (if r < h - 1 then Read(img, p + w) else 0)
          + (if c > 0 then Read(img, p - 1) else 0) + (if c < w - 1 then Read(img, p + 1) else 0),
            (if r > 0 then 1 else 0) + (if r < h - 1 then 1 else 0) + (if c > 0 then 1 else 0)
              + (if c < w - 1 then 1 else 0))
  }

  function Corners(img: seq<nat>, w: nat, h: nat, r: nat, c: nat, p: int): nat
  {
    Share((if r > 0 && c > 0 then Read(img, p - w - 1) else 0)
          + (if r > 0 && c < w - 1 then Read(img, p - w + 1) else 0)
          + (if r < h - 1 && c > 0 then Read(img, p + w - 1) else 0)
            + (if r < h - 1 && c < w - 1 then Read(img, p + w + 1) else 0),
            (if r > 0 && c > 0 then 1 else 0) + (if r > 0 && c < w - 1 then 1 else 0)
          + (if r < h - 1 && c > 0 then 1 else 0) + (if r < h - 1 && c < w - 1 then 1 else 0))
  }

  lemma GreenBeside(img: seq<nat>, w: nat, h: nat, r: nat, c: nat, p: int)
    requires |img| == RowAt(w, h) && p == RowAt(w, r) + c && r < h && c < w && w >= 2 && h >= 2
      && ColourAt(r, c) != Green
    ensures Channel(img, w, h, Green, r, c) == Beside(img, w, h, r, c, p)
  {
    AroundBeside(img, w, h, Green, r, c, p);
    OtherNeighbours(r, c);
    assert !Has(w, h, Green, r, c);
    ShareIs(BesideSum(img, w, h, Green, r, c), BesideCount(w, h, Green, r, c));
  }

  lemma CornerColour(img: seq<nat>, w: nat, h: nat, r: nat, c: nat, p: int)
    requires |img| == RowAt(w, h) && p == RowAt(w, r) + c && r < h && c < w && w >= 2 && h >= 2
      && ColourAt(r, c) != Green
    ensures Channel(img, w, h, InColumn(r), r, c) == Corners(img, w, h, r, c, p)
  {
    var k := InColumn(r);
    AroundDiagonal(img, w, h, k, r, c, p);
    OtherNeighbours(r, c);
    assert !Has(w, h, k, r, c) && BesideCount(w, h, k, r, c) == 0;
    ShareIs(DiagonalSum(img, w, h, k, r, c), DiagonalCount(w, h, k, r, c));
  }

  /** Both sites together. */
  lemma GreenPixel(img: seq<nat>, w: nat, h: nat, r: nat, c: nat, p: int)
    requires Image(img, w, h) && p == RowAt(w, r) + c && r < h && c < w && ColourAt(r, c) == Green
    ensures Channel(img, w, h, Green, r, c) == Read(img, p)
    ensures Channel(img, w, h, InRow(r), r, c)
         == if c == 0 then Read(img, p + 1) else if c == w - 1 then Read(img, p - 1)
           else (Read(img, p - 1) + Read(img, p + 1)) / 2
    ensures Channel(img, w, h, InColumn(r), r, c)
         == if r == 0 then Read(img, p + w) else if r == h - 1 then Read(img, p - w)
           else (Read(img, p - w) + Read(img, p + w)) / 2
  {
    OwnColour(img, w, h, r, c, p);
    RowColour(img, w, h, r, c, p);
    ColumnColour(img, w, h, r, c, p);
  }

  lemma OtherPixel(img: seq<nat>, w: nat, h: nat, r: nat, c: nat, p: int)
    requires Image(img, w, h) && p == RowAt(w, r) + c && r < h && c < w && ColourAt(r, c) != Green
    ensures Channel(img, w, h, InRow(r), r, c) == Read(img, p)
    ensures Channel(img, w, h, Green, r, c) == Beside(img, w, h, r, c, p)
    ensures Channel(img, w, h, InColumn(r), r, c) == Corners(img, w, h, r, c, p)
  {
    OwnColour(img, w, h, r, c, p);
    GreenBeside(img, w, h, r, c, p);
    CornerColour(img, w, h, r, c, p);
  }

  // ------------------------------------------------------------ the loops

  ghost function Pixel(t: Gains, img: seq<nat>, w: nat, h: nat, r: int, c: int): bv16
    requires Tables(t) && Image(img, w, h)
  {
    ChannelBelow(img, w, h, Red, r, c);
    ChannelBelow(img, w, h, Green, r, c);
    ChannelBelow(img, w, h, Blue, r, c);
    Rgb(t, Channel(img, w, h, Red, r, c), Channel(img, w, h, Green, r, c), Channel(img, w, h, Blue, r, c))
  }

  /** The pixels, row after row. */
  ghost function Wanted(t: Gains, img: seq<nat>, w: nat, h: nat): seq<bv16>
    requires Tables(t) && Image(img, w, h)
  {
    seq(|img|, k requires 0 <= k < |img| => Pixel(t, img, w, h, k / w, k % w))
  }

  /** Every pixel is what it should be. */
  ghost predicate Demosaiced(out: seq<bv16>, t: Gains, img: seq<nat>, w: nat, h: nat)
    requires Tables(t) && Image(img, w, h)
  {
    |out| == |img| && forall r: nat, c: nat :: r < h && c < w ==> Right(out, t, img, w, h, r, c)
  }

  ghost predicate Right(out: seq<bv16>, t: Gains, img: seq<nat>, w: nat, h: nat, r: nat, c: nat)
    requires Tables(t) && Image(img, w, h)
  {
    RowAt(w, r) + c < |out| && out[RowAt(w, r) + c] == Pixel(t, img, w, h, r, c)
  }

  lemma WantedAt(t: Gains, img: seq<nat>, w: nat, h: nat, r: nat, c: nat)
    requires Tables(t) && Image(img, w, h) && r < h && c < w
    ensures Right(Wanted(t, img, w, h), t, img, w, h, r, c)
  {
    var k := RowAt(w, r) + c;
    Inside(w, h, r, c);
    assert k / w == r && k % w == c by {
      RowAtIs(w, r);
      DivModUnique(k, w, r, c);
    }
  }

  lemma WantedIsDemosaiced(t: Gains, img: seq<nat>, w: nat, h: nat)
    requires Tables(t) && Image(img, w, h)
    ensures Demosaiced(Wanted(t, img, w, h), t, img, w, h)
  {
    forall r: nat, c: nat | r < h && c < w
      ensures Right(Wanted(t, img, w, h), t, img, w, h, r, c)
    {
      WantedAt(t, img, w, h, r, c);
    }
  }

  lemma RowBounds(w: nat, h: nat, r: nat)
    requires r < h
    ensures RowAt(w, r) + w <= RowAt(w, h) && (r > 0 ==> w <= RowAt(w, r))
      && (r < h - 1 ==> RowAt(w, r) + 2 * w <= RowAt(w, h))
  {
    RowMono(w, r, h);
    if r < h - 1 {
      RowMono(w, r + 1, h);
    }
    if r > 0 {
      RowMono(w, 0, r);
    }
  }

  /** The three values are read off the sites that exist around the pointer. */
  ghost predicate Reads(img: seq<nat>, w: nat, h: nat, r: nat, c: nat, p: int, red: nat, green: nat, blue: nat)
  {
    var inRow, inColumn := if r % 2 == 0 then red else blue, if r % 2 == 0 then blue else red;
    if (r + c) % 2 == 0 then
      && green == Read(img, p)
      && inRow == (if c == 0 then Read(img, p + 1) else if c == w - 1 then Read(img, p - 1)
                   else (Read(img, p - 1) + Read(img, p + 1)) / 2)
      && inColumn == (if r == 0 then Read(img, p + w) else if r == h - 1 then Read(img, p - w)
                      else (Read(img, p - w) + Read(img, p + w)) / 2)
    else
      inRow == Read(img, p) && green == Beside(img, w, h, r, c, p) && inColumn == Corners(img, w, h, r, c, p)
  }

  lemma ReadsAreChannels(img: seq<nat>, w: nat, h: nat, r: nat, c: nat, p: int, red: nat, green: nat, blue: nat)
    requires Image(img, w, h) && p == RowAt(w, r) + c && r < h && c < w && Reads(img, w, h, r, c, p, red, green, blue)
    ensures red == Channel(img, w, h, Red, r, c) && green == Channel(img, w, h, Green, r, c)
      && blue == Channel(img, w, h, Blue, r, c)
  {
    if ColourAt(r, c) == Green {
      GreenPixel(img, w, h, r, c, p);
    } else {
      OtherPixel(img, w, h, r, c, p);
    }
  }

  lemma ReadsArePixel(t: Gains, img: seq<nat>, w: nat, h: nat, r: nat, c: nat, p: int, red: nat, green: nat, blue: nat)
    requires Tables(t) && Image(img, w, h) && p == RowAt(w, r) + c && r < h && c < w
    requires Reads(img, w, h, r, c, p, red, green, blue)
    ensures red < 1024 && green < 1024 && blue < 1024 && Pixel(t, img, w, h, r, c) == Rgb(t, red, green, blue)
  {
    ReadsAreChannels(img, w, h, r, c, p, red, green, blue);
    ChannelBelow(img, w, h, Red, r, c);
    ChannelBelow(img, w, h, Green, r, c);
    ChannelBelow(img, w, h, Blue, r, c);
  }

  /** One call: the image, its destination, and the pointers, which stay at the same offset. */
  class Walk {
    const source: seq<nat>
    const dest: array<bv16>
    const width: int
    const height: int
    const t: Gains
    var p: int

    /** The site under the pointer; at the end of a row, c is the width. */
    ghost var r: nat
    ghost var c: nat

    /** What dest is to become. */
    ghost const want: seq<bv16>

    ghost predicate Setting()
    {
      width >= 2 && height >= 2 && Tables(t) && Image(source, width, height)
        && dest.Length == |want| == RowAt(width, height) && Demosaiced(want, t, source, width, height)
    }

    ghost predicate Valid()
      reads this, dest
    {
      Setting() && r < height && c <= width && p == RowAt(width, r) + c && p <= |want| && dest[..p] == want[..p]
    }

    /** The row is neither the first nor the last. */
    ghost predicate InnerRow(parity: nat)
      reads this
    {
      0 < r < height - 1 && r % 2 == parity
    }

    constructor (source: seq<nat>, dest: array<bv16>, width: nat, height: nat, t: Gains)
      requires Tables(t) && Image(source, width, height) && dest.Length == RowAt(width, height)
      ensures Valid() && r == 0 && c == 0
      ensures this.dest == dest && Demosaiced(want, t, source, width, height)
    {
      this.source, this.dest, this.width, this.height, this.t := source, dest, width, height, t;
      p, r, c := 0, 0, 0;
      want := Wanted(t, source, width, height);
      WantedIsDemosaiced(t, source, width, height);
    }

    /** s[d] */
    function At(d: int): nat
      requires 0 <= p + d < |source|
      reads this`p
    {
      source[p + d]
    }

    /** Writes the pixel under the pointers, and moves them. */
    method Pack16(red: nat, green: nat, blue: nat)
      requires Valid() && c < width && Reads(source, width, height, r, c, p, red, green, blue)
      modifies this, dest
      ensures Valid() && r == old(r) && c == old(c) + 1
    {
      ReadsArePixel(t, source, width, height, r, c, p, red, green, blue);
      Inside(width, height, r, c);
      assert Right(want, t, source, width, height, r, c);
      Write(t.red[red / 4] | t.green[green / 4] | t.blue[blue / 4]);
      p, c := p + 1, c + 1;
    }

    /** *d = v */
    method Write(v: bv16)
      requires 0 <= p < dest.Length == |want| && dest[..p] == want[..p] && v == want[p]
      modifies dest
      ensures dest[..p + 1] == want[..p + 1]
    {
      dest[p] := v;
      assert dest[..p + 1] == want[..p] + [want[p]] == want[..p + 1];
    }

    /** The pointers are at the next row already. */
    ghost method EndRow()
      requires Valid() && c == width && r < height - 1
      modifies this`r, this`c
      ensures Valid() && r == old(r) + 1 && c == 0
    {
      r, c := r + 1, 0;
    }

    method TopLeft()
      requires Valid() && r == 0 && c == 0
      modifies this, dest
      ensures Valid() && r == old(r) && c == old(c) + 1
    {
      RowBounds(width, height, r);
      Pack16(At(1), At(0), At(width));
    }

    method TopOdd()
      requires Valid() && r == 0 && 0 < c < width - 1 && c % 2 == 1
      modifies this, dest
      ensures Valid() && r == old(r) && c == old(c) + 1
    {
      RowBounds(width, height, r);
      Pack16(At(0), (At(-1) + At(width) + At(1)) / 3, (At(width - 1) + At(width + 1)) / 2);
    }

    method TopEven()
      requires Valid() && r == 0 && 0 < c < width - 1 && c % 2 == 0
      modifies this, dest
      ensures Valid() && r == old(r) && c == old(c) + 1
    {
      RowBounds(width, height, r);
      Pack16((At(-1) + At(1)) / 2, At(0), At(width));
    }

    method TopRight()
      requires Valid() && r == 0 && c == width - 1
      modifies this, dest
      ensures Valid() && r == old(r) && c == old(c) + 1
    {
      RowBounds(width, height, r);
      Pack16(At(0), (At(-1) + At(width)) / 2, At(-1 + width));
    }

    method BlueLeft()
      requires Valid() && InnerRow(1) && c == 0
      modifies this, dest
      ensures Valid() && r == old(r) && c == old(c) + 1
    {
      RowBounds(width, height, r);
      Pack16((At(1 - width) + At(1 + width)) / 2, (At(-width) + At(1) + At(width)) / 3, At(0));
    }

    method BlueOdd()
      requires Valid() && InnerRow(1) && 0 < c < width - 1 && c % 2 == 1
      modifies this, dest
      ensures Valid() && r == old(r) && c == old(c) + 1
    {
      RowBounds(width, height, r);
      Pack16((At(-width) + At(width)) / 2, At(0), (At(1) + At(-1)) / 2);
    }

    method BlueEven()
      requires Valid() && InnerRow(1) && 0 < c < width - 1 && c % 2 == 0
      modifies this, dest
      ensures Valid() && r == old(r) && c == old(c) + 1
    {
      RowBounds(width, height, r);
      Pack16((At(1 - width) + At(1 + width) + At(-1 - width) + At(-1 + width)) / 4,
             (At(width) + At(-width) + At(1) + At(-1)) / 4, At(0));
    }

    method BlueRight()
      requires Valid() && InnerRow(1) && c == width - 1
      modifies this, dest
      ensures Valid() && r == old(r) && c == old(c) + 1
    {
      RowBounds(width, height, r);
      Pack16((At(width) + At(-width)) / 2, At(0), At(-1));
    }

    method GreenLeft()
      requires Valid() && InnerRow(0) && c == 0
      modifies this, dest
      ensures Valid() && r == old(r) && c == old(c) + 1
    {
      RowBounds(width, height, r);
      Pack16(At(1), At(0), (At(-width) + At(width)) / 2);
    }

    method GreenOdd()
      requires Valid() && InnerRow(0) && 0 < c < width - 1 && c % 2 == 1
      modifies this, dest
      ensures Valid() && r == old(r) && c == old(c) + 1
    {
      RowBounds(width, height, r);
      Pack16(At(0), (At(width) + At(-width) + At(1) + At(-1)) / 4,
             (At(1 - width) + At(1 + width) + At(-1 - width) + At(-1 + width)) / 4);
    }

    method GreenEven()
      requires Valid() && InnerRow(0) && 0 < c < width - 1 && c % 2 == 0
      modifies this, dest
      ensures Valid() && r == old(r) && c == old(c) + 1
    {
      RowBounds(width, height, r);
      Pack16((At(-1) + At(1)) / 2, At(0), (At(width) + At(-width)) / 2);
    }

    method GreenRight()
      requires Valid() && InnerRow(0) && c == width - 1
      modifies this, dest
      ensures Valid() && r == old(r) && c == old(c) + 1
    {
      RowBounds(width, height, r);
      Pack16(At(0), (At(width) + At(-width) + At(-1)) / 3, (At(-1 - width) + At(-1 + width)) / 2);
    }

    method BottomLeft()
      requires Valid() && r == height - 1 && c == 0
      modifies this, dest
      ensures Valid() && r == old(r) && c == old(c) + 1
    {
      RowBounds(width, height, r);
      Pack16(At(-width + 1), (At(-width) + At(1)) / 2, At(0));
    }

    method BottomOdd()
      requires Valid() && r == height - 1 && 0 < c < width - 1 && c % 2 == 1
      modifies this, dest
      ensures Valid() && r == old(r) && c == old(c) + 1
    {
      RowBounds(width, height, r);
      Pack16(At(-width), At(0), (At(-1) + At(1)) / 2);
    }

    method BottomEven()
      requires Valid() && r == height - 1 && 0 < c < width - 1 && c % 2 == 0
      modifies this, dest
      ensures Valid() && r == old(r) && c == old(c) + 1
    {
      RowBounds(width, height, r);
      Pack16((At(-width - 1) + At(-width + 1)) / 2, (At(-1) + At(1) + At(-width)) / 3, At(0));
    }

    method BottomRight()
      requires Valid() && r == height - 1 && c == width - 1
      modifies this, dest
      ensures Valid() && r == old(r) && c == old(c) + 1
    {
      RowBounds(width, height, r);
      Pack16(At(-width), At(0), At(-1));
    }

    /** The first row starts with green. */
    method TopRow()
      requires Valid() && r == 0 && c == 0
      modifies this, dest
      ensures Valid() && r == old(r) && c == width
    {
      TopLeft();
      var i := 1;
      while i < width - 1
        invariant 1 <= i <= width - 1 && i % 2 == 1 && Valid() && r == old(r) && c == i
      {
        TopOdd();
        TopEven();
        i := i + 2;
      }
      TopRight();
    }

    /** An inner row that starts with blue. */
    method BlueRow()
      requires Valid() && InnerRow(1) && c == 0
      modifies this, dest
      ensures Valid() && r == old(r) && c == width
    {
      BlueLeft();
      var i := 1;
      while i < width - 1
        invariant 1 <= i <= width - 1 && i % 2 == 1 && Valid() && r == old(r) && c == i
      {
        BlueOdd();
        BlueEven();
        i := i + 2;
      }
      BlueRight();
    }

    /** An inner row that starts with green. */
    method GreenRow()
      requires Valid() && InnerRow(0) && c == 0
      modifies this, dest
      ensures Valid() && r == old(r) && c == width
    {
      GreenLeft();
      var i := 1;
      while i < width - 1
        invariant 1 <= i <= width - 1 && i % 2 == 1 && Valid() && r == old(r) && c == i
      {
        GreenOdd();
        GreenEven();
        i := i + 2;
      }
      GreenRight();
    }

    /** The last row starts with blue. */
    method BottomRow()
      requires Valid() && r == height - 1 && c == 0
      modifies this, dest
      ensures Valid() && r == old(r) && c == width
    {
      BottomLeft();
      var i := 1;
      while i < width - 1
        invariant 1 <= i <= width - 1 && i % 2 == 1 && Valid() && r == old(r) && c == i
      {
        BottomOdd();
        BottomEven();
        i := i + 2;
      }
      BottomRight();
    }

    /** A row that starts with blue and one that starts with green. */
    method TwoRows()
      requires Valid() && r % 2 == 0 && r + 2 < height - 1 && c == width
      modifies this, dest
      ensures Valid() && r == old(r) + 2 && c == width
    {
      EndRow();
      BlueRow();
      EndRow();
      GreenRow();
    }

    method LastRow()
      requires Valid() && r == height - 2 && c == width
      modifies this, dest
      ensures dest[..] == want
    {
      EndRow();
      BottomRow();
      assert dest[..p] == dest[..] && want[..p] == want;
    }

    /** Top row, pairs of inner rows, bottom row. */
    method AllRows()
      requires Valid() && r == 0 && c == 0
      modifies this, dest
      ensures dest[..] == want
    {
      TopRow();
      var j := 1;
      while j < height - 1
        invariant 1 <= j <= height - 1 && j % 2 == 1 && Valid() && r == j - 1 && c == width
      {
        TwoRows();
        j := j + 2;
      }
      LastRow();
    }
  }

  /** The whole image: each pixel written once, row after row, every read inside the image, and
      each channel the truncated average of the nearest samples of its colour. */
  method GrbgPack16Rgb(source: seq<nat>, dest: array<bv16>, width: nat, height: nat, t: Gains)
    requires Tables(t) && Image(source, width, height) && dest.Length == RowAt(width, height)
    modifies dest
    ensures Demosaiced(dest[..], t, source, width, height)
  {
    var walk := new Walk(source, dest, width, height, t);
    walk.AllRows();
  }

  // ------------------------------------------------------------ in terms of the pointer

  /** A pixel of the result: each channel through its own table, the three words joined. */
  lemma PixelJoins(out: seq<bv16>, t: Gains, img: seq<nat>, w: nat, h: nat, r: nat, c: nat, i: nat)
    requires Tables(t) && Image(img, w, h) && Demosaiced(out, t, img, w, h) && r < h && c < w && i == r * w + c
    ensures Channel(img, w, h, Red, r, c) < 1024 && Channel(img, w, h, Green, r, c) < 1024
            && Channel(img, w, h, Blue, r, c) < 1024
    ensures i < |out|
    ensures out[i] == t.red[Channel(img, w, h, Red, r, c) / 4] | t.green[Channel(img, w, h, Green, r, c) / 4]
                      | t.blue[Channel(img, w, h, Blue, r, c) / 4]
  {
    ChannelBelow(img, w, h, Red, r, c);
    ChannelBelow(img, w, h, Green, r, c);
    ChannelBelow(img, w, h, Blue, r, c);
    RowAtIs(w, r);
    assert Right(out, t, img, w, h, r, c);
  }

  /** What the three channels are at a green site, by its row and column. */
  lemma GreenSite(img: seq<nat>, w: nat, h: nat, r: nat, c: nat, i: nat)
    requires Image(img, w, h) && r < h && c < w && i == r * w + c && (r + c) % 2 == 0
    ensures Fits(|img|, w, h, r, c, i)
    ensures Channel(img, w, h, Green, r, c) == img[i]
    ensures Channel(img, w, h, if r % 2 == 0 then Red else Blue, r, c)
         == if c == 0 then img[i + 1] else if c == w - 1 then img[i - 1] else (img[i - 1] + img[i + 1]) / 2
    ensures Channel(img, w, h, if r % 2 == 0 then Blue else Red, r, c)
         == if r == 0 then img[i + w] else if r == h - 1 then img[i - w] else (img[i - w] + img[i + w]) / 2
  {
    SiteFits(img, w, h, r, c, i);
    GreenPixel(img, w, h, r, c, i);
  }

  /** And at any other site: the share of those that exist of the four beside it, and of the four
      at its corners. */
  lemma OtherSite(img: seq<nat>, w: nat, h: nat, r: nat, c: nat, i: nat)
    requires Image(img, w, h) && r < h && c < w && i == r * w + c && (r + c) % 2 == 1
    ensures Fits(|img|, w, h, r, c, i)
    ensures Channel(img, w, h, if r % 2 == 0 then Red else Blue, r, c) == img[i]
    ensures var (up, down, left, right) := (r > 0, r < h - 1, c > 0, c < w - 1);
            && Channel(img, w, h, Green, r, c)
            == ((if up then img[i - w] else 0) + (if down then img[i + w] else 0)
                + (if left then img[i - 1] else 0) + (if right then img[i + 1] else 0))
               / (One(up) + One(down) + One(left) + One(right))
            && Channel(img, w, h, if r % 2 == 0 then Blue else Red, r, c)
            == ((if up && left then img[i - w - 1] else 0) + (if up && right then img[i - w + 1] else 0)
                + (if down && left then img[i + w - 1] else 0) + (if down && right then img[i + w + 1] else 0))
               / (One(up && left) + One(up && right) + One(down && left) + One(down && right))
  {
    SiteFits(img, w, h, r, c, i);
    OtherPixel(img, w, h, r, c, i);
    BesideShare(img, w, h, r, c, i);
    CornersShare(img, w, h, r, c, i);
  }

  function One(b: bool): nat
  {
    if b then 1 else 0
  }

  /** Index i is in its row, and so are the neighbours that exist in theirs. */
  predicate Fits(n: nat, w: nat, h: nat, r: nat, c: nat, i: nat)
  {
    && c <= i && i - c + w <= n
    && (r > 0 ==> w + c <= i) && (r < h - 1 ==> i - c + 2 * w <= n)
  }

  lemma SiteFits(img: seq<nat>, w: nat, h: nat, r: nat, c: nat, i: nat)
    requires |img| == RowAt(w, h) && r < h && c < w && i == r * w + c
    ensures RowAt(w, r) + c == i && Fits(|img|, w, h, r, c, i)
  {
    RowAtIs(w, r);
    RowBounds(w, h, r);
  }

  lemma BesideShare(img: seq<nat>, w: nat, h: nat, r: nat, c: nat, i: nat)
    requires w >= 2 && h >= 2 && r < h && c < w && Fits(|img|, w, h, r, c, i)
    ensures var (up, down, left, right) := (r > 0, r < h - 1, c > 0, c < w - 1);
            Beside(img, w, h, r, c, i)
            == ((if up then img[i - w] else 0) + (if down then img[i + w] else 0)
                + (if left then img[i - 1] else 0) + (if right then img[i + 1] else 0))
               / (One(up) + One(down) + One(left) + One(right))
  {
  }

  lemma CornersShare(img: seq<nat>, w: nat, h: nat, r: nat, c: nat, i: nat)
    requires w >= 2 && h >= 2 && r < h && c < w && Fits(|img|, w, h, r, c, i)
    ensures var (up, down, left, right) := (r > 0, r < h - 1, c > 0, c < w - 1);
            Corners(img, w, h, r, c, i)
            == ((if up && left then img[i - w - 1] else 0) + (if up && right then img[i - w + 1] else 0)
                + (if down && left then img[i + w - 1] else 0) + (if down && right then img[i + w + 1] else 0))
               / (One(up && left) + One(up && right) + One(down && left) + One(down && right))
  {
  }
}
