// Turning the landscape canvas into the portrait buffer the panel scans out.
// The canvas is `w` wide and `h` high, so the panel buffer is `h` wide and `w` high.
module PanelRotation {
  import opened Arithmetic
  import opened Wrappers
  import opened RenderedImages

  lemma IndexInRange(row: nat, col: nat, width: nat, height: nat)
    requires row < height && col < width
    ensures 0 <= row * width + col < width * height
  {
    MulKeepsOrder(row, height - 1, width);
    assert (height - 1) * width == width * height - width;
  }

  lemma IndexSplits(i: nat, width: nat, height: nat)
    requires i < width * height
    requires width > 0
    ensures i / width < height && i % width < width
    ensures i == (i / width) * width + i % width
  {
    assert i < height * width;
    QuotientBelow(i, width, height);
  }

  lemma IndexJoins(row: nat, col: nat, width: nat)
    requires col < width
    ensures (row * width + col) / width == row && (row * width + col) % width == col
  {
    QuotientIsUnique(row * width + col, width, row, col);
  }

  lemma SidesArePositive(j: nat, w: nat, h: nat)
    requires j < w * h
    ensures w > 0 && h > 0
  {
  }

  /** The panel index that canvas pixel (x, y) is written to. */
  function DestIndex(x: nat, y: nat, h: nat): nat
    requires y < h
  {
    x * h + (h - 1 - y)
  }

  /** Where the canvas pixel shown at panel index `j` comes from. */
  function SourceIndex(j: nat, w: nat, h: nat): (i: nat)
    requires j < w * h
    ensures i < w * h
  {
    SidesArePositive(j, w, h);
    IndexSplits(j, h, w);
    IndexInRange(h - 1 - j % h, j / h, w, h);
    (h - 1 - j % h) * w + j / h
  }

  /** The quarter turn: canvas pixel (x, y) goes to panel column h-1-y, row x. */
  function Rotated<T>(s: seq<T>, w: nat, h: nat): (r: seq<T>)
    requires |s| == w * h
    ensures |r| == |s|
  {
    seq(w * h, j requires 0 <= j < w * h => s[SourceIndex(j, w, h)])
  }

  lemma PixelLandsAt<T>(s: seq<T>, w: nat, h: nat, x: nat, y: nat)
    requires |s| == w * h && x < w && y < h
    ensures y * w + x < w * h && DestIndex(x, y, h) < w * h
    ensures SourceIndex(DestIndex(x, y, h), w, h) == y * w + x
    ensures Rotated(s, w, h)[DestIndex(x, y, h)] == s[y * w + x]
  {
    IndexInRange(y, x, w, h);
    IndexInRange(x, h - 1 - y, h, w);
    IndexJoins(x, h - 1 - y, h);
  }

  lemma DestIndexInverse(x: nat, y: nat, w: nat, h: nat)
    requires x < w && y < h
    ensures DestIndex(x, y, h) / h == x && h - 1 - DestIndex(x, y, h) % h == y
  {
    IndexJoins(x, h - 1 - y, h);
  }

  /** Every panel index is written by exactly one canvas pixel. */
  lemma WrittenExactlyOnce(j: nat, w: nat, h: nat)
    requires j < w * h
    ensures h > 0 && j / h < w && j % h < h
    ensures DestIndex(j / h, h - 1 - j % h, h) == j
    ensures forall x: nat, y: nat | x < w && y < h ::
      DestIndex(x, y, h) == j ==> x == j / h && y == h - 1 - j % h
  {
    SidesArePositive(j, w, h);
    IndexSplits(j, h, w);
    forall x: nat, y: nat | x < w && y < h && DestIndex(x, y, h) == j
      ensures x == j / h && y == h - 1 - j % h
    {
      DestIndexInverse(x, y, w, h);
    }
  }

  lemma SourceTwice(j: nat, w: nat, h: nat)
    requires j < w * h
    ensures w * h == h * w
    ensures SourceIndex(SourceIndex(j, h, w), w, h) == w * h - 1 - j
  {
    assert w * h == h * w;
    SidesArePositive(j, w, h);
    IndexSplits(j, w, h);
    var row, col := j / w, j % w;
    // Turning (h wide, w high) puts index j's source at row w-1-col, column row.
    SourceAt(j, row, col, h, w);
    IndexJoins(w - 1 - col, row, h);
    SourceAt((w - 1 - col) * h + row, w - 1 - col, row, w, h);
    FromTheEnd(row, col, w, h);
  }

  lemma SourceAt(j: nat, row: nat, col: nat, w: nat, h: nat)
    requires j < w * h && h > 0 && j / h == row && j % h == col
    ensures SourceIndex(j, w, h) == (h - 1 - col) * w + row
  {
  }

  lemma FromTheEnd(row: nat, col: nat, w: nat, h: nat)
    ensures (h - 1 - row) * w + (w - 1 - col) == w * h - 1 - (row * w + col)
  {
    assert (h - 1 - row) * w == h * w - w - row * w;
  }

  /** Two quarter turns are a half turn: the pixels in reverse. */
  lemma TwoTurnsReverse<T>(s: seq<T>, w: nat, h: nat)
    requires |s| == w * h
    ensures w * h == h * w
    ensures forall j :: 0 <= j < |s| ==> Rotated(Rotated(s, w, h), h, w)[j] == s[|s| - 1 - j]
  {
    assert w * h == h * w;
    forall j | 0 <= j < |s|
      ensures Rotated(Rotated(s, w, h), h, w)[j] == s[|s| - 1 - j]
    {
      SourceTwice(j, w, h);
    }
  }

  /** Four quarter turns give the canvas back. */
  lemma FourTurnsRestore<T>(s: seq<T>, w: nat, h: nat)
    requires |s| == w * h
    ensures w * h == h * w
    ensures Rotated(Rotated(Rotated(Rotated(s, w, h), h, w), w, h), h, w) == s
  {
    TwoTurnsReverse(s, w, h);
    var half := Rotated(Rotated(s, w, h), h, w);
    TwoTurnsReverse(half, w, h);
  }

  /** Nothing is lost by turning: equal panels come from equal canvases. */
  lemma RotationIsInjective<T>(s: seq<T>, t: seq<T>, w: nat, h: nat)
    requires |s| == |t| == w * h
    ensures Rotated(s, w, h) == Rotated(t, w, h) <==> s == t
  {
    FourTurnsRestore(s, w, h);
    FourTurnsRestore(t, w, h);
  }

  /** Index `j` belongs to a canvas row above `rows`, or to that row left of `cols`. */
  predicate Written(j: nat, h: nat, rows: nat, cols: nat)
    requires h > 0
  {
    h - 1 - j % h < rows || (h - 1 - j % h == rows && j / h < cols)
  }

  lemma WrittenGrows(j: nat, w: nat, h: nat, y: nat, x: nat)
    requires j < w * h && h > 0 && y < h && x < w
    ensures Written(j, h, y, x + 1) <==> Written(j, h, y, x) || j == DestIndex(x, y, h)
  {
    WrittenExactlyOnce(j, w, h);
    DestIndexInverse(x, y, w, h);
  }

  lemma RowIsWritten(j: nat, w: nat, h: nat, y: nat)
    requires j < w * h && h > 0
    ensures Written(j, h, y + 1, 0) <==> Written(j, h, y, w)
    ensures Written(j, h, h, 0) && !Written(j, h, 0, 0)
  {
    WrittenExactlyOnce(j, w, h);
  }

  method Rotate90(src: array<Pixel>, dst: array<Pixel>, w: nat, h: nat)
    requires src.Length == dst.Length == w * h && src != dst
    modifies dst
    ensures dst[..] == Rotated(src[..], w, h)
  {
    hide Written, SourceIndex, DestIndex;
    ghost var turned := Rotated(src[..], w, h);
    forall j: nat | j < w * h
      ensures h > 0 && !Written(j, h, 0, 0)
    {
      SidesArePositive(j, w, h);
      RowIsWritten(j, w, h, 0);
    }
    for y := 0 to h
      invariant forall j: nat :: j < w * h && Written(j, h, y, 0) ==> dst[j] == turned[j]
    {
      for x := 0 to w
        invariant forall j: nat :: j < w * h && Written(j, h, y, x) ==> dst[j] == turned[j]
      {
        PixelLandsAt(src[..], w, h, x, y);
        dst[DestIndex(x, y, h)] := src[y * w + x];
        forall j: nat | j < w * h && Written(j, h, y, x + 1)
          ensures dst[j] == turned[j]
        {
          WrittenGrows(j, w, h, y, x);
        }
      }
      forall j: nat | j < w * h && Written(j, h, y + 1, 0)
        ensures Written(j, h, y, w)
      {
        RowIsWritten(j, w, h, y);
      }
    }
    forall j: nat | j < w * h
      ensures dst[j] == turned[j]
    {
      RowIsWritten(j, w, h, 0);
    }
  }

  datatype PanelError = FrameTooSmall | DrawFailed

  class Panel {
    const w: nat
    const h: nat
    const canvas: array<Pixel>
    const rotated: array<Pixel>
    /** What the panel is scanning out. */
    var screen: seq<Pixel>

    ghost predicate Valid()
      reads this
    {
      canvas.Length == rotated.Length == w * h && canvas != rotated
    }

    constructor (w: nat, h: nat)
      ensures Valid() && this.w == w && this.h == h && fresh(canvas) && fresh(rotated)
    {
      this.w, this.h := w, h;
      canvas := new Pixel[w * h](_ => 0);
      rotated := new Pixel[w * h](_ => 0);
      screen := [];
    }

    /** Turn the canvas and hand it to the panel; the transfer itself may fail. */
    method Flush(drawn: bool, damage: seq<Pixel>) returns (r: Result<(), PanelError>)
      requires Valid()
      modifies this`screen, rotated
      ensures Valid() && rotated[..] == Rotated(canvas[..], w, h)
      ensures if drawn then r == Success(()) && screen == Rotated(canvas[..], w, h)
              else r == Failure(DrawFailed) && screen == damage
    {
      Rotate90(canvas, rotated, w, h);
      if drawn {
        screen := rotated[..];
        return Success(());
      }
      screen := damage;
      return Failure(DrawFailed);
    }

    /** Put a photo on the panel. Only its first w*h pixels are used. */
    method Present(pixels: seq<Pixel>, drawn: bool, damage: seq<Pixel>) returns (r: Result<(), PanelError>)
      requires Valid()
      modifies this`screen, canvas, rotated
      ensures Valid()
      ensures |pixels| < w * h ==> r == Failure(FrameTooSmall) && screen == old(screen)
      ensures |pixels| >= w * h ==>
        if drawn then r == Success(()) && screen == Rotated(pixels[..w * h], w, h)
        else r == Failure(DrawFailed) && screen == damage
    {
      if |pixels| < w * h {
        return Failure(FrameTooSmall);
      }
      forall i | 0 <= i < w * h {
        canvas[i] := pixels[i];
      }
      assert canvas[..] == pixels[..w * h];
      r := Flush(drawn, damage);
    }

    /** Draw a setup screen over the whole canvas and flush it. */
    method ShowScreen(art: seq<Pixel>, drawn: bool, damage: seq<Pixel>) returns (r: Result<(), PanelError>)
      requires Valid() && |art| == w * h
      modifies this`screen, canvas, rotated
      ensures Valid()
      ensures if drawn then r == Success(()) && screen == Rotated(art, w, h)
              else r == Failure(DrawFailed) && screen == damage
    {
      forall i | 0 <= i < w * h {
        canvas[i] := art[i];
      }
      assert canvas[..] == art;
      r := Flush(drawn, damage);
    }
  }
}
