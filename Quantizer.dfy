/**
 The grey-to-ASCII quantiser of the editor (`process_image`).

 The pixel buffer is the grey, already resized image: one sample in [0,255]
 per pixel, row-major, `outputWidth * OutputHeight(...)` samples long. The
 luminance reduction and the resampling that produce it are PIL's and are
 not modelled; the quantiser starts from their result.
 */
module Quantizer {

  import opened Arith

  /** The character ramp, lightest to densest. */
  const Ramp: string := " .:-=+*#%@"

  /** An 8-bit grey sample. */
  predicate IsSample(p: int) {
    0 <= p <= 255
  }

  predicate AllSamples(pixels: seq<int>) {
    forall i :: 0 <= i < |pixels| ==> IsSample(pixels[i])
  }

  function Min(a: int, b: int): int {
    if a <= b then a else b
  }

  // ---------------------------------------------------------------------------
  // Output height
  // ---------------------------------------------------------------------------

  /**
   Number of text rows for an `outputWidth`-column rendering of a
   `width` x `height` source: `output_width * (height / width) * 0.5`
   truncated. The model computes it exactly as `outputWidth * height / (2 * width)`;
   the source goes through a float, which can land one below an exact
   integer quotient at boundary cases (the model does not capture that).
   */
  function OutputHeight(outputWidth: nat, width: nat, height: nat): (rows: nat)
    requires width > 0
    ensures 2 * width * rows <= outputWidth * height < 2 * width * (rows + 1)
  {
    outputWidth * height / (2 * width)
  }

  /** The documented example: 100 columns over a 300 x 150 source give 25 rows. */
  lemma OutputHeightExample()
    ensures OutputHeight(100, 300, 150) == 25
  {
  }

  // ---------------------------------------------------------------------------
  // Ramp mapping
  // ---------------------------------------------------------------------------

  /** Index into the ramp for a sample: `p * (len(ramp) - 1) // 255`. */
  function RampIndex(p: int): (i: nat)
    requires IsSample(p)
    ensures i < |Ramp|
    ensures i * 255 <= p * (|Ramp| - 1) < (i + 1) * 255
  {
    p * (|Ramp| - 1) / 255
  }

  /**
   The ramp character of one sample: never a line separator; blank exactly
   for the samples below 255 / 9 (0 to 28), `@` only for white.
   */
  function CharOf(p: int): (c: char)
    requires IsSample(p)
    ensures c in Ramp && c != '\n'
    ensures c == ' ' <==> p * 9 < 255
    ensures c == '@' <==> p == 255
  {
    Ramp[RampIndex(p)]
  }

  /**
   Boundary values of the mapping: black is blank, white is `@`, mid grey 127
   is index 4 (`=`), and 25 truncates to index 0 where rounding would give 1.
   */
  lemma RampBoundaries()
    ensures CharOf(0) == ' '
    ensures CharOf(255) == '@'
    ensures RampIndex(127) == 4 && CharOf(127) == '='
    ensures RampIndex(25) == 0 && CharOf(25) == ' '
    ensures (25 * 9 + 127) / 255 == 1
  {
  }

  /** Darker-or-equal input never maps further up the ramp. */
  lemma RampIndexMonotone(p: int, q: int)
    requires IsSample(p) && IsSample(q) && p <= q
    ensures RampIndex(p) <= RampIndex(q)
  {
  }

  // ---------------------------------------------------------------------------
  // Flat character string
  // ---------------------------------------------------------------------------

  /** The joined generator of line 34: one ramp character per pixel, in order. */
  function Flatten(pixels: seq<int>): (s: string)
    requires AllSamples(pixels)
    ensures |s| == |pixels|
    ensures forall i :: 0 <= i < |s| ==> s[i] == CharOf(pixels[i])
  {
    if |pixels| == 0 then "" else [CharOf(pixels[0])] + Flatten(pixels[1..])
  }

  // ---------------------------------------------------------------------------
  // Line chunking and joining
  // ---------------------------------------------------------------------------

  /**
   The slices `s[i:i + w]` for `i` in `range(0, len(s), w)`: consecutive
   pieces of width `w`, the last one possibly shorter.
   */
  function Chunks(s: string, w: nat): (lines: seq<string>)
    requires w > 0
    ensures |lines| == 0 <==> |s| == 0
    ensures LinesWithin(lines, w)
    decreases |s|
  {
    if |s| == 0 then []
    else
      var k := Min(w, |s|);
      var r := [s[..k]] + Chunks(s[k..], w);
      assert r[1..] == Chunks(s[k..], w);
      r
  }

  /** Every line holds between 1 and `w` characters. */
  predicate LinesWithin(lines: seq<string>, w: nat)
    decreases |lines|
  {
    |lines| == 0 || (0 < |lines[0]| <= w && LinesWithin(lines[1..], w))
  }

  /** `LinesWithin` read line by line. */
  lemma {:induction false} LinesWithinAt(lines: seq<string>, w: nat, i: nat)
    requires LinesWithin(lines, w) && i < |lines|
    ensures 0 < |lines[i]| <= w
    decreases i
  {
    if i > 0 {
      LinesWithinAt(lines[1..], w, i - 1);
    }
  }

  /** Concatenation of a list of lines, without separators. */
  function Concat(lines: seq<string>): string {
    if |lines| == 0 then "" else lines[0] + Concat(lines[1..])
  }

  /** `'\n'.join(lines)`: the lines' characters plus one separator between each two. */
  function Join(lines: seq<string>): (r: string)
    ensures |lines| > 0 ==> |r| == |Concat(lines)| + |lines| - 1
  {
    if |lines| == 0 then ""
    else if |lines| == 1 then lines[0]
    else lines[0] + "\n" + Join(lines[1..])
  }

  /** `s.split('\n')`: the pieces between separators (always at least one). */
  function Split(s: string): (parts: seq<string>)
    ensures |parts| > 0
  {
    if |s| == 0 then [""]
    else
      var rest := Split(s[1..]);
      if s[0] == '\n' then [""] + rest
      else [[s[0]] + rest[0]] + rest[1..]
  }

  /** `s` with every line separator deleted. */
  function RemoveNewlines(s: string): string {
    if |s| == 0 then ""
    else (if s[0] == '\n' then "" else [s[0]]) + RemoveNewlines(s[1..])
  }

  /** Number of line separators in `s`. */
  function NewlineCount(s: string): nat {
    if |s| == 0 then 0
    else (if s[0] == '\n' then 1 else 0) + NewlineCount(s[1..])
  }

  predicate NoNewline(s: string) {
    forall i :: 0 <= i < |s| ==> s[i] != '\n'
  }

  predicate AllNoNewline(lines: seq<string>) {
    forall i :: 0 <= i < |lines| ==> NoNewline(lines[i])
  }

  /** Line `i` of the chunking is the slice starting at `i * w`, at most `w` long. */
  lemma {:induction false} ChunkAt(s: string, w: nat, i: nat)
    requires w > 0 && i < |Chunks(s, w)|
    ensures i * w < |s| && Chunks(s, w)[i] == s[i * w .. Min(i * w + w, |s|)]
    decreases i
  {
    var k := Min(w, |s|);
    var rest := Chunks(s[k..], w);
    assert Chunks(s, w) == [s[..k]] + rest;
    if i == 0 {
      assert 0 * w == 0;
    } else {
      var j := i - 1;
      ChunkAt(s[k..], w, j);
      MulSucc(j, w);
      var a := j * w;
      assert k == w && i * w == a + w;
      var e := Min(a + w, |s| - w);
      SliceOfSlice(s, w, a, e);
      assert e + w == Min(a + w + w, |s|);
    }
  }

  lemma SliceOfSlice(s: string, k: nat, a: nat, e: nat)
    requires k <= |s| && a <= e <= |s| - k
    ensures s[k..][a .. e] == s[a + k .. e + k]
  {
  }

  /** The lines cover the whole string. */
  lemma {:induction false} ChunksCover(s: string, w: nat)
    requires w > 0
    ensures |s| <= |Chunks(s, w)| * w
    decreases |s|
  {
    if |s| > 0 {
      var k := Min(w, |s|);
      var m := |Chunks(s[k..], w)|;
      ChunksCover(s[k..], w);
      assert |Chunks(s, w)| == m + 1;
      MulSucc(m, w);
    }
  }

  /** Rejoining the chunks without separators gives the string back. */
  lemma {:induction false} ConcatChunks(s: string, w: nat)
    requires w > 0
    ensures Concat(Chunks(s, w)) == s
    decreases |s|
  {
    if |s| > 0 {
      var k := Min(w, |s|);
      var lines, rest := Chunks(s, w), Chunks(s[k..], w);
      ConcatChunks(s[k..], w);
      assert lines == [s[..k]] + rest;
      assert lines[0] == s[..k] && lines[1..] == rest;
      assert Concat(lines) == s[..k] + Concat(rest);
      assert s == s[..k] + s[k..];
    }
  }

  /**
   On a string of exactly `h` rows of `w` characters the chunking has `h`
   lines, and line `i` is exactly `s[i*w .. i*w + w]`.
   */
  lemma ChunksExact(s: string, w: nat, h: nat, i: nat)
    requires w > 0 && |s| == h * w && i < h
    ensures |Chunks(s, w)| == h
    ensures i * w + w <= |s| && Chunks(s, w)[i] == s[i * w .. i * w + w]
  {
    ChunksCount(s, w, h);
    ChunkAt(s, w, i);
    MulMono(i + 1, h, w);
    MulSucc(i, w);
  }

  lemma ChunksCount(s: string, w: nat, h: nat)
    requires w > 0 && |s| == h * w
    ensures |Chunks(s, w)| == h
  {
    var n := |Chunks(s, w)|;
    ChunksCover(s, w);
    MulSucc(n, w);
    MulCancel(h, n + 1, w);
    if n > 0 {
      ChunkAt(s, w, n - 1);
      MulCancel(n - 1, h, w);
    }
  }

  /** Slices of a separator-free string are separator-free. */
  lemma ChunksNoNewline(s: string, w: nat)
    requires w > 0 && NoNewline(s)
    ensures AllNoNewline(Chunks(s, w))
  {
    forall i | 0 <= i < |Chunks(s, w)| ensures NoNewline(Chunks(s, w)[i]) {
      ChunkAt(s, w, i);
    }
  }

  lemma {:induction false} SplitPrefix(a: string, t: string)
    requires NoNewline(a)
    ensures Split(a + t) == [a + Split(t)[0]] + Split(t)[1..]
    decreases |a|
  {
    if |a| == 0 {
      assert a + t == t;
      assert a + Split(t)[0] == Split(t)[0];
      assert Split(t) == [Split(t)[0]] + Split(t)[1..];
    } else {
      assert (a + t)[1..] == a[1..] + t;
      SplitPrefix(a[1..], t);
      assert [a[0]] + (a[1..] + Split(t)[0]) == a + Split(t)[0];
    }
  }

  /**
   Splitting the joined lines at the separators gives the lines back, as long
   as no line holds a separator itself.
   */
  lemma {:induction false} SplitJoin(lines: seq<string>)
    requires |lines| > 0 && AllNoNewline(lines)
    ensures Split(Join(lines)) == lines
    decreases |lines|
  {
    if |lines| == 1 {
      SplitPrefix(lines[0], "");
      assert lines[0] + "" == lines[0];
    } else {
      var tail := "\n" + Join(lines[1..]);
      assert Join(lines) == lines[0] + tail;
      SplitPrefix(lines[0], tail);
      assert tail[0] == '\n' && tail[1..] == Join(lines[1..]);
      SplitJoin(lines[1..]);
      assert Split(tail) == [""] + lines[1..];
      assert lines[0] + "" == lines[0];
      assert lines == [lines[0]] + lines[1..];
    }
  }

  lemma {:induction false} RemoveNewlinesAppend(a: string, b: string)
    ensures RemoveNewlines(a + b) == RemoveNewlines(a) + RemoveNewlines(b)
    decreases |a|
  {
    if |a| > 0 {
      assert (a + b)[1..] == a[1..] + b;
      RemoveNewlinesAppend(a[1..], b);
    } else {
      assert a + b == b;
    }
  }

  lemma {:induction false} RemoveNewlinesNoNewline(a: string)
    requires NoNewline(a)
    ensures RemoveNewlines(a) == a
    decreases |a|
  {
    if |a| > 0 {
      RemoveNewlinesNoNewline(a[1..]);
      assert a == [a[0]] + a[1..];
    }
  }

  /** Deleting the separators from joined lines leaves their concatenation. */
  lemma {:induction false} RemoveNewlinesJoin(lines: seq<string>)
    requires AllNoNewline(lines)
    ensures RemoveNewlines(Join(lines)) == Concat(lines)
    decreases |lines|
  {
    if |lines| == 1 {
      RemoveNewlinesNoNewline(lines[0]);
      assert Concat(lines) == lines[0] + "";
    } else if |lines| > 1 {
      assert Join(lines) == lines[0] + ("\n" + Join(lines[1..]));
      assert Concat(lines) == lines[0] + Concat(lines[1..]);
      RemoveNewlinesAppend(lines[0], "\n" + Join(lines[1..]));
      RemoveNewlinesAppend("\n", Join(lines[1..]));
      RemoveNewlinesNoNewline(lines[0]);
      RemoveNewlinesJoin(lines[1..]);
      assert RemoveNewlines("\n") == "";
    }
  }

  lemma {:induction false} NewlineCountAppend(a: string, b: string)
    ensures NewlineCount(a + b) == NewlineCount(a) + NewlineCount(b)
    decreases |a|
  {
    if |a| > 0 {
      assert (a + b)[1..] == a[1..] + b;
      NewlineCountAppend(a[1..], b);
    } else {
      assert a + b == b;
    }
  }

  lemma {:induction false} NewlineCountNoNewline(a: string)
    requires NoNewline(a)
    ensures NewlineCount(a) == 0
    decreases |a|
  {
    if |a| > 0 {
      NewlineCountNoNewline(a[1..]);
    }
  }

  /** `n` separator-free lines joined hold exactly `n - 1` separators. */
  lemma {:induction false} NewlineCountJoin(lines: seq<string>)
    requires |lines| > 0 && AllNoNewline(lines)
    ensures NewlineCount(Join(lines)) == |lines| - 1
    decreases |lines|
  {
    NewlineCountNoNewline(lines[0]);
    if |lines| > 1 {
      assert Join(lines) == lines[0] + ("\n" + Join(lines[1..]));
      NewlineCountAppend(lines[0], "\n" + Join(lines[1..]));
      NewlineCountAppend("\n", Join(lines[1..]));
      NewlineCountJoin(lines[1..]);
      assert NewlineCount("\n") == 1;
    }
  }

  /** The joined text ends with the last line: no trailing separator is added. */
  lemma {:induction false} JoinEndsWithLast(lines: seq<string>)
    requires |lines| > 0
    ensures |lines[|lines| - 1]| <= |Join(lines)|
    ensures Join(lines)[|Join(lines)| - |lines[|lines| - 1]|..] == lines[|lines| - 1]
    decreases |lines|
  {
    if |lines| > 1 {
      JoinEndsWithLast(lines[1..]);
      var head := lines[0] + "\n";
      assert Join(lines) == head + Join(lines[1..]);
    }
  }

  // ---------------------------------------------------------------------------
  // process_image
  // ---------------------------------------------------------------------------

  /**
   Line 35 applied to line 34: quantise, cut into `outputWidth`-wide lines,
   join. Deleting the separators from the result gives back the flat
   one-character-per-pixel string, for any buffer length.
   */
  function AsciiArt(pixels: seq<int>, outputWidth: nat): (art: string)
    requires AllSamples(pixels) && outputWidth > 0
    ensures RemoveNewlines(art) == Flatten(pixels)
  {
    FlattenLinesNoNewline(pixels, outputWidth);
    RemoveNewlinesJoin(Chunks(Flatten(pixels), outputWidth));
    ConcatChunks(Flatten(pixels), outputWidth);
    Join(Chunks(Flatten(pixels), outputWidth))
  }

  /** The flat string has no separator, so neither have its lines. */
  lemma FlattenLinesNoNewline(pixels: seq<int>, outputWidth: nat)
    requires AllSamples(pixels) && outputWidth > 0
    ensures NoNewline(Flatten(pixels))
    ensures AllNoNewline(Chunks(Flatten(pixels), outputWidth))
  {
    var s := Flatten(pixels);
    assert forall i :: 0 <= i < |s| ==> s[i] != '\n';
    ChunksNoNewline(s, outputWidth);
  }

  /** Cell `(i, j)` of the exact-size chunking is the character of pixel `i * w + j`. */
  lemma GridCell(pixels: seq<int>, w: nat, rows: nat, i: nat, j: nat)
    requires AllSamples(pixels) && w > 0 && |pixels| == rows * w
    requires i < rows && j < w
    ensures |Chunks(Flatten(pixels), w)| == rows && |Chunks(Flatten(pixels), w)[i]| == w
    ensures CellMatches(Chunks(Flatten(pixels), w), pixels, w, i, j)
  {
    var flat := Flatten(pixels);
    ChunksExact(flat, w, rows, i);
    var line, k := Chunks(flat, w)[i], i * w + j;
    assert line == flat[i * w .. i * w + w] && |line| == w;
    assert k < |flat| && line[j] == flat[k];
    assert flat[k] == CharOf(pixels[k]);
  }

  /** Character `j` of line `i` is the ramp character of pixel `i * w + j`. */
  predicate CellMatches(lines: seq<string>, pixels: seq<int>, w: nat, i: nat, j: nat)
    requires AllSamples(pixels)
  {
    i < |lines| && j < |lines[i]| && i * w + j < |pixels| &&
    lines[i][j] == CharOf(pixels[i * w + j])
  }

  /** Every cell of a `rows` x `w` grid holds its pixel's character. */
  predicate CellsMatch(lines: seq<string>, pixels: seq<int>, w: nat, rows: nat)
    requires AllSamples(pixels)
  {
    forall i: nat, j: nat :: i < rows && j < w ==> CellMatches(lines, pixels, w, i, j)
  }

  /** Every cell of the exact-size chunking holds its pixel's character. */
  lemma ChunkCells(pixels: seq<int>, w: nat, rows: nat)
    requires AllSamples(pixels) && w > 0 && |pixels| == rows * w
    ensures CellsMatch(Chunks(Flatten(pixels), w), pixels, w, rows)
  {
    forall i: nat, j: nat | i < rows && j < w
      ensures CellMatches(Chunks(Flatten(pixels), w), pixels, w, i, j)
    {
      GridCell(pixels, w, rows, i, j);
    }
  }

  /**
   `art` is a grid of `rows` lines of `w` characters separated by `'\n'`:
   splitting it at the separators gives the lines, character `j` of line `i`
   is the ramp character of pixel `i * w + j`, it holds `rows - 1`
   separators and does not end with one.
   */
  predicate IsGrid(art: string, pixels: seq<int>, w: nat, rows: nat)
    requires AllSamples(pixels)
  {
    && |Split(art)| == rows
    && (forall i :: 0 <= i < rows ==> |Split(art)[i]| == w)
    && CellsMatch(Split(art), pixels, w, rows)
    && NewlineCount(art) == rows - 1
    && |art| > 0 && art[|art| - 1] != '\n'
  }

  /** The art of an exact-size buffer splits back into its `rows` lines of `w` characters. */
  lemma GridLines(pixels: seq<int>, w: nat, rows: nat)
    requires AllSamples(pixels) && w > 0 && rows > 0 && |pixels| == rows * w
    ensures Split(AsciiArt(pixels, w)) == Chunks(Flatten(pixels), w)
    ensures |Chunks(Flatten(pixels), w)| == rows
    ensures forall i :: 0 <= i < rows ==> |Chunks(Flatten(pixels), w)[i]| == w
    ensures AllNoNewline(Chunks(Flatten(pixels), w))
  {
    FlattenLinesNoNewline(pixels, w);
    ChunksCount(Flatten(pixels), w, rows);
    SplitJoin(Chunks(Flatten(pixels), w));
    forall i | 0 <= i < rows ensures |Chunks(Flatten(pixels), w)[i]| == w {
      GridCell(pixels, w, rows, i, 0);
    }
  }

  /** Joined separator-free lines whose last line is not empty do not end with a separator. */
  lemma JoinNoTrailingNewline(lines: seq<string>)
    requires |lines| > 0 && AllNoNewline(lines) && |lines[|lines| - 1]| > 0
    ensures |Join(lines)| > 0 && Join(lines)[|Join(lines)| - 1] != '\n'
  {
    var last := lines[|lines| - 1];
    var n := |Join(lines)|;
    JoinEndsWithLast(lines);
    assert Join(lines)[n - 1] == Join(lines)[n - |last|..][|last| - 1] == last[|last| - 1];
  }

  /** A buffer of exactly `rows * w` pixels, `w` and `rows` positive, renders as a grid. */
  lemma AsciiArtGrid(pixels: seq<int>, w: nat, rows: nat)
    requires AllSamples(pixels) && w > 0 && rows > 0 && |pixels| == rows * w
    ensures IsGrid(AsciiArt(pixels, w), pixels, w, rows)
  {
    var lines := Chunks(Flatten(pixels), w);
    var art := AsciiArt(pixels, w);
    GridLines(pixels, w, rows);
    ChunkCells(pixels, w, rows);
    assert Split(art) == lines;
    NewlineCountJoin(lines);
    JoinNoTrailingNewline(lines);
  }

  /**
   `process_image` on the grey buffer that the resize produced: the result is
   an `OutputHeight` by `outputWidth` grid of the pixels' ramp characters, and
   deleting its separators gives the flat per-pixel string.
   */
  function ProcessImage(pixels: seq<int>, width: nat, height: nat, outputWidth: nat): (art: string)
    requires width > 0 && outputWidth > 0
    requires OutputHeight(outputWidth, width, height) > 0
    requires |pixels| == outputWidth * OutputHeight(outputWidth, width, height)
    requires AllSamples(pixels)
    ensures IsGrid(art, pixels, outputWidth, OutputHeight(outputWidth, width, height))
    ensures RemoveNewlines(art) == Flatten(pixels)
  {
    AsciiArtGrid(pixels, outputWidth, OutputHeight(outputWidth, width, height));
    AsciiArt(pixels, outputWidth)
  }

  lemma {:induction false} RemoveNewlinesKeeps(s: string, i: nat)
    requires i < |s| && s[i] != '\n'
    ensures s[i] in RemoveNewlines(s)
    decreases |s|
  {
    if i > 0 {
      RemoveNewlinesKeeps(s[1..], i - 1);
    }
  }

  /**
   A uniform buffer renders as one repeated ramp character: every character of
   the art other than the separators is the character of `v`.
   */
  lemma UniformImage(pixels: seq<int>, outputWidth: nat, v: int)
    requires IsSample(v) && outputWidth > 0
    requires forall i :: 0 <= i < |pixels| ==> pixels[i] == v
    ensures forall k ::
      (0 <= k < |AsciiArt(pixels, outputWidth)| && AsciiArt(pixels, outputWidth)[k] != '\n') ==>
        AsciiArt(pixels, outputWidth)[k] == Ramp[RampIndex(v)]
  {
    var art := AsciiArt(pixels, outputWidth);
    forall k | 0 <= k < |art| && art[k] != '\n'
      ensures art[k] == Ramp[RampIndex(v)]
    {
      RemoveNewlinesKeeps(art, k);
    }
  }
}
