# ASCII Art Editor core, modelled in Dafny

This project models the computational core of the ASCII art editor in
`ASCII_Art_Converter/editor_ascii_images.py`. There are three parts:

- **Quantiser** (`process_image`, module `Quantizer`). It computes the number of
  text rows from the source dimensions. It maps each 0–255 grey sample to
  one character of the ramp `" .:-=+*#%@"` by truncating division,
  `p * 9 // 255`. It cuts the one-character-per-pixel string into
  `output_width`-wide lines and joins them with `'\n'`. The input is the grey
  buffer after `convert("L")` and `resize`, given as a `seq<int>` of samples
  in [0,255], together with the source width and height.
- **Preview downscaler** (`downscale_image`, module `Downscaler`). It works on
  the `(width, height)` pair only. Width is clamped first. Height is clamped
  second, and the width is then recomputed from the original aspect ratio.
- **Inversion** (the lambda in `adjust_image`, module `Adjuster`). It is the
  per-sample map `x ↦ 255 - x`. It is applied after the three enhancers
  when the invert flag is set.

`Arith` holds three multiplication facts that the proofs use as hints.

Everything is a pure function over `seq`/`nat` values, as in the source.
There are no loops and no mutated structures.

Python's float `aspect_ratio` is modelled with exact integer floor
arithmetic:

- `output_height` is `outputWidth * height / (2 * width)`.
- The width step gives height `maxWidth * height / width`.
- The height step gives width `maxHeight * width / height`.

A float product or quotient can fall just below an exact integer. At such boundary cases
the source can then give a value one smaller than the model.

Facts about the code that the model records:

- Sample 127 maps to `=`: `127 * 9 // 255` is 4, and ramp index 4 of
  `" .:-=+*#%@"` is `=` (`RampBoundaries`).
- The height step divides the bound `max_height` by the *original*
  `aspect_ratio`, not by a ratio taken after the width step
  (`DownscaleHeightStep`).
- The ramp index is never clamped. It is in range for every 8-bit sample
  (`RampIndex`).
- No typed errors are raised. A zero source width in `process_image`, or in
  `downscale_image` when the image is over the bounds, raises
  `ZeroDivisionError`. A zero output size makes PIL's `resize` raise
  `ValueError`. These cases appear here as preconditions.

## Model

| member | source | states |
|---|---|---|
| Quantizer.OutputHeight | ASCII_Art_Converter/editor_ascii_images.py:27-29 | the row count is the floor of `outputWidth * height / width / 2`: `2*width*rows <= outputWidth*height < 2*width*(rows+1)` |
| Quantizer.OutputHeightExample | ASCII_Art_Converter/editor_ascii_images.py:27-29 | 100 columns over a 300 x 150 source give 25 rows |
| Quantizer.RampIndex | ASCII_Art_Converter/editor_ascii_images.py:32-34 | for every sample in [0,255] the index lies in [0,9], so the ramp is never indexed out of range; it is the floor of `p*9/255` |
| Quantizer.CharOf | ASCII_Art_Converter/editor_ascii_images.py:32-34 | the character of a sample is a ramp character and never `'\n'`; it is blank exactly when `p*9 < 255` (samples 0 to 28) and `@` exactly for 255 |
| Quantizer.RampBoundaries | ASCII_Art_Converter/editor_ascii_images.py:32-34 | 0 gives `' '`, 255 gives `'@'`, 127 gives index 4 `'='`; 25 gives index 0 `' '` where rounding would give 1 |
| Quantizer.RampIndexMonotone | ASCII_Art_Converter/editor_ascii_images.py:34 | a larger sample never gets a smaller ramp index |
| Quantizer.Flatten | ASCII_Art_Converter/editor_ascii_images.py:34 | the joined string has exactly one character per pixel, character `i` being the ramp character of pixel `i` |
| Quantizer.Chunks | ASCII_Art_Converter/editor_ascii_images.py:35 | the slice comprehension: no lines exactly for the empty string, and every line has between 1 and `w` characters (`LinesWithin`) |
| Quantizer.Join | ASCII_Art_Converter/editor_ascii_images.py:35 | `'\n'.join`: the joined text holds the lines' characters plus exactly one separator between each two |
| Quantizer.ChunkAt | ASCII_Art_Converter/editor_ascii_images.py:35 | line `i` of the chunking is the slice `s[i*w : (i+1)*w]`, clipped at the end of the string |
| Quantizer.ChunksCover | ASCII_Art_Converter/editor_ascii_images.py:35 | the lines reach the end of the string: `|s| <= lines * w` |
| Quantizer.ConcatChunks | ASCII_Art_Converter/editor_ascii_images.py:35 | concatenating the lines gives the flat string back |
| Quantizer.ChunksCount | ASCII_Art_Converter/editor_ascii_images.py:35 | on `h*w` characters the chunking has exactly `h` lines |
| Quantizer.ChunksExact | ASCII_Art_Converter/editor_ascii_images.py:35 | on `h*w` characters line `i` is exactly the `w`-character slice `s[i*w : i*w + w]` |
| Quantizer.ChunksNoNewline | ASCII_Art_Converter/editor_ascii_images.py:35 | slicing a separator-free string yields separator-free lines |
| Quantizer.SplitJoin | ASCII_Art_Converter/editor_ascii_images.py:35 | splitting the `'\n'`-joined lines at `'\n'` gives the lines back when none contains `'\n'` |
| Quantizer.RemoveNewlinesJoin | ASCII_Art_Converter/editor_ascii_images.py:35 | deleting the separators from joined separator-free lines gives their concatenation |
| Quantizer.NewlineCountJoin | ASCII_Art_Converter/editor_ascii_images.py:35 | `n` joined separator-free lines contain exactly `n - 1` separators |
| Quantizer.JoinEndsWithLast | ASCII_Art_Converter/editor_ascii_images.py:35 | the joined text ends with the last line, so no trailing separator is added |
| Quantizer.JoinNoTrailingNewline | ASCII_Art_Converter/editor_ascii_images.py:35 | joined separator-free lines whose last line is non-empty do not end with `'\n'` |
| Quantizer.AsciiArt | ASCII_Art_Converter/editor_ascii_images.py:34-35 | quantise, chunk and join; deleting the `'\n'` separators from the result gives the flat one-character-per-pixel string, for any buffer length |
| Quantizer.GridCell | ASCII_Art_Converter/editor_ascii_images.py:34-35 | in an exact-size buffer, character `j` of line `i` is the ramp character of pixel `i*w + j` (row-major order kept) |
| Quantizer.ChunkCells | ASCII_Art_Converter/editor_ascii_images.py:34-35 | every cell of the `rows` x `w` chunking holds its pixel's ramp character |
| Quantizer.FlattenLinesNoNewline | ASCII_Art_Converter/editor_ascii_images.py:34-35 | neither the flat string nor any of its lines contains `'\n'` |
| Quantizer.GridLines | ASCII_Art_Converter/editor_ascii_images.py:35 | splitting the art of a `rows*w` buffer at `'\n'` gives back exactly its `rows` lines of `w` characters |
| Quantizer.AsciiArtGrid | ASCII_Art_Converter/editor_ascii_images.py:34-35 | a buffer of `rows*w` pixels renders as exactly `rows` lines of `w` characters, cell `(i, j)` being pixel `i*w + j`, with `rows - 1` separators and no trailing one |
| Quantizer.ProcessImage | ASCII_Art_Converter/editor_ascii_images.py:24-37 | `process_image` on the resized grey buffer yields an `OutputHeight` x `outputWidth` grid of the pixels' ramp characters, and deleting its separators gives the flat string |
| Quantizer.UniformImage | ASCII_Art_Converter/editor_ascii_images.py:34-35 | a buffer whose samples all equal `v` renders with every non-separator character equal to `ramp[v*9//255]` |
| Downscaler.ClampWidth | ASCII_Art_Converter/editor_ascii_images.py:44-46 | a width within the bound leaves the size unchanged; a width over it becomes the bound and the height the floor of `maxWidth * height / width`; the width always ends within the bound and neither dimension grows |
| Downscaler.ClampHeight | ASCII_Art_Converter/editor_ascii_images.py:47-49 | a height within the bound leaves the size unchanged; a height over it becomes the bound and the width the floor of `maxHeight * width / height` from the original dimensions |
| Downscaler.Downscale | ASCII_Art_Converter/editor_ascii_images.py:39-51 | an image within both bounds is returned unchanged; every result fits both bounds and neither dimension exceeds the original; a zero width is accepted within the bounds |
| Downscaler.ClampBoth | ASCII_Art_Converter/editor_ascii_images.py:42-49 | the width step followed by the height step fits both bounds and never enlarges either dimension |
| Downscaler.HeightStepNarrower | ASCII_Art_Converter/editor_ascii_images.py:43-49 | the width recomputed by the height step is strictly below `maxWidth` |
| Downscaler.DownscaleWidthStep | ASCII_Art_Converter/editor_ascii_images.py:43-46 | width is clamped first: when the proportional height then fits, the result is `maxWidth` wide with the height scaled by the same factor |
| Downscaler.DownscaleHeightStep | ASCII_Art_Converter/editor_ascii_images.py:43-49 | when the height still exceeds the bound after the width step, the result is `maxHeight` tall with the width derived from the original aspect ratio |
| Downscaler.DownscalePreviewExamples | ASCII_Art_Converter/editor_ascii_images.py:39-51 | worked cases at the 800 x 600 defaults, including one that needs both steps |
| Downscaler.DownscaleTwoStepNotJoint | ASCII_Art_Converter/editor_ascii_images.py:44-49 | the two truncating steps can keep a width that a single joint scale factor would have reduced |
| Adjuster.InvertSample | ASCII_Art_Converter/editor_ascii_images.py:20 | `255 - x` maps [0,255] into [0,255] |
| Adjuster.Invert | ASCII_Art_Converter/editor_ascii_images.py:20 | inverting an image keeps its sample count and keeps every sample in [0,255] |
| Adjuster.Adjust | ASCII_Art_Converter/editor_ascii_images.py:19-22 | the invert step keeps the sample count and the 8-bit range |
| Adjuster.InvertSampleInvolution | ASCII_Art_Converter/editor_ascii_images.py:20 | inverting a sample twice returns it |
| Adjuster.InvertInvolution | ASCII_Art_Converter/editor_ascii_images.py:20 | inverting an image twice returns it |
| Adjuster.AdjustInvertRoundTrip | ASCII_Art_Converter/editor_ascii_images.py:19-22 | with the flag off the step is the identity; with it on, applying it twice is the identity |
| Adjuster.InvertMirrorsRamp | ASCII_Art_Converter/editor_ascii_images.py:20 | the ramp indices of `x` and `255 - x` sum to 9 when `x` is a multiple of 85 and to 8 otherwise |

## Left out

- The `ImageEnhance.Color`, `Contrast` and `Brightness` steps of `adjust_image` (lines 12-17) are not modelled. They are float blends inside PIL, whose code is not part of this model. `Adjust` takes their output as its input.
- `image.convert("L")` (line 26) and both `resize` calls (lines 30, 50) are not modelled. They are PIL's resampling and luminance code. The quantiser takes the resized grey buffer as input. Its length is required to be `outputWidth * OutputHeight(...)`, which `resize` guarantees.
- Quantizer.OutputHeight: uses exact floor arithmetic rather than Python floats, so it does not capture a float rounding one below an exact integer quotient.
- Downscaler.ClampWidth: uses exact floor arithmetic rather than `int(width * aspect_ratio)` on floats, so it does not capture the same boundary rounding.
- Downscaler.ClampHeight: uses exact floor arithmetic rather than `int(height / aspect_ratio)` on floats, for the same reason.
- Downscaler.Downscale: requires a positive width when the height is over the bound, because line 43 then divides by the width and the source raises `ZeroDivisionError`; that failure is not modelled.
- Zero source width, a non-positive output width, and a computed output height of 0 are preconditions of `ProcessImage`. The source fails on them with a Python or PIL exception. A downscale result with a zero dimension would likewise fail inside PIL's `resize`. That failure is not modelled.
- The default `output_width=200` of `process_image` is not modelled. `ProcessImage` takes the width as a parameter.
- The Tkinter GUI, `update_preview` event wiring, `open_image` file dialog, `copy_ascii` clipboard, and `save_ascii_as_html` file write with its HTML template (lines 53-163) are not modelled. They are I/O and presentation. The unused `cv2` and `numpy` imports are not modelled either.
