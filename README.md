# image-synthesizer: a verified model of the compositing core

The Go program `main.go` composites one background image with a list of layers from a JSON
configuration. Image layers are scaled and centred on a percentage position. Text layers are
split into lines, aligned and stacked. Layers are drawn in order of their `Depth`, and the
result is saved. This project models the deterministic logic inside that program and proves
what it guarantees:

- `hex_color.dfy` (module `HexColor`) models `parseHexColor`. It decodes `#RRGGBB` and `#RGB`,
  with alpha forced to 0xFF and the short form's digits multiplied by 17 (CSS Color Module
  Level 3, section 4.2.1). It also models the part of `fmt.Sscanf` the function relies on,
  and holds a corrected parser for the defect listed under Findings.
- `text_layout.dfy` (module `TextLayout`) models the layout arithmetic of `drawText`:
  - the text is split on the two-byte token backslash-`n`;
  - each line's x origin comes from the alignment string;
  - line `i` has y origin `anchorY + i * lineHeight`.
- `drawing.dfy` (module `Drawing`) models the canvas `outputImg` as a class. Its methods
  `Overlay` and `DrawText` append paint operations. `DrawText` is the loop of `drawText`.
- `layers.dfy` (module `Layers`) holds the `CompositeItem` record, the in-place sort by depth,
  and the top-left placement of an image layer.
- `composition.dfy` (module `Composition`) models the loop of `main` as a state machine:
  - the font cache is keyed by font name;
  - a layer image that fails to load is skipped;
  - a bad colour or a font failure ends the run before the save.
  The class `Composition` holds `main`'s variables and runs the loop. The loop parses colours
  with the parser as written, as `main` does.
- `basics.dfy` (module `Basics`) holds bytes, `Option`, `Result` and Go's truncating division.

Go strings are byte sequences, so every string is a `seq<byte>`. Pixels are abstract. A canvas
is the background it was cloned from, followed by the ordered list of paint operations applied
to it. The collaborators the loop calls are opaque functions, gathered in
`Composition.Env`:
- image loading and Lanczos resizing;
- the float conversion from percentage to pixel;
- the font file checks, the OpenType parser and the face constructor;
- text measurement.

A run whose colour string is empty ends with `ColorPanic`. This matches the Go program, which
indexes `s[0]` of that string and panics.

## Model

| member | source | states |
|---|---|---|
| `Basics.Quo` | main.go:166-167 | Go's `/` on `int` truncates toward zero: the remainder is smaller than the divisor and has the dividend's sign |
| `HexColor.TokenLength` | main.go:75 | a `%x` field of width `w` collects the longest run, of at most `w` bytes, of hexadecimal digits and `_` from the front |
| `HexColor.ScanField` | main.go:75 | one `%0wx` field succeeds exactly when the collected run is non-empty and all hexadecimal; it then consumes that whole run (stopping at `w` bytes, the end, or a byte it cannot collect) and yields its value; no leading digit, or a `_` in the run, is an error |
| `HexColor.ScanChannels` | main.go:75-78 | three fields in a row: no leading digit fails, `3w` hexadecimal digits succeed whatever follows them, and one-digit channels are below 16 |
| `HexColor.ParseHexColor` | main.go:68-86 | as written: needs a non-empty string (`s[0]`); alpha is always 0xFF; "invalid color format" exactly when the first byte is not `#` or the length is neither 7 nor 4 |
| `HexColor.LongFormChannels` | main.go:74-76 | `#` plus six hexadecimal digits gives each channel the value of its two digits |
| `HexColor.ShortFormChannels` | main.go:77-82 | `#RGB` succeeds exactly when the three bytes are hexadecimal digits, and each channel is then digit × 17 (the uint8 `*= 17` never wraps) |
| `HexColor.TrailingByteAccepted` | main.go:75 | as written, `#12345z` parses without error as (0x12, 0x34, 0x05, 0xFF) |
| `HexColor.ParseHexColorStrict` | main.go:68-86 | corrected parser: succeeds exactly on `#` plus three or six hexadecimal digits, gives each channel its two-digit value or digit × 17 and alpha 0xFF, and reports "invalid color format" exactly for an empty string, a missing `#` or a wrong length |
| `HexColor.StrictAgreesWithSource` | main.go:68-86 | wherever the corrected parser succeeds the code as written returns the same colour, and wherever the code as written fails the corrected parser fails too |
| `HexColor.ShortFormIsDoubledLongForm` | main.go:74-82 | for any three bytes, the parser as written accepts `#abc` exactly when it accepts `#aabbcc`, and then gives the same colour; the corrected parser gives the same result for both |
| `HexColor.FormatThenParse` | main.go:74-76 | writing an opaque colour as `#rrggbb` and parsing it, with the parser as written or the corrected one, gives the colour back |
| `HexColor.ColorExamples` | main.go:68-86 | with the parser as written and with the corrected one, `#ffffff` and `#fff` are white, `#336699` is (51, 102, 153, 255), and `336699` and `#12` are invalid formats |
| `TextLayout.SplitLines` | main.go:89 | `strings.Split` gives at least one line, even for an empty text |
| `TextLayout.JoinSplit` | main.go:89 | joining the split lines with the backslash-`n` token rebuilds the text |
| `TextLayout.SplitCount` | main.go:89 | splitting gives exactly one line more than there are occurrences of the token |
| `TextLayout.LinesHaveNoBreak` | main.go:89 | no line contains the token |
| `TextLayout.NoBreakOneLine` | main.go:89 | a text without the token, such as one with a real newline byte, is a single line |
| `TextLayout.SplitExamples` | main.go:89 | `A\nB\nC` with literal backslash-n is the three lines A, B, C; `A`, newline byte, `B` is one line |
| `TextLayout.AlignOf` | main.go:93-100 | the alignment is center exactly for the string "center", right exactly for "right", and left for everything else |
| `TextLayout.LineX` | main.go:93-100 | center puts the anchor at the middle of a line of non-negative width (x = anchorX − width/2, truncated), right at its end (x = anchorX − width), any other string at its start (x = anchorX) |
| `TextLayout.LineY` | main.go:106-108 | line 0 sits on the anchor, and with a non-negative line height no line sits above it |
| `TextLayout.LinesStackDownward` | main.go:106-108 | line 0 sits at anchorY, each line is one line height below the previous one, and with a positive line height y strictly increases with the line index |
| `TextLayout.LayoutExamples` | main.go:93-108 | anchor x 300 and width 60 give 300, 270, 240 for left, center, right, and 300 for "" and "Center"; anchor y 100 and height 20 give 100, 120, 140 |
| `Drawing.TextPaints` | main.go:88-113 | `drawText` paints glyph run `i` with line `i` of the split text, one run per line, all in the given colour and face |
| `Drawing.TextPaintsLayout` | main.go:88-113 | `drawText` paints one glyph run per token plus one, in line order, in the given colour and face; no run holds the token, the runs rebuild the text, and run `i` sits at the aligned x and at anchorY + i × lineHeight |
| `Drawing.Canvas.Clone` | main.go:141 | the canvas starts as the background with nothing painted |
| `Drawing.Canvas.Overlay` | main.go:169 | overlaying appends one blend of the scaled image at the given point with opacity 1.0 |
| `Drawing.Canvas.DrawText` | main.go:88-113 | the loop over the lines appends exactly the glyph runs `TextPaintsLayout` describes, in order |
| `Layers.SortByDepth` | main.go:143-145 | after the sort the items are a permutation of the input with non-decreasing depths; the order of equal depths is not promised |
| `Layers.SortedPermutationsShareDepths` | main.go:143-145 | any two depth-sorted permutations of the same items have the same sequence of depths, so only the order among equal depths is left open |
| `Layers.ImageTopLeft` | main.go:166-167 | the top-left is the anchor minus half the scaled size, so the anchor is the centre of the image; nothing clamps it to the canvas |
| `Layers.PlacementExamples` | main.go:161-169 | anchor (500, 400) and a 100 × 50 image give (450, 375); anchor (0, 0) gives (−50, −25), off the canvas |
| `Composition.FontDir` | main.go:186-195 | a font directory exists exactly on Windows and macOS, joined with `\` and `/` respectively |
| `Composition.LoadFace` | main.go:185-222 | every other system fails as unsupported; every other failure names the font path; on Windows and macOS the load succeeds exactly when the file exists, is read, parses and yields a face at the layer's scale, and the face returned is that one |
| `Composition.CachedFace` | main.go:183-225 | a lookup either fails on an uncached name or returns the face now stored under the name, in a cache that kept every entry and gained at most that name |
| `Composition.Step` | main.go:150-230 | only a text layer can end the run; any other layer leaves the font cache as it was; nothing painted is taken back |
| `Composition.RunLayers` | main.go:149-231 | the canvas only gains paint over a run, and a list without text layers always reaches the save with its starting font cache |
| `Composition.CacheHitIgnoresScale` | main.go:183-184 | a font already in the cache is returned as it is, whatever the scale of the layer asking for it |
| `Composition.CacheMissInserts` | main.go:183-225 | a miss succeeds exactly when building the face succeeds; the new face is stored under the font name, and every other entry is kept |
| `Composition.TextStepUsesCachedFace` | main.go:177-228 | a text layer whose font is cached goes on exactly when its colour is non-empty and parses; it then draws with the parsed colour and the cached face and leaves the cache unchanged; a well-formed colour parses as the corrected parser reads it |
| `Composition.TextStepDraws` | main.go:177-228 | every text layer that goes on has a non-empty colour the parser as written accepts, and draws its lines in that colour with the face now cached under its font: the cached one on a hit, the one built at this layer's scale on a miss |
| `Composition.UnsupportedPlatformHaltsOnFontLookup` | main.go:183-194 | on a system other than Windows and macOS, a text layer with a parsed colour and an uncached font halts with "unsupported", and a list without text layers still reaches the save |
| `Composition.StepCache` | main.go:149-230 | one layer keeps every cache entry, adds at most its own font (text layers only), and a new entry is the face built at that layer's scale |
| `Composition.RunCache` | main.go:147-231 | a run that reaches the save keeps every initial entry; it ends holding exactly the initial fonts plus those its text layers name; each new face is built at the scale of the first text layer naming that font |
| `Composition.RunAppend` | main.go:149-231 | the layers are processed in list order: running `xs + ys` is running `xs` and then `ys`, and a halt in `xs` is the result of the whole |
| `Composition.FailedImageIsSkipped` | main.go:152-157 | an image layer whose file does not load changes nothing: the run is the same as without that layer |
| `Composition.ReachedFailureHalts` | main.go:177-222 | once reached, a text layer with an empty colour, a colour the parser as written rejects, or an uncached font that cannot be loaded halts the run, so the save is never reached |
| `Composition.SaveMeansTextLayersResolved` | main.go:149-231 | a run reaches the save only if every text layer has a non-empty colour the parser as written accepts and its font is in the final cache |
| `Composition.OtherKindIgnored` | main.go:150 | a layer whose type is neither "image" nor "text" is ignored |
| `Composition.Composition.constructor` | main.go:141-147 | a run starts with the decoded items, a clone of the background and an empty font cache |
| `Composition.Composition.DrawLayer` | main.go:150-230 | the loop body changes the cache and the canvas exactly as one step of the state machine says, and returns the halt where the source returns from `main` |
| `Composition.Composition.Compose` | main.go:143-231 | the items end sorted by depth and permuted, and the outcome and the final cache and canvas are those of the state machine over the sorted items |

## Findings

| source | as written | input that shows it | evidently intended | confidence | as-written member | corrected member |
|---|---|---|---|---|---|---|
| main.go:75 | the long form is scanned with field widths of at most two digits, and bytes after the third field are ignored | `#12345z` gives (0x12, 0x34, 0x05, 0xFF) and no error | accept `#RRGGBB` only with six hexadecimal digits | high; not executed | `HexColor.TrailingByteAccepted` | `HexColor.ParseHexColorStrict` |

The composition model runs the parser as written, so `#12345z` is drawn as (0x12, 0x34, 0x05),
as in the Go program. On every string the corrected parser accepts, the code as written gives
the same colour (`StrictAgreesWithSource`). A text layer whose font is already cached and whose colour
is well-formed is therefore drawn exactly as the corrected parser reads it
(`TextStepUsesCachedFace`). Every text layer that goes on, whether its font was cached or is
loaded now, draws in the colour the parser as written returns (`TextStepDraws`).

## Left out

- Flag parsing, opening and decoding the configuration, and loading the background
  (main.go:116-139) are I/O. The background is an input of the run.
- Creating the output directory, `imaging.Save` and console messages (main.go:233-245) are
  I/O. A run that reaches the save ends with `ReachesSave`.
- Pixels are not modelled. This covers Lanczos resampling, alpha blending in
  `imaging.Overlay` and glyph rasterisation in `font.Drawer.DrawString`. The canvas is the
  ordered list of paint operations.
- Float maths is abstract: the percentage-to-pixel conversion and the scaled image size are
  the opaque functions `toPixel` and `resize` of `Env`. The font size `scale * 12` is passed
  to the opaque `newFace`.
- `font.MeasureString(...).Ceil()` is the opaque `measure`. `Metrics().Height.Ceil()` is
  the face's `lineHeight`.
- Of `runtime.GOOS`, only Windows, macOS and other systems are told apart. On other systems
  the font lookup fails with `UnsupportedPlatform`. The first text layer that needs a font
  not yet cached therefore halts the run, while image layers are drawn as usual.
- `HexColor.ParseHexColor`: `fmt.Sscanf` skips white space before each field, so `#f f f `
  scans successfully in Go. The model treats any byte that is not a digit as the end of the
  field, so it rejects such strings.
- `HexColor.ParseHexColor`: on an error it returns only the error. Go also returns a colour
  with alpha 0xFF and whatever channels were scanned, and the caller discards it.
- `Drawing.Canvas.DrawText`: the dot is kept in whole pixels. The source's `fixed.Int26_6`
  is a 32-bit value with six fractional bits, which wraps beyond about ±33 million pixels.
  Go's 64-bit `int` overflow in `i * lineHeight` is not modelled either.
- `Composition.LoadFace`: the font path is the directory, the separator, the name and
  `.ttf`. The cleaning `filepath.Join` applies (`..`, repeated separators) is not modelled.
- `Layers.SortByDepth`: Go's unstable pattern-defeating quicksort is modelled by an
  insertion sort. The contract states only what `sort.Slice` promises (sortedness and a
  permutation), and `Compose` is stated against the order the sort produced.
- `Drawing.Canvas.Overlay`: `imaging.Overlay` returns a new image that `main` assigns back to
  `outputImg`. The model appends the blend to the same canvas object instead.
